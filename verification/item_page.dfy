/** The item inventory page (`data-barang`): a list of `Barang` records seeded with thirteen
    devices, with the shared save and delete handlers. */
module ItemPage {
  import opened Options
  import opened NamedList

  type Barang = Entry

  /** The list the page starts with. */
  const InitialBarang: seq<Barang> := [
    Entry(1, "Ipad Air 1"), Entry(2, "Ipad Air 2"), Entry(3, "Ipad Air 4"),
    Entry(4, "Ipad Pro 11"), Entry(5, "Ipad Pro 12"), Entry(6, "Iphone 12"),
    Entry(7, "Galaxy Tab A6"), Entry(8, "Galaxy Tab A7 Lite"), Entry(9, "Galaxy Tab A9 Lite"),
    Entry(10, "Galaxy Tab A9+"), Entry(11, "Galaxy A53"), Entry(12, "Galaxy A54"),
    Entry(13, "Galaxy A55")
  ]

  /** `handleSaveBarang`. */
  function SaveBarang(barangList: seq<Barang>, editingBarangId: Option<nat>, currentBarangName: string): (r: seq<Barang>)
    ensures SaveSpec(barangList, editingBarangId, currentBarangName, r)
    ensures UniqueIds(barangList) ==> UniqueIds(r)
  {
    Save(barangList, editingBarangId, currentBarangName)
  }

  /** `handleDeleteBarang`. */
  function DeleteBarang(barangList: seq<Barang>, deletingBarangId: Option<nat>): (r: seq<Barang>)
    ensures DeleteSpec(barangList, deletingBarangId, r)
    ensures UniqueIds(barangList) ==> UniqueIds(r)
  {
    Delete(barangList, deletingBarangId)
  }

  /** The seed ids count up from 1 in list order. */
  lemma InitialIdsSequential()
    ensures forall i :: 0 <= i < |InitialBarang| ==> InitialBarang[i].id == i + 1
  {
  }

  /** The seed list has distinct ids, and the first item added to it gets id 14. */
  lemma InitialBarangWellFormed()
    ensures UniqueIds(InitialBarang)
    ensures NextId(InitialBarang) == 14
  {
    InitialIdsSequential();
    SequentialIds(InitialBarang);
  }
}
