/** The record list shared in shape by the item page (`Barang`) and the borrower page (`User`):
    both keep a sequence of `{ id, name }` records and offer the same save and delete handlers.
    Ids are numeric strings in the pages; here they are the numbers themselves. */
module NamedList {
  import opened Options
  import opened Text
  import opened Seqs

  datatype Entry = Entry(id: nat, name: string)

  /** No two records share an id. */
  predicate UniqueIds(list: seq<Entry>) {
    forall i, j :: 0 <= i < j < |list| ==> list[i].id != list[j].id
  }

  /** Some record carries `id`. */
  predicate HasId(list: seq<Entry>, id: nat) {
    exists i :: 0 <= i < |list| && list[i].id == id
  }

  /** `Math.max(...list.map(b => parseInt(b.id)), 0)`. */
  function MaxId(list: seq<Entry>): (m: nat)
    ensures forall i :: 0 <= i < |list| ==> list[i].id <= m
    ensures m == 0 || HasId(list, m)
  {
    if |list| == 0 then 0
    else
      var m := MaxId(list[1..]);
      assert HasId(list[1..], m) ==> HasId(list, m) by {
        if HasId(list[1..], m) {
          var i :| 0 <= i < |list[1..]| && list[1..][i].id == m;
          assert list[i + 1].id == m;
        }
      }
      if list[0].id > m then list[0].id else m
  }

  /** The id an added record gets: one more than the largest existing id, or 1 for an empty
      list. */
  function NextId(list: seq<Entry>): (n: nat)
    ensures n >= 1
    ensures forall i :: 0 <= i < |list| ==> list[i].id < n
    ensures !HasId(list, n)
    ensures n == 1 || HasId(list, n - 1)
    ensures |list| == 0 ==> n == 1
  {
    MaxId(list) + 1
  }

  /** `n` is `max(ids, 0) + 1`, described without computing a maximum. */
  ghost predicate IsMaxPlusOne(list: seq<Entry>, n: nat) {
    && n >= 1
    && (forall i :: 0 <= i < |list| ==> list[i].id < n)
    && (n == 1 || HasId(list, n - 1))
  }

  /** What the save handler promises: a blank name leaves the list alone; add mode appends one
      record with a fresh id and the trimmed name; edit mode gives the trimmed name to every
      record carrying the edited id and keeps everything else, ids and order included. */
  ghost predicate SaveSpec(list: seq<Entry>, editing: Option<nat>, name: string, r: seq<Entry>) {
    if IsBlank(name) then r == list
    else match editing
      case None =>
        && |r| == |list| + 1
        && r[..|list|] == list
        && r[|list|].name == Trim(name)
        && IsMaxPlusOne(list, r[|list|].id)
      case Some(id) =>
        && |r| == |list|
        && forall i :: 0 <= i < |list| ==>
             && r[i].id == list[i].id
             && r[i].name == (if list[i].id == id then Trim(name) else list[i].name)
  }

  /** What the delete handler promises: with nothing pending the list is unchanged; otherwise
      the result is the longest order-preserving selection of records whose id differs. */
  ghost predicate DeleteSpec(list: seq<Entry>, deleting: Option<nat>, r: seq<Entry>) {
    match deleting
    case None => r == list
    case Some(id) => KeepsExactly(r, list, (e: Entry) => e.id != id)
  }

  /** `list.map(b => b.id === id ? { ...b, name } : b)`. */
  function Rename(list: seq<Entry>, id: nat, name: string): (r: seq<Entry>)
    ensures |r| == |list|
    ensures forall i :: 0 <= i < |list| && list[i].id != id ==> r[i] == list[i]
    ensures forall i :: 0 <= i < |list| && list[i].id == id ==> r[i] == Entry(id, name)
  {
    seq(|list|, i requires 0 <= i < |list| =>
      if list[i].id == id then list[i].(name := name) else list[i])
  }

  /** `list.filter(b => b.id !== id)`. */
  function Remove(list: seq<Entry>, id: nat): (r: seq<Entry>)
    ensures |r| <= |list|
    ensures forall i :: 0 <= i < |r| ==> r[i].id != id
    ensures forall e :: e in r <==> e in list && e.id != id
    ensures IsSubsequence(r, list)
    ensures KeepsExactly(r, list, (e: Entry) => e.id != id)
  {
    FilterKeepsExactly(list, list, (e: Entry) => e.id != id);
    FilterMembers(list, (e: Entry) => e.id != id);
    SubsequenceBound(Filter(list, (e: Entry) => e.id != id), list);
    Filter(list, (e: Entry) => e.id != id)
  }

  /** `handleSaveBarang` / `handleSaveUser`: `editing` is the id being edited (`None` in add
      mode) and `name` the text typed into the form. */
  function Save(list: seq<Entry>, editing: Option<nat>, name: string): (r: seq<Entry>)
    ensures SaveSpec(list, editing, name, r)
    ensures UniqueIds(list) ==> UniqueIds(r)
  {
    if IsBlank(name) then list
    else match editing
      case Some(id) => Rename(list, id, Trim(name))
      case None =>
        var added := Entry(NextId(list), Trim(name));
        var r := list + [added];
        assert r[..|list|] == list;
        assert forall i :: 0 <= i < |list| ==> r[i] == list[i] && r[i].id < added.id;
        r
  }

  /** `handleDeleteBarang` / `handleDeleteUser`: `deleting` is the id awaiting confirmation. */
  function Delete(list: seq<Entry>, deleting: Option<nat>): (r: seq<Entry>)
    ensures DeleteSpec(list, deleting, r)
    ensures forall i :: 0 <= i < |r| ==> Some(r[i].id) != deleting
    ensures UniqueIds(list) ==> UniqueIds(r)
  {
    match deleting
    case None => list
    case Some(id) =>
      FilterKeepsExactly(list, list, (e: Entry) => e.id != id);
      RemoveKeepsUniqueIds(list, id);
      Remove(list, id)
  }

  /** At most one list satisfies `SaveSpec`: the description pins the handler down. */
  lemma SaveSpecDeterminate(list: seq<Entry>, editing: Option<nat>, name: string, r1: seq<Entry>, r2: seq<Entry>)
    requires SaveSpec(list, editing, name, r1) && SaveSpec(list, editing, name, r2)
    ensures r1 == r2
  {
  }

  /** At most one list satisfies `DeleteSpec`. */
  lemma DeleteSpecDeterminate(list: seq<Entry>, deleting: Option<nat>, r1: seq<Entry>, r2: seq<Entry>)
    requires DeleteSpec(list, deleting, r1) && DeleteSpec(list, deleting, r2)
    ensures r1 == r2
  {
    match deleting
    case None =>
    case Some(id) =>
      FilterKeepsExactly(r1, list, (e: Entry) => e.id != id);
      FilterKeepsExactly(r2, list, (e: Entry) => e.id != id);
  }

  /** Deleting keeps ids pairwise distinct: the survivors are distinct records of `list`. */
  lemma {:induction false} RemoveKeepsUniqueIds(list: seq<Entry>, id: nat)
    ensures UniqueIds(list) ==> UniqueIds(Remove(list, id))
    decreases |list|
  {
    if |list| > 0 && UniqueIds(list) {
      var rest := Remove(list[1..], id);
      RemoveKeepsUniqueIds(list[1..], id);
      if list[0].id != id {
        assert Remove(list, id) == [list[0]] + rest;
        forall j | 0 <= j < |rest|
          ensures rest[j].id != list[0].id
        {
          assert rest[j] in list[1..];
        }
      } else {
        assert Remove(list, id) == rest;
      }
    }
  }

  /** A list whose ids are 1, 2, ..., in order, has distinct ids and grows with the id after
      its length. */
  lemma SequentialIds(list: seq<Entry>)
    requires forall i :: 0 <= i < |list| ==> list[i].id == i + 1
    ensures UniqueIds(list)
    ensures NextId(list) == |list| + 1
  {
    if |list| > 0 {
      assert list[|list| - 1].id == |list|;
    }
  }

  /** Editing an id that no record carries leaves the list unchanged. */
  lemma EditAbsentIsNoOp(list: seq<Entry>, id: nat, name: string)
    requires !HasId(list, id)
    ensures Save(list, Some(id), name) == list
  {
  }

  /** Saving the same edit twice is saving it once. */
  lemma EditIdempotent(list: seq<Entry>, id: nat, name: string)
    ensures Save(Save(list, Some(id), name), Some(id), name) == Save(list, Some(id), name)
  {
  }

  /** Deleting an id that no record carries leaves the list unchanged. */
  lemma DeleteAbsentIsNoOp(list: seq<Entry>, id: nat)
    requires !HasId(list, id)
    ensures Delete(list, Some(id)) == list
  {
    FilterAllKept(list, (e: Entry) => e.id != id);
  }

  /** Deleting the same id twice is deleting it once. */
  lemma DeleteIdempotent(list: seq<Entry>, deleting: Option<nat>)
    ensures Delete(Delete(list, deleting), deleting) == Delete(list, deleting)
  {
    if deleting.Some? {
      FilterIdempotent(list, (e: Entry) => e.id != deleting.value);
    }
  }

  /** Deleting the record just added restores the list as it was before the add. */
  lemma AddThenDelete(list: seq<Entry>, name: string)
    requires !IsBlank(name)
    ensures Delete(Save(list, None, name), Some(NextId(list))) == list
  {
    var n := NextId(list);
    var keep := (e: Entry) => e.id != n;
    FilterAppend(list, [Entry(n, Trim(name))], keep);
    FilterAllKept(list, keep);
  }
}
