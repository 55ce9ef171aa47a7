/** The borrower page (`data-peminjam`): a list of `User` records seeded with five people,
    with the shared save and delete handlers. */
module BorrowerPage {
  import opened Options
  import opened NamedList

  type User = Entry

  /** The list the page starts with. */
  const InitialUsers: seq<User> := [
    Entry(1, "Budi Santoso"), Entry(2, "Siti Aminah"), Entry(3, "Joko Susanto"),
    Entry(4, "Dewi Lestari"), Entry(5, "Agus Salim")
  ]

  /** `handleSaveUser`. */
  function SaveUser(users: seq<User>, editingUserId: Option<nat>, currentUserName: string): (r: seq<User>)
    ensures SaveSpec(users, editingUserId, currentUserName, r)
    ensures UniqueIds(users) ==> UniqueIds(r)
  {
    Save(users, editingUserId, currentUserName)
  }

  /** `handleDeleteUser`. */
  function DeleteUser(users: seq<User>, deletingUserId: Option<nat>): (r: seq<User>)
    ensures DeleteSpec(users, deletingUserId, r)
    ensures UniqueIds(users) ==> UniqueIds(r)
  {
    Delete(users, deletingUserId)
  }

  /** The seed ids count up from 1 in list order. */
  lemma InitialIdsSequential()
    ensures forall i :: 0 <= i < |InitialUsers| ==> InitialUsers[i].id == i + 1
  {
  }

  /** The seed list has distinct ids, and the first user added to it gets id 6. */
  lemma InitialUsersWellFormed()
    ensures UniqueIds(InitialUsers)
    ensures NextId(InitialUsers) == 6
  {
  }
}
