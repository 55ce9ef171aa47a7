/** The loan calendar page (`peminjaman`): a list of loan events with a free-text title, a
    start and an end, edited through a modal form. */
module LoanEvents {
  import opened Options
  import opened Text
  import opened Seqs

  /** `PeminjamanEvent`. Ids are strings as in the page; an absent end is the empty string,
      which is what the edit form holds for an event without one. */
  datatype Event = Event(id: string, title: string, start: string, end: string)

  /** The list the page starts with. */
  const InitialEvents: seq<Event> := [
    Event("1", "Peminjaman Ipad Air 2 oleh Budi", "2025-07-25T10:00:00", "2025-07-25T12:00:00"),
    Event("2", "Peminjaman Galaxy Tab A7 Lite oleh Siti", "2025-07-26T14:00:00", "2025-07-26T16:00:00"),
    Event("3", "Peminjaman Iphone 12 oleh Joko", "2025-07-27", "2025-07-28"),
    Event("4", "Peminjaman Galaxy A54 oleh Dewi", "2025-07-28T09:00:00", "2025-07-28T11:00:00")
  ]

  /** JavaScript truthiness of `editingEventId`: `null` and the empty string both mean that
      no event is being edited. */
  predicate IsEditing(editingEventId: Option<string>) {
    editingEventId.Some? && editingEventId.value != ""
  }

  /** The form check: a title and a start that are not blank. The end is never looked at. */
  predicate Accepts(title: string, start: string) {
    !IsBlank(title) && !IsBlank(start)
  }

  /** Some event carries `id`. */
  predicate HasEventId(events: seq<Event>, id: string) {
    exists i :: 0 <= i < |events| && events[i].id == id
  }

  /** `events.map(ev => ev.id === id ? { ...ev, title, start, end } : ev)`. */
  function Update(events: seq<Event>, id: string, title: string, start: string, end: string): (r: seq<Event>)
    ensures |r| == |events|
    ensures forall i :: 0 <= i < |events| && events[i].id != id ==> r[i] == events[i]
    ensures forall i :: 0 <= i < |events| && events[i].id == id ==> r[i] == Event(id, title, start, end)
  {
    seq(|events|, i requires 0 <= i < |events| =>
      if events[i].id == id then events[i].(title := title, start := start, end := end) else events[i])
  }

  /** `events.filter(ev => ev.id !== id)`. */
  function Remove(events: seq<Event>, id: string): (r: seq<Event>)
    ensures KeepsExactly(r, events, (e: Event) => e.id != id)
    ensures forall i :: 0 <= i < |r| ==> r[i].id != id
    ensures forall e :: e in r <==> e in events && e.id != id
  {
    FilterKeepsExactly(events, events, (e: Event) => e.id != id);
    FilterMembers(events, (e: Event) => e.id != id);
    Filter(events, (e: Event) => e.id != id)
  }

  /** `handleSaveEvent`. `newId` stands for `String(Date.now())`, read only in add mode. */
  function SaveEvent(events: seq<Event>, editingEventId: Option<string>, title: string, start: string,
                     end: string, newId: string): (r: seq<Event>)
    ensures !Accepts(title, start) ==> r == events
    ensures Accepts(title, start) && !IsEditing(editingEventId) ==>
      && |r| == |events| + 1
      && r[..|events|] == events
      && r[|events|] == Event(newId, Trim(title), start, end)
    ensures Accepts(title, start) && IsEditing(editingEventId) ==>
      && |r| == |events|
      && forall i :: 0 <= i < |events| ==>
           && r[i].id == events[i].id
           && r[i] == (if events[i].id == editingEventId.value
                       then Event(events[i].id, Trim(title), start, end) else events[i])
  {
    if !Accepts(title, start) then events
    else if IsEditing(editingEventId) then Update(events, editingEventId.value, Trim(title), start, end)
    else events + [Event(newId, Trim(title), start, end)]
  }

  /** `handleDeleteEventFromModal`: removes the event open in the form, if any. */
  function DeleteEvent(events: seq<Event>, editingEventId: Option<string>): (r: seq<Event>)
    ensures !IsEditing(editingEventId) ==> r == events
    ensures IsEditing(editingEventId) ==>
      KeepsExactly(r, events, (e: Event) => e.id != editingEventId.value)
    ensures IsEditing(editingEventId) ==> forall i :: 0 <= i < |r| ==> r[i].id != editingEventId.value
  {
    if IsEditing(editingEventId) then Remove(events, editingEventId.value) else events
  }

  /** In add mode a save is rejected exactly when the title or the start is blank, whatever
      the end holds. */
  lemma AddRejectedIff(events: seq<Event>, title: string, start: string, end: string, newId: string)
    ensures SaveEvent(events, None, title, start, end, newId) == events <==> IsBlank(title) || IsBlank(start)
  {
  }

  /** The end is never validated: once the title and start pass, any end, empty or earlier
      than the start, is stored exactly as given, on the appended event in add mode and on
      every matching event in edit mode. */
  lemma EndNotValidated(events: seq<Event>, editingEventId: Option<string>, title: string,
                        start: string, end: string, newId: string)
    requires Accepts(title, start)
    ensures var r := SaveEvent(events, editingEventId, title, start, end, newId);
      && (!IsEditing(editingEventId) ==> r == events + [Event(newId, Trim(title), start, end)])
      && (IsEditing(editingEventId) ==>
            forall i :: 0 <= i < |events| && events[i].id == editingEventId.value ==>
              r[i] == Event(events[i].id, Trim(title), start, end))
  {
    var r := SaveEvent(events, editingEventId, title, start, end, newId);
    if !IsEditing(editingEventId) {
      assert r == r[..|events|] + [r[|events|]];
    }
  }

  /** A concrete instance: an empty end and an end two hours before the start are both
      accepted. */
  lemma EndNotValidatedExample()
    ensures SaveEvent([], None, "Budi", "2025-07-25T12:00", "", "7")
         == [Event("7", "Budi", "2025-07-25T12:00", "")]
    ensures SaveEvent([], None, "Budi", "2025-07-25T12:00", "2025-07-25T10:00", "7")
         == [Event("7", "Budi", "2025-07-25T12:00", "2025-07-25T10:00")]
  {
    TrimVisibleEnds("Budi");
    TrimVisibleEnds("2025-07-25T12:00");
  }

  /** An empty editing id counts as no id: the save appends and the delete does nothing. */
  lemma EmptyIdIsNotEditing(events: seq<Event>, title: string, start: string, end: string, newId: string)
    ensures SaveEvent(events, Some(""), title, start, end, newId) == SaveEvent(events, None, title, start, end, newId)
    ensures DeleteEvent(events, Some("")) == events
  {
  }

  /** Editing an id that no event carries leaves the list unchanged. */
  lemma EditAbsentIsNoOp(events: seq<Event>, id: string, title: string, start: string, end: string, newId: string)
    requires id != "" && !HasEventId(events, id)
    ensures SaveEvent(events, Some(id), title, start, end, newId) == events
  {
  }

  /** Saving the same edit twice is saving it once. */
  lemma EditIdempotent(events: seq<Event>, id: string, title: string, start: string, end: string, newId: string)
    requires id != ""
    ensures var once := SaveEvent(events, Some(id), title, start, end, newId);
            SaveEvent(once, Some(id), title, start, end, newId) == once
  {
  }

  /** Deleting the same event twice is deleting it once. */
  lemma DeleteIdempotent(events: seq<Event>, editingEventId: Option<string>)
    ensures DeleteEvent(DeleteEvent(events, editingEventId), editingEventId) == DeleteEvent(events, editingEventId)
  {
    if IsEditing(editingEventId) {
      FilterIdempotent(events, (e: Event) => e.id != editingEventId.value);
    }
  }

  /** Deleting an event just added under an id nobody else carries restores the list. */
  lemma AddThenDelete(events: seq<Event>, title: string, start: string, end: string, newId: string)
    requires Accepts(title, start)
    requires newId != "" && !HasEventId(events, newId)
    ensures DeleteEvent(SaveEvent(events, None, title, start, end, newId), Some(newId)) == events
  {
    var keep := (e: Event) => e.id != newId;
    FilterAppend(events, [Event(newId, Trim(title), start, end)], keep);
    FilterAllKept(events, keep);
  }

  /** The seed events carry distinct, non-empty ids, so each of them can be edited and
      deleted on its own. */
  lemma InitialEventsWellFormed()
    ensures forall i :: 0 <= i < |InitialEvents| ==> InitialEvents[i].id != ""
    ensures forall i, j :: 0 <= i < j < |InitialEvents| ==> InitialEvents[i].id != InitialEvents[j].id
  {
  }
}
