/**
 Overlapping writers of one multi-key channel. ManageMultiKeys (controller/channel.go) and
 UpdateChannelStatus (model/channel.go) read the row before they take the channel's lock and
 write it back later, so reading and writing are two actions here. A request replaces the row by
 what it makes of the row it read; a mark does the same but leaves the key column alone.
 */
module MultiKeyOverlap {
  import opened Basics
  import opened MultiKey

  /** A request or mark that has read the row: what it read, the stored events that led to that
      row, and how many writes had been stored by then. */
  datatype Pending = Pending(event: Event, row: Row, line: seq<Event>, version: nat)

  /** `line` are the stored events that the row shows, `writes` all that were stored; `overtaken`
      is set when an event is written after another write was stored since it read. */
  datatype State = State(row: Row, line: seq<Event>, writes: seq<Event>, pending: map<nat, Pending>, overtaken: bool)

  datatype Action = Fetch(id: nat, event: Event) | Store(id: nat, writeOk: bool)

  function Start(row: Row): State {
    State(row, [], [], map[], false)
  }

  /** SaveWithoutKey: every column but the keys. */
  function Beside(stored: Row, next: Row): Row {
    next.(keys := stored.keys)
  }

  /** What an event that read the row `was` writes over the stored row, if anything. */
  function Written(stored: Row, was: Row, e: Event): Option<Row> {
    match e
    case Manage(r, _) =>
      var w := Wanted(was, r);
      if w.None? then None else Some(Saved(stored, w.value))
    case Mark(key, status, now, reason) => Some(Beside(stored, MarkedRow(was, key, status, now, reason)))
  }

  predicate Enabled(s: State, a: Action) {
    match a
    case Fetch(i, e) => i !in s.pending && (e.Manage? ==> e.writeOk)
    case Store(i, _) => i in s.pending
  }

  function Apply(s: State, a: Action): State
    requires Enabled(s, a)
  {
    match a
    case Fetch(i, e) => s.(pending := s.pending[i := Pending(e, s.row, s.line, |s.writes|)])
    case Store(i, ok) =>
      var q := s.pending[i];
      var w := Written(s.row, q.row, q.event);
      if w.None? || !ok then s.(pending := s.pending - {i})
      else
        State(w.value, q.line + [q.event], s.writes + [q.event], s.pending - {i}, s.overtaken || q.version != |s.writes|)
  }

  /** The event may be written over the stored row: a deletion of automatically disabled keys did
      not see only such keys, and a mark finds the key list it read. */
  ghost predicate Fits(stored: Row, was: Row, e: Event) {
    && (e.Manage? && e.request.DeleteDisabledKeys? ==> !Wiped(was))
    && (e.Mark? ==> stored.keys == was.keys)
  }

  ghost predicate SparesKeys(s: State, a: Action) {
    a.Store? && a.writeOk && a.id in s.pending ==> Fits(s.row, s.pending[a.id].row, s.pending[a.id].event)
  }

  // ---------------------------------------------------------------- the invariant

  /** A row is what its line of requests makes of the first row. */
  ghost predicate Shows(first: Row, row: Row, line: seq<Event>) {
    row == RowFinal(first, line) && NeverWipes(first, line)
  }

  ghost predicate PendingInv(first: Row, s: State, q: Pending) {
    && Shows(first, q.row, q.line) && (q.event.Manage? ==> q.event.writeOk)
    && |q.line| <= q.version <= |s.writes|
    && (q.version == |s.writes| ==> q.line == s.line)
  }

  ghost predicate Inv(first: Row, s: State) {
    && Shows(first, s.row, s.line)
    && (forall i :: i in s.pending ==> PendingInv(first, s, s.pending[i]))
    && (if s.overtaken then |s.line| < |s.writes| else s.line == s.writes)
  }

  /** Unless it wipes out, a request leaves some key. */
  lemma WantedLeavesKeys(row: Row, ring: Ring, r: Request)
    requires Refines(row, ring) && row.keys != [] && Wanted(row, r).Some? && !(r.DeleteDisabledKeys? && Wiped(row))
    ensures Wanted(row, r).value.keys != []
  {
    if r.DeleteDisabledKeys? {
      DeletingDisabledRefines(row, ring);
    } else if !r.DeleteKey? {
      WantedRefines(row, ring, r);
    }
  }

  /** What fits and is written over any row is what the event makes of the row it read. */
  lemma WriteReplaces(stored: Row, row: Row, ring: Ring, e: Event)
    requires Refines(row, ring) && row.keys != [] && (e.Manage? ==> e.writeOk)
    requires Written(stored, row, e).Some? && Fits(stored, row, e)
    ensures Written(stored, row, e).value == RowAfter(row, e)
  {
    if e.Manage? {
      WantedLeavesKeys(row, ring, e.request);
    }
  }

  /** The exact condition for a mark: what it writes is what it makes of the row it read, and keeps
      every key's record, if and only if the stored key list is the one it read. */
  lemma MarkFitsIff(stored: Row, was: Row, ring: Ring, e: Event)
    requires Refines(was, ring) && e.Mark?
    ensures Refines(Written(stored, was, e).value, RingAfter(ring, e)) <==> stored.keys == was.keys
  {
    MarkRefines(was, ring, e.key, e.status, e.now, e.reason);
  }

  lemma LineGrows(first: Row, row: Row, line: seq<Event>, e: Event)
    requires Shows(first, row, line) && !(e == Manage(DeleteDisabledKeys, true) && Wiped(row))
    ensures Shows(first, RowAfter(row, e), line + [e])
  {
    NeverWipesMore(first, line, e);
    assert (line + [e])[..|line|] == line;
  }

  lemma {:induction false} LineKeepsKeys(first: Row, line: seq<Event>)
    requires first.keys != []
    ensures RowFinal(first, line).keys != []
  {
    if line != [] {
      LineKeepsKeys(first, line[..|line| - 1]);
      KeysStay(RowFinal(first, line[..|line| - 1]), line[|line| - 1]);
    }
  }

  lemma StoreKeepsInv(first: Row, ring: Ring, s: State, i: nat, ok: bool)
    requires Refines(first, ring) && first.keys != [] && Inv(first, s)
    requires i in s.pending && SparesKeys(s, Store(i, ok))
    ensures Inv(first, Apply(s, Store(i, ok)))
  {
    var q, t := s.pending[i], Apply(s, Store(i, ok));
    assert PendingInv(first, s, q);
    if Written(s.row, q.row, q.event).Some? && ok {
      RunRefinesOrEmpties(first, ring, q.line);
      LineKeepsKeys(first, q.line);
      WriteReplaces(s.row, q.row, RingFinal(ring, q.line), q.event);
      LineGrows(first, q.row, q.line, q.event);
    }
    forall j | j in t.pending ensures PendingInv(first, t, t.pending[j]) {
      assert PendingInv(first, s, s.pending[j]);
    }
  }

  lemma FetchKeepsInv(first: Row, s: State, i: nat, e: Event)
    requires Inv(first, s) && Enabled(s, Fetch(i, e))
    ensures Inv(first, Apply(s, Fetch(i, e)))
  {
    var t := Apply(s, Fetch(i, e));
    forall j | j in t.pending ensures PendingInv(first, t, t.pending[j]) {
      assert j != i ==> PendingInv(first, s, s.pending[j]);
    }
  }

  // ---------------------------------------------------------------- whole runs

  ghost predicate Run(s: State, actions: seq<Action>)
    decreases actions
  {
    actions == [] ||
    (Enabled(s, actions[0]) && SparesKeys(s, actions[0]) && Run(Apply(s, actions[0]), actions[1..]))
  }

  ghost function Final(s: State, actions: seq<Action>): State
    requires Run(s, actions)
    decreases actions
  {
    if actions == [] then s else Final(Apply(s, actions[0]), actions[1..])
  }

  lemma {:induction false} RunKeepsInv(first: Row, ring: Ring, s: State, actions: seq<Action>)
    requires Refines(first, ring) && first.keys != [] && Inv(first, s) && Run(s, actions)
    ensures Inv(first, Final(s, actions))
    decreases actions
  {
    if actions != [] {
      match actions[0] {
        case Fetch(i, e) => FetchKeepsInv(first, s, i, e);
        case Store(i, ok) => StoreKeepsInv(first, ring, s, i, ok);
      }
      RunKeepsInv(first, ring, Apply(s, actions[0]), actions[1..]);
    }
  }

  /** In every interleaving of requests and marks that spare the keys: the stored row is exactly
      what one line of the stored events, one after the other, makes of the first row, and it
      refines the records that this line makes; and the line holds all stored events in the
      order of their writes exactly when none was written after another write since it read. */
  lemma RowShowsOneLine(first: Row, ring: Ring, actions: seq<Action>)
    requires Refines(first, ring) && first.keys != [] && Run(Start(first), actions)
    ensures var s := Final(Start(first), actions);
            && s.row == RowFinal(first, s.line) && Refines(s.row, RingFinal(ring, s.line))
            && (s.line == s.writes <==> !s.overtaken)
  {
    assert Shows(first, first, []);
    RunKeepsInv(first, ring, Start(first), actions);
    RunRefinesOrEmpties(first, ring, Final(Start(first), actions).line);
  }

  // ---------------------------------------------------------------- without deletions

  predicate Deletes(e: Event) {
    e.Manage? && (e.request.DeleteKey? || e.request.DeleteDisabledKeys?)
  }

  /** Every row still in play has the key list the channel started with. */
  ghost predicate SameKeys(keys: seq<Key>, s: State) {
    && s.row.keys == keys
    && forall i :: i in s.pending ==> s.pending[i].row.keys == keys && !Deletes(s.pending[i].event)
  }

  lemma ActionKeepsKeys(keys: seq<Key>, s: State, a: Action)
    requires SameKeys(keys, s) && Enabled(s, a) && (a.Fetch? ==> !Deletes(a.event))
    ensures SparesKeys(s, a) && SameKeys(keys, Apply(s, a))
  {
  }

  ghost predicate FreeRun(s: State, actions: seq<Action>)
    decreases actions
  {
    actions == [] || (Enabled(s, actions[0]) && FreeRun(Apply(s, actions[0]), actions[1..]))
  }

  /** While nobody deletes keys, every interleaving spares them. */
  lemma {:induction false} WithoutDeletionsKeysAreSpared(keys: seq<Key>, s: State, actions: seq<Action>)
    requires SameKeys(keys, s) && FreeRun(s, actions)
    requires forall k :: 0 <= k < |actions| && actions[k].Fetch? ==> !Deletes(actions[k].event)
    ensures Run(s, actions)
    decreases actions
  {
    if actions != [] {
      ActionKeepsKeys(keys, s, actions[0]);
      WithoutDeletionsKeysAreSpared(keys, Apply(s, actions[0]), actions[1..]);
    }
  }

  // ---------------------------------------------------------------- what goes wrong

  /** Two events that read the same row: the state after the first is written, and after both. */
  function OneStored(row: Row, first: Event, second: Event): State
    requires (first.Manage? ==> first.writeOk) && (second.Manage? ==> second.writeOk)
  {
    Apply(Apply(Apply(Start(row), Fetch(0, first)), Fetch(1, second)), Store(0, true))
  }

  function BothStored(row: Row, first: Event, second: Event): State
    requires (first.Manage? ==> first.writeOk) && (second.Manage? ==> second.writeOk)
  {
    Apply(OneStored(row, first, second), Store(1, true))
  }

  lemma StoredFromTheSameRow(row: Row, first: Event, second: Event)
    requires (first.Manage? ==> first.writeOk) && (second.Manage? ==> second.writeOk)
    ensures var one := OneStored(row, first, second);
            && one.row == (if Written(row, row, first).Some? then Written(row, row, first).value else row)
            && 1 in one.pending && one.pending[1] == Pending(second, row, [], 0)
  {
  }

  /** The lost update: of two requests that read the same row, the one stored last leaves the row
      as if the other had never been made. */
  lemma LastWriterWins(row: Row, ring: Ring, lost: Request, kept: Request)
    requires Refines(row, ring) && row.keys != []
    requires Wanted(row, kept).Some? && !(kept.DeleteDisabledKeys? && Wiped(row))
    ensures var s := BothStored(row, Manage(lost, true), Manage(kept, true));
            s.row == RowAfter(row, Manage(kept, true)) && s.line == [Manage(kept, true)]
  {
    StoredFromTheSameRow(row, Manage(lost, true), Manage(kept, true));
    var one := OneStored(row, Manage(lost, true), Manage(kept, true));
    WriteReplaces(one.row, row, ring, Manage(kept, true));
  }

  /** A stored deletion of one key of several. */
  lemma DeletionStored(row: Row, ring: Ring, i: int, second: Event)
    requires Refines(row, ring) && 0 <= i < |row.keys| && |row.keys| > 1 && (second.Manage? ==> second.writeOk)
    ensures OneStored(row, Manage(DeleteKey(Some(i)), true), second).row.keys == Remaining(row.keys, {row.keys[i]})
    ensures row.keys[i] !in OneStored(row, Manage(DeleteKey(Some(i)), true), second).row.keys
  {
    StoredFromTheSameRow(row, Manage(DeleteKey(Some(i)), true), second);
    DeletingOneRefines(row, ring, i);
    RemainingMembers(row.keys, {row.keys[i]}, row.keys[i]);
  }

  /** So a key that was deleted comes back when another key was being disabled meanwhile. */
  lemma DeletedKeyComesBack(row: Row, ring: Ring, deleted: int, other: int)
    requires Refines(row, ring) && 0 <= deleted < |row.keys| && 0 <= other < |row.keys| && |row.keys| > 1
    ensures var first, second := Manage(DeleteKey(Some(deleted)), true), Manage(DisableKey(Some(other)), true);
            && row.keys[deleted] !in OneStored(row, first, second).row.keys
            && BothStored(row, first, second).row.keys == row.keys
  {
    DeletionStored(row, ring, deleted, Manage(DisableKey(Some(other)), true));
    LastWriterWins(row, ring, DeleteKey(Some(deleted)), DisableKey(Some(other)));
  }

  lemma {:induction false} NoneRemoved(keys: seq<Key>, gone: set<Key>)
    requires forall k :: k in keys ==> k !in gone
    ensures Remaining(keys, gone) == keys
  {
    if keys != [] {
      assert forall k :: k in keys[..|keys| - 1] ==> k in keys;
      assert keys[|keys| - 1] in keys;
      NoneRemoved(keys[..|keys| - 1], gone);
    }
  }

  lemma {:induction false} OneRemoved(keys: seq<Key>, i: nat)
    requires DistinctKeys(keys) && i < |keys|
    ensures Remaining(keys, {keys[i]}) == keys[..i] + keys[i + 1..]
  {
    var front, n := keys[..|keys| - 1], |keys| - 1;
    if i < n {
      OneRemoved(front, i);
      assert front[i] == keys[i];
    } else {
      NoneRemoved(front, {keys[i]});
    }
  }

  /** A mark written after a deletion that it did not see: the marked key has moved one place down,
      the mark stays at its old index, which names another key or none, and the row refines no
      records at all. */
  lemma MarkLandsElsewhere(row: Row, ring: Ring, deleted: nat, marked: nat, status: int, now: int, reason: string)
    requires Refines(row, ring) && deleted < marked < |row.keys| && status != ENABLED
    ensures var s := BothStored(row, Manage(DeleteKey(Some(deleted)), true), Mark(row.keys[marked], status, now, reason));
            && |s.row.keys| == |row.keys| - 1 && s.row.keys[marked - 1] == row.keys[marked]
            && StatusAt(s.row, marked - 1) == StatusAt(row, marked - 1) && StatusAt(s.row, marked) == status
            && forall any :: !Refines(s.row, any)
  {
    var e := Mark(row.keys[marked], status, now, reason);
    DeletionStored(row, ring, deleted, e);
    OneRemoved(row.keys, deleted);
    FindIs(row.keys, row.keys[marked], marked);
    StoredFromTheSameRow(row, Manage(DeleteKey(Some(deleted)), true), e);
    var s := BothStored(row, Manage(DeleteKey(Some(deleted)), true), e);
    assert s.row.size == |row.keys|;
  }
}
