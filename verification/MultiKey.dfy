/**
 Multi-key channels: the actions of ManageMultiKeys (controller/channel.go). A stored row
 keeps the keys in a list and status, time and reason in maps from list index; deleting keys
 renumbers the maps. The module proves that this behaves as one record per key.

 Saving follows Channel.Update (model/channel.go): the key count is recomputed, statuses
 beyond it are dropped, and an empty key text is not written, because the update skips
 zero-valued columns.
 */
module MultiKey {
  import opened Basics

  type Key = string

  const ENABLED := 1
  const MANUALLY_DISABLED := 2
  const AUTO_DISABLED := 3

  /** A missing map of the source is an empty map here. */
  datatype Row = Row(
    keys: seq<Key>,
    size: int,
    status: map<int, int>,
    times: map<int, int>,
    reasons: map<int, string>)

  function StatusAt(row: Row, i: int): int {
    if i in row.status then row.status[i] else ENABLED
  }

  function Lookup<T>(m: map<int, T>, i: int): Option<T> {
    if i in m then Some(m[i]) else None
  }

  // ---------------------------------------------------------------- the actions

  datatype Request =
    | DisableKey(index: Option<int>)
    | EnableKey(index: Option<int>)
    | EnableAllKeys
    | DisableAllKeys
    | DeleteKey(index: Option<int>)
    | DeleteDisabledKeys
    | Unsupported

  predicate InRange(row: Row, index: Option<int>) {
    index.Some? && 0 <= index.value < row.size
  }

  /** The enabled keys below n, as disabled. */
  function Disabling(row: Row, n: int): map<int, int> {
    map i | 0 <= i < n && StatusAt(row, i) == ENABLED :: MANUALLY_DISABLED
  }

  const EMPTY := Row([], 0, map[], map[], map[])

  /** A row with one more key at its end: the i-th key of another row. An enabled key leaves no
      status behind, and with `tidy` no time or reason either. */
  function Appended(next: Row, row: Row, i: nat, tidy: bool): Row
    requires i < |row.keys|
  {
    var at, disabled := |next.keys|, StatusAt(row, i) != ENABLED;
    Row(next.keys + [row.keys[i]], at + 1,
        if disabled then next.status[at := StatusAt(row, i)] else next.status,
        if i in row.times && (disabled || !tidy) then next.times[at := row.times[i]] else next.times,
        if i in row.reasons && (disabled || !tidy) then next.reasons[at := row.reasons[i]] else next.reasons)
  }

  /** The first n keys without the dropped ones, renumbered. */
  function Compacted(row: Row, n: nat, dropped: set<int>, tidy: bool): Row
    requires n <= |row.keys|
  {
    if n == 0 then EMPTY
    else
      var next := Compacted(row, n - 1, dropped, tidy);
      if n - 1 in dropped then next else Appended(next, row, n - 1, tidy)
  }

  function AutoDisabled(row: Row): set<int> {
    set i | 0 <= i < |row.keys| && StatusAt(row, i) == AUTO_DISABLED
  }

  /** The row a request wants to store, or None when it is refused. */
  function Wanted(row: Row, r: Request): Option<Row> {
    match r
    case DisableKey(i) =>
      if !InRange(row, i) then None else Some(row.(status := row.status[i.value := MANUALLY_DISABLED]))
    case EnableKey(i) =>
      if !InRange(row, i) then None
      else Some(row.(status := row.status - {i.value}, times := row.times - {i.value}, reasons := row.reasons - {i.value}))
    case EnableAllKeys => Some(row.(status := map[], times := map[], reasons := map[]))
    case DisableAllKeys =>
      if forall i :: 0 <= i < row.size ==> StatusAt(row, i) != ENABLED then None
      else Some(row.(status := row.status + Disabling(row, row.size)))
    case DeleteKey(i) =>
      if !InRange(row, i) then None
      else
        var next := Compacted(row, |row.keys|, {i.value}, false);
        if next.keys == [] then None else Some(next)
    case DeleteDisabledKeys =>
      if AutoDisabled(row) == {} then None
      else Some(Compacted(row, |row.keys|, AutoDisabled(row), true))
    case Unsupported => None
  }

  /** Channel.Update: what is stored when `next` is saved over `stored`. */
  function Saved(stored: Row, next: Row): Row {
    var keys := if next.keys == [] then stored.keys else next.keys;
    Row(keys, |keys|, map i | i in next.status && i < |keys| :: next.status[i], next.times, next.reasons)
  }

  /** One request; a write that fails leaves the stored row alone. */
  function Managed(row: Row, r: Request, writeOk: bool): Row {
    var w := Wanted(row, r);
    if w.None? || !writeOk then row else Saved(row, w.value)
  }

  // ---------------------------------------------------------------- the imperative form

  class ChannelRecord {
    var row: Row
    var channelStatus: int

    constructor (row: Row, channelStatus: int)
      ensures this.row == row && this.channelStatus == channelStatus
    {
      this.row, this.channelStatus := row, channelStatus;
    }

    static method DisableAll(row: Row) returns (status: map<int, int>, disabledCount: nat)
      ensures status == row.status + Disabling(row, row.size)
      ensures disabledCount == 0 <==> forall i :: 0 <= i < row.size ==> StatusAt(row, i) != ENABLED
    {
      status, disabledCount := row.status, 0;
      var i := 0;
      while i < row.size
        invariant 0 <= i && (i <= row.size || i == 0)
        invariant status == row.status + Disabling(row, i)
        invariant disabledCount == 0 <==> forall j :: 0 <= j < i ==> StatusAt(row, j) != ENABLED
      {
        var s := if i in status then status[i] else ENABLED;
        if s == ENABLED {
          status := status[i := MANUALLY_DISABLED];
          disabledCount := disabledCount + 1;
        }
        assert Disabling(row, i + 1) ==
               if s == ENABLED then Disabling(row, i)[i := MANUALLY_DISABLED] else Disabling(row, i);
        i := i + 1;
      }
    }

    /** The loop of delete_key, with its running index. */
    static method DropKey(row: Row, keyIndex: int) returns (next: Row)
      ensures next == Compacted(row, |row.keys|, {keyIndex}, false)
    {
      next := EMPTY;
      var newIndex := 0;
      for i := 0 to |row.keys|
        invariant next == Compacted(row, i, {keyIndex}, false) && newIndex == |next.keys| == next.size
      {
        if i == keyIndex {
          continue;
        }
        ghost var before := next;
        if i in row.status && row.status[i] != ENABLED {
          next := next.(status := next.status[newIndex := row.status[i]]);
        }
        if i in row.times {
          next := next.(times := next.times[newIndex := row.times[i]]);
        }
        if i in row.reasons {
          next := next.(reasons := next.reasons[newIndex := row.reasons[i]]);
        }
        next := next.(keys := next.keys + [row.keys[i]], size := next.size + 1);
        assert next == Appended(before, row, i, false);
        newIndex := newIndex + 1;
      }
    }

    /** The loop of delete_disabled_keys: only automatically disabled keys go. */
    static method DropDisabled(row: Row) returns (next: Row, deletedCount: nat)
      ensures next == Compacted(row, |row.keys|, AutoDisabled(row), true)
      ensures deletedCount == 0 <==> AutoDisabled(row) == {}
    {
      next, deletedCount := EMPTY, 0;
      var newIndex := 0;
      for i := 0 to |row.keys|
        invariant next == Compacted(row, i, AutoDisabled(row), true) && newIndex == |next.keys| == next.size
        invariant deletedCount == 0 <==> forall j :: 0 <= j < i ==> j !in AutoDisabled(row)
      {
        var status := if i in row.status then row.status[i] else ENABLED;
        assert i in AutoDisabled(row) <==> status == AUTO_DISABLED;
        if status == AUTO_DISABLED {
          deletedCount := deletedCount + 1;
          continue;
        }
        ghost var before := next;
        if status != ENABLED {
          next := next.(status := next.status[newIndex := status]);
          if i in row.times {
            next := next.(times := next.times[newIndex := row.times[i]]);
          }
          if i in row.reasons {
            next := next.(reasons := next.reasons[newIndex := row.reasons[i]]);
          }
        }
        next := next.(keys := next.keys + [row.keys[i]], size := next.size + 1);
        assert next == Appended(before, row, i, true);
        newIndex := newIndex + 1;
      }
    }

    /** Channel.Update: recounts the keys, deletes the statuses beyond the count and writes the
        row; the key column is skipped when its text is empty. `abilitiesOk` is the outcome of
        UpdateAbilities, which runs once the row is written. */
    method Update(next: Row, writeOk: bool, abilitiesOk: bool) returns (ok: bool)
      modifies this`row
      ensures row == if writeOk then Saved(old(row), next) else old(row)
      ensures writeOk ==> row.size == |row.keys| && (forall i :: i in row.status ==> i < row.size) && (old(row.keys) != [] ==> row.keys != [])
      ensures ok <==> writeOk && abilitiesOk
    {
      var keys := next.keys;
      if |keys| == 0 {
        keys := row.keys;
      }
      var size, status, rest := |keys|, next.status, next.status.Keys;
      while rest != {}
        invariant rest <= next.status.Keys
        invariant status == map i | i in next.status && (i in rest || i < size) :: next.status[i]
      {
        assert exists i :: i in rest by {
          if forall i :: i !in rest {
            assert false;
          }
        }
        var idx :| idx in rest;
        if idx >= size {
          status := status - {idx};
        }
        rest := rest - {idx};
      }
      if !writeOk {
        return false;
      }
      if |next.keys| > 0 {
        row := row.(keys := next.keys);
      }
      row := row.(size := size, status := status, times := next.times, reasons := next.reasons);
      return abilitiesOk;
    }

    /** An action that is stored but whose abilities cannot be updated is reported as an error. */
    method ManageMultiKeys(r: Request, writeOk: bool, abilitiesOk: bool) returns (success: bool)
      modifies this`row
      ensures row == Managed(old(row), r, writeOk)
      ensures success <==> Wanted(old(row), r).Some? && writeOk && abilitiesOk
    {
      var next := row;
      match r {
        case DisableKey(index) =>
          if !InRange(row, index) {
            return false;
          }
          next := next.(status := next.status[index.value := MANUALLY_DISABLED]);
        case EnableKey(index) =>
          if !InRange(row, index) {
            return false;
          }
          next := next.(status := next.status - {index.value});
          next := next.(times := next.times - {index.value});
          next := next.(reasons := next.reasons - {index.value});
        case EnableAllKeys =>
          next := next.(status := map[], times := map[], reasons := map[]);
        case DisableAllKeys =>
          var status, disabledCount := DisableAll(row);
          if disabledCount == 0 {
            return false;
          }
          next := next.(status := status);
        case DeleteKey(index) =>
          if !InRange(row, index) {
            return false;
          }
          next := DropKey(row, index.value);
          if |next.keys| == 0 {
            return false;
          }
        case DeleteDisabledKeys =>
          var deletedCount;
          next, deletedCount := DropDisabled(row);
          if deletedCount == 0 {
            return false;
          }
        case Unsupported => return false;
      }
      success := Update(next, writeOk, abilitiesOk);
    }

    static method HasEnabledMultiKey(row: Row) returns (any: bool)
      ensures any == AnyEnabled(row)
    {
      for i := 0 to |row.keys|
        invariant forall j :: 0 <= j < i ==> StatusAt(row, j) != ENABLED
      {
        if i !in row.status || row.status[i] == ENABLED {
          assert StatusAt(row, i) == ENABLED;
          return true;
        }
      }
      return false;
    }

    /** handlerMultiKeyUpdate: the relay marks the key it used. */
    method HandlerMultiKeyUpdate(usingKey: Key, status: int, now: int, reason: string)
      modifies this
      ensures row == MarkedRow(old(row), usingKey, status, now, reason)
      ensures channelStatus == MarkedStatus(old(row), old(channelStatus), usingKey, status, now, reason)
    {
      if |row.keys| == 0 {
        channelStatus := status;
        return;
      }
      var keyIndex := 0;
      while keyIndex < |row.keys| && row.keys[keyIndex] != usingKey
        invariant 0 <= keyIndex <= |row.keys| && usingKey !in row.keys[..keyIndex]
      {
        keyIndex := keyIndex + 1;
      }
      if keyIndex == |row.keys| {
        if usingKey == "" {
          channelStatus := status;
        }
        return;
      }
      FindIs(row.keys, usingKey, keyIndex);
      if status == ENABLED {
        row := row.(status := row.status - {keyIndex});
      } else {
        row := row.(status := row.status[keyIndex := status]);
        row := row.(reasons := row.reasons[keyIndex := reason]);
        row := row.(times := row.times[keyIndex := now]);
      }
      var any := HasEnabledMultiKey(row);
      if !any {
        channelStatus := AUTO_DISABLED;
      } else if status == ENABLED {
        channelStatus := ENABLED;
      }
    }
  }

  // ---------------------------------------------------------------- one record per key

  /** What is known about one key. */
  datatype KeyState = KeyState(status: int, time: Option<int>, reason: Option<string>)

  /** The keys in order, and one record per key. */
  datatype Ring = Ring(order: seq<Key>, state: map<Key, KeyState>)

  const CLEAN := KeyState(ENABLED, None, None)

  function StateAt(row: Row, i: int): KeyState {
    KeyState(StatusAt(row, i), Lookup(row.times, i), Lookup(row.reasons, i))
  }

  ghost predicate DistinctKeys(keys: seq<Key>) {
    forall i, j :: 0 <= i < j < |keys| ==> keys[i] != keys[j]
  }

  /** No map mentions an index that is not a key's. */
  ghost predicate IndexesInRange(row: Row) {
    && row.size == |row.keys|
    && (forall i :: i in row.status ==> 0 <= i < |row.keys|)
    && (forall i :: i in row.times ==> 0 <= i < |row.keys|)
    && (forall i :: i in row.reasons ==> 0 <= i < |row.keys|)
  }

  /** The row says about the i-th key what the ring says about that key. */
  ghost predicate Refines(row: Row, ring: Ring) {
    && DistinctKeys(row.keys) && IndexesInRange(row)
    && ring.order == row.keys
    && ring.state.Keys == (set k | k in row.keys)
    && forall i :: 0 <= i < |row.keys| ==> ring.state[row.keys[i]] == StateAt(row, i)
  }

  /** A list of keys without some of them. */
  function Remaining(order: seq<Key>, gone: set<Key>): seq<Key> {
    if order == [] then []
    else
      var front, last := Remaining(order[..|order| - 1], gone), order[|order| - 1];
      if last in gone then front else front + [last]
  }

  function Removed(ring: Ring, gone: set<Key>): Ring {
    Ring(Remaining(ring.order, gone), ring.state - gone)
  }

  function Tidied(s: KeyState): KeyState {
    if s.status == ENABLED then CLEAN else s
  }

  function Disabled(s: KeyState): KeyState {
    if s.status == ENABLED then s.(status := MANUALLY_DISABLED) else s
  }

  function Gone(ring: Ring): set<Key> {
    set k | k in ring.state && ring.state[k].status == AUTO_DISABLED
  }

  /** The request on the ring, in terms of the key the index names. */
  function OnRing(ring: Ring, r: Request): Ring {
    match r
    case DisableKey(i) =>
      if i.None? || !(0 <= i.value < |ring.order|) || ring.order[i.value] !in ring.state then ring
      else
        var key := ring.order[i.value];
        ring.(state := ring.state[key := ring.state[key].(status := MANUALLY_DISABLED)])
    case EnableKey(i) =>
      if i.None? || !(0 <= i.value < |ring.order|) then ring
      else ring.(state := ring.state[ring.order[i.value] := CLEAN])
    case EnableAllKeys => ring.(state := map k | k in ring.state :: CLEAN)
    case DisableAllKeys =>
      ring.(state := map k | k in ring.state :: Disabled(ring.state[k]))
    case DeleteKey(i) =>
      if i.None? || !(0 <= i.value < |ring.order|) || |ring.order| == 1 then ring
      else Removed(ring, {ring.order[i.value]})
    case DeleteDisabledKeys =>
      var gone := Gone(ring);
      if gone == {} then ring
      else Ring(Remaining(ring.order, gone), map k | k in ring.state && k !in gone :: Tidied(ring.state[k]))
    case Unsupported => ring
  }

  // ---------------------------------------------------------------- compaction refines removal

  lemma {:induction false} RemainingMembers(order: seq<Key>, gone: set<Key>, k: Key)
    ensures k in Remaining(order, gone) <==> k in order && k !in gone
  {
    if order != [] {
      RemainingMembers(order[..|order| - 1], gone, k);
      assert order == order[..|order| - 1] + [order[|order| - 1]];
    }
  }

  lemma {:induction false} RemainingDistinct(order: seq<Key>, gone: set<Key>)
    requires DistinctKeys(order)
    ensures DistinctKeys(Remaining(order, gone))
  {
    if order != [] {
      RemainingDistinct(order[..|order| - 1], gone);
      RemainingMembers(order[..|order| - 1], gone, order[|order| - 1]);
    }
  }

  /** What the j-th survivor carries over. */
  function Carried(s: KeyState, tidy: bool): KeyState {
    if tidy then Tidied(s) else s
  }

  lemma AppendedState(next: Row, row: Row, i: nat, tidy: bool, j: nat)
    requires i < |row.keys| && IndexesInRange(next) && j <= |next.keys|
    ensures IndexesInRange(Appended(next, row, i, tidy))
    ensures StateAt(Appended(next, row, i, tidy), j) ==
            if j < |next.keys| then StateAt(next, j) else Carried(StateAt(row, i), tidy)
  {
  }

  /** The surviving keys keep their order. */
  lemma {:induction false} CompactedOrder(row: Row, n: nat, dropped: set<int>, gone: set<Key>, tidy: bool)
    requires n <= |row.keys|
    requires forall i :: 0 <= i < |row.keys| ==> (i in dropped <==> row.keys[i] in gone)
    ensures IndexesInRange(Compacted(row, n, dropped, tidy))
    ensures Compacted(row, n, dropped, tidy).keys == Remaining(row.keys[..n], gone)
  {
    if n > 0 {
      CompactedOrder(row, n - 1, dropped, gone, tidy);
      assert row.keys[..n][..n - 1] == row.keys[..n - 1];
      if n - 1 !in dropped {
        AppendedState(Compacted(row, n - 1, dropped, tidy), row, n - 1, tidy, 0);
      }
    }
  }

  /** What the ring knows about the j-th key of a compacted row is what the row carries. */
  ghost predicate Carries(c: Row, ring: Ring, tidy: bool, j: int)
    requires 0 <= j < |c.keys|
  {
    c.keys[j] in ring.state && StateAt(c, j) == Carried(ring.state[c.keys[j]], tidy)
  }

  lemma AppendedCarries(next: Row, row: Row, ring: Ring, i: nat, tidy: bool, j: nat)
    requires i < |row.keys| && IndexesInRange(next) && j <= |next.keys|
    requires j < |next.keys| ==> Carries(next, ring, tidy, j)
    requires row.keys[i] in ring.state && ring.state[row.keys[i]] == StateAt(row, i)
    ensures Carries(Appended(next, row, i, tidy), ring, tidy, j)
  {
    AppendedState(next, row, i, tidy, j);
  }

  ghost predicate Agrees(row: Row, ring: Ring) {
    forall i :: 0 <= i < |row.keys| ==> row.keys[i] in ring.state && ring.state[row.keys[i]] == StateAt(row, i)
  }

  /** Each surviving key keeps its record. */
  lemma {:induction false} CompactedCarries(row: Row, ring: Ring, n: nat, dropped: set<int>, gone: set<Key>, tidy: bool, j: nat)
    requires Agrees(row, ring) && n <= |row.keys|
    requires forall i :: 0 <= i < |row.keys| ==> (i in dropped <==> row.keys[i] in gone)
    requires j < |Compacted(row, n, dropped, tidy).keys|
    ensures Carries(Compacted(row, n, dropped, tidy), ring, tidy, j)
  {
    if n > 0 {
      var next := Compacted(row, n - 1, dropped, tidy);
      if j < |next.keys| {
        CompactedCarries(row, ring, n - 1, dropped, gone, tidy, j);
      }
      if n - 1 !in dropped {
        CompactedOrder(row, n - 1, dropped, gone, tidy);
        AppendedCarries(next, row, ring, n - 1, tidy, j);
      }
    }
  }

  /** The records without the keys to go. */
  function Survivors(state: map<Key, KeyState>, gone: set<Key>, tidy: bool): map<Key, KeyState> {
    map k | k in state && k !in gone :: Carried(state[k], tidy)
  }

  lemma RefinesByKey(c: Row, state: map<Key, KeyState>)
    requires DistinctKeys(c.keys) && IndexesInRange(c)
    requires forall k :: k in c.keys <==> k in state
    requires forall j :: 0 <= j < |c.keys| ==> c.keys[j] in state && state[c.keys[j]] == StateAt(c, j)
    ensures Refines(c, Ring(c.keys, state))
  {
    assert state.Keys == set k | k in c.keys;
  }

  lemma CompactedRefines(row: Row, ring: Ring, dropped: set<int>, gone: set<Key>, tidy: bool)
    requires Refines(row, ring)
    requires forall i :: 0 <= i < |row.keys| ==> (i in dropped <==> row.keys[i] in gone)
    ensures Compacted(row, |row.keys|, dropped, tidy).keys == Remaining(ring.order, gone)
    ensures Refines(Compacted(row, |row.keys|, dropped, tidy),
                    Ring(Remaining(ring.order, gone), Survivors(ring.state, gone, tidy)))
  {
    var c, state := Compacted(row, |row.keys|, dropped, tidy), Survivors(ring.state, gone, tidy);
    CompactedOrder(row, |row.keys|, dropped, gone, tidy);
    assert row.keys[..|row.keys|] == row.keys;
    RemainingDistinct(row.keys, gone);
    forall k ensures k in c.keys <==> k in state {
      RemainingMembers(row.keys, gone, k);
    }
    forall j | 0 <= j < |c.keys| ensures c.keys[j] in state && state[c.keys[j]] == StateAt(c, j) {
      assert c.keys[j] in c.keys;
      CompactedCarries(row, ring, |row.keys|, dropped, gone, tidy, j);
    }
    RefinesByKey(c, state);
  }

  /** Saving changes nothing when the indexes are in range and the keys are not wiped out. */
  lemma SavedAsIs(stored: Row, next: Row)
    requires IndexesInRange(next) && (next.keys != [] || stored.keys == [])
    ensures Saved(stored, next) == next
  {
    assert (map i | i in next.status && i < |next.keys| :: next.status[i]) == next.status;
  }

  // ---------------------------------------------------------------- every action refines

  /** All keys, and at least one, are automatically disabled. */
  ghost predicate Wiped(row: Row) {
    row.keys != [] && forall i :: 0 <= i < |row.keys| ==> StatusAt(row, i) == AUTO_DISABLED
  }

  /** Changing what is known about one key. */
  lemma SetOneRefines(row: Row, ring: Ring, row': Row, i: int, st: KeyState)
    requires Refines(row, ring) && 0 <= i < |row.keys|
    requires row'.keys == row.keys && IndexesInRange(row') && StateAt(row', i) == st
    requires forall j :: 0 <= j < |row.keys| && j != i ==> StateAt(row', j) == StateAt(row, j)
    ensures Refines(row', ring.(state := ring.state[row.keys[i] := st]))
  {
  }

  /** Changing what is known about all keys in the same way. */
  lemma SetAllRefines(row: Row, ring: Ring, row': Row, change: KeyState -> KeyState)
    requires Refines(row, ring)
    requires row'.keys == row.keys && IndexesInRange(row')
    requires forall j :: 0 <= j < |row.keys| ==> StateAt(row', j) == change(StateAt(row, j))
    ensures Refines(row', ring.(state := map k | k in ring.state :: change(ring.state[k])))
  {
  }

  lemma DisablingAllRefines(row: Row, ring: Ring)
    requires Refines(row, ring)
    ensures Refines(row.(status := row.status + Disabling(row, row.size)), OnRing(ring, DisableAllKeys))
  {
    var row' := row.(status := row.status + Disabling(row, row.size));
    forall j | 0 <= j < |row.keys| ensures StateAt(row', j) == Disabled(StateAt(row, j)) {}
    SetAllRefines(row, ring, row', Disabled);
    assert OnRing(ring, DisableAllKeys).state == map k | k in ring.state :: Disabled(ring.state[k]);
  }

  lemma NothingToDisable(row: Row, ring: Ring)
    requires Refines(row, ring) && Wanted(row, DisableAllKeys).None?
    ensures OnRing(ring, DisableAllKeys) == ring
  {
    forall k | k in ring.state ensures ring.state[k].status != ENABLED {
      var i :| 0 <= i < |row.keys| && row.keys[i] == k;
      assert StatusAt(row, i) != ENABLED;
    }
  }

  /** What a request that deletes nothing must do. */
  ghost predicate Matches(row: Row, ring: Ring, r: Request) {
    var w := Wanted(row, r);
    && (w.Some? ==> Refines(w.value, OnRing(ring, r)) && w.value.keys == row.keys)
    && (w.None? ==> OnRing(ring, r) == ring)
  }

  lemma DisableMatches(row: Row, ring: Ring, i: Option<int>)
    requires Refines(row, ring)
    ensures Matches(row, ring, DisableKey(i))
  {
    if InRange(row, i) {
      var w := Wanted(row, DisableKey(i)).value;
      SetOneRefines(row, ring, w, i.value, StateAt(row, i.value).(status := MANUALLY_DISABLED));
    }
  }

  lemma EnableMatches(row: Row, ring: Ring, i: Option<int>)
    requires Refines(row, ring)
    ensures Matches(row, ring, EnableKey(i))
  {
    if InRange(row, i) {
      SetOneRefines(row, ring, Wanted(row, EnableKey(i)).value, i.value, CLEAN);
    }
  }

  lemma EnableAllMatches(row: Row, ring: Ring)
    requires Refines(row, ring)
    ensures Matches(row, ring, EnableAllKeys)
  {
    var clean := (s: KeyState) => CLEAN;
    SetAllRefines(row, ring, Wanted(row, EnableAllKeys).value, clean);
    assert OnRing(ring, EnableAllKeys).state == map k | k in ring.state :: clean(ring.state[k]);
  }

  lemma DisableAllMatches(row: Row, ring: Ring)
    requires Refines(row, ring)
    ensures Matches(row, ring, DisableAllKeys)
  {
    if Wanted(row, DisableAllKeys).Some? {
      DisablingAllRefines(row, ring);
    } else {
      NothingToDisable(row, ring);
    }
  }

  lemma WantedRefines(row: Row, ring: Ring, r: Request)
    requires Refines(row, ring)
    requires !r.DeleteKey? && !r.DeleteDisabledKeys?
    ensures Matches(row, ring, r)
  {
    match r
    case DisableKey(i) => DisableMatches(row, ring, i);
    case EnableKey(i) => EnableMatches(row, ring, i);
    case EnableAllKeys => EnableAllMatches(row, ring);
    case DisableAllKeys => DisableAllMatches(row, ring);
    case Unsupported =>
  }

  lemma OneIsGone(keys: seq<Key>, i: nat)
    requires DistinctKeys(keys) && i < |keys|
    ensures forall j :: 0 <= j < |keys| ==> (j in {i} <==> keys[j] in {keys[i]})
    ensures |keys| > 1 ==> Remaining(keys, {keys[i]}) != []
  {
    if |keys| > 1 {
      var other := if i == 0 then keys[1] else keys[0];
      RemainingMembers(keys, {keys[i]}, other);
    }
  }

  lemma KeptAsTheyAre(state: map<Key, KeyState>, gone: set<Key>)
    ensures Survivors(state, gone, false) == state - gone
  {
  }

  lemma DeletingOneRefines(row: Row, ring: Ring, i: int)
    requires Refines(row, ring) && 0 <= i < |row.keys| && |row.keys| > 1
    ensures var w := Wanted(row, DeleteKey(Some(i)));
            w.Some? && w.value.keys != [] && Refines(w.value, OnRing(ring, DeleteKey(Some(i))))
  {
    OneIsGone(row.keys, i);
    CompactedRefines(row, ring, {i}, {row.keys[i]}, false);
    KeptAsTheyAre(ring.state, {row.keys[i]});
  }

  lemma DeletingOnlyIsRefused(row: Row, i: int)
    requires |row.keys| == 1 && i == 0
    ensures Wanted(row, DeleteKey(Some(i))).None?
  {
    assert Compacted(row, 0, {i}, false) == EMPTY;
  }

  /** The keys to go are the keys at the indexes to go. */
  lemma GoneAreAutoDisabled(row: Row, ring: Ring)
    requires Refines(row, ring)
    ensures forall i :: 0 <= i < |row.keys| ==> (i in AutoDisabled(row) <==> row.keys[i] in Gone(ring))
    ensures AutoDisabled(row) == {} <==> Gone(ring) == {}
  {
    forall i | 0 <= i < |row.keys| ensures i in AutoDisabled(row) <==> row.keys[i] in Gone(ring) {
      assert ring.state[row.keys[i]] == StateAt(row, i);
    }
    if k :| k in Gone(ring) {
      var i :| 0 <= i < |row.keys| && row.keys[i] == k;
      assert i in AutoDisabled(row);
    }
    if i :| i in AutoDisabled(row) {
      assert row.keys[i] in Gone(ring);
    }
  }

  /** Nothing remains exactly when all keys are to go. */
  lemma NothingRemainsIff(row: Row, ring: Ring)
    requires Refines(row, ring) && AutoDisabled(row) != {}
    ensures Remaining(row.keys, Gone(ring)) == [] <==> Wiped(row)
  {
    GoneAreAutoDisabled(row, ring);
    var left := Remaining(row.keys, Gone(ring));
    if left == [] {
      forall j | 0 <= j < |row.keys| ensures StatusAt(row, j) == AUTO_DISABLED {
        RemainingMembers(row.keys, Gone(ring), row.keys[j]);
        assert j in AutoDisabled(row);
      }
      var i :| i in AutoDisabled(row);
    } else {
      RemainingMembers(row.keys, Gone(ring), left[0]);
      var j :| 0 <= j < |row.keys| && row.keys[j] == left[0];
      assert j !in AutoDisabled(row);
    }
  }

  lemma DeletingSomeRefines(row: Row, ring: Ring)
    requires Refines(row, ring) && AutoDisabled(row) != {}
    ensures var w := Wanted(row, DeleteDisabledKeys);
            w.Some? && w.value.keys == Remaining(row.keys, Gone(ring)) && Refines(w.value, OnRing(ring, DeleteDisabledKeys))
  {
    GoneAreAutoDisabled(row, ring);
    CompactedRefines(row, ring, AutoDisabled(row), Gone(ring), true);
    assert OnRing(ring, DeleteDisabledKeys).state == Survivors(ring.state, Gone(ring), true);
  }

  lemma DeletingDisabledRefines(row: Row, ring: Ring)
    requires Refines(row, ring)
    ensures var w := Wanted(row, DeleteDisabledKeys);
            && (w.Some? ==> Refines(w.value, OnRing(ring, DeleteDisabledKeys)) && (w.value.keys == [] <==> Wiped(row)))
            && (w.None? ==> OnRing(ring, DeleteDisabledKeys) == ring && !Wiped(row))
  {
    GoneAreAutoDisabled(row, ring);
    if AutoDisabled(row) != {} {
      NothingRemainsIff(row, ring);
      DeletingSomeRefines(row, ring);
    } else {
      assert Wiped(row) ==> 0 in AutoDisabled(row);
    }
  }

  /** On a row that refines a ring, a stored request does to the row what the same request does
      to the ring, with exactly one exception: deleting the automatically disabled keys when
      there are no others. */
  lemma ManagedRefinesIff(row: Row, ring: Ring, r: Request)
    requires Refines(row, ring)
    ensures Refines(Managed(row, r, true), OnRing(ring, r)) <==> !(r.DeleteDisabledKeys? && Wiped(row))
    ensures Managed(row, r, false) == row
  {
    var w := Wanted(row, r);
    if r.DeleteKey? {
      if InRange(row, r.index) && |row.keys| > 1 {
        DeletingOneRefines(row, ring, r.index.value);
        SavedAsIs(row, w.value);
      } else if InRange(row, r.index) {
        DeletingOnlyIsRefused(row, r.index.value);
      }
    } else if r.DeleteDisabledKeys? {
      DeletingDisabledRefines(row, ring);
      if w.Some? && !Wiped(row) {
        SavedAsIs(row, w.value);
      }
    } else {
      WantedRefines(row, ring, r);
      if w.Some? {
        SavedAsIs(row, w.value);
      }
    }
  }

  /** The exception: the keys all stay, and come back enabled. */
  lemma WipeOutEnablesAll(row: Row, ring: Ring)
    requires Refines(row, ring) && Wiped(row)
    ensures var after := Managed(row, DeleteDisabledKeys, true);
            after.keys == row.keys && forall i :: 0 <= i < |row.keys| ==> StatusAt(after, i) == ENABLED
  {
    DeletingDisabledRefines(row, ring);
  }

  // ---------------------------------------------------------------- status changes by key

  /** The first index of a key, or -1. */
  function Find(keys: seq<Key>, key: Key): (i: int)
    ensures -1 <= i < |keys|
    ensures i == -1 <==> key !in keys
    ensures i >= 0 ==> keys[i] == key && key !in keys[..i]
  {
    if keys == [] then -1
    else if keys[0] == key then 0
    else
      var i := Find(keys[1..], key);
      if i == -1 then -1 else i + 1
  }

  /** handlerMultiKeyUpdate: the relay marks the key it used. */
  function MarkedRow(row: Row, key: Key, status: int, now: int, reason: string): Row {
    var i := Find(row.keys, key);
    if i < 0 then row
    else if status == ENABLED then row.(status := row.status - {i})
    else row.(status := row.status[i := status], times := row.times[i := now], reasons := row.reasons[i := reason])
  }

  predicate AnyEnabled(row: Row) {
    exists i :: 0 <= i < |row.keys| && StatusAt(row, i) == ENABLED
  }

  /** The channel's own status after the mark: a channel without keys and a mark without a key
      take the status itself; otherwise the keys decide. */
  function MarkedStatus(row: Row, channelStatus: int, key: Key, status: int, now: int, reason: string): int {
    if row.keys == [] then status
    else if key !in row.keys then if key == "" then status else channelStatus
    else if !AnyEnabled(MarkedRow(row, key, status, now, reason)) then AUTO_DISABLED
    else if status == ENABLED then ENABLED
    else channelStatus
  }

  lemma FindIs(keys: seq<Key>, key: Key, i: nat)
    requires i < |keys| && keys[i] == key && key !in keys[..i]
    ensures Find(keys, key) == i
  {
    assert keys[i] in keys;
  }

  /** In terms of the records: a channel that counts as enabled has an enabled key. */
  ghost predicate HonestStatus(ring: Ring, channelStatus: int) {
    channelStatus == ENABLED ==> exists k :: k in ring.state && ring.state[k].status == ENABLED
  }

  /** After a mark of a listed key the channel is automatically disabled when no key is left
      enabled, and otherwise enabled by an enabling mark and left as it was by any other; so it
      never counts as enabled without an enabled key. */
  lemma MarkKeepsStatusHonest(row: Row, ring: Ring, channelStatus: int, key: Key, status: int, now: int, reason: string)
    requires Refines(row, ring)
    ensures key !in row.keys ==>
              MarkedStatus(row, channelStatus, key, status, now, reason) == if row.keys == [] || key == "" then status else channelStatus
    ensures key in row.keys ==> var ring', after := MarkedRing(ring, key, status, now, reason), MarkedStatus(row, channelStatus, key, status, now, reason);
            && HonestStatus(ring', after)
            && ((forall k :: k in ring'.state ==> ring'.state[k].status != ENABLED) ==> after == AUTO_DISABLED)
            && ((exists k :: k in ring'.state && ring'.state[k].status == ENABLED) ==> after == if status == ENABLED then ENABLED else channelStatus)
  {
    var row', ring' := MarkedRow(row, key, status, now, reason), MarkedRing(ring, key, status, now, reason);
    MarkRefines(row, ring, key, status, now, reason);
    AnyEnabledIff(row', ring');
  }

  lemma AnyEnabledIff(row: Row, ring: Ring)
    requires Refines(row, ring)
    ensures AnyEnabled(row) <==> exists k :: k in ring.state && ring.state[k].status == ENABLED
  {
    if k :| k in ring.state && ring.state[k].status == ENABLED {
      var i :| 0 <= i < |row.keys| && row.keys[i] == k;
      assert StatusAt(row, i) == ENABLED;
    }
    if i :| 0 <= i < |row.keys| && StatusAt(row, i) == ENABLED {
      assert row.keys[i] in ring.state && ring.state[row.keys[i]] == StateAt(row, i);
    }
  }

  function MarkedRing(ring: Ring, key: Key, status: int, now: int, reason: string): Ring {
    if key !in ring.state then ring
    else if status == ENABLED then ring.(state := ring.state[key := ring.state[key].(status := ENABLED)])
    else ring.(state := ring.state[key := KeyState(status, Some(now), Some(reason))])
  }

  lemma MarkRefines(row: Row, ring: Ring, key: Key, status: int, now: int, reason: string)
    requires Refines(row, ring)
    ensures Refines(MarkedRow(row, key, status, now, reason), MarkedRing(ring, key, status, now, reason))
  {
    var i := Find(row.keys, key);
    if i >= 0 {
      var row' := MarkedRow(row, key, status, now, reason);
      SetOneRefines(row, ring, row', i, StateAt(row', i));
    }
  }

  // ---------------------------------------------------------------- whole runs

  datatype Event = Manage(request: Request, writeOk: bool) | Mark(key: Key, status: int, now: int, reason: string)

  function RowAfter(row: Row, e: Event): Row {
    match e
    case Manage(r, ok) => Managed(row, r, ok)
    case Mark(key, status, now, reason) => MarkedRow(row, key, status, now, reason)
  }

  function RingAfter(ring: Ring, e: Event): Ring {
    match e
    case Manage(r, ok) => if ok then OnRing(ring, r) else ring
    case Mark(key, status, now, reason) => MarkedRing(ring, key, status, now, reason)
  }

  function RowFinal(row: Row, events: seq<Event>): Row {
    if events == [] then row else RowAfter(RowFinal(row, events[..|events| - 1]), events[|events| - 1])
  }

  function RingFinal(ring: Ring, events: seq<Event>): Ring {
    if events == [] then ring else RingAfter(RingFinal(ring, events[..|events| - 1]), events[|events| - 1])
  }

  /** No clean-up of automatically disabled keys is stored while they are the only keys. */
  ghost predicate NeverWipes(row: Row, events: seq<Event>) {
    forall n :: 0 <= n < |events| && events[n] == Manage(DeleteDisabledKeys, true) ==> !Wiped(RowFinal(row, events[..n]))
  }

  /** A ring without keys stays so. */
  lemma EmptyRingStays(ring: Ring, e: Event)
    requires ring == Ring([], map[])
    ensures RingAfter(ring, e) == ring
  {
    assert OnRing(ring, EnableAllKeys).state == map[] && OnRing(ring, DisableAllKeys).state == map[];
    assert Gone(ring) == {};
  }

  /** A stored row never loses its last key. */
  lemma KeysStay(row: Row, e: Event)
    requires row.keys != []
    ensures RowAfter(row, e).keys != []
  {
  }

  lemma WipeOutEmptiesRing(row: Row, ring: Ring)
    requires Refines(row, ring) && Wiped(row)
    ensures OnRing(ring, DeleteDisabledKeys) == Ring([], map[])
  {
    assert 0 in AutoDisabled(row);
    GoneAreAutoDisabled(row, ring);
    NothingRemainsIff(row, ring);
    forall k | k in ring.state ensures k in Gone(ring) {
      var i :| 0 <= i < |row.keys| && row.keys[i] == k;
      assert i in AutoDisabled(row);
    }
  }

  lemma EventRefinesIff(row: Row, ring: Ring, e: Event)
    requires Refines(row, ring)
    ensures e == Manage(DeleteDisabledKeys, true) && Wiped(row) ==> RingAfter(ring, e) == Ring([], map[]) && RowAfter(row, e).keys != []
    ensures !(e == Manage(DeleteDisabledKeys, true) && Wiped(row)) ==> Refines(RowAfter(row, e), RingAfter(ring, e))
  {
    match e
    case Manage(r, ok) =>
      ManagedRefinesIff(row, ring, r);
      if r.DeleteDisabledKeys? && Wiped(row) {
        WipeOutEmptiesRing(row, ring);
        KeysStay(row, e);
      }
    case Mark(key, status, now, reason) =>
      MarkRefines(row, ring, key, status, now, reason);
  }

  lemma NeverWipesMore(row: Row, front: seq<Event>, e: Event)
    ensures NeverWipes(row, front + [e]) <==>
            NeverWipes(row, front) && !(e == Manage(DeleteDisabledKeys, true) && Wiped(RowFinal(row, front)))
  {
    var events := front + [e];
    assert events[..|front|] == front && events[|front|] == e;
    assert forall n :: 0 <= n < |front| ==> events[..n] == front[..n] && events[n] == front[n];
  }

  lemma {:induction false} RunRefinesOrEmpties(row: Row, ring: Ring, events: seq<Event>)
    requires Refines(row, ring)
    ensures NeverWipes(row, events) ==> Refines(RowFinal(row, events), RingFinal(ring, events))
    ensures !NeverWipes(row, events) ==> RingFinal(ring, events) == Ring([], map[]) && RowFinal(row, events).keys != []
  {
    if events != [] {
      var front, e := events[..|events| - 1], events[|events| - 1];
      assert events == front + [e];
      NeverWipesMore(row, front, e);
      RunRefinesOrEmpties(row, ring, front);
      if NeverWipes(row, front) {
        EventRefinesIff(RowFinal(row, front), RingFinal(ring, front), e);
      } else {
        EmptyRingStays(RingFinal(ring, front), e);
        KeysStay(RowFinal(row, front), e);
      }
    }
  }

  /** Over every run of requests and relay marks, the index-based row is the ring (the same keys
      in the same order, each with its own status, time and reason, and every index in range)
      exactly when no clean-up was stored while only automatically disabled keys were left. */
  lemma RunRefinesIff(row: Row, ring: Ring, events: seq<Event>)
    requires Refines(row, ring)
    ensures Refines(RowFinal(row, events), RingFinal(ring, events)) <==> NeverWipes(row, events)
  {
    RunRefinesOrEmpties(row, ring, events);
  }

  // ---------------------------------------------------------------- get_key_status

  datatype KeyStatus = KeyStatus(index: int, status: int, disabledTime: int, reason: string, keyPreview: string)

  function Preview(key: Key): string {
    if |key| > 10 then key[..10] + "..." else key
  }

  /** What the page shows for the i-th key: time and reason only when it is not enabled. */
  function Shown(row: Row, i: nat): KeyStatus
    requires i < |row.keys|
  {
    var s := StateAt(row, i);
    if s.status == ENABLED then KeyStatus(i, ENABLED, 0, "", Preview(row.keys[i]))
    else
      KeyStatus(i, s.status, if s.time.Some? then s.time.value else 0,
                if s.reason.Some? then s.reason.value else "", Preview(row.keys[i]))
  }

  /** The first n keys that have the wanted status. */
  function Listed(row: Row, filter: Option<int>, n: nat): seq<KeyStatus>
    requires n <= |row.keys|
  {
    if n == 0 then []
    else
      var front, s := Listed(row, filter, n - 1), Shown(row, n - 1);
      if filter.None? || s.status == filter.value then front + [s] else front
  }

  function Count(row: Row, status: int, n: nat): nat
    requires n <= |row.keys|
  {
    if n == 0 then 0 else Count(row, status, n - 1) + (if StatusAt(row, n - 1) == status then 1 else 0)
  }

  function PageCount(total: nat, pageSize: nat): (n: nat)
    requires pageSize > 0
    ensures n >= 1
  {
    var pages := (total + pageSize - 1) / pageSize;
    if pages == 0 then 1 else pages
  }

  function PageOf(list: seq<KeyStatus>, page: nat, pageSize: nat): seq<KeyStatus>
    requires page >= 1
  {
    var start := (page - 1) * pageSize;
    if start >= |list| then []
    else list[start..if start + pageSize > |list| then |list| else start + pageSize]
  }

  method GetKeyStatus(row: Row, page: int, pageSize: int, filter: Option<int>)
    returns (keys: seq<KeyStatus>, total: nat, shownPage: nat, shownSize: nat, totalPages: nat, counts: (nat, nat, nat))
    ensures shownSize == if pageSize <= 0 then 50 else pageSize
    ensures total == |Listed(row, filter, |row.keys|)| && totalPages == PageCount(total, shownSize)
    ensures shownPage == (if page <= 0 then 1 else if page > totalPages then totalPages else page)
    ensures keys == PageOf(Listed(row, filter, |row.keys|), shownPage, shownSize)
    ensures All(keys, Suits(row, filter)) && Increasing(keys)
    ensures counts == (Count(row, ENABLED, |row.keys|), Count(row, MANUALLY_DISABLED, |row.keys|), Count(row, AUTO_DISABLED, |row.keys|))
  {
    shownPage := if page <= 0 then 1 else page;
    shownSize := if pageSize <= 0 then 50 else pageSize;
    var list: seq<KeyStatus> := [];
    var enabledCount, manualCount, autoCount := 0, 0, 0;
    for i := 0 to |row.keys|
      invariant list == Listed(row, filter, i)
      invariant (enabledCount, manualCount, autoCount) ==
                (Count(row, ENABLED, i), Count(row, MANUALLY_DISABLED, i), Count(row, AUTO_DISABLED, i))
    {
      var status := if i in row.status then row.status[i] else ENABLED;
      match status {
        case 1 => enabledCount := enabledCount + 1;
        case 2 => manualCount := manualCount + 1;
        case 3 => autoCount := autoCount + 1;
        case _ =>
      }
      var disabledTime, reason := 0, "";
      if status != ENABLED {
        disabledTime := if i in row.times then row.times[i] else 0;
        reason := if i in row.reasons then row.reasons[i] else "";
      }
      if filter.None? || status == filter.value {
        list := list + [KeyStatus(i, status, disabledTime, reason, Preview(row.keys[i]))];
      }
    }
    total := |list|;
    totalPages := PageCount(total, shownSize);
    if shownPage > totalPages {
      shownPage := totalPages;
    }
    keys := PageOf(list, shownPage, shownSize);
    ListDescribes(row, filter);
    PageIsPart(list, shownPage, shownSize, Suits(row, filter));
    counts := (enabledCount, manualCount, autoCount);
  }

  function Pages(list: seq<KeyStatus>, n: nat, pageSize: nat): seq<KeyStatus> {
    if n == 0 then [] else Pages(list, n - 1, pageSize) + PageOf(list, n, pageSize)
  }

  lemma {:induction false} PagesAreAPrefix(list: seq<KeyStatus>, n: nat, pageSize: nat)
    ensures Pages(list, n, pageSize) == list[..if n * pageSize > |list| then |list| else n * pageSize]
  {
    if n > 0 {
      PagesAreAPrefix(list, n - 1, pageSize);
      assert n * pageSize == (n - 1) * pageSize + pageSize;
    }
  }

  /** The pages, one after the other, are the list: nothing is shown twice and nothing is lost. */
  lemma PagesCoverTheList(list: seq<KeyStatus>, pageSize: nat)
    requires pageSize > 0
    ensures Pages(list, PageCount(|list|, pageSize), pageSize) == list
  {
    var n := PageCount(|list|, pageSize);
    PagesAreAPrefix(list, n, pageSize);
    assert n * pageSize >= |list|;
  }

  /** The number shown for a status is the number of keys listed under it. */
  lemma {:induction false} CountIsListed(row: Row, status: int, n: nat)
    requires n <= |row.keys|
    ensures Count(row, status, n) == |Listed(row, Some(status), n)|
  {
    if n > 0 {
      CountIsListed(row, status, n - 1);
    }
  }

  /** Without a filter every key is listed, at its own place. */
  lemma {:induction false} AllAreListed(row: Row, n: nat)
    requires n <= |row.keys|
    ensures |Listed(row, None, n)| == n && forall i :: 0 <= i < n ==> Listed(row, None, n)[i] == Shown(row, i)
  {
    if n > 0 {
      AllAreListed(row, n - 1);
    }
  }

  /** An entry describes the key at its index: the key's status, the time and reason of a key that is
      not enabled, and the first ten characters of the key. */
  predicate Describes(row: Row, e: KeyStatus) {
    && 0 <= e.index < |row.keys|
    && e.status == (if e.index in row.status then row.status[e.index] else 1)
    && e.disabledTime == (if e.status != 1 && e.index in row.times then row.times[e.index] else 0)
    && e.reason == (if e.status != 1 && e.index in row.reasons then row.reasons[e.index] else "")
    && (|row.keys[e.index]| <= 10 ==> e.keyPreview == row.keys[e.index])
    && (|row.keys[e.index]| > 10 ==> e.keyPreview == row.keys[e.index][..10] + "...")
  }

  predicate WantedBy(filter: Option<int>, status: int) {
    filter.None? || status == filter.value
  }

  ghost predicate All(list: seq<KeyStatus>, good: KeyStatus -> bool) {
    forall k :: 0 <= k < |list| ==> good(list[k])
  }

  /** An entry that describes a key with the wanted status. */
  function Suits(row: Row, filter: Option<int>): KeyStatus -> bool {
    e => Describes(row, e) && WantedBy(filter, e.status)
  }

  /** The entries are in the order of the keys, none twice. */
  ghost predicate Increasing(list: seq<KeyStatus>) {
    forall j, k :: 0 <= j < k < |list| ==> list[j].index < list[k].index
  }

  ghost predicate HasEntry(list: seq<KeyStatus>, i: int) {
    exists k :: 0 <= k < |list| && list[k].index == i
  }

  /** No key below n with the wanted status is missing. */
  ghost predicate NoneMissing(row: Row, filter: Option<int>, n: nat, list: seq<KeyStatus>) {
    forall i :: 0 <= i < n && WantedBy(filter, StatusAt(row, i)) ==> HasEntry(list, i)
  }

  lemma ShownDescribes(row: Row, i: nat)
    requires i < |row.keys|
    ensures Describes(row, Shown(row, i)) && Shown(row, i).index == i && Shown(row, i).status == StatusAt(row, i)
  {
  }

  lemma EntryStays(front: seq<KeyStatus>, s: KeyStatus, i: int)
    requires HasEntry(front, i) || s.index == i
    ensures HasEntry(front + [s], i)
  {
    if s.index == i {
      assert (front + [s])[|front|].index == i;
    } else {
      var k :| 0 <= k < |front| && front[k].index == i;
      assert (front + [s])[k].index == i;
    }
  }

  lemma NoneMissingMore(row: Row, filter: Option<int>, n: nat, front: seq<KeyStatus>)
    requires n < |row.keys| && NoneMissing(row, filter, n, front)
    ensures NoneMissing(row, filter, n + 1, if WantedBy(filter, StatusAt(row, n)) then front + [Shown(row, n)] else front)
  {
    if WantedBy(filter, StatusAt(row, n)) {
      ShownDescribes(row, n);
      forall i | 0 <= i < n + 1 && WantedBy(filter, StatusAt(row, i)) ensures HasEntry(front + [Shown(row, n)], i) {
        assert i < n ==> HasEntry(front, i);
        EntryStays(front, Shown(row, n), i);
      }
    }
  }

  lemma ListedMore(row: Row, filter: Option<int>, n: nat)
    requires n < |row.keys|
    ensures Listed(row, filter, n + 1) ==
            Listed(row, filter, n) + if WantedBy(filter, StatusAt(row, n)) then [Shown(row, n)] else []
  {
    ShownDescribes(row, n);
  }

  lemma {:induction false} ListHasOnly(row: Row, filter: Option<int>, n: nat, good: KeyStatus -> bool)
    requires n <= |row.keys|
    requires forall i :: 0 <= i < |row.keys| && WantedBy(filter, StatusAt(row, i)) ==> good(Shown(row, i))
    ensures All(Listed(row, filter, n), good)
  {
    if n > 0 {
      ListHasOnly(row, filter, n - 1, good);
      ListedMore(row, filter, n - 1);
    }
  }

  lemma {:induction false} ListIncreases(row: Row, filter: Option<int>, n: nat)
    requires n <= |row.keys|
    ensures Increasing(Listed(row, filter, n)) && forall k :: 0 <= k < |Listed(row, filter, n)| ==> Listed(row, filter, n)[k].index < n
  {
    if n > 0 {
      ListIncreases(row, filter, n - 1);
      ListedMore(row, filter, n - 1);
      ShownDescribes(row, n - 1);
    }
  }

  lemma ListDescribes(row: Row, filter: Option<int>)
    ensures All(Listed(row, filter, |row.keys|), Suits(row, filter)) && Increasing(Listed(row, filter, |row.keys|))
  {
    forall i | 0 <= i < |row.keys| && WantedBy(filter, StatusAt(row, i)) ensures Suits(row, filter)(Shown(row, i)) {
      ShownDescribes(row, i);
    }
    ListHasOnly(row, filter, |row.keys|, Suits(row, filter));
    ListIncreases(row, filter, |row.keys|);
  }

  lemma {:induction false} ListMissesNone(row: Row, filter: Option<int>, n: nat)
    requires n <= |row.keys|
    ensures NoneMissing(row, filter, n, Listed(row, filter, n))
  {
    if n > 0 {
      var front := Listed(row, filter, n - 1);
      ListMissesNone(row, filter, n - 1);
      ListedMore(row, filter, n - 1);
      NoneMissingMore(row, filter, n - 1, front);
      assert front + [] == front;
    }
  }

  /** With any filter, or none, the list holds exactly the keys of the wanted status, each described
      under its own index, in order. */
  lemma ListIsExact(row: Row, filter: Option<int>)
    ensures var list := Listed(row, filter, |row.keys|);
            All(list, Suits(row, filter)) && Increasing(list) && NoneMissing(row, filter, |row.keys|, list)
  {
    ListDescribes(row, filter);
    ListMissesNone(row, filter, |row.keys|);
  }

  lemma PageIsPart(list: seq<KeyStatus>, page: nat, pageSize: nat, good: KeyStatus -> bool)
    requires page >= 1 && All(list, good) && Increasing(list)
    ensures All(PageOf(list, page, pageSize), good) && Increasing(PageOf(list, page, pageSize))
  {
    var part, start := PageOf(list, page, pageSize), (page - 1) * pageSize;
    PartOf(list, part, start, good);
  }

  lemma PartOf(list: seq<KeyStatus>, part: seq<KeyStatus>, start: nat, good: KeyStatus -> bool)
    requires part == [] || (start + |part| <= |list| && part == list[start..start + |part|])
    requires All(list, good) && Increasing(list)
    ensures All(part, good) && Increasing(part)
  {
  }
}
