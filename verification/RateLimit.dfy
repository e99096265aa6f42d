/**
 The in-memory sliding-window limiter of common/rate-limit.go. The class keeps one queue of
 grant times per key, as the source does; the clock is a parameter. The second half proves,
 over whole histories of requests and clean-ups, when the queue answers the way an unbounded
 log of all grants would.
 */
module RateLimit {

  type Key = string
  type Store = map<Key, seq<int>>

  // ---------------------------------------------------------------- one call

  function Queue(store: Store, key: Key): seq<int> {
    if key in store then store[key] else []
  }

  /** No queue that has been stored is empty. */
  predicate ValidStore(store: Store) {
    forall k :: k in store ==> store[k] != []
  }

  /** Whether a request is granted, and the store afterwards. */
  function Answer(store: Store, key: Key, max: int, duration: int, now: int): (r: (Store, bool))
    requires ValidStore(store)
    ensures ValidStore(r.0)
  {
    if key !in store || |store[key]| < max then (store[key := Queue(store, key) + [now]], true)
    else if now - store[key][0] >= duration then (store[key := store[key][1..] + [now]], true)
    else (store, false)
  }

  predicate Stale(queue: seq<int>, expiry: int, now: int) {
    |queue| == 0 || now - queue[|queue| - 1] > expiry
  }

  /** The store without the keys whose latest grant is older than the expiry. */
  function Swept(store: Store, expiry: int, now: int): (r: Store)
    requires ValidStore(store)
    ensures ValidStore(r)
  {
    map k | k in store && !Stale(store[k], expiry, now) :: store[k]
  }

  class InMemoryRateLimiter {
    var store: Store
    const expiry: int

    ghost predicate Valid()
      reads this
    {
      ValidStore(store)
    }

    constructor (expiry: int)
      ensures Valid() && store == map[] && this.expiry == expiry
    {
      this.expiry := expiry;
      store := map[];
    }

    /** One pass of the clean-up loop. */
    method ClearExpiredItems(now: int)
      requires Valid()
      modifies this
      ensures Valid() && store == Swept(old(store), expiry, now)
    {
      var pending := store.Keys;
      while pending != {}
        invariant pending <= store.Keys <= old(store).Keys
        invariant forall k :: k in old(store) ==>
                    (k in store <==> k in pending || !Stale(old(store)[k], expiry, now))
        invariant forall k :: k in store ==> store[k] == old(store)[k]
        decreases |pending|
      {
        var key :| key in pending;
        var queue := store[key];
        if |queue| == 0 || now - queue[|queue| - 1] > expiry {
          store := store - {key};
        }
        pending := pending - {key};
      }
    }

    method Request(key: Key, maxRequestNum: int, duration: int, now: int) returns (granted: bool)
      requires Valid()
      modifies this
      ensures Valid() && (store, granted) == Answer(old(store), key, maxRequestNum, duration, now)
    {
      if key in store {
        if |store[key]| < maxRequestNum {
          store := store[key := store[key] + [now]];
          return true;
        }
        if now - store[key][0] >= duration {
          store := store[key := store[key][1..]];
          store := store[key := store[key] + [now]];
          assert store == old(store)[key := old(store)[key][1..] + [now]];
          return true;
        }
        return false;
      }
      store := store[key := []];
      store := store[key := store[key] + [now]];
      assert store == old(store)[key := [] + [now]];
      return true;
    }
  }

  // ---------------------------------------------------------------- histories

  datatype Event = Request(key: Key, max: int, duration: int, now: int) | CleanUp(now: int)

  /** The limiter's store and, beside it, the times of all grants made to each key. */
  datatype World = World(store: Store, granted: map<Key, seq<int>>)

  function Step(w: World, e: Event, expiry: int): (r: World)
    requires ValidStore(w.store)
    ensures ValidStore(r.store)
  {
    match e
    case Request(key, max, duration, now) =>
      var r := Answer(w.store, key, max, duration, now);
      World(r.0, if r.1 then w.granted[key := Queue(w.granted, key) + [now]] else w.granted)
    case CleanUp(now) => w.(store := Swept(w.store, expiry, now))
  }

  ghost function Play(events: seq<Event>, expiry: int): (w: World)
    ensures ValidStore(w.store)
  {
    if events == [] then World(map[], map[])
    else Step(Play(events[..|events| - 1], expiry), events[|events| - 1], expiry)
  }

  /** How many grant times are younger than the duration. */
  function Live(times: seq<int>, duration: int, now: int): nat {
    if times == [] then 0
    else Live(times[1..], duration, now) + (if now - times[0] < duration then 1 else 0)
  }

  /** The clock never runs backwards. */
  ghost predicate Timely(events: seq<Event>) {
    forall i, j :: 0 <= i < j < |events| ==> events[i].now <= events[j].now
  }

  /** One key's limits never change. */
  ghost predicate Steady(events: seq<Event>, key: Key, max: int, duration: int) {
    forall i :: 0 <= i < |events| && events[i].Request? && events[i].key == key ==>
      events[i].max == max && events[i].duration == duration
  }

  /** No clean-up takes place: the source starts none when the expiration is zero. */
  ghost predicate Unswept(events: seq<Event>) {
    forall i :: 0 <= i < |events| ==> events[i].Request?
  }

  /** The promise: a request is granted exactly when fewer than `max` grants are live. */
  ghost predicate AnswersExactly(events: seq<Event>, expiry: int, key: Key, max: int, duration: int, now: int) {
    var w := Play(events, expiry);
    Answer(w.store, key, max, duration, now).1 <==> Live(Queue(w.granted, key), duration, now) < max
  }

  // ---------------------------------------------------------------- counting live grants

  lemma {:induction false} LiveAppend(a: seq<int>, b: seq<int>, duration: int, now: int)
    ensures Live(a + b, duration, now) == Live(a, duration, now) + Live(b, duration, now)
  {
    if a == [] {
      assert a + b == b;
    } else {
      assert (a + b)[1..] == a[1..] + b;
      LiveAppend(a[1..], b, duration, now);
    }
  }

  lemma {:induction false} NoneLive(times: seq<int>, duration: int, now: int)
    requires forall i :: 0 <= i < |times| ==> now - times[i] >= duration
    ensures Live(times, duration, now) == 0
  {
    if times != [] {
      NoneLive(times[1..], duration, now);
    }
  }

  lemma {:induction false} AllLive(times: seq<int>, duration: int, now: int)
    requires forall i :: 0 <= i < |times| ==> now - times[i] < duration
    ensures Live(times, duration, now) == |times|
  {
    if times != [] {
      AllLive(times[1..], duration, now);
    }
  }

  lemma {:induction false} LiveAtMost(times: seq<int>, duration: int, now: int)
    ensures Live(times, duration, now) <= |times|
  {
    if times != [] {
      LiveAtMost(times[1..], duration, now);
    }
  }

  // ---------------------------------------------------------------- the invariant

  ghost predicate Ordered(times: seq<int>, now: int) {
    && (forall i, j :: 0 <= i <= j < |times| ==> times[i] <= times[j])
    && (forall i :: 0 <= i < |times| ==> times[i] <= now)
  }

  /** The queue is the tail of all grants, no longer than the limit, and whatever it has
      dropped is no longer live. */
  ghost predicate Tracks(w: World, key: Key, max: int, duration: int, now: int) {
    var all, kept := Queue(w.granted, key), Queue(w.store, key);
    && Ordered(all, now)
    && |kept| <= max
    && |kept| <= |all|
    && all[|all| - |kept|..] == kept
    && forall i :: 0 <= i < |all| - |kept| ==> now - all[i] >= duration
  }

  lemma RequestKeepsTrack(w: World, key: Key, max: int, duration: int, now: int, expiry: int)
    requires ValidStore(w.store) && max >= 1 && Tracks(w, key, max, duration, now)
    ensures Tracks(Step(w, Request(key, max, duration, now), expiry), key, max, duration, now)
  {
    var all, kept := Queue(w.granted, key), Queue(w.store, key);
    var w' := Step(w, Request(key, max, duration, now), expiry);
    var all', kept' := Queue(w'.granted, key), Queue(w'.store, key);
    if |kept| == max && all' != all {
      assert kept[0] == all[|all| - |kept|];
      assert kept' == kept[1..] + [now];
      assert all'[|all'| - |kept'|..] == all[|all| - |kept|..][1..] + [now];
    } else if all' != all {
      assert all'[|all'| - |kept'|..] == all[|all| - |kept|..] + [now];
    }
  }

  lemma RequestIsExact(w: World, key: Key, max: int, duration: int, now: int)
    requires ValidStore(w.store) && max >= 1 && Tracks(w, key, max, duration, now)
    ensures Answer(w.store, key, max, duration, now).1 <==> Live(Queue(w.granted, key), duration, now) < max
  {
    var all, kept := Queue(w.granted, key), Queue(w.store, key);
    var dropped := all[..|all| - |kept|];
    assert all == dropped + kept;
    LiveAppend(dropped, kept, duration, now);
    NoneLive(dropped, duration, now);
    LiveAtMost(kept, duration, now);
    if |kept| == max {
      if now - kept[0] >= duration {
        LiveAtMost(kept[1..], duration, now);
      } else {
        assert forall i :: 0 <= i < |kept| ==> kept[i] == all[|all| - |kept| + i];
        AllLive(kept, duration, now);
      }
    }
  }

  lemma EventTracks(w: World, e: Event, expiry: int, key: Key, max: int, duration: int, before: int)
    requires ValidStore(w.store) && max >= 1 && (e.CleanUp? ==> expiry >= duration - 1)
    requires Tracks(w, key, max, duration, before) && before <= e.now
    requires e.Request? && e.key == key ==> e.max == max && e.duration == duration
    ensures Tracks(Step(w, e, expiry), key, max, duration, e.now)
  {
    assert Tracks(w, key, max, duration, e.now);
    if e.Request? && e.key == key {
      RequestKeepsTrack(w, key, max, duration, e.now, expiry);
    } else if e.CleanUp? && key in w.store && Stale(w.store[key], expiry, e.now) {
      var all, kept := Queue(w.granted, key), w.store[key];
      assert kept[|kept| - 1] == all[|all| - 1];
    }
  }

  lemma {:induction false} HistoryTracks(events: seq<Event>, expiry: int, key: Key, max: int, duration: int, now: int)
    requires max >= 1 && (expiry >= duration - 1 || Unswept(events))
    requires Timely(events) && Steady(events, key, max, duration)
    requires forall i :: 0 <= i < |events| ==> events[i].now <= now
    ensures Tracks(Play(events, expiry), key, max, duration, now)
  {
    if events != [] {
      var front, e := events[..|events| - 1], events[|events| - 1];
      HistoryTracks(front, expiry, key, max, duration, e.now);
      EventTracks(Play(front, expiry), e, expiry, key, max, duration, e.now);
    }
  }

  // ---------------------------------------------------------------- the theorem

  /** Over every history with a steady limit, keeping `max` times and dropping idle keys, if keys
      are dropped at all, answers exactly as counting all live grants would. */
  lemma WindowIsExact(events: seq<Event>, expiry: int, key: Key, max: int, duration: int, now: int)
    requires max >= 1 && (expiry >= duration - 1 || Unswept(events))
    requires Timely(events) && Steady(events, key, max, duration)
    requires forall i :: 0 <= i < |events| ==> events[i].now <= now
    ensures AnswersExactly(events, expiry, key, max, duration, now)
  {
    HistoryTracks(events, expiry, key, max, duration, now);
    RequestIsExact(Play(events, expiry), key, max, duration, now);
  }

  ghost predicate AlwaysExact(expiry: int, max: int, duration: int) {
    forall events: seq<Event>, key: Key, now: int ::
      Timely(events) && Steady(events, key, max, duration)
      && (forall i :: 0 <= i < |events| ==> events[i].now <= now)
      ==> AnswersExactly(events, expiry, key, max, duration, now)
  }

  /** n requests at time 0. */
  function Burst(n: nat, max: int, duration: int): (b: seq<Event>)
    ensures |b| == n && forall i :: 0 <= i < n ==> b[i] == Request("", max, duration, 0)
  {
    seq(n, _ => Request("", max, duration, 0))
  }

  lemma {:induction false} BurstFills(n: nat, expiry: int, max: int, duration: int)
    requires n <= max
    ensures var w := Play(Burst(n, max, duration), expiry);
            w.store.Keys == (if n == 0 then {} else {""})
            && Queue(w.store, "") == Queue(w.granted, "") == seq(n, _ => 0)
  {
    if n > 0 {
      BurstFills(n - 1, expiry, max, duration);
      assert Burst(n, max, duration)[..n - 1] == Burst(n - 1, max, duration);
    }
  }

  /** A clean-up that forgets a key while its grants are still live lets one more through. */
  lemma EarlyCleanUpOverGrants(expiry: int, max: int, duration: int)
    requires max >= 1 && 0 <= expiry < duration - 1
    ensures var events := Burst(max, max, duration) + [CleanUp(expiry + 1)];
            !AnswersExactly(events, expiry, "", max, duration, expiry + 1)
  {
    var burst := Burst(max, max, duration);
    var events := burst + [CleanUp(expiry + 1)];
    assert events[..|events| - 1] == burst;
    BurstFills(max, expiry, max, duration);
    var w := Play(burst, expiry);
    AllLive(Queue(w.granted, ""), duration, expiry + 1);
    assert w.store[""][|w.store[""]| - 1] == 0;
  }

  ghost predicate AlwaysExactUnswept(max: int, duration: int) {
    forall events: seq<Event>, key: Key, now: int ::
      Unswept(events) && Timely(events) && Steady(events, key, max, duration)
      && (forall i :: 0 <= i < |events| ==> events[i].now <= now)
      ==> AnswersExactly(events, 0, key, max, duration, now)
  }

  /** Without clean-ups (an expiration of zero) the limit alone decides. */
  lemma UnsweptExactIff(max: int, duration: int)
    ensures AlwaysExactUnswept(max, duration) <==> max >= 1
  {
    if max >= 1 {
      forall events: seq<Event>, key: Key, now: int |
        Unswept(events) && Timely(events) && Steady(events, key, max, duration)
        && (forall i :: 0 <= i < |events| ==> events[i].now <= now)
        ensures AnswersExactly(events, 0, key, max, duration, now)
      {
        WindowIsExact(events, 0, key, max, duration, now);
      }
    } else {
      assert !AnswersExactly([], 0, "", max, duration, 0);
    }
  }

  /** The exact condition with clean-ups: the limiter keeps its promise over all histories if and only if
      the limit is positive and a key outlives its grants (a clean-up forgets a key one
      second after the expiry at the earliest). The expiry is in whole seconds, so 0 stands for
      an expiration below one second. */
  lemma ExactIff(expiry: int, max: int, duration: int)
    requires expiry >= 0
    ensures AlwaysExact(expiry, max, duration) <==> max >= 1 && expiry >= duration - 1
  {
    if max >= 1 && expiry >= duration - 1 {
      forall events: seq<Event>, key: Key, now: int |
        Timely(events) && Steady(events, key, max, duration)
        && (forall i :: 0 <= i < |events| ==> events[i].now <= now)
        ensures AnswersExactly(events, expiry, key, max, duration, now)
      {
        WindowIsExact(events, expiry, key, max, duration, now);
      }
    } else if max >= 1 {
      EarlyCleanUpOverGrants(expiry, max, duration);
      var events := Burst(max, max, duration) + [CleanUp(expiry + 1)];
      assert Timely(events) && Steady(events, "", max, duration);
    } else {
      assert !AnswersExactly([], expiry, "", max, duration, 0);
    }
  }
}
