/**
 fetchJSON of controller/model_sync.go with its ETag and body caches. The transport is a
 parameter: each attempt fails, is refused, or meets a server that holds some current
 representation and evaluates If-None-Match as section 13.1.2 of RFC 9110 prescribes.
 */
module EtagCache {
  import opened Basics

  type Url = string
  type Bytes = seq<byte>

  /** A representation with its entity tag; no tag is the empty string. */
  datatype Rep = Rep(etag: string, body: Bytes)

  datatype Cache = Cache(etags: map<Url, string>, bodies: map<Url, Bytes>)

  /** What an attempt meets. */
  datatype Outcome = Unreachable | Refused(status: int) | Broken | Serves(current: Rep)

  datatype Error = NetworkError | StatusError(status: int) | ReadError | DecodeError | CacheMiss

  datatype Result<T> = Decoded(value: T) | Failed(error: Error)

  function EtagOf(c: Cache, url: Url): string {
    if url in c.etags then c.etags[url] else ""
  }

  function BodyOf(c: Cache, url: Url): Bytes {
    if url in c.bodies then c.bodies[url] else []
  }

  /** io.LimitReader followed by io.ReadAll. */
  function Limited(body: Bytes, max: int): Bytes {
    if max <= 0 then [] else if |body| <= max then body else body[..max]
  }

  /** A tag without its weakness mark. */
  function Opaque(tag: string): string {
    if "W/" <= tag then tag[2..] else tag
  }

  /** The server answers 304 exactly when the tag it is sent names its current representation, by
      the weak comparison. */
  predicate NotModified(sent: string, current: Rep) {
    sent != "" && current.etag != "" && Opaque(sent) == Opaque(current.etag)
  }

  function Stored(c: Cache, url: Url, etag: string, buf: Bytes): Cache {
    Cache(if etag != "" then c.etags[url := etag] else c.etags, c.bodies[url := buf])
  }

  function Decode<T>(decode: Bytes -> Option<T>, buf: Bytes): Result<T> {
    var d := decode(buf);
    if d.Some? then Decoded(d.value) else Failed(DecodeError)
  }

  /** One attempt: the cache afterwards and what the attempt yields. */
  function Attempt<T>(c: Cache, url: Url, o: Outcome, max: int, decode: Bytes -> Option<T>): (Cache, Result<T>) {
    match o
    case Unreachable => (c, Failed(NetworkError))
    case Refused(status) => (c, Failed(StatusError(status)))
    case Broken => (c, Failed(ReadError))
    case Serves(current) =>
      if NotModified(EtagOf(c, url), current) then
        (c, if BodyOf(c, url) == [] then Failed(CacheMiss) else Decode(decode, BodyOf(c, url)))
      else
        var buf := Limited(current.body, max);
        (Stored(c, url, current.etag, buf), Decode(decode, buf))
  }

  /** Attempts k, k+1, ... until one succeeds or n are used up. */
  function Fetch<T>(c: Cache, url: Url, outcomes: nat -> Outcome, max: int, decode: Bytes -> Option<T>, k: nat, n: nat): (Cache, Result<T>)
    requires k < n
    decreases n - k
  {
    var r := Attempt(c, url, outcomes(k), max, decode);
    if r.1.Decoded? || k + 1 == n then r else Fetch(r.0, url, outcomes, max, decode, k + 1, n)
  }

  class ModelCache {
    var etagCache: map<Url, string>
    var bodyCache: map<Url, Bytes>

    constructor ()
      ensures etagCache == map[] && bodyCache == map[]
    {
      etagCache, bodyCache := map[], map[];
    }

    method FetchJSON<T>(url: Url, retry: int, maxBytes: int, outcomes: nat -> Outcome, decode: Bytes -> Option<T>) returns (r: Result<T>)
      modifies this
      ensures (Cache(etagCache, bodyCache), r) ==
              Fetch(old(Cache(etagCache, bodyCache)), url, outcomes, maxBytes, decode, 0, if retry < 1 then 1 else retry)
    {
      var attempts := if retry < 1 then 1 else retry;
      ghost var goal := Fetch(Cache(etagCache, bodyCache), url, outcomes, maxBytes, decode, 0, attempts);
      r := Failed(NetworkError);
      var attempt := 0;
      while attempt < attempts
        invariant 0 <= attempt <= attempts
        invariant attempt < attempts ==>
                    Fetch(Cache(etagCache, bodyCache), url, outcomes, maxBytes, decode, attempt, attempts) == goal
        invariant attempt == attempts ==> (Cache(etagCache, bodyCache), r) == goal
      {
        var sent := if url in etagCache then etagCache[url] else "";
        match outcomes(attempt) {
          case Unreachable => r := Failed(NetworkError);
          case Refused(status) => r := Failed(StatusError(status));
          case Broken => r := Failed(ReadError);
          case Serves(current) =>
            if NotModified(sent, current) {
              var buf := if url in bodyCache then bodyCache[url] else [];
              if |buf| == 0 {
                r := Failed(CacheMiss);
              } else {
                r := Decode(decode, buf);
              }
            } else {
              var buf := Limited(current.body, maxBytes);
              if current.etag != "" {
                etagCache := etagCache[url := current.etag];
              }
              bodyCache := bodyCache[url := buf];
              r := Decode(decode, buf);
            }
        }
        if r.Decoded? {
          return;
        }
        attempt := attempt + 1;
      }
    }
  }

  // ---------------------------------------------------------------- the server's side

  /** The representations a server ever serves are tagged, non-empty and within the limit. */
  ghost predicate TaggingServer(issued: (Url, Rep) -> bool, max: int) {
    forall u, r: Rep :: issued(u, r) ==> r.etag != "" && 0 < |r.body| <= max
  }

  /** Tags that match, weak or not, mean one body. Section 8.8.3 of RFC 9110 asks that of strong
      tags only. */
  ghost predicate OneBodyPerTag(issued: (Url, Rep) -> bool) {
    forall u, r: Rep, q: Rep ::
      issued(u, r) && issued(u, q) && r.etag != "" && q.etag != "" && Opaque(r.etag) == Opaque(q.etag) ==> r.body == q.body
  }

  ghost predicate Honest(url: Url, o: Outcome, issued: (Url, Rep) -> bool) {
    o.Serves? ==> issued(url, o.current)
  }

  /** Whatever tag is cached for a URL was issued together with the body cached for it. */
  ghost predicate Paired(c: Cache, issued: (Url, Rep) -> bool) {
    forall u :: EtagOf(c, u) != "" ==> u in c.bodies && issued(u, Rep(EtagOf(c, u), c.bodies[u]))
  }

  /** What a client without any cache, always sent the full representation, would get. */
  function PlainAttempt<T>(o: Outcome, decode: Bytes -> Option<T>): Result<T> {
    match o
    case Unreachable => Failed(NetworkError)
    case Refused(status) => Failed(StatusError(status))
    case Broken => Failed(ReadError)
    case Serves(current) => Decode(decode, current.body)
  }

  function PlainFetch<T>(outcomes: nat -> Outcome, decode: Bytes -> Option<T>, k: nat, n: nat): Result<T>
    requires k < n
    decreases n - k
  {
    var r := PlainAttempt(outcomes(k), decode);
    if r.Decoded? || k + 1 == n then r else PlainFetch(outcomes, decode, k + 1, n)
  }

  /** A representation the server issued whose tag matches the current one. */
  ghost predicate Equivalent(url: Url, rep: Rep, current: Rep, issued: (Url, Rep) -> bool) {
    issued(url, rep) && Opaque(rep.etag) == Opaque(current.etag)
  }

  /** Every attempt against a tagging server leaves tag and body paired, never misses the cache,
      and decodes a body issued under a tag that matches the current one. */
  lemma AttemptKeepsPairs<T>(c: Cache, url: Url, o: Outcome, max: int, decode: Bytes -> Option<T>, issued: (Url, Rep) -> bool)
    requires TaggingServer(issued, max) && Paired(c, issued) && Honest(url, o, issued)
    ensures var r := Attempt(c, url, o, max, decode);
            && Paired(r.0, issued) && r.1 != Failed(CacheMiss)
            && (o.Serves? ==> exists rep: Rep :: Equivalent(url, rep, o.current, issued) && r.1 == Decode(decode, rep.body))
  {
    var c' := Attempt(c, url, o, max, decode).0;
    forall u | EtagOf(c', u) != "" ensures u in c'.bodies && issued(u, Rep(EtagOf(c', u), c'.bodies[u])) {
      assert u != url ==> EtagOf(c', u) == EtagOf(c, u);
    }
    if o.Serves? {
      var rep := if NotModified(EtagOf(c, url), o.current) then Rep(EtagOf(c, url), c.bodies[url]) else o.current;
      assert Equivalent(url, rep, o.current, issued);
    }
  }

  /** When matching tags mean one body, that is the current body. */
  lemma AttemptIsTransparent<T>(c: Cache, url: Url, o: Outcome, max: int, decode: Bytes -> Option<T>, issued: (Url, Rep) -> bool)
    requires TaggingServer(issued, max) && OneBodyPerTag(issued) && Paired(c, issued) && Honest(url, o, issued)
    ensures Attempt(c, url, o, max, decode).1 == PlainAttempt(o, decode)
  {
    AttemptKeepsPairs(c, url, o, max, decode, issued);
  }

  /** Every fetch against a tagging server leaves tag and body paired, and a 304 never misses the
      cache. */
  lemma {:induction false} FetchKeepsPairs<T>(c: Cache, url: Url, outcomes: nat -> Outcome, max: int, decode: Bytes -> Option<T>, k: nat, n: nat, issued: (Url, Rep) -> bool)
    requires k < n && TaggingServer(issued, max) && Paired(c, issued)
    requires forall i: nat :: Honest(url, outcomes(i), issued)
    ensures var r := Fetch(c, url, outcomes, max, decode, k, n); Paired(r.0, issued) && r.1 != Failed(CacheMiss)
    decreases n - k
  {
    AttemptKeepsPairs(c, url, outcomes(k), max, decode, issued);
    var r := Attempt(c, url, outcomes(k), max, decode);
    if !(r.1.Decoded? || k + 1 == n) {
      FetchKeepsPairs(r.0, url, outcomes, max, decode, k + 1, n, issued);
    }
  }

  /** When matching tags mean one body, a fetch answers exactly as without a cache: what it decodes
      is the representation current when the attempt was answered. */
  lemma {:induction false} FetchIsTransparent<T>(c: Cache, url: Url, outcomes: nat -> Outcome, max: int, decode: Bytes -> Option<T>, k: nat, n: nat, issued: (Url, Rep) -> bool)
    requires k < n && TaggingServer(issued, max) && OneBodyPerTag(issued) && Paired(c, issued)
    requires forall i: nat :: Honest(url, outcomes(i), issued)
    ensures Fetch(c, url, outcomes, max, decode, k, n).1 == PlainFetch(outcomes, decode, k, n)
    decreases n - k
  {
    AttemptKeepsPairs(c, url, outcomes(k), max, decode, issued);
    AttemptIsTransparent(c, url, outcomes(k), max, decode, issued);
    var r := Attempt(c, url, outcomes(k), max, decode);
    if !(r.1.Decoded? || k + 1 == n) {
      FetchIsTransparent(r.0, url, outcomes, max, decode, k + 1, n, issued);
    }
  }

  datatype Request = Request(url: Url, outcomes: nat -> Outcome, attempts: nat)

  ghost function CacheAfter<T>(requests: seq<Request>, max: int, decode: Bytes -> Option<T>): Cache
    requires forall q :: q in requests ==> q.attempts > 0
  {
    if requests == [] then Cache(map[], map[])
    else
      var last := requests[|requests| - 1];
      Fetch(CacheAfter(requests[..|requests| - 1], max, decode), last.url, last.outcomes, max, decode, 0, last.attempts).0
  }

  ghost predicate HonestHistory(requests: seq<Request>, issued: (Url, Rep) -> bool) {
    forall q :: q in requests ==> q.attempts > 0 && forall i: nat :: Honest(q.url, q.outcomes(i), issued)
  }

  lemma {:induction false} HistoryKeepsPairs<T>(requests: seq<Request>, max: int, decode: Bytes -> Option<T>, issued: (Url, Rep) -> bool)
    requires TaggingServer(issued, max) && HonestHistory(requests, issued)
    ensures Paired(CacheAfter(requests, max, decode), issued)
  {
    if requests != [] {
      var last := requests[|requests| - 1];
      HistoryKeepsPairs(requests[..|requests| - 1], max, decode, issued);
      assert last in requests;
      FetchKeepsPairs(CacheAfter(requests[..|requests| - 1], max, decode), last.url, last.outcomes, max, decode, 0, last.attempts, issued);
    }
  }

  /** After any number of fetches that do not overlap, of any URLs, while a tagging server changes
      its representations as it likes, the next fetch never misses the cache; and when matching
      tags mean one body it answers as it would without a cache. */
  lemma HistoryIsTransparent<T>(requests: seq<Request>, next: Request, max: int, decode: Bytes -> Option<T>, issued: (Url, Rep) -> bool)
    requires TaggingServer(issued, max) && HonestHistory(requests, issued) && HonestHistory([next], issued)
    ensures next.attempts > 0
    ensures var r := Fetch(CacheAfter(requests, max, decode), next.url, next.outcomes, max, decode, 0, next.attempts).1;
            r != Failed(CacheMiss) && (OneBodyPerTag(issued) ==> r == PlainFetch(next.outcomes, decode, 0, next.attempts))
  {
    assert next in [next];
    var c := CacheAfter(requests, max, decode);
    HistoryKeepsPairs(requests, max, decode, issued);
    FetchKeepsPairs(c, next.url, next.outcomes, max, decode, 0, next.attempts, issued);
    if OneBodyPerTag(issued) {
      FetchIsTransparent(c, next.url, next.outcomes, max, decode, 0, next.attempts, issued);
    }
  }

  /** A decoder that hands the body through. */
  function Whole(body: Bytes): Option<Bytes> {
    Some(body)
  }

  /** One attempt that meets a server holding the representation. */
  function ServedOnce(url: Url, rep: Rep): Request {
    Request(url, (_: nat) => Serves(rep), 1)
  }

  /** Fetching one representation and then another yields the second. */
  ghost predicate SecondIsCurrent(url: Url, r: Rep, q: Rep, max: int) {
    Fetch(CacheAfter([ServedOnce(url, r)], max, Whole), url, ServedOnce(url, q).outcomes, max, Whole, 0, 1).1 == Decoded(q.body)
  }

  lemma SecondIsCurrentIff(url: Url, r: Rep, q: Rep, max: int)
    requires r.etag != "" && q.etag != "" && 0 < |r.body| <= max && 0 < |q.body| <= max
    ensures SecondIsCurrent(url, r, q, max) <==> (Opaque(r.etag) == Opaque(q.etag) ==> r.body == q.body)
  {
    var one := [ServedOnce(url, r)];
    assert one[..0] == [];
    assert CacheAfter(one, max, Whole) == Attempt(Cache(map[], map[]), url, Serves(r), max, Whole).0;
  }

  /** The exact condition on a tagging server: fetches that do not overlap yield the current body,
      for every pair of representations fetched one after the other, if and only if tags that
      match mean one body. */
  lemma TransparentIff(max: int, issued: (Url, Rep) -> bool)
    requires TaggingServer(issued, max)
    ensures OneBodyPerTag(issued) <==> forall u, r: Rep, q: Rep :: issued(u, r) && issued(u, q) ==> SecondIsCurrent(u, r, q, max)
  {
    forall u, r: Rep, q: Rep | issued(u, r) && issued(u, q)
      ensures SecondIsCurrent(u, r, q, max) <==> (Opaque(r.etag) == Opaque(q.etag) ==> r.body == q.body)
    {
      SecondIsCurrentIff(u, r, q, max);
    }
  }

  // ---------------------------------------------------------------- overlapping fetches

  /** A fetch in flight: the request has been sent with some tag, or an answer has come back. */
  datatype Flight = Waiting(url: Url, sent: string) | Full(url: Url, rep: Rep) | Unmodified(url: Url)

  /** `decoded` holds the bodies decoded so far; `missed` is set by "cache miss for 304". */
  datatype Net = Net(cache: Cache, flights: map<nat, Flight>, decoded: set<(Url, Bytes)>, missed: bool)

  datatype Action = Send(id: nat, url: Url) | Answer(id: nat, current: Rep) | Finish(id: nat)

  ghost predicate Enabled(s: Net, a: Action, issued: (Url, Rep) -> bool) {
    match a
    case Send(i, _) => i !in s.flights
    case Answer(i, current) => i in s.flights && s.flights[i].Waiting? && issued(s.flights[i].url, current)
    case Finish(i) => i in s.flights && !s.flights[i].Waiting?
  }

  function Apply(s: Net, a: Action, max: int): Net
    requires !a.Send? ==> a.id in s.flights
    requires a.Answer? ==> s.flights[a.id].Waiting?
  {
    match a
    case Send(i, url) => s.(flights := s.flights[i := Waiting(url, EtagOf(s.cache, url))])
    case Answer(i, current) =>
      var f := s.flights[i];
      s.(flights := s.flights[i := if NotModified(f.sent, current) then Unmodified(f.url) else Full(f.url, current)])
    case Finish(i) =>
      match s.flights[i]
      case Waiting(_, _) => s
      case Full(url, rep) =>
        var buf := Limited(rep.body, max);
        s.(cache := Stored(s.cache, url, rep.etag, buf), flights := s.flights - {i}, decoded := s.decoded + {(url, buf)})
      case Unmodified(url) =>
        var buf := BodyOf(s.cache, url);
        if buf == [] then s.(flights := s.flights - {i}, missed := true)
        else s.(flights := s.flights - {i}, decoded := s.decoded + {(url, buf)})
  }

  ghost predicate FlightInv(c: Cache, f: Flight, issued: (Url, Rep) -> bool) {
    match f
    case Waiting(url, sent) => sent != "" ==> EtagOf(c, url) != ""
    case Full(url, rep) => issued(url, rep)
    case Unmodified(url) => EtagOf(c, url) != ""
  }

  ghost predicate Served(url: Url, body: Bytes, issued: (Url, Rep) -> bool) {
    exists etag: string :: issued(url, Rep(etag, body))
  }

  ghost predicate NetInv(s: Net, issued: (Url, Rep) -> bool) {
    && Paired(s.cache, issued)
    && (forall i :: i in s.flights ==> FlightInv(s.cache, s.flights[i], issued))
    && (forall u, b :: (u, b) in s.decoded ==> Served(u, b, issued))
    && !s.missed
  }

  lemma ActionKeepsPairs(s: Net, a: Action, max: int, issued: (Url, Rep) -> bool)
    requires TaggingServer(issued, max) && NetInv(s, issued) && Enabled(s, a, issued)
    ensures NetInv(Apply(s, a, max), issued)
  {
    var t := Apply(s, a, max);
    if a.Finish? {
      var f := s.flights[a.id];
      assert FlightInv(s.cache, f, issued);
      if f.Full? {
        assert issued(f.url, Rep(f.rep.etag, f.rep.body));
        forall u | EtagOf(t.cache, u) != "" ensures u in t.cache.bodies && issued(u, Rep(EtagOf(t.cache, u), t.cache.bodies[u])) {
          assert u != f.url ==> EtagOf(t.cache, u) == EtagOf(s.cache, u);
        }
      }
      forall u, b | (u, b) in t.decoded ensures Served(u, b, issued) {
        if (u, b) !in s.decoded && f.Unmodified? {
          assert issued(u, Rep(EtagOf(s.cache, u), b));
        }
      }
    } else if a.Answer? {
      assert FlightInv(s.cache, s.flights[a.id], issued);
    }
  }

  ghost predicate Run(s: Net, actions: seq<Action>, max: int, issued: (Url, Rep) -> bool)
    decreases actions
  {
    actions == [] || (Enabled(s, actions[0], issued) && Run(Apply(s, actions[0], max), actions[1..], max, issued))
  }

  ghost function Final(s: Net, actions: seq<Action>, max: int, issued: (Url, Rep) -> bool): Net
    requires Run(s, actions, max, issued)
    decreases actions
  {
    if actions == [] then s else Final(Apply(s, actions[0], max), actions[1..], max, issued)
  }

  const Idle := Net(Cache(map[], map[]), map[], {}, false)

  lemma {:induction false} RunKeepsPairs(s: Net, actions: seq<Action>, max: int, issued: (Url, Rep) -> bool)
    requires TaggingServer(issued, max) && NetInv(s, issued) && Run(s, actions, max, issued)
    ensures NetInv(Final(s, actions, max, issued), issued)
    decreases actions
  {
    if actions != [] {
      ActionKeepsPairs(s, actions[0], max, issued);
      RunKeepsPairs(Apply(s, actions[0], max), actions[1..], max, issued);
    }
  }

  /** In every interleaving of fetches the cached tag and body were issued together, every
      decoded body was served for that URL, and "cache miss for 304" never occurs. */
  lemma OverlapKeepsPairs(actions: seq<Action>, max: int, issued: (Url, Rep) -> bool)
    requires TaggingServer(issued, max) && Run(Idle, actions, max, issued)
    ensures var s := Final(Idle, actions, max, issued);
            && Paired(s.cache, issued) && !s.missed
            && forall u, b :: (u, b) in s.decoded ==> Served(u, b, issued)
  {
    RunKeepsPairs(Idle, actions, max, issued);
  }

  /** Storing the 200 for `rep` leaves the URL without a tag or with the body issued under it: a
      tagged body is stored whole, and an untagged one meets no cached tag or equals the body
      already cached. */
  predicate StoresSafely(c: Cache, url: Url, rep: Rep, max: int) {
    if rep.etag != "" then |rep.body| <= max || rep.body == []
    else EtagOf(c, url) == "" || (url in c.bodies && Limited(rep.body, max) == c.bodies[url])
  }

  /** Against a server that issued the representation and never reuses a tag, storing a 200 keeps
      tag and body paired exactly when it stores safely. */
  lemma StoreKeepsPairsIff(c: Cache, url: Url, rep: Rep, max: int, issued: (Url, Rep) -> bool)
    requires Paired(c, issued) && OneBodyPerTag(issued) && (rep.etag != "" ==> issued(url, rep))
    ensures Paired(Stored(c, url, rep.etag, Limited(rep.body, max)), issued) <==> StoresSafely(c, url, rep, max)
  {
    var c', tag := Stored(c, url, rep.etag, Limited(rep.body, max)), if rep.etag != "" then rep.etag else EtagOf(c, url);
    assert EtagOf(c', url) == tag;
    assert forall u :: u != url ==> EtagOf(c', u) == EtagOf(c, u);
    if tag != "" {
      var was := if rep.etag != "" then rep.body else c.bodies[url];
      assert issued(url, Rep(tag, was));
      assert Limited(rep.body, max) != was ==> !issued(url, Rep(tag, Limited(rep.body, max)));
    }
    if StoresSafely(c, url, rep, max) {
      forall u | EtagOf(c', u) != "" ensures u in c'.bodies && issued(u, Rep(EtagOf(c', u), c'.bodies[u])) {
        assert u != url ==> EtagOf(c, u) != "";
      }
    }
  }

  /** Why the tag on every 200 matters: one untagged answer in between, and a later 304
      decodes the wrong body. */
  lemma UntaggedAnswerGoesStale<T>(url: Url, a: Bytes, b: Bytes, decode: Bytes -> Option<T>)
    requires a != [] && b != [] && decode(a) != decode(b)
    ensures var max := |a| + |b|;
            var c1 := Attempt(Cache(map[], map[]), url, Serves(Rep("A", a)), max, decode).0;
            var c2 := Attempt(c1, url, Serves(Rep("", b)), max, decode).0;
            Attempt(c2, url, Serves(Rep("A", a)), max, decode).1 != Decode(decode, a)
  {
  }

  /** Why the size limit matters: a tagged body that is cut off is cached under its tag, and every
      later 304 decodes the cut-off body again. */
  lemma CutOffAnswerGoesStale<T>(url: Url, tag: string, a: Bytes, max: int, decode: Bytes -> Option<T>)
    requires tag != "" && 1 <= max < |a| && decode(a[..max]) != decode(a)
    ensures var first := Attempt(Cache(map[], map[]), url, Serves(Rep(tag, a)), max, decode);
            var again := Attempt(first.0, url, Serves(Rep(tag, a)), max, decode);
            NotModified(EtagOf(first.0, url), Rep(tag, a)) && again.0 == first.0 && again.1 == Decode(decode, a[..max]) != Decode(decode, a)
  {
  }

  /** With tag and body paired, "cache miss for 304" occurs exactly when the current representation
      is empty and its tag is cached. */
  lemma MissesIff<T>(c: Cache, url: Url, current: Rep, max: int, decode: Bytes -> Option<T>, issued: (Url, Rep) -> bool)
    requires Paired(c, issued) && OneBodyPerTag(issued) && issued(url, current)
    ensures Attempt(c, url, Serves(current), max, decode).1 == Failed(CacheMiss) <==>
            NotModified(EtagOf(c, url), current) && current.body == []
  {
    if NotModified(EtagOf(c, url), current) {
      assert issued(url, Rep(EtagOf(c, url), c.bodies[url]));
    }
  }

  /** Why an empty body matters: it is cached under its tag, and a later 304 misses the cache. */
  lemma EmptyAnswerIsMissed<T>(url: Url, tag: string, max: int, decode: Bytes -> Option<T>)
    requires tag != ""
    ensures var first := Attempt(Cache(map[], map[]), url, Serves(Rep(tag, [])), max, decode);
            Attempt(first.0, url, Serves(Rep(tag, [])), max, decode).1 == Failed(CacheMiss)
  {
  }

  /** Why weak tags must mean one body too: a 304 by the weak comparison decodes the cached body of
      an equivalent, not identical, representation. */
  lemma WeakMatchGoesStale<T>(url: Url, tag: string, a: Bytes, b: Bytes, decode: Bytes -> Option<T>)
    requires tag != "" && !("W/" <= tag) && a != [] && b != [] && decode(a) != decode(b)
    ensures var max := |a| + |b|;
            var c := Attempt(Cache(map[], map[]), url, Serves(Rep("W/" + tag, a)), max, decode).0;
            Attempt(c, url, Serves(Rep(tag, b)), max, decode).1 == Decode(decode, a) != Decode(decode, b)
  {
    assert ("W/" + tag)[2..] == tag;
  }
}
