/**
 The step-up session when the client holds it. The gateway keeps sessions in a signed cookie
 (main.go), so a request starts from whatever cookie the client sends: the one it got last, or
 any one it got before. A history is then a tree: each request names the request whose cookie
 it carries. The statements of StepUp hold along the ancestry of a request.
 */
module CookieSessions {
  import opened Basics
  import opened StepUp

  /** A request, and the earlier request whose cookie it carries; None is a client without the
      session values. A request that saves nothing leaves the client its old cookie. */
  datatype Sent = Sent(event: Event, from: Option<nat>)

  ghost predicate WellSent(h: seq<Sent>) {
    forall k :: 0 <= k < |h| && h[k].from.Some? ==> h[k].from.value < k
  }

  /** The session in the cookie that request k carries, and in the one it leaves. */
  function Before(h: seq<Sent>, k: nat): Session
    requires WellSent(h) && k < |h|
    decreases k, 0
  {
    if h[k].from.None? then FRESH else After(h, h[k].from.value)
  }

  function After(h: seq<Sent>, k: nat): Session
    requires WellSent(h) && k < |h|
    decreases k, 1
  {
    Serve(Before(h, k), h[k].event).0
  }

  predicate SucceedsIn(h: seq<Sent>, k: nat)
    requires WellSent(h) && k < |h|
  {
    Serve(Before(h, k), h[k].event).1
  }

  /** Request a is k or one of those whose cookies led to k. */
  predicate Leads(h: seq<Sent>, a: nat, k: nat)
    requires WellSent(h) && k < |h|
  {
    a == k || (h[k].from.Some? && Leads(h, a, h[k].from.value))
  }

  predicate FinishIn(h: seq<Sent>, k: nat) {
    k < |h| && h[k].event.Finished? && h[k].event.saved
  }

  predicate VerifyIn(h: seq<Sent>, k: nat, how: string)
    requires WellSent(h)
  {
    k < |h| && h[k].event.Verified? && h[k].event.request.how == how && SucceedsIn(h, k)
  }

  /** On the way from f to k, f excluded. */
  predicate Between(h: seq<Sent>, f: nat, x: nat, k: nat)
    requires WellSent(h) && k < |h|
  {
    x < |h| && x != f && Leads(h, f, x) && Leads(h, x, k)
  }

  /** f is the ceremony whose marker is unused on the way to k, k included. */
  ghost predicate UnusedIn(h: seq<Sent>, f: nat, k: nat)
    requires WellSent(h) && k < |h|
  {
    && Leads(h, f, k) && FinishIn(h, f)
    && forall x :: Between(h, f, x, k) ==> !FinishIn(h, x) && !VerifyIn(h, x, PASSKEY)
  }

  /** v is the verification in force on the way to k, k included. */
  ghost predicate InForceIn(h: seq<Sent>, v: nat, k: nat, how: string)
    requires WellSent(h) && k < |h|
  {
    && Leads(h, v, k) && VerifyIn(h, v, how)
    && forall x :: Between(h, v, x, k) ==> !FinishIn(h, x)
  }

  lemma {:induction false} LeadsIsEarlier(h: seq<Sent>, a: nat, k: nat)
    requires WellSent(h) && k < |h| && Leads(h, a, k)
    ensures a <= k
  {
    if a != k {
      LeadsIsEarlier(h, a, h[k].from.value);
    }
  }

  lemma {:induction false} LeadsOn(h: seq<Sent>, a: nat, b: nat, k: nat)
    requires WellSent(h) && k < |h| && b < |h| && Leads(h, a, b) && Leads(h, b, k)
    ensures Leads(h, a, k)
    decreases k
  {
    if b != k {
      LeadsOn(h, a, b, h[k].from.value);
    }
  }

  lemma NothingInBetween(h: seq<Sent>, k: nat, x: nat)
    requires WellSent(h) && k < |h|
    ensures !Between(h, k, x, k)
  {
    if x < |h| && Leads(h, k, x) {
      LeadsIsEarlier(h, k, x);
      if Leads(h, x, k) {
        LeadsIsEarlier(h, x, k);
      }
    }
  }

  /** A marker after a request is one stored by it or one it found and left alone. */
  lemma ServeReady(s: Session, e: Event)
    requires Serve(s, e).0.ready.At? && !(e.Finished? && e.saved)
    ensures s.ready == Serve(s, e).0.ready && !(e.Verified? && e.request.how == PASSKEY && Serve(s, e).1)
  {
  }

  /** So is a verification. */
  lemma ServeVerified(s: Session, e: Event)
    requires Serve(s, e).0.verifiedAt.At?
    ensures !(e.Finished? && e.saved)
    ensures if e.Verified? && Serve(s, e).1 then Serve(s, e).0.verifiedAt.time == EndOf(e) && Serve(s, e).0.how == Some(e.request.how)
            else s.verifiedAt == Serve(s, e).0.verifiedAt && s.how == Serve(s, e).0.how
  {
  }

  lemma UnusedFurther(h: seq<Sent>, f: nat, k: nat)
    requires WellSent(h) && k < |h| && h[k].from.Some? && UnusedIn(h, f, h[k].from.value)
    requires !FinishIn(h, k) && !VerifyIn(h, k, PASSKEY)
    ensures UnusedIn(h, f, k)
  {
    forall x | Between(h, f, x, k) ensures !FinishIn(h, x) && !VerifyIn(h, x, PASSKEY) {
      assert x != k ==> Between(h, f, x, h[k].from.value);
    }
  }

  lemma InForceFurther(h: seq<Sent>, v: nat, k: nat, how: string)
    requires WellSent(h) && k < |h| && h[k].from.Some? && InForceIn(h, v, h[k].from.value, how) && !FinishIn(h, k)
    ensures InForceIn(h, v, k, how)
  {
    forall x | Between(h, v, x, k) ensures !FinishIn(h, x) {
      assert x != k ==> Between(h, v, x, h[k].from.value);
    }
  }

  ghost predicate ReadyExplained(h: seq<Sent>, k: nat)
    requires WellSent(h) && k < |h|
  {
    After(h, k).ready.At? ==> exists f: nat :: UnusedIn(h, f, k) && h[f].event.now == After(h, k).ready.time
  }

  ghost predicate VerifiedExplained(h: seq<Sent>, k: nat)
    requires WellSent(h) && k < |h|
  {
    var s := After(h, k);
    s.verifiedAt.At? ==>
      s.how.Some? && exists v: nat :: InForceIn(h, v, k, s.how.value) && EndOf(h[v].event) == s.verifiedAt.time
  }

  lemma {:induction false} CookieExplainsReady(h: seq<Sent>, k: nat)
    requires WellSent(h) && k < |h|
    ensures ReadyExplained(h, k)
    decreases k
  {
    if After(h, k).ready.At? {
      if FinishIn(h, k) {
        forall x ensures !Between(h, k, x, k) {
          NothingInBetween(h, k, x);
        }
        assert UnusedIn(h, k, k);
      } else {
        ServeReady(Before(h, k), h[k].event);
        var p := h[k].from.value;
        CookieExplainsReady(h, p);
        var f: nat :| UnusedIn(h, f, p) && h[f].event.now == After(h, p).ready.time;
        UnusedFurther(h, f, k);
      }
    }
  }

  lemma {:induction false} CookieExplainsVerified(h: seq<Sent>, k: nat)
    requires WellSent(h) && k < |h|
    ensures VerifiedExplained(h, k)
    decreases k
  {
    var s := After(h, k);
    if s.verifiedAt.At? {
      ServeVerified(Before(h, k), h[k].event);
      if h[k].event.Verified? && SucceedsIn(h, k) {
        forall x ensures !Between(h, k, x, k) {
          NothingInBetween(h, k, x);
        }
        assert InForceIn(h, k, k, s.how.value);
      } else {
        var p := h[k].from.value;
        CookieExplainsVerified(h, p);
        var v: nat :| InForceIn(h, v, p, After(h, p).how.value) && EndOf(h[v].event) == After(h, p).verifiedAt.time;
        InForceFurther(h, v, k, s.how.value);
      }
    }
  }

  /** The ceremony a passkey verification uses up: unused in the cookie it carries. */
  ghost predicate UsesFinish(h: seq<Sent>, v: nat, f: nat)
    requires WellSent(h) && v < |h|
  {
    h[v].from.Some? && UnusedIn(h, f, h[v].from.value)
  }

  /** Requests are answered one after the other by a clock that never runs backwards. */
  ghost predicate Timely(h: seq<Sent>) {
    && (forall i :: 0 <= i < |h| ==> StartOf(h[i].event) <= EndOf(h[i].event))
    && (forall i, j :: 0 <= i < j < |h| ==> EndOf(h[i].event) <= StartOf(h[j].event))
  }

  lemma VerifyUsesFinish(h: seq<Sent>, v: nat)
    requires WellSent(h) && Timely(h) && VerifyIn(h, v, PASSKEY)
    ensures exists f: nat :: UsesFinish(h, v, f) && 0 <= StartOf(h[v].event) - h[f].event.now < READY_TIMEOUT
  {
    var p := h[v].from.value;
    CookieExplainsReady(h, p);
    var f: nat :| UnusedIn(h, f, p) && h[f].event.now == After(h, p).ready.time;
    LeadsIsEarlier(h, f, p);
    assert EndOf(h[f].event) <= StartOf(h[v].event);
  }

  /** Whatever cookies the client sends: a check that succeeds carries a cookie that a verification
      with the same method led to, less than 300 seconds earlier and with no ceremony on the
      way; a verification by code had the right code, and a passkey verification had used up a
      ceremony less than 60 seconds old. */
  lemma CookieCheckIsBacked(h: seq<Sent>, k: nat)
    requires WellSent(h) && Timely(h) && k < |h| && h[k].event.Checked? && SucceedsIn(h, k)
    ensures h[k].from.Some? && exists v: nat ::
              && InForceIn(h, v, h[k].from.value, h[k].event.how)
              && 0 <= h[k].event.now - EndOf(h[v].event) < VERIFICATION_TIMEOUT
              && (h[k].event.how == "2fa" ==> RightCode(h[v].event.request))
              && (h[k].event.how == PASSKEY ==>
                    exists f: nat :: UsesFinish(h, v, f) && 0 <= StartOf(h[v].event) - h[f].event.now < READY_TIMEOUT)
  {
    var p := h[k].from.value;
    CookieExplainsVerified(h, p);
    var v: nat :| InForceIn(h, v, p, h[k].event.how) && EndOf(h[v].event) == After(h, p).verifiedAt.time;
    LeadsIsEarlier(h, v, p);
    assert EndOf(h[v].event) <= StartOf(h[k].event);
    VerifyIff(Before(h, v), h[v].event.request);
    if h[k].event.how == PASSKEY {
      VerifyUsesFinish(h, v);
    }
  }

  // ---------------------------------------------------------------- one ceremony, two verifications

  /** Some cookie that f led to was sent with two requests. */
  ghost predicate SentTwice(h: seq<Sent>, f: nat)
    requires WellSent(h)
  {
    exists a: nat, x: nat, y: nat :: CarriesTwice(h, f, a, x, y)
  }

  ghost predicate CarriesTwice(h: seq<Sent>, f: nat, a: nat, x: nat, y: nat)
    requires WellSent(h)
  {
    x < |h| && y < |h| && x != y && h[x].from == h[y].from == Some(a) && a < |h| && Leads(h, f, a)
  }

  /** The request after a on the way to k. */
  lemma {:induction false} NextOnTheWay(h: seq<Sent>, a: nat, k: nat) returns (x: nat)
    requires WellSent(h) && k < |h| && Leads(h, a, k) && a != k
    ensures x < |h| && h[x].from == Some(a) && Leads(h, x, k)
    decreases k
  {
    var p := h[k].from.value;
    if p == a {
      return k;
    }
    x := NextOnTheWay(h, a, p);
    LeadsOn(h, x, p, k);
  }

  lemma {:induction false} Diverge(h: seq<Sent>, f: nat, v: nat, w: nat)
    requires WellSent(h) && v < |h| && w < |h| && Leads(h, f, v) && Leads(h, f, w)
    requires !Leads(h, v, w) && !Leads(h, w, v)
    ensures SentTwice(h, f)
    decreases w
  {
    var p := h[w].from.value;
    if Leads(h, p, v) {
      var x := NextOnTheWay(h, p, v);
      assert CarriesTwice(h, f, p, x, w);
    } else {
      Diverge(h, f, v, p);
    }
  }

  lemma LaterCannotReuse(h: seq<Sent>, v: nat, w: nat, f: nat)
    requires WellSent(h) && v < |h| && w < |h| && v != w && VerifyIn(h, v, PASSKEY)
    requires UsesFinish(h, v, f) && UsesFinish(h, w, f)
    ensures !Leads(h, v, w)
  {
    LeadsIsEarlier(h, f, h[v].from.value);
    assert Leads(h, f, v) && !Between(h, f, v, h[w].from.value);
  }

  /** A ceremony supports two verifications only if a cookie it led to was sent twice. */
  lemma ReuseNeedsResending(h: seq<Sent>, v: nat, w: nat, f: nat)
    requires WellSent(h) && v < |h| && w < |h| && v != w && VerifyIn(h, v, PASSKEY) && VerifyIn(h, w, PASSKEY)
    requires UsesFinish(h, v, f) && UsesFinish(h, w, f)
    ensures SentTwice(h, f)
  {
    LaterCannotReuse(h, v, w, f);
    LaterCannotReuse(h, w, v, f);
    Diverge(h, f, v, w);
  }

  predicate InTime(s: Session, q: VerifyRequest) {
    s.ready.At? && Admissible(q) && q.how == PASSKEY && q.consumeSaved && q.setSaved && q.consumedAt - s.ready.time < READY_TIMEOUT
  }

  /** And it does when the cookie holds the unused marker and both requests ask to verify in time. */
  lemma ResendingReuses(h: seq<Sent>, a: nat, v: nat, w: nat)
    requires WellSent(h) && v < |h| && w < |h| && v != w && h[v].from == h[w].from == Some(a)
    requires h[v].event.Verified? && InTime(After(h, a), h[v].event.request)
    requires h[w].event.Verified? && InTime(After(h, a), h[w].event.request)
    ensures VerifyIn(h, v, PASSKEY) && VerifyIn(h, w, PASSKEY)
    ensures exists f: nat :: UsesFinish(h, v, f) && UsesFinish(h, w, f)
  {
    CookieExplainsReady(h, a);
    var f: nat :| UnusedIn(h, f, a) && h[f].event.now == After(h, a).ready.time;
    assert UsesFinish(h, v, f) && UsesFinish(h, w, f);
  }

  /** A check with the cookie of a verification succeeds in time, whatever ceremonies other cookies
      have seen since. */
  lemma OldCookieStillOpens(h: seq<Sent>, v: nat, k: nat, how: string)
    requires WellSent(h) && k < |h| && VerifyIn(h, v, how) && h[k].from == Some(v)
    requires h[k].event.Checked? && h[k].event.how == how && h[k].event.now - EndOf(h[v].event) < VERIFICATION_TIMEOUT
    ensures SucceedsIn(h, k)
  {
  }
}
