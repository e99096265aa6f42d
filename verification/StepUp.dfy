/**
 Step-up verification: the session handling of controller/secure_verification.go and
 controller/passkey.go. A request works on a copy of the session values and Save stores
 that copy; a failed Save leaves the stored session as it was. The clock, the outcome of
 Save, the TOTP check and the WebAuthn ceremony are parameters. Each request starts from the
 session saved last; CookieSessions drops that.
 */
module StepUp {
  import opened Basics

  const VERIFICATION_TIMEOUT := 300
  const READY_TIMEOUT := 60
  const TWO_FA := "2fa"
  const PASSKEY := "passkey"

  /** A session value that should be a timestamp. */
  datatype Stamp = Absent | At(time: int) | Junk

  datatype Session = Session(ready: Stamp, verifiedAt: Stamp, how: Option<string>)

  const FRESH := Session(Absent, Absent, None)

  /** A /api/verify request: what the user has enabled, whether the code is right, the two
      clock readings and the outcomes of the two saves. */
  datatype VerifyRequest = VerifyRequest(
    how: string, admitted: bool, has2FA: bool, hasPasskey: bool, codeGiven: bool, codeRight: bool,
    consumedAt: int, setAt: int, consumeSaved: bool, setSaved: bool)

  // ---------------------------------------------------------------- one request

  function Finish(s: Session, now: int, saved: bool): Session {
    if saved then Session(At(now), Absent, None) else s
  }

  /** consumePasskeyReady: the stored session afterwards and whether the marker was good. */
  function Consume(s: Session, now: int, saved: bool): (Session, bool) {
    match s.ready
    case Absent => (s, false)
    case Junk => (if saved then s.(ready := Absent) else s, false)
    case At(readyAt) =>
      if !saved then (s, false)
      else (s.(ready := Absent), now - readyAt < READY_TIMEOUT)
  }

  function SetVerified(s: Session, how: string, now: int, saved: bool): (Session, bool) {
    if saved then (Session(Absent, At(now), Some(how)), true) else (s, false)
  }

  /** Whether the request gets past the checks that come before the passkey marker. */
  predicate Admissible(q: VerifyRequest) {
    && q.admitted && (q.has2FA || q.hasPasskey)
    && (q.how == TWO_FA ==> q.has2FA && q.codeGiven && q.codeRight)
    && (q.how == PASSKEY ==> q.hasPasskey)
    && (q.how == TWO_FA || q.how == PASSKEY)
  }

  function Verify(s: Session, q: VerifyRequest): (Session, bool) {
    if !Admissible(q) then (s, false)
    else if q.how == PASSKEY then
      var c := Consume(s, q.consumedAt, q.consumeSaved);
      if !c.1 then (c.0, false) else SetVerified(c.0, q.how, q.setAt, q.setSaved)
    else SetVerified(s, q.how, q.setAt, q.setSaved)
  }

  /** requireSecureVerificationMethod. */
  function Check(s: Session, how: string, now: int, saved: bool): (Session, bool) {
    if !s.verifiedAt.At? || now - s.verifiedAt.time >= VERIFICATION_TIMEOUT
    then (if saved then s.(verifiedAt := Absent, how := None) else s, false)
    else (s, s.how == Some(how))
  }

  class SessionStore {
    var stored: Session

    constructor ()
      ensures stored == FRESH
    {
      stored := FRESH;
    }

    method PasskeyVerifyFinish(now: int, saved: bool)
      modifies this
      ensures stored == Finish(old(stored), now, saved)
    {
      var live := stored;
      live := live.(ready := At(now));
      live := live.(verifiedAt := Absent);
      live := live.(how := None);
      if saved {
        stored := live;
      }
    }

    method ConsumePasskeyReady(now: int, saved: bool) returns (good: bool)
      modifies this
      ensures (stored, good) == Consume(old(stored), now, saved)
    {
      var live := stored;
      var readyAtRaw := live.ready;
      if readyAtRaw.Absent? {
        return false;
      }
      live := live.(ready := Absent);
      if saved {
        stored := live;
      }
      if readyAtRaw.Junk? || !saved {
        return false;
      }
      return now - readyAtRaw.time < READY_TIMEOUT;
    }

    method SetSecureVerificationSession(how: string, now: int, saved: bool) returns (ok: bool)
      modifies this
      ensures (stored, ok) == SetVerified(old(stored), how, now, saved)
    {
      var live := stored;
      live := live.(ready := Absent);
      live := live.(verifiedAt := At(now));
      live := live.(how := Some(how));
      if !saved {
        return false;
      }
      stored := live;
      return true;
    }

    method UniversalVerify(q: VerifyRequest) returns (ok: bool)
      modifies this
      ensures (stored, ok) == Verify(old(stored), q)
    {
      if !q.admitted || (!q.has2FA && !q.hasPasskey) {
        return false;
      }
      if q.how == TWO_FA {
        if !q.has2FA || !q.codeGiven || !q.codeRight {
          return false;
        }
      } else if q.how == PASSKEY {
        if !q.hasPasskey {
          return false;
        }
        var good := ConsumePasskeyReady(q.consumedAt, q.consumeSaved);
        if !good {
          return false;
        }
      } else {
        return false;
      }
      ok := SetSecureVerificationSession(q.how, q.setAt, q.setSaved);
    }

    method RequireSecureVerificationMethod(how: string, now: int, saved: bool) returns (ok: bool)
      modifies this
      ensures (stored, ok) == Check(old(stored), how, now, saved)
    {
      if !stored.verifiedAt.At? || now - stored.verifiedAt.time >= VERIFICATION_TIMEOUT {
        if saved {
          stored := stored.(verifiedAt := Absent, how := None);
        }
        return false;
      }
      return stored.how == Some(how);
    }
  }

  // ---------------------------------------------------------------- what one request needs

  /** A request with a right code of an enabled second factor. */
  predicate RightCode(q: VerifyRequest) {
    q.how == "2fa" && q.admitted && q.has2FA && q.codeGiven && q.codeRight
  }

  /** A passkey request on a session with a marker less than 60 seconds old, which it can remove. */
  predicate FreshMarker(s: Session, q: VerifyRequest) {
    q.how == "passkey" && q.admitted && q.hasPasskey && q.consumeSaved && s.ready.At? && q.consumedAt - s.ready.time < 60
  }

  /** A verification succeeds exactly with a right code or a fresh marker, once its stamp is saved;
      the session then holds that stamp alone. A refused request stamps nothing, and uses up the
      marker exactly when it is a passkey request that gets that far and can save. */
  lemma VerifyIff(s: Session, q: VerifyRequest)
    ensures Verify(s, q).1 <==> (RightCode(q) || FreshMarker(s, q)) && q.setSaved
    ensures Verify(s, q).1 ==> Verify(s, q).0 == Session(Absent, At(q.setAt), Some(q.how))
    ensures !Verify(s, q).1 ==>
              Verify(s, q).0 == s.(ready := if q.how == "passkey" && q.admitted && q.hasPasskey && q.consumeSaved then Absent else s.ready)
  {
  }

  /** A check succeeds exactly when the session holds a stamp of that method less than 300 seconds
      old; a missing or older stamp is cleared, if that can be saved. */
  lemma CheckIff(s: Session, how: string, now: int, saved: bool)
    ensures Check(s, how, now, saved).1 <==> s.verifiedAt.At? && now - s.verifiedAt.time < 300 && s.how == Some(how)
    ensures Check(s, how, now, saved).0 ==
            if saved && !(s.verifiedAt.At? && now - s.verifiedAt.time < 300) then s.(verifiedAt := Absent, how := None) else s
  {
  }

  // ---------------------------------------------------------------- histories

  datatype Event =
    | Finished(now: int, saved: bool)
    | Verified(request: VerifyRequest)
    | Checked(how: string, now: int, saved: bool)

  function Serve(s: Session, e: Event): (Session, bool) {
    match e
    case Finished(now, saved) => (Finish(s, now, saved), saved)
    case Verified(q) => Verify(s, q)
    case Checked(how, now, saved) => Check(s, how, now, saved)
  }

  /** The stored session before event k of a history that starts with a fresh session. */
  function SessionAt(events: seq<Event>, k: nat): Session
    requires k <= |events|
  {
    if k == 0 then FRESH else Serve(SessionAt(events, k - 1), events[k - 1]).0
  }

  /** Event k was answered with success. */
  predicate Succeeds(events: seq<Event>, k: nat)
    requires k < |events|
  {
    Serve(SessionAt(events, k), events[k]).1
  }

  function StartOf(e: Event): int {
    if e.Verified? then e.request.consumedAt else e.now
  }

  function EndOf(e: Event): int {
    if e.Verified? then e.request.setAt else e.now
  }

  ghost predicate Monotone(events: seq<Event>) {
    && (forall i :: 0 <= i < |events| ==> StartOf(events[i]) <= EndOf(events[i]))
    && (forall i, j :: 0 <= i < j < |events| ==> EndOf(events[i]) <= StartOf(events[j]))
  }

  /** A stored passkey ceremony. */
  predicate IsFinish(events: seq<Event>, k: nat) {
    k < |events| && events[k].Finished? && events[k].saved
  }

  /** A successful /api/verify with the given method. */
  predicate IsVerify(events: seq<Event>, k: nat, how: string) {
    k < |events| && events[k].Verified? && events[k].request.how == how && Succeeds(events, k)
  }

  /** f is the ceremony whose marker is still unused before event k. */
  ghost predicate Unused(events: seq<Event>, f: nat, k: nat) {
    && f < k && IsFinish(events, f)
    && (forall j :: f < j < k ==> !IsFinish(events, j) && !IsVerify(events, j, PASSKEY))
  }

  /** v is the verification in force before event k. */
  ghost predicate InForce(events: seq<Event>, v: nat, k: nat, how: string) {
    && v < k && IsVerify(events, v, how)
    && (forall j :: v < j < k ==> !IsFinish(events, j))
  }

  ghost predicate Explains(events: seq<Event>, k: nat)
    requires k <= |events|
  {
    var s := SessionAt(events, k);
    && (s.ready.At? ==> exists f: nat :: Unused(events, f, k) && events[f].now == s.ready.time)
    && (s.verifiedAt.At? ==>
          s.how.Some? && exists v: nat :: InForce(events, v, k, s.how.value) && EndOf(events[v]) == s.verifiedAt.time)
  }

  /** Every stamp in the session comes from the event it should come from. */
  lemma {:induction false} HistoryExplains(events: seq<Event>, k: nat)
    requires k <= |events|
    ensures Explains(events, k)
  {
    if k > 0 {
      HistoryExplains(events, k - 1);
      var s, s', e := SessionAt(events, k - 1), SessionAt(events, k), events[k - 1];
      if s'.ready.At? {
        if IsFinish(events, k - 1) {
          assert Unused(events, k - 1, k);
        } else {
          var f: nat :| Unused(events, f, k - 1) && events[f].now == s.ready.time;
          assert Unused(events, f, k);
        }
      }
      if s'.verifiedAt.At? {
        if e.Verified? && Succeeds(events, k - 1) {
          assert InForce(events, k - 1, k, e.request.how);
        } else {
          var v: nat :| InForce(events, v, k - 1, s.how.value) && EndOf(events[v]) == s.verifiedAt.time;
          assert InForce(events, v, k, s.how.value);
        }
      }
    }
  }

  /** A passkey verification succeeds only by using up a marker less than 60 seconds old. */
  lemma VerifyNeedsFinish(events: seq<Event>, v: nat)
    requires IsVerify(events, v, PASSKEY)
    ensures exists f: nat :: Unused(events, f, v) && StartOf(events[v]) - events[f].now < READY_TIMEOUT
  {
    HistoryExplains(events, v);
    var f: nat :| Unused(events, f, v) && events[f].now == SessionAt(events, v).ready.time;
  }

  /** In every history: a step-up check that succeeds was preceded, less than 300 seconds
      earlier, by a successful verification with the same method, with no passkey ceremony
      since; a verification by code had the right code, and a passkey verification had used up a
      ceremony less than 60 seconds old. */
  lemma CheckIsBacked(events: seq<Event>, k: nat)
    requires Monotone(events) && k < |events| && events[k].Checked? && Succeeds(events, k)
    ensures exists v: nat ::
              && InForce(events, v, k, events[k].how)
              && 0 <= events[k].now - EndOf(events[v]) < VERIFICATION_TIMEOUT
              && (events[k].how == "2fa" ==> RightCode(events[v].request))
              && (events[k].how == PASSKEY ==>
                    exists f: nat :: Unused(events, f, v) && 0 <= StartOf(events[v]) - events[f].now < READY_TIMEOUT)
  {
    HistoryExplains(events, k);
    var s := SessionAt(events, k);
    var v: nat :| InForce(events, v, k, s.how.value) && EndOf(events[v]) == s.verifiedAt.time;
    assert EndOf(events[v]) <= StartOf(events[k]);
    VerifyIff(SessionAt(events, v), events[v].request);
    if events[k].how == PASSKEY {
      VerifyNeedsFinish(events, v);
      var f: nat :| Unused(events, f, v) && StartOf(events[v]) - events[f].now < READY_TIMEOUT;
      assert EndOf(events[f]) <= StartOf(events[v]);
    }
  }

  /** Each ceremony supports at most one verification: of two successful passkey
      verifications, the later one used up a ceremony stored after the earlier one. */
  lemma FinishUsedOnce(events: seq<Event>, v: nat, w: nat)
    requires v < w && IsVerify(events, v, PASSKEY) && IsVerify(events, w, PASSKEY)
    ensures exists f: nat, g: nat :: Unused(events, f, v) && Unused(events, g, w) && f < v < g < w
  {
    VerifyNeedsFinish(events, v);
    VerifyNeedsFinish(events, w);
    var f: nat :| Unused(events, f, v) && StartOf(events[v]) - events[f].now < READY_TIMEOUT;
    var g: nat :| Unused(events, g, w) && StartOf(events[w]) - events[g].now < READY_TIMEOUT;
    assert g <= v ==> !IsVerify(events, v, PASSKEY);
  }

  /** And one ceremony does support one: a ceremony, a verification within a minute of it and
      a check within five minutes of that all succeed. */
  lemma CeremonyOpensTheDoor(s: Session, now: int, q: VerifyRequest, checkedAt: int, saved: bool)
    requires Admissible(q) && q.how == PASSKEY && q.consumeSaved && q.setSaved
    requires q.consumedAt - now < READY_TIMEOUT && checkedAt - q.setAt < VERIFICATION_TIMEOUT
    ensures var v := Verify(Finish(s, now, true), q);
            v.1 && Check(v.0, PASSKEY, checkedAt, saved).1 && !Verify(v.0, q).1
  {
  }

  /** A right code opens it too, and a later ceremony closes it again. */
  lemma CodeOpensTheDoor(s: Session, q: VerifyRequest, checkedAt: int, saved: bool, now: int)
    requires Admissible(q) && q.how == TWO_FA && q.setSaved && checkedAt - q.setAt < VERIFICATION_TIMEOUT
    ensures var v := Verify(s, q);
            && v.1 && Check(v.0, TWO_FA, checkedAt, saved).1
            && !Check(Finish(v.0, now, true), TWO_FA, checkedAt, saved).1
  {
  }
}
