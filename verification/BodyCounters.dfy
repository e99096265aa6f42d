/**
 The counters of common/disk_cache_config.go under overlapping calls of common/body_storage.go,
 as a step system. Every action is one atomic access: the load of the disk usage, one addition
 to a counter, one clamping store, the compare-and-swap of Close, or the writing or removal of
 a cache file. Any number of creations and closings may be in progress and their actions
 interleave freely. The configuration is fixed.
 */
module BodyCounters {
  import opened BodyStorage

  /** The next access made for a storage. */
  datatype Point =
    | Checking       // IsDiskCacheAvailable: the usage is loaded
    | Writing        // the cache file is written
    | AddingCount    // one more file or buffer
    | AddingBytes    // its size
    | InUse          // the creating call has returned
    | Removing       // Close has swapped the flag: the cache file is removed
    | DroppingCount  // one file or buffer less
    | ClampingCount  // the file counter came out negative: store 0
    | DroppingBytes  // its size
    | ClampingBytes  // the byte counter came out negative: store 0
    | Gone           // closed, or never created

  /** A body: whether it is streamed by a declared length, that length, its real size, and where
      it is kept once that is decided. */
  datatype Body = Body(streamed: bool, declared: int, size: nat, onDisk: bool, at: Point)

  datatype State = State(config: Config, stats: Stats, bodies: seq<Body>)

  /** `ok` says whether the body is read within its limit and the cache file is written. */
  datatype Action =
    | Begin(streamed: bool, declared: int, size: nat)
    | Step(index: nat, ok: bool)
    | Shut(index: nat)

  const NONE := Stats(0, 0, 0, 0, 0, 0)

  predicate WantsDisk(c: Config, s: Stats, b: Body) {
    c.enabled && (b.streamed ==> b.declared > 0) && b.declared >= c.threshold && DiskAvailable(c, s, b.declared)
  }

  function AddCount(s: Stats, onDisk: bool, n: int): Stats {
    if onDisk then s.(diskFiles := s.diskFiles + n) else s.(memoryBuffers := s.memoryBuffers + n)
  }

  function AddBytes(s: Stats, onDisk: bool, n: int): Stats {
    if onDisk then s.(diskBytes := s.diskBytes + n) else s.(memoryBytes := s.memoryBytes + n)
  }

  /** The access at the body's point. A stream that finds no room is read into memory and then
      treated as data of its real size; data whose file cannot be written goes to memory. */
  function Access(c: Config, s: Stats, b: Body, ok: bool): (Stats, Body) {
    match b.at
    case Checking =>
      if WantsDisk(c, s, b) then (s, b.(onDisk := true, at := Writing))
      else if !b.streamed then (s, b.(onDisk := false, at := AddingCount))
      else if ok then (s, b.(streamed := false, declared := b.size))
      else (s, b.(at := Gone))
    case Writing =>
      if ok then (s, b.(at := AddingCount))
      else if b.streamed then (s, b.(at := Gone))
      else (s, b.(onDisk := false, at := AddingCount))
    case AddingCount => (AddCount(s, b.onDisk, 1), b.(at := AddingBytes))
    case AddingBytes => (AddBytes(s, b.onDisk, b.size), b.(at := InUse))
    case InUse => (s, b)
    case Removing => (s, b.(at := DroppingCount))
    case DroppingCount =>
      var t := AddCount(s, b.onDisk, -1);
      (t, b.(at := if b.onDisk && t.diskFiles < 0 then ClampingCount else DroppingBytes))
    case ClampingCount => (s.(diskFiles := 0), b.(at := DroppingBytes))
    case DroppingBytes =>
      var t := AddBytes(s, b.onDisk, 0 - b.size);
      (t, b.(at := if b.onDisk && t.diskBytes < 0 then ClampingBytes else Gone))
    case ClampingBytes => (s.(diskBytes := 0), b.(at := Gone))
    case Gone => (s, b)
  }

  /** Only the Close that finds the storage in use does anything. */
  function Closed(b: Body): Body {
    if b.at.InUse? then b.(at := if b.onDisk then Removing else DroppingCount) else b
  }

  /** A call on the body is being created: nobody else can close it yet. */
  predicate Creating(b: Body) {
    b.at.Checking? || b.at.Writing? || b.at.AddingCount? || b.at.AddingBytes?
  }

  predicate Enabled(s: State, a: Action) {
    match a
    case Begin(streamed, declared, size) => streamed || declared == size
    case Step(i, _) => i < |s.bodies| && !s.bodies[i].at.InUse? && !s.bodies[i].at.Gone?
    case Shut(i) => i < |s.bodies| && !Creating(s.bodies[i])
  }

  function Apply(s: State, a: Action): State
    requires Enabled(s, a)
  {
    match a
    case Begin(streamed, declared, size) => s.(bodies := s.bodies + [Body(streamed, declared, size, false, Checking)])
    case Step(i, ok) =>
      var r := Access(s.config, s.stats, s.bodies[i], ok);
      s.(stats := r.0, bodies := s.bodies[i := r.1])
    case Shut(i) => s.(bodies := s.bodies[i := Closed(s.bodies[i])])
  }

  /** Where a body is sent when the usage is loaded: to disk exactly when the cache is enabled, the
      declared length (positive, for a stream) reaches the threshold, and it fits beside the usage
      loaded; data is declared by its own size. */
  lemma CheckSendsToDiskIff(c: Config, s: Stats, b: Body, ok: bool)
    requires b.at.Checking?
    ensures Access(c, s, b, ok).1.at.Writing? <==>
            c.enabled && (b.streamed ==> b.declared > 0) && c.threshold <= b.declared <= c.maxBytes - s.diskBytes
    ensures Access(c, s, b, ok).0 == s
  {
  }

  // ---------------------------------------------------------------- one call alone

  /** How many accesses are left at most. */
  function Left(b: Body): nat {
    match b.at
    case Checking => if b.streamed then 5 else 4
    case Writing => 3
    case AddingCount => 2
    case AddingBytes => 1
    case Removing => 5
    case DroppingCount => 4
    case ClampingCount => 3
    case DroppingBytes => 2
    case ClampingBytes => 1
    case _ => 0
  }

  /** The accesses of one body with none of another in between, until it is in use or gone. `fits`
      says whether a stream is read within its limit, `diskOk` whether the cache file is written. */
  function Alone(c: Config, s: Stats, b: Body, fits: bool, diskOk: bool): (Stats, Body)
    decreases Left(b)
  {
    if Left(b) == 0 then (s, b)
    else
      var r := Access(c, s, b, if b.at.Checking? then fits else diskOk && (b.streamed ==> fits));
      Alone(c, r.0, r.1, fits, diskOk)
  }

  /** Creating a storage from data by single accesses does what CreateBodyStorage does at once. */
  lemma AloneCreates(c: Config, s: Stats, data: Bytes, fits: bool, diskOk: bool)
    ensures var a, r := Alone(c, s, Body(false, |data|, |data|, false, Checking), fits, diskOk), Create(c, s, data, diskOk);
            a == (r.1, Body(false, |data|, |data|, r.0.OnDisk?, InUse))
  {
    var checked := Access(c, s, Body(false, |data|, |data|, false, Checking), fits);
    if checked.1.at.Writing? {
      var written := Access(c, s, checked.1, diskOk).1;
      AloneAdds(c, s, written, fits, diskOk);
    } else {
      AloneAdds(c, s, checked.1, fits, diskOk);
    }
  }

  lemma AloneAdds(c: Config, s: Stats, b: Body, fits: bool, diskOk: bool)
    requires b.at.AddingCount?
    ensures Alone(c, s, b, fits, diskOk) == (if b.onDisk then AddDisk(s, b.size) else AddMemory(s, b.size), b.(at := InUse))
  {
    var r := Access(c, s, b, diskOk);
    var t := Access(c, r.0, r.1, diskOk);
    assert Alone(c, t.0, t.1, fits, diskOk) == t;
    assert Alone(c, r.0, r.1, fits, diskOk) == t;
  }

  /** Creating a storage from a stream by single accesses does what CreateBodyStorageFromReader does
      at once, apart from the hit counters: it succeeds for the same streams, keeps the body in the
      same place and leaves the same counters. */
  lemma AloneStreams(c: Config, s: Stats, stream: Bytes, declared: int, maxBytes: int, diskOk: bool, readOk: bool)
    ensures var a := Alone(c, s, Body(true, declared, |stream|, false, Checking), readOk && |stream| <= maxBytes, diskOk);
            var r := CreateFromReader(c, s, stream, declared, maxBytes, diskOk, readOk);
            && a.0 == r.1.(diskHits := s.diskHits, memoryHits := s.memoryHits)
            && (if r.0.Ok? then a.1.at.InUse? && a.1.onDisk == r.0.storage.OnDisk? && a.1.size == |stream| else a.1.at.Gone?)
  {
    var fits, n := readOk && |stream| <= maxBytes, |stream|;
    var b := Body(true, declared, n, false, Checking);
    var checked := Access(c, s, b, fits).1;
    assert |stream| <= maxBytes ==> Limited(stream, maxBytes + 1) == stream;
    if checked.at.Writing? {
      var written := Access(c, s, checked, diskOk && fits).1;
      assert Alone(c, s, b, fits, diskOk) == Alone(c, s, written, fits, diskOk);
      if written.at.AddingCount? {
        AloneAdds(c, s, written, fits, diskOk);
      }
    } else if fits {
      assert checked == Body(false, n, n, false, Checking);
      AloneCreates(c, s, stream, fits, diskOk);
    }
  }

  /** Closing by single accesses releases what Close releases at once, and only the first time. */
  lemma AloneCloses(c: Config, s: Stats, b: Body, storage: Storage, fits: bool, diskOk: bool)
    requires (b.at.InUse? && Open(storage)) || (b.at.Gone? && !Open(storage))
    requires b.onDisk == storage.OnDisk? && b.size == Size(storage)
    ensures Alone(c, s, Closed(b), fits, diskOk) == (Released(s, storage, Close), b.(at := Gone))
  {
    if b.at.InUse? {
      AloneDrops(c, s, b.(at := DroppingCount), fits, diskOk);
    }
  }

  lemma AloneDrops(c: Config, s: Stats, b: Body, fits: bool, diskOk: bool)
    requires b.at.DroppingCount?
    ensures Alone(c, s, b, fits, diskOk) == (if b.onDisk then DropDisk(s, b.size) else DropMemory(s, b.size), b.(at := Gone))
  {
    var one := Access(c, s, b, diskOk);
    var two := if one.1.at.ClampingCount? then Access(c, one.0, one.1, diskOk) else one;
    var three := Access(c, two.0, two.1, diskOk);
    var four := if three.1.at.ClampingBytes? then Access(c, three.0, three.1, diskOk) else three;
    assert Alone(c, four.0, four.1, fits, diskOk) == four;
    assert Alone(c, three.0, three.1, fits, diskOk) == four;
    assert Alone(c, two.0, two.1, fits, diskOk) == four;
  }

  // ---------------------------------------------------------------- what is counted

  /** The body is in the file or buffer counter. */
  predicate InCount(b: Body) {
    b.at.AddingBytes? || b.at.InUse? || b.at.Removing? || b.at.DroppingCount?
  }

  /** Its size is in the byte counter. */
  predicate InBytes(b: Body) {
    b.at.InUse? || b.at.Removing? || b.at.DroppingCount? || b.at.ClampingCount? || b.at.DroppingBytes?
  }

  function Sum(bodies: seq<Body>, weight: Body -> nat): nat {
    if bodies == [] then 0 else Sum(bodies[..|bodies| - 1], weight) + weight(bodies[|bodies| - 1])
  }

  function CountWeight(onDisk: bool): Body -> nat {
    b => if InCount(b) && b.onDisk == onDisk then 1 else 0
  }

  function BytesWeight(onDisk: bool): Body -> nat {
    b => if InBytes(b) && b.onDisk == onDisk then b.size else 0
  }

  lemma SumAppend(bodies: seq<Body>, b: Body, weight: Body -> nat)
    ensures Sum(bodies + [b], weight) == Sum(bodies, weight) + weight(b)
  {
    assert (bodies + [b])[..|bodies|] == bodies;
  }

  lemma {:induction false} SumReplace(bodies: seq<Body>, i: nat, b: Body, weight: Body -> nat)
    requires i < |bodies|
    ensures Sum(bodies[i := b], weight) == Sum(bodies, weight) - weight(bodies[i]) + weight(b)
    ensures weight(bodies[i]) <= Sum(bodies, weight)
  {
    var front, n := bodies[..|bodies| - 1], |bodies| - 1;
    if i < n {
      SumReplace(front, i, b, weight);
      assert bodies[i := b][..n] == front[i := b];
    } else {
      assert bodies[i := b][..n] == front;
    }
  }

  /** Every counter holds exactly the bodies between its addition and its subtraction. */
  ghost predicate Counted(s: State) {
    && s.stats.diskFiles == Sum(s.bodies, CountWeight(true))
    && s.stats.diskBytes == Sum(s.bodies, BytesWeight(true))
    && s.stats.memoryBuffers == Sum(s.bodies, CountWeight(false))
    && s.stats.memoryBytes == Sum(s.bodies, BytesWeight(false))
  }

  predicate Clamping(b: Body) {
    b.at.ClampingCount? || b.at.ClampingBytes?
  }

  /** No counter has come out negative. */
  ghost predicate NeverClamps(s: State) {
    forall i :: 0 <= i < |s.bodies| ==> !Clamping(s.bodies[i])
  }

  ghost predicate Inv(s: State) {
    Counted(s) && NeverClamps(s)
  }

  /** What one access does to one counter is what it does to the body's weight in it, and it
      does not lead to a clamp while the body itself is counted. */
  lemma AccessCounts(c: Config, s: Stats, b: Body, ok: bool)
    requires !Clamping(b) && !b.at.InUse? && !b.at.Gone?
    requires b.onDisk ==> CountWeight(true)(b) <= s.diskFiles && BytesWeight(true)(b) <= s.diskBytes
    ensures var r := Access(c, s, b, ok);
            && r.0.diskFiles == s.diskFiles - CountWeight(true)(b) + CountWeight(true)(r.1)
            && r.0.diskBytes == s.diskBytes - BytesWeight(true)(b) + BytesWeight(true)(r.1)
            && r.0.memoryBuffers == s.memoryBuffers - CountWeight(false)(b) + CountWeight(false)(r.1)
            && r.0.memoryBytes == s.memoryBytes - BytesWeight(false)(b) + BytesWeight(false)(r.1)
            && !Clamping(r.1)
  {
  }

  lemma ReplaceSums(bodies: seq<Body>, i: nat, b: Body, d: bool)
    requires i < |bodies|
    ensures Sum(bodies[i := b], CountWeight(d)) == Sum(bodies, CountWeight(d)) - CountWeight(d)(bodies[i]) + CountWeight(d)(b)
    ensures Sum(bodies[i := b], BytesWeight(d)) == Sum(bodies, BytesWeight(d)) - BytesWeight(d)(bodies[i]) + BytesWeight(d)(b)
    ensures CountWeight(d)(bodies[i]) <= Sum(bodies, CountWeight(d)) && BytesWeight(d)(bodies[i]) <= Sum(bodies, BytesWeight(d))
  {
    SumReplace(bodies, i, b, CountWeight(d));
    SumReplace(bodies, i, b, BytesWeight(d));
  }

  lemma StepKeepsInv(s: State, i: nat, ok: bool)
    requires Inv(s) && Enabled(s, Step(i, ok))
    ensures Inv(Apply(s, Step(i, ok)))
  {
    var b := s.bodies[i];
    var r := Access(s.config, s.stats, b, ok);
    ReplaceSums(s.bodies, i, r.1, true);
    ReplaceSums(s.bodies, i, r.1, false);
    AccessCounts(s.config, s.stats, b, ok);
  }

  lemma ShutKeepsInv(s: State, i: nat)
    requires Inv(s) && Enabled(s, Shut(i))
    ensures Inv(Apply(s, Shut(i)))
  {
    var b' := Closed(s.bodies[i]);
    ReplaceSums(s.bodies, i, b', true);
    ReplaceSums(s.bodies, i, b', false);
  }

  lemma BeginKeepsInv(s: State, b: Body)
    requires Inv(s) && b.at.Checking?
    ensures Inv(s.(bodies := s.bodies + [b]))
  {
    SumAppend(s.bodies, b, CountWeight(true));
    SumAppend(s.bodies, b, BytesWeight(true));
    SumAppend(s.bodies, b, CountWeight(false));
    SumAppend(s.bodies, b, BytesWeight(false));
  }

  lemma ActionKeepsInv(s: State, a: Action)
    requires Inv(s) && Enabled(s, a)
    ensures Inv(Apply(s, a))
  {
    match a
    case Begin(streamed, declared, size) => BeginKeepsInv(s, Body(streamed, declared, size, false, Checking));
    case Step(i, ok) => StepKeepsInv(s, i, ok);
    case Shut(i) => ShutKeepsInv(s, i);
  }

  // ---------------------------------------------------------------- whole runs

  ghost predicate Run(c: Config, actions: seq<Action>)
    decreases |actions|, 0
  {
    actions == [] ||
    (Run(c, actions[..|actions| - 1]) && Enabled(Final(c, actions[..|actions| - 1]), actions[|actions| - 1]))
  }

  /** The state a run ends in that starts with nothing stored and nothing counted. */
  ghost function Final(c: Config, actions: seq<Action>): State
    requires Run(c, actions)
    decreases |actions|, 1
  {
    if actions == [] then State(c, NONE, [])
    else Apply(Final(c, actions[..|actions| - 1]), actions[|actions| - 1])
  }

  lemma {:induction false} RunKeepsInv(c: Config, actions: seq<Action>)
    requires Run(c, actions)
    ensures Inv(Final(c, actions)) && Final(c, actions).config == c
  {
    if actions != [] {
      RunKeepsInv(c, actions[..|actions| - 1]);
      ActionKeepsInv(Final(c, actions[..|actions| - 1]), actions[|actions| - 1]);
    }
  }

  /** No call is in progress. */
  ghost predicate Quiet(s: State) {
    forall i :: 0 <= i < |s.bodies| ==> s.bodies[i].at.InUse? || s.bodies[i].at.Gone?
  }

  /** How many bodies of one kind are open, and their total size. */
  function OpenCount(bodies: seq<Body>, onDisk: bool): nat {
    if bodies == [] then 0
    else
      var last := bodies[|bodies| - 1];
      OpenCount(bodies[..|bodies| - 1], onDisk) + (if last.at.InUse? && last.onDisk == onDisk then 1 else 0)
  }

  function OpenBytes(bodies: seq<Body>, onDisk: bool): nat {
    if bodies == [] then 0
    else
      var last := bodies[|bodies| - 1];
      OpenBytes(bodies[..|bodies| - 1], onDisk) + (if last.at.InUse? && last.onDisk == onDisk then last.size else 0)
  }

  lemma {:induction false} QuietSums(bodies: seq<Body>, onDisk: bool)
    requires forall i :: 0 <= i < |bodies| ==> bodies[i].at.InUse? || bodies[i].at.Gone?
    ensures Sum(bodies, CountWeight(onDisk)) == OpenCount(bodies, onDisk)
    ensures Sum(bodies, BytesWeight(onDisk)) == OpenBytes(bodies, onDisk)
  {
    if bodies != [] {
      QuietSums(bodies[..|bodies| - 1], onDisk);
    }
  }

  /** In every interleaving of creations and closings: no counter ever comes out negative, so no
      clamp ever overwrites another call's addition; and whenever no call is in progress all
      four counters equal the number and total size of the storages in use, however often each
      was closed. */
  lemma OverlapKeepsCountersExact(c: Config, actions: seq<Action>)
    requires Run(c, actions)
    ensures var s := Final(c, actions);
            && NeverClamps(s)
            && s.stats.diskFiles >= 0 && s.stats.diskBytes >= 0 && s.stats.memoryBuffers >= 0 && s.stats.memoryBytes >= 0
            && (Quiet(s) ==>
                  && s.stats.diskFiles == OpenCount(s.bodies, true) && s.stats.diskBytes == OpenBytes(s.bodies, true)
                  && s.stats.memoryBuffers == OpenCount(s.bodies, false) && s.stats.memoryBytes == OpenBytes(s.bodies, false))
  {
    RunKeepsInv(c, actions);
    var s := Final(c, actions);
    if Quiet(s) {
      QuietSums(s.bodies, true);
      QuietSums(s.bodies, false);
    }
  }

  // ---------------------------------------------------------------- the disk maximum

  /** Promised room: the size of a body on its way to disk that is not in the byte counter yet. */
  function Promised(): Body -> nat {
    (b: Body) => if b.onDisk && (b.at.Writing? || b.at.AddingCount? || b.at.AddingBytes?) then b.size else 0
  }

  /** The bytes really in cache files: from before the write to after the removal. */
  function OnDiskNow(): Body -> nat {
    (b: Body) => if b.onDisk && (b.at.Writing? || b.at.AddingCount? || b.at.AddingBytes? || b.at.InUse? || b.at.Removing?) then b.size else 0
  }

  ghost function Committed(s: State): int {
    s.stats.diskBytes + Sum(s.bodies, Promised())
  }

  lemma {:induction false} FilesAreCommitted(bodies: seq<Body>)
    ensures Sum(bodies, OnDiskNow()) <= Sum(bodies, BytesWeight(true)) + Sum(bodies, Promised())
  {
    if bodies != [] {
      FilesAreCommitted(bodies[..|bodies| - 1]);
    }
  }

  /** An action commits disk space only when a check succeeds; it then commits the body's real
      size. Nothing else raises what is committed. */
  predicate Commits(s: State, a: Action) {
    a.Step? && a.index < |s.bodies| && s.bodies[a.index].at.Checking? && WantsDisk(s.config, s.stats, s.bodies[a.index])
  }

  lemma AccessCommits(c: Config, s: Stats, b: Body, ok: bool)
    requires !b.at.InUse? && !b.at.Gone? && !Clamping(b)
    requires b.onDisk ==> BytesWeight(true)(b) <= s.diskBytes
    ensures var r := Access(c, s, b, ok);
            var before, after := s.diskBytes + Promised()(b), r.0.diskBytes + Promised()(r.1);
            if b.at.Checking? && WantsDisk(c, s, b) then after == before + b.size else after <= before
  {
  }

  lemma CommittedAfter(s: State, a: Action)
    requires Inv(s) && Enabled(s, a)
    ensures Commits(s, a) ==> Committed(Apply(s, a)) == Committed(s) + s.bodies[a.index].size
    ensures !Commits(s, a) ==> Committed(Apply(s, a)) <= Committed(s)
  {
    match a
    case Begin(streamed, declared, size) =>
      SumAppend(s.bodies, Body(streamed, declared, size, false, Checking), Promised());
    case Step(i, ok) =>
      StepCommits(s, i, ok);
    case Shut(i) =>
      SumReplace(s.bodies, i, Closed(s.bodies[i]), Promised());
  }

  lemma StepCommits(s: State, i: nat, ok: bool)
    requires Inv(s) && Enabled(s, Step(i, ok))
    ensures var committed := Committed(Apply(s, Step(i, ok)));
            if Commits(s, Step(i, ok)) then committed == Committed(s) + s.bodies[i].size else committed <= Committed(s)
  {
    var b := s.bodies[i];
    SumReplace(s.bodies, i, Access(s.config, s.stats, b, ok).1, Promised());
    SumReplace(s.bodies, i, b, BytesWeight(true));
    AccessCommits(s.config, s.stats, b, ok);
  }

  /** From within the maximum, an action leaves the committed space within it exactly when it
      commits nothing or the room left beside what is counted and promised is enough. */
  lemma WithinMaximumIff(s: State, a: Action)
    requires Inv(s) && Enabled(s, a) && Committed(s) <= s.config.maxBytes
    ensures Committed(Apply(s, a)) <= s.config.maxBytes <==>
            (Commits(s, a) ==> s.stats.diskBytes + Sum(s.bodies, Promised()) + s.bodies[a.index].size <= s.config.maxBytes)
  {
    CommittedAfter(s, a);
  }

  /** One creation at a time; closings may overlap with it and with each other. */
  ghost predicate Serial(s: State, a: Action) {
    a.Begin? ==> forall i :: 0 <= i < |s.bodies| ==> !Creating(s.bodies[i])
  }

  /** No body is longer than declared. */
  predicate Truthful(a: Action) {
    a.Begin? && a.streamed && a.declared > 0 ==> a.size <= a.declared
  }

  predicate Trusted(b: Body) {
    if b.streamed then b.declared > 0 ==> b.size <= b.declared else b.size == b.declared || !b.at.Checking?
  }

  ghost predicate OneCreation(s: State) {
    forall i, j :: 0 <= i < j < |s.bodies| ==> !(Creating(s.bodies[i]) && Creating(s.bodies[j]))
  }

  ghost predicate AllTrusted(s: State) {
    forall i :: 0 <= i < |s.bodies| ==> Trusted(s.bodies[i])
  }

  ghost predicate Within(s: State) {
    Inv(s) && OneCreation(s) && AllTrusted(s) && Committed(s) <= s.config.maxBytes
  }

  lemma {:induction false} NothingPromised(bodies: seq<Body>)
    requires forall i :: 0 <= i < |bodies| ==> Promised()(bodies[i]) == 0
    ensures Sum(bodies, Promised()) == 0
  {
    if bodies != [] {
      NothingPromised(bodies[..|bodies| - 1]);
    }
  }

  lemma ActionKeepsOrder(s: State, a: Action)
    requires OneCreation(s) && AllTrusted(s) && Enabled(s, a) && Serial(s, a) && Truthful(a)
    ensures OneCreation(Apply(s, a)) && AllTrusted(Apply(s, a))
  {
    if a.Step? {
      var b := s.bodies[a.index];
      var b' := Access(s.config, s.stats, b, a.ok).1;
      assert Creating(b') ==> Creating(b);
      assert Trusted(b) ==> Trusted(b');
    }
  }

  lemma ActionKeepsWithin(s: State, a: Action)
    requires Within(s) && Enabled(s, a) && Serial(s, a) && Truthful(a)
    ensures Within(Apply(s, a))
  {
    ActionKeepsInv(s, a);
    ActionKeepsOrder(s, a);
    WithinMaximumIff(s, a);
    if Commits(s, a) {
      assert forall i :: 0 <= i < |s.bodies| && i != a.index ==> !Creating(s.bodies[i]);
      NothingPromised(s.bodies);
      assert Trusted(s.bodies[a.index]);
    }
  }

  ghost predicate SerialRun(c: Config, actions: seq<Action>)
    requires Run(c, actions)
  {
    actions == [] ||
    (var front, a := actions[..|actions| - 1], actions[|actions| - 1];
     SerialRun(c, front) && Serial(Final(c, front), a) && Truthful(a))
  }

  lemma {:induction false} SerialRunStaysWithin(c: Config, actions: seq<Action>)
    requires c.maxBytes >= 0 && Run(c, actions) && SerialRun(c, actions)
    ensures Within(Final(c, actions)) && Final(c, actions).config == c
  {
    if actions != [] {
      SerialRunStaysWithin(c, actions[..|actions| - 1]);
      ActionKeepsWithin(Final(c, actions[..|actions| - 1]), actions[|actions| - 1]);
    }
  }

  /** In every run whose creations do not overlap and whose bodies are no longer than declared,
      with closings overlapping freely: at every point neither the byte counter nor the bytes
      really in cache files exceed the maximum. */
  lemma MaximumHolds(c: Config, actions: seq<Action>)
    requires c.maxBytes >= 0 && Run(c, actions) && SerialRun(c, actions)
    ensures var s := Final(c, actions);
            s.stats.diskBytes <= c.maxBytes && Sum(s.bodies, OnDiskNow()) <= c.maxBytes
  {
    SerialRunStaysWithin(c, actions);
    FilesAreCommitted(Final(c, actions).bodies);
  }

  lemma OneMore(c: Config, actions: seq<Action>, a: Action) returns (more: seq<Action>)
    requires Run(c, actions) && Enabled(Final(c, actions), a)
    ensures more == actions + [a] && Run(c, more) && Final(c, more) == Apply(Final(c, actions), a)
  {
    more := actions + [a];
    assert more[..|more| - 1] == actions;
  }

  /** The failing input when creations overlap: two bodies that each fit, but not both, are both
      checked before either is counted. */
  lemma OverlappingCreationsOverrun(c: Config, size: nat) returns (actions: seq<Action>)
    requires c.enabled && c.threshold <= size <= c.maxBytes < 2 * size
    ensures Run(c, actions) && (forall k :: 0 <= k < |actions| ==> Truthful(actions[k]))
    ensures Final(c, actions).stats.diskBytes == 2 * size > c.maxBytes
  {
    actions := [];
    actions := OneMore(c, actions, Begin(false, size, size));
    actions := OneMore(c, actions, Begin(false, size, size));
    actions := OneMore(c, actions, Step(0, true));
    actions := OneMore(c, actions, Step(1, true));
    actions := OneMore(c, actions, Step(0, true));
    actions := OneMore(c, actions, Step(0, true));
    actions := OneMore(c, actions, Step(0, true));
    actions := OneMore(c, actions, Step(1, true));
    actions := OneMore(c, actions, Step(1, true));
    actions := OneMore(c, actions, Step(1, true));
  }
}
