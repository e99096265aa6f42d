/**
 Reconciling a channel's model list with its upstream: the list algebra, the detect step and
 the apply step of controller/channel_upstream_update.go. Regular expression matching is a
 parameter (pattern, then name; a pattern that does not compile matches nothing).
 */
module UpstreamModels {
  import opened Text

  type Name = string

  // ---------------------------------------------------------------- list algebra

  function Filter(s: seq<Name>, keep: Name -> bool): seq<Name> {
    if s == [] then []
    else
      var front, last := Filter(s[..|s| - 1], keep), s[|s| - 1];
      if keep(last) then front + [last] else front
  }

  /** Each name under f, without those that become empty. */
  function FilterMap(models: seq<Name>, f: Name -> Name): seq<Name> {
    if models == [] then []
    else
      var front, last := FilterMap(models[..|models| - 1], f), f(models[|models| - 1]);
      if last != "" then front + [last] else front
  }

  /** First occurrences, in order. */
  function Uniq(s: seq<Name>): seq<Name> {
    if s == [] then []
    else
      var front, last := Uniq(s[..|s| - 1]), s[|s| - 1];
      if last in front then front else front + [last]
  }

  function Normalize(models: seq<Name>): seq<Name> {
    Uniq(FilterMap(models, Trim))
  }

  function In(s: seq<Name>): Name -> bool {
    n => n in s
  }

  function NotIn(s: seq<Name>): Name -> bool {
    n => n !in s
  }

  function Merge(base: seq<Name>, appended: seq<Name>): seq<Name> {
    Normalize(base) + Filter(Normalize(appended), NotIn(Normalize(base)))
  }

  function Subtract(base: seq<Name>, removed: seq<Name>): seq<Name> {
    Filter(Normalize(base), NotIn(Normalize(removed)))
  }

  function Intersect(base: seq<Name>, allowed: seq<Name>): seq<Name> {
    Filter(Normalize(base), In(Normalize(allowed)))
  }

  /** Adding wins over removing. */
  function ApplySelected(origin: seq<Name>, add: seq<Name>, remove: seq<Name>): seq<Name> {
    var added := Normalize(add);
    Subtract(Merge(origin, added), Subtract(Normalize(remove), added))
  }

  // ---------------------------------------------------------------- facts about the algebra

  ghost predicate Distinct(s: seq<Name>) {
    forall i, j :: 0 <= i < j < |s| ==> s[i] != s[j]
  }

  predicate Neat(n: Name) {
    n != "" && Trim(n) == n
  }

  /** Trimmed, non-empty and without duplicates. */
  ghost predicate Clean(s: seq<Name>) {
    Distinct(s) && forall n :: n in s ==> Neat(n)
  }

  ghost predicate InImage(models: seq<Name>, f: Name -> Name, n: Name) {
    exists m :: m in models && f(m) == n
  }

  lemma {:induction false} FilterMembers(s: seq<Name>, keep: Name -> bool, n: Name)
    ensures n in Filter(s, keep) <==> n in s && keep(n)
  {
    if s != [] {
      FilterMembers(s[..|s| - 1], keep, n);
      assert s == s[..|s| - 1] + [s[|s| - 1]];
    }
  }

  lemma {:induction false} FilterDistinct(s: seq<Name>, keep: Name -> bool)
    requires Distinct(s)
    ensures Distinct(Filter(s, keep))
  {
    if s != [] {
      FilterDistinct(s[..|s| - 1], keep);
      FilterMembers(s[..|s| - 1], keep, s[|s| - 1]);
    }
  }

  lemma FilterClean(s: seq<Name>, keep: Name -> bool)
    requires Clean(s)
    ensures Clean(Filter(s, keep))
  {
    FilterDistinct(s, keep);
    forall n | n in Filter(s, keep) ensures n in s {
      FilterMembers(s, keep, n);
    }
  }

  lemma {:induction false} FilterAll(s: seq<Name>, keep: Name -> bool)
    requires forall n :: n in s ==> keep(n)
    ensures Filter(s, keep) == s
  {
    if s != [] {
      assert forall n :: n in s[..|s| - 1] ==> n in s;
      FilterAll(s[..|s| - 1], keep);
      assert s[|s| - 1] in s;
    }
  }

  lemma {:induction false} FilterConcat(a: seq<Name>, b: seq<Name>, keep: Name -> bool)
    ensures Filter(a + b, keep) == Filter(a, keep) + Filter(b, keep)
  {
    if b == [] {
      assert a + b == a;
    } else {
      assert (a + b)[..|a + b| - 1] == a + b[..|b| - 1];
      FilterConcat(a, b[..|b| - 1], keep);
    }
  }

  lemma {:induction false} FilterSame(s: seq<Name>, keep: Name -> bool, keep': Name -> bool)
    requires forall n :: n in s ==> keep(n) == keep'(n)
    ensures Filter(s, keep) == Filter(s, keep')
  {
    if s != [] {
      assert forall n :: n in s[..|s| - 1] ==> n in s;
      FilterSame(s[..|s| - 1], keep, keep');
      assert s[|s| - 1] in s;
    }
  }

  lemma {:induction false} FilterMapMembers(models: seq<Name>, f: Name -> Name, n: Name)
    ensures n in FilterMap(models, f) <==> n != "" && InImage(models, f, n)
  {
    if models != [] {
      var front, last := models[..|models| - 1], models[|models| - 1];
      FilterMapMembers(front, f, n);
      assert models == front + [last];
      if InImage(models, f, n) {
        var m :| m in models && f(m) == n;
        assert m in front || m == last;
      }
    }
  }

  lemma {:induction false} UniqKeeps(s: seq<Name>)
    ensures Distinct(Uniq(s)) && forall n :: n in Uniq(s) <==> n in s
  {
    if s != [] {
      UniqKeeps(s[..|s| - 1]);
      assert s == s[..|s| - 1] + [s[|s| - 1]];
    }
  }

  lemma {:induction false} UniqOfDistinct(s: seq<Name>)
    requires Distinct(s)
    ensures Uniq(s) == s
  {
    if s != [] {
      UniqOfDistinct(s[..|s| - 1]);
      assert s == s[..|s| - 1] + [s[|s| - 1]];
    }
  }

  predicate Fixed(f: Name -> Name, n: Name) {
    n != "" && f(n) == n
  }

  lemma {:induction false} FilterMapNothing(s: seq<Name>, f: Name -> Name)
    requires forall n :: n in s ==> Fixed(f, n)
    ensures FilterMap(s, f) == s
  {
    if s != [] {
      forall n | n in s[..|s| - 1] ensures Fixed(f, n) {
        assert n in s;
      }
      FilterMapNothing(s[..|s| - 1], f);
      assert Fixed(f, s[|s| - 1]);
    }
  }

  /** Normalizing yields a clean list of the same trimmed names, and leaves a clean list alone. */
  lemma NormalizeCleans(models: seq<Name>)
    ensures Clean(Normalize(models))
    ensures forall n :: n in Normalize(models) <==> n != "" && InImage(models, Trim, n)
    ensures Clean(models) ==> Normalize(models) == models
  {
    UniqKeeps(FilterMap(models, Trim));
    forall n ensures n in Normalize(models) <==> n != "" && InImage(models, Trim, n) {
      FilterMapMembers(models, Trim, n);
    }
    forall n | n in Normalize(models) ensures Neat(n) {
      var m :| m in models && Trim(m) == n;
      TrimTwice(m);
    }
    if Clean(models) {
      assert forall n :: n in models ==> Neat(n) && Fixed(Trim, n);
      FilterMapNothing(models, Trim);
      UniqOfDistinct(models);
    }
  }

  /** Filtering a clean list keeps it clean and keeps exactly the wanted names. */
  lemma FilterFacts(s: seq<Name>, keep: Name -> bool)
    requires Clean(s)
    ensures Clean(Filter(s, keep))
    ensures forall n :: n in Filter(s, keep) <==> n in s && keep(n)
  {
    FilterClean(s, keep);
    forall n ensures n in Filter(s, keep) <==> n in s && keep(n) {
      FilterMembers(s, keep, n);
    }
  }

  lemma ConcatClean(a: seq<Name>, b: seq<Name>)
    requires Clean(a) && Clean(b) && forall n :: n in b ==> n !in a
    ensures Clean(a + b)
  {
    forall i, j | 0 <= i < j < |a + b| ensures (a + b)[i] != (a + b)[j] {
      if i < |a| <= j {
        assert b[j - |a|] in b;
      }
    }
  }

  /** Merging lists all names of both, the first list's in front. */
  lemma MergeClean(base: seq<Name>, appended: seq<Name>)
    requires Clean(base) && Clean(appended)
    ensures Merge(base, appended) == base + Filter(appended, NotIn(base))
    ensures Clean(Merge(base, appended))
    ensures forall n :: n in Merge(base, appended) <==> n in base || n in appended
  {
    NormalizeCleans(base);
    NormalizeCleans(appended);
    FilterFacts(appended, NotIn(base));
    ConcatClean(base, Filter(appended, NotIn(base)));
  }

  lemma SubtractClean(base: seq<Name>, removed: seq<Name>)
    requires Clean(base) && Clean(removed)
    ensures Subtract(base, removed) == Filter(base, NotIn(removed))
    ensures Clean(Subtract(base, removed))
    ensures forall n :: n in Subtract(base, removed) <==> n in base && n !in removed
  {
    NormalizeCleans(base);
    NormalizeCleans(removed);
    FilterFacts(base, NotIn(removed));
  }

  lemma IntersectClean(base: seq<Name>, allowed: seq<Name>)
    requires Clean(base) && Clean(allowed)
    ensures Intersect(base, allowed) == Filter(base, In(allowed))
    ensures Clean(Intersect(base, allowed))
    ensures forall n :: n in Intersect(base, allowed) <==> n in base && n in allowed
  {
    NormalizeCleans(base);
    NormalizeCleans(allowed);
    FilterFacts(base, In(allowed));
  }

  /** The selected changes: the old list without the removed names, then the new names. */
  lemma ApplySelectedClean(origin: seq<Name>, add: seq<Name>, remove: seq<Name>)
    requires Clean(origin) && Clean(add) && Clean(remove) && forall n :: n in add ==> n !in remove
    ensures ApplySelected(origin, add, remove) == Filter(origin, NotIn(remove)) + Filter(add, NotIn(origin))
    ensures Clean(ApplySelected(origin, add, remove))
    ensures forall n :: n in ApplySelected(origin, add, remove) <==> (n in origin || n in add) && n !in remove
  {
    NormalizeCleans(add);
    NormalizeCleans(remove);
    SubtractClean(remove, add);
    FilterAll(remove, NotIn(add));
    MergeClean(origin, add);
    SubtractClean(Merge(origin, add), remove);
    FilterConcat(origin, Filter(add, NotIn(origin)), NotIn(remove));
    FilterFacts(add, NotIn(origin));
    FilterAll(Filter(add, NotIn(origin)), NotIn(remove));
  }

  /** Any lists at all: a name to add is in the result even when it is also to be removed; a name
      that was there stays unless it is to be removed. */
  lemma AddWins(origin: seq<Name>, add: seq<Name>, remove: seq<Name>)
    ensures Clean(ApplySelected(origin, add, remove))
    ensures forall n :: n in ApplySelected(origin, add, remove) <==>
              n in Normalize(add) || (n in Normalize(origin) && n !in Normalize(remove))
  {
    var o, a, r := Normalize(origin), Normalize(add), Normalize(remove);
    NormalizeCleans(origin);
    NormalizeCleans(add);
    NormalizeCleans(remove);
    NormalizeCleans(a);
    SubtractClean(r, a);
    MergeClean(o, a);
    NormalizeCleans(o);
    assert Merge(origin, a) == Merge(o, a);
    SubtractClean(Merge(o, a), Subtract(r, a));
  }

  // ---------------------------------------------------------------- detecting changes

  const REGEX := "regex:"

  type Matcher = (string, string) -> bool

  predicate Ignores(entry: Name, n: Name, matches: Matcher) {
    if REGEX <= entry then matches(Trim(entry[|REGEX|..]), n) else entry == n
  }

  predicate Ignored(entries: seq<Name>, n: Name, matches: Matcher) {
    exists g :: g in entries && Ignores(g, n, matches)
  }

  /** An upstream name the channel does not offer, directly or as a redirect target. */
  predicate Uncovered(local: seq<Name>, mapping: map<Name, Name>, n: Name) {
    n !in local && n !in mapping.Values
  }

  function Addable(local: seq<Name>, ignored: seq<Name>, mapping: map<Name, Name>, matches: Matcher): Name -> bool {
    n => Uncovered(local, mapping, n) && !Ignored(ignored, n, matches)
  }

  /** A local name that is no redirect alias and has gone upstream. */
  function Removable(upstream: seq<Name>, mapping: map<Name, Name>): Name -> bool {
    n => n !in mapping && n !in upstream
  }

  function Detect(local: seq<Name>, upstream: seq<Name>, ignored: seq<Name>, mapping: map<Name, Name>, matches: Matcher): (seq<Name>, seq<Name>) {
    var l, u := Normalize(local), Normalize(upstream);
    (Normalize(Filter(u, Addable(l, Normalize(ignored), mapping, matches))), Normalize(Filter(l, Removable(u, mapping))))
  }

  lemma DetectFacts(local: seq<Name>, upstream: seq<Name>, ignored: seq<Name>, mapping: map<Name, Name>, matches: Matcher)
    ensures var d := Detect(local, upstream, ignored, mapping, matches);
            var l, u, g := Normalize(local), Normalize(upstream), Normalize(ignored);
            && Clean(d.0) && Clean(d.1)
            && (forall n :: n in d.0 <==> n in u && n !in l && n !in mapping.Values && !Ignored(g, n, matches))
            && (forall n :: n in d.1 <==> n in l && n !in mapping && n !in u)
  {
    NormalizeCleans(local);
    NormalizeCleans(upstream);
    var l, u, g := Normalize(local), Normalize(upstream), Normalize(ignored);
    FilterFacts(u, Addable(l, g, mapping, matches));
    FilterFacts(l, Removable(u, mapping));
    NormalizeCleans(Filter(u, Addable(l, g, mapping, matches)));
    NormalizeCleans(Filter(l, Removable(u, mapping)));
  }

  // ---------------------------------------------------------------- applying changes

  datatype Settings = Settings(detected: seq<Name>, removed: seq<Name>, ignored: seq<Name>)

  /** What applying a selection yields; `next` is the new model list. */
  datatype Outcome = Outcome(
    added: seq<Name>, removed: seq<Name>, remaining: seq<Name>, remainingRemove: seq<Name>,
    next: seq<Name>, changed: bool, models: string, settings: Settings)

  predicate IsComma(c: char) {
    c == ','
  }

  /** Channel.GetModels. */
  function GetModels(models: string): seq<Name> {
    if models == "" then [] else Split(TrimFunc(models, IsComma), ',')
  }

  function Applied(models: string, s: Settings, addInput: seq<Name>, ignoreInput: seq<Name>, removeInput: seq<Name>): Outcome {
    var pendingAdd, pendingRemove := Normalize(s.detected), Normalize(s.removed);
    var add, ignore := Intersect(addInput, pendingAdd), Intersect(ignoreInput, pendingAdd);
    var remove := Subtract(Intersect(removeInput, pendingRemove), add);
    var origin := Normalize(GetModels(models));
    var next := ApplySelected(origin, add, remove);
    var merged := Merge(s.ignored, ignore);
    var remaining, remainingRemove := Subtract(pendingAdd, add + ignore), Subtract(pendingRemove, remove);
    Outcome(add, remove, remaining, remainingRemove, next, origin != next,
            if origin != next then Join(next, ',') else models,
            Settings(remaining, remainingRemove, if |add| > 0 then Subtract(merged, add) else merged))
  }

  /** The lists the partition speaks of, all clean. */
  lemma AppliedFacts(models: string, s: Settings, addInput: seq<Name>, ignoreInput: seq<Name>, removeInput: seq<Name>)
    ensures var o := Applied(models, s, addInput, ignoreInput, removeInput);
            var p, q := Normalize(s.detected), Normalize(s.removed);
            && Clean(p) && Clean(q) && Clean(o.added) && Clean(o.removed)
            && (forall n :: n in o.added <==> n in p && n in Normalize(addInput))
            && (forall n :: n in o.removed <==> n in q && n in Normalize(removeInput) && n !in o.added)
            && (forall n :: n in o.remaining <==> n in p && n !in Normalize(addInput) && n !in Normalize(ignoreInput))
            && (forall n :: n in o.remainingRemove <==> n in q && n !in o.removed)
  {
    var p, q := Normalize(s.detected), Normalize(s.removed);
    NormalizeCleans(s.detected);
    NormalizeCleans(s.removed);
    NormalizeCleans(p);
    NormalizeCleans(q);
    var add, ignore := Intersect(addInput, p), Intersect(ignoreInput, p);
    NormalizeCleans(addInput);
    NormalizeCleans(ignoreInput);
    NormalizeCleans(removeInput);
    FilterFacts(Normalize(addInput), In(p));
    FilterFacts(Normalize(ignoreInput), In(p));
    FilterFacts(Normalize(removeInput), In(q));
    SubtractClean(Intersect(removeInput, q), add);
    SubtractClean(q, Subtract(Intersect(removeInput, q), add));
    NormalizedUnion(add, ignore);
    FilterFacts(p, NotIn(Normalize(add + ignore)));
  }

  /** Normalizing two clean lists one after the other loses no name. */
  lemma NormalizedUnion(a: seq<Name>, b: seq<Name>)
    requires Clean(a) && Clean(b)
    ensures forall n :: n in Normalize(a + b) <==> n in a || n in b
  {
    NormalizeCleans(a + b);
    forall n ensures n in Normalize(a + b) <==> n in a || n in b {
      if n in Normalize(a + b) {
        var m :| m in a + b && Trim(m) == n;
        assert m in a || m in b;
        assert Neat(m);
      }
    }
  }

  /** Every selection splits the pending additions into added, ignored and remaining, and the
      pending removals into removed and remaining; adding wins over both. */
  lemma SelectionPartitions(models: string, s: Settings, addInput: seq<Name>, ignoreInput: seq<Name>, removeInput: seq<Name>, n: Name)
    ensures var o := Applied(models, s, addInput, ignoreInput, removeInput);
            var isAdded, isIgnored := n in o.added, n in Intersect(ignoreInput, Normalize(s.detected)) && n !in o.added;
            && (n in Normalize(s.detected) <==> isAdded || isIgnored || n in o.remaining)
            && !(isAdded && n in o.remaining) && !(isIgnored && n in o.remaining)
            && (n in Normalize(s.removed) <==> n in o.removed || n in o.remainingRemove)
            && !(n in o.removed && n in o.remainingRemove) && !(n in o.removed && isAdded)
  {
    AppliedFacts(models, s, addInput, ignoreInput, removeInput);
    NormalizeCleans(ignoreInput);
    NormalizeCleans(Normalize(s.detected));
    FilterFacts(Normalize(ignoreInput), In(Normalize(s.detected)));
  }

  /** The new list: the old names in their old order without the removed ones, then the added
      ones that are new; no duplicates, and no name that was not pending is touched. */
  lemma SelectionEditsList(models: string, s: Settings, addInput: seq<Name>, ignoreInput: seq<Name>, removeInput: seq<Name>)
    ensures var o := Applied(models, s, addInput, ignoreInput, removeInput);
            var origin := Normalize(GetModels(models));
            && o.next == Filter(origin, NotIn(o.removed)) + Filter(o.added, NotIn(origin))
            && Clean(o.next)
            && (forall n :: n in o.next <==> (n in origin || n in o.added) && n !in o.removed)
            && (forall n :: n !in Normalize(s.detected) && n !in Normalize(s.removed) ==> (n in o.next <==> n in origin))
            && (o.changed <==> origin != o.next)
  {
    AppliedFacts(models, s, addInput, ignoreInput, removeInput);
    NormalizeCleans(GetModels(models));
    var o := Applied(models, s, addInput, ignoreInput, removeInput);
    ApplySelectedClean(Normalize(GetModels(models)), o.added, o.removed);
  }

  /** The stored settings: what remains pending, and the ignore list. A name is ignored afterwards
      exactly when it was before or was pending and selected to be ignored, and is not added. */
  lemma SelectionUpdatesSettings(models: string, s: Settings, addInput: seq<Name>, ignoreInput: seq<Name>, removeInput: seq<Name>)
    ensures var o := Applied(models, s, addInput, ignoreInput, removeInput);
            && o.settings.detected == o.remaining && o.settings.removed == o.remainingRemove
            && Clean(o.settings.ignored)
            && forall n :: n in o.settings.ignored <==>
                 (n in Normalize(s.ignored) || (n in Normalize(s.detected) && n in Normalize(ignoreInput))) && n !in o.added
  {
    var p := Normalize(s.detected);
    NormalizeCleans(s.detected);
    NormalizeCleans(p);
    NormalizeCleans(s.ignored);
    NormalizeCleans(ignoreInput);
    AppliedFacts(models, s, addInput, ignoreInput, removeInput);
    FilterFacts(Normalize(ignoreInput), In(p));
    IgnoreListAfter(Normalize(s.ignored), Intersect(ignoreInput, p), s.ignored, Intersect(addInput, p));
  }

  lemma IgnoreListAfter(g: seq<Name>, ignore: seq<Name>, ignored: seq<Name>, add: seq<Name>)
    requires g == Normalize(ignored) && Clean(g) && Clean(ignore) && Clean(add)
    ensures var merged := Merge(ignored, ignore);
            var after := if |add| > 0 then Subtract(merged, add) else merged;
            Clean(after) && forall n :: n in after <==> (n in g || n in ignore) && n !in add
  {
    NormalizeCleans(g);
    assert Merge(ignored, ignore) == Merge(g, ignore);
    MergeClean(g, ignore);
    SubtractClean(Merge(g, ignore), add);
  }

  /** What an ignore entry means: a text behind "regex:" is a pattern, any other entry a name. */
  lemma IgnoresMeans(entry: Name, n: Name, matches: Matcher)
    ensures if |entry| >= 6 && entry[..6] == "regex:" then Ignores(entry, n, matches) == matches(Trim(entry[6..]), n)
            else Ignores(entry, n, matches) == (entry == n)
  {
  }

  /** A name on the ignore list is offered all the same exactly when it is upstream, not covered,
      written like a pattern that does not match it, and no other entry ignores it. */
  lemma ListedIsOfferedIff(local: seq<Name>, upstream: seq<Name>, ignored: seq<Name>, mapping: map<Name, Name>, matches: Matcher, n: Name)
    requires Clean(ignored) && n in ignored
    ensures n in Detect(local, upstream, ignored, mapping, matches).0 <==>
            && n in Normalize(upstream) && n !in Normalize(local) && n !in mapping.Values
            && "regex:" <= n && !matches(Trim(n[6..]), n)
            && forall e :: e in ignored && e != n ==> !Ignores(e, n, matches)
  {
    NormalizeCleans(ignored);
    DetectFacts(local, upstream, ignored, mapping, matches);
    assert Ignores(n, n, matches) <==> !("regex:" <= n && !matches(Trim(n[6..]), n));
  }

  /** A name selected to be ignored, and not added, is on the ignore list, and is offered again
      exactly in that case. */
  lemma OfferedAgainIff(models: string, s: Settings, addInput: seq<Name>, ignoreInput: seq<Name>, removeInput: seq<Name>,
                        local: seq<Name>, upstream: seq<Name>, mapping: map<Name, Name>, matches: Matcher, n: Name)
    requires n in Normalize(s.detected) && n in Normalize(ignoreInput) && n !in Normalize(addInput)
    ensures var g := Applied(models, s, addInput, ignoreInput, removeInput).settings.ignored;
            && n in g
            && (n in Detect(local, upstream, g, mapping, matches).0 <==>
                  && n in Normalize(upstream) && n !in Normalize(local) && n !in mapping.Values
                  && "regex:" <= n && !matches(Trim(n[6..]), n)
                  && forall e :: e in g && e != n ==> !Ignores(e, n, matches))
  {
    var o := Applied(models, s, addInput, ignoreInput, removeInput);
    SelectionUpdatesSettings(models, s, addInput, ignoreInput, removeInput);
    AppliedFacts(models, s, addInput, ignoreInput, removeInput);
    ListedIsOfferedIff(local, upstream, o.settings.ignored, mapping, matches, n);
  }

  /** The failing input: a name written like a pattern that does not match it is offered again when
      it is the only one ignored. */
  lemma IgnoredPatternIsOffered(models: string, s: Settings, ignoreInput: seq<Name>, upstream: seq<Name>, matches: Matcher, n: Name)
    requires n in Normalize(s.detected) && n in Normalize(ignoreInput) && n in Normalize(upstream)
    requires "regex:" <= n && !matches(Trim(n[6..]), n) && Normalize(s.ignored) == []
    requires forall e :: e in Normalize(s.detected) && e in Normalize(ignoreInput) ==> e == n
    ensures var o := Applied(models, s, [], ignoreInput, []);
            n in o.settings.ignored && n in Detect([], upstream, o.settings.ignored, map[], matches).0
  {
    SelectionUpdatesSettings(models, s, [], ignoreInput, []);
    NormalizeCleans([]);
    OfferedAgainIff(models, s, [], ignoreInput, [], [], upstream, map[], matches, n);
  }

  // ---------------------------------------------------------------- detect, apply, detect again

  /** A clean list of names without commas survives being stored as comma-separated text. */
  lemma StoredFaithfully(names: seq<Name>)
    requires Clean(names) && forall n :: n in names ==> ',' !in n
    ensures Normalize(GetModels(Join(names, ','))) == names
  {
    if names != [] {
      forall n | n in names ensures n != "" {
        assert Neat(n);
      }
      JoinEnds(names, ',');
      TrimNothing(Join(names, ','), IsComma);
      SplitUndoesJoin(names, ',');
    }
    NormalizeCleans(names);
  }

  /** Whatever is selected, the stored text is read back as the new list, unless an added name has a
      comma. */
  lemma SelectionIsReadBack(models: string, s: Settings, addInput: seq<Name>, ignoreInput: seq<Name>, removeInput: seq<Name>)
    requires var o := Applied(models, s, addInput, ignoreInput, removeInput); forall n :: n in o.added ==> ',' !in n
    ensures var o := Applied(models, s, addInput, ignoreInput, removeInput); Normalize(GetModels(o.models)) == o.next
  {
    var o := Applied(models, s, addInput, ignoreInput, removeInput);
    SelectionEditsList(models, s, addInput, ignoreInput, removeInput);
    forall n | n in o.next ensures ',' !in n {
      if n in Normalize(GetModels(models)) {
        NoCommaInStored(models, n);
      }
    }
    StoredFaithfully(o.next);
  }

  /** No name read back from the stored text has a comma. */
  lemma NoCommaInStored(models: string, n: Name)
    requires n in Normalize(GetModels(models))
    ensures ',' !in n
  {
    NormalizeCleans(GetModels(models));
    var m :| m in GetModels(models) && Trim(m) == n;
    forall i | 0 <= i < |n| ensures n[i] != ',' {
      TrimInside(m, i);
    }
  }

  /** A character of a trimmed name is a character of the name. */
  lemma TrimInside(m: string, i: nat)
    requires i < |Trim(m)|
    ensures Trim(m)[i] in m
  {
    var t := TrimLeft(m, IsSpace);
    assert Trim(m) <= t;
    assert t[i] == m[|m| - |t| + i];
  }

  /** Selecting everything that is pending. */
  lemma SelectAll(names: seq<Name>)
    requires Clean(names)
    ensures Normalize(names) == names && Intersect(names, names) == names
  {
    NormalizeCleans(names);
    FilterAll(names, In(names));
  }

  /** The ignore list when names are added and none is ignored. */
  lemma IgnoredAfter(ignored: seq<Name>, adds: seq<Name>)
    requires Clean(adds)
    ensures var merged := Merge(ignored, Intersect([], adds));
            Normalize(if |adds| > 0 then Subtract(merged, adds) else merged) == Filter(Normalize(ignored), NotIn(adds))
  {
    var g := Normalize(ignored);
    NormalizeCleans(ignored);
    NormalizeCleans(g);
    NormalizeCleans(adds);
    assert Normalize([]) == [] && Intersect([], adds) == [];
    assert Merge(ignored, []) == g;
    FilterFacts(g, NotIn(adds));
    NormalizeCleans(Filter(g, NotIn(adds)));
    if adds == [] {
      FilterAll(g, NotIn(adds));
    }
  }

  /** Applying everything a detect found, with nothing ignored. */
  lemma ApplyAllFacts(models: string, ignored: seq<Name>, adds: seq<Name>, removes: seq<Name>)
    requires Clean(adds) && Clean(removes) && forall n :: n in adds ==> n !in removes
    ensures var o := Applied(models, Settings(adds, removes, ignored), adds, [], removes);
            var origin := Normalize(GetModels(models));
            && o.added == adds && o.removed == removes
            && o.next == ApplySelected(origin, adds, removes)
            && o.models == (if origin != o.next then Join(o.next, ',') else models)
            && Normalize(o.settings.ignored) == Filter(Normalize(ignored), NotIn(adds))
  {
    SelectAll(adds);
    SelectAll(removes);
    SubtractClean(removes, adds);
    FilterAll(removes, NotIn(adds));
    IgnoredAfter(ignored, adds);
  }

  /** Dropping the added names from the ignore list un-ignores nothing upstream. */
  ghost predicate StillIgnored(local: seq<Name>, upstream: seq<Name>, ignored: seq<Name>, adds: seq<Name>, mapping: map<Name, Name>, matches: Matcher) {
    forall n :: n in upstream && Uncovered(local, mapping, n) && Ignored(ignored, n, matches) ==>
      Ignored(Filter(ignored, NotIn(adds)), n, matches)
  }

  /** The second detect, once the new list is stored faithfully. */
  lemma SecondDetect(l: seq<Name>, u: seq<Name>, g: seq<Name>, mapping: map<Name, Name>, matches: Matcher,
                     adds: seq<Name>, removes: seq<Name>, next: seq<Name>, n: Name)
    requires forall x :: x in adds <==> x in u && Uncovered(l, mapping, x) && !Ignored(g, x, matches)
    requires forall x :: x in removes <==> x in l && x !in mapping && x !in u
    requires forall x :: x in next <==> (x in l || x in adds) && x !in removes
    ensures n in u && Uncovered(next, mapping, n) <==> n in u && Uncovered(l, mapping, n) && Ignored(g, n, matches)
    ensures !(n in next && n !in mapping && n !in u)
  {
  }

  /** After detecting and applying everything, the next detect with the same upstream finds
      nothing to do exactly when no added name has a comma and no upstream name is un-ignored
      because an added name equals an ignore entry. */
  lemma FixedPointIff(models: string, upstream: seq<Name>, ignored: seq<Name>, mapping: map<Name, Name>, matches: Matcher)
    ensures var d := Detect(GetModels(models), upstream, ignored, mapping, matches);
            var o := Applied(models, Settings(d.0, d.1, ignored), d.0, [], d.1);
            Detect(GetModels(o.models), upstream, o.settings.ignored, mapping, matches) == ([], []) <==>
            && (forall n :: n in d.0 ==> ',' !in n)
            && StillIgnored(Normalize(GetModels(models)), Normalize(upstream), Normalize(ignored), d.0, mapping, matches)
  {
    var l, u, g := Normalize(GetModels(models)), Normalize(upstream), Normalize(ignored);
    var d := Detect(GetModels(models), upstream, ignored, mapping, matches);
    DetectFacts(GetModels(models), upstream, ignored, mapping, matches);
    NormalizeCleans(GetModels(models));
    ApplySelectedClean(l, d.0, d.1);
    ApplyAllFacts(models, ignored, d.0, d.1);
    var o := Applied(models, Settings(d.0, d.1, ignored), d.0, [], d.1);
    var d2 := Detect(GetModels(o.models), upstream, o.settings.ignored, mapping, matches);
    var l2, g2 := Normalize(GetModels(o.models)), Normalize(o.settings.ignored);
    DetectFacts(GetModels(o.models), upstream, o.settings.ignored, mapping, matches);
    if n :| n in d.0 && ',' in n {
      AddedWithComma(o.models, g, d.0, n, matches);
      assert n in d2.0;
    } else {
      assert l2 == o.next by {
        forall n | n in o.next ensures ',' !in n {
          if n in l {
            NoCommaInStored(models, n);
          }
        }
        StoredFaithfully(o.next);
      }
      forall n ensures n !in d2.1 {
        SecondDetect(l, u, g, mapping, matches, d.0, d.1, o.next, n);
      }
      forall n ensures n in d2.0 <==> n in u && Uncovered(l, mapping, n) && Ignored(g, n, matches) && !Ignored(g2, n, matches) {
        SecondDetect(l, u, g, mapping, matches, d.0, d.1, o.next, n);
      }
      NoMembers(d2.0);
      NoMembers(d2.1);
    }
  }

  lemma NoMembers(s: seq<Name>)
    ensures s == [] <==> forall n :: n !in s
  {
    if s != [] {
      assert s[0] in s;
    }
  }

  /** A name with a comma is never read back, and stays un-ignored. */
  lemma AddedWithComma(models: string, g: seq<Name>, adds: seq<Name>, n: Name, matches: Matcher)
    requires ',' in n && !Ignored(g, n, matches)
    ensures n !in Normalize(GetModels(models))
    ensures !Ignored(Filter(g, NotIn(adds)), n, matches)
  {
    if n in Normalize(GetModels(models)) {
      NoCommaInStored(models, n);
    }
    forall e | e in Filter(g, NotIn(adds)) ensures !Ignores(e, n, matches) {
      FilterMembers(g, NotIn(adds), e);
    }
  }

  /** It is enough that no added name is itself a stored pattern. */
  lemma NoPatternAdded(local: seq<Name>, upstream: seq<Name>, ignored: seq<Name>, mapping: map<Name, Name>, matches: Matcher)
    requires var adds := Detect(local, upstream, ignored, mapping, matches).0;
             forall n :: n in adds && REGEX <= n ==> n !in Normalize(ignored)
    ensures StillIgnored(Normalize(local), Normalize(upstream), Normalize(ignored),
                         Detect(local, upstream, ignored, mapping, matches).0, mapping, matches)
  {
    var adds, g := Detect(local, upstream, ignored, mapping, matches).0, Normalize(ignored);
    DetectFacts(local, upstream, ignored, mapping, matches);
    forall e | e in g ensures e !in adds {
      assert !(REGEX <= e) ==> Ignores(e, e, matches);
    }
    FilterAll(g, NotIn(adds));
  }

  /** The first failing input: a name with a comma is never read back, so it is found again. */
  lemma CommaIsFoundAgain(n: Name, matches: Matcher)
    requires Neat(n) && ',' in n
    ensures var d := Detect([], [n], [], map[], matches);
            var o := Applied("", Settings(d.0, d.1, []), d.0, [], d.1);
            n in d.0 && Detect(GetModels(o.models), [n], o.settings.ignored, map[], matches) != ([], [])
  {
    var d := Detect([], [n], [], map[], matches);
    NormalizeCleans([n]);
    DetectFacts([], [n], [], map[], matches);
    assert n in Normalize([n]) && n in d.0;
    FixedPointIff("", [n], [], map[], matches);
  }

  /** An ignore entry that keeps a name out alone. */
  ghost predicate OnlyKeptOutBy(g: seq<Name>, entry: Name, n: Name, matches: Matcher) {
    entry in g && Ignores(entry, n, matches) && forall e :: e in g && e != entry ==> !Ignores(e, n, matches)
  }

  lemma WithoutItsPattern(l: seq<Name>, u: seq<Name>, g: seq<Name>, adds: seq<Name>, mapping: map<Name, Name>, matches: Matcher, entry: Name, n: Name)
    requires entry in adds && n in u && Uncovered(l, mapping, n) && OnlyKeptOutBy(g, entry, n, matches)
    ensures !StillIgnored(l, u, g, adds, mapping, matches)
  {
    forall e | e in Filter(g, NotIn(adds)) ensures !Ignores(e, n, matches) {
      FilterMembers(g, NotIn(adds), e);
    }
  }

  /** The second family of failing inputs: the detect adds a name that is also a stored pattern.
      Applying it drops the pattern, and a name kept out by it alone is found. */
  lemma DroppedPatternLetsIn(models: string, upstream: seq<Name>, ignored: seq<Name>, mapping: map<Name, Name>, matches: Matcher, entry: Name, n: Name)
    requires entry in Detect(GetModels(models), upstream, ignored, mapping, matches).0
    requires n in Normalize(upstream) && Uncovered(Normalize(GetModels(models)), mapping, n)
    requires OnlyKeptOutBy(Normalize(ignored), entry, n, matches)
    ensures var d := Detect(GetModels(models), upstream, ignored, mapping, matches);
            var o := Applied(models, Settings(d.0, d.1, ignored), d.0, [], d.1);
            Detect(GetModels(o.models), upstream, o.settings.ignored, mapping, matches) != ([], [])
  {
    var d := Detect(GetModels(models), upstream, ignored, mapping, matches);
    WithoutItsPattern(Normalize(GetModels(models)), Normalize(upstream), Normalize(ignored), d.0, mapping, matches, entry, n);
    FixedPointIff(models, upstream, ignored, mapping, matches);
  }

  lemma PatternIsAdded(local: seq<Name>, upstream: seq<Name>, ignored: seq<Name>, entry: Name, n: Name, matches: Matcher)
    requires Normalize(local) == [] && Clean(upstream) && Clean(ignored) && entry in upstream && n in upstream && entry in ignored
    requires forall e :: e in ignored ==> e == entry
    requires Ignores(entry, n, matches) && !Ignores(entry, entry, matches)
    ensures Normalize(upstream) == upstream && Normalize(ignored) == ignored
    ensures var adds := Detect(local, upstream, ignored, map[], matches).0; entry in adds && n !in adds
  {
    NormalizeCleans(upstream);
    NormalizeCleans(ignored);
    DetectFacts(local, upstream, ignored, map[], matches);
  }

  /** The smallest of them: no local models, a pattern that matches some name but not its own text
      as the only ignore entry, and both names upstream. */
  lemma PatternIsDropped(models: string, upstream: seq<Name>, ignored: seq<Name>, entry: Name, n: Name, matches: Matcher)
    requires Normalize(GetModels(models)) == [] && Clean(upstream) && Clean(ignored)
    requires entry in upstream && n in upstream && entry in ignored && forall e :: e in ignored ==> e == entry
    requires Ignores(entry, n, matches) && !Ignores(entry, entry, matches)
    ensures var d := Detect(GetModels(models), upstream, ignored, map[], matches);
            var o := Applied(models, Settings(d.0, d.1, ignored), d.0, [], d.1);
            n !in d.0 && Detect(GetModels(o.models), upstream, o.settings.ignored, map[], matches) != ([], [])
  {
    PatternIsAdded(GetModels(models), upstream, ignored, entry, n, matches);
    DroppedPatternLetsIn(models, upstream, ignored, map[], matches, entry, n);
  }

  // ---------------------------------------------------------------- the imperative form

  /** The names of a list, collected one by one. */
  method Collect(s: seq<Name>) returns (names: set<Name>)
    ensures forall n :: n in names <==> n in s
  {
    names := {};
    for i := 0 to |s|
      invariant forall n :: n in names <==> n in s[..i]
    {
      names := names + {s[i]};
      assert s[..i + 1] == s[..i] + [s[i]];
    }
    assert s[..|s|] == s;
  }

  /** Appends the names not seen yet. */
  method AppendUnseen(front: seq<Name>, back: seq<Name>) returns (merged: seq<Name>)
    requires Distinct(back)
    ensures merged == front + Filter(back, NotIn(front))
  {
    merged := front;
    var seen := Collect(merged);
    for i := 0 to |back|
      invariant merged == front + Filter(back[..i], NotIn(front))
      invariant forall n :: n in seen <==> n in front || n in back[..i]
    {
      assert back[..i + 1][..i] == back[..i];
      assert back[i] !in back[..i];
      if back[i] !in seen {
        merged := merged + [back[i]];
      }
      seen := seen + {back[i]};
      assert back[..i + 1] == back[..i] + [back[i]];
    }
    assert back[..|back|] == back;
  }

  method MergeModelNames(base: seq<Name>, appended: seq<Name>) returns (merged: seq<Name>)
    ensures merged == Merge(base, appended)
  {
    NormalizeCleans(appended);
    merged := AppendUnseen(Normalize(base), Normalize(appended));
  }

  method SubtractModelNames(base: seq<Name>, removed: seq<Name>) returns (kept: seq<Name>)
    ensures kept == Subtract(base, removed)
  {
    var removeSet := Collect(Normalize(removed));
    var keep := (n: Name) => n !in removeSet;
    kept := Filter(Normalize(base), keep);
    FilterSame(Normalize(base), keep, NotIn(Normalize(removed)));
  }

  method IntersectModelNames(base: seq<Name>, allowed: seq<Name>) returns (kept: seq<Name>)
    ensures kept == Intersect(base, allowed)
  {
    var allowedSet := Collect(Normalize(allowed));
    var keep := (n: Name) => n in allowedSet;
    kept := Filter(Normalize(base), keep);
    FilterSame(Normalize(base), keep, In(Normalize(allowed)));
  }

  method ApplySelectedModelChanges(origin: seq<Name>, add: seq<Name>, remove: seq<Name>) returns (next: seq<Name>)
    ensures next == ApplySelected(origin, add, remove)
  {
    var normalizedAdd := Normalize(add);
    var normalizedRemove := SubtractModelNames(Normalize(remove), normalizedAdd);
    var merged := MergeModelNames(origin, normalizedAdd);
    next := SubtractModelNames(merged, normalizedRemove);
  }

  method RedirectSets(modelMapping: map<Name, Name>) returns (sourceSet: set<Name>, targetSet: set<Name>)
    ensures sourceSet == modelMapping.Keys
    ensures forall t :: t in targetSet <==> exists k :: k in modelMapping && modelMapping[k] == t
  {
    sourceSet, targetSet := {}, {};
    var sources := modelMapping.Keys;
    while sources != {}
      invariant sources <= modelMapping.Keys && sourceSet == modelMapping.Keys - sources
      invariant forall t :: t in targetSet <==> exists k :: k in modelMapping && k !in sources && modelMapping[k] == t
    {
      var source :| source in sources;
      sources := sources - {source};
      sourceSet, targetSet := sourceSet + {source}, targetSet + {modelMapping[source]};
    }
  }

  /** The two filters, on lists that are normalised already. */
  method PendingOf(local: seq<Name>, upstream: seq<Name>, ignored: seq<Name>, modelMapping: map<Name, Name>, matches: Matcher)
    returns (pendingAdd: seq<Name>, pendingRemove: seq<Name>)
    ensures pendingAdd == Filter(upstream, Addable(local, ignored, modelMapping, matches))
    ensures pendingRemove == Filter(local, Removable(upstream, modelMapping))
  {
    var localSet := Collect(local);
    var upstreamSet := Collect(upstream);
    var redirectSourceSet, redirectTargetSet := RedirectSets(modelMapping);
    var coveredUpstreamSet := localSet + redirectTargetSet;
    assert forall n :: n in coveredUpstreamSet <==> !Uncovered(local, modelMapping, n);
    var addable := (n: Name) => n !in coveredUpstreamSet && !Ignored(ignored, n, matches);
    var removable := (n: Name) => n !in redirectSourceSet && n !in upstreamSet;
    FilterSame(upstream, addable, Addable(local, ignored, modelMapping, matches));
    FilterSame(local, removable, Removable(upstream, modelMapping));
    pendingAdd, pendingRemove := Filter(upstream, addable), Filter(local, removable);
  }

  method CollectPendingUpstreamModelChanges(localModels: seq<Name>, upstreamModels: seq<Name>, ignoredModels: seq<Name>, modelMapping: map<Name, Name>, matches: Matcher)
    returns (pendingAdd: seq<Name>, pendingRemove: seq<Name>)
    ensures (pendingAdd, pendingRemove) == Detect(localModels, upstreamModels, ignoredModels, modelMapping, matches)
  {
    pendingAdd, pendingRemove := PendingOf(Normalize(localModels), Normalize(upstreamModels), Normalize(ignoredModels), modelMapping, matches);
    pendingAdd, pendingRemove := Normalize(pendingAdd), Normalize(pendingRemove);
  }

  /** The computation of applyChannelUpstreamModelUpdates, before anything is stored. */
  method Select(models: string, s: Settings, addInput: seq<Name>, ignoreInput: seq<Name>, removeInput: seq<Name>) returns (o: Outcome)
    ensures o == Applied(models, s, addInput, ignoreInput, removeInput)
  {
    var pendingAdd, pendingRemove := Normalize(s.detected), Normalize(s.removed);
    var add := IntersectModelNames(addInput, pendingAdd);
    var ignore := IntersectModelNames(ignoreInput, pendingAdd);
    var remove := IntersectModelNames(removeInput, pendingRemove);
    remove := SubtractModelNames(remove, add);
    var origin := Normalize(GetModels(models));
    var next := ApplySelectedModelChanges(origin, add, remove);
    var changed := origin != next;
    var nextModels := models;
    if changed {
      nextModels := Join(next, ',');
    }
    var ignored := MergeModelNames(s.ignored, ignore);
    if |add| > 0 {
      ignored := SubtractModelNames(ignored, add);
    }
    var remaining := SubtractModelNames(pendingAdd, add + ignore);
    var remainingRemove := SubtractModelNames(pendingRemove, remove);
    o := Outcome(add, remove, remaining, remainingRemove, next, changed, nextModels, Settings(remaining, remainingRemove, ignored));
  }

  /** A channel in memory and its database row; the time of the last check is part of the
      settings the source stores. */
  class Channel {
    var models: string
    var settings: Settings
    var checkedAt: int
    var storedModels: string
    var storedSettings: Settings
    var storedCheckedAt: int

    constructor (models: string, settings: Settings, checkedAt: int)
      ensures this.models == storedModels == models && this.settings == storedSettings == settings
      ensures this.checkedAt == storedCheckedAt == checkedAt
    {
      this.models, this.settings, this.checkedAt := models, settings, checkedAt;
      storedModels, storedSettings, storedCheckedAt := models, settings, checkedAt;
    }

    /** updateChannelUpstreamModelSettings: the model list is written only when it changed. */
    method UpdateSettings(next: Settings, now: int, updateModels: bool, writeOk: bool)
      modifies this
      ensures settings == next && checkedAt == now && models == old(models)
      ensures (storedSettings, storedCheckedAt) == if writeOk then (next, now) else old((storedSettings, storedCheckedAt))
      ensures storedModels == if writeOk && updateModels then models else old(storedModels)
    {
      settings, checkedAt := next, now;
      if writeOk {
        storedSettings, storedCheckedAt := next, now;
        if updateModels {
          storedModels := models;
        }
      }
    }

    /** `abilitiesOk` is the outcome of UpdateAbilities, which runs only when the list changed; its
        failure is reported beside the results of the stored update. */
    method ApplyUpstreamModelUpdates(addInput: seq<Name>, ignoreInput: seq<Name>, removeInput: seq<Name>, now: int, writeOk: bool, abilitiesOk: bool)
      returns (added: seq<Name>, removed: seq<Name>, remaining: seq<Name>, remainingRemove: seq<Name>, changed: bool, failed: bool)
      modifies this
      ensures var o := Applied(old(models), old(settings), addInput, ignoreInput, removeInput);
              && models == o.models && settings == o.settings && checkedAt == now
              && (failed <==> !writeOk || (o.changed && !abilitiesOk))
              && (writeOk ==>
                    && (added, removed, remaining, remainingRemove, changed) == (o.added, o.removed, o.remaining, o.remainingRemove, o.changed)
                    && (storedSettings, storedCheckedAt) == (settings, now)
                    && storedModels == (if o.changed then models else old(storedModels)))
              && (!writeOk ==>
                    && (added, removed, remaining, remainingRemove, changed) == ([], [], [], [], false)
                    && (storedSettings, storedCheckedAt, storedModels) == old((storedSettings, storedCheckedAt, storedModels)))
    {
      var o := Select(models, settings, addInput, ignoreInput, removeInput);
      models := o.models;
      UpdateSettings(o.settings, now, o.changed, writeOk);
      if !writeOk {
        return [], [], [], [], false, true;
      }
      return o.added, o.removed, o.remaining, o.remainingRemove, o.changed, o.changed && !abilitiesOk;
    }
  }
}
