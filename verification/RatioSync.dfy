/**
 * Pricing synchronisation: the report of every model and field whose price
 * differs between this site and the upstream channels
 * (controller/ratio_sync.go).
 */
module RatioSync {
  import opened Basics

  datatype Field =
    | ModelRatio | CompletionRatio | CacheRatio | CreateCacheRatio | ImageRatio
    | AudioRatio | AudioCompletionRatio | ModelPrice | BillingMode | BillingExpr

  const PRICING_SYNC_FIELDS: seq<Field> := [
    ModelRatio, CompletionRatio, CacheRatio, CreateCacheRatio, ImageRatio,
    AudioRatio, AudioCompletionRatio, ModelPrice, BillingMode, BillingExpr]

  /** What a decoded JSON document can hold at a price: null, a number, text or a flag. */
  datatype Value = Nil | Num(x: real) | Str(s: string) | Flag(b: bool)

  type Model = string
  type Prices = map<Field, map<Model, Value>>

  datatype Channel = Channel(name: string, data: Prices)

  /** dto.DifferenceItem */
  datatype Item = Item(current: Value, upstreams: map<string, Value>, confidence: map<string, bool>)

  type Report = map<Model, map<Field, Item>>

  const SAME := Str("same")
  const FLOAT_EPSILON := 0.000000001

  predicate NearlyEqual(a: real, b: real) {
    if a > b then a - b < FLOAT_EPSILON else b - a < FLOAT_EPSILON
  }

  predicate ValuesEqual(a: Value, b: Value) {
    if a.Num? && b.Num? then NearlyEqual(a.x, b.x) else a == b
  }

  function Supplied(data: Prices, f: Field, m: Model): Option<Value> {
    if f in data && m in data[f] then Some(data[f][m]) else None
  }

  function Local(data: Prices, f: Field, m: Model): Value {
    if f in data && m in data[f] then data[f][m] else Nil
  }

  /** What the report writes for a channel: the marker "same", the channel's value, or nothing. */
  function Mark(here: Value, there: Option<Value>): Value {
    match there
    case None => if here == Nil then SAME else Nil
    case Some(v) => if ValuesEqual(here, v) then SAME else v
  }

  predicate Proper(mark: Value) {
    mark != Nil && mark != SAME
  }

  /** A channel whose model_ratio is 37.5 and completion_ratio is 1 shows placeholder prices. */
  predicate Trusted(data: Prices, m: Model) {
    var ratio, completion := Local(data, ModelRatio, m), Local(data, CompletionRatio, m);
    !(ratio.Num? && completion.Num? && NearlyEqual(ratio.x, 37.5) && NearlyEqual(completion.x, 1.0))
  }

  function Names(channels: seq<Channel>): set<string> {
    set c | c in channels :: c.name
  }

  /** The last channel of a name: it overwrites the ones before it. */
  function Last(channels: seq<Channel>, name: string): (c: Channel)
    requires name in Names(channels)
    ensures c in channels && c.name == name
  {
    var last := channels[|channels| - 1];
    if last.name == name then last else Last(channels[..|channels| - 1], name)
  }

  // ---- The report, pass by pass ---------------------------------------------

  predicate CountsAsDifference(here: Value, there: Option<Value>) {
    there.Some? && !ValuesEqual(here, there.value) && (here != Nil || there.value != SAME)
  }

  predicate HasDifference(channels: seq<Channel>, here: Value, f: Field, m: Model) {
    exists c | c in channels :: CountsAsDifference(here, Supplied(c.data, f, m))
  }

  predicate HasUpstreamValue(channels: seq<Channel>, f: Field, m: Model) {
    exists c | c in channels :: Supplied(c.data, f, m).Some?
  }

  predicate Included(local: Prices, channels: seq<Channel>, f: Field, m: Model) {
    var here := Local(local, f, m);
    if here != Nil then HasDifference(channels, here, f, m) else HasUpstreamValue(channels, f, m)
  }

  function Marks(channels: seq<Channel>, here: Value, f: Field, m: Model): map<string, Value> {
    map name | name in Names(channels) :: Mark(here, Supplied(Last(channels, name).data, f, m))
  }

  function Confidence(channels: seq<Channel>, m: Model): map<string, bool> {
    map name | name in Names(channels) :: Trusted(Last(channels, name).data, m)
  }

  function Entry(local: Prices, channels: seq<Channel>, f: Field, m: Model): Item {
    var here := Local(local, f, m);
    Item(here, Marks(channels, here, f, m), Confidence(channels, m))
  }

  function Row(local: Prices, channels: seq<Channel>, m: Model): map<Field, Item> {
    map f: Field | Included(local, channels, f, m) :: Entry(local, channels, f, m)
  }

  function ModelsOf(data: Prices): set<Model> {
    set f, m | f in data && m in data[f] :: m
  }

  function AllModels(local: Prices, channels: seq<Channel>): set<Model> {
    ModelsOf(local) + set c, m | c in channels && m in ModelsOf(c.data) :: m
  }

  /** The report before the clean-up. */
  function Found(local: Prices, channels: seq<Channel>): Report {
    map m | m in AllModels(local, channels) && Row(local, channels, m) != map[] :: Row(local, channels, m)
  }

  predicate DiffersAt(item: Item, name: string) {
    name in item.upstreams && Proper(item.upstreams[name])
  }

  /** channelHasDiff */
  function Flags(found: Report): set<string> {
    set m, f, name | m in found && f in found[m] && name in found[m][f].upstreams && DiffersAt(found[m][f], name) :: name
  }

  function Trimmed(item: Item, flags: set<string>): Item {
    var gone := item.upstreams.Keys - flags;
    Item(item.current, item.upstreams - gone, item.confidence - gone)
  }

  predicate Kept(item: Item) {
    exists name | name in item.upstreams :: item.upstreams[name] != SAME
  }

  function CleanRow(row: map<Field, Item>, flags: set<string>): map<Field, Item> {
    map f | f in row && Kept(Trimmed(row[f], flags)) :: Trimmed(row[f], flags)
  }

  function Clean(found: Report, flags: set<string>): Report {
    map m | m in found && CleanRow(found[m], flags) != map[] :: CleanRow(found[m], flags)
  }

  function Differences(local: Prices, channels: seq<Channel>): Report {
    var found := Found(local, channels);
    Clean(found, Flags(found))
  }

  // ---- What the report says ---------------------------------------------------

  predicate Reports(d: Report, f: Field, m: Model) {
    m in d && f in d[m]
  }

  predicate Has(data: Prices, f: Field, m: Model) {
    f in data && m in data[f]
  }

  /** Two prices are the same: numbers less than 1e-9 apart, or identical values. */
  predicate SamePrice(a: Value, b: Value) {
    if a.Num? && b.Num? then -0.000000001 < a.x - b.x < 0.000000001 else a == b
  }

  /** The channel supplies a price that is not the local one; without a local price, any but null. */
  predicate Disagrees(local: Prices, c: Channel, f: Field, m: Model) {
    Has(c.data, f, m) && !SamePrice(if Has(local, f, m) then local[f][m] else Nil, c.data[f][m])
  }

  lemma DisagreesIff(local: Prices, c: Channel, f: Field, m: Model)
    ensures var there := Supplied(c.data, f, m);
      Disagrees(local, c, f, m) <==> there.Some? && !ValuesEqual(Local(local, f, m), there.value)
  {
  }

  /** What stands for a channel in an entry: its own price if it disagrees, the text "same" if it
      agrees or neither side has a price, nothing if only this site has one. */
  predicate StandsFor(mark: Value, local: Prices, c: Channel, f: Field, m: Model) {
    if Has(c.data, f, m) then mark == if Disagrees(local, c, f, m) then c.data[f][m] else Str("same")
    else mark == if Has(local, f, m) && local[f][m] != Nil then Nil else Str("same")
  }

  lemma MarkStandsFor(local: Prices, c: Channel, f: Field, m: Model)
    ensures StandsFor(Mark(Local(local, f, m), Supplied(c.data, f, m)), local, c, f, m)
  {
    DisagreesIff(local, c, f, m);
  }

  /** The channel shows 37.5 and 1 for the model, up to 1e-9: prices nobody has set. */
  predicate ShowsPlaceholder(data: Prices, m: Model) {
    && Has(data, ModelRatio, m) && Has(data, CompletionRatio, m)
    && SamePrice(data[ModelRatio][m], Num(37.5)) && SamePrice(data[CompletionRatio][m], Num(1.0))
  }

  lemma TrustedIff(data: Prices, m: Model)
    ensures Trusted(data, m) <==> !ShowsPlaceholder(data, m)
  {
  }

  ghost predicate DisagreesSomewhere(local: Prices, c: Channel) {
    exists f, m :: Disagrees(local, c, f, m)
  }

  predicate DistinctNames(channels: seq<Channel>) {
    forall i, j | 0 <= i < j < |channels| :: channels[i].name != channels[j].name
  }

  /** Every supplied price is a number, a flag or a text other than the marker. */
  predicate Unambiguous(channels: seq<Channel>) {
    forall c | c in channels :: forall f | f in c.data :: forall m | m in c.data[f] :: Proper(c.data[f][m])
  }

  lemma IncludedIsKnown(local: Prices, channels: seq<Channel>, f: Field, m: Model)
    requires Included(local, channels, f, m)
    ensures m in AllModels(local, channels)
  {
    var c :| c in channels && Supplied(c.data, f, m).Some?;
    assert m in ModelsOf(c.data);
  }

  lemma FoundIff(local: Prices, channels: seq<Channel>, f: Field, m: Model)
    ensures var found := Found(local, channels);
      && (Reports(found, f, m) <==> Included(local, channels, f, m))
      && (Reports(found, f, m) ==> found[m][f] == Entry(local, channels, f, m))
  {
    var row := Row(local, channels, m);
    assert f in row <==> Included(local, channels, f, m);
    if f in row {
      IncludedIsKnown(local, channels, f, m);
    }
  }

  /** The last channel with this name shows a price of its own somewhere. */
  ghost predicate ShowsSomewhere(local: Prices, channels: seq<Channel>, name: string)
    requires name in Names(channels)
  {
    exists f, m :: Shows(local, channels, name, f, m)
  }

  /** The last channel with this name disagrees with a price other than null and "same". */
  predicate Shows(local: Prices, channels: seq<Channel>, name: string, f: Field, m: Model)
    requires name in Names(channels)
  {
    var c := Last(channels, name);
    Disagrees(local, c, f, m) && c.data[f][m] != Nil && c.data[f][m] != Str("same")
  }

  lemma ShowsIff(local: Prices, channels: seq<Channel>, name: string, f: Field, m: Model)
    requires name in Names(channels)
    ensures Shows(local, channels, name, f, m) <==> Proper(Mark(Local(local, f, m), Supplied(Last(channels, name).data, f, m)))
  {
    MarkStandsFor(local, Last(channels, name), f, m);
  }

  lemma DisagreementIsIncluded(local: Prices, channels: seq<Channel>, c: Channel, f: Field, m: Model)
    requires c in channels && Disagrees(local, c, f, m)
    ensures Included(local, channels, f, m)
  {
    DisagreesIff(local, c, f, m);
  }

  lemma FlagsIff(local: Prices, channels: seq<Channel>, name: string)
    ensures name in Flags(Found(local, channels)) <==> name in Names(channels) && ShowsSomewhere(local, channels, name)
  {
    var found := Found(local, channels);
    if name in Flags(found) {
      var m, f :| m in found && f in found[m] && DiffersAt(found[m][f], name);
      FoundIff(local, channels, f, m);
      ShowsIff(local, channels, name, f, m);
    }
    if name in Names(channels) && ShowsSomewhere(local, channels, name) {
      var f, m :| Shows(local, channels, name, f, m);
      DisagreementIsIncluded(local, channels, Last(channels, name), f, m);
      ShowsIff(local, channels, name, f, m);
      FoundIff(local, channels, f, m);
      assert DiffersAt(found[m][f], name);
    }
  }

  lemma CleanIff(found: Report, flags: set<string>, f: Field, m: Model)
    ensures var d := Clean(found, flags);
      && (Reports(d, f, m) <==> Reports(found, f, m) && Kept(Trimmed(found[m][f], flags)))
      && (Reports(d, f, m) ==> d[m][f] == Trimmed(found[m][f], flags))
  {
    if Reports(found, f, m) && Kept(Trimmed(found[m][f], flags)) {
      assert f in CleanRow(found[m], flags);
    }
  }

  /** Whether the last channel with this name is listed for (f, m), and not as "same": it shows a
      price somewhere, and here it disagrees with something else than that text, or has no price
      beside a local one. */
  ghost predicate Stands(local: Prices, channels: seq<Channel>, name: string, f: Field, m: Model)
    requires name in Names(channels)
  {
    var c := Last(channels, name);
    && ShowsSomewhere(local, channels, name)
    && (if Has(c.data, f, m) then Disagrees(local, c, f, m) && c.data[f][m] != Str("same")
        else Has(local, f, m) && local[f][m] != Nil)
  }

  /** An entry: the local price, and exactly the channels that show a price of their own somewhere,
      each as it should stand there and trusted unless it shows placeholders. */
  ghost predicate ListsShown(local: Prices, channels: seq<Channel>, item: Item, f: Field, m: Model) {
    && item.current == (if Has(local, f, m) then local[f][m] else Nil)
    && item.upstreams.Keys == item.confidence.Keys <= Names(channels)
    && forall name | name in Names(channels) :: ListsName(local, channels, item, name, f, m)
  }

  ghost predicate ListsName(local: Prices, channels: seq<Channel>, item: Item, name: string, f: Field, m: Model)
    requires name in Names(channels)
  {
    && (name in item.upstreams <==> ShowsSomewhere(local, channels, name))
    && (name in item.upstreams ==>
      && StandsFor(item.upstreams[name], local, Last(channels, name), f, m)
      && name in item.confidence && (item.confidence[name] <==> !ShowsPlaceholder(Last(channels, name).data, m)))
  }

  ghost predicate FlagsShown(local: Prices, channels: seq<Channel>, flags: set<string>) {
    forall name :: name in flags <==> name in Names(channels) && ShowsSomewhere(local, channels, name)
  }

  lemma TrimmedLists(local: Prices, channels: seq<Channel>, flags: set<string>, f: Field, m: Model)
    requires FlagsShown(local, channels, flags)
    ensures ListsShown(local, channels, Trimmed(Entry(local, channels, f, m), flags), f, m)
  {
    var item := Trimmed(Entry(local, channels, f, m), flags);
    forall name | name in Names(channels) ensures ListsName(local, channels, item, name, f, m) {
      MarkStandsFor(local, Last(channels, name), f, m);
      TrustedIff(Last(channels, name).data, m);
    }
  }

  lemma NameStandsIff(local: Prices, channels: seq<Channel>, item: Item, name: string, f: Field, m: Model)
    requires name in Names(channels) && ListsName(local, channels, item, name, f, m)
    ensures name in item.upstreams && item.upstreams[name] != SAME <==> Stands(local, channels, name, f, m)
  {
  }

  /** What is left of an entry that lists what is shown. */
  lemma KeptIff(local: Prices, channels: seq<Channel>, item: Item, f: Field, m: Model)
    requires ListsShown(local, channels, item, f, m)
    ensures Kept(item) <==> exists name | name in Names(channels) :: Stands(local, channels, name, f, m)
  {
    forall name | name in Names(channels)
      ensures name in item.upstreams && item.upstreams[name] != SAME <==> Stands(local, channels, name, f, m)
    {
      NameStandsIff(local, channels, item, name, f, m);
    }
    assert forall name | name in item.upstreams :: name in Names(channels);
  }

  lemma SomeoneDisagrees(local: Prices, channels: seq<Channel>, f: Field, m: Model, name: string)
    requires Included(local, channels, f, m) && name in Names(channels) && Stands(local, channels, name, f, m)
    ensures exists c | c in channels :: Disagrees(local, c, f, m)
  {
    var here := Local(local, f, m);
    if here == Nil {
      assert Disagrees(local, Last(channels, name), f, m);
    } else {
      var c :| c in channels && CountsAsDifference(here, Supplied(c.data, f, m));
      DisagreesIff(local, c, f, m);
    }
  }

  /** For every input: what is reported, whom the entry lists, and how. */
  lemma ReportedIff(local: Prices, channels: seq<Channel>, f: Field, m: Model)
    ensures var d := Differences(local, channels);
      && (Reports(d, f, m) <==>
          && (exists c | c in channels :: Disagrees(local, c, f, m))
          && (exists name | name in Names(channels) :: Stands(local, channels, name, f, m)))
      && (Reports(d, f, m) ==> ListsShown(local, channels, d[m][f], f, m))
  {
    var found := Found(local, channels);
    var flags := Flags(found);
    FoundIff(local, channels, f, m);
    CleanIff(found, flags, f, m);
    forall name ensures name in flags <==> name in Names(channels) && ShowsSomewhere(local, channels, name) {
      FlagsIff(local, channels, name);
    }
    TrimmedLists(local, channels, flags, f, m);
    KeptIff(local, channels, Trimmed(Entry(local, channels, f, m), flags), f, m);
    IncludedAndStandingIff(local, channels, f, m);
  }

  lemma IncludedAndStandingIff(local: Prices, channels: seq<Channel>, f: Field, m: Model)
    ensures var standing := exists name | name in Names(channels) :: Stands(local, channels, name, f, m);
      Included(local, channels, f, m) && standing <==> (exists c | c in channels :: Disagrees(local, c, f, m)) && standing
  {
    if c :| c in channels && Disagrees(local, c, f, m) {
      DisagreementIsIncluded(local, channels, c, f, m);
    }
    if Included(local, channels, f, m) {
      if name :| name in Names(channels) && Stands(local, channels, name, f, m) {
        SomeoneDisagrees(local, channels, f, m, name);
      }
    }
  }

  // ---- Distinct names and unambiguous prices ----------------------------------

  lemma LastIsOnly(channels: seq<Channel>, c: Channel)
    requires DistinctNames(channels) && c in channels
    ensures c.name in Names(channels) && Last(channels, c.name) == c
  {
    assert c.name in Names(channels);
    var last := Last(channels, c.name);
    var i, j :| 0 <= i < |channels| && 0 <= j < |channels| && channels[i] == c && channels[j] == last;
    assert i == j;
  }

  lemma DisagreementShows(local: Prices, channels: seq<Channel>, c: Channel, f: Field, m: Model)
    requires DistinctNames(channels) && Unambiguous(channels) && c in channels
    ensures c.name in Names(channels)
    ensures Shows(local, channels, c.name, f, m) <==> Disagrees(local, c, f, m)
  {
    LastIsOnly(channels, c);
  }

  lemma IncludedIff(local: Prices, channels: seq<Channel>, f: Field, m: Model)
    requires DistinctNames(channels) && Unambiguous(channels)
    ensures Included(local, channels, f, m) <==> exists c | c in channels :: Disagrees(local, c, f, m)
  {
    if Included(local, channels, f, m) {
      var c :| c in channels && Supplied(c.data, f, m).Some? && !ValuesEqual(Local(local, f, m), Supplied(c.data, f, m).value);
      DisagreesIff(local, c, f, m);
    }
    if c :| c in channels && Disagrees(local, c, f, m) {
      DisagreementIsIncluded(local, channels, c, f, m);
    }
  }

  lemma ShownIff(local: Prices, channels: seq<Channel>, c: Channel)
    requires DistinctNames(channels) && Unambiguous(channels) && c in channels
    ensures c.name in Names(channels)
    ensures ShowsSomewhere(local, channels, c.name) <==> DisagreesSomewhere(local, c)
  {
    forall f, m ensures Shows(local, channels, c.name, f, m) <==> Disagrees(local, c, f, m) {
      DisagreementShows(local, channels, c, f, m);
    }
  }

  /** An entry: the local price, exactly the channels that disagree somewhere, each with its mark. */
  ghost predicate ListsDisagreeing(local: Prices, channels: seq<Channel>, item: Item, f: Field, m: Model) {
    && item.current == (if Has(local, f, m) then local[f][m] else Nil)
    && item.upstreams.Keys == item.confidence.Keys <= Names(channels)
    && forall c | c in channels ::
      && (c.name in item.upstreams <==> DisagreesSomewhere(local, c))
      && (c.name in item.upstreams ==>
        && StandsFor(item.upstreams[c.name], local, c, f, m)
        && (item.confidence[c.name] <==> !ShowsPlaceholder(c.data, m)))
  }

  /**
   * With distinct names and unambiguous prices the report holds exactly the
   * (model, field) pairs some channel disagrees on, and each entry lists
   * exactly the channels that disagree somewhere.
   */
  lemma ReportIsExact(local: Prices, channels: seq<Channel>, f: Field, m: Model)
    requires DistinctNames(channels) && Unambiguous(channels)
    ensures var d := Differences(local, channels);
      && (Reports(d, f, m) <==> exists c | c in channels :: Disagrees(local, c, f, m))
      && (Reports(d, f, m) ==> ListsDisagreeing(local, channels, d[m][f], f, m))
  {
    ReportedIff(local, channels, f, m);
    if c :| c in channels && Disagrees(local, c, f, m) {
      DisagreementShows(local, channels, c, f, m);
      assert Stands(local, channels, c.name, f, m);
    }
    forall c | c in channels
      ensures c.name in Names(channels) && Last(channels, c.name) == c
      ensures ShowsSomewhere(local, channels, c.name) <==> DisagreesSomewhere(local, c)
    {
      LastIsOnly(channels, c);
      ShownIff(local, channels, c);
    }
  }

  /** Under the same conditions the clean-up drops channels but never an entry. */
  lemma CleanUpKeepsEntries(local: Prices, channels: seq<Channel>, f: Field, m: Model)
    requires DistinctNames(channels) && Unambiguous(channels)
    ensures Reports(Differences(local, channels), f, m) <==> Reports(Found(local, channels), f, m)
  {
    ReportIsExact(local, channels, f, m);
    IncludedIff(local, channels, f, m);
    FoundIff(local, channels, f, m);
  }

  /** For every input: whatever is reported, some channel disagrees on it. */
  lemma NeverOverReports(local: Prices, channels: seq<Channel>, f: Field, m: Model)
    requires Reports(Differences(local, channels), f, m)
    ensures exists c | c in channels :: Disagrees(local, c, f, m)
  {
    ReportedIff(local, channels, f, m);
  }

  lemma NotReported(local: Prices, channels: seq<Channel>, f: Field, m: Model)
    requires forall name | name in Names(channels) :: !Stands(local, channels, name, f, m)
    ensures !Reports(Differences(local, channels), f, m)
  {
    ReportedIff(local, channels, f, m);
  }

  /** A channel whose text is the marker itself disagrees and goes unreported. */
  lemma MarkerIsLost(local: Prices, name: string, m: Model)
    requires Has(local, BillingMode, m) ==> local[BillingMode][m] != Str("same")
    ensures var c := Channel(name, map[BillingMode := map[m := Str("same")]]);
      Disagrees(local, c, BillingMode, m) && !Reports(Differences(local, [c]), BillingMode, m)
  {
    var c := Channel(name, map[BillingMode := map[m := Str("same")]]);
    LastIsOnly([c], c);
    NotReported(local, [c], BillingMode, m);
  }

  /** A null price beside a local one disagrees and goes unreported. */
  lemma NullIsLost(local: Prices, name: string, m: Model)
    requires Has(local, ModelPrice, m) && local[ModelPrice][m] != Nil
    ensures var c := Channel(name, map[ModelPrice := map[m := Nil]]);
      Disagrees(local, c, ModelPrice, m) && !Reports(Differences(local, [c]), ModelPrice, m)
  {
    var c := Channel(name, map[ModelPrice := map[m := Nil]]);
    LastIsOnly([c], c);
    assert forall f, other :: !Shows(local, [c], name, f, other);
    NotReported(local, [c], ModelPrice, m);
  }

  /** The channel has no price to show: it supplies none, or equal ones, or null or the marker. */
  ghost predicate ShowsNothing(local: Prices, c: Channel) {
    forall f, m :: Disagrees(local, c, f, m) ==> c.data[f][m] == Nil || c.data[f][m] == Str("same")
  }

  /** A later channel of the same name that has nothing to show hides whatever an earlier one
      supplies. */
  lemma TwinHides(local: Prices, c: Channel, twin: Channel, f: Field, m: Model)
    requires twin.name == c.name && ShowsNothing(local, twin)
    ensures !Reports(Differences(local, [c, twin]), f, m)
  {
    var channels := [c, twin];
    forall name | name in Names(channels) ensures !Stands(local, channels, name, f, m) {
      assert Last(channels, name) == twin;
      assert forall g, other :: !Shows(local, channels, name, g, other);
    }
    NotReported(local, channels, f, m);
  }

  /** So two channels of one name can disagree and go unreported. */
  lemma TwinIsLost(local: Prices, name: string, m: Model, v: Value)
    requires !SamePrice(if Has(local, ModelPrice, m) then local[ModelPrice][m] else Nil, v)
    ensures var c, twin := Channel(name, map[ModelPrice := map[m := v]]), Channel(name, map[]);
      Disagrees(local, c, ModelPrice, m) && !Reports(Differences(local, [c, twin]), ModelPrice, m)
  {
    TwinHides(local, Channel(name, map[ModelPrice := map[m := v]]), Channel(name, map[]), ModelPrice, m);
  }

  // ---- The loops of buildDifferences ------------------------------------------

  lemma FieldsAreAll(f: Field)
    ensures f in PRICING_SYNC_FIELDS
  {
    assert PRICING_SYNC_FIELDS[match f
      case ModelRatio => 0 case CompletionRatio => 1 case CacheRatio => 2 case CreateCacheRatio => 3 case ImageRatio => 4
      case AudioRatio => 5 case AudioCompletionRatio => 6 case ModelPrice => 7 case BillingMode => 8 case BillingExpr => 9] == f;
  }

  method AddModels(data: Prices, seen: set<Model>) returns (models: set<Model>)
    ensures models == seen + ModelsOf(data)
  {
    models := seen;
    for i := 0 to |PRICING_SYNC_FIELDS|
      invariant seen <= models <= seen + ModelsOf(data)
      invariant forall k | 0 <= k < i && PRICING_SYNC_FIELDS[k] in data :: data[PRICING_SYNC_FIELDS[k]].Keys <= models
    {
      var field := PRICING_SYNC_FIELDS[i];
      if field in data {
        models := models + data[field].Keys;
      }
    }
    forall m | m in ModelsOf(data) ensures m in models {
      var f :| f in data && m in data[f];
      FieldsAreAll(f);
    }
  }

  method CollectModels(local: Prices, channels: seq<Channel>) returns (models: set<Model>)
    ensures models == AllModels(local, channels)
  {
    models := AddModels(local, {});
    for i := 0 to |channels|
      invariant models == AllModels(local, channels[..i])
    {
      assert channels[..i + 1] == channels[..i] + [channels[i]];
      models := AddModels(channels[i].data, models);
    }
    assert channels[..|channels|] == channels;
  }

  lemma LastOfMore(channels: seq<Channel>, c: Channel, name: string)
    ensures Names(channels + [c]) == Names(channels) + {c.name}
    ensures name in Names(channels + [c]) ==>
      Last(channels + [c], name) == if name == c.name then c else Last(channels, name)
  {
    assert forall d | d in channels + [c] :: d in channels || d == c;
    assert forall d | d in channels :: d in channels + [c];
    assert c in channels + [c];
    assert (channels + [c])[..|channels|] == channels;
  }

  /** One model of one channel, by way of the two price maps. */
  method IsTrusted(data: Prices, m: Model) returns (trusted: bool)
    ensures trusted == Trusted(data, m)
  {
    trusted := true;
    if ModelRatio in data && CompletionRatio in data {
      if m in data[ModelRatio] && m in data[CompletionRatio] {
        var ratio, completion := data[ModelRatio][m], data[CompletionRatio][m];
        if ratio.Num? && completion.Num? && NearlyEqual(ratio.x, 37.5) && NearlyEqual(completion.x, 1.0) {
          trusted := false;
        }
      }
    }
  }

  method ChannelConfidence(data: Prices, models: set<Model>) returns (confidence: map<Model, bool>)
    ensures confidence == map m | m in models :: Trusted(data, m)
  {
    confidence := map[];
    var rest := models;
    while rest != {}
      invariant rest <= models
      invariant confidence == map m | m in models - rest :: Trusted(data, m)
    {
      var m :| m in rest;
      var trusted := IsTrusted(data, m);
      confidence := confidence[m := trusted];
      rest := rest - {m};
    }
    assert models - rest == models;
  }

  type ConfidenceMap = map<string, map<Model, bool>>

  ghost predicate Confides(confidence: ConfidenceMap, channels: seq<Channel>, models: set<Model>) {
    && confidence.Keys == Names(channels)
    && forall name | name in confidence ::
      confidence[name] == map m | m in models :: Trusted(Last(channels, name).data, m)
  }

  method BuildConfidence(channels: seq<Channel>, models: set<Model>) returns (confidence: ConfidenceMap)
    ensures Confides(confidence, channels, models)
  {
    confidence := map[];
    for i := 0 to |channels|
      invariant Confides(confidence, channels[..i], models)
    {
      var c := channels[i];
      var trusted := ChannelConfidence(c.data, models);
      assert channels[..i + 1] == channels[..i] + [c];
      forall name {
        LastOfMore(channels[..i], c, name);
      }
      confidence := confidence[c.name := trusted];
    }
    assert channels[..|channels|] == channels;
  }

  /** What one channel adds to an entry: its mark, and whether it sets the two flags. */
  method CompareChannel(here: Value, there: Option<Value>) returns (mark: Value, supplied: bool, differs: bool)
    ensures mark == Mark(here, there)
    ensures supplied == there.Some?
    ensures differs == CountsAsDifference(here, there)
  {
    mark, supplied, differs := Nil, false, false;
    if there.Some? {
      mark, supplied := there.value, true;
      if here != Nil && !ValuesEqual(here, mark) {
        differs := true;
      } else if ValuesEqual(here, mark) {
        mark := SAME;
      }
    }
    if mark == Nil && here == Nil {
      mark := SAME;
    }
    if here == Nil && mark != Nil && mark != SAME {
      differs := true;
    }
  }

  ghost predicate ConfidesIn(confidence: ConfidenceMap, channels: seq<Channel>, m: Model) {
    forall name | name in Names(channels) ::
      name in confidence && m in confidence[name] && confidence[name][m] == Trusted(Last(channels, name).data, m)
  }

  ghost predicate Compared(channels: seq<Channel>, here: Value, f: Field, m: Model, upstreams: map<string, Value>, supplied: bool, differs: bool) {
    && upstreams == Marks(channels, here, f, m)
    && supplied == HasUpstreamValue(channels, f, m)
    && differs == HasDifference(channels, here, f, m)
  }

  lemma ComparedMore(channels: seq<Channel>, c: Channel, here: Value, f: Field, m: Model, upstreams: map<string, Value>, supplied: bool, differs: bool)
    requires Compared(channels, here, f, m, upstreams, supplied, differs)
    ensures var there := Supplied(c.data, f, m);
      Compared(channels + [c], here, f, m, upstreams[c.name := Mark(here, there)], supplied || there.Some?, differs || CountsAsDifference(here, there))
  {
    MarksOfMore(channels, c, here, f, m);
    FlagsOfMore(channels, c, here, f, m);
  }

  /** The trust of the channels so far, read from the confidence map. */
  ghost predicate Copied(trusted: map<string, bool>, confidence: ConfidenceMap, channels: seq<Channel>, m: Model) {
    && trusted.Keys == Names(channels)
    && forall name | name in trusted :: name in confidence && m in confidence[name] && trusted[name] == confidence[name][m]
  }

  lemma CopiedMore(trusted: map<string, bool>, confidence: ConfidenceMap, channels: seq<Channel>, c: Channel, m: Model)
    requires Copied(trusted, confidence, channels, m) && c.name in confidence && m in confidence[c.name]
    ensures Copied(trusted[c.name := confidence[c.name][m]], confidence, channels + [c], m)
  {
    LastOfMore(channels, c, c.name);
  }

  lemma CopiedAll(trusted: map<string, bool>, confidence: ConfidenceMap, channels: seq<Channel>, m: Model)
    requires Copied(trusted, confidence, channels, m) && ConfidesIn(confidence, channels, m)
    ensures trusted == Confidence(channels, m)
  {}

  /** The loop body: one more channel, after the channels done so far. */
  method CompareNext(ghost done: seq<Channel>, c: Channel, here: Value, f: Field, m: Model,
                     upstreams: map<string, Value>, hasUpstreamValue: bool, hasDifference: bool)
    returns (more: map<string, Value>, anySupplied: bool, anyDiffers: bool)
    requires Compared(done, here, f, m, upstreams, hasUpstreamValue, hasDifference)
    ensures Compared(done + [c], here, f, m, more, anySupplied, anyDiffers)
  {
    var mark, supplied, differs := CompareChannel(here, Supplied(c.data, f, m));
    ComparedMore(done, c, here, f, m, upstreams, hasUpstreamValue, hasDifference);
    more, anySupplied, anyDiffers := upstreams[c.name := mark], hasUpstreamValue || supplied, hasDifference || differs;
  }

  method CompareAll(local: Prices, channels: seq<Channel>, confidence: ConfidenceMap, f: Field, m: Model) returns (wanted: bool, item: Item)
    requires ConfidesIn(confidence, channels, m)
    ensures wanted == Included(local, channels, f, m)
    ensures item == Entry(local, channels, f, m)
  {
    var here := Local(local, f, m);
    var upstreams: map<string, Value>, trusted: map<string, bool> := map[], map[];
    var hasUpstreamValue, hasDifference := false, false;
    for i := 0 to |channels|
      invariant Compared(channels[..i], here, f, m, upstreams, hasUpstreamValue, hasDifference)
      invariant Copied(trusted, confidence, channels[..i], m)
    {
      var c := channels[i];
      assert channels[..i + 1] == channels[..i] + [c];
      upstreams, hasUpstreamValue, hasDifference :=
        CompareNext(channels[..i], c, here, f, m, upstreams, hasUpstreamValue, hasDifference);
      assert c.name in Names(channels);
      CopiedMore(trusted, confidence, channels[..i], c, m);
      trusted := trusted[c.name := confidence[c.name][m]];
    }
    assert channels[..|channels|] == channels;
    CopiedAll(trusted, confidence, channels, m);
    wanted := if here != Nil then hasDifference else hasUpstreamValue;
    item := Item(here, upstreams, trusted);
  }

  lemma MarksOfMore(channels: seq<Channel>, c: Channel, here: Value, f: Field, m: Model)
    ensures Names(channels + [c]) == Names(channels) + {c.name}
    ensures Marks(channels + [c], here, f, m) == Marks(channels, here, f, m)[c.name := Mark(here, Supplied(c.data, f, m))]
  {
    var more, marks := Marks(channels + [c], here, f, m), Marks(channels, here, f, m)[c.name := Mark(here, Supplied(c.data, f, m))];
    LastOfMore(channels, c, c.name);
    assert more.Keys == marks.Keys;
    forall name | name in more ensures more[name] == marks[name] {
      LastOfMore(channels, c, name);
    }
  }

  lemma FlagsOfMore(channels: seq<Channel>, c: Channel, here: Value, f: Field, m: Model)
    ensures HasUpstreamValue(channels + [c], f, m) <==> HasUpstreamValue(channels, f, m) || Supplied(c.data, f, m).Some?
    ensures HasDifference(channels + [c], here, f, m) <==>
      HasDifference(channels, here, f, m) || CountsAsDifference(here, Supplied(c.data, f, m))
  {
    assert forall d | d in channels + [c] :: d in channels || d == c;
    assert forall d | d in channels :: d in channels + [c];
    assert c in channels + [c];
  }

  method BuildRow(local: Prices, channels: seq<Channel>, confidence: ConfidenceMap, m: Model) returns (row: map<Field, Item>)
    requires ConfidesIn(confidence, channels, m)
    ensures row == Row(local, channels, m)
  {
    row := map[];
    for i := 0 to |PRICING_SYNC_FIELDS|
      invariant forall f | f in row :: Included(local, channels, f, m) && row[f] == Entry(local, channels, f, m)
      invariant forall k | 0 <= k < i && Included(local, channels, PRICING_SYNC_FIELDS[k], m) :: PRICING_SYNC_FIELDS[k] in row
    {
      var wanted, item := CompareAll(local, channels, confidence, PRICING_SYNC_FIELDS[i], m);
      if wanted {
        row := row[PRICING_SYNC_FIELDS[i] := item];
      }
    }
    forall f: Field | Included(local, channels, f, m) ensures f in row {
      FieldsAreAll(f);
    }
  }

  method FindAll(local: Prices, channels: seq<Channel>, models: set<Model>, confidence: ConfidenceMap) returns (found: Report)
    requires models == AllModels(local, channels)
    requires forall m | m in models :: ConfidesIn(confidence, channels, m)
    ensures found == Found(local, channels)
  {
    found := map[];
    var rest := models;
    while rest != {}
      invariant rest <= models
      invariant forall m | m in found :: m in models && found[m] == Row(local, channels, m) != map[]
      invariant forall m | m in models && m !in rest && m !in found :: Row(local, channels, m) == map[]
    {
      var m :| m in rest;
      var row := BuildRow(local, channels, confidence, m);
      if row != map[] {
        found := found[m := row];
      }
      rest := rest - {m};
    }
  }

  method FlagItem(item: Item, flags: set<string>) returns (more: set<string>)
    ensures forall name :: name in more <==> name in flags || DiffersAt(item, name)
  {
    more := flags;
    var rest := item.upstreams.Keys;
    while rest != {}
      invariant rest <= item.upstreams.Keys
      invariant forall name :: name in more <==> name in flags || (name !in rest && DiffersAt(item, name))
    {
      var name :| name in rest;
      if item.upstreams[name] != Nil && item.upstreams[name] != SAME {
        more := more + {name};
      }
      rest := rest - {name};
    }
  }

  ghost predicate DiffersInRow(row: map<Field, Item>, name: string) {
    exists f | f in row :: DiffersAt(row[f], name)
  }

  method FlagRow(row: map<Field, Item>, flags: set<string>) returns (more: set<string>)
    ensures forall name :: name in more <==> name in flags || DiffersInRow(row, name)
  {
    more := flags;
    var rest := row.Keys;
    while rest != {}
      invariant rest <= row.Keys
      invariant forall name :: name in more <==> name in flags || exists f | f in row && f !in rest :: DiffersAt(row[f], name)
    {
      var f :| f in rest;
      more := FlagItem(row[f], more);
      rest := rest - {f};
    }
  }

  method FlagAll(found: Report) returns (flags: set<string>)
    ensures flags == Flags(found)
  {
    flags := {};
    var rest := found.Keys;
    while rest != {}
      invariant rest <= found.Keys
      invariant forall name :: name in flags <==> exists m | m in found && m !in rest :: DiffersInRow(found[m], name)
    {
      var m :| m in rest;
      flags := FlagRow(found[m], flags);
      rest := rest - {m};
    }
    forall name ensures name in flags <==> name in Flags(found) {
      if name in flags {
        var m :| m in found && DiffersInRow(found[m], name);
        var f :| f in found[m] && DiffersAt(found[m][f], name);
      }
    }
  }

  /** Deletes the unflagged channels of one entry, and says whether anything but "same" is left. */
  method TrimItem(item: Item, flags: set<string>) returns (trimmed: Item, allSame: bool)
    ensures trimmed == Trimmed(item, flags)
    ensures allSame == !Kept(trimmed)
  {
    var upstreams, confidence, rest := item.upstreams, item.confidence, item.upstreams.Keys;
    while rest != {}
      invariant rest <= item.upstreams.Keys
      invariant upstreams == item.upstreams - (item.upstreams.Keys - rest - flags)
      invariant confidence == item.confidence - (item.upstreams.Keys - rest - flags)
    {
      var name :| name in rest;
      if name !in flags {
        upstreams, confidence := upstreams - {name}, confidence - {name};
      }
      rest := rest - {name};
    }
    assert item.upstreams.Keys - rest - flags == item.upstreams.Keys - flags;
    trimmed := Item(item.current, upstreams, confidence);
    allSame, rest := true, upstreams.Keys;
    while allSame && rest != {}
      invariant rest <= upstreams.Keys
      invariant forall name | name in upstreams && name !in rest :: allSame ==> upstreams[name] == SAME
      invariant !allSame ==> Kept(trimmed)
      decreases allSame, rest
    {
      var name :| name in rest;
      if upstreams[name] != SAME {
        allSame := false;
      }
      rest := rest - {name};
    }
  }

  method TrimRow(row: map<Field, Item>, flags: set<string>) returns (clean: map<Field, Item>)
    ensures clean == CleanRow(row, flags)
  {
    clean := row;
    var rest := row.Keys;
    while rest != {}
      invariant rest <= row.Keys
      invariant rest <= clean.Keys <= row.Keys
      invariant forall f | f in clean && f !in rest :: Kept(Trimmed(row[f], flags)) && clean[f] == Trimmed(row[f], flags)
      invariant forall f | f in row && f !in clean :: !Kept(Trimmed(row[f], flags))
    {
      var f :| f in rest;
      var item, allSame := TrimItem(row[f], flags);
      if allSame {
        clean := clean - {f};
      } else {
        clean := clean[f := item];
      }
      rest := rest - {f};
    }
  }

  /** Stores a row unless it is empty. */
  function Store(d: Report, m: Model, row: map<Field, Item>): Report {
    if row == map[] then d - {m} else d[m := row]
  }

  /** The models still to be cleaned keep their rows; the others are as in the clean report. */
  ghost predicate HalfClean(d: Report, found: Report, clean: Report, rest: set<Model>) {
    && rest <= d.Keys <= found.Keys
    && forall m | m in found && m !in rest :: if m in clean then m in d && d[m] == clean[m] else m !in d
  }

  predicate Holds(clean: Report, m: Model, row: map<Field, Item>) {
    if row == map[] then m !in clean else m in clean && clean[m] == row
  }

  lemma HalfCleanMore(d: Report, found: Report, clean: Report, rest: set<Model>, m: Model, row: map<Field, Item>)
    requires HalfClean(d, found, clean, rest) && m in rest && Holds(clean, m, row)
    ensures HalfClean(Store(d, m, row), found, clean, rest - {m})
  {}

  lemma CleanHolds(found: Report, flags: set<string>, m: Model)
    requires m in found
    ensures Holds(Clean(found, flags), m, CleanRow(found[m], flags))
  {}

  lemma AllClean(d: Report, found: Report, clean: Report)
    requires HalfClean(d, found, clean, {}) && clean.Keys <= found.Keys
    ensures d == clean
  {
    assert d.Keys == clean.Keys;
  }

  method CleanUp(found: Report, flags: set<string>) returns (d: Report)
    ensures d == Clean(found, flags)
  {
    ghost var clean := Clean(found, flags);
    assert clean.Keys <= found.Keys;
    d := found;
    var rest := found.Keys;
    while rest != {}
      invariant HalfClean(d, found, clean, rest)
    {
      var m :| m in rest;
      var row := TrimRow(found[m], flags);
      CleanHolds(found, flags, m);
      HalfCleanMore(d, found, clean, rest, m, row);
      d := Store(d, m, row);
      rest := rest - {m};
    }
    AllClean(d, found, clean);
  }

  method BuildDifferences(local: Prices, channels: seq<Channel>) returns (d: Report)
    ensures d == Differences(local, channels)
  {
    var models := CollectModels(local, channels);
    var confidence := BuildConfidence(channels, models);
    assert forall m | m in models :: ConfidesIn(confidence, channels, m);
    var found := FindAll(local, channels, models, confidence);
    var flags := FlagAll(found);
    d := CleanUp(found, flags);
  }
}
