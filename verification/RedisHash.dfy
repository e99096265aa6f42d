/**
 The hash encoder and decoder of common/redis.go. A struct is a list of named fields;
 reflection over it becomes a loop over that list. The Redis server stores the hash it is
 given and is not modelled.
 */
module RedisHash {
  import opened Basics

  const MIN_INT64 := -0x8000_0000_0000_0000
  const MAX_INT64 := 0x7FFF_FFFF_FFFF_FFFF

  datatype Kind = TextKind | IntKind | BoolKind | StructKind(zeroText: string) | OtherKind

  /** A value of a struct field. Struct is a plain struct such as time.Time, by the text fmt
      prints for its type's zero value, whether it is that value, and its own text. Other stands
      for the kinds the decoder does not support, by the text fmt prints for them. */
  datatype Scalar =
    | Text(text: string)
    | Int(n: int)
    | Bool(flag: bool)
    | Struct(zeroText: string, isZero: bool, text: string)
    | Other(text: string)

  /** Deleted is a gorm.DeletedAt field. */
  datatype Value = Direct(scalar: Scalar) | Pointer(kind: Kind, target: Option<Scalar>) | Deleted(at: Option<int>)

  datatype Field = Field(name: string, value: Value)

  type Hash = map<string, string>

  function KindOf(s: Scalar): Kind {
    match s
    case Text(_) => TextKind
    case Int(_) => IntKind
    case Bool(_) => BoolKind
    case Struct(zeroText, _, _) => StructKind(zeroText)
    case Other(_) => OtherKind
  }

  // ---------------------------------------------------------------- text forms

  function Digit(d: int): char
    requires 0 <= d < 10
  {
    '0' + d as char
  }

  function Digits(n: nat): string {
    if n < 10 then [Digit(n)] else Digits(n / 10) + [Digit(n % 10)]
  }

  /** fmt's %v of an integer. */
  function Decimal(n: int): string {
    if n < 0 then "-" + Digits(-n) else Digits(n)
  }

  predicate IsDigit(c: char) {
    '0' <= c <= '9'
  }

  function FromDigits(s: string): nat
    requires forall i :: 0 <= i < |s| ==> IsDigit(s[i])
  {
    if s == [] then 0
    else
      assert IsDigit(s[|s| - 1]);
      FromDigits(s[..|s| - 1]) * 10 + (s[|s| - 1] as int - '0' as int)
  }

  /** s without a leading sign. */
  function Unsigned(s: string): string {
    if s != [] && (s[0] == '-' || s[0] == '+') then s[1..] else s
  }

  /** strconv.ParseInt(s, 10, 64). */
  function ParseInt(s: string): Option<int> {
    var negative := s != [] && s[0] == '-';
    var body := Unsigned(s);
    if body == [] || exists i :: 0 <= i < |body| && !IsDigit(body[i]) then None
    else
      var m: int := FromDigits(body);
      var n := if negative then -m else m;
      if MIN_INT64 <= n <= MAX_INT64 then Some(n) else None
  }

  /** strconv.ParseBool. */
  function ParseBool(s: string): Option<bool> {
    if s in {"1", "t", "T", "true", "TRUE", "True"} then Some(true)
    else if s in {"0", "f", "F", "false", "FALSE", "False"} then Some(false)
    else None
  }

  function Print(s: Scalar): string {
    match s
    case Text(text) => text
    case Int(n) => Decimal(n)
    case Bool(flag) => if flag then "true" else "false"
    case Struct(_, _, text) => text
    case Other(text) => text
  }

  /** A value after a text has been read into it; a plain struct accepts any text and stays as
      it is. */
  function ParseInto(was: Scalar, s: string): Option<Scalar> {
    match was
    case Text(_) => Some(Text(s))
    case Int(_) => var n := ParseInt(s); if n.Some? then Some(Int(n.value)) else None
    case Bool(_) => var b := ParseBool(s); if b.Some? then Some(Bool(b.value)) else None
    case Struct(_, _, _) => Some(was)
    case Other(_) => None
  }

  // ---------------------------------------------------------------- encoding

  /** The hash entry of one field. */
  function EncodeValue(v: Value): string
    requires !v.Deleted?
  {
    match v
    case Direct(s) => Print(s)
    case Pointer(_, target) => if target.None? then "" else Print(target.value)
  }

  function Encode(fields: seq<Field>): Hash {
    if fields == [] then map[]
    else
      var front, last := Encode(fields[..|fields| - 1]), fields[|fields| - 1];
      if last.value.Deleted? then front else front[last.name := EncodeValue(last.value)]
  }

  method RedisHSetObj(fields: seq<Field>) returns (data: Hash)
    ensures data == Encode(fields)
  {
    data := map[];
    for i := 0 to |fields|
      invariant data == Encode(fields[..i])
    {
      assert fields[..i + 1][..i] == fields[..i];
      var value := fields[i].value;
      if value.Deleted? {
        continue;
      }
      if value.Pointer? && value.target.None? {
        data := data[fields[i].name := ""];
        continue;
      }
      var scalar := if value.Pointer? then value.target.value else value.scalar;
      if scalar.Bool? {
        data := data[fields[i].name := if scalar.flag then "true" else "false"];
        continue;
      }
      data := data[fields[i].name := Print(scalar)];
    }
    assert fields[..|fields|] == fields;
  }

  // ---------------------------------------------------------------- decoding

  function ZeroOf(kind: Kind): Scalar {
    match kind
    case TextKind => Text("")
    case IntKind => Int(0)
    case BoolKind => Bool(false)
    case StructKind(zeroText) => Struct(zeroText, true, zeroText)
    case OtherKind => Other("0")
  }

  /** The field after one hash entry has been applied to it, and whether that succeeded. A
      pointer is allocated before its text is parsed. */
  function DecodeValue(v: Value, s: string, parseTime: string -> Option<int>): (Value, bool) {
    match v
    case Direct(was) =>
      var p := ParseInto(was, s);
      if p.Some? then (Direct(p.value), true) else (v, false)
    case Pointer(kind, was) =>
      if s == "" then (v, true)
      else
        var target := if was.None? then ZeroOf(kind) else was.value;
        var p := ParseInto(target, s);
        if p.Some? then (Pointer(kind, p), true) else (Pointer(kind, Some(target)), false)
    case Deleted(_) =>
      if s == "" then (v, true)
      else
        var t := parseTime(s);
        if t.Some? then (Deleted(t), true) else (v, false)
  }

  function DecodeField(f: Field, hash: Hash, parseTime: string -> Option<int>): (Field, bool) {
    if f.name !in hash then (f, true)
    else
      var r := DecodeValue(f.value, hash[f.name], parseTime);
      (f.(value := r.0), r.1)
  }

  /** The record after the first k fields have been decoded, and whether every entry was
      understood; the first bad entry ends the work. */
  function DecodeFirst(fields: seq<Field>, hash: Hash, parseTime: string -> Option<int>, k: nat): (r: (seq<Field>, bool))
    requires k <= |fields|
    ensures |r.0| == |fields|
  {
    if k == 0 then (fields, true)
    else
      var r := DecodeFirst(fields, hash, parseTime, k - 1);
      if !r.1 then r
      else
        var f := DecodeField(fields[k - 1], hash, parseTime);
        (r.0[k - 1 := f.0], f.1)
  }

  function Decode(fields: seq<Field>, hash: Hash, parseTime: string -> Option<int>): (r: (seq<Field>, bool))
    ensures |r.0| == |fields|
  {
    DecodeFirst(fields, hash, parseTime, |fields|)
  }

  lemma {:induction false} DecodeStops(fields: seq<Field>, hash: Hash, parseTime: string -> Option<int>, j: nat, k: nat)
    requires j <= k <= |fields| && !DecodeFirst(fields, hash, parseTime, j).1
    ensures DecodeFirst(fields, hash, parseTime, k) == DecodeFirst(fields, hash, parseTime, j)
  {
    if j < k {
      DecodeStops(fields, hash, parseTime, j, k - 1);
    }
  }

  /** What the decoder answers: an empty hash means that the key is absent. */
  function Load(fields: seq<Field>, hash: Hash, parseTime: string -> Option<int>): (r: (seq<Field>, bool))
    ensures |r.0| == |fields|
  {
    if hash == map[] then (fields, false) else Decode(fields, hash, parseTime)
  }

  method RedisHGetObj(obj: array<Field>, result: Hash, parseTime: string -> Option<int>) returns (ok: bool)
    modifies obj
    ensures (obj[..], ok) == Load(old(obj[..]), result, parseTime)
  {
    if |result| == 0 {
      return false;
    }
    ghost var was := obj[..];
    for i := 0 to obj.Length
      invariant obj[i..] == was[i..]
      invariant (obj[..], true) == DecodeFirst(was, result, parseTime, i)
    {
      assert obj[i] == was[i];
      var f := DecodeField(obj[i], result, parseTime);
      obj[i] := f.0;
      if !f.1 {
        DecodeStops(was, result, parseTime, i + 1, obj.Length);
        return false;
      }
    }
    return true;
  }

  // ---------------------------------------------------------------- the round trip

  lemma {:induction false} DigitsRoundTrip(n: nat)
    ensures Digits(n) != []
    ensures forall i :: 0 <= i < |Digits(n)| ==> IsDigit(Digits(n)[i])
    ensures FromDigits(Digits(n)) == n
  {
    if n >= 10 {
      DigitsRoundTrip(n / 10);
      assert Digits(n)[..|Digits(n)| - 1] == Digits(n / 10);
    } else {
      assert Digits(n)[..0] == [];
    }
  }

  /** Decimal print and parse are inverse on 64-bit integers. */
  lemma DecimalRoundTrip(n: int)
    requires MIN_INT64 <= n <= MAX_INT64
    ensures Decimal(n) != "" && ParseInt(Decimal(n)) == Some(n)
  {
    DigitsRoundTrip(if n < 0 then -n else n);
    if n < 0 {
      assert Decimal(n)[1..] == Digits(-n);
    } else {
      assert IsDigit(Decimal(n)[0]);
    }
  }

  /** s is an optional sign and then the digits of n, one or more. */
  ghost predicate SpelledBy(s: string, n: int, digits: string) {
    && digits != [] && (forall i :: 0 <= i < |digits| ==> IsDigit(digits[i]))
    && if s == "-" + digits then n == 0 - FromDigits(digits)
       else (s == digits || s == "+" + digits) && n == FromDigits(digits)
  }

  lemma ParsedIsSpelled(s: string, n: int)
    requires ParseInt(s) == Some(n)
    ensures exists digits :: SpelledBy(s, n, digits)
  {
    var digits := Unsigned(s);
    assert s == if s[0] == '-' then "-" + digits else if s[0] == '+' then "+" + digits else digits;
    assert SpelledBy(s, n, digits);
  }

  lemma SpelledIsParsed(s: string, n: int, digits: string)
    requires SpelledBy(s, n, digits)
    ensures ParseInt(s) == if MIN_INT64 <= n <= MAX_INT64 then Some(n) else None
  {
    assert IsDigit(digits[0]);
    assert digits == Unsigned(s);
  }

  /** A text parses exactly when it spells a 64-bit integer, and then to that integer. */
  lemma ParseIntIff(s: string, n: int)
    ensures ParseInt(s) == Some(n) <==>
            -0x8000_0000_0000_0000 <= n < 0x8000_0000_0000_0000 && exists digits :: SpelledBy(s, n, digits)
  {
    if ParseInt(s) == Some(n) {
      ParsedIsSpelled(s, n);
    }
    if digits :| SpelledBy(s, n, digits) {
      SpelledIsParsed(s, n, digits);
    }
  }

  /** A value Go can hold: pointers match their type, integers fit 64 bits, and a zero struct
      prints as the zero value of its type. */
  predicate Sound(s: Scalar) {
    (s.Int? ==> MIN_INT64 <= s.n <= MAX_INT64) && (s.Struct? && s.isZero ==> s.text == s.zeroText)
  }

  predicate SoundValue(v: Value) {
    match v
    case Direct(s) => Sound(s)
    case Pointer(kind, target) => target.Some? ==> Sound(target.value) && KindOf(target.value) == kind
    case Deleted(_) => true
  }

  /** The decoder has a case for the field, or skips it. */
  predicate Supported(v: Value) {
    match v
    case Direct(s) => !s.Other?
    case Pointer(_, target) => target.Some? && target.value.Other? ==> Print(target.value) == ""
    case Deleted(_) => true
  }

  predicate Record(fields: seq<Field>) {
    && (forall i :: 0 <= i < |fields| ==> SoundValue(fields[i].value))
    && (forall i, j :: 0 <= i < j < |fields| ==> fields[i].name != fields[j].name)
  }

  /** The zero value of a field's type. */
  function Zero(v: Value): Value {
    match v
    case Direct(s) => Direct(ZeroOf(KindOf(s)))
    case Pointer(kind, _) => Pointer(kind, None)
    case Deleted(_) => Deleted(None)
  }

  function ZeroRecord(fields: seq<Field>): (r: seq<Field>)
    ensures |r| == |fields|
  {
    seq(|fields|, i requires 0 <= i < |fields| => fields[i].(value := Zero(fields[i].value)))
  }

  function SurvivingScalar(s: Scalar): Scalar {
    if s.Struct? then ZeroOf(KindOf(s)) else s
  }

  /** What survives: a struct comes back zero, a pointer to something that prints as the empty
      text comes back nil, a deletion mark is lost. */
  function Surviving(v: Value): Value {
    match v
    case Direct(s) => Direct(SurvivingScalar(s))
    case Pointer(kind, target) =>
      if target.None? || Print(target.value) == "" then Pointer(kind, None)
      else Pointer(kind, Some(SurvivingScalar(target.value)))
    case Deleted(_) => Deleted(None)
  }

  lemma PrintParses(s: Scalar)
    requires Sound(s)
    ensures ParseInto(ZeroOf(KindOf(s)), Print(s)) == if s.Other? then None else Some(SurvivingScalar(s))
  {
    if s.Int? {
      DecimalRoundTrip(s.n);
    }
  }

  lemma ValueRoundTrip(v: Value, parseTime: string -> Option<int>)
    requires SoundValue(v) && !v.Deleted?
    ensures var r := DecodeValue(Zero(v), EncodeValue(v), parseTime);
            r.1 == Supported(v) && (r.1 ==> r.0 == Surviving(v))
  {
    match v
    case Direct(s) => PrintParses(s);
    case Pointer(_, target) =>
      if target.Some? {
        PrintParses(target.value);
      }
  }

  /** The hash holds exactly the entries of the fields that are not deletion marks. */
  lemma {:induction false} EncodeHolds(fields: seq<Field>)
    requires forall i, j :: 0 <= i < j < |fields| ==> fields[i].name != fields[j].name
    ensures forall i :: 0 <= i < |fields| ==>
              if fields[i].value.Deleted? then fields[i].name !in Encode(fields)
              else fields[i].name in Encode(fields) && Encode(fields)[fields[i].name] == EncodeValue(fields[i].value)
    ensures forall k :: k in Encode(fields) ==> exists i :: 0 <= i < |fields| && fields[i].name == k
  {
    if fields != [] {
      var front, n := fields[..|fields| - 1], |fields| - 1;
      EncodeHolds(front);
      forall i | 0 <= i < n ensures front[i] == fields[i] {}
      assert fields[n].name !in Encode(front);
      forall k | k in Encode(fields) ensures exists i :: 0 <= i < |fields| && fields[i].name == k {
        if k == fields[n].name {
        } else {
          var i :| 0 <= i < |front| && front[i].name == k;
          assert fields[i].name == k;
        }
      }
    }
  }

  /** Decoding the first k fields of a hash that holds the entries of `fields`. */
  lemma {:induction false} DecodeRestores(fields: seq<Field>, hash: Hash, parseTime: string -> Option<int>, k: nat)
    requires k <= |fields|
    requires forall i :: 0 <= i < |fields| ==>
               && SoundValue(fields[i].value)
               && (if fields[i].value.Deleted? then fields[i].name !in hash
                   else fields[i].name in hash && hash[fields[i].name] == EncodeValue(fields[i].value))
    ensures var r := DecodeFirst(ZeroRecord(fields), hash, parseTime, k);
            && (r.1 <==> forall i :: 0 <= i < k ==> Supported(fields[i].value))
            && (r.1 ==> forall i :: 0 <= i < k ==> r.0[i] == fields[i].(value := Surviving(fields[i].value)))
  {
    if k > 0 {
      DecodeRestores(fields, hash, parseTime, k - 1);
      if !fields[k - 1].value.Deleted? {
        ValueRoundTrip(fields[k - 1].value, parseTime);
      }
    }
  }

  lemma EncodesNothingIff(fields: seq<Field>)
    requires Record(fields)
    ensures Encode(fields) == map[] <==> forall i :: 0 <= i < |fields| ==> fields[i].value.Deleted?
  {
    EncodeHolds(fields);
    if forall i :: 0 <= i < |fields| ==> fields[i].value.Deleted? {
      assert Encode(fields) == map[];
    }
  }

  /** For every record: loading what was encoded into a zero record succeeds exactly when some
      field is encoded and every kind is supported, and then returns every field, except that a
      struct comes back zero, a pointer to something that prints as the empty text comes back
      nil, and deletion marks are cleared. */
  lemma RoundTrip(fields: seq<Field>, parseTime: string -> Option<int>)
    requires Record(fields)
    ensures var r := Load(ZeroRecord(fields), Encode(fields), parseTime);
            && (r.1 <==>
                && (exists i :: 0 <= i < |fields| && !fields[i].value.Deleted?)
                && (forall i :: 0 <= i < |fields| ==> Supported(fields[i].value)))
            && (r.1 ==> forall i :: 0 <= i < |fields| ==> r.0[i] == fields[i].(value := Surviving(fields[i].value)))
  {
    EncodesNothingIff(fields);
    EncodeHolds(fields);
    DecodeRestores(fields, Encode(fields), parseTime, |fields|);
  }

  /** A scalar that comes back: supported, and no struct other than the zero one. */
  predicate Lasting(s: Scalar) {
    !s.Other? && (s.Struct? ==> s.isZero)
  }

  /** A field that comes back as it was. */
  predicate Preserved(v: Value) {
    match v
    case Direct(s) => Lasting(s)
    case Pointer(_, target) => target.Some? ==> Lasting(target.value) && Print(target.value) != ""
    case Deleted(at) => at.None?
  }

  lemma PreservedIff(v: Value)
    requires SoundValue(v)
    ensures Preserved(v) <==> Supported(v) && Surviving(v) == v
  {
  }

  /** Storing and loading is the identity exactly when some field is encoded, all kinds are
      supported, every struct is zero, no pointer leads to something that prints as the empty
      text, and no deletion mark is set. */
  lemma IdentityIff(fields: seq<Field>, parseTime: string -> Option<int>)
    requires Record(fields)
    ensures Load(ZeroRecord(fields), Encode(fields), parseTime) == (fields, true) <==>
            && (exists i :: 0 <= i < |fields| && !fields[i].value.Deleted?)
            && (forall i :: 0 <= i < |fields| ==> Preserved(fields[i].value))
  {
    RoundTrip(fields, parseTime);
    var r := Load(ZeroRecord(fields), Encode(fields), parseTime);
    forall i | 0 <= i < |fields| ensures Preserved(fields[i].value) <==> Supported(fields[i].value) && Surviving(fields[i].value) == fields[i].value {
      PreservedIff(fields[i].value);
    }
    if r.1 {
      assert r.0 == fields <==> forall i :: 0 <= i < |fields| ==> fields[i].(value := Surviving(fields[i].value)) == fields[i];
    }
  }

  // ---------------------------------------------------------------- any record, any hash

  /** What decoding one entry leaves in a field: a text as it is; a number or a flag that the text
      stands for; a pointer, and a deletion mark, untouched by the empty text; a struct untouched. */
  ghost predicate TakesEntry(was: Value, now: Value, s: string, parseTime: string -> Option<int>) {
    match was
    case Direct(x) => now.Direct? && TakesText(x, now.scalar, s)
    case Pointer(kind, x) =>
      if s == "" then now == was
      else now.Pointer? && now.kind == kind && now.target.Some? && TakesText(if x.Some? then x.value else ZeroOf(kind), now.target.value, s)
    case Deleted(_) => if s == "" then now == was else parseTime(s).Some? && now == Deleted(parseTime(s))
  }

  ghost predicate TakesText(was: Scalar, now: Scalar, s: string) {
    match was
    case Text(_) => now == Text(s)
    case Int(_) => now.Int? && ParseInt(s) == Some(now.n)
    case Bool(_) => now.Bool? && (if now.flag then s in {"1", "t", "T", "true", "TRUE", "True"} else s in {"0", "f", "F", "false", "FALSE", "False"})
    case Struct(_, _, _) => now == was
    case Other(_) => false
  }

  /** Decoding any hash into any record, if it succeeds, changes exactly the fields the hash names,
      each by its entry. */
  lemma {:induction false} DecodeTakesEntries(fields: seq<Field>, hash: Hash, parseTime: string -> Option<int>, k: nat, i: nat)
    requires i < |fields| && k <= |fields| && DecodeFirst(fields, hash, parseTime, k).1
    ensures var now := DecodeFirst(fields, hash, parseTime, k).0[i];
            && now.name == fields[i].name
            && (i >= k || now.name !in hash ==> now == fields[i])
            && (i < k && now.name in hash ==> TakesEntry(fields[i].value, now.value, hash[now.name], parseTime))
  {
    if k > 0 {
      DecodeTakesEntries(fields, hash, parseTime, k - 1, i);
    }
  }

  /** An entry that is refused leaves its field as it was, except that a nil pointer comes to point
      at the zero value. */
  lemma RefusedEntry(f: Field, hash: Hash, parseTime: string -> Option<int>)
    requires !DecodeField(f, hash, parseTime).1
    ensures f.name in hash
    ensures DecodeField(f, hash, parseTime).0.value ==
            if f.value.Pointer? && f.value.target.None? then f.value.(target := Some(ZeroOf(f.value.kind))) else f.value
  {
  }

  // ---------------------------------------------------------------- what does not come back

  /** A pointer to the empty string comes back nil. */
  lemma EmptyPointerIsLost(name: string, parseTime: string -> Option<int>)
    ensures var fields := [Field(name, Pointer(TextKind, Some(Text(""))))];
            Load(ZeroRecord(fields), Encode(fields), parseTime) == ([Field(name, Pointer(TextKind, None))], true)
  {
    var fields := [Field(name, Pointer(TextKind, Some(Text(""))))];
    assert Record(fields);
    RoundTrip(fields, parseTime);
    assert !fields[0].value.Deleted? && forall i :: 0 <= i < |fields| ==> Supported(fields[i].value);
    assert Load(ZeroRecord(fields), Encode(fields), parseTime).0 == [Field(name, Pointer(TextKind, None))];
  }

  /** A deletion mark is cleared, whatever else is stored. */
  lemma DeletionMarkIsLost(text: string, at: int, parseTime: string -> Option<int>)
    ensures var fields := [Field("Key", Direct(Text(text))), Field("DeletedAt", Deleted(Some(at)))];
            Load(ZeroRecord(fields), Encode(fields), parseTime) ==
            ([Field("Key", Direct(Text(text))), Field("DeletedAt", Deleted(None))], true)
  {
    var fields := [Field("Key", Direct(Text(text))), Field("DeletedAt", Deleted(Some(at)))];
    assert Record(fields);
    RoundTrip(fields, parseTime);
    assert !fields[0].value.Deleted? && forall i :: 0 <= i < |fields| ==> Supported(fields[i].value);
    assert Load(ZeroRecord(fields), Encode(fields), parseTime).0 == [Field("Key", Direct(Text(text))), Field("DeletedAt", Deleted(None))];
  }

  /** A plain struct is accepted and comes back zero. */
  lemma StructIsLost(name: string, zeroText: string, text: string, parseTime: string -> Option<int>)
    ensures var fields := [Field(name, Direct(Struct(zeroText, false, text)))];
            Load(ZeroRecord(fields), Encode(fields), parseTime) ==
            ([Field(name, Direct(Struct(zeroText, true, zeroText)))], true)
  {
    var fields := [Field(name, Direct(Struct(zeroText, false, text)))];
    assert Record(fields);
    RoundTrip(fields, parseTime);
    assert !fields[0].value.Deleted? && forall i :: 0 <= i < |fields| ==> Supported(fields[i].value);
    assert Load(ZeroRecord(fields), Encode(fields), parseTime).0 == [Field(name, Direct(Struct(zeroText, true, zeroText)))];
  }

  /** A record that encodes no field is reported as absent. */
  lemma UnencodedIsAbsent(name: string, parseTime: string -> Option<int>)
    ensures var fields := [Field(name, Deleted(None))]; !Load(ZeroRecord(fields), Encode(fields), parseTime).1
  {
    RoundTrip([Field(name, Deleted(None))], parseTime);
  }
}
