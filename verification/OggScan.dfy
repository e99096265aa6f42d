/**
 getOpusDuration of common/audio.go: the Ogg page scan that yields the length of an Opus
 file. The file is a sequence of bytes and a read returns all available bytes up to the
 buffer size. Pages follow section 6 of RFC 3533; section 4 of RFC 7845 fixes the 48 kHz
 granule rate.
 */
module OggScan {
  import opened Basics

  const CAPTURE: seq<byte> := [0x4F, 0x67, 0x67, 0x53]  // "OggS"
  const HEADER := 27
  const TWO_63 := 0x8000_0000_0000_0000
  const TWO_64 := 0x1_0000_0000_0000_0000

  function Sum(s: seq<byte>): nat {
    if s == [] then 0 else s[0] + Sum(s[1..])
  }

  function FromLittleEndian(s: seq<byte>): nat {
    if s == [] then 0 else s[0] + 256 * FromLittleEndian(s[1..])
  }

  /** The two's complement reading of a 64-bit word. */
  function Signed(u: nat): int {
    if u < TWO_63 then u else u - TWO_64
  }

  function Max(a: int, b: int): int {
    if b > a then b else a
  }

  /** What is left of a file after moving n bytes on, possibly past its end. */
  function Skip(s: seq<byte>, n: nat): seq<byte> {
    if n <= |s| then s[n..] else []
  }

  function Granule(s: seq<byte>): int
    requires |s| >= HEADER
  {
    Signed(FromLittleEndian(s[6..14]))
  }

  /** One look at the bytes ahead: the largest granule position so far, and how far to move
      on, or None when the scan ends. */
  function Look(s: seq<byte>, best: int): (r: (int, Option<nat>))
    ensures r.1.Some? ==> r.1.value > 0 && |s| > 0
  {
    if |s| < HEADER then (best, None)
    else if s[..4] != CAPTURE then (best, Some(1))
    else
      var seen, segments := Max(best, Granule(s)), s[26];
      if |s| < HEADER + segments then (seen, None)
      else (seen, Some(HEADER + segments + Sum(s[HEADER..HEADER + segments])))
  }

  /** The largest granule position the scan sees from here on, or `best`. */
  function Scan(s: seq<byte>, best: int): int
    decreases |s|
  {
    var look := Look(s, best);
    if look.1.None? then look.0 else Scan(Skip(s, look.1.value), look.0)
  }

  lemma SkipTwice(s: seq<byte>, n: nat, m: nat)
    ensures Skip(Skip(s, n), m) == Skip(s, n + m)
  {
  }

  /** Adds up a segment table. */
  method PageSize(segmentTable: seq<byte>) returns (pageSize: nat)
    ensures pageSize == Sum(segmentTable)
  {
    pageSize := 0;
    for i := 0 to |segmentTable|
      invariant pageSize + Sum(segmentTable[i..]) == Sum(segmentTable)
    {
      pageSize := pageSize + segmentTable[i];
    }
  }

  /** One read of up to n bytes at a position, as the reader returns them. */
  method Read(data: seq<byte>, pos: nat, n: nat) returns (buf: seq<byte>)
    ensures |buf| <= n && |buf| <= |Skip(data, pos)| && buf == Skip(data, pos)[..|buf|]
    ensures |buf| < n ==> |buf| == |Skip(data, pos)|
  {
    if pos >= |data| {
      return [];
    }
    buf := if |data| - pos < n then data[pos..] else data[pos..pos + n];
  }

  /** Reading on behind the header sees the bytes behind the header. */
  lemma BehindHeader(data: seq<byte>, pos: nat, n: nat)
    requires |Skip(data, pos)| >= HEADER
    ensures |Skip(data, pos + HEADER)| == |Skip(data, pos)| - HEADER
    ensures n <= |Skip(data, pos)| - HEADER ==>
              Skip(data, pos + HEADER)[..n] == Skip(data, pos)[HEADER..HEADER + n]
  {
  }

  /** The body of the scan loop, at a position of the file. */
  method LookAt(data: seq<byte>, pos: nat, best: int) returns (best': int, step: Option<nat>)
    ensures (best', step) == Look(Skip(data, pos), best)
  {
    best' := best;
    ghost var rest := Skip(data, pos);
    var buf := Read(data, pos, HEADER);
    if |buf| < HEADER {
      return best', None;  // io.EOF, or the tail of the file
    }
    assert buf[0..4] == rest[..4] && buf[6..14] == rest[6..14];
    if buf[0..4] != CAPTURE {
      return best', Some(HEADER - 26);
    }
    var granulePos := Signed(FromLittleEndian(buf[6..14]));
    if granulePos > best {
      best' := granulePos;
    }
    var numSegments := buf[26];
    BehindHeader(data, pos, numSegments);
    var segmentTable := Read(data, pos + HEADER, numSegments);
    if |segmentTable| < numSegments {
      return best', None;  // io.ErrUnexpectedEOF
    }
    var pageSize := PageSize(segmentTable);
    step := Some(HEADER + numSegments + pageSize);
  }

  method GetOpusDuration(data: seq<byte>) returns (seconds: real)
    ensures seconds == Scan(data, 0) as real / 48000.0
  {
    var pos: nat := 0;
    var totalGranulePos := 0;
    while true
      invariant Scan(Skip(data, pos), totalGranulePos) == Scan(data, 0)
      decreases |data| - pos
    {
      var step;
      totalGranulePos, step := LookAt(data, pos, totalGranulePos);
      if step.None? {
        break;
      }
      SkipTwice(data, pos, step.value);
      pos := pos + step.value;
    }
    seconds := totalGranulePos as real / 48000.0;
  }

  // ---------------------------------------------------------------- well-formed files

  /** A page: the fields the scan reads, the twelve header bytes it does not (serial number,
      sequence number, checksum), the segment table and the segments' bytes. */
  datatype Page = Page(version: byte, flags: byte, granule: int, other: seq<byte>, segments: seq<byte>, body: seq<byte>) {
    predicate WellFormed() {
      && -TWO_63 <= granule < TWO_63
      && |other| == 12
      && |segments| <= 255
      && |body| == Sum(segments)
    }
  }

  function ToLittleEndian(u: nat, width: nat): (s: seq<byte>)
    ensures |s| == width
  {
    if width == 0 then [] else [u % 256] + ToLittleEndian(u / 256, width - 1)
  }

  function Unsigned(g: int): nat
    requires -TWO_63 <= g < TWO_63
  {
    if g >= 0 then g else g + TWO_64
  }

  function Encode(p: Page): (s: seq<byte>)
    requires p.WellFormed()
  {
    CAPTURE + [p.version, p.flags] + ToLittleEndian(Unsigned(p.granule), 8) + p.other
    + [|p.segments|] + p.segments + p.body
  }

  function File(pages: seq<Page>): seq<byte>
    requires forall p :: p in pages ==> p.WellFormed()
  {
    if pages == [] then [] else Encode(pages[0]) + File(pages[1..])
  }

  function Largest(pages: seq<Page>, best: int): int {
    if pages == [] then best else Largest(pages[1..], Max(best, pages[0].granule))
  }

  function Power(width: nat): nat {
    if width == 0 then 1 else 256 * Power(width - 1)
  }

  lemma {:induction false} LittleEndianRoundTrip(u: nat, width: nat)
    requires u < Power(width)
    ensures FromLittleEndian(ToLittleEndian(u, width)) == u
  {
    if width > 0 {
      LittleEndianRoundTrip(u / 256, width - 1);
      assert ToLittleEndian(u, width)[1..] == ToLittleEndian(u / 256, width - 1);
    }
  }

  lemma PowerOfEight()
    ensures Power(8) == TWO_64
  {
    assert Power(4) == 0x1_0000_0000;
    assert Power(6) == 0x1_0000_0000_0000;
  }

  /** Where the parts of a page lie. */
  lemma Layout(p: Page, tail: seq<byte>)
    requires p.WellFormed()
    ensures var s := Encode(p) + tail;
            && |s| >= HEADER + |p.segments| + |p.body|
            && s[..4] == CAPTURE
            && s[6..14] == ToLittleEndian(Unsigned(p.granule), 8)
            && s[26] == |p.segments|
            && s[HEADER..HEADER + |p.segments|] == p.segments
            && s[HEADER + |p.segments| + |p.body|..] == tail
  {
  }

  /** A look at bytes laid out as a page. */
  lemma LookSeesPage(p: Page, s: seq<byte>, best: int)
    requires p.WellFormed() && |s| >= HEADER + |p.segments| + |p.body| && s[..4] == CAPTURE
    requires s[6..14] == ToLittleEndian(Unsigned(p.granule), 8)
    requires s[26] == |p.segments| && s[HEADER..HEADER + |p.segments|] == p.segments
    ensures Look(s, best) == (Max(best, p.granule), Some(HEADER + |p.segments| + |p.body|))
  {
    PowerOfEight();
    LittleEndianRoundTrip(Unsigned(p.granule), 8);
  }

  lemma ScanPage(p: Page, tail: seq<byte>, best: int)
    requires p.WellFormed()
    ensures Scan(Encode(p) + tail, best) == Scan(tail, Max(best, p.granule))
  {
    var s := Encode(p) + tail;
    Layout(p, tail);
    LookSeesPage(p, s, best);
    assert Skip(s, HEADER + |p.segments| + |p.body|) == tail;
  }

  lemma {:induction false} ScanPages(pages: seq<Page>, tail: seq<byte>, best: int)
    requires forall p :: p in pages ==> p.WellFormed()
    ensures Scan(File(pages) + tail, best) == Scan(tail, Largest(pages, best))
  {
    if pages == [] {
      assert File(pages) + tail == tail;
    } else {
      var rest := File(pages[1..]) + tail;
      assert File(pages) + tail == Encode(pages[0]) + rest;
      ScanPage(pages[0], rest, best);
      ScanPages(pages[1..], tail, Max(best, pages[0].granule));
    }
  }

  /** Of a page that is cut off, the granule position counts if its fixed header is whole. */
  lemma ScanCutPage(p: Page, n: nat, best: int)
    requires p.WellFormed() && n <= |Encode(p)|
    ensures Scan(Encode(p)[..n], best) == if n >= 27 then Max(best, p.granule) else best
  {
    var whole, s := Encode(p), Encode(p)[..n];
    if n >= 27 {
      Layout(p, []);
      assert whole + [] == whole;
      assert s[..4] == whole[..4] && s[6..14] == whole[6..14] && s[26] == whole[26];
      PowerOfEight();
      LittleEndianRoundTrip(Unsigned(p.granule), 8);
      assert Look(s, best).0 == Max(best, p.granule);
      if n >= 27 + |p.segments| {
        assert s[HEADER..HEADER + |p.segments|] == whole[HEADER..HEADER + |p.segments|];
        assert Skip(s, HEADER + |p.segments| + |p.body|) == [];
      }
    }
  }

  lemma {:induction false} LargestOfMore(pages: seq<Page>, p: Page, best: int)
    ensures Largest(pages + [p], best) == Max(Largest(pages, best), p.granule)
  {
    if pages != [] {
      assert (pages + [p])[1..] == pages[1..] + [p];
      LargestOfMore(pages[1..], p, Max(best, pages[0].granule));
    }
  }

  /** A file that is cut off yields the largest granule position of the pages whose fixed headers
      are whole. */
  lemma ScanCutFile(pages: seq<Page>, p: Page, n: nat, best: int)
    requires (forall q :: q in pages ==> q.WellFormed()) && p.WellFormed() && n <= |Encode(p)|
    ensures Scan(File(pages) + Encode(p)[..n], best) == Largest(if n >= 27 then pages + [p] else pages, best)
  {
    ScanPages(pages, Encode(p)[..n], best);
    ScanCutPage(p, n, Largest(pages, best));
    LargestOfMore(pages, p, best);
  }

  predicate CaptureAt(s: seq<byte>, i: nat) {
    i + 4 <= |s| && s[i..][..4] == CAPTURE
  }

  /** Bytes that start no capture pattern in front of a file change nothing. */
  lemma {:induction false} ScanSkipsJunk(junk: seq<byte>, s: seq<byte>, best: int)
    requires forall i :: 0 <= i < |junk| ==> !CaptureAt(junk + s, i)
    ensures Scan(junk + s, best) == Scan(s, best)
  {
    if junk == [] {
      assert junk + s == s;
    } else {
      var t := junk + s;
      assert t[1..] == junk[1..] + s;
      forall i | 0 <= i < |junk[1..]| ensures !CaptureAt(junk[1..] + s, i) {
        assert !CaptureAt(t, i + 1);
        assert t[1..][i..] == t[i + 1..];
      }
      ScanSkipsJunk(junk[1..], s, best);
      assert !CaptureAt(t, 0);
      assert t[0..] == t;
    }
  }

  /** Largest is the maximum: no page exceeds it, and it is reached or is the starting value. */
  lemma {:induction false} LargestIsMaximum(pages: seq<Page>, best: int)
    ensures best <= Largest(pages, best)
    ensures forall i :: 0 <= i < |pages| ==> pages[i].granule <= Largest(pages, best)
    ensures Largest(pages, best) == best || exists i :: 0 <= i < |pages| && pages[i].granule == Largest(pages, best)
  {
    if pages != [] {
      LargestIsMaximum(pages[1..], Max(best, pages[0].granule));
      forall i | 0 <= i < |pages| ensures pages[i].granule <= Largest(pages, best) {
        assert i > 0 ==> pages[i] == pages[1..][i - 1];
      }
      if Largest(pages, best) != best && Largest(pages, best) != pages[0].granule {
        var i :| 0 <= i < |pages[1..]| && pages[1..][i].granule == Largest(pages, best);
        assert pages[i + 1].granule == Largest(pages, best);
      }
    }
  }

  /** Largest is the only number with these properties. */
  lemma LargestIff(pages: seq<Page>, g: int)
    ensures g == Largest(pages, 0) <==>
            && g >= 0
            && (forall i :: 0 <= i < |pages| ==> pages[i].granule <= g)
            && (g == 0 || exists i :: 0 <= i < |pages| && pages[i].granule == g)
  {
    LargestIsMaximum(pages, 0);
  }

  /** On every concatenation of well-formed pages, with or without junk in front, the scan
      yields the largest granule position, at least 0. */
  lemma DurationOfFile(junk: seq<byte>, pages: seq<Page>)
    requires forall p :: p in pages ==> p.WellFormed()
    requires forall i :: 0 <= i < |junk| ==> !CaptureAt(junk + File(pages), i)
    ensures Scan(junk + File(pages), 0) == Largest(pages, 0)
  {
    ScanSkipsJunk(junk, File(pages), 0);
    ScanPages(pages, [], 0);
    assert File(pages) + [] == File(pages);
  }
}
