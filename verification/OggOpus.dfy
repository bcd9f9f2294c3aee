/**
 The duration of an Ogg Opus stream: a scan for pages that resynchronises byte by byte, skips each
 page by its segment table and keeps the largest granule position. Page layout: section 6 of
 RFC 3533; granule positions count samples at 48 kHz: section 4 of RFC 7845.
 */
module OggOpus {
  import opened Outcomes
  import opened TempFiles

  const MAGIC: seq<Byte> := [79, 103, 103, 83]  // "OggS"
  const HEADER := 27
  const SAMPLE_RATE := 48000.0

  function FromLittleEndian(bytes: seq<Byte>): nat {
    if bytes == [] then 0 else bytes[0] as int + 256 * FromLittleEndian(bytes[1..])
  }

  const TWO_63: int := 0x8000_0000_0000_0000

  function Signed64(u: int): int {
    if u >= TWO_63 then u - 2 * TWO_63 else u
  }

  function Sum(table: seq<Byte>): nat {
    if table == [] then 0 else table[0] as int + Sum(table[1..])
  }

  function Max(a: int, b: int): int {
    if b > a then b else a
  }

  function Drop(s: seq<Byte>, n: nat): seq<Byte> {
    if n <= |s| then s[n..] else []
  }

  predicate MagicAt(s: seq<Byte>, i: nat) {
    i + 4 <= |s| && s[i] == MAGIC[0] && s[i + 1] == MAGIC[1] && s[i + 2] == MAGIC[2] && s[i + 3] == MAGIC[3]
  }

  /** The granule position of the page header at the start of `s`. */
  function GranuleOf(s: seq<Byte>): int
    requires |s| >= HEADER
  {
    Signed64(FromLittleEndian(s[6..14]))
  }

  /** Where the page that starts `s` ends, if its segment table is all there. */
  function PageEnd(s: seq<Byte>): nat
    requires |s| >= HEADER && |s| >= HEADER + s[26] as int
  {
    HEADER + s[26] as int + Sum(s[HEADER..HEADER + s[26] as int])
  }

  /** The largest granule position among `best` and the pages the scan recognises in `s`. */
  function Scan(s: seq<Byte>, best: int): int
    decreases |s|
  {
    if |s| < HEADER then best
    else if !MagicAt(s, 0) then Scan(s[1..], best)
    else if |s| < HEADER + s[26] as int then Max(best, GranuleOf(s))
    else Scan(Drop(s, PageEnd(s)), Max(best, GranuleOf(s)))
  }

  /** One turn of the loop, at offset `at` of the file. */
  lemma {:induction false} ScanTurn(data: seq<Byte>, at: nat, best: int)
    ensures at + HEADER > |data| ==> Scan(Drop(data, at), best) == best
    ensures at + HEADER <= |data| && !MagicAt(data, at) ==> Scan(Drop(data, at), best) == Scan(Drop(data, at + 1), best)
    ensures at + HEADER <= |data| && MagicAt(data, at) ==>
      var found := Max(best, Signed64(FromLittleEndian(data[at + 6..at + 14])));
      var end := at + HEADER + data[at + 26] as int;
      Scan(Drop(data, at), best) ==
        if end > |data| then found else Scan(Drop(data, end + Sum(data[at + HEADER..end])), found)
  {
    if at + HEADER <= |data| {
      HeaderAt(data, at);
      if !MagicAt(data, at) {
        hide MagicAt;
        assert Drop(data, at)[1..] == Drop(data, at + 1);
      } else {
        PageTurn(data, at, best);
      }
    }
  }

  lemma HeaderAt(data: seq<Byte>, at: nat)
    requires at + HEADER <= |data|
    ensures var s := Drop(data, at);
      && |s| == |data| - at && MagicAt(s, 0) == MagicAt(data, at)
      && s[26] == data[at + 26] && s[6..14] == data[at + 6..at + 14]
  {
  }

  lemma {:induction false} PageTurn(data: seq<Byte>, at: nat, best: int)
    requires at + HEADER <= |data| && MagicAt(data, at)
    ensures var found := Max(best, Signed64(FromLittleEndian(data[at + 6..at + 14])));
      var end := at + HEADER + data[at + 26] as int;
      Scan(Drop(data, at), best) ==
        if end > |data| then found else Scan(Drop(data, end + Sum(data[at + HEADER..end])), found)
  {
    HeaderAt(data, at);
    hide MagicAt, FromLittleEndian, Signed64, Sum;
    var s, end := Drop(data, at), at + HEADER + data[at + 26] as int;
    if end <= |data| {
      assert s[HEADER..HEADER + s[26] as int] == data[at + HEADER..end];
      assert Drop(s, PageEnd(s)) == Drop(data, end + Sum(data[at + HEADER..end]));
    }
  }

  method GetOpusDuration(f: TempFile) returns (duration: real)
    requires f.open
    modifies f
    ensures duration == Scan(f.content, 0) as real / 48000.0
  {
    hide Scan, FromLittleEndian, Signed64, Sum, MagicAt;
    var rewound := f.Seek(0, Start);
    var totalGranulePos := 0;
    assert Drop(f.content, 0) == f.content;
    while true
      invariant f.open && Scan(f.content, 0) == Scan(Drop(f.content, f.offset), totalGranulePos)
      decreases |f.content| - f.offset
    {
      ghost var at := f.offset;
      ScanTurn(f.content, at, totalGranulePos);
      var chunk := f.Read(HEADER);
      if chunk.Err? {
        break;
      }
      var buf := chunk.value;
      if |buf| < HEADER {
        break;
      }
      HeaderBytes(f.content, at, buf);
      if buf[..4] != MAGIC {
        var back := f.Seek(-26, Current);
        continue;
      }
      var granulePos := Signed64(FromLittleEndian(buf[6..14]));
      if granulePos > totalGranulePos {
        totalGranulePos := granulePos;
      }
      var numSegments := buf[26] as int;
      var table := f.ReadFull(numSegments);
      if table.Err? {
        break;
      }
      var pageSize := SumOf(table.value);
      var skipped := f.Seek(pageSize, Current);
    }
    duration := totalGranulePos as real / SAMPLE_RATE;
  }

  lemma HeaderBytes(data: seq<Byte>, at: nat, buf: seq<Byte>)
    requires at + HEADER <= |data| && buf == data[at..at + HEADER]
    ensures buf[..4] == MAGIC <==> MagicAt(data, at)
    ensures buf[6..14] == data[at + 6..at + 14] && buf[26] == data[at + 26]
  {
    assert buf[..4] == [data[at], data[at + 1], data[at + 2], data[at + 3]];
    assert forall i :: 0 <= i < 8 ==> buf[6..14][i] == buf[6 + i] == data[at + 6..at + 14][i];
  }

  method SumOf(table: seq<Byte>) returns (total: nat)
    ensures total == Sum(table)
  {
    total := 0;
    for i := 0 to |table|
      invariant total + Sum(table[i..]) == Sum(table)
    {
      total := total + table[i] as int;
    }
  }

  // ---------- the page layout, byte by byte ----------

  lemma {:induction false} SumOfTwo(a: seq<Byte>, b: seq<Byte>)
    ensures Sum(a + b) == Sum(a) + Sum(b)
    ensures forall x :: Sum([x]) == x as int
  {
    if a == [] {
      assert a + b == b;
    } else {
      SumOfTwo(a[1..], b);
      assert (a + b)[1..] == a[1..] + b;
    }
    assert forall x: Byte :: [x][1..] == [];
  }

  lemma FourBytes(b: seq<Byte>)
    requires |b| >= 4
    ensures FromLittleEndian(b) == b[0] as int + 0x100 * b[1] as int + 0x1_0000 * b[2] as int + 0x100_0000 * b[3] as int
      + 0x1_0000_0000 * FromLittleEndian(b[4..])
  {
    var b1 := b[1..];
    var b2 := b1[1..];
    var b3 := b2[1..];
    assert b3[1..] == b[4..] && b1[0] == b[1] && b2[0] == b[2] && b3[0] == b[3];
    assert FromLittleEndian(b) == b[0] as int + 256 * FromLittleEndian(b1);
    assert FromLittleEndian(b1) == b[1] as int + 256 * FromLittleEndian(b2);
    assert FromLittleEndian(b2) == b[2] as int + 256 * FromLittleEndian(b3);
    assert FromLittleEndian(b3) == b[3] as int + 256 * FromLittleEndian(b[4..]);
  }

  lemma EightBytes(b: seq<Byte>)
    requires |b| == 8
    ensures FromLittleEndian(b) == b[0] as int + 0x100 * b[1] as int + 0x1_0000 * b[2] as int + 0x100_0000 * b[3] as int
      + 0x1_0000_0000 * b[4] as int + 0x100_0000_0000 * b[5] as int
      + 0x1_0000_0000_0000 * b[6] as int + 0x100_0000_0000_0000 * b[7] as int
  {
    FourBytes(b);
    FourBytes(b[4..]);
    assert b[4..][4..] == [] && FromLittleEndian([]) == 0;
    hide FromLittleEndian;
  }

  /** A page as its bytes stand in the file: the capture pattern, eight bytes of granule position from offset 6, lowest
      first, the number of segments at offset 26, their lengths, and as many bytes of body as these add up to. */
  lemma {:induction false} ScanOfBytes(s: seq<Byte>, g: int, body: nat, best: int)
    requires |s| >= 27 && s[..4] == [79, 103, 103, 83]
    requires g == s[6] as int + 0x100 * s[7] as int + 0x1_0000 * s[8] as int + 0x100_0000 * s[9] as int
      + 0x1_0000_0000 * s[10] as int + 0x100_0000_0000 * s[11] as int
      + 0x1_0000_0000_0000 * s[12] as int + 0x100_0000_0000_0000 * s[13] as int
    requires 27 + s[26] as int <= |s| && body == Sum(s[27..27 + s[26] as int])
    requires 27 + s[26] as int + body <= |s|
    ensures var granule := if g < 0x8000_0000_0000_0000 then g else g - 0x1_0000_0000_0000_0000;
      Scan(s, best) == Scan(s[27 + s[26] as int + body..], if granule > best then granule else best)
  {
    EightBytes(s[6..14]);
    assert s[..4][0] == s[0] && s[..4][1] == s[1] && s[..4][2] == s[2] && s[..4][3] == s[3];
    hide FromLittleEndian, Sum;
  }

  // ---------- what the scan finds in a stream ----------

  function ToLittleEndian(n: nat, size: nat): (bytes: seq<Byte>)
    ensures |bytes| == size
  {
    if size == 0 then [] else [(n % 256) as Byte] + ToLittleEndian(n / 256, size - 1)
  }

  function Power256(size: nat): nat {
    if size == 0 then 1 else 256 * Power256(size - 1)
  }

  lemma {:induction false} LittleEndianRoundTrip(n: nat, size: nat)
    requires n < Power256(size)
    ensures FromLittleEndian(ToLittleEndian(n, size)) == n
  {
    if size > 0 {
      LittleEndianRoundTrip(n / 256, size - 1);
    }
  }

  datatype Page = Page(version: Byte, flags: Byte, granule: int, serial: nat, sequence: nat, checksum: nat,
                       table: seq<Byte>, body: seq<Byte>)

  predicate WellFormed(p: Page) {
    && -TWO_63 <= p.granule < TWO_63
    && |p.table| <= 255
    && |p.body| == Sum(p.table)
  }

  function Encode(p: Page): seq<Byte>
    requires WellFormed(p)
  {
    MAGIC + [p.version, p.flags]
    + ToLittleEndian(p.granule % (2 * TWO_63), 8)
    + ToLittleEndian(p.serial, 4) + ToLittleEndian(p.sequence, 4) + ToLittleEndian(p.checksum, 4)
    + [|p.table| as Byte] + p.table + p.body
  }

  /** No capture pattern begins in these bytes. */
  predicate Quiet(junk: seq<Byte>) {
    forall i :: 0 <= i < |junk| ==> !MagicAt(junk, i)
  }

  /** Junk and pages in turn; the junk may be empty. */
  datatype Part = Part(junk: seq<Byte>, page: Page)

  predicate Clean(parts: seq<Part>) {
    forall i :: 0 <= i < |parts| ==> Quiet(parts[i].junk) && WellFormed(parts[i].page)
  }

  function Stream(parts: seq<Part>, tail: seq<Byte>): seq<Byte>
    requires Clean(parts)
  {
    if parts == [] then tail else parts[0].junk + (Encode(parts[0].page) + Stream(parts[1..], tail))
  }

  function MaxGranule(parts: seq<Part>, best: int): int {
    if parts == [] then best else MaxGranule(parts[1..], Max(best, parts[0].page.granule))
  }

  lemma EncodedHeader(p: Page, rest: seq<Byte>)
    requires WellFormed(p)
    ensures var s := Encode(p) + rest;
      && |s| >= HEADER + |p.table| && MagicAt(s, 0)
      && s[6..14] == ToLittleEndian(p.granule % (2 * TWO_63), 8)
      && s[26] as int == |p.table| && s[HEADER..HEADER + |p.table|] == p.table
      && Drop(s, HEADER + |p.table| + Sum(p.table)) == rest
  {
  }

  lemma {:induction false} GranuleRoundTrip(granule: int)
    requires -TWO_63 <= granule < TWO_63
    ensures Signed64(FromLittleEndian(ToLittleEndian(granule % (2 * TWO_63), 8))) == granule
  {
    assert Power256(8) == 2 * TWO_63 by {
      assert Power256(4) == 0x1_0000_0000;
      assert Power256(6) == 0x1_0000_0000_0000;
    }
    LittleEndianRoundTrip(granule % (2 * TWO_63), 8);
  }

  lemma {:induction false} ScanOfPage(p: Page, rest: seq<Byte>, best: int)
    requires WellFormed(p)
    ensures Scan(Encode(p) + rest, best) == Scan(rest, Max(best, p.granule))
  {
    EncodedHeader(p, rest);
    GranuleRoundTrip(p.granule);
    hide Encode, Signed64, FromLittleEndian, ToLittleEndian, Sum;
  }

  /** A capture pattern cannot begin in quiet junk and end in the page after it. */
  lemma NoFalseStart(junk: seq<Byte>, rest: seq<Byte>)
    requires junk != [] && Quiet(junk) && MagicAt(rest, 0)
    ensures !MagicAt(junk + rest, 0)
  {
    var s := junk + rest;
    assert !MagicAt(junk, 0);
    assert s[|junk|] == rest[0] == MAGIC[0];
    assert forall i :: 0 <= i < |junk| ==> s[i] == junk[i];
  }

  lemma QuietTail(junk: seq<Byte>)
    requires junk != [] && Quiet(junk)
    ensures Quiet(junk[1..])
  {
    forall i | 0 <= i < |junk[1..]| ensures !MagicAt(junk[1..], i) {
      assert !MagicAt(junk, i + 1);
    }
  }

  lemma {:induction false} ScanSkipsJunk(junk: seq<Byte>, rest: seq<Byte>, best: int)
    requires Quiet(junk) && |rest| >= HEADER && MagicAt(rest, 0)
    ensures Scan(junk + rest, best) == Scan(rest, best)
    decreases |junk|
  {
    hide MagicAt, Quiet;
    if junk == [] {
      assert junk + rest == rest;
    } else {
      NoFalseStart(junk, rest);
      assert (junk + rest)[1..] == junk[1..] + rest;
      QuietTail(junk);
      ScanSkipsJunk(junk[1..], rest, best);
    }
  }

  lemma {:induction false} ScanOfTail(tail: seq<Byte>, best: int)
    requires Quiet(tail)
    ensures Scan(tail, best) == best
    decreases |tail|
  {
    if |tail| >= HEADER {
      assert !MagicAt(tail, 0);
      QuietTail(tail);
      hide MagicAt;
      ScanOfTail(tail[1..], best);
    }
  }

  /** The scan undoes the encoder: on pages interleaved with junk it finds the largest granule position. */
  lemma {:induction false} ScanFindsMaxGranule(parts: seq<Part>, tail: seq<Byte>, best: int)
    requires Clean(parts) && Quiet(tail)
    ensures Scan(Stream(parts, tail), best) == MaxGranule(parts, best)
    decreases |parts|
  {
    if parts == [] {
      ScanOfTail(tail, best);
    } else {
      var p, rest := parts[0].page, Stream(parts[1..], tail);
      EncodedHeader(p, rest);
      ScanSkipsJunk(parts[0].junk, Encode(p) + rest, best);
      ScanOfPage(p, rest, best);
      ScanFindsMaxGranule(parts[1..], tail, Max(best, p.granule));
    }
  }

  lemma {:induction false} MaxGranuleIsMaximum(parts: seq<Part>, best: int)
    ensures MaxGranule(parts, best) >= best
    ensures forall i :: 0 <= i < |parts| ==> parts[i].page.granule <= MaxGranule(parts, best)
    ensures MaxGranule(parts, best) == best
            || exists i :: 0 <= i < |parts| && parts[i].page.granule == MaxGranule(parts, best)
    decreases |parts|
  {
    if parts != [] {
      MaxGranuleIsMaximum(parts[1..], Max(best, parts[0].page.granule));
      assert forall i :: 0 < i < |parts| ==> parts[i] == parts[1..][i - 1];
    }
  }
}
