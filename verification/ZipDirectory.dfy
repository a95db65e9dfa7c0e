// The check made on a ZIP file before any of it is unpacked: the end record and
// the central directory, byte by byte (sections 4.3.12, 4.3.16 and 4.5.1 of
// PKWARE APPNOTE.TXT).
module ZipDirectory {
  import opened Results

  type Byte = b: nat | b < 256

  const MAX_ENTRIES: nat := 4096
  const MAX_TAIL: nat := 65_557
  const MAX_DIRECTORY: nat := 4 * 1024 * 1024

  // ---- Little-endian numbers ----

  function U16At(b: seq<Byte>, i: nat): (n: nat)
    requires i + 2 <= |b|
    ensures n < 0x1_0000
  {
    (b[i] as nat) + 256 * (b[i + 1] as nat)
  }

  function U32At(b: seq<Byte>, i: nat): (n: nat)
    requires i + 4 <= |b|
    ensures n < 0x1_0000_0000
  {
    U16At(b, i) + 0x1_0000 * U16At(b, i + 2)
  }

  function U16(n: nat): (b: seq<Byte>)
    requires n < 0x1_0000
    ensures |b| == 2 && U16At(b, 0) == n
  {
    [n % 256, n / 256]
  }

  function U32(n: nat): (b: seq<Byte>)
    requires n < 0x1_0000_0000
    ensures |b| == 4 && U32At(b, 0) == n
  {
    var b := U16(n % 0x1_0000) + U16(n / 0x1_0000);
    assert U16At(b, 0) == n % 0x1_0000 && U16At(b, 2) == n / 0x1_0000;
    b
  }

  lemma Halves(lo: nat, hi: nat)
    requires lo < 0x1_0000
    ensures (lo + 0x1_0000 * hi) % 0x1_0000 == lo && (lo + 0x1_0000 * hi) / 0x1_0000 == hi
  {
  }

  // The number at a place, written again, is the bytes of that place.
  lemma PieceU16(b: seq<Byte>, i: nat)
    requires i + 2 <= |b|
    ensures U16(U16At(b, i)) == b[i..i + 2]
  {
    var low, high := b[i] as nat, b[i + 1] as nat;
    assert (low + 256 * high) % 256 == low && (low + 256 * high) / 256 == high;
  }

  lemma PieceU32(b: seq<Byte>, i: nat)
    requires i + 4 <= |b|
    ensures U32(U32At(b, i)) == b[i..i + 4]
  {
    Halves(U16At(b, i), U16At(b, i + 2));
    PieceU16(b, i);
    PieceU16(b, i + 2);
    assert b[i..i + 4] == b[i..i + 2] + b[i + 2..i + 4];
  }

  // Least significant byte first.
  lemma NumberBytes(b: seq<Byte>, i: nat)
    requires i + 4 <= |b|
    ensures U16At(b, i) == b[i] as nat + 0x100 * b[i + 1] as nat
    ensures U32At(b, i) == b[i] as nat + 0x100 * b[i + 1] as nat + 0x1_0000 * b[i + 2] as nat + 0x100_0000 * b[i + 3] as nat
  {
  }

  // ---- Extra fields (4.5.1): a list of tags, lengths and values ----

  datatype Extra = Extra(kind: nat, data: seq<Byte>)

  // ZIP64, PKWARE UNIX and ASi UNIX.
  predicate Forbidden(kind: nat) {
    kind == 0x0001 || kind == 0x000d || kind == 0x756e
  }

  predicate WellExtra(x: Extra) {
    x.kind < 0x1_0000 && !Forbidden(x.kind) && |x.data| < 0x1_0000
  }

  predicate WellExtras(xs: seq<Extra>) {
    forall x | x in xs :: WellExtra(x)
  }

  function PrintExtra(x: Extra): seq<Byte>
    requires WellExtra(x)
  {
    U16(x.kind) + U16(|x.data|) + x.data
  }

  function PrintExtras(xs: seq<Extra>): seq<Byte>
    requires WellExtras(xs)
  {
    if xs == [] then [] else PrintExtra(xs[0]) + PrintExtras(xs[1..])
  }

  function ParseExtras(b: seq<Byte>): Option<seq<Extra>>
    decreases |b|
  {
    if b == [] then Some([])
    else if |b| < 4 then None
    else
      var kind, size := U16At(b, 0), U16At(b, 2);
      if size + 4 > |b| || Forbidden(kind) then None
      else
        var rest := ParseExtras(b[4 + size..]);
        if rest.None? then None else Some([Extra(kind, b[4..4 + size])] + rest.value)
  }

  lemma ExtraFields(x: Extra, rest: seq<Byte>)
    requires WellExtra(x)
    ensures var b := PrintExtra(x) + rest;
            && |b| >= 4 && U16At(b, 0) == x.kind && U16At(b, 2) == |x.data|
            && 4 + |x.data| <= |b| && b[4..4 + |x.data|] == x.data && b[4 + |x.data|..] == rest
  {
  }

  lemma {:induction false} ParsePrintExtras(xs: seq<Extra>)
    requires WellExtras(xs)
    ensures ParseExtras(PrintExtras(xs)) == Some(xs)
  {
    if xs != [] {
      ExtraFields(xs[0], PrintExtras(xs[1..]));
      ParsePrintExtras(xs[1..]);
      assert xs == [xs[0]] + xs[1..];
    }
  }

  lemma PrintExtraFront(b: seq<Byte>)
    requires |b| >= 4 && 4 + U16At(b, 2) <= |b| && !Forbidden(U16At(b, 0))
    ensures var size := U16At(b, 2);
            var x := Extra(U16At(b, 0), b[4..4 + size]);
            WellExtra(x) && PrintExtra(x) + b[4 + size..] == b
  {
    PieceU16(b, 0);
    PieceU16(b, 2);
  }

  lemma {:induction false} PrintParseExtras(b: seq<Byte>)
    requires ParseExtras(b).Some?
    ensures WellExtras(ParseExtras(b).value) && PrintExtras(ParseExtras(b).value) == b
    decreases |b|
  {
    if b != [] {
      var rest := b[4 + U16At(b, 2)..];
      PrintParseExtras(rest);
      PrintExtraFront(b);
      assert ParseExtras(b).value[1..] == ParseExtras(rest).value;
    }
  }

  // The loop over one extra block.
  method CheckExtras(block: seq<Byte>) returns (ok: bool)
    ensures ok <==> ParseExtras(block).Some?
  {
    var extra := block;
    while extra != []
      invariant ParseExtras(block).Some? <==> ParseExtras(extra).Some?
      decreases |extra|
    {
      if |extra| < 4 {
        return false;
      }
      var kind, size := U16At(extra, 0), U16At(extra, 2);
      if size + 4 > |extra| || Forbidden(kind) {
        return false;
      }
      extra := extra[4 + size..];
    }
    return true;
  }

  // ---- Central directory headers (4.3.12) ----

  // fixed: versions, flags, method, time, date, checksum and sizes (24 bytes);
  // attributes: internal attributes; offset: of the local header.
  datatype Header = Header(
    fixed: seq<Byte>, attributes: seq<Byte>, external: nat, offset: seq<Byte>,
    name: seq<Byte>, extras: seq<Extra>, comment: seq<Byte>)

  predicate ReparsePoint(external: nat) {
    (external / 0x400) % 2 == 1
  }

  predicate WellHeader(h: Header) {
    && |h.fixed| == 24 && |h.attributes| == 2 && |h.offset| == 4
    && h.external < 0x1_0000_0000 && !ReparsePoint(h.external)
    && |h.name| < 0x1_0000 && |h.comment| < 0x1_0000
    && WellExtras(h.extras) && |PrintExtras(h.extras)| < 0x1_0000
  }

  const HEADER_MARK: seq<Byte> := [0x50, 0x4b, 0x01, 0x02]

  function PrintHeader(h: Header): seq<Byte>
    requires WellHeader(h)
  {
    FixedPart(h) + h.name + PrintExtras(h.extras) + h.comment
  }

  function FixedPart(h: Header): (b: seq<Byte>)
    requires WellHeader(h)
    ensures |b| == 46
  {
    HEADER_MARK + h.fixed + U16(|h.name|) + U16(|PrintExtras(h.extras)|) + U16(|h.comment|)
      + U16(0) + h.attributes + U32(h.external) + h.offset
  }

  ghost predicate WellHeaders(hs: seq<Header>) {
    forall h | h in hs :: WellHeader(h)
  }

  function PrintHeaders(hs: seq<Header>): seq<Byte>
    requires WellHeaders(hs)
  {
    if hs == [] then [] else PrintHeader(hs[0]) + PrintHeaders(hs[1..])
  }

  // Where the name, the extra block and the whole header at the front end.
  function NameEnd(b: seq<Byte>): nat
    requires |b| >= 46
  {
    46 + U16At(b, 28)
  }

  function ExtraEnd(b: seq<Byte>): nat
    requires |b| >= 46
  {
    NameEnd(b) + U16At(b, 30)
  }

  function HeaderEnd(b: seq<Byte>): nat
    requires |b| >= 46
  {
    ExtraEnd(b) + U16At(b, 32)
  }

  // The length of the header at the front, when it is acceptable.
  function HeaderLength(b: seq<Byte>): (r: Option<nat>)
    ensures r.Some? ==> 46 <= r.value <= |b|
  {
    if |b| < 46 || b[..4] != HEADER_MARK then None
    else if HeaderEnd(b) > |b| || U16At(b, 34) != 0 || ReparsePoint(U32At(b, 38)) then None
    else if ParseExtras(b[NameEnd(b)..ExtraEnd(b)]).None? then None
    else Some(HeaderEnd(b))
  }

  function ReadHeader(b: seq<Byte>): Header
    requires HeaderLength(b).Some?
  {
    Header(b[4..28], b[36..38], U32At(b, 38), b[42..46], b[46..NameEnd(b)],
      ParseExtras(b[NameEnd(b)..ExtraEnd(b)]).value, b[ExtraEnd(b)..HeaderEnd(b)])
  }

  function ParseHeaders(b: seq<Byte>, count: nat): Option<seq<Header>> {
    if count == 0 then (if b == [] then Some([]) else None)
    else
      var length := HeaderLength(b);
      if length.None? then None
      else
        var rest := ParseHeaders(b[length.value..], count - 1);
        if rest.None? then None else Some([ReadHeader(b)] + rest.value)
  }

  lemma FixedFields(h: Header, rest: seq<Byte>)
    requires WellHeader(h)
    ensures var b := FixedPart(h) + rest;
            && b[..4] == HEADER_MARK && b[4..28] == h.fixed
            && U16At(b, 28) == |h.name| && U16At(b, 30) == |PrintExtras(h.extras)| && U16At(b, 32) == |h.comment|
            && U16At(b, 34) == 0 && b[36..38] == h.attributes && U32At(b, 38) == h.external && b[42..46] == h.offset
  {
    var b := FixedPart(h) + rest;
    assert b[28..30] == U16(|h.name|);
    assert b[30..32] == U16(|PrintExtras(h.extras)|);
    assert b[32..34] == U16(|h.comment|);
    assert b[34..36] == U16(0);
    assert b[38..42] == U32(h.external);
  }

  lemma PrintedParts(h: Header, rest: seq<Byte>)
    requires WellHeader(h)
    ensures var b := PrintHeader(h) + rest;
            var n, e := 46 + |h.name|, 46 + |h.name| + |PrintExtras(h.extras)|;
            && e + |h.comment| == |PrintHeader(h)| && b == FixedPart(h) + (b[46..])
            && b[46..n] == h.name && b[n..e] == PrintExtras(h.extras) && b[e..e + |h.comment|] == h.comment
            && b[e + |h.comment|..] == rest
  {
    var b := PrintHeader(h) + rest;
    assert b == FixedPart(h) + (h.name + PrintExtras(h.extras) + h.comment + rest);
  }

  lemma ReadParts(b: seq<Byte>, h: Header)
    requires WellHeader(h) && |b| >= 46 && HeaderEnd(b) <= |b| && b[..4] == HEADER_MARK && b[4..28] == h.fixed
    requires U16At(b, 34) == 0 && b[36..38] == h.attributes && U32At(b, 38) == h.external && b[42..46] == h.offset
    requires b[46..NameEnd(b)] == h.name && b[ExtraEnd(b)..HeaderEnd(b)] == h.comment
    requires b[NameEnd(b)..ExtraEnd(b)] == PrintExtras(h.extras)
    ensures HeaderLength(b) == Some(HeaderEnd(b)) && ReadHeader(b) == h
  {
    ParsePrintExtras(h.extras);
  }

  lemma ReadPrinted(h: Header, rest: seq<Byte>)
    requires WellHeader(h)
    ensures var b := PrintHeader(h) + rest;
            HeaderLength(b) == Some(|PrintHeader(h)|) && ReadHeader(b) == h && b[|PrintHeader(h)|..] == rest
  {
    var b := PrintHeader(h) + rest;
    PrintedParts(h, rest);
    FixedFields(h, b[46..]);
    assert NameEnd(b) == 46 + |h.name|;
    ReadParts(b, h);
  }

  lemma ParseFront(b: seq<Byte>, h: Header, length: nat, hs: seq<Header>)
    requires HeaderLength(b) == Some(length) && ReadHeader(b) == h
    requires ParseHeaders(b[length..], |hs|) == Some(hs)
    ensures ParseHeaders(b, |hs| + 1) == Some([h] + hs)
  {
  }

  // ---- An acceptable header, byte by byte ----

  // Tag, length and value one after another, of any kind but ZIP64, PKWARE UNIX and ASi UNIX.
  ghost predicate ExtraBytes(b: seq<Byte>) {
    b == [] ||
    ( && |b| >= 4
      && var kind, size := b[0] as nat + 0x100 * b[1] as nat, b[2] as nat + 0x100 * b[3] as nat;
         && kind != 0x0001 && kind != 0x000d && kind != 0x756e
         && 4 + size <= |b| && ExtraBytes(b[4 + size..]))
  }

  ghost function Short(b: seq<Byte>, i: nat): nat
    requires i + 2 <= |b|
  {
    b[i] as nat + 0x100 * b[i + 1] as nat
  }

  // The mark, the first disk, and no reparse point among the attributes.
  ghost predicate FrontBytes(b: seq<Byte>)
    requires |b| >= 46
  {
    && b[0] == 0x50 && b[1] == 0x4b && b[2] == 0x01 && b[3] == 0x02
    && b[34] == 0 && b[35] == 0
    && (b[39] as nat / 4) % 2 == 0
  }

  // Three lengths, and in the second piece acceptable extra fields.
  ghost predicate HeaderBytes(b: seq<Byte>, length: nat) {
    && |b| >= 46 && FrontBytes(b)
    && length == 46 + Short(b, 28) + Short(b, 30) + Short(b, 32) <= |b|
    && ExtraBytes(b[46 + Short(b, 28)..46 + Short(b, 28) + Short(b, 30)])
  }

  lemma {:induction false} ExtrasInBytes(b: seq<Byte>)
    ensures ParseExtras(b).Some? <==> ExtraBytes(b)
    decreases |b|
  {
    if |b| >= 4 && 4 + U16At(b, 2) <= |b| {
      ExtrasInBytes(b[4 + U16At(b, 2)..]);
    }
  }

  lemma ReparseBit(b: seq<Byte>, i: nat)
    requires i + 4 <= |b|
    ensures ReparsePoint(U32At(b, i)) <==> (b[i + 1] as nat / 4) % 2 == 1
  {
    var low, high, rest := b[i] as nat, b[i + 1] as nat, b[i + 2] as nat + 0x100 * b[i + 3] as nat;
    assert U32At(b, i) / 0x400 == high / 4 + 0x40 * rest by {
      assert high == 4 * (high / 4) + high % 4;
      assert U32At(b, i) == 0x400 * (high / 4 + 0x40 * rest) + (0x100 * (high % 4) + low);
    }
  }

  lemma FrontInBytes(b: seq<Byte>)
    requires |b| >= 46
    ensures FrontBytes(b) <==> b[..4] == HEADER_MARK && U16At(b, 34) == 0 && !ReparsePoint(U32At(b, 38))
  {
    assert b[..4] == [b[0], b[1], b[2], b[3]];
    ReparseBit(b, 38);
  }

  lemma HeaderParts(b: seq<Byte>, length: nat)
    requires |b| >= 46
    ensures HeaderLength(b) == Some(length) <==>
            && b[..4] == HEADER_MARK && U16At(b, 34) == 0 && !ReparsePoint(U32At(b, 38))
            && length == HeaderEnd(b) <= |b| && ParseExtras(b[NameEnd(b)..ExtraEnd(b)]).Some?
  {
  }

  // A header of this length is accepted exactly if its bytes are such.
  lemma HeaderInBytes(b: seq<Byte>, length: nat)
    ensures HeaderLength(b) == Some(length) <==> HeaderBytes(b, length)
  {
    if |b| >= 46 {
      HeaderParts(b, length);
      FrontInBytes(b);
      if HeaderEnd(b) <= |b| {
        ExtrasInBytes(b[NameEnd(b)..ExtraEnd(b)]);
      }
    }
  }

  // Reading back what was printed.
  lemma {:induction false} ParsePrintHeaders(hs: seq<Header>)
    requires WellHeaders(hs)
    ensures ParseHeaders(PrintHeaders(hs), |hs|) == Some(hs)
  {
    if hs != [] {
      var rest := PrintHeaders(hs[1..]);
      ReadPrinted(hs[0], rest);
      ParsePrintHeaders(hs[1..]);
      ParseFront(PrintHeader(hs[0]) + rest, hs[0], |PrintHeader(hs[0])|, hs[1..]);
      assert hs == [hs[0]] + hs[1..];
    }
  }

  lemma Prefix(b: seq<Byte>, i: nat, j: nat)
    requires i <= j <= |b|
    ensures b[..i] + b[i..j] == b[..j]
  {
  }

  lemma FixedPieces(b: seq<Byte>)
    requires |b| >= 46 && U16At(b, 34) == 0
    ensures b[..4] + b[4..28] + U16(U16At(b, 28)) + U16(U16At(b, 30)) + U16(U16At(b, 32))
            + U16(0) + b[36..38] + U32(U32At(b, 38)) + b[42..46] == b[..46]
  {
    PieceU16(b, 28);
    PieceU16(b, 30);
    PieceU16(b, 32);
    PieceU16(b, 34);
    PieceU32(b, 38);
    Prefix(b, 4, 28);
    Prefix(b, 28, 30);
    Prefix(b, 30, 32);
    Prefix(b, 32, 34);
    Prefix(b, 34, 36);
    Prefix(b, 36, 38);
    Prefix(b, 38, 42);
    Prefix(b, 42, 46);
  }

  lemma ReadExtras(b: seq<Byte>)
    requires HeaderLength(b).Some?
    ensures var xs := ReadHeader(b).extras;
            WellExtras(xs) && PrintExtras(xs) == b[NameEnd(b)..ExtraEnd(b)] && |PrintExtras(xs)| == U16At(b, 30)
  {
    PrintParseExtras(b[NameEnd(b)..ExtraEnd(b)]);
  }

  lemma ReadIsWell(b: seq<Byte>)
    requires HeaderLength(b).Some?
    ensures var h := ReadHeader(b);
            && WellHeader(h) && |h.name| == U16At(b, 28) && |PrintExtras(h.extras)| == U16At(b, 30)
            && |h.comment| == U16At(b, 32) && PrintExtras(h.extras) == b[NameEnd(b)..ExtraEnd(b)]
  {
    ReadExtras(b);
  }

  lemma FixedRead(b: seq<Byte>, h: Header)
    requires |b| >= 46 && U16At(b, 34) == 0 && b[..4] == HEADER_MARK
    requires WellHeader(h) && h.fixed == b[4..28] && |h.name| == U16At(b, 28)
    requires |PrintExtras(h.extras)| == U16At(b, 30) && |h.comment| == U16At(b, 32)
    requires h.attributes == b[36..38] && h.external == U32At(b, 38) && h.offset == b[42..46]
    ensures FixedPart(h) == b[..46]
  {
    FixedPieces(b);
  }

  lemma VariableRead(b: seq<Byte>, h: Header, n: nat, e: nat, end: nat)
    requires WellHeader(h) && 46 <= n <= e <= end <= |b| && FixedPart(h) == b[..46]
    requires h.name == b[46..n] && PrintExtras(h.extras) == b[n..e] && h.comment == b[e..end]
    ensures PrintHeader(h) == b[..end]
  {
    Prefix(b, 46, n);
    Prefix(b, n, e);
    Prefix(b, e, end);
  }

  lemma PrintRead(b: seq<Byte>)
    requires HeaderLength(b).Some?
    ensures WellHeader(ReadHeader(b)) && PrintHeader(ReadHeader(b)) == b[..HeaderLength(b).value]
  {
    ReadIsWell(b);
    FixedRead(b, ReadHeader(b));
    VariableRead(b, ReadHeader(b), NameEnd(b), ExtraEnd(b), HeaderEnd(b));
  }

  lemma PrintFront(b: seq<Byte>, h: Header, length: nat, hs: seq<Header>)
    requires WellHeader(h) && WellHeaders(hs) && length <= |b|
    requires PrintHeader(h) == b[..length] && PrintHeaders(hs) == b[length..]
    ensures WellHeaders([h] + hs) && PrintHeaders([h] + hs) == b
  {
    var all := [h] + hs;
    assert all[1..] == hs;
    assert b == b[..length] + b[length..];
  }

  lemma {:induction false} PrintParseHeaders(b: seq<Byte>, count: nat)
    requires ParseHeaders(b, count).Some?
    ensures var hs := ParseHeaders(b, count).value;
            |hs| == count && WellHeaders(hs) && PrintHeaders(hs) == b
  {
    if count > 0 {
      var length := HeaderLength(b).value;
      PrintRead(b);
      PrintParseHeaders(b[length..], count - 1);
      PrintFront(b, ReadHeader(b), length, ParseHeaders(b[length..], count - 1).value);
    }
  }

  // The bytes are exactly `count` well-formed headers, one after another.
  ghost predicate IsDirectory(b: seq<Byte>, count: nat) {
    exists hs :: |hs| == count && WellHeaders(hs) && PrintHeaders(hs) == b
  }

  lemma ParseDecidesDirectory(b: seq<Byte>, count: nat)
    ensures ParseHeaders(b, count).Some? <==> IsDirectory(b, count)
  {
    if ParseHeaders(b, count).Some? {
      PrintParseHeaders(b, count);
    }
    if IsDirectory(b, count) {
      var hs :| |hs| == count && WellHeaders(hs) && PrintHeaders(hs) == b;
      ParsePrintHeaders(hs);
    }
  }

  lemma ParseStep(headers: seq<Byte>, cursor: nat, end: nat, left: nat)
    requires cursor < end <= |headers| && left > 0
    requires HeaderLength(headers[cursor..]) == Some(end - cursor)
    ensures ParseHeaders(headers[cursor..], left).Some? <==> ParseHeaders(headers[end..], left - 1).Some?
  {
    assert headers[cursor..][end - cursor..] == headers[end..];
  }

  // One header at the cursor.
  method MeasureHeader(headers: seq<Byte>, cursor: nat) returns (end: Option<nat>)
    requires cursor <= |headers|
    ensures HeaderLength(headers[cursor..]) == if end.None? then None else Some(end.value - cursor)
    ensures end.Some? ==> cursor < end.value <= |headers|
  {
    if cursor + 46 > |headers| || headers[cursor..cursor + 4] != HEADER_MARK {
      return None;
    }
    var header := headers[cursor..];
    assert header[..4] == headers[cursor..cursor + 4];
    var name, extra := U16At(header, 28), U16At(header, 30);
    var stop := cursor + 46 + name + extra + U16At(header, 32);
    if stop > |headers| || U16At(header, 34) != 0 || ReparsePoint(U32At(header, 38)) {
      return None;
    }
    var block := headers[cursor + 46 + name..cursor + 46 + name + extra];
    assert block == header[46 + name..46 + name + extra];
    var extras := CheckExtras(block);
    return if extras then Some(stop) else None;
  }

  // `left` headers are to come, this one included.
  method CheckHeader(headers: seq<Byte>, cursor: nat, ghost left: nat) returns (end: Option<nat>)
    requires cursor <= |headers| && left > 0
    ensures end.Some? ==> cursor < end.value <= |headers|
    ensures ParseHeaders(headers[cursor..], left).Some? <==>
            end.Some? && ParseHeaders(headers[end.value..], left - 1).Some?
  {
    end := MeasureHeader(headers, cursor);
    if end.Some? {
      ParseStep(headers, cursor, end.value, left);
    }
  }

  // The walk over the directory; it never reads outside it.
  method CheckHeaders(headers: seq<Byte>, count: nat) returns (ok: bool)
    ensures ok <==> ParseHeaders(headers, count).Some?
  {
    var cursor: nat := 0;
    assert headers[0..] == headers;
    for i := 0 to count
      invariant cursor <= |headers|
      invariant ParseHeaders(headers, count).Some? <==> ParseHeaders(headers[cursor..], count - i).Some?
    {
      var end := CheckHeader(headers, cursor, count - i);
      if end.None? {
        return false;
      }
      cursor := end.value;
    }
    return cursor == |headers|;
  }

  // ---- The end record (4.3.16) ----

  const END_MARK: seq<Byte> := [0x50, 0x4b, 0x05, 0x06]

  predicate MarkAt(b: seq<Byte>, i: nat) {
    i + 4 <= |b| && b[i..i + 4] == END_MARK
  }

  ghost predicate LastMark(b: seq<Byte>, i: nat) {
    MarkAt(b, i) && forall j: nat | j > i :: !MarkAt(b, j)
  }

  // `rposition` over windows of four bytes.
  method FindLastMark(b: seq<Byte>) returns (r: Option<nat>)
    ensures r.Some? ==> LastMark(b, r.value)
    ensures r.None? ==> forall j: nat :: !MarkAt(b, j)
  {
    var i := |b|;
    while i > 0
      invariant i <= |b|
      invariant forall j: nat | j >= i :: !MarkAt(b, j)
    {
      i := i - 1;
      if i + 4 <= |b| && b[i..i + 4] == END_MARK {
        return Some(i);
      }
    }
    return None;
  }

  // The last end mark within reach of the largest possible comment.
  ghost predicate EndRecordAt(input: seq<Byte>, end: nat) {
    LastMark(input, end) && end + MAX_TAIL >= |input|
  }

  // An end record whose numbers describe the file it stands in.
  predicate Describes(input: seq<Byte>, end: nat, count: nat)
    requires end <= |input|
  {
    && end + 22 <= |input|
    && 0 < count <= MAX_ENTRIES
    && U16At(input, end + 10) == count && U16At(input, end + 8) == count
    && U16At(input, end + 4) == 0 && U16At(input, end + 6) == 0
    && U32At(input, end + 12) <= MAX_DIRECTORY
    && U32At(input, end + 16) + U32At(input, end + 12) == end
    && end + 22 + U16At(input, end + 20) == |input|
  }

  // What acceptance with `count` entries means.
  ghost predicate Accepts(input: seq<Byte>, count: nat) {
    exists end :: 0 <= end <= |input| && EndRecordAt(input, end) && Describes(input, end, count)
      && IsDirectory(input[U32At(input, end + 16)..end], count)
  }

  ghost predicate MarkBytes(b: seq<Byte>, i: nat) {
    i + 4 <= |b| && b[i] == 0x50 && b[i + 1] == 0x4b && b[i + 2] == 0x05 && b[i + 3] == 0x06
  }

  ghost function Number(b: seq<Byte>, i: nat): nat
    requires i + 4 <= |b|
  {
    b[i] as nat + 0x100 * b[i + 1] as nat + 0x1_0000 * b[i + 2] as nat + 0x100_0000 * b[i + 3] as nat
  }

  // The end record byte by byte: one disk, `count` entries on it and in all, and a
  // directory of at most 4 MiB that ends where the record begins.
  ghost predicate FooterBytes(input: seq<Byte>, end: nat, start: nat, count: nat) {
    && end + 22 <= |input| <= end + 65_557
    && MarkBytes(input, end)
    && input[end + 4] == 0 && input[end + 5] == 0 && input[end + 6] == 0 && input[end + 7] == 0
    && 0 < count <= 4096
    && count == Short(input, end + 8) == Short(input, end + 10)
    && Number(input, end + 12) <= 4 * 1024 * 1024 && start + Number(input, end + 12) == end
    && start == Number(input, end + 16)
    && end + 22 + Short(input, end + 20) == |input|
  }

  // The bytes are `count` acceptable headers.
  ghost predicate DirectoryBytes(b: seq<Byte>, count: nat) {
    if count == 0 then b == []
    else exists length: nat :: HeaderBytes(b, length) && 0 < length <= |b| && DirectoryBytes(b[length..], count - 1)
  }

  // An end record with no later mark, before which the whole directory stands.
  ghost predicate ArchiveAt(input: seq<Byte>, end: nat, start: nat, count: nat) {
    && FooterBytes(input, end, start, count)
    && DirectoryBytes(input[start..end], count)
    && forall j: nat | j > end :: !MarkBytes(input, j)
  }

  ghost predicate ArchiveBytes(input: seq<Byte>, count: nat) {
    exists end: nat, start: nat :: ArchiveAt(input, end, start, count)
  }

  lemma {:induction false} DirectoryInBytes(b: seq<Byte>, count: nat)
    ensures ParseHeaders(b, count).Some? <==> DirectoryBytes(b, count)
  {
    if count > 0 {
      if HeaderLength(b).Some? {
        var length := HeaderLength(b).value;
        HeaderInBytes(b, length);
        DirectoryInBytes(b[length..], count - 1);
      }
      forall length: nat | HeaderBytes(b, length) ensures HeaderLength(b) == Some(length) {
        HeaderInBytes(b, length);
      }
    }
  }

  lemma MarkInBytes(b: seq<Byte>, i: nat)
    ensures MarkAt(b, i) <==> MarkBytes(b, i)
  {
    if i + 4 <= |b| {
      assert b[i..i + 4] == [b[i], b[i + 1], b[i + 2], b[i + 3]];
    }
  }

  lemma LastInBytes(input: seq<Byte>, end: nat)
    ensures LastMark(input, end) <==> MarkBytes(input, end) && forall j: nat | j > end :: !MarkBytes(input, j)
  {
    forall j: nat ensures MarkAt(input, j) <==> MarkBytes(input, j) {
      MarkInBytes(input, j);
    }
  }

  lemma FooterInBytes(input: seq<Byte>, end: nat, start: nat, count: nat)
    requires end + 22 <= |input| <= end + MAX_TAIL
    ensures FooterBytes(input, end, start, count) <==>
            MarkBytes(input, end) && Describes(input, end, count) && U32At(input, end + 16) == start
  {
    NumberBytes(input, end + 12);
    NumberBytes(input, end + 16);
  }

  lemma AcceptedAt(input: seq<Byte>, end: nat, start: nat, count: nat)
    requires end <= |input|
    ensures EndRecordAt(input, end) && Describes(input, end, count) && U32At(input, end + 16) == start
              && IsDirectory(input[start..end], count)
            <==> ArchiveAt(input, end, start, count)
  {
    LastInBytes(input, end);
    if end + 22 <= |input| <= end + MAX_TAIL {
      FooterInBytes(input, end, start, count);
      if start <= end {
        ParseDecidesDirectory(input[start..end], count);
        DirectoryInBytes(input[start..end], count);
      }
    }
  }

  lemma AcceptsInBytes(input: seq<Byte>, count: nat)
    ensures Accepts(input, count) <==> ArchiveBytes(input, count)
  {
    if Accepts(input, count) {
      var end :| 0 <= end <= |input| && EndRecordAt(input, end) && Describes(input, end, count)
        && IsDirectory(input[U32At(input, end + 16)..end], count);
      AcceptedAt(input, end, U32At(input, end + 16), count);
    }
    if end: nat, start: nat :| ArchiveAt(input, end, start, count) {
      AcceptedAt(input, end, start, count);
    }
  }

  lemma TailMarks(input: seq<Byte>, start: nat)
    requires start <= |input|
    ensures forall i: nat :: MarkAt(input[start..], i) <==> MarkAt(input, start + i)
  {
    forall i: nat ensures MarkAt(input[start..], i) <==> MarkAt(input, start + i) {
      if start + i + 4 <= |input| {
        assert input[start..][i..i + 4] == input[start + i..start + i + 4];
      }
    }
  }

  lemma EndIsUnique(input: seq<Byte>, e: nat, f: nat)
    requires EndRecordAt(input, e) && EndRecordAt(input, f)
    ensures e == f
  {
  }

  // The last end mark in the tail of the file.
  method FindEnd(input: seq<Byte>) returns (end: Option<nat>)
    ensures end.Some? ==> end.value <= |input| && EndRecordAt(input, end.value)
    ensures end.None? ==> forall e: nat :: !EndRecordAt(input, e)
  {
    var length := |input|;
    var tailLength := if length < MAX_TAIL then length else MAX_TAIL;
    var tail := input[length - tailLength..];
    var found := FindLastMark(tail);
    if found.None? {
      NoEndRecord(input, length - tailLength);
      return None;
    }
    EndInTail(input, length - tailLength, found.value);
    return Some(length - tailLength + found.value);
  }

  // The numbers of the end record at `end`, when they describe the file.
  method ReadFooter(input: seq<Byte>, end: nat) returns (r: Option<nat>)
    requires end <= |input|
    ensures forall count: nat :: r == Some(count) <==> Describes(input, end, count)
  {
    if end + 22 > |input| {
      return None;
    }
    var count, size, start := U16At(input, end + 10), U32At(input, end + 12), U32At(input, end + 16);
    if count == 0 || count > MAX_ENTRIES || U16At(input, end + 8) != count || U16At(input, end + 4) != 0
      || U16At(input, end + 6) != 0 || size > MAX_DIRECTORY || start + size != end
      || end + 22 + U16At(input, end + 20) != |input| {
      return None;
    }
    return Some(count);
  }

  // `preflight_zip`
  method Preflight(input: seq<Byte>) returns (r: Option<nat>)
    ensures forall count: nat :: r == Some(count) <==> Accepts(input, count)
    // Byte by byte:
    ensures forall count: nat :: r == Some(count) <==> ArchiveBytes(input, count)
  {
    r := CheckArchive(input);
    forall count: nat ensures Accepts(input, count) <==> ArchiveBytes(input, count) {
      AcceptsInBytes(input, count);
    }
  }

  method CheckArchive(input: seq<Byte>) returns (r: Option<nat>)
    ensures forall count: nat :: r == Some(count) <==> Accepts(input, count)
  {
    var found := FindEnd(input);
    if found.None? {
      return None;
    }
    var end := found.value;
    var footer := ReadFooter(input, end);
    OnlyEnd(input, end);
    if footer.None? {
      return None;
    }
    var ok := CheckHeaders(input[U32At(input, end + 16)..end], footer.value);
    return if ok then footer else None;
  }

  lemma NoEndRecord(input: seq<Byte>, start: nat)
    requires start <= |input| && (start == 0 || start + MAX_TAIL == |input|)
    requires forall j: nat :: !MarkAt(input[start..], j)
    ensures forall e: nat :: !EndRecordAt(input, e)
  {
    TailMarks(input, start);
    forall end: nat ensures !EndRecordAt(input, end) {
      if end >= start {
        assert !MarkAt(input[start..], end - start);
      }
    }
  }

  lemma EndInTail(input: seq<Byte>, start: nat, i: nat)
    requires start <= |input| && (start == 0 || start + MAX_TAIL == |input|)
    requires LastMark(input[start..], i) && (start == 0 ==> |input| <= MAX_TAIL)
    ensures EndRecordAt(input, start + i)
  {
    TailMarks(input, start);
    forall j: nat | j > start + i ensures !MarkAt(input, j) {
      assert !MarkAt(input[start..], j - start);
    }
  }

  // Acceptance as the loop decides it, with the end record at `end`.
  predicate AcceptsAt(input: seq<Byte>, end: nat, count: nat)
    requires end <= |input|
  {
    Describes(input, end, count) && ParseHeaders(input[U32At(input, end + 16)..end], count).Some?
  }

  // Once the last mark is known, acceptance depends on nothing else.
  lemma OnlyEnd(input: seq<Byte>, end: nat)
    requires end <= |input| && EndRecordAt(input, end)
    ensures forall count: nat :: Accepts(input, count) <==> AcceptsAt(input, end, count)
  {
    forall e: nat | EndRecordAt(input, e) ensures e == end {
      EndIsUnique(input, e, end);
    }
    forall count: nat | Describes(input, end, count)
      ensures var b := input[U32At(input, end + 16)..end]; ParseHeaders(b, count).Some? <==> IsDirectory(b, count)
    {
      ParseDecidesDirectory(input[U32At(input, end + 16)..end], count);
    }
  }

  lemma FooterNumbers(input: seq<Byte>, end: nat)
    requires end + 22 <= |input|
    ensures forall k: nat | k + 2 <= 22 :: U16At(input[end..], k) == U16At(input, end + k)
    ensures forall k: nat | k + 4 <= 22 :: U32At(input[end..], k) == U32At(input, end + k)
  {
  }

  // ---- Writing an archive ----

  function EndRecord(count: nat, size: nat, start: nat, comment: seq<Byte>): (b: seq<Byte>)
    requires count < 0x1_0000 && size < 0x1_0000_0000 && start < 0x1_0000_0000 && |comment| < 0x1_0000
    ensures |b| == 22 + |comment|
  {
    END_MARK + U16(0) + U16(0) + U16(count) + U16(count) + U32(size) + U32(start) + U16(|comment|) + comment
  }

  predicate Writable(body: seq<Byte>, hs: seq<Header>, comment: seq<Byte>)
    requires WellHeaders(hs)
  {
    && 0 < |hs| <= MAX_ENTRIES
    && |PrintHeaders(hs)| <= MAX_DIRECTORY
    && |body| < 0x1_0000_0000 && |comment| < 0x1_0000
  }

  function PrintArchive(body: seq<Byte>, hs: seq<Header>, comment: seq<Byte>): seq<Byte>
    requires WellHeaders(hs) && Writable(body, hs, comment)
  {
    body + PrintHeaders(hs) + EndRecord(|hs|, |PrintHeaders(hs)|, |body|, comment)
  }

  // No end mark starts inside the end record itself or its comment.
  ghost predicate NoLaterMark(record: seq<Byte>) {
    forall j: nat | j > 0 :: !MarkAt(record, j)
  }

  lemma EndFields(count: nat, size: nat, start: nat, comment: seq<Byte>)
    requires count < 0x1_0000 && size < 0x1_0000_0000 && start < 0x1_0000_0000 && |comment| < 0x1_0000
    ensures var b := EndRecord(count, size, start, comment);
      && MarkAt(b, 0) && U16At(b, 4) == 0 && U16At(b, 6) == 0 && U16At(b, 8) == count && U16At(b, 10) == count
      && U32At(b, 12) == size && U32At(b, 16) == start && U16At(b, 20) == |comment|
  {
    var b := EndRecord(count, size, start, comment);
    assert b[4..6] == U16(0) && b[6..8] == U16(0) && b[8..10] == U16(count) && b[10..12] == U16(count);
    assert b[12..16] == U32(size) && b[16..20] == U32(start) && b[20..22] == U16(|comment|);
  }

  lemma PrintedEnd(front: seq<Byte>, record: seq<Byte>)
    requires MarkAt(record, 0) && |record| <= MAX_TAIL
    ensures EndRecordAt(front + record, |front|) <==> NoLaterMark(record)
  {
    var input := front + record;
    assert input[|front|..] == record;
    TailMarks(input, |front|);
    assert MarkAt(record, 0) <==> MarkAt(input, |front| + 0);
    if NoLaterMark(record) {
      forall j: nat | j > |front| ensures !MarkAt(input, j) {
        assert !MarkAt(record, j - |front|);
      }
    } else {
      var j: nat :| j > 0 && MarkAt(record, j);
      assert MarkAt(input, |front| + j);
    }
  }

  lemma PrintedDescribes(front: seq<Byte>, count: nat, size: nat, start: nat, comment: seq<Byte>)
    requires 0 < count <= MAX_ENTRIES && size <= MAX_DIRECTORY && start < 0x1_0000_0000 && |comment| < 0x1_0000
    requires start + size == |front|
    ensures var input := front + EndRecord(count, size, start, comment);
            Describes(input, |front|, count) && U32At(input, |front| + 16) == start
  {
    var record := EndRecord(count, size, start, comment);
    var input := front + record;
    assert input[|front|..] == record;
    EndFields(count, size, start, comment);
    FooterNumbers(input, |front|);
  }

  // Where the end record of a printed archive stands.
  function WrittenEnd(body: seq<Byte>, hs: seq<Header>): nat
    requires WellHeaders(hs)
  {
    |body| + |PrintHeaders(hs)|
  }

  function WrittenRecord(body: seq<Byte>, hs: seq<Header>, comment: seq<Byte>): seq<Byte>
    requires WellHeaders(hs) && Writable(body, hs, comment)
  {
    EndRecord(|hs|, |PrintHeaders(hs)|, |body|, comment)
  }

  // The record that is read is the one that was written exactly when no end mark
  // starts later in it.
  lemma WrittenRecordIsRead(body: seq<Byte>, hs: seq<Header>, comment: seq<Byte>)
    requires WellHeaders(hs) && Writable(body, hs, comment)
    ensures EndRecordAt(PrintArchive(body, hs, comment), WrittenEnd(body, hs))
            <==> NoLaterMark(WrittenRecord(body, hs, comment))
  {
    EndFields(|hs|, |PrintHeaders(hs)|, |body|, comment);
    PrintedEnd(body + PrintHeaders(hs), WrittenRecord(body, hs, comment));
  }

  // A printed archive is then accepted with its number of entries.
  lemma PrintedIsAccepted(body: seq<Byte>, hs: seq<Header>, comment: seq<Byte>)
    requires WellHeaders(hs) && Writable(body, hs, comment)
    requires NoLaterMark(WrittenRecord(body, hs, comment))
    ensures Accepts(PrintArchive(body, hs, comment), |hs|)
  {
    var front := body + PrintHeaders(hs);
    var input := front + WrittenRecord(body, hs, comment);
    WrittenRecordIsRead(body, hs, comment);
    PrintedDescribes(front, |hs|, |PrintHeaders(hs)|, |body|, comment);
    assert input[|body|..|front|] == PrintHeaders(hs);
    assert IsDirectory(PrintHeaders(hs), |hs|);
  }

  // A comment that holds no end mark itself. Its length bytes and its first two
  // bytes make one when read together.
  function Straddling(): (comment: seq<Byte>)
    ensures |comment| == 0x4b50
  {
    [0x05, 0x06] + seq(0x4b50 - 2, _ => 0)
  }

  lemma StraddlingMarks(count: nat, size: nat, start: nat)
    requires count < 0x1_0000 && size < 0x1_0000_0000 && start < 0x1_0000_0000
    ensures var record := EndRecord(count, size, start, Straddling());
            && (forall j: nat :: !MarkAt(Straddling(), j))
            && MarkAt(record, 20) && (forall j: nat | j > 20 :: !MarkAt(record, j))
            && |record| > 32 && U16At(record, 30) == 0
  {
    var comment := Straddling();
    var record := EndRecord(count, size, start, comment);
    assert forall j: nat | j < |comment| :: comment[j] != 0x50;
    forall j: nat ensures !MarkAt(comment, j) {
      if j + 4 <= |comment| {
        assert comment[j..j + 4][0] == comment[j];
      }
    }
    assert record[20..22] == U16(0x4b50) == [0x50, 0x4b];
    assert record[22..] == comment;
    assert record[20..24] == record[20..22] + record[22..][..2];
    forall j: nat | j > 20 ensures !MarkAt(record, j) {
      if j + 4 <= |record| {
        assert record[j..j + 4][0] == record[j];
        assert j == 21 || record[j] == comment[j - 22];
      }
    }
  }

  // A comment free of end marks is not enough: every archive becomes unreadable
  // with this one, because the record found then counts no entries.
  lemma FreeCommentIsNotEnough(body: seq<Byte>, hs: seq<Header>)
    requires WellHeaders(hs) && Writable(body, hs, Straddling())
    ensures forall j: nat :: !MarkAt(Straddling(), j)
    ensures forall count: nat :: !Accepts(PrintArchive(body, hs, Straddling()), count)
  {
    var front := body + PrintHeaders(hs);
    var record := WrittenRecord(body, hs, Straddling());
    var input := front + record;
    StraddlingMarks(|hs|, |PrintHeaders(hs)|, |body|);
    assert input[|front|..] == record;
    TailMarks(input, |front|);
    var end := |front| + 20;
    assert MarkAt(input, end);
    forall j: nat | j > end ensures !MarkAt(input, j) {
      assert !MarkAt(record, j - |front|);
    }
    assert U16At(input, end + 10) == U16At(record, 30);
    forall e: nat | EndRecordAt(input, e) ensures e == end {
      EndIsUnique(input, e, end);
    }
  }
}
