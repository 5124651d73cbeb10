// Code points written as UTF-8: AppendUtf8, ReadUint32 and DecodeFixedLengthUtf32,
// src/zarr/string_array.cc. What is written is read back by a decoder of UTF-8 (section 3 of RFC 3629).

module Unicode {
  import opened Wrappers

  const UNICODE_MAX: bv32 := 0x10_FFFF
  const SURROGATE_MIN: bv32 := 0xD800
  const SURROGATE_MAX: bv32 := 0xDFFF

  predicate CodePoint(c: bv32) {
    c <= UNICODE_MAX && !(SURROGATE_MIN <= c <= SURROGATE_MAX)
  }

  // ---- Writing ----

  function Lead(mark: bv32, c: bv32, shift: bv5): Byte { ((mark | (c >> shift)) & 0xFF) as Byte }
  function Trail(c: bv32, shift: bv5): Byte { (0x80 | ((c >> shift) & 0x3F)) as Byte }

  // One code point's bytes; nothing for what is not one.
  function AppendUtf8(c: bv32): Option<seq<Byte>> {
    if c > UNICODE_MAX || (c >= SURROGATE_MIN && c <= SURROGATE_MAX) then None
    else if c < 0x80 then Some([(c & 0xFF) as Byte])
    else if c < 0x800 then Some([Lead(0xC0, c, 6), Trail(c, 0)])
    else if c < 0x1_0000 then Some([Lead(0xE0, c, 12), Trail(c, 6), Trail(c, 0)])
    else Some([Lead(0xF0, c, 18), Trail(c, 12), Trail(c, 6), Trail(c, 0)])
  }

  function Utf8(codes: seq<bv32>): Option<seq<Byte>> {
    if codes == [] then Some([])
    else
      match (Utf8(codes[..|codes| - 1]), AppendUtf8(codes[|codes| - 1]))
      case (Some(before), Some(last)) => Some(before + last)
      case (_, _) => None
  }

  // ---- Reading ----

  predicate IsTrail(b: Byte) { b & 0xC0 == 0x80 }
  predicate LeadsOne(b: Byte) { b < 0x80 }
  predicate LeadsTwo(b: Byte) { b & 0xE0 == 0xC0 }
  predicate LeadsThree(b: Byte) { b & 0xF0 == 0xE0 }
  predicate LeadsFour(b: Byte) { b & 0xF8 == 0xF0 }

  function Bits(b: Byte): bv32 { (b & 0x3F) as bv32 }
  function OfOne(a: Byte): bv32 { a as bv32 }
  function OfTwo(a: Byte, b: Byte): bv32 { ((a & 0x1F) as bv32 << 6) | Bits(b) }
  function OfThree(a: Byte, b: Byte, c: Byte): bv32 { ((a & 0x0F) as bv32 << 12) | (Bits(b) << 6) | Bits(c) }
  function OfFour(a: Byte, b: Byte, c: Byte, d: Byte): bv32 {
    ((a & 0x07) as bv32 << 18) | (Bits(b) << 12) | (Bits(c) << 6) | Bits(d)
  }

  // The first character of some UTF-8 and how many bytes it takes: no overlong form, no surrogate and
  // nothing past the last code point is one.
  function First(s: seq<Byte>): Option<(bv32, nat)> {
    if s == [] then None
    else if LeadsOne(s[0]) then Some((OfOne(s[0]), 1))
    else if LeadsTwo(s[0]) then
      if |s| < 2 || !IsTrail(s[1]) || OfTwo(s[0], s[1]) < 0x80 then None else Some((OfTwo(s[0], s[1]), 2))
    else if LeadsThree(s[0]) then
      if |s| < 3 || !IsTrail(s[1]) || !IsTrail(s[2]) then None
      else
        var c := OfThree(s[0], s[1], s[2]);
        if c < 0x800 || !CodePoint(c) then None else Some((c, 3))
    else if LeadsFour(s[0]) then
      if |s| < 4 || !IsTrail(s[1]) || !IsTrail(s[2]) || !IsTrail(s[3]) then None
      else
        var c := OfFour(s[0], s[1], s[2], s[3]);
        if c < 0x1_0000 || !CodePoint(c) then None else Some((c, 4))
    else None
  }

  lemma FirstFits(s: seq<Byte>)
    ensures First(s).Some? ==> 1 <= First(s).value.1 <= |s|
  {}

  // The characters of some UTF-8.
  function Characters(s: seq<Byte>): Option<seq<bv32>>
    decreases |s|
  {
    if s == [] then Some([])
    else
      FirstFits(s);
      match First(s)
      case None => None
      case Some((c, n)) =>
        match Characters(s[n..])
        case None => None
        case Some(rest) => Some([c] + rest)
  }

  // ---- Reading back what was written ----

  lemma OneByte(c: bv32)
    requires c < 0x80
    ensures var a := (c & 0xFF) as Byte; LeadsOne(a) && OfOne(a) == c
  {}

  lemma TrailIs(c: bv32, shift: bv5)
    ensures IsTrail(Trail(c, shift)) && Bits(Trail(c, shift)) == (c >> shift) & 0x3F
  {}

  lemma TwoBytes(c: bv32)
    requires 0x80 <= c < 0x800
    ensures var a, b := Lead(0xC0, c, 6), Trail(c, 0);
            !LeadsOne(a) && LeadsTwo(a) && IsTrail(b) && OfTwo(a, b) == c
  {
    TrailIs(c, 0);
    hide Trail, Bits;
  }

  lemma ThreeBytes(c: bv32)
    requires 0x800 <= c < 0x1_0000
    ensures var a, b, d := Lead(0xE0, c, 12), Trail(c, 6), Trail(c, 0);
      && !LeadsOne(a) && !LeadsTwo(a) && LeadsThree(a) && IsTrail(b) && IsTrail(d)
      && OfThree(a, b, d) == c
  {
    TrailIs(c, 0);
    TrailIs(c, 6);
    hide Trail, Bits;
  }

  lemma FourBytes(c: bv32)
    requires 0x1_0000 <= c <= UNICODE_MAX
    ensures var a, b, d, e := Lead(0xF0, c, 18), Trail(c, 12), Trail(c, 6), Trail(c, 0);
      && !LeadsOne(a) && !LeadsTwo(a) && !LeadsThree(a) && LeadsFour(a) && IsTrail(b) && IsTrail(d) && IsTrail(e)
      && OfFour(a, b, d, e) == c
  {
    TrailIs(c, 0);
    TrailIs(c, 6);
    TrailIs(c, 12);
    hide Trail, Bits;
  }

  // A character written is the first one read, whatever follows it.
  lemma FirstIsWritten(c: bv32, rest: seq<Byte>)
    requires CodePoint(c)
    ensures AppendUtf8(c).Some? && First(AppendUtf8(c).value + rest) == Some((c, |AppendUtf8(c).value|))
    ensures |AppendUtf8(c).value| > 0
  {
    hide Lead, Trail, Bits, IsTrail, LeadsOne, LeadsTwo, LeadsThree, LeadsFour, OfOne, OfTwo, OfThree, OfFour;
    if c < 0x80 {
      OneByte(c);
    } else if c < 0x800 {
      TwoBytes(c);
    } else if c < 0x1_0000 {
      ThreeBytes(c);
    } else {
      FourBytes(c);
    }
  }

  // Reading takes a character off the front.
  lemma {:induction false} CharactersJoin(a: seq<Byte>, b: seq<Byte>, codes: seq<bv32>)
    requires Utf8(codes) == Some(a)
    ensures Characters(a + b)
         == match Characters(b) case None => None case Some(rest) => Some(codes + rest)
    decreases |codes|
  {
    hide First, AppendUtf8, CodePoint;
    if codes == [] {
      assert a + b == b;
      match Characters(b)
      case None =>
      case Some(rest) => assert codes + rest == rest;
    } else {
      var l := |codes| - 1;
      var before, last := Utf8(codes[..l]).value, AppendUtf8(codes[l]).value;
      WrittenIsCode(codes[l]);
      FirstIsWritten(codes[l], b);
      CharactersJoin(before, last + b, codes[..l]);
      assert before + (last + b) == a + b;
      assert (last + b)[|last|..] == b;
      match Characters(b)
      case None =>
      case Some(rest) => assert codes[..l] + ([codes[l]] + rest) == codes + rest;
    }
  }

  lemma WrittenIsCode(c: bv32)
    ensures AppendUtf8(c).Some? <==> CodePoint(c)
  {}

  // UTF-8 of any code points reads back as them, and there is UTF-8 of exactly the code points.
  lemma {:induction false} Utf8RoundTrip(codes: seq<bv32>)
    ensures Utf8(codes).Some? <==> forall i :: 0 <= i < |codes| ==> CodePoint(codes[i])
    ensures Utf8(codes).Some? ==> Characters(Utf8(codes).value) == Some(codes)
  {
    WrittenExactly(codes);
    if Utf8(codes).Some? {
      CharactersJoin(Utf8(codes).value, [], codes);
      assert Utf8(codes).value + [] == Utf8(codes).value && codes + [] == codes;
    }
  }

  lemma {:induction false} WrittenExactly(codes: seq<bv32>)
    ensures Utf8(codes).Some? <==> forall i :: 0 <= i < |codes| ==> CodePoint(codes[i])
    decreases |codes|
  {
    hide AppendUtf8, CodePoint;
    if codes != [] {
      WrittenExactly(codes[..|codes| - 1]);
      WrittenIsCode(codes[|codes| - 1]);
    }
  }

  // ---- Fixed-length UTF-32 ----

  // A 32-bit number from four bytes of either order.
  function ReadUint32(b: seq<Byte>, littleEndian: bool): bv32
    requires |b| == 4
  {
    if littleEndian then Join(b[0], b[1], b[2], b[3]) else Join(b[3], b[2], b[1], b[0])
  }

  function Join(a: Byte, b: Byte, c: Byte, d: Byte): bv32 {
    a as bv32 | (b as bv32 << 8) | (c as bv32 << 16) | (d as bv32 << 24)
  }

  // The same number's bytes.
  function WriteUint32(x: bv32, littleEndian: bool): (b: seq<Byte>)
    ensures |b| == 4
  {
    var a, b, c, d := LowByte(x), LowByte(x >> 8), LowByte(x >> 16), LowByte(x >> 24);
    if littleEndian then [a, b, c, d] else [d, c, b, a]
  }

  function LowByte(x: bv32): Byte { (x & 0xFF) as Byte }

  lemma NumberRoundTrip(x: bv32, littleEndian: bool)
    ensures ReadUint32(WriteUint32(x, littleEndian), littleEndian) == x
  {
    hide Join, LowByte;
    Joined(x);
  }

  lemma Joined(x: bv32)
    ensures Join(LowByte(x), LowByte(x >> 8), LowByte(x >> 16), LowByte(x >> 24)) == x
  {}

  // The codes of one element, up to its first null or its end.
  ghost function CodesBefore(bytes: seq<Byte>, offset: nat, chars: nat, littleEndian: bool): Option<seq<bv32>>
    decreases chars
  {
    if chars == 0 then Some([])
    else if offset + 4 > |bytes| then None
    else
      var c := ReadUint32(bytes[offset..offset + 4], littleEndian);
      if c == 0 then Some([])
      else
        match CodesBefore(bytes, offset + 4, chars - 1, littleEndian)
        case None => None
        case Some(rest) => Some([c] + rest)
  }
}
