// String arrays: the codec chain of a chunk and its undoing, and the elements of an array,
// src/zarr/string_array.cc. The compressors are given, as functions that undo each other.

module StringArrays {
  import opened Wrappers
  import opened Checksums
  import opened Unicode
  import B = ChunkBlocks

  datatype ErrorCode = DecodeError | UnsupportedCodec | IoError

  // ---- The chain ----

  datatype Compressor = Blosc | Gzip | Zstd

  // One codec of a chain, as its metadata names it.
  datatype Codec =
    | Compressed(kind: Compressor)
    | Bytes(bigEndian: bool)
    | Crc
    | Transpose(identity: bool)
    | Other

  datatype StringCodecInfo = StringCodecInfo(bytesCodec: Option<Compressor>, littleEndian: bool,
                                             crcBefore: nat, crcAfter: nat)

  ghost function Compressors(chain: seq<Codec>): nat {
    if chain == [] then 0
    else Compressors(chain[..|chain| - 1]) + if chain[|chain| - 1].Compressed? then 1 else 0
  }

  ghost function ByteCodecs(chain: seq<Codec>): nat {
    if chain == [] then 0
    else ByteCodecs(chain[..|chain| - 1]) + if chain[|chain| - 1].Bytes? then 1 else 0
  }

  predicate Known(codec: Codec) {
    !codec.Other? && (codec.Transpose? ==> codec.identity)
  }

  // The chains a string array may be stored by.
  ghost predicate Supported(chain: seq<Codec>) {
    && Compressors(chain) <= 1 && ByteCodecs(chain) <= 1
    && forall i :: 0 <= i < |chain| ==> Known(chain[i])
  }

  method ParseStringCodecs(chain: seq<Codec>) returns (r: Result<StringCodecInfo, ErrorCode>)
    ensures r.Ok? <==> Supported(chain)
    ensures r.Ok? ==> Describes(r.value, chain)
    ensures r.Err? ==> r.error == UnsupportedCodec
  {
    hide *;
    var info := StringCodecInfo(None, true, 0, 0);
    var seenBytes := false;
    NoneParsed(chain);
    for i := 0 to |chain|
      invariant Parsed(info, seenBytes, chain[..i])
    {
      Grows(chain, i);
      var codec := chain[i];
      if (codec.Compressed? && info.bytesCodec.Some?) || (codec.Bytes? && seenBytes) || !Known(codec) {
        NotSupported(info, seenBytes, chain, i);
        return Err(UnsupportedCodec);
      }
      OneMoreParsed(info, seenBytes, chain, i);
      match codec {
        case Compressed(kind) =>
          info := info.(bytesCodec := Some(kind));
        case Bytes(bigEndian) =>
          seenBytes := true;
          info := info.(littleEndian := !bigEndian);
        case Crc =>
          info := if info.bytesCodec.Some? then info.(crcAfter := info.crcAfter + 1)
                  else info.(crcBefore := info.crcBefore + 1);
        case _ =>
      }
    }
    assert chain[..|chain|] == chain;
    ItIsParsed(info, seenBytes, chain);
    r := Ok(info);
  }

  // Part-way along a chain.
  ghost predicate Parsed(info: StringCodecInfo, seenBytes: bool, chain: seq<Codec>) {
    && Supported(chain) && Describes(info, chain)
    && (seenBytes <==> ByteCodecs(chain) == 1)
  }

  lemma NoneParsed(chain: seq<Codec>)
    ensures Parsed(StringCodecInfo(None, true, 0, 0), false, chain[..0])
  {}

  lemma ItIsParsed(info: StringCodecInfo, seenBytes: bool, chain: seq<Codec>)
    requires Parsed(info, seenBytes, chain)
    ensures Supported(chain) && Describes(info, chain)
  {}

  lemma NotSupported(info: StringCodecInfo, seenBytes: bool, chain: seq<Codec>, i: nat)
    requires i < |chain| && Parsed(info, seenBytes, chain[..i])
    requires (chain[i].Compressed? && info.bytesCodec.Some?) || (chain[i].Bytes? && seenBytes) || !Known(chain[i])
    ensures !Supported(chain)
  {
    Grows(chain, i);
    hide Known, Compressors, ByteCodecs, Encode, EncodeBy;
  }

  // What the summary becomes by one codec more.
  function Next(info: StringCodecInfo, codec: Codec): StringCodecInfo {
    match codec
    case Compressed(kind) => info.(bytesCodec := Some(kind))
    case Bytes(bigEndian) => info.(littleEndian := !bigEndian)
    case Crc =>
      if info.bytesCodec.Some? then info.(crcAfter := info.crcAfter + 1) else info.(crcBefore := info.crcBefore + 1)
    case _ => info
  }

  lemma OneMoreParsed(info: StringCodecInfo, seenBytes: bool, chain: seq<Codec>, i: nat)
    requires i < |chain| && Parsed(info, seenBytes, chain[..i]) && Known(chain[i])
    requires !(chain[i].Compressed? && info.bytesCodec.Some?) && !(chain[i].Bytes? && seenBytes)
    ensures Parsed(Next(info, chain[i]), seenBytes || chain[i].Bytes?, chain[..i + 1])
    ensures Next(info, chain[i])
         == match chain[i]
            case Compressed(kind) => info.(bytesCodec := Some(kind))
            case Bytes(bigEndian) => info.(littleEndian := !bigEndian)
            case Crc =>
              if info.bytesCodec.Some? then info.(crcAfter := info.crcAfter + 1)
              else info.(crcBefore := info.crcBefore + 1)
            case _ => info
  {
    Grows(chain, i);
    CountsEach(chain[..i]);
    forall payload: seq<Byte>, library: Library
      ensures Encode(chain[..i + 1], payload, library) == EncodeBy(Next(info, chain[i]), payload, library)
    {
      assert Encode(chain[..i], payload, library) == EncodeBy(info, payload, library);
      EncodesOneMore(info, chain, i, payload, library);
    }
    hide Encode, EncodeBy, Compressors, ByteCodecs;
  }

  lemma {:induction false} CountsEach(chain: seq<Codec>)
    ensures Compressors(chain) == 0 ==> forall i :: 0 <= i < |chain| ==> !chain[i].Compressed?
    ensures ByteCodecs(chain) == 0 ==> forall i :: 0 <= i < |chain| ==> !chain[i].Bytes?
    decreases |chain|
  {
    if chain != [] { CountsEach(chain[..|chain| - 1]); }
  }

  lemma EncodesOneMore(info: StringCodecInfo, chain: seq<Codec>, i: nat, payload: seq<Byte>, library: Library)
    requires i < |chain| && Encode(chain[..i], payload, library) == EncodeBy(info, payload, library)
    requires !(chain[i].Compressed? && info.bytesCodec.Some?) && (info.bytesCodec.None? ==> info.crcAfter == 0)
    ensures Encode(chain[..i + 1], payload, library) == EncodeBy(Next(info, chain[i]), payload, library)
  {
    assert chain[..i + 1][..i] == chain[..i];
    hide WithCrc;
  }

  // What a prefix of the chain says, from what the one before it does.
  lemma Grows(chain: seq<Codec>, i: nat)
    requires i < |chain|
    ensures chain[..i + 1][..i] == chain[..i]
    ensures Compressors(chain[..i + 1]) == Compressors(chain[..i]) + if chain[i].Compressed? then 1 else 0
    ensures ByteCodecs(chain[..i + 1]) == ByteCodecs(chain[..i]) + if chain[i].Bytes? then 1 else 0
    ensures Compressors(chain[..i + 1]) <= Compressors(chain) && ByteCodecs(chain[..i + 1]) <= ByteCodecs(chain)
  {
    assert chain[..i + 1][..i] == chain[..i];
    OnlyMore(chain, i + 1);
  }

  lemma {:induction false} OnlyMore(chain: seq<Codec>, i: nat)
    requires i <= |chain|
    ensures Compressors(chain[..i]) <= Compressors(chain) && ByteCodecs(chain[..i]) <= ByteCodecs(chain)
    decreases |chain| - i
  {
    if i < |chain| {
      OnlyMore(chain, i + 1);
      assert chain[..i + 1][..i] == chain[..i];
    } else {
      assert chain[..i] == chain;
    }
  }

  // ---- Encoding ----

  // The compressors' own functions, which undo each other.
  datatype Library = Library(compress: (Compressor, seq<Byte>) -> seq<Byte>,
                             decompress: (Compressor, seq<Byte>, nat) -> Option<seq<Byte>>)
  {
    ghost predicate Undoes() {
      forall kind: Compressor, data: seq<Byte> :: decompress(kind, compress(kind, data), |data|) == Some(data)
    }
  }

  // A checksum goes after what it is of, its bytes in little order whatever the array's are.
  function WithCrc(data: seq<Byte>): seq<Byte> {
    data + WriteUint32(Checksum(data), true)
  }

  function Wrapped(data: seq<Byte>, n: nat): seq<Byte> {
    if n == 0 then data else WithCrc(Wrapped(data, n - 1))
  }

  // A chunk's bytes by the chain, codec after codec.
  function Encode(chain: seq<Codec>, payload: seq<Byte>, library: Library): seq<Byte> {
    if chain == [] then payload
    else
      var before := Encode(chain[..|chain| - 1], payload, library);
      match chain[|chain| - 1]
      case Compressed(kind) => library.compress(kind, before)
      case Crc => WithCrc(before)
      case _ => before
  }

  // What the chain does, by the summary of it.
  function EncodeBy(info: StringCodecInfo, payload: seq<Byte>, library: Library): seq<Byte> {
    var inner := Wrapped(payload, info.crcBefore);
    match info.bytesCodec
    case None => inner
    case Some(kind) => Wrapped(library.compress(kind, inner), info.crcAfter)
  }

  // A summary describes a chain: it names its compressor and its byte order, and encoding by the one is
  // encoding by the other.
  ghost predicate Describes(info: StringCodecInfo, chain: seq<Codec>) {
    && (info.bytesCodec.Some? <==> Compressors(chain) == 1)
    && (info.bytesCodec.None? ==> info.crcAfter == 0)
    && (forall i :: 0 <= i < |chain| && chain[i].Compressed? ==> info.bytesCodec == Some(chain[i].kind))
    && (forall i :: 0 <= i < |chain| && chain[i].Bytes? ==> info.littleEndian == !chain[i].bigEndian)
    && (ByteCodecs(chain) == 0 ==> info.littleEndian)
    && forall payload: seq<Byte>, library: Library ::
      Encode(chain, payload, library) == EncodeBy(info, payload, library)
  }

  // ---- Decoding ----

  // Verifies and removes one checksum.
  method StripCrc32c(data: seq<Byte>, table: seq<bv32>) returns (r: Result<seq<Byte>, ErrorCode>)
    requires IsTable(table)
    ensures r.Ok? <==> exists payload :: data == WithCrc(payload)
    ensures r.Ok? ==> data == WithCrc(r.value)
    ensures r.Err? ==> r.error == DecodeError
  {
    hide Checksum;
    if |data| < 4 {
      return Err(DecodeError);
    }
    var size := |data| - 4;
    var stored := ReadUint32(data[size..], true);
    var computed := Crc32c(data[..size], table);
    forall payload | data == WithCrc(payload) ensures stored == computed {
      ChecksumIsLast(payload);
    }
    assert data == data[..size] + data[size..];
    NumberIsItsBytes(data[size..]);
    hide ReadUint32, WriteUint32;
    if stored != computed {
      return Err(DecodeError);
    }
    assert data == WithCrc(data[..size]);
    r := Ok(data[..size]);
  }

  lemma ChecksumIsLast(payload: seq<Byte>)
    ensures var data := WithCrc(payload);
      |data| >= 4 && data[..|data| - 4] == payload && ReadUint32(data[|data| - 4..], true) == Checksum(payload)
  {
    NumberRoundTrip(Checksum(payload), true);
    hide Checksum, WriteUint32, ReadUint32;
  }

  lemma NumberIsItsBytes(b: seq<Byte>)
    requires |b| == 4
    ensures WriteUint32(ReadUint32(b, true), true) == b
  {
    BytesOfNumber(b[0], b[1], b[2], b[3]);
  }

  lemma BytesOfNumber(a: Byte, b: Byte, c: Byte, d: Byte)
    ensures var x := a as bv32 | (b as bv32 << 8) | (c as bv32 << 16) | (d as bv32 << 24);
      && (x & 0xFF) as Byte == a && ((x >> 8) & 0xFF) as Byte == b
      && ((x >> 16) & 0xFF) as Byte == c && ((x >> 24) & 0xFF) as Byte == d
  {}

  lemma WithCrcIsOne(a: seq<Byte>, b: seq<Byte>)
    requires WithCrc(a) == WithCrc(b)
    ensures a == b
  {
    hide Checksum, WriteUint32;
    assert WithCrc(a)[..|a|] == a && WithCrc(b)[..|b|] == b;
  }

  lemma {:induction false} WrappedIsOne(a: seq<Byte>, b: seq<Byte>, n: nat)
    requires Wrapped(a, n) == Wrapped(b, n)
    ensures a == b
  {
    hide WithCrc;
    if n > 0 {
      WithCrcIsOne(Wrapped(a, n - 1), Wrapped(b, n - 1));
      WrappedIsOne(a, b, n - 1);
    }
  }

  lemma {:induction false} WrappedIsLonger(a: seq<Byte>, n: nat)
    ensures |Wrapped(a, n)| == |a| + 4 * n
  {
    hide Checksum, WriteUint32;
    if n > 0 { WrappedIsLonger(a, n - 1); }
  }

  // Verifies and removes several.
  method StripAll(data: seq<Byte>, n: nat, table: seq<bv32>) returns (r: Result<seq<Byte>, ErrorCode>)
    requires IsTable(table)
    ensures r.Ok? <==> exists payload :: data == Wrapped(payload, n)
    ensures r.Ok? ==> data == Wrapped(r.value, n)
    ensures r.Err? ==> r.error == DecodeError
  {
    hide WithCrc, IsTable;
    var inner := data;
    for i := 0 to n
      invariant data == Wrapped(inner, i)
    {
      var stripped := StripCrc32c(inner, table);
      if stripped.Err? {
        forall payload | data == Wrapped(payload, n) ensures false {
          InnerIs(data, inner, payload, i, n);
        }
        return stripped;
      }
      WrappedOnce(stripped.value, i);
      inner := stripped.value;
    }
    r := Ok(inner);
  }

  // What is left after i checksums of n is what the rest wrap.
  lemma {:induction false} WrappedTwice(payload: seq<Byte>, a: nat, b: nat)
    ensures Wrapped(Wrapped(payload, a), b) == Wrapped(payload, a + b)
  {
    hide WithCrc;
    if b > 0 { WrappedTwice(payload, a, b - 1); }
  }

  lemma WrappedOnce(inner: seq<Byte>, i: nat)
    ensures Wrapped(WithCrc(inner), i) == Wrapped(inner, i + 1)
  {
    WrappedTwice(inner, 1, i);
    hide WithCrc;
    assert Wrapped(inner, 1) == WithCrc(Wrapped(inner, 0)) == WithCrc(inner);
  }

  lemma InnerIs(data: seq<Byte>, inner: seq<Byte>, payload: seq<Byte>, i: nat, n: nat)
    requires data == Wrapped(inner, i) && data == Wrapped(payload, n) && i < n
    ensures inner == WithCrc(Wrapped(payload, n - i - 1))
  {
    WrappedTwice(payload, n - i, i);
    WrappedIsOne(inner, Wrapped(payload, n - i), i);
    hide WithCrc;
  }

  // A chunk's payload, by the summary of its chain.
  method DecodeStringChunk(bytes: seq<Byte>, info: StringCodecInfo, expected: nat, library: Library, table: seq<bv32>)
    returns (r: Result<seq<Byte>, ErrorCode>)
    requires IsTable(table) && (info.bytesCodec.None? ==> info.crcAfter == 0)
    ensures r.Ok? ==> |r.value| == expected
    ensures r.Err? ==> r.error == DecodeError
    // Whatever is decoded was wrapped and compressed as the summary says.
    ensures r.Ok? ==> DecodesTo(bytes, r.value, info, library)
    ensures r.Err? ==> forall payload :: |payload| == expected ==> !DecodesTo(bytes, payload, info, library)
  {
    hide Wrapped, IsTable;
    var inner := bytes;
    var outer := StripAll(bytes, info.crcAfter, table);
    NoWrapping(bytes);
    if outer.Err? {
      NotOuter(bytes, info, library);
      return Err(DecodeError);
    }
    inner := outer.value;
    NoWrapping(inner);
    if info.bytesCodec.Some? {
      var decompressed := library.decompress(info.bytesCodec.value, inner, expected + 4 * info.crcBefore);
      if decompressed.None? {
        NotCompressed(bytes, inner, info, library, expected);
        return Err(DecodeError);
      }
      inner := decompressed.value;
    }
    var payload := StripAll(inner, info.crcBefore, table);
    if payload.Err? || |payload.value| != expected {
      NotWrapped(bytes, outer.value, inner, info, library, expected, payload);
      return Err(DecodeError);
    }
    r := payload;
    WrappedIsLonger(r.value, info.crcBefore);
  }

  // The bytes of a chunk come to a payload: checksums outside, what they wrap decompressed, and
  // checksums inside.
  ghost predicate DecodesTo(bytes: seq<Byte>, payload: seq<Byte>, info: StringCodecInfo, library: Library) {
    match info.bytesCodec
    case None => bytes == Wrapped(payload, info.crcBefore)
    case Some(kind) =>
      exists compressed ::
        && bytes == Wrapped(compressed, info.crcAfter)
        && library.decompress(kind, compressed, |payload| + 4 * info.crcBefore)
            == Some(Wrapped(payload, info.crcBefore))
  }

  lemma NoWrapping(inner: seq<Byte>)
    ensures Wrapped(inner, 0) == inner
  {}

  lemma NotOuter(bytes: seq<Byte>, info: StringCodecInfo, library: Library)
    requires forall inner :: bytes != Wrapped(inner, info.crcAfter)
    requires info.bytesCodec.None? ==> info.crcAfter == 0
    ensures forall payload :: !DecodesTo(bytes, payload, info, library)
  {
    NoWrapping(bytes);
    hide Wrapped;
  }

  lemma NotCompressed(bytes: seq<Byte>, inner: seq<Byte>, info: StringCodecInfo, library: Library, expected: nat)
    requires bytes == Wrapped(inner, info.crcAfter) && info.bytesCodec.Some?
    requires library.decompress(info.bytesCodec.value, inner, expected + 4 * info.crcBefore).None?
    ensures forall payload :: |payload| == expected ==> !DecodesTo(bytes, payload, info, library)
  {
    forall payload | |payload| == expected && DecodesTo(bytes, payload, info, library) ensures false {
      var compressed :| bytes == Wrapped(compressed, info.crcAfter)
        && library.decompress(info.bytesCodec.value, compressed, |payload| + 4 * info.crcBefore)
           == Some(Wrapped(payload, info.crcBefore));
      WrappedIsOne(inner, compressed, info.crcAfter);
    }
  }

  lemma NotWrapped(bytes: seq<Byte>, outer: seq<Byte>, inner: seq<Byte>, info: StringCodecInfo, library: Library,
                   expected: nat, stripped: Result<seq<Byte>, ErrorCode>)
    requires bytes == Wrapped(outer, info.crcAfter) && (info.bytesCodec.None? ==> info.crcAfter == 0)
    requires if info.bytesCodec.None? then inner == outer
             else library.decompress(info.bytesCodec.value, outer, expected + 4 * info.crcBefore) == Some(inner)
    requires stripped.Ok? ==> inner == Wrapped(stripped.value, info.crcBefore)
    requires stripped.Err? ==> forall payload :: inner != Wrapped(payload, info.crcBefore)
    requires stripped.Ok? ==> |stripped.value| != expected
    ensures forall payload :: |payload| == expected ==> !DecodesTo(bytes, payload, info, library)
  {
    NoWrapping(outer);
    forall payload | |payload| == expected && DecodesTo(bytes, payload, info, library) ensures false {
      if info.bytesCodec.Some? {
        var compressed :| bytes == Wrapped(compressed, info.crcAfter)
          && library.decompress(info.bytesCodec.value, compressed, |payload| + 4 * info.crcBefore)
             == Some(Wrapped(payload, info.crcBefore));
        WrappedIsOne(outer, compressed, info.crcAfter);
      }
      assert inner == Wrapped(payload, info.crcBefore);
      if stripped.Ok? { WrappedIsOne(stripped.value, payload, info.crcBefore); }
    }
  }

  // For every chain that is accepted, decoding undoes encoding by it, whatever the compressors are.
  lemma DecodingUndoesEncoding(chain: seq<Codec>, info: StringCodecInfo, payload: seq<Byte>, library: Library)
    requires Supported(chain) && Describes(info, chain) && library.Undoes()
    ensures DecodesTo(Encode(chain, payload, library), payload, info, library)
    // And it undoes it to nothing else.
    ensures forall other :: |other| == |payload| && DecodesTo(Encode(chain, payload, library), other, info, library) ==>
              other == payload
  {
    hide *;
    SummaryEncodes(chain, info, payload, library);
    UndoneBy(info, payload, library);
    forall other | |other| == |payload| && DecodesTo(Encode(chain, payload, library), other, info, library)
      ensures other == payload
    {
      UndoneToOne(info, payload, other, library);
    }
  }

  lemma SummaryEncodes(chain: seq<Codec>, info: StringCodecInfo, payload: seq<Byte>, library: Library)
    requires Describes(info, chain)
    ensures Encode(chain, payload, library) == EncodeBy(info, payload, library)
  {}

  lemma UndoneBy(info: StringCodecInfo, payload: seq<Byte>, library: Library)
    requires library.Undoes()
    ensures DecodesTo(EncodeBy(info, payload, library), payload, info, library)
  {
    WrappedIsLonger(payload, info.crcBefore);
    hide Wrapped;
  }

  lemma UndoneToOne(info: StringCodecInfo, payload: seq<Byte>, other: seq<Byte>, library: Library)
    requires library.Undoes() && |other| == |payload|
    requires DecodesTo(EncodeBy(info, payload, library), other, info, library)
    ensures other == payload
  {
    WrappedIsLonger(payload, info.crcBefore);
    hide Wrapped;
    var inner := Wrapped(payload, info.crcBefore);
    if info.bytesCodec.Some? {
      var kind := info.bytesCodec.value;
      var compressed :| EncodeBy(info, payload, library) == Wrapped(compressed, info.crcAfter)
        && library.decompress(kind, compressed, |other| + 4 * info.crcBefore) == Some(Wrapped(other, info.crcBefore));
      WrappedIsOne(compressed, library.compress(kind, inner), info.crcAfter);
    }
    WrappedIsOne(other, payload, info.crcBefore);
  }

  // Bytes come to at most one payload of a size.
  lemma DecodesToOne(bytes: seq<Byte>, a: seq<Byte>, b: seq<Byte>, info: StringCodecInfo, library: Library)
    requires |a| == |b| && DecodesTo(bytes, a, info, library) && DecodesTo(bytes, b, info, library)
    ensures a == b
  {
    hide Wrapped;
    if info.bytesCodec.Some? {
      var kind := info.bytesCodec.value;
      var x :| bytes == Wrapped(x, info.crcAfter)
        && library.decompress(kind, x, |a| + 4 * info.crcBefore) == Some(Wrapped(a, info.crcBefore));
      var y :| bytes == Wrapped(y, info.crcAfter)
        && library.decompress(kind, y, |b| + 4 * info.crcBefore) == Some(Wrapped(b, info.crcBefore));
      WrappedIsOne(x, y, info.crcAfter);
    }
    WrappedIsOne(a, b, info.crcBefore);
  }

  // ---- The elements of a chunk ----

  // One element: the UTF-8 of its codes before the first null.
  ghost function Element(bytes: seq<Byte>, offset: nat, chars: nat, littleEndian: bool): Option<seq<Byte>> {
    match CodesBefore(bytes, offset, chars, littleEndian)
    case None => None
    case Some(codes) => Utf8(codes)
  }

  // An element reads back as exactly the codes before its first null.
  lemma ElementReadsBack(bytes: seq<Byte>, offset: nat, chars: nat, littleEndian: bool)
    ensures Element(bytes, offset, chars, littleEndian).Some? ==>
              Characters(Element(bytes, offset, chars, littleEndian).value)
              == CodesBefore(bytes, offset, chars, littleEndian)
  {
    if Element(bytes, offset, chars, littleEndian).Some? {
      Utf8RoundTrip(CodesBefore(bytes, offset, chars, littleEndian).value);
    }
  }

  // The codes so far and the ones still to come.
  ghost predicate PartWay(bytes: seq<Byte>, start: nat, chars: nat, littleEndian: bool, k: nat, codes: seq<bv32>) {
    k <= chars
    && CodesBefore(bytes, start, chars, littleEndian)
       == match CodesBefore(bytes, start + 4 * k, chars - k, littleEndian)
          case None => None
          case Some(rest) => Some(codes + rest)
  }

  lemma NoCodesYet(bytes: seq<Byte>, start: nat, chars: nat, littleEndian: bool)
    ensures PartWay(bytes, start, chars, littleEndian, 0, [])
  {
    match CodesBefore(bytes, start, chars, littleEndian)
    case None =>
    case Some(rest) => assert [] + rest == rest;
  }

  lemma OneMoreCode(bytes: seq<Byte>, start: nat, chars: nat, littleEndian: bool, k: nat, codes: seq<bv32>, code: bv32)
    requires PartWay(bytes, start, chars, littleEndian, k, codes) && k < chars && start + 4 * k + 4 <= |bytes|
    requires code == ReadUint32(bytes[start + 4 * k..start + 4 * k + 4], littleEndian)
    ensures code != 0 ==> PartWay(bytes, start, chars, littleEndian, k + 1, codes + [code])
    ensures code == 0 ==> CodesBefore(bytes, start, chars, littleEndian) == Some(codes)
  {
    hide ReadUint32;
    if code == 0 {
      assert codes + [] == codes;
    } else {
      match CodesBefore(bytes, start + 4 * k + 4, chars - k - 1, littleEndian)
      case None =>
      case Some(rest) => assert codes + ([code] + rest) == codes + [code] + rest;
    }
  }

  lemma EveryCode(bytes: seq<Byte>, start: nat, chars: nat, littleEndian: bool, codes: seq<bv32>)
    requires PartWay(bytes, start, chars, littleEndian, chars, codes)
    ensures CodesBefore(bytes, start, chars, littleEndian) == Some(codes)
  {
    assert codes + [] == codes;
  }

  // A code that is none spoils what it is among.
  lemma {:induction false} OneBadCode(codes: seq<bv32>, code: bv32, rest: seq<bv32>)
    requires AppendUtf8(code).None?
    ensures Utf8(codes + [code] + rest).None?
    decreases |rest|
  {
    hide AppendUtf8;
    var all := codes + [code] + rest;
    if rest == [] {
      assert all[..|all| - 1] == codes;
    } else {
      OneBadCode(codes, code, rest[..|rest| - 1]);
      assert all[..|all| - 1] == codes + [code] + rest[..|rest| - 1];
    }
  }

  lemma BadElement(bytes: seq<Byte>, start: nat, chars: nat, littleEndian: bool, k: nat, codes: seq<bv32>, code: bv32)
    requires PartWay(bytes, start, chars, littleEndian, k + 1, codes + [code]) && AppendUtf8(code).None?
    ensures Element(bytes, start, chars, littleEndian).None?
  {
    match CodesBefore(bytes, start + 4 * (k + 1), chars - (k + 1), littleEndian)
    case None =>
    case Some(rest) => OneBadCode(codes, code, rest);
  }

  lemma Utf8OneMore(codes: seq<bv32>, code: bv32)
    requires Utf8(codes).Some? && AppendUtf8(code).Some?
    ensures Utf8(codes + [code]) == Some(Utf8(codes).value + AppendUtf8(code).value)
  {
    assert (codes + [code])[..|codes|] == codes;
    hide AppendUtf8;
  }

  lemma Utf8OfNothing()
    ensures Utf8([]) == Some([])
  {}

  // One element of a chunk.
  method DecodeElement(bytes: seq<Byte>, start: nat, chars: nat, littleEndian: bool)
      returns (r: Result<seq<Byte>, ErrorCode>)
    ensures r.Ok? <==> Element(bytes, start, chars, littleEndian).Some?
    ensures r.Ok? ==> Some(r.value) == Element(bytes, start, chars, littleEndian)
    ensures r.Err? ==> r.error == DecodeError
  {
    hide PartWay, CodesBefore, ReadUint32, AppendUtf8, Utf8;
    var value: seq<Byte> := [];
    ghost var codes: seq<bv32> := [];
    NoCodesYet(bytes, start, chars, littleEndian);
    Utf8OfNothing();
    for k := 0 to chars
      invariant PartWay(bytes, start, chars, littleEndian, k, codes) && Utf8(codes) == Some(value)
    {
      var offset := start + 4 * k;
      if offset + 4 > |bytes| {
        TooShort(bytes, start, chars, littleEndian, k, codes);
        return Err(DecodeError);
      }
      var code := ReadUint32(bytes[offset..offset + 4], littleEndian);
      OneMoreCode(bytes, start, chars, littleEndian, k, codes, code);
      if code == 0 {
        return Ok(value);
      }
      var written := AppendUtf8(code);
      if written.None? {
        BadElement(bytes, start, chars, littleEndian, k, codes, code);
        return Err(DecodeError);
      }
      Utf8OneMore(codes, code);
      value := value + written.value;
      codes := codes + [code];
    }
    EveryCode(bytes, start, chars, littleEndian, codes);
    r := Ok(value);
  }

  lemma TooShort(bytes: seq<Byte>, start: nat, chars: nat, littleEndian: bool, k: nat, codes: seq<bv32>)
    requires PartWay(bytes, start, chars, littleEndian, k, codes) && k < chars && start + 4 * k + 4 > |bytes|
    ensures Element(bytes, start, chars, littleEndian).None?
  {}

  // The elements of a chunk's payload.
  method DecodeFixedLengthUtf32(bytes: seq<Byte>, count: nat, lengthBytes: nat, littleEndian: bool)
    returns (r: Result<seq<seq<Byte>>, ErrorCode>)
    ensures r.Ok? <==> forall e: nat :: e < count ==>
              Element(bytes, e * lengthBytes, lengthBytes / 4, littleEndian).Some?
    ensures r.Ok? ==> |r.value| == count && forall e: nat :: e < count ==>
                        Some(r.value[e]) == Element(bytes, e * lengthBytes, lengthBytes / 4, littleEndian)
    ensures r.Err? ==> r.error == DecodeError
  {
    hide Element;
    var values: seq<seq<Byte>> := [];
    for e := 0 to count
      invariant |values| == e
      invariant forall i: nat :: i < e ==>
                Some(values[i]) == Element(bytes, i * lengthBytes, lengthBytes / 4, littleEndian)
    {
      var decoded := DecodeElement(bytes, e * lengthBytes, lengthBytes / 4, littleEndian);
      if decoded.Err? {
        return Err(decoded.error);
      }
      values := values + [decoded.value];
    }
    r := Ok(values);
  }

  // ---- The array ----

  datatype StringArrayLayout = StringArrayLayout(numElements: nat, chunkElements: nat, lengthBytes: nat,
                                                 fillValue: seq<Byte>)

  // What the k-th element of a chunk is: the payload's, or the fill value when the chunk was never
  // written.
  ghost predicate IsInChunk(value: seq<Byte>, index: nat, k: nat, layout: StringArrayLayout, info: StringCodecInfo,
                            chunks: nat -> Option<seq<Byte>>, library: Library) {
    match chunks(index)
    case None => value == layout.fillValue
    case Some(bytes) =>
      exists payload ::
        && |payload| == layout.chunkElements * layout.lengthBytes
        && DecodesTo(bytes, payload, info, library)
        && Element(payload, k * layout.lengthBytes, layout.lengthBytes / 4, info.littleEndian) == Some(value)
  }

  ghost predicate IsElement(value: seq<Byte>, i: nat, layout: StringArrayLayout, info: StringCodecInfo,
                            chunks: nat -> Option<seq<Byte>>, library: Library)
    requires layout.chunkElements > 0
  {
    IsInChunk(value, i / layout.chunkElements, i % layout.chunkElements, layout, info, chunks, library)
  }

  // Nothing is the element: its chunk does not decode, or holds no text there.
  ghost predicate Unreadable(i: nat, layout: StringArrayLayout, info: StringCodecInfo,
                             chunks: nat -> Option<seq<Byte>>, library: Library)
    requires layout.chunkElements > 0
  {
    forall value :: !IsElement(value, i, layout, info, chunks, library)
  }

  // The array's elements, or an error when one of them cannot be read.
  method ReadStringArray(layout: StringArrayLayout, info: StringCodecInfo, chunks: nat -> Option<seq<Byte>>,
                         library: Library, table: seq<bv32>)
    returns (r: Result<seq<seq<Byte>>, ErrorCode>)
    requires layout.chunkElements > 0 && IsTable(table) && (info.bytesCodec.None? ==> info.crcAfter == 0)
    ensures r.Ok? ==> |r.value| == layout.numElements
                      && forall i: nat :: i < layout.numElements ==>
                          IsElement(r.value[i], i, layout, info, chunks, library)
    ensures r.Err? ==> r.error == DecodeError
                       && exists i: nat :: i < layout.numElements && Unreadable(i, layout, info, chunks, library)
  {
    hide DecodesTo, Element, IsTable, IsElement, IsInChunk, Unreadable;
    var values: seq<seq<Byte>> := [];
    var index := 0;
    while |values| < layout.numElements
      invariant |values| <= layout.numElements
      invariant |values| == index * layout.chunkElements || |values| == layout.numElements
      invariant forall i: nat :: i < |values| ==> IsElement(values[i], i, layout, info, chunks, library)
      decreases layout.numElements - |values|
    {
      var count := if layout.chunkElements < layout.numElements - |values| then layout.chunkElements
                   else layout.numElements - |values|;
      var part: seq<seq<Byte>>;
      match chunks(index) {
        case None =>
          part := seq(count, _ => layout.fillValue);
        case Some(bytes) =>
          var payload := DecodeStringChunk(bytes, info, layout.chunkElements * layout.lengthBytes, library, table);
          if payload.Err? {
            ChunkUndecoded(|values|, bytes, index, layout, info, chunks, library);
            return Err(payload.error);
          }
          var decoded := DecodeFixedLengthUtf32(payload.value, count, layout.lengthBytes, info.littleEndian);
          if decoded.Err? {
            ghost var e: nat :|
              e < count
              && Element(payload.value, e * layout.lengthBytes, layout.lengthBytes / 4, info.littleEndian).None?;
            ChunkHoldsNoText(|values|, bytes, payload.value, index, e, layout, info, chunks, library);
            return Err(decoded.error);
          }
          part := decoded.value;
          ChunkIsRead(bytes, payload.value, part, index, count, layout, info, chunks, library);
      }
      if chunks(index).None? { ChunkIsFilled(part, index, count, layout, info, chunks, library); }
      ChunkAppended(values, part, index, layout, info, chunks, library);
      values := values + part;
      index := index + 1;
    }
    r := Ok(values);
  }

  lemma PlaceInChunk(index: nat, k: nat, chunkElements: nat)
    requires k < chunkElements
    ensures (index * chunkElements + k) / chunkElements == index && (index * chunkElements + k) % chunkElements == k
  {
    B.DivMod(index, k, chunkElements);
  }

  lemma ChunkUndecoded(i: nat, bytes: seq<Byte>, index: nat, layout: StringArrayLayout, info: StringCodecInfo,
                       chunks: nat -> Option<seq<Byte>>, library: Library)
    requires layout.chunkElements > 0 && i == index * layout.chunkElements && chunks(index) == Some(bytes)
    requires forall payload :: |payload| == layout.chunkElements * layout.lengthBytes ==>
              !DecodesTo(bytes, payload, info, library)
    ensures Unreadable(i, layout, info, chunks, library)
  {
    hide DecodesTo, Element;
    PlaceInChunk(index, 0, layout.chunkElements);
  }

  lemma ChunkHoldsNoText(i: nat, bytes: seq<Byte>, payload: seq<Byte>, index: nat, e: nat, layout: StringArrayLayout,
                         info: StringCodecInfo, chunks: nat -> Option<seq<Byte>>, library: Library)
    requires e < layout.chunkElements && i == index * layout.chunkElements && chunks(index) == Some(bytes)
    requires |payload| == layout.chunkElements * layout.lengthBytes && DecodesTo(bytes, payload, info, library)
    requires Element(payload, e * layout.lengthBytes, layout.lengthBytes / 4, info.littleEndian).None?
    ensures Unreadable(i + e, layout, info, chunks, library)
  {
    PlaceInChunk(index, e, layout.chunkElements);
    hide DecodesTo, Element;
    forall other | |other| == |payload| && DecodesTo(bytes, other, info, library) ensures other == payload {
      DecodesToOne(bytes, payload, other, info, library);
    }
  }

  lemma ChunkAppended(values: seq<seq<Byte>>, part: seq<seq<Byte>>, index: nat, layout: StringArrayLayout,
                      info: StringCodecInfo, chunks: nat -> Option<seq<Byte>>, library: Library)
    requires layout.chunkElements > 0 && |part| <= layout.chunkElements && |values| == index * layout.chunkElements
    requires forall i: nat :: i < |values| ==> IsElement(values[i], i, layout, info, chunks, library)
    requires forall k: nat :: k < |part| ==> IsInChunk(part[k], index, k, layout, info, chunks, library)
    ensures forall i: nat :: i < |values + part| ==> IsElement((values + part)[i], i, layout, info, chunks, library)
    ensures |part| == layout.chunkElements ==> |values + part| == (index + 1) * layout.chunkElements
  {
    hide IsInChunk;
    forall i: nat | i < |values + part| ensures IsElement((values + part)[i], i, layout, info, chunks, library) {
      if i >= |values| { PlaceInChunk(index, i - |values|, layout.chunkElements); }
    }
    assert (index + 1) * layout.chunkElements == index * layout.chunkElements + layout.chunkElements;
  }

  lemma ChunkIsFilled(part: seq<seq<Byte>>, index: nat, count: nat, layout: StringArrayLayout, info: StringCodecInfo,
                      chunks: nat -> Option<seq<Byte>>, library: Library)
    requires chunks(index).None? && part == seq(count, _ => layout.fillValue)
    ensures forall k: nat :: k < count ==> IsInChunk(part[k], index, k, layout, info, chunks, library)
  {}

  lemma ChunkIsRead(bytes: seq<Byte>, payload: seq<Byte>, part: seq<seq<Byte>>, index: nat, count: nat,
                    layout: StringArrayLayout, info: StringCodecInfo, chunks: nat -> Option<seq<Byte>>,
                    library: Library)
    requires chunks(index) == Some(bytes)
    requires |payload| == layout.chunkElements * layout.lengthBytes && DecodesTo(bytes, payload, info, library)
    requires |part| == count && forall e: nat :: e < count ==>
               Some(part[e]) == Element(payload, e * layout.lengthBytes, layout.lengthBytes / 4, info.littleEndian)
    ensures forall k: nat :: k < count ==> IsInChunk(part[k], index, k, layout, info, chunks, library)
  {
    hide DecodesTo, Element;
  }
}
