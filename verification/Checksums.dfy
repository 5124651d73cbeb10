// CRC32C by table: Crc32c and StripCrc32c, src/zarr/string_array.cc, against the shift register fed a
// bit at a time (section 12.1 of RFC 3720: the Castagnoli polynomial, bits reflected, the register
// starting from and ending xored with all ones).

module Checksums {
  import opened Wrappers

  const POLYNOMIAL: bv32 := 0x82F6_3B78
  const ALL_ONES: bv32 := 0xFFFF_FFFF

  function Xor(a: bv32, b: bv32): bv32 { a ^ b }
  function And(a: bv32, b: bv32): bv32 { a & b }
  function Wide(byte: Byte): bv32 { byte as bv32 }

  // ---- The shift register ----

  // One bit into the register: it is compared with the one shifted out, and the polynomial is taken
  // away when they differ.
  function Feed(crc: bv32, bit: bool): bv32 {
    var out := (crc & 1) ^ if bit then 1 else 0;
    if out == 1 then (crc >> 1) ^ POLYNOMIAL else crc >> 1
  }

  function FeedAll(crc: bv32, bits: seq<bool>): bv32 {
    if bits == [] then crc else Feed(FeedAll(crc, bits[..|bits| - 1]), bits[|bits| - 1])
  }

  // A byte's bits, the lowest first.
  function BitsOf(byte: Byte): (bits: seq<bool>)
    ensures |bits| == 8
  {
    [byte & 1 == 1, (byte >> 1) & 1 == 1, (byte >> 2) & 1 == 1, (byte >> 3) & 1 == 1,
     (byte >> 4) & 1 == 1, (byte >> 5) & 1 == 1, (byte >> 6) & 1 == 1, (byte >> 7) & 1 == 1]
  }

  function Register(data: seq<Byte>): bv32 {
    if data == [] then ALL_ONES else FeedAll(Register(data[..|data| - 1]), BitsOf(data[|data| - 1]))
  }

  // The checksum of some bytes.
  function Checksum(data: seq<Byte>): bv32 {
    Xor(Register(data), ALL_ONES)
  }

  // ---- Steps without input ----

  function Half(x: bv32): bv32 { x >> 1 }
  predicate Odd(x: bv32) { x & 1 == 1 }

  function Step(crc: bv32): bv32 {
    if Odd(crc) then Xor(Half(crc), POLYNOMIAL) else Half(crc)
  }

  function Steps(crc: bv32, n: nat): bv32 {
    if n == 0 then crc else Step(Steps(crc, n - 1))
  }

  lemma HalfIsLinear(a: bv32, b: bv32)
    ensures Half(Xor(a, b)) == Xor(Half(a), Half(b))
  {}

  lemma OddIsLinear(a: bv32, b: bv32)
    ensures Odd(Xor(a, b)) <==> Odd(a) != Odd(b)
  {}

  lemma XorLaws(x: bv32, y: bv32, p: bv32)
    ensures Xor(Xor(x, p), y) == Xor(Xor(x, y), p)
    ensures Xor(x, Xor(y, p)) == Xor(Xor(x, y), p)
    ensures Xor(Xor(x, p), Xor(y, p)) == Xor(x, y)
  {}

  // Stepping is linear over exclusive or: what makes a table possible.
  lemma StepIsLinear(a: bv32, b: bv32)
    ensures Step(Xor(a, b)) == Xor(Step(a), Step(b))
  {
    hide Xor, Half, Odd;
    HalfIsLinear(a, b);
    OddIsLinear(a, b);
    XorLaws(Half(a), Half(b), POLYNOMIAL);
  }

  lemma {:induction false} StepsAreLinear(a: bv32, b: bv32, n: nat)
    ensures Steps(Xor(a, b), n) == Xor(Steps(a, n), Steps(b, n))
  {
    hide Step, Xor;
    if n > 0 {
      StepsAreLinear(a, b, n - 1);
      StepIsLinear(Steps(a, n - 1), Steps(b, n - 1));
    }
  }

  // The single bits of a byte, and every bit below one.
  function One(n: nat): bv32 {
    match n
    case 0 => 1
    case 1 => 2
    case 2 => 4
    case 3 => 8
    case 4 => 16
    case 5 => 32
    case 6 => 64
    case _ => 128
  }

  function Low(n: nat): bv32 {
    match n
    case 0 => 0
    case 1 => 1
    case 2 => 3
    case 3 => 7
    case 4 => 15
    case 5 => 31
    case 6 => 63
    case 7 => 127
    case _ => 255
  }

  // A single bit only moves down.
  lemma {:induction false} StepsOfOne(n: nat, k: nat)
    requires k <= n < 8
    ensures Steps(One(n), k) == One(n - k)
  {
    hide Step, One;
    if k > 0 {
      StepsOfOne(n, k - 1);
      StepOfOne(n - k);
    }
  }

  lemma StepOfOne(n: nat)
    requires n < 7
    ensures Step(One(n + 1)) == One(n)
  {}

  lemma {:induction false} StepsOfNothing(k: nat)
    ensures Steps(0, k) == 0
  {
    if k > 0 { StepsOfNothing(k - 1); }
  }

  lemma StepsNext(x: bv32, k: nat)
    requires k > 0
    ensures Steps(x, k) == Step(Steps(x, k - 1))
  {}

  // ---- A byte at a time ----

  function Bit(bit: bool): bv32 { if bit then 1 else 0 }

  lemma FeedIsStep(crc: bv32, bit: bool)
    ensures Feed(crc, bit) == Step(Xor(crc, Bit(bit)))
  {
    hide Feed, Step, Xor;
    if bit { FeedOne(crc); } else { FeedZero(crc); }
  }

  lemma FeedZero(crc: bv32)
    ensures Feed(crc, false) == Step(Xor(crc, 0))
  {}

  lemma FeedOne(crc: bv32)
    ensures Feed(crc, true) == Step(Xor(crc, 1))
  {}

  lemma OneMoreBit(b: bv32, n: nat)
    requires n < 8
    ensures Xor(And(b, Low(n)), And(b, One(n))) == And(b, Low(n + 1))
    ensures And(b, One(n)) == 0 || And(b, One(n)) == One(n)
  {
    hide Xor, And;
    match n
    case 0 => LowestJoined(b);
    case 1 => SecondJoined(b);
    case 2 => ThirdJoined(b);
    case 3 => FourthJoined(b);
    case 4 => FifthJoined(b);
    case 5 => SixthJoined(b);
    case 6 => SeventhJoined(b);
    case _ => HighestJoined(b);
  }

  lemma LowestJoined(b: bv32)
    ensures Xor(And(b, 0), And(b, 1)) == And(b, 1) && (And(b, 1) == 0 || And(b, 1) == 1)
  {}

  lemma SecondJoined(b: bv32)
    ensures Xor(And(b, 1), And(b, 2)) == And(b, 3) && (And(b, 2) == 0 || And(b, 2) == 2)
  {}

  lemma ThirdJoined(b: bv32)
    ensures Xor(And(b, 3), And(b, 4)) == And(b, 7) && (And(b, 4) == 0 || And(b, 4) == 4)
  {}

  lemma FourthJoined(b: bv32)
    ensures Xor(And(b, 7), And(b, 8)) == And(b, 15) && (And(b, 8) == 0 || And(b, 8) == 8)
  {}

  lemma FifthJoined(b: bv32)
    ensures Xor(And(b, 15), And(b, 16)) == And(b, 31) && (And(b, 16) == 0 || And(b, 16) == 16)
  {}

  lemma SixthJoined(b: bv32)
    ensures Xor(And(b, 31), And(b, 32)) == And(b, 63) && (And(b, 32) == 0 || And(b, 32) == 32)
  {}

  lemma SeventhJoined(b: bv32)
    ensures Xor(And(b, 63), And(b, 64)) == And(b, 127) && (And(b, 64) == 0 || And(b, 64) == 64)
  {}

  lemma HighestJoined(b: bv32)
    ensures Xor(And(b, 127), And(b, 128)) == And(b, 255) && (And(b, 128) == 0 || And(b, 128) == 128)
  {}

  // The bits of a byte, by their places.
  lemma BitsArePlaces(byte: Byte, n: nat)
    requires n < 8
    ensures BitsOf(byte)[n] <==> And(Wide(byte), One(n)) != 0
  {
    hide And, Wide;
    match n
    case 0 => LowestBit(byte);
    case 1 => SecondBit(byte);
    case 2 => ThirdBit(byte);
    case 3 => FourthBit(byte);
    case 4 => FifthBit(byte);
    case 5 => SixthBit(byte);
    case 6 => SeventhBit(byte);
    case _ => HighestBit(byte);
  }

  lemma LowestBit(byte: Byte)
    ensures byte & 1 == 1 <==> And(Wide(byte), 1) != 0
  {}

  lemma SecondBit(byte: Byte)
    ensures (byte >> 1) & 1 == 1 <==> And(Wide(byte), 2) != 0
  {}

  lemma ThirdBit(byte: Byte)
    ensures (byte >> 2) & 1 == 1 <==> And(Wide(byte), 4) != 0
  {}

  lemma FourthBit(byte: Byte)
    ensures (byte >> 3) & 1 == 1 <==> And(Wide(byte), 8) != 0
  {}

  lemma FifthBit(byte: Byte)
    ensures (byte >> 4) & 1 == 1 <==> And(Wide(byte), 16) != 0
  {}

  lemma SixthBit(byte: Byte)
    ensures (byte >> 5) & 1 == 1 <==> And(Wide(byte), 32) != 0
  {}

  lemma SeventhBit(byte: Byte)
    ensures (byte >> 6) & 1 == 1 <==> And(Wide(byte), 64) != 0
  {}

  lemma HighestBit(byte: Byte)
    ensures (byte >> 7) & 1 == 1 <==> And(Wide(byte), 128) != 0
  {}

  // A bit of the byte, stepped down from its place, is the bit itself.
  lemma BitComesDown(byte: Byte, n: nat)
    requires n < 8
    ensures Steps(And(Wide(byte), One(n)), n) == Bit(BitsOf(byte)[n])
  {
    hide Step, Steps, And, Wide, BitsOf;
    BitsArePlaces(byte, n);
    OneMoreBit(Wide(byte), n);
    StepsOfOne(n, n);
    StepsOfNothing(n);
  }

  // Feeding a byte's first bits is xoring them in at their places and stepping once for each.
  lemma {:induction false} FirstBits(crc: bv32, byte: Byte, n: nat)
    requires n <= 8
    ensures FeedAll(crc, BitsOf(byte)[..n]) == Steps(Xor(crc, And(Wide(byte), Low(n))), n)
  {
    hide *;
    var b, bits := Wide(byte), BitsOf(byte);
    EightBits(byte);
    if n == 0 {
      NoBits(crc, b);
      assert bits[..0] == [];
    } else {
      FirstBits(crc, byte, n - 1);
      FeedLast(crc, bits, n);
      FeedIsStep(FeedAll(crc, bits[..n - 1]), bits[n - 1]);
      BitComesDown(byte, n - 1);
      OneMoreBit(b, n - 1);
      StepsAreLinear(Xor(crc, And(b, Low(n - 1))), And(b, One(n - 1)), n - 1);
      XorAssociates(crc, And(b, Low(n - 1)), And(b, One(n - 1)));
      StepsNext(Xor(crc, And(b, Low(n))), n);
    }
  }

  lemma EightBits(byte: Byte)
    ensures |BitsOf(byte)| == 8
  {}

  lemma NoBits(crc: bv32, b: bv32)
    ensures FeedAll(crc, []) == Steps(Xor(crc, And(b, Low(0))), 0)
  {
    hide FeedAll, Steps;
    NothingFed(crc);
    NoSteps(Xor(crc, And(b, Low(0))));
    assert crc ^ (b & 0) == crc;
  }

  lemma NothingFed(crc: bv32)
    ensures FeedAll(crc, []) == crc
  {}

  lemma NoSteps(crc: bv32)
    ensures Steps(crc, 0) == crc
  {}

  lemma XorAssociates(a: bv32, b: bv32, c: bv32)
    ensures Xor(Xor(a, b), c) == Xor(a, Xor(b, c))
  {}

  lemma FeedLast(crc: bv32, bits: seq<bool>, n: nat)
    requires 0 < n <= |bits|
    ensures FeedAll(crc, bits[..n]) == Feed(FeedAll(crc, bits[..n - 1]), bits[n - 1])
  {
    assert bits[..n][..n - 1] == bits[..n - 1];
    hide Feed;
  }

  // ---- Low bits of zero only shift ----

  // The lowest n of a byte's bits are zero.
  predicate Even(x: bv32, n: nat) { And(x, Low(n)) == 0 }

  lemma HalfOfEven(x: bv32, n: nat)
    requires 0 < n <= 8 && Even(x, n)
    ensures Step(x) == Half(x) && Even(Half(x), n - 1)
  {
    Shifted(x, Low(n), Low(n - 1));
    LowIsOdd(n);
    hide Low;
  }

  lemma LowIsOdd(n: nat)
    requires 0 < n <= 8
    ensures Low(n) & 1 == 1 && Low(n) >> 1 == Low(n - 1)
  {}

  lemma Shifted(x: bv32, low: bv32, next: bv32)
    ensures low & 1 == 1 && low >> 1 == next && x & low == 0 ==> x & 1 == 0 && (x >> 1) & next == 0
  {}

  // Stepping n times past n zero bits is shifting n times.
  function Halves(x: bv32, n: nat): bv32 {
    if n == 0 then x else Halves(Half(x), n - 1)
  }

  lemma {:induction false} StepsHalve(x: bv32, n: nat)
    requires n <= 8 && Even(x, n)
    ensures Steps(x, n) == Halves(x, n)
    decreases n
  {
    hide Step, Half, Even, Steps;
    if n > 0 {
      HalfOfEven(x, n);
      StepsHalve(Half(x), n - 1);
      StepFirst(x, n);
    } else {
      NoSteps(x);
    }
  }

  lemma {:induction false} StepFirst(x: bv32, n: nat)
    requires n > 0
    ensures Steps(x, n) == Steps(Step(x), n - 1)
  {
    hide Step;
    if n > 1 { StepFirst(x, n - 1); }
  }

  function Past(x: bv32): bv32 { x >> 8 }

  lemma EightHalves(x: bv32)
    ensures Halves(x, 8) == Past(x)
  {
    hide Half, Past;
    HalvesTwo(x, 8);
    HalvesTwo(Half(Half(x)), 6);
    HalvesTwo(Half(Half(Half(Half(x)))), 4);
    HalvesTwo(Half(Half(Half(Half(Half(Half(x)))))), 2);
    ShiftedEight(x);
  }

  lemma HalvesTwo(x: bv32, n: nat)
    requires n >= 2
    ensures Halves(x, n) == Halves(Half(Half(x)), n - 2)
  {
    hide Half;
  }

  lemma ShiftedEight(x: bv32)
    ensures Half(Half(Half(Half(Half(Half(Half(Half(x)))))))) == Past(x)
  {}

  // ---- The table ----

  ghost predicate IsTable(table: seq<bv32>) {
    |table| == 256 && forall i :: 0 <= i < 256 ==> table[i] == Steps(i as bv32, 8)
  }

  method MakeTable() returns (table: seq<bv32>)
    ensures IsTable(table)
  {
    hide Step, Steps;
    table := [];
    for index := 0 to 256
      invariant |table| == index && forall i :: 0 <= i < index ==> table[i] == Steps(i as bv32, 8)
    {
      var crc := index as bv32;
      NoSteps(crc);
      for bit := 0 to 8
        invariant crc == Steps(index as bv32, bit)
      {
        StepsNext(index as bv32, bit + 1);
        crc := Step(crc);
      }
      table := table + [crc];
    }
  }

  // The table's entry for what a byte changes in the register's low bits.
  function EntryOf(crc: bv32, byte: Byte): (i: nat)
    ensures i < 256 && i as bv32 == And(Xor(crc, Wide(byte)), 0xFF)
  {
    And(Xor(crc, Wide(byte)), 0xFF) as int
  }

  // Looking a byte up is feeding its bits one by one.
  lemma LookUp(table: seq<bv32>, crc: bv32, byte: Byte)
    requires IsTable(table)
    ensures EntryOf(crc, byte) < |table|
    ensures Xor(table[EntryOf(crc, byte)], Past(crc)) == FeedAll(crc, BitsOf(byte))
  {
    hide *;
    var x := Xor(crc, Wide(byte));
    var low, high := And(x, 0xFF), And(x, 0xFFFF_FF00);
    EightBits(byte);
    FirstBits(crc, byte, 8);
    assert BitsOf(byte)[..8] == BitsOf(byte);
    WholeByte(byte);
    HighBits(crc, byte);
    StepsAreLinear(low, high, 8);
    StepsHalve(high, 8);
    EightHalves(high);
    TableEntry(table, EntryOf(crc, byte));
  }

  lemma TableEntry(table: seq<bv32>, i: nat)
    requires IsTable(table) && i < 256
    ensures |table| == 256 && table[i] == Steps(i as bv32, 8)
  {}

  lemma WholeByte(byte: Byte)
    ensures And(Wide(byte), Low(8)) == Wide(byte)
  {}

  lemma HighBits(crc: bv32, byte: Byte)
    ensures var x := Xor(crc, Wide(byte));
            && Xor(And(x, 0xFF), And(x, 0xFFFF_FF00)) == x
            && Even(And(x, 0xFFFF_FF00), 8) && Past(And(x, 0xFFFF_FF00)) == Past(crc)
  {
    var x := Xor(crc, Wide(byte));
    Halved(x);
    PastTheByte(crc, byte);
  }

  lemma Halved(x: bv32)
    ensures Xor(And(x, 0xFF), And(x, 0xFFFF_FF00)) == x && Even(And(x, 0xFFFF_FF00), 8)
  {}

  lemma PastTheByte(crc: bv32, byte: Byte)
    ensures Past(And(Xor(crc, Wide(byte)), 0xFFFF_FF00)) == Past(crc)
  {}

  // The checksum, a table entry a byte.
  method Crc32c(data: seq<Byte>, table: seq<bv32>) returns (crc: bv32)
    requires IsTable(table)
    ensures crc == Checksum(data)
  {
    hide FeedAll, BitsOf, IsTable, Xor, Past, EntryOf;
    crc := ALL_ONES;
    for i := 0 to |data|
      invariant crc == Register(data[..i])
    {
      LookUp(table, crc, data[i]);
      assert data[..i + 1][..i] == data[..i];
      crc := Xor(table[EntryOf(crc, data[i])], Past(crc));
    }
    assert data[..|data|] == data;
    crc := Xor(crc, ALL_ONES);
  }
}
