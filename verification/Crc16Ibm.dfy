/** CRC-16/IBM, the trailer of every AVL packet: reversed polynomial 0xA001. */
module Crc16Ibm {
  import opened Bytes
  import opened ShiftRegister

  // ----- One bit -----

  /** One bit through the reflected register: the polynomial goes in when the bit shifted out is 1. */
  function Shift(c: bv16): bv16 {
    (c >> 1) ^ ((0 - (c & 1)) & 0xa001)
  }

  function Xor(a: bv16, b: bv16): bv16 {
    a ^ b
  }

  /** A byte in the low end of the register. */
  function Lift(b: byte): bv16 {
    b as bv16
  }

  /** One byte: exclusive or into the low end, then eight bits through the register. */
  function Absorb(c: bv16, b: byte): bv16 {
    Iterate(Shift, Xor(c, b as bv16), 8)
  }

  /** CRC-16/IBM: initial value 0, no final exclusive or. */
  function Crc16(data: seq<byte>): bv16 {
    Feed(Absorb, 0, data)
  }

  // ----- The table -----

  /** The entry for `i` is what eight shifts make of `i`. */
  ghost predicate IsTable(table: array<bv16>)
    reads table
  {
    table.Length == 256 && Tabulates(table[..], Shift, Lift)
  }

  /** The loop over the bits of one byte. */
  method ShiftByte(c: bv16) returns (crc: bv16)
    ensures crc == Iterate(Shift, c, 8)
  {
    crc := c;
    for j := 0 to 8
      invariant crc == Iterate(Shift, c, j)
    {
      if crc & 1 == 1 {
        crc := (crc >> 1) ^ 0xa001;
      } else {
        crc := crc >> 1;
      }
    }
  }

  /** The table filled when the module loads. */
  method BuildTable() returns (table: array<bv16>)
    ensures fresh(table) && IsTable(table)
  {
    table := new bv16[256];
    for i := 0 to 256
      invariant Tabulates(table[..i], Shift, Lift)
    {
      var crc := ShiftByte(Lift(i));
      TabulatesNext(table[..i], Shift, Lift, crc);
      table[i] := crc;
      assert table[..i + 1] == table[..i] + [crc];
    }
    assert table[..256] == table[..];
  }

  /** The production CRC: one lookup for each byte of `data[start..end]`. */
  method TableCrc(table: array<bv16>, data: seq<byte>, start: nat, end: nat) returns (r: bv16)
    requires IsTable(table) && start <= end <= |data|
    ensures r == Crc16(data[start..end])
  {
    var crc: bv16 := 0;
    for i := start to end
      invariant crc == Crc16(data[start..i])
    {
      assert data[start..i + 1][..i - start] == data[start..i];
      crc := LookUp(table, crc, data[i]);
    }
    r := crc & 0xffff;
  }

  /** The body of the table loop. */
  method LookUp(table: array<bv16>, crc: bv16, b: byte) returns (next: bv16)
    requires IsTable(table)
    ensures next == Absorb(crc, b)
  {
    var x := Xor(crc, b as bv16);
    Index(x);
    TableStep(x);
    ByteBits(b);
    AbsorbsIntoLowByte(crc, b as bv16);
    var value := table[(x & 0xff) as int];
    next := Xor(value, crc >> 8);
  }

  /** The load-test simulator's CRC: no table, one bit at a time. */
  method BitSerialCrc(data: seq<byte>) returns (r: bv16)
    ensures r == Crc16(data)
  {
    var crc: bv16 := 0;
    for i := 0 to |data|
      invariant crc == Crc16(data[..i])
    {
      assert data[..i + 1][..i] == data[..i];
      crc := ShiftByte(Xor(crc, data[i] as bv16));
    }
    assert data[..|data|] == data;
    r := crc & 0xffff;
  }

  // ----- A shift can be undone -----

  lemma ShiftInjective(a: bv16, b: bv16)
    requires Shift(a) == Shift(b)
    ensures a == b
  {
  }

  lemma ShiftsInjective(a: bv16, b: bv16, n: nat)
    requires Iterate(Shift, a, n) == Iterate(Shift, b, n)
    ensures a == b
  {
    forall x, y | Shift(x) == Shift(y) ensures x == y {
      ShiftInjective(x, y);
    }
    IterateInjective(Shift, a, b, n);
  }

  lemma XorInjective(a: bv16, b: bv16, c: bv16)
    requires Xor(a, c) == Xor(b, c) || Xor(c, a) == Xor(c, b)
    ensures a == b
  {
  }

  // ----- A shift is linear; the proof splits on the two bits shifted out -----

  lemma ShiftLinear00(a: bv16, b: bv16)
    requires a & 1 == 0 && b & 1 == 0
    ensures Shift(Xor(a, b)) == Xor(Shift(a), Shift(b))
  {
  }

  lemma ShiftLinear01(a: bv16, b: bv16)
    requires a & 1 == 0 && b & 1 == 1
    ensures Shift(Xor(a, b)) == Xor(Shift(a), Shift(b))
  {
  }

  lemma ShiftLinear10(a: bv16, b: bv16)
    requires a & 1 == 1 && b & 1 == 0
    ensures Shift(Xor(a, b)) == Xor(Shift(a), Shift(b))
  {
  }

  lemma ShiftLinear11(a: bv16, b: bv16)
    requires a & 1 == 1 && b & 1 == 1
    ensures Shift(Xor(a, b)) == Xor(Shift(a), Shift(b))
  {
  }

  lemma LowBit(c: bv16)
    ensures c & 1 == 0 || c & 1 == 1
  {
  }

  lemma ShiftLinear(a: bv16, b: bv16)
    ensures Shift(Xor(a, b)) == Xor(Shift(a), Shift(b))
  {
    LowBit(a);
    LowBit(b);
    if a & 1 == 0 {
      if b & 1 == 0 {
        ShiftLinear00(a, b);
      } else {
        ShiftLinear01(a, b);
      }
    } else {
      if b & 1 == 0 {
        ShiftLinear10(a, b);
      } else {
        ShiftLinear11(a, b);
      }
    }
  }

  lemma ShiftsLinear(a: bv16, b: bv16, n: nat)
    ensures Iterate(Shift, Xor(a, b), n) == Xor(Iterate(Shift, a, n), Iterate(Shift, b, n))
  {
    forall x, y ensures Shift(Xor(x, y)) == Xor(Shift(x), Shift(y)) {
      ShiftLinear(x, y);
    }
    IterateSum(Shift, Xor, a, b, n);
  }

  // ----- Bits above the low byte only move down -----

  lemma ShiftEven(z: bv16, y: bv16)
    requires z & 1 == 0 && y == z >> 1
    ensures Shift(z) == y
  {
  }

  lemma ShiftOnceAbove(z: bv16)
    requires z & 1 == 0
    ensures Iterate(Shift, z, 1) == z >> 1
  {
    ShiftEven(z, z >> 1);
    IterateChain(Shift, [z, z >> 1], 1);
  }

  lemma SplitBits(z: bv16)
    ensures z & 3 == 0 ==> z & 1 == 0 && (z >> 1) & 1 == 0
    ensures z & 0xf == 0 ==> z & 3 == 0 && (z >> 2) & 3 == 0
    ensures z & 0xff == 0 ==> z & 0xf == 0 && (z >> 4) & 0xf == 0
    ensures (z >> 1) >> 1 == z >> 2 && (z >> 2) >> 2 == z >> 4 && (z >> 4) >> 4 == z >> 8
  {
  }

  lemma ShiftTwiceAbove(z: bv16)
    requires z & 3 == 0
    ensures Iterate(Shift, z, 2) == z >> 2
  {
    SplitBits(z);
    ShiftOnceAbove(z);
    ShiftOnceAbove(z >> 1);
    IteratePlus(Shift, z, 1, 1);
  }

  lemma ShiftNibbleAbove(z: bv16)
    requires z & 0xf == 0
    ensures Iterate(Shift, z, 4) == z >> 4
  {
    SplitBits(z);
    ShiftTwiceAbove(z);
    ShiftTwiceAbove(z >> 2);
    IteratePlus(Shift, z, 2, 2);
  }

  lemma ShiftsAbove(z: bv16)
    requires z & 0xff == 0
    ensures Iterate(Shift, z, 8) == z >> 8
  {
    SplitBits(z);
    ShiftNibbleAbove(z);
    ShiftNibbleAbove(z >> 4);
    IteratePlus(Shift, z, 4, 4);
  }

  lemma Halves(c: bv16)
    ensures Xor(c & 0xff, (c >> 8) << 8) == c
    ensures ((c >> 8) << 8) & 0xff == 0 && ((c >> 8) << 8) >> 8 == c >> 8
  {
  }

  /** Eight shifts at once: the high bytes move down and the low byte is looked up. */
  lemma TableStep(c: bv16)
    ensures Iterate(Shift, c, 8) == Xor(Iterate(Shift, c & 0xff, 8), c >> 8)
  {
    Halves(c);
    ShiftsLinear(c & 0xff, (c >> 8) << 8, 8);
    ShiftsAbove((c >> 8) << 8);
  }

  // Counting up from 0 reaches every byte value.

  lemma BitsToInt(c: bv16)
    ensures (c as int) as bv16 == c
  {
  }

  lemma NextBits(b: bv16)
    requires b < 0xff
    ensures (b + 1) as int == b as int + 1 && b + 1 <= 0xff
  {
  }

  lemma BelowTop(b: bv16, n: nat)
    requires n < 255 && b as int == n && b <= 0xff
    ensures b < 0xff
  {
  }

  lemma BitsOf(n: nat) returns (b: bv16)
    requires n < 256
    ensures b as int == n && b <= 0xff
  {
    if n == 0 {
      b := 0;
    } else {
      b := BitsOf(n - 1);
      BelowTop(b, n - 1);
      NextBits(b);
      b := b + 1;
    }
  }

  lemma ByteBits(n: nat)
    requires n < 256
    ensures (n as bv16) as int == n && n as bv16 <= 0xff
  {
    var b := BitsOf(n);
    BitsToInt(b);
  }

  lemma AbsorbsIntoLowByte(crc: bv16, b: bv16)
    requires b <= 0xff
    ensures Xor(crc, b) >> 8 == crc >> 8
  {
  }

  lemma IndexInRange(c: bv16)
    ensures (c & 0xff) as int < 256
  {
  }

  lemma Index(c: bv16)
    ensures (c & 0xff) as int < 256 && ((c & 0xff) as int) as bv16 == c & 0xff
  {
    IndexInRange(c);
    BitsToInt(c & 0xff);
  }

  // ----- What the checksum detects -----

  lemma AbsorbInjective(x: bv16, y: bv16, b: byte)
    requires Absorb(x, b) == Absorb(y, b)
    ensures x == y
  {
    ShiftsInjective(Xor(x, b as bv16), Xor(y, b as bv16), 8);
    XorInjective(x, y, b as bv16);
  }

  function Up(r: bv16): bv16 {
    r << 8
  }

  predicate HasRoom(r: bv16) {
    (r << 8) >> 8 == r
  }

  function Shift8(c: bv16): bv16 {
    Iterate(Shift, c, 8)
  }

  /** The register as a machine that takes in up to 2 bytes at once. */
  ghost function TheMachine(): Machine<bv16> {
    Machine(0, Xor, Lift, Up, HasRoom, Shift8)
  }

  lemma XorZero(a: bv16)
    ensures Xor(a, 0) == a
  {
  }

  lemma XorAssociative(a: bv16, b: bv16, c: bv16)
    ensures Xor(Xor(a, b), c) == Xor(a, Xor(b, c))
  {
    assert Xor(Xor(a, b), c) == (a ^ b) ^ c;
    assert Xor(a, Xor(b, c)) == a ^ (b ^ c);
  }

  /** Taking in `r` after eight shifts is taking in `r << 8` before them. */
  lemma XorBeforeShifts(y: bv16, r: bv16)
    requires (r << 8) >> 8 == r
    ensures Xor(Iterate(Shift, y, 8), r) == Iterate(Shift, Xor(y, r << 8), 8)
  {
    LowByteFree(r);
    ShiftsLinear(y, r << 8, 8);
    ShiftsAbove(r << 8);
  }

  lemma LowByteFree(r: bv16)
    ensures (r << 8) & 0xff == 0
  {
  }

  lemma UnpackPair(a: bv16, r: bv16, b: bv16, s: bv16)
    requires a <= 0xff && b <= 0xff && (r << 8) >> 8 == r && (s << 8) >> 8 == s
    requires Xor(a, r << 8) == Xor(b, s << 8)
    ensures a == b && r == s
  {
  }

  lemma SameBits(m: byte, n: byte)
    requires m as bv16 == n as bv16
    ensures m == n
  {
    ByteBits(m);
    ByteBits(n);
  }

  lemma XorIsAGroup()
    ensures forall x :: Xor(x, 0) == x
    ensures forall x, y, z {:trigger Xor(Xor(x, y), z)} :: Xor(Xor(x, y), z) == Xor(x, Xor(y, z))
    ensures forall c, x, y :: Xor(c, x) == Xor(c, y) ==> x == y
  {
    forall x ensures Xor(x, 0) == x {
      XorZero(x);
    }
    forall x, y, z ensures Xor(Xor(x, y), z) == Xor(x, Xor(y, z)) {
      XorAssociative(x, y, z);
    }
    forall c, x, y | Xor(c, x) == Xor(c, y) ensures x == y {
      XorInjective(x, y, c);
    }
  }

  lemma Shift8Injective()
    ensures forall x, y :: Shift8(x) == Shift8(y) ==> x == y
  {
    forall x, y | Shift8(x) == Shift8(y) ensures x == y {
      ShiftsInjective(x, y, 8);
    }
  }

  lemma Shift8Mixes()
    ensures forall y, r {:trigger Xor(Shift8(y), r)} :: HasRoom(r) ==> Xor(Shift8(y), r) == Shift8(Xor(y, Up(r)))
  {
    forall y, r | HasRoom(r) ensures Xor(Shift8(y), r) == Shift8(Xor(y, Up(r))) {
      XorBeforeShifts(y, r);
    }
  }

  lemma PackHasRoom(p: seq<byte>)
    requires |p| <= 1
    ensures TheMachine().room(TheMachine().Pack(p))
  {
    if |p| == 1 {
      XorZero(p[0] as bv16);
      assert TheMachine().Pack(p) == Xor(p[0] as bv16, 0);
      ByteBits(p[0]);
      Room(p[0] as bv16);
    }
  }

  lemma Room(b: bv16)
    requires b <= 0xff
    ensures (b << 8) >> 8 == b
  {
  }

  lemma {:induction false} FeedTheMachine(c: bv16, data: seq<byte>)
    ensures Feed(TheMachine().Absorb, c, data) == Feed(Absorb, c, data)
  {
    if data != [] {
      FeedTheMachine(c, data[..|data| - 1]);
    }
  }

  lemma DistinguishesWords()
    ensures Distinguishes(TheMachine().Absorb, 2)
  {
    var m := TheMachine();
    XorIsAGroup();
    Shift8Injective();
    Shift8Mixes();
    MixesIntro(m);
    forall a: byte, r, b: byte, s | HasRoom(r) && HasRoom(s) && Xor(Lift(a), Up(r)) == Xor(Lift(b), Up(s))
      ensures a == b && r == s
    {
      ByteBits(a);
      ByteBits(b);
      UnpackPair(a as bv16, r, b as bv16, s);
      SameBits(a, b);
    }
    forall p | |p| < 2
      ensures m.room(m.Pack(p))
    {
      PackHasRoom(p);
    }
    MachineDistinguishes(m, 2);
  }

  /** Corruption confined to two neighbouring bytes never passes the CRC-16 of an AVL packet. */
  lemma Crc16DetectsBursts(a: seq<byte>, b: seq<byte>, k: nat)
    requires SameOutside(a, b, k, 2) && a != b
    ensures Crc16(a) != Crc16(b)
  {
    if Crc16(a) == Crc16(b) {
      DistinguishesWords();
      forall s, t, x | TheMachine().Absorb(s, x) == TheMachine().Absorb(t, x) ensures s == t {
        AbsorbInjective(s, t, x);
      }
      FeedTheMachine(0, a);
      FeedTheMachine(0, b);
      BurstDetected(TheMachine().Absorb, 0, a, b, k, 2);
    }
  }

  lemma AsIntInjective(a: bv16, b: bv16)
    requires a as int == b as int
    ensures a == b
  {
    assert (a as int) as bv16 == a && (b as int) as bv16 == b;
  }

  function XorByte(a: byte, b: byte): (r: byte)
    ensures r as bv16 == Xor(a as bv16, b as bv16)
  {
    ByteBits(a);
    ByteBits(b);
    XorOfBytes(a as bv16, b as bv16);
    BitsToInt(Xor(a as bv16, b as bv16));
    Xor(a as bv16, b as bv16) as int
  }

  lemma XorOfBytes(a: bv16, b: bv16)
    requires a <= 0xff && b <= 0xff
    ensures Xor(a, b) as int < 256
  {
    MaskOfByte(Xor(a, b));
    IndexInRange(Xor(a, b));
  }

  lemma MaskOfByte(x: bv16)
    ensures x <= 0xff ==> x & 0xff == x
  {
  }

  function XorBytes(a: seq<byte>, b: seq<byte>): (r: seq<byte>)
    requires |a| == |b|
    ensures |r| == |a|
  {
    seq(|a|, i requires 0 <= i < |a| => XorByte(a[i], b[i]))
  }

  lemma XorInterchange(a: bv16, b: bv16, c: bv16, d: bv16)
    ensures Xor(Xor(a, b), Xor(c, d)) == Xor(Xor(a, c), Xor(b, d))
  {
    XorAssociative(a, b, Xor(c, d));
    XorAssociative(b, c, d);
    XorCommutes(b, c);
    XorAssociative(c, b, d);
    XorAssociative(a, c, Xor(b, d));
  }

  lemma XorCommutes(a: bv16, b: bv16)
    ensures Xor(a, b) == Xor(b, a)
  {
  }

  /** The CRC of a bytewise exclusive or is the exclusive or of the CRCs. */
  lemma {:induction false} Crc16Linear(a: seq<byte>, b: seq<byte>)
    requires |a| == |b|
    ensures Crc16(XorBytes(a, b)) == Xor(Crc16(a), Crc16(b))
  {
    if a != [] {
      var n := |a| - 1;
      Crc16Linear(a[..n], b[..n]);
      assert XorBytes(a, b)[..n] == XorBytes(a[..n], b[..n]);
      var x, y := a[n] as bv16, b[n] as bv16;
      XorInterchange(Crc16(a[..n]), Crc16(b[..n]), x, y);
      ShiftsLinear(Xor(Crc16(a[..n]), x), Xor(Crc16(b[..n]), y), 8);
    }
  }

  // ----- The check value -----

  lemma EightShifts(c: bv16)
    ensures Iterate(Shift, c, 8) == Shift(Shift(Shift(Shift(Shift(Shift(Shift(Shift(c))))))))
  {
    assert Iterate(Shift, c, 4) == Shift(Iterate(Shift, c, 3)) == Shift(Shift(Iterate(Shift, c, 2)));
    assert Iterate(Shift, c, 2) == Shift(Iterate(Shift, c, 1)) == Shift(Shift(c));
    assert Iterate(Shift, c, 8) == Shift(Iterate(Shift, c, 7)) == Shift(Shift(Iterate(Shift, c, 6)));
    assert Iterate(Shift, c, 6) == Shift(Iterate(Shift, c, 5)) == Shift(Shift(Iterate(Shift, c, 4)));
  }

  /** `absorb` is `Absorb`, by another name. */
  ghost predicate Agrees(absorb: (bv16, byte) -> bv16) {
    forall c, b {:trigger Absorb(c, b)} :: absorb(c, b) == Absorb(c, b)
  }

  lemma Absorbed(absorb: (bv16, byte) -> bv16, c: bv16, b: byte, x: bv16, d: bv16)
    requires Agrees(absorb) && Xor(c, b as bv16) == x
    requires Shift(Shift(Shift(Shift(Shift(Shift(Shift(Shift(x)))))))) == d
    ensures absorb(c, b) == d
  {
    EightShifts(x);
    assert absorb(c, b) == Absorb(c, b);
  }

  /** The registers after each of the ASCII digits 1 to 9. */
  function Registers(): seq<bv16> {
    [0x0000, 0xd4c1, 0x4594, 0xba04, 0x14ba, 0xa455, 0x29e4, 0x9d68, 0x3c9d, 0xbb3d]
  }

  ghost predicate FirstRounds(absorb: (bv16, byte) -> bv16) {
    && absorb(0x0000, 0x31) == 0xd4c1
    && absorb(0xd4c1, 0x32) == 0x4594
    && absorb(0x4594, 0x33) == 0xba04
    && absorb(0xba04, 0x34) == 0x14ba
    && absorb(0x14ba, 0x35) == 0xa455
  }

  lemma FirstRoundsOfAbsorb(absorb: (bv16, byte) -> bv16)
    requires Agrees(absorb)
    ensures FirstRounds(absorb)
  {
    Absorbed(absorb, 0x0000, 0x31, 0x0031, 0xd4c1);
    Absorbed(absorb, 0xd4c1, 0x32, 0xd4f3, 0x4594);
    Absorbed(absorb, 0x4594, 0x33, 0x45a7, 0xba04);
    Absorbed(absorb, 0xba04, 0x34, 0xba30, 0x14ba);
    Absorbed(absorb, 0x14ba, 0x35, 0x148f, 0xa455);
  }

  ghost predicate LastRounds(absorb: (bv16, byte) -> bv16) {
    && absorb(0xa455, 0x36) == 0x29e4
    && absorb(0x29e4, 0x37) == 0x9d68
    && absorb(0x9d68, 0x38) == 0x3c9d
    && absorb(0x3c9d, 0x39) == 0xbb3d
  }

  lemma LastRoundsOfAbsorb(absorb: (bv16, byte) -> bv16)
    requires Agrees(absorb)
    ensures LastRounds(absorb)
  {
    Absorbed(absorb, 0xa455, 0x36, 0xa463, 0x29e4);
    Absorbed(absorb, 0x29e4, 0x37, 0x29d3, 0x9d68);
    Absorbed(absorb, 0x9d68, 0x38, 0x9d50, 0x3c9d);
    Absorbed(absorb, 0x3c9d, 0x39, 0x3ca4, 0xbb3d);
  }

  ghost predicate Rounds(absorb: (bv16, byte) -> bv16) {
    FirstRounds(absorb) && LastRounds(absorb)
  }

  lemma RegistersFollow(absorb: (bv16, byte) -> bv16, k: nat)
    requires k < 9 && Rounds(absorb)
    ensures absorb(Registers()[k], '1' as int + k) == Registers()[k + 1]
  {
  }

  /** The ASCII digits 1 to 9 have the published check value. */
  lemma CheckValue(data: seq<byte>)
    requires |data| == 9 && forall k :: 0 <= k < 9 ==> data[k] == '1' as int + k
    ensures Crc16(data) == 0xbb3d
  {
    FirstRoundsOfAbsorb(Absorb);
    LastRoundsOfAbsorb(Absorb);
    forall k | 0 <= k < 9
      ensures Absorb(Registers()[k], data[k]) == Registers()[k + 1]
    {
      RegistersFollow(Absorb, k);
    }
    FeedChain(Absorb, data, Registers());
  }
}
