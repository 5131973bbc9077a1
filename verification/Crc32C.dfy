/** CRC-32C (Castagnoli), checked on the certificate signatures: reversed polynomial 0x82F63B78. */
module Crc32C {
  import opened Bytes
  import opened ShiftRegister

  // ----- One bit -----

  /** One bit through the reflected register: the polynomial goes in when the bit shifted out is 1. */
  function Shift(c: bv32): bv32 {
    (c >> 1) ^ ((0 - (c & 1)) & 0x82f63b78)
  }

  function Xor(a: bv32, b: bv32): bv32 {
    a ^ b
  }

  /** A byte in the low end of the register. */
  function Lift(b: byte): bv32 {
    b as bv32
  }

  /** One byte: exclusive or into the low end, then eight bits through the register. */
  function Absorb(c: bv32, b: byte): bv32 {
    Iterate(Shift, Xor(c, b as bv32), 8)
  }

  /** CRC-32C: initial value and final exclusive or of all ones. */
  function Crc32c(data: seq<byte>): bv32 {
    Xor(Feed(Absorb, 0xffff_ffff, data), 0xffff_ffff)
  }

  // ----- The table -----

  /** The entry for `i` is what eight shifts make of `i`. */
  ghost predicate IsTable(table: array<bv32>)
    reads table
  {
    table.Length == 256 && Tabulates(table[..], Shift, Lift)
  }

  /** The loop over the bits of one byte. */
  method ShiftByte(c: bv32) returns (crc: bv32)
    ensures crc == Iterate(Shift, c, 8)
  {
    crc := c;
    for j := 0 to 8
      invariant crc == Iterate(Shift, c, j)
    {
      if crc & 1 == 1 {
        crc := (crc >> 1) ^ 0x82f63b78;
      } else {
        crc := crc >> 1;
      }
    }
  }

  /** The table filled when the module loads. */
  method BuildTable() returns (table: array<bv32>)
    ensures fresh(table) && IsTable(table)
  {
    table := new bv32[256];
    for i := 0 to 256
      invariant Tabulates(table[..i], Shift, Lift)
    {
      var crc := ShiftByte(Lift(i));
      TabulatesNext(table[..i], Shift, Lift, crc);
      table[i] := crc;
      assert table[..i + 1] == table[..i] + [crc];
    }
    assert table[..256] == table[..];
  }

  /** The production CRC: one lookup for each byte. */
  method TableCrc(table: array<bv32>, data: seq<byte>) returns (r: bv32)
    requires IsTable(table)
    ensures r == Crc32c(data)
  {
    var crc: bv32 := 0xffff_ffff;
    for i := 0 to |data|
      invariant crc == Feed(Absorb, 0xffff_ffff, data[..i])
    {
      assert data[..i + 1][..i] == data[..i];
      crc := LookUp(table, crc, data[i]);
    }
    assert data[..|data|] == data;
    r := crc ^ 0xffff_ffff;
  }

  /** The body of the table loop. */
  method LookUp(table: array<bv32>, crc: bv32, b: byte) returns (next: bv32)
    requires IsTable(table)
    ensures next == Absorb(crc, b)
  {
    var x := Xor(crc, b as bv32);
    Index(x);
    TableStep(x);
    ByteBits(b);
    AbsorbsIntoLowByte(crc, b as bv32);
    var value := table[(x & 0xff) as int];
    next := Xor(value, crc >> 8);
  }

  // ----- A shift can be undone -----

  lemma ShiftInjective(a: bv32, b: bv32)
    requires Shift(a) == Shift(b)
    ensures a == b
  {
  }

  lemma ShiftsInjective(a: bv32, b: bv32, n: nat)
    requires Iterate(Shift, a, n) == Iterate(Shift, b, n)
    ensures a == b
  {
    forall x, y | Shift(x) == Shift(y) ensures x == y {
      ShiftInjective(x, y);
    }
    IterateInjective(Shift, a, b, n);
  }

  lemma XorInjective(a: bv32, b: bv32, c: bv32)
    requires Xor(a, c) == Xor(b, c) || Xor(c, a) == Xor(c, b)
    ensures a == b
  {
  }

  // ----- A shift is linear; the proof splits on the two bits shifted out -----

  lemma ShiftLinear00(a: bv32, b: bv32)
    requires a & 1 == 0 && b & 1 == 0
    ensures Shift(Xor(a, b)) == Xor(Shift(a), Shift(b))
  {
  }

  lemma ShiftLinear01(a: bv32, b: bv32)
    requires a & 1 == 0 && b & 1 == 1
    ensures Shift(Xor(a, b)) == Xor(Shift(a), Shift(b))
  {
  }

  lemma ShiftLinear10(a: bv32, b: bv32)
    requires a & 1 == 1 && b & 1 == 0
    ensures Shift(Xor(a, b)) == Xor(Shift(a), Shift(b))
  {
  }

  lemma ShiftLinear11(a: bv32, b: bv32)
    requires a & 1 == 1 && b & 1 == 1
    ensures Shift(Xor(a, b)) == Xor(Shift(a), Shift(b))
  {
  }

  lemma LowBit(c: bv32)
    ensures c & 1 == 0 || c & 1 == 1
  {
  }

  lemma ShiftLinear(a: bv32, b: bv32)
    ensures Shift(Xor(a, b)) == Xor(Shift(a), Shift(b))
  {
    LowBit(a);
    LowBit(b);
    if a & 1 == 0 {
      if b & 1 == 0 {
        ShiftLinear00(a, b);
      } else {
        ShiftLinear01(a, b);
      }
    } else {
      if b & 1 == 0 {
        ShiftLinear10(a, b);
      } else {
        ShiftLinear11(a, b);
      }
    }
  }

  lemma ShiftsLinear(a: bv32, b: bv32, n: nat)
    ensures Iterate(Shift, Xor(a, b), n) == Xor(Iterate(Shift, a, n), Iterate(Shift, b, n))
  {
    forall x, y ensures Shift(Xor(x, y)) == Xor(Shift(x), Shift(y)) {
      ShiftLinear(x, y);
    }
    IterateSum(Shift, Xor, a, b, n);
  }

  // ----- Bits above the low byte only move down -----

  lemma ShiftEven(z: bv32, y: bv32)
    requires z & 1 == 0 && y == z >> 1
    ensures Shift(z) == y
  {
  }

  lemma ShiftOnceAbove(z: bv32)
    requires z & 1 == 0
    ensures Iterate(Shift, z, 1) == z >> 1
  {
    ShiftEven(z, z >> 1);
    IterateChain(Shift, [z, z >> 1], 1);
  }

  lemma SplitBits(z: bv32)
    ensures z & 3 == 0 ==> z & 1 == 0 && (z >> 1) & 1 == 0
    ensures z & 0xf == 0 ==> z & 3 == 0 && (z >> 2) & 3 == 0
    ensures z & 0xff == 0 ==> z & 0xf == 0 && (z >> 4) & 0xf == 0
    ensures (z >> 1) >> 1 == z >> 2 && (z >> 2) >> 2 == z >> 4 && (z >> 4) >> 4 == z >> 8
  {
  }

  lemma ShiftTwiceAbove(z: bv32)
    requires z & 3 == 0
    ensures Iterate(Shift, z, 2) == z >> 2
  {
    SplitBits(z);
    ShiftOnceAbove(z);
    ShiftOnceAbove(z >> 1);
    IteratePlus(Shift, z, 1, 1);
  }

  lemma ShiftNibbleAbove(z: bv32)
    requires z & 0xf == 0
    ensures Iterate(Shift, z, 4) == z >> 4
  {
    SplitBits(z);
    ShiftTwiceAbove(z);
    ShiftTwiceAbove(z >> 2);
    IteratePlus(Shift, z, 2, 2);
  }

  lemma ShiftsAbove(z: bv32)
    requires z & 0xff == 0
    ensures Iterate(Shift, z, 8) == z >> 8
  {
    SplitBits(z);
    ShiftNibbleAbove(z);
    ShiftNibbleAbove(z >> 4);
    IteratePlus(Shift, z, 4, 4);
  }

  lemma Halves(c: bv32)
    ensures Xor(c & 0xff, (c >> 8) << 8) == c
    ensures ((c >> 8) << 8) & 0xff == 0 && ((c >> 8) << 8) >> 8 == c >> 8
  {
  }

  /** Eight shifts at once: the high bytes move down and the low byte is looked up. */
  lemma TableStep(c: bv32)
    ensures Iterate(Shift, c, 8) == Xor(Iterate(Shift, c & 0xff, 8), c >> 8)
  {
    Halves(c);
    ShiftsLinear(c & 0xff, (c >> 8) << 8, 8);
    ShiftsAbove((c >> 8) << 8);
  }

  // Counting up from 0 reaches every byte value.

  lemma BitsToInt(c: bv32)
    ensures (c as int) as bv32 == c
  {
  }

  lemma NextBits(b: bv32)
    requires b < 0xff
    ensures (b + 1) as int == b as int + 1 && b + 1 <= 0xff
  {
  }

  lemma BelowTop(b: bv32, n: nat)
    requires n < 255 && b as int == n && b <= 0xff
    ensures b < 0xff
  {
  }

  lemma BitsOf(n: nat) returns (b: bv32)
    requires n < 256
    ensures b as int == n && b <= 0xff
  {
    if n == 0 {
      b := 0;
    } else {
      b := BitsOf(n - 1);
      BelowTop(b, n - 1);
      NextBits(b);
      b := b + 1;
    }
  }

  lemma ByteBits(n: nat)
    requires n < 256
    ensures (n as bv32) as int == n && n as bv32 <= 0xff
  {
    var b := BitsOf(n);
    BitsToInt(b);
  }

  lemma AbsorbsIntoLowByte(crc: bv32, b: bv32)
    requires b <= 0xff
    ensures Xor(crc, b) >> 8 == crc >> 8
  {
  }

  lemma IndexInRange(c: bv32)
    ensures (c & 0xff) as int < 256
  {
  }

  lemma Index(c: bv32)
    ensures (c & 0xff) as int < 256 && ((c & 0xff) as int) as bv32 == c & 0xff
  {
    IndexInRange(c);
    BitsToInt(c & 0xff);
  }

  // ----- What the checksum detects -----

  lemma AbsorbInjective(x: bv32, y: bv32, b: byte)
    requires Absorb(x, b) == Absorb(y, b)
    ensures x == y
  {
    ShiftsInjective(Xor(x, b as bv32), Xor(y, b as bv32), 8);
    XorInjective(x, y, b as bv32);
  }

  function Up(r: bv32): bv32 {
    r << 8
  }

  predicate HasRoom(r: bv32) {
    (r << 8) >> 8 == r
  }

  function Shift8(c: bv32): bv32 {
    Iterate(Shift, c, 8)
  }

  /** The register as a machine that takes in up to 4 bytes at once. */
  ghost function TheMachine(): Machine<bv32> {
    Machine(0, Xor, Lift, Up, HasRoom, Shift8)
  }

  lemma XorZero(a: bv32)
    ensures Xor(a, 0) == a
  {
  }

  lemma XorAssociative(a: bv32, b: bv32, c: bv32)
    ensures Xor(Xor(a, b), c) == Xor(a, Xor(b, c))
  {
    assert Xor(Xor(a, b), c) == (a ^ b) ^ c;
    assert Xor(a, Xor(b, c)) == a ^ (b ^ c);
  }

  /** Taking in `r` after eight shifts is taking in `r << 8` before them. */
  lemma XorBeforeShifts(y: bv32, r: bv32)
    requires (r << 8) >> 8 == r
    ensures Xor(Iterate(Shift, y, 8), r) == Iterate(Shift, Xor(y, r << 8), 8)
  {
    LowByteFree(r);
    ShiftsLinear(y, r << 8, 8);
    ShiftsAbove(r << 8);
  }

  lemma LowByteFree(r: bv32)
    ensures (r << 8) & 0xff == 0
  {
  }

  lemma UnpackPair(a: bv32, r: bv32, b: bv32, s: bv32)
    requires a <= 0xff && b <= 0xff && (r << 8) >> 8 == r && (s << 8) >> 8 == s
    requires Xor(a, r << 8) == Xor(b, s << 8)
    ensures a == b && r == s
  {
  }

  lemma SameBits(m: byte, n: byte)
    requires m as bv32 == n as bv32
    ensures m == n
  {
    ByteBits(m);
    ByteBits(n);
  }

  lemma XorIsAGroup()
    ensures forall x :: Xor(x, 0) == x
    ensures forall x, y, z {:trigger Xor(Xor(x, y), z)} :: Xor(Xor(x, y), z) == Xor(x, Xor(y, z))
    ensures forall c, x, y :: Xor(c, x) == Xor(c, y) ==> x == y
  {
    forall x ensures Xor(x, 0) == x {
      XorZero(x);
    }
    forall x, y, z ensures Xor(Xor(x, y), z) == Xor(x, Xor(y, z)) {
      XorAssociative(x, y, z);
    }
    forall c, x, y | Xor(c, x) == Xor(c, y) ensures x == y {
      XorInjective(x, y, c);
    }
  }

  lemma Shift8Injective()
    ensures forall x, y :: Shift8(x) == Shift8(y) ==> x == y
  {
    forall x, y | Shift8(x) == Shift8(y) ensures x == y {
      ShiftsInjective(x, y, 8);
    }
  }

  lemma Shift8Mixes()
    ensures forall y, r {:trigger Xor(Shift8(y), r)} :: HasRoom(r) ==> Xor(Shift8(y), r) == Shift8(Xor(y, Up(r)))
  {
    forall y, r | HasRoom(r) ensures Xor(Shift8(y), r) == Shift8(Xor(y, Up(r))) {
      XorBeforeShifts(y, r);
    }
  }

  /** Fewer than four bytes leave the top byte of the register free. */
  lemma {:induction false} PackHasRoom(p: seq<byte>)
    requires |p| <= 3
    ensures TheMachine().room(TheMachine().Pack(p))
    ensures |p| <= 1 ==> TheMachine().Pack(p) <= 0xff
    ensures |p| <= 2 ==> TheMachine().Pack(p) <= 0xffff
  {
    if p != [] {
      PackHasRoom(p[1..]);
      ByteBits(p[0]);
      Room(p[0] as bv32, TheMachine().Pack(p[1..]), |p| == 1, |p| <= 2);
    }
  }

  lemma Room(b: bv32, r: bv32, none: bool, one: bool)
    requires b <= 0xff && r <= 0xffff && (none ==> r == 0) && (one ==> r <= 0xff)
    ensures (Xor(b, r << 8) << 8) >> 8 == Xor(b, r << 8)
    ensures none ==> Xor(b, r << 8) <= 0xff
    ensures one ==> Xor(b, r << 8) <= 0xffff
  {
  }

  lemma {:induction false} FeedTheMachine(c: bv32, data: seq<byte>)
    ensures Feed(TheMachine().Absorb, c, data) == Feed(Absorb, c, data)
  {
    if data != [] {
      FeedTheMachine(c, data[..|data| - 1]);
    }
  }

  lemma DistinguishesWords()
    ensures Distinguishes(TheMachine().Absorb, 4)
  {
    var m := TheMachine();
    XorIsAGroup();
    Shift8Injective();
    Shift8Mixes();
    MixesIntro(m);
    forall a: byte, r, b: byte, s | HasRoom(r) && HasRoom(s) && Xor(Lift(a), Up(r)) == Xor(Lift(b), Up(s))
      ensures a == b && r == s
    {
      ByteBits(a);
      ByteBits(b);
      UnpackPair(a as bv32, r, b as bv32, s);
      SameBits(a, b);
    }
    forall p | |p| < 4
      ensures m.room(m.Pack(p))
    {
      PackHasRoom(p);
    }
    MachineDistinguishes(m, 4);
  }

  /** Corruption confined to four neighbouring bytes never passes a CRC-32C. */
  lemma Crc32CDetectsBursts(a: seq<byte>, b: seq<byte>, k: nat)
    requires SameOutside(a, b, k, 4) && a != b
    ensures Crc32c(a) != Crc32c(b)
  {
    if Crc32c(a) == Crc32c(b) {
      XorInjective(Feed(Absorb, 0xffff_ffff, a), Feed(Absorb, 0xffff_ffff, b), 0xffff_ffff);
      DistinguishesWords();
      forall s, t, x | TheMachine().Absorb(s, x) == TheMachine().Absorb(t, x) ensures s == t {
        AbsorbInjective(s, t, x);
      }
      FeedTheMachine(0xffff_ffff, a);
      FeedTheMachine(0xffff_ffff, b);
      BurstDetected(TheMachine().Absorb, 0xffff_ffff, a, b, k, 4);
    }
  }

  // ----- The check value -----

  lemma EightShifts(c: bv32)
    ensures Iterate(Shift, c, 8) == Shift(Shift(Shift(Shift(Shift(Shift(Shift(Shift(c))))))))
  {
    assert Iterate(Shift, c, 4) == Shift(Iterate(Shift, c, 3)) == Shift(Shift(Iterate(Shift, c, 2)));
    assert Iterate(Shift, c, 2) == Shift(Iterate(Shift, c, 1)) == Shift(Shift(c));
    assert Iterate(Shift, c, 8) == Shift(Iterate(Shift, c, 7)) == Shift(Shift(Iterate(Shift, c, 6)));
    assert Iterate(Shift, c, 6) == Shift(Iterate(Shift, c, 5)) == Shift(Shift(Iterate(Shift, c, 4)));
  }

  /** `absorb` is `Absorb`, by another name. */
  ghost predicate Agrees(absorb: (bv32, byte) -> bv32) {
    forall c, b {:trigger Absorb(c, b)} :: absorb(c, b) == Absorb(c, b)
  }

  lemma Absorbed(absorb: (bv32, byte) -> bv32, c: bv32, b: byte, x: bv32, d: bv32)
    requires Agrees(absorb) && Xor(c, b as bv32) == x
    requires Shift(Shift(Shift(Shift(Shift(Shift(Shift(Shift(x)))))))) == d
    ensures absorb(c, b) == d
  {
    EightShifts(x);
    assert absorb(c, b) == Absorb(c, b);
  }

  /** The registers after each of the ASCII digits 1 to 9. */
  function Registers(): seq<bv32> {
    [0xffffffff, 0x6f0a661c, 0x8caa3b9f, 0xef84d04d, 0x09c50b11, 0xe72edcca, 0xbeca8e79, 0xedbd6815, 0x9f787f65, 0x1cf96d7c]
  }

  ghost predicate FirstRounds(absorb: (bv32, byte) -> bv32) {
    && absorb(0xffffffff, 0x31) == 0x6f0a661c
    && absorb(0x6f0a661c, 0x32) == 0x8caa3b9f
    && absorb(0x8caa3b9f, 0x33) == 0xef84d04d
    && absorb(0xef84d04d, 0x34) == 0x09c50b11
    && absorb(0x09c50b11, 0x35) == 0xe72edcca
  }

  lemma FirstRoundsOfAbsorb(absorb: (bv32, byte) -> bv32)
    requires Agrees(absorb)
    ensures FirstRounds(absorb)
  {
    Absorbed(absorb, 0xffffffff, 0x31, 0xffffffce, 0x6f0a661c);
    Absorbed(absorb, 0x6f0a661c, 0x32, 0x6f0a662e, 0x8caa3b9f);
    Absorbed(absorb, 0x8caa3b9f, 0x33, 0x8caa3bac, 0xef84d04d);
    Absorbed(absorb, 0xef84d04d, 0x34, 0xef84d079, 0x09c50b11);
    Absorbed(absorb, 0x09c50b11, 0x35, 0x09c50b24, 0xe72edcca);
  }

  ghost predicate LastRounds(absorb: (bv32, byte) -> bv32) {
    && absorb(0xe72edcca, 0x36) == 0xbeca8e79
    && absorb(0xbeca8e79, 0x37) == 0xedbd6815
    && absorb(0xedbd6815, 0x38) == 0x9f787f65
    && absorb(0x9f787f65, 0x39) == 0x1cf96d7c
  }

  lemma LastRoundsOfAbsorb(absorb: (bv32, byte) -> bv32)
    requires Agrees(absorb)
    ensures LastRounds(absorb)
  {
    Absorbed(absorb, 0xe72edcca, 0x36, 0xe72edcfc, 0xbeca8e79);
    Absorbed(absorb, 0xbeca8e79, 0x37, 0xbeca8e4e, 0xedbd6815);
    Absorbed(absorb, 0xedbd6815, 0x38, 0xedbd682d, 0x9f787f65);
    Absorbed(absorb, 0x9f787f65, 0x39, 0x9f787f5c, 0x1cf96d7c);
  }

  ghost predicate Rounds(absorb: (bv32, byte) -> bv32) {
    FirstRounds(absorb) && LastRounds(absorb)
  }

  lemma RegistersFollow(absorb: (bv32, byte) -> bv32, k: nat)
    requires k < 9 && Rounds(absorb)
    ensures absorb(Registers()[k], '1' as int + k) == Registers()[k + 1]
  {
  }

  /** The ASCII digits 1 to 9 have the published check value. */
  lemma CheckValue(data: seq<byte>)
    requires |data| == 9 && forall k :: 0 <= k < 9 ==> data[k] == '1' as int + k
    ensures Crc32c(data) == 0xe3069283
  {
    FirstRoundsOfAbsorb(Absorb);
    LastRoundsOfAbsorb(Absorb);
    forall k | 0 <= k < 9
      ensures Absorb(Registers()[k], data[k]) == Registers()[k + 1]
    {
      RegistersFollow(Absorb, k);
    }
    FeedChain(Absorb, data, Registers());
  }
}
