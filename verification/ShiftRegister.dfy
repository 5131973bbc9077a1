/**
 * The two checksums of the repository: CRC-16/IBM, which guards every AVL packet, and CRC-32C, which guards
 * the certificate signatures (section B.4 of RFC 3720). Both are table-driven loops over a shift register.
 * The specification is the register fed one bit at a time.
 */

/** What follows from the shape of a shift register alone, for registers of any width. */
module ShiftRegister {
  import opened Bytes

  function Iterate<T>(f: T -> T, c: T, n: nat): T
    decreases n, [c]
  {
    if n == 0 then c else f(Iterate(f, c, n - 1))
  }

  /** The register after `data`, from `c`, when `absorb` takes in one byte. */
  function Feed<T>(absorb: (T, byte) -> T, c: T, data: seq<byte>): T {
    if data == [] then c else absorb(Feed(absorb, c, data[..|data| - 1]), data[|data| - 1])
  }

  /** Entry `i` of `table` is what eight steps of `f` make of `start(i)`. */
  ghost predicate Tabulates<T>(table: seq<T>, f: T -> T, start: byte -> T) {
    |table| <= 256 && forall i :: 0 <= i < |table| ==> table[i] == Iterate(f, start(i), 8)
  }

  lemma TabulatesNext<T>(table: seq<T>, f: T -> T, start: byte -> T, value: T)
    requires Tabulates(table, f, start) && |table| < 256
    requires value == Iterate(f, start(|table|), 8)
    ensures Tabulates(table + [value], f, start)
  {
  }

  lemma {:induction false} IterateSum<T(!new)>(f: T -> T, op: (T, T) -> T, a: T, b: T, n: nat)
    requires forall x, y {:trigger f(op(x, y))} :: f(op(x, y)) == op(f(x), f(y))
    ensures Iterate(f, op(a, b), n) == op(Iterate(f, a, n), Iterate(f, b, n))
  {
    if n > 0 {
      IterateSum(f, op, a, b, n - 1);
    }
  }

  lemma {:induction false} IterateInjective<T(!new)>(f: T -> T, a: T, b: T, n: nat)
    requires forall x, y :: f(x) == f(y) ==> x == y
    requires Iterate(f, a, n) == Iterate(f, b, n)
    ensures a == b
  {
    if n > 0 {
      IterateInjective(f, a, b, n - 1);
    }
  }

  lemma {:induction false} IterateChain<T>(f: T -> T, zs: seq<T>, n: nat)
    requires n < |zs| && forall k :: 0 <= k < n ==> f(zs[k]) == zs[k + 1]
    ensures Iterate(f, zs[0], n) == zs[n]
  {
    if n > 0 {
      IterateChain(f, zs, n - 1);
    }
  }

  lemma {:induction false} IteratePlus<T>(f: T -> T, c: T, m: nat, n: nat)
    ensures Iterate(f, Iterate(f, c, m), n) == Iterate(f, c, m + n)
  {
    if n > 0 {
      IteratePlus(f, c, m, n - 1);
    }
  }

  /** `regs` are the registers before, between and after the bytes. */
  lemma {:induction false} FeedChain<T>(absorb: (T, byte) -> T, data: seq<byte>, regs: seq<T>)
    requires |regs| == |data| + 1 && forall k :: 0 <= k < |data| ==> absorb(regs[k], data[k]) == regs[k + 1]
    ensures Feed(absorb, regs[0], data) == regs[|data|]
  {
    if data != [] {
      FeedChain(absorb, data[..|data| - 1], regs[..|data|]);
    }
  }

  lemma {:induction false} FeedConcat<T>(absorb: (T, byte) -> T, c: T, p: seq<byte>, q: seq<byte>)
    ensures Feed(absorb, c, p + q) == Feed(absorb, Feed(absorb, c, p), q)
  {
    if q == [] {
      assert p + q == p;
    } else {
      FeedConcat(absorb, c, p, q[..|q| - 1]);
      assert (p + q)[..|p + q| - 1] == p + q[..|q| - 1];
    }
  }

  /** Registers that differ never meet again while they take in the same bytes. */
  lemma {:induction false} FeedInjective<T(!new)>(absorb: (T, byte) -> T, x: T, y: T, data: seq<byte>)
    requires forall s, t, b :: absorb(s, b) == absorb(t, b) ==> s == t
    requires Feed(absorb, x, data) == Feed(absorb, y, data)
    ensures x == y
  {
    if data != [] {
      FeedInjective(absorb, x, y, data[..|data| - 1]);
    }
  }

  /** `a` and `b` agree outside the `w` bytes from `k` on. */
  ghost predicate SameOutside(a: seq<byte>, b: seq<byte>, k: nat, w: nat) {
    && |a| == |b|
    && forall i :: 0 <= i < |a| && !(k <= i < k + w) ==> a[i] == b[i]
  }

  /** The register distinguishes any two strings of the same length, of at most `w` bytes. */
  ghost predicate Distinguishes<T(!new)>(absorb: (T, byte) -> T, w: nat) {
    forall c, p, q :: |p| == |q| <= w && Feed(absorb, c, p) == Feed(absorb, c, q) ==> p == q
  }

  lemma FeedInThree<T>(absorb: (T, byte) -> T, c: T, a: seq<byte>, k: nat, e: nat)
    requires k <= e <= |a|
    ensures Feed(absorb, c, a) == Feed(absorb, Feed(absorb, Feed(absorb, c, a[..k]), a[k..e]), a[e..])
  {
    assert a == a[..k] + a[k..e] + a[e..];
    Associate(a[..k], a[k..e], a[e..]);
    FeedThree(absorb, c, a[..k], a[k..e], a[e..]);
  }

  lemma Associate(p: seq<byte>, q: seq<byte>, r: seq<byte>)
    ensures p + q + r == p + (q + r)
  {
  }

  lemma FeedThree<T>(absorb: (T, byte) -> T, c: T, p: seq<byte>, q: seq<byte>, r: seq<byte>)
    ensures Feed(absorb, c, p + (q + r)) == Feed(absorb, Feed(absorb, Feed(absorb, c, p), q), r)
  {
    FeedConcat(absorb, c, p, q + r);
    FeedConcat(absorb, Feed(absorb, c, p), q, r);
  }

  lemma SameSlices(a: seq<byte>, b: seq<byte>, k: nat, w: nat) returns (e: nat)
    requires SameOutside(a, b, k, w) && k <= |a|
    ensures k <= e <= |a| && e - k <= w && a[..k] == b[..k] && a[e..] == b[e..]
  {
    e := if k + w < |a| then k + w else |a|;
  }

  /** An error confined to `w` consecutive bytes always changes the register. */
  lemma BurstDetected<T(!new)>(absorb: (T, byte) -> T, c: T, a: seq<byte>, b: seq<byte>, k: nat, w: nat)
    requires forall s, t, b :: absorb(s, b) == absorb(t, b) ==> s == t
    requires Distinguishes(absorb, w)
    requires SameOutside(a, b, k, w)
    requires Feed(absorb, c, a) == Feed(absorb, c, b)
    ensures a == b
  {
    if k < |a| {
      var e := SameSlices(a, b, k, w);
      FeedInThree(absorb, c, a, k, e);
      FeedInThree(absorb, c, b, k, e);
      var x := Feed(absorb, c, a[..k]);
      FeedInjective(absorb, Feed(absorb, x, a[k..e]), Feed(absorb, x, b[k..e]), a[e..]);
      SlicesMakeWhole(a, b, k, e);
    }
  }

  lemma SlicesMakeWhole(a: seq<byte>, b: seq<byte>, k: nat, e: nat)
    requires k <= e <= |a| == |b|
    requires a[..k] == b[..k] && a[k..e] == b[k..e] && a[e..] == b[e..]
    ensures a == b
  {
    assert a == a[..k] + a[k..e] + a[e..] && b == b[..k] + b[k..e] + b[e..];
  }

  // ----- Feeding a short string at once -----

  /** A register as an algebra: `g` puts one byte through it, `op` takes a value in. */
  datatype Machine<!T> = Machine(zero: T, op: (T, T) -> T, lift: byte -> T, up: T -> T, room: T -> bool, g: T -> T)
  {
    function Absorb(c: T, b: byte): T {
      g(op(c, lift(b)))
    }

    /** A string as one value, the first byte lowest. */
    function Pack(p: seq<byte>): T {
      if p == [] then zero else op(lift(p[0]), up(Pack(p[1..])))
    }
  }

  /** `op` is associative, undoes and passes through `g`. */
  ghost predicate Mixes<T(!new)>(m: Machine<T>) {
    && (forall x :: m.op(x, m.zero) == x)
    && (forall x, y, z {:trigger m.op(m.op(x, y), z)} :: m.op(m.op(x, y), z) == m.op(x, m.op(y, z)))
    && (forall c, x, y :: m.op(c, x) == m.op(c, y) ==> x == y)
    && (forall x, y :: m.g(x) == m.g(y) ==> x == y)
    && (forall y, r {:trigger m.op(m.g(y), r)} :: m.room(r) ==> m.op(m.g(y), r) == m.g(m.op(y, m.up(r))))
  }

  /** Fewer than `w` bytes leave room for one more, and a byte below can be told from what is above it. */
  ghost predicate Packs<T(!new)>(m: Machine<T>, w: nat) {
    && (forall a, r, b, s :: m.room(r) && m.room(s) && m.op(m.lift(a), m.up(r)) == m.op(m.lift(b), m.up(s)) ==> a == b && r == s)
    && (forall p {:trigger m.room(m.Pack(p))} :: |p| < w ==> m.room(m.Pack(p)))
  }

  lemma MixesIntro<T(!new)>(m: Machine<T>)
    requires forall x :: m.op(x, m.zero) == x
    requires forall x, y, z {:trigger m.op(m.op(x, y), z)} :: m.op(m.op(x, y), z) == m.op(x, m.op(y, z))
    requires forall c, x, y :: m.op(c, x) == m.op(c, y) ==> x == y
    requires forall x, y :: m.g(x) == m.g(y) ==> x == y
    requires forall y, r {:trigger m.op(m.g(y), r)} :: m.room(r) ==> m.op(m.g(y), r) == m.g(m.op(y, m.up(r)))
    ensures Mixes(m)
  {
  }

  lemma AbsorbThenPack<T(!new)>(m: Machine<T>, c: T, b: byte, r: T)
    requires Mixes(m) && m.room(r)
    ensures m.op(m.Absorb(c, b), r) == m.g(m.op(c, m.op(m.lift(b), m.up(r))))
  {
    var y := m.op(c, m.lift(b));
    assert m.op(m.g(y), r) == m.g(m.op(y, m.up(r)));
    assert m.op(m.op(c, m.lift(b)), m.up(r)) == m.op(c, m.op(m.lift(b), m.up(r)));
  }

  /** Feeding up to `w` bytes is taking their packed value in, then running the register. */
  lemma {:induction false} FeedIsPack<T(!new)>(m: Machine<T>, w: nat, c: T, p: seq<byte>)
    requires Mixes(m) && Packs(m, w) && |p| <= w
    ensures Feed(m.Absorb, c, p) == Iterate(m.g, m.op(c, m.Pack(p)), |p|)
    decreases |p|
  {
    if p != [] {
      var rest := p[1..];
      assert p == [p[0]] + rest && m.Pack(p) == m.op(m.lift(p[0]), m.up(m.Pack(rest)));
      FeedHead(m.Absorb, c, p[0], rest);
      FeedIsPack(m, w, m.Absorb(c, p[0]), rest);
      AbsorbThenPack(m, c, p[0], m.Pack(rest));
      IterateFirst(m.g, m.op(c, m.Pack(p)), |rest|);
    }
  }

  lemma FeedHead<T>(absorb: (T, byte) -> T, c: T, b: byte, rest: seq<byte>)
    ensures Feed(absorb, c, [b] + rest) == Feed(absorb, absorb(c, b), rest)
  {
    FeedConcat(absorb, c, [b], rest);
    assert [b][..0] == [] && Feed(absorb, c, []) == c;
  }

  lemma IterateFirst<T>(f: T -> T, c: T, n: nat)
    ensures Iterate(f, f(c), n) == Iterate(f, c, n + 1)
  {
    assert Iterate(f, c, 0) == c && Iterate(f, c, 1) == f(c);
    IteratePlus(f, c, 1, n);
  }

  lemma {:induction false} PackInjective<T(!new)>(m: Machine<T>, w: nat, p: seq<byte>, q: seq<byte>)
    requires Packs(m, w) && |p| == |q| <= w && m.Pack(p) == m.Pack(q)
    ensures p == q
  {
    if p != [] {
      assert m.room(m.Pack(p[1..])) && m.room(m.Pack(q[1..]));
      PackInjective(m, w, p[1..], q[1..]);
      assert p == [p[0]] + p[1..] && q == [q[0]] + q[1..];
    }
  }

  lemma MachineDistinguishes<T(!new)>(m: Machine<T>, w: nat)
    requires Mixes(m) && Packs(m, w)
    ensures Distinguishes(m.Absorb, w)
  {
    forall c, p: seq<byte>, q: seq<byte> | |p| == |q| <= w && Feed(m.Absorb, c, p) == Feed(m.Absorb, c, q)
      ensures p == q
    {
      FeedIsPack(m, w, c, p);
      FeedIsPack(m, w, c, q);
      IterateInjective(m.g, m.op(c, m.Pack(p)), m.op(c, m.Pack(q)), |p|);
      PackInjective(m, w, p, q);
    }
  }
}
