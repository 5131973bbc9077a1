/** Bytes of a Node Buffer, and their reading as big-endian integers. */
module Bytes {

  type byte = b: int | 0 <= b < 256

  /** 256 to the power `n`: the number of values that fit in `n` bytes. */
  function Pow256(n: nat): (p: int)
    ensures p >= 1
  {
    if n == 0 then 1 else 256 * Pow256(n - 1)
  }

  /** `v` is an unsigned integer of `n` bytes. */
  predicate Fits(v: int, n: nat) {
    0 <= v < Pow256(n)
  }

  /** `v` is a signed integer of `n` bytes. */
  predicate FitsSigned(v: int, n: nat) {
    -Pow256(n) <= 2 * v < Pow256(n)
  }

  /** The unsigned big-endian reading of `s`. */
  function BE(s: seq<byte>): nat {
    if s == [] then 0 else BE(s[..|s| - 1]) * 256 + s[|s| - 1]
  }

  /** Digit `k` of `v` in base 256; a negative `v` has the digits of its two's complement. */
  function Digit(v: int, k: nat): byte
    decreases k
  {
    if k == 0 then v % 256 else Digit(v / 256, k - 1)
  }

  /** The low `n` bytes of `v`, big-endian. */
  function ToBE(v: int, n: nat): (s: seq<byte>)
    ensures |s| == n
  {
    seq(n, i requires 0 <= i < n => Digit(v, n - 1 - i))
  }

  lemma ToBEStep(v: int, n: nat)
    requires n > 0
    ensures ToBE(v, n) == ToBE(v / 256, n - 1) + [v % 256]
  {
    forall i | 0 <= i < n - 1
      ensures ToBE(v, n)[i] == ToBE(v / 256, n - 1)[i]
    {
      assert ToBE(v, n)[i] == Digit(v, n - 1 - i);
      assert ToBE(v / 256, n - 1)[i] == Digit(v / 256, n - 2 - i);
    }
    assert ToBE(v, n)[n - 1] == Digit(v, 0);
  }

  /** The signed value of an unsigned reading of `n` bytes. */
  function Signed(u: int, n: nat): int {
    if 2 * u >= Pow256(n) then u - Pow256(n) else u
  }

  lemma {:induction false} BEFits(s: seq<byte>)
    ensures Fits(BE(s), |s|)
  {
    if s != [] {
      BEFits(s[..|s| - 1]);
    }
  }

  /** Big-endian: the first byte is the highest. */
  lemma BigEndian(a: byte, b: byte, c: byte, d: byte)
    ensures BE([a]) == a && BE([a, b]) == 256 * a + b
    ensures BE([a, b, c, d]) == 0x100_0000 * a + 0x1_0000 * b + 256 * c + d
  {
    assert [a][..0] == [] && [a, b][..1] == [a] && [a, b, c][..2] == [a, b] && [a, b, c, d][..3] == [a, b, c];
    assert BE([a, b, c]) == BE([a, b]) * 256 + c && BE([a, b, c, d]) == BE([a, b, c]) * 256 + d;
  }

  lemma {:induction false} BEToBE(v: int, n: nat)
    requires Fits(v, n)
    ensures BE(ToBE(v, n)) == v
    decreases n
  {
    if n > 0 {
      ToBEStep(v, n);
      var s := ToBE(v, n);
      assert s[..n - 1] == ToBE(v / 256, n - 1);
      BEToBE(v / 256, n - 1);
    }
  }

  lemma {:induction false} ToBEBE(s: seq<byte>)
    ensures ToBE(BE(s), |s|) == s
  {
    if s != [] {
      var init, last := s[..|s| - 1], s[|s| - 1];
      ToBEBE(init);
      assert BE(s) / 256 == BE(init) && BE(s) % 256 == last;
      ToBEStep(BE(s), |s|);
      assert init + [last] == s;
    }
  }

  /** Two's complement: adding the modulus changes no byte. */
  lemma {:induction false} ToBEPeriodic(v: int, n: nat)
    ensures ToBE(v + Pow256(n), n) == ToBE(v, n)
    decreases n
  {
    if n > 0 {
      var p := Pow256(n - 1);
      assert (v + 256 * p) / 256 == v / 256 + p;
      assert (v + 256 * p) % 256 == v % 256;
      ToBEStep(v, n);
      ToBEStep(v + 256 * p, n);
      ToBEPeriodic(v / 256, n - 1);
    }
  }

  /** A signed value and its bytes determine each other. */
  lemma SignedBytes(s: seq<byte>, v: int)
    ensures v == Signed(BE(s), |s|) <==> FitsSigned(v, |s|) && s == ToBE(v, |s|)
  {
    var n := |s|;
    ToBEBE(s);
    BEFits(s);
    var w := Signed(BE(s), n);
    if w < 0 {
      ToBEPeriodic(w, n);
    }
    assert FitsSigned(w, n) && s == ToBE(w, n);
    if FitsSigned(v, n) && s == ToBE(v, n) {
      if v < 0 {
        ToBEPeriodic(v, n);
        BEToBE(v + Pow256(n), n);
      } else {
        BEToBE(v, n);
      }
    }
  }

  lemma Pow256Values()
    ensures Pow256(1) == 0x100 && Pow256(2) == 0x1_0000 && Pow256(4) == 0x1_0000_0000
    ensures Pow256(8) == 0x1_0000_0000_0000_0000
  {
    assert Pow256(4) == 256 * Pow256(3) == 256 * 256 * Pow256(2);
    assert Pow256(8) == 256 * Pow256(7) == 256 * 256 * Pow256(6) == 256 * 256 * 256 * Pow256(5);
  }

  /** `s` fills `buf` from `pos` to `next`. */
  predicate Spans(buf: seq<byte>, pos: nat, s: seq<byte>, next: nat) {
    next == pos + |s| <= |buf| && forall i :: 0 <= i < |s| ==> s[i] == buf[pos + i]
  }

  lemma SpansSlice(buf: seq<byte>, pos: nat, s: seq<byte>, next: nat)
    ensures Spans(buf, pos, s, next) <==> next == pos + |s| <= |buf| && buf[pos..next] == s
  {
    if next == pos + |s| <= |buf| {
      assert forall i :: 0 <= i < |s| ==> buf[pos..next][i] == buf[pos + i];
    }
  }

  lemma SpansConcat(buf: seq<byte>, pos: nat, a: seq<byte>, b: seq<byte>, next: nat)
    ensures Spans(buf, pos, a + b, next) <==> Spans(buf, pos, a, pos + |a|) && Spans(buf, pos + |a|, b, next)
  {
    if next == pos + |a + b| <= |buf| {
      var whole := buf[pos..next];
      SpansSlice(buf, pos, a + b, next);
      SpansSlice(buf, pos, a, pos + |a|);
      SpansSlice(buf, pos + |a|, b, next);
      assert whole[..|a|] == buf[pos..pos + |a|];
      assert whole[|a|..] == buf[pos + |a|..next];
      assert (a + b)[..|a|] == a && (a + b)[|a|..] == b;
      assert whole == whole[..|a|] + whole[|a|..];
    }
  }
}
