/** The first message of a connection, and the two acknowledgements the gateway sends. */
module Handshake {
  import opened Options
  import opened Bytes
  import opened AvlParse
  import opened AvlExact
  import opened AvlReader

  /** Node decodes 'ascii' by dropping the high bit of each byte. */
  function Ascii(s: seq<byte>): (r: seq<byte>)
    ensures |r| == |s|
  {
    seq(|s|, i requires 0 <= i < |s| => s[i] % 128)
  }

  predicate Digits(s: seq<byte>) {
    forall i :: 0 <= i < |s| ==> '0' as int <= s[i] <= '9' as int
  }

  /** An IMEI as its ASCII codes. */
  predicate ValidImei(imei: seq<byte>) {
    8 <= |imei| <= 20 && Digits(imei)
  }

  function ParseHandshake(buf: seq<byte>): Parsed<seq<byte>>
  {
    match AvlParse.ReadUInt(buf, 0, 2)
    case Fail(error) => Fail(error)
    case Done(length, p) =>
    if length < 8 || length > 20 then Fail(ImeiLengthOutOfRange(length))
    else
      match AvlParse.ReadBytes(buf, p, length)
      case Fail(error) => Fail(error)
      case Done(s, next) => if Digits(Ascii(s)) then Done(Ascii(s), next) else Fail(ImeiNotNumeric)
  }

  function EncodeHandshake(imei: seq<byte>): seq<byte> {
    ToBE(|imei|, 2) + imei
  }

  function EncodeImeiAck(accept: bool): seq<byte> {
    [if accept then 1 else 0]
  }

  /** Four bytes, or the RangeError the source throws. */
  function EncodeAvlAck(recordCount: int): (r: Option<seq<byte>>)
  {
    if recordCount < 0 || recordCount > 0xffff_ffff then None else Some(ToBE(recordCount, 4))
  }

  /** The device reads back what the gateway acknowledged, and counts that do not fit are refused. */
  lemma AckRoundTrip(recordCount: int)
    ensures EncodeImeiAck(true) == [0x01] && EncodeImeiAck(false) == [0x00]
    ensures match EncodeAvlAck(recordCount)
            case Some(s) => |s| == 4 && BE(s) == recordCount
            case None => !Fits(recordCount, 4)
  {
    Pow256Values();
    if Fits(recordCount, 4) {
      BEToBE(recordCount, 4);
    }
  }

  method ParseImeiHandshake(buf: seq<byte>) returns (imei: Result<seq<byte>>)
    ensures imei == match ParseHandshake(buf) case Done(s, _) => Ok(s) case Fail(error) => Err(error)
  {
    var r := new BufferReader(buf);
    var length :- r.ReadUInt(2);
    if length < 8 || length > 20 {
      return Err(ImeiLengthOutOfRange(length));
    }
    var s :- r.ReadBytes(length);
    if !Digits(Ascii(s)) {
      return Err(ImeiNotNumeric);
    }
    imei := Ok(Ascii(s));
  }

  /** `raw` is what a handshake carries, and `imei` what the gateway makes of it. */
  ghost predicate Carries(buf: seq<byte>, raw: seq<byte>, imei: seq<byte>, next: nat) {
    imei == Ascii(raw) && Spans(buf, 0, EncodeHandshake(raw), next)
  }

  lemma HandshakeSound(buf: seq<byte>, imei: seq<byte>, next: nat) returns (raw: seq<byte>)
    requires ParseHandshake(buf) == Done(imei, next)
    ensures ValidImei(imei) && Carries(buf, raw, imei, next)
  {
    var length := AvlParse.ReadUInt(buf, 0, 2).value;
    raw := buf[2..2 + length];
    UIntExact(buf, 0, 2, length, 2);
    BytesExact(buf, 2, raw, next);
    SpansConcat(buf, 0, ToBE(|raw|, 2), raw, next);
  }

  lemma HandshakeComplete(buf: seq<byte>, raw: seq<byte>, imei: seq<byte>, next: nat)
    requires ValidImei(imei) && Carries(buf, raw, imei, next)
    ensures ParseHandshake(buf) == Done(imei, next)
  {
    Pow256Values();
    SpansConcat(buf, 0, ToBE(|raw|, 2), raw, next);
    UIntExact(buf, 0, 2, |raw|, 2);
    BytesExact(buf, 2, raw, next);
  }

  /** The handshakes accepted: 8 to 20 bytes that are digits once their high bits are dropped. */
  lemma ParsesExactlyTheHandshakes(buf: seq<byte>, imei: seq<byte>, next: nat)
    ensures ParseHandshake(buf) == Done(imei, next) <==> ValidImei(imei) && exists raw :: Carries(buf, raw, imei, next)
  {
    if ParseHandshake(buf) == Done(imei, next) {
      var raw := HandshakeSound(buf, imei, next);
    } else if exists raw :: Carries(buf, raw, imei, next) {
      var raw :| Carries(buf, raw, imei, next);
      if ValidImei(imei) {
        HandshakeComplete(buf, raw, imei, next);
      }
    }
  }

  /** A byte without its high bit. */
  function Low7(b: byte): int {
    if b < 0x80 then b else b - 0x80
  }

  /**
   * The same in numbers, and what is refused for: two bytes of length between 8 and 20, and as many decimal digits.
   */
  lemma HandshakesInBytes(buf: seq<byte>, imei: seq<byte>, next: nat)
    ensures |buf| < 2 ==> ParseHandshake(buf) == Fail(Underrun(2, |buf|, 0))
    ensures |buf| >= 2 ==>
              var n := 0x100 * buf[0] as int + buf[1] as int;
              if n < 8 || n > 20 then ParseHandshake(buf) == Fail(ImeiLengthOutOfRange(n))
              else if |buf| < 2 + n then ParseHandshake(buf) == Fail(Underrun(n, |buf| - 2, 2))
              else if exists i :: 2 <= i < 2 + n && !(48 <= Low7(buf[i]) <= 57) then ParseHandshake(buf) == Fail(ImeiNotNumeric)
              else ParseHandshake(buf) == Done(imei, next)
                   <==> next == 2 + n && |imei| == n && forall i :: 2 <= i < 2 + n ==> imei[i - 2] == Low7(buf[i])
  {
    if |buf| >= 2 {
      BigEndian(buf[0], buf[1], 0, 0);
      assert buf[0..2] == [buf[0], buf[1]];
      var n := 0x100 * buf[0] as int + buf[1] as int;
      if 8 <= n <= 20 && |buf| >= 2 + n {
        var text := Ascii(buf[2..2 + n]);
        forall i | 2 <= i < 2 + n
          ensures text[i - 2] == Low7(buf[i])
        {
          assert text[i - 2] == buf[i] % 128;
        }
        if !Digits(text) {
          var k :| 0 <= k < n && !(48 <= text[k] <= 57);
          assert text[k] == Low7(buf[k + 2]);
        }
        if imei != text && |imei| == n {
          var i :| 0 <= i < n && imei[i] != text[i];
          assert text[i] == Low7(buf[i + 2]);
        }
      }
    }
  }

  lemma AsciiOfDigits(imei: seq<byte>)
    requires Digits(imei)
    ensures Ascii(imei) == imei
  {
  }

  /** What a device sends is read as its IMEI, whatever follows. */
  lemma HandshakeRoundTrip(imei: seq<byte>, rest: seq<byte>)
    requires ValidImei(imei)
    ensures ParseHandshake(EncodeHandshake(imei) + rest) == Done(imei, 2 + |imei|)
  {
    AsciiOfDigits(imei);
    SpansPrefix(EncodeHandshake(imei), rest);
    HandshakeComplete(EncodeHandshake(imei) + rest, imei, imei, 2 + |imei|);
  }

  lemma SpansPrefix(s: seq<byte>, rest: seq<byte>)
    ensures Spans(s + rest, 0, s, |s|)
  {
  }

  /** Setting the high bit of every digit does not change the IMEI read: the reading is not injective. */
  lemma HighBitsIgnored(imei: seq<byte>)
    requires ValidImei(imei)
    ensures var raw := HighBits(imei);
            raw != imei && ParseHandshake(EncodeHandshake(raw)) == ParseHandshake(EncodeHandshake(imei))
  {
    var raw := HighBits(imei);
    assert raw[0] != imei[0];
    assert Ascii(raw) == imei;
    SpansPrefix(EncodeHandshake(raw), []);
    assert EncodeHandshake(raw) + [] == EncodeHandshake(raw) && EncodeHandshake(imei) + [] == EncodeHandshake(imei);
    HandshakeComplete(EncodeHandshake(raw), raw, imei, 2 + |imei|);
    HandshakeRoundTrip(imei, []);
  }

  function HighBits(imei: seq<byte>): (r: seq<byte>)
    requires Digits(imei)
    ensures |r| == |imei|
  {
    seq(|imei|, i requires 0 <= i < |imei| => imei[i] + 128)
  }
}
