/** Cutting the byte stream of a device into its messages. */
module Framing {
  import opened Bytes

  datatype Token = Hello(bytes: seq<byte>) | Ping | Packet(bytes: seq<byte>)

  /** What the head of the buffer allows: nothing yet, one message, or closing the connection. */
  datatype Cut = Wait | Take(token: Token) | Reject

  const PING: byte := 0xff

  /** The bytes of a message on the wire. */
  function Wire(t: Token): seq<byte> {
    match t
    case Hello(bytes) => bytes
    case Ping => [PING]
    case Packet(bytes) => bytes
  }

  function Wires(ts: seq<Token>): seq<byte> {
    if ts == [] then [] else Wire(ts[0]) + Wires(ts[1..])
  }

  /** The head of `buf`: a handshake until the connection is ready, pings and packets from then on. */
  function Next(ready: bool, buf: seq<byte>): Cut {
    if !ready then
      if |buf| < 2 then Wait
      else
        var total := 2 + BE(buf[..2]);
        if |buf| < total then Wait else Take(Hello(buf[..total]))
    else if |buf| > 0 && buf[0] == PING then Take(Ping)
    else if |buf| < 8 then Wait
    else if BE(buf[..4]) != 0 then Reject
    else
      var total := 8 + BE(buf[4..8]) + 4;
      if |buf| < total then Wait else Take(Packet(buf[..total]))
  }

  lemma NextSound(ready: bool, buf: seq<byte>)
    ensures match Next(ready, buf)
            case Take(t) => Wire(t) <= buf && Wire(t) != [] && t.Hello? == !ready
            case _ => true
  {
  }

  /** Bytes that arrive later do not change a cut that was possible without them. */
  lemma NextStable(ready: bool, buf: seq<byte>, more: seq<byte>)
    requires !Next(ready, buf).Wait?
    ensures Next(ready, buf + more) == Next(ready, buf)
  {
    if |buf| >= 2 {
      assert (buf + more)[..2] == buf[..2];
    }
    if |buf| >= 8 {
      assert (buf + more)[..4] == buf[..4] && (buf + more)[4..8] == buf[4..8];
    }
    if !ready {
      var total := 2 + BE(buf[..2]);
      assert (buf + more)[..total] == buf[..total];
    } else if buf[0] != PING && BE(buf[..4]) == 0 {
      var total := 8 + BE(buf[4..8]) + 4;
      assert (buf + more)[..total] == buf[..total];
    }
  }

  /**
   * The cuts in numbers. A handshake is two bytes of length and as many bytes as they say. Then 0xff is a ping, and
   * a packet is four zero bytes, four bytes of length, as many bytes as they say, and four more. Eight bytes that
   * begin in any other way are refused, and less is waited for.
   */
  lemma CutsInBytes(ready: bool, buf: seq<byte>, bytes: seq<byte>)
    ensures Next(ready, buf) == Take(Hello(bytes))
       <==> !ready && |buf| >= 2 && bytes <= buf && |bytes| == 2 + 0x100 * buf[0] as int + buf[1] as int
    ensures Next(ready, buf) == Take(Ping) <==> ready && |buf| >= 1 && buf[0] == 0xff
    ensures Next(ready, buf) == Take(Packet(bytes))
       <==> && ready && |buf| >= 8 && buf[0] == buf[1] == buf[2] == buf[3] == 0 && bytes <= buf
            && |bytes| == 12 + 0x100_0000 * buf[4] as int + 0x1_0000 * buf[5] as int + 0x100 * buf[6] as int + buf[7] as int
    ensures Next(ready, buf).Reject?
       <==> ready && |buf| >= 8 && buf[0] != 0xff && (buf[0] != 0 || buf[1] != 0 || buf[2] != 0 || buf[3] != 0)
  {
    assert bytes <= buf ==> bytes == buf[..|bytes|];
    if |buf| >= 2 {
      BigEndian(buf[0], buf[1], 0, 0);
      assert buf[..2] == [buf[0], buf[1]];
    }
    if |buf| >= 8 {
      BigEndian(buf[0], buf[1], buf[2], buf[3]);
      BigEndian(buf[4], buf[5], buf[6], buf[7]);
      assert buf[..4] == [buf[0], buf[1], buf[2], buf[3]] && buf[4..8] == [buf[4], buf[5], buf[6], buf[7]];
    }
  }

  lemma HeadSlices(s: seq<byte>, buf: seq<byte>, i: nat, j: nat)
    requires s <= buf && i <= j <= |s|
    ensures s[i..j] == buf[i..j]
  {
  }

  /** A message is cut as itself. */
  lemma NextOfToken(ready: bool, buf: seq<byte>)
    requires Next(ready, buf).Take?
    ensures Next(ready, Wire(Next(ready, buf).token)) == Next(ready, buf)
  {
    NextSound(ready, buf);
    var s := Wire(Next(ready, buf).token);
    if !ready {
      HeadSlices(s, buf, 0, 2);
    } else if buf[0] != PING {
      HeadSlices(s, buf, 0, 4);
      HeadSlices(s, buf, 4, 8);
    }
  }

  // ----- The messages of a stream, on their own -----

  /** All the messages that can be cut from `buf`, in order. */
  function Tokens(ready: bool, buf: seq<byte>): seq<Token>
    decreases |buf|
  {
    NextSound(ready, buf);
    match Next(ready, buf)
    case Take(t) => [t] + Tokens(true, buf[|Wire(t)|..])
    case _ => []
  }

  /** Each of `ts` is what its own bytes are cut into, where it stands. */
  ghost predicate Legal(ready: bool, ts: seq<Token>)
    decreases |ts|
  {
    ts == [] || (Next(ready, Wire(ts[0])) == Take(ts[0]) && Legal(true, ts[1..]))
  }

  lemma WiresConcat(a: seq<Token>, b: seq<Token>)
    ensures Wires(a + b) == Wires(a) + Wires(b)
  {
    if a == [] {
      assert a + b == b;
    } else {
      assert (a + b)[1..] == a[1..] + b;
    }
  }

  lemma {:induction false} LegalSnoc(ready: bool, ts: seq<Token>, t: Token)
    requires Legal(ready, ts)
    ensures Legal(ready, ts + [t]) <==> Next(ready || ts != [], Wire(t)) == Take(t)
    decreases |ts|
  {
    if ts != [] {
      assert (ts + [t])[1..] == ts[1..] + [t];
      LegalSnoc(true, ts[1..], t);
    } else {
      assert (ts + [t])[1..] == [];
    }
  }

  lemma TokensStep(ready: bool, t: Token, tail: seq<byte>)
    requires Next(ready, Wire(t)) == Take(t)
    ensures Tokens(ready, Wire(t) + tail) == [t] + Tokens(true, tail)
  {
    NextStable(ready, Wire(t), tail);
    NextSound(ready, Wire(t) + tail);
    assert (Wire(t) + tail)[|Wire(t)|..] == tail;
  }

  /** Legal messages are the ones the stream starts with: there is only one way to cut it. */
  lemma {:induction false} LegalIsCanonical(ready: bool, ts: seq<Token>, rest: seq<byte>)
    requires Legal(ready, ts)
    ensures Tokens(ready, Wires(ts) + rest) == ts + Tokens(ready || ts != [], rest)
    decreases |ts|
  {
    if ts == [] {
      assert Wires(ts) + rest == rest;
    } else {
      WiresCons(ts, rest);
      TokensStep(ready, ts[0], Wires(ts[1..]) + rest);
      LegalIsCanonical(true, ts[1..], rest);
      Reassociate(ts, Tokens(true, rest));
    }
  }

  lemma WiresCons(ts: seq<Token>, rest: seq<byte>)
    requires ts != []
    ensures Wires(ts) + rest == Wire(ts[0]) + (Wires(ts[1..]) + rest)
  {
  }

  lemma Reassociate<T>(ts: seq<T>, more: seq<T>)
    requires ts != []
    ensures ts + more == [ts[0]] + (ts[1..] + more)
  {
  }
}
