/** SLIP framing between the serial port and the network device. */
module Slip {

  type Byte = n: nat | n < 256

  const END: Byte := 0xC0
  const ESC: Byte := 0xDB
  const ESC_END: Byte := 0xDC
  const ESC_ESC: Byte := 0xDD
  const STEP: nat := 1500

  type Packet = seq<Byte>

  // ----- encoder -----

  function EncodeByte(b: Byte): seq<Byte> {
    if b == END then [ESC, ESC_END] else if b == ESC then [ESC, ESC_ESC] else [b]
  }

  function Escaped(p: Packet): seq<Byte> {
    if p == [] then [] else Escaped(p[..|p| - 1]) + EncodeByte(p[|p| - 1])
  }

  function Encoded(p: Packet): seq<Byte> {
    Escaped(p) + [END]
  }

  function EncodedAll(ps: seq<Packet>): seq<Byte> {
    if ps == [] then [] else EncodedAll(ps[..|ps| - 1]) + Encoded(ps[|ps| - 1])
  }

  // ----- decoder -----

  /** The bytes collected for the current packet, and the packets sent so far. */
  datatype Decoder = Decoder(buf: Packet, sent: seq<Packet>)

  function Received(d: Decoder, b: Byte): Decoder {
    var n := |d.buf|;
    if b == END then (if n > 0 then Decoder([], d.sent + [d.buf]) else d)
    else if n > 0 && d.buf[n - 1] == ESC && b == ESC_END then d.(buf := d.buf[n - 1 := END])
    else if n > 0 && d.buf[n - 1] == ESC && b == ESC_ESC then d
    else d.(buf := d.buf + [b])
  }

  function Decoded(d: Decoder, s: seq<Byte>): Decoder
    decreases |s|
  {
    if s == [] then d else Received(Decoded(d, s[..|s| - 1]), s[|s| - 1])
  }

  // ----- the device, with its buffer that grows and shrinks -----

  class Device {
    var sndbuf: array<Byte>
    var sndsiz: nat
    var sent: seq<Packet>

    /** The buffer is a whole number of steps, with room for the next byte except at a step boundary. */
    ghost predicate Valid()
      reads this, sndbuf
    {
      && sndbuf.Length == (if sndsiz == 0 then 1 else (sndsiz + STEP - 1) / STEP) * STEP
      && sndsiz <= sndbuf.Length
    }

    function State(): Decoder
      reads this, sndbuf
      requires sndsiz <= sndbuf.Length
    {
      Decoder(sndbuf[..sndsiz], sent)
    }

    constructor ()
      ensures Valid() && fresh(sndbuf) && State() == Decoder([], [])
    {
      sndbuf := new Byte[STEP](_ => 0);
      sndsiz, sent := 0, [];
    }

    method Realloc(size: nat)
      modifies this`sndbuf
      ensures fresh(sndbuf) && sndbuf.Length == size
      ensures forall i :: 0 <= i < size && i < old(sndbuf.Length) ==> sndbuf[i] == old(sndbuf[i])
    {
      var before := sndbuf;
      var after := new Byte[size](i => 0);
      var i := 0;
      while i < size && i < before.Length
        invariant 0 <= i <= size && i <= before.Length
        invariant forall k :: 0 <= k < i ==> after[k] == before[k]
      {
        after[i] := before[i];
        i := i + 1;
      }
      sndbuf := after;
    }

    /** `send_packet`: a grown buffer goes back to one step. */
    method SendPacket()
      requires Valid() && sndsiz > 0
      modifies this
      ensures Valid() && (sndbuf == old(sndbuf) || fresh(sndbuf))
      ensures State() == Decoder([], old(sent) + [old(sndbuf[..sndsiz])])
    {
      sent := sent + [sndbuf[..sndsiz]];
      if sndsiz > STEP {
        Realloc(STEP);
      }
      sndsiz := 0;
    }

    /** The end of `write_data`: a full buffer grows by one step before the byte is stored. */
    method Append(data: Byte)
      requires Valid()
      modifies this, sndbuf
      ensures Valid() && (sndbuf == old(sndbuf) || fresh(sndbuf))
      ensures State() == Decoder(old(sndbuf[..sndsiz]) + [data], old(sent))
    {
      if sndsiz != 0 && sndsiz % STEP == 0 {
        Realloc(sndsiz + STEP);
        assert sndbuf[..sndsiz] == old(sndbuf[..sndsiz]);
      }
      sndbuf[sndsiz] := data;
      sndsiz := sndsiz + 1;
      assert sndbuf[..sndsiz] == old(sndbuf[..sndsiz]) + [data];
    }

    /** `write_data`; every index used is inside the buffer. */
    method WriteData(data: Byte)
      requires Valid()
      modifies this, sndbuf
      ensures Valid() && (sndbuf == old(sndbuf) || fresh(sndbuf))
      ensures State() == Received(old(State()), data)
    {
      if data == END {
        if sndsiz > 0 {
          SendPacket();
        }
        return;
      }
      if sndsiz > 0 && sndbuf[sndsiz - 1] == ESC {
        if data == ESC_END {
          sndbuf[sndsiz - 1] := END;
          return;
        }
        if data == ESC_ESC {
          sndbuf[sndsiz - 1] := ESC;
          assert sndbuf[..sndsiz] == old(sndbuf[..sndsiz]);
          return;
        }
      }
      Append(data);
    }

    /** `handle_input`: the bytes pushed into the receive FIFO for one packet. */
    method HandleInput(rcvbuf: array<Byte>, count: nat) returns (pushed: seq<Byte>)
      requires count <= rcvbuf.Length
      ensures pushed == Encoded(rcvbuf[..count])
    {
      pushed := [];
      var i := 0;
      while i < count
        invariant 0 <= i <= count
        invariant pushed == Escaped(rcvbuf[..i])
      {
        if rcvbuf[i] == END {
          pushed := pushed + [ESC];
          pushed := pushed + [ESC_END];
        } else if rcvbuf[i] == ESC {
          pushed := pushed + [ESC];
          pushed := pushed + [ESC_ESC];
        } else {
          pushed := pushed + [rcvbuf[i]];
        }
        assert rcvbuf[..i + 1][..i] == rcvbuf[..i];
        i := i + 1;
      }
      pushed := pushed + [END];
    }
  }

  // ----- the bytes on the line -----

  /** 0300 goes out as 0333 0334 and 0333 as 0333 0335. */
  lemma {:induction false} WireBytes(p: Packet, b: Byte)
    ensures Encoded([]) == [0xC0]
    ensures Escaped(p + [b]) ==
            Escaped(p) + if b == 0xC0 then [0xDB, 0xDC] else if b == 0xDB then [0xDB, 0xDD] else [b]
    ensures Encoded(p) == Escaped(p) + [0xC0]
  {
    assert (p + [b])[..|p|] == p;
  }

  /** On the line 0300 only ends packets, and 0333 is always followed by one of the two codes. */
  lemma {:induction false} LineIsFramed(p: Packet)
    ensures forall i :: 0 <= i < |Escaped(p)| ==> Escaped(p)[i] != 0xC0
    ensures forall i :: 0 <= i < |Escaped(p)| && Escaped(p)[i] == 0xDB ==>
                          i + 1 < |Escaped(p)| && Escaped(p)[i + 1] in {0xDC, 0xDD}
    decreases |p|
  {
    if p != [] {
      LineIsFramed(p[..|p| - 1]);
    }
  }

  lemma ThreeBytes(a: Byte, b: Byte, c: Byte)
    ensures Encoded([a, b, c]) == EncodeByte(a) + EncodeByte(b) + EncodeByte(c) + [END]
  {
    assert [a, b, c][..2] == [a, b] && [a, b][..1] == [a] && [a][..0] == [];
    assert Escaped([a]) == Escaped([]) + EncodeByte(a) == EncodeByte(a);
    assert Escaped([a, b]) == Escaped([a]) + EncodeByte(b);
    assert Escaped([a, b, c]) == Escaped([a, b]) + EncodeByte(c);
  }

  /** A packet with both special bytes, in the numbers of the line. */
  lemma SpecialBytes()
    ensures Encoded([0x45, 0xC0, 0xDB]) == [0x45, 0xDB, 0xDC, 0xDB, 0xDD, 0xC0]
  {
    ThreeBytes(0x45, 0xC0, 0xDB);
    assert [0x45] + [0xDB, 0xDC] + [0xDB, 0xDD] + [0xC0] == [0x45, 0xDB, 0xDC, 0xDB, 0xDD, 0xC0];
  }

  // ----- the round trip -----

  /** An escape byte of the packet directly followed by one of the two escape codes. */
  predicate Ambiguous(p: Packet) {
    exists i :: 0 <= i < |p| - 1 && p[i] == ESC && p[i + 1] in {ESC_END, ESC_ESC}
  }

  lemma {:induction false} DecodedConcat(d: Decoder, s: seq<Byte>, t: seq<Byte>)
    ensures Decoded(d, s + t) == Decoded(Decoded(d, s), t)
    decreases |t|
  {
    if t == [] {
      assert s + t == s;
    } else {
      var n := |t| - 1;
      assert (s + t)[..|s + t| - 1] == s + t[..n];
      DecodedConcat(d, s, t[..n]);
    }
  }

  /** What the encoding of one byte does to the decoder. */
  lemma ByteDecodes(d: Decoder, b: Byte)
    ensures var r := Decoded(d, EncodeByte(b));
            && r.sent == d.sent
            && (if d.buf != [] && d.buf[|d.buf| - 1] == ESC && b in {ESC_END, ESC_ESC}
                then |r.buf| == |d.buf| else r.buf == d.buf + [b])
  {
    var e := EncodeByte(b);
    if |e| == 1 {
      assert e[..0] == [];
      assert Decoded(d, e) == Received(Decoded(d, []), b);
    } else {
      assert e[..1] == [ESC] && [ESC][..0] == [];
      assert Decoded(d, [ESC]) == Received(Decoded(d, []), ESC);
      assert Decoded(d, e) == Received(Decoded(d, [ESC]), e[1]);
    }
  }

  lemma AmbiguousGrows(q: Packet, b: Byte)
    ensures Ambiguous(q + [b]) <==> Ambiguous(q) || (q != [] && q[|q| - 1] == ESC && b in {ESC_END, ESC_ESC})
  {
    var p := q + [b];
    if Ambiguous(q) {
      var i :| 0 <= i < |q| - 1 && q[i] == ESC && q[i + 1] in {ESC_END, ESC_ESC};
      assert p[i] == ESC && p[i + 1] == q[i + 1];
    }
    if q != [] && q[|q| - 1] == ESC && b in {ESC_END, ESC_ESC} {
      assert p[|q| - 1] == ESC && p[|q| - 1 + 1] == b;
    }
  }

  /** The decoder has collected `q`, or lost bytes of it if it is ambiguous. */
  predicate Collected(d: Decoder, q: Packet) {
    (q != [] ==> d.buf != []) && (if Ambiguous(q) then |d.buf| < |q| else d.buf == q)
  }

  lemma CollectsByte(d: Decoder, q: Packet, b: Byte)
    requires Collected(d, q)
    ensures Collected(Decoded(d, EncodeByte(b)), q + [b]) && Decoded(d, EncodeByte(b)).sent == d.sent
  {
    ByteDecodes(d, b);
    AmbiguousGrows(q, b);
  }

  lemma {:induction false} EscapedDecodes(p: Packet, sent: seq<Packet>)
    ensures Collected(Decoded(Decoder([], sent), Escaped(p)), p) && Decoded(Decoder([], sent), Escaped(p)).sent == sent
    decreases |p|
  {
    if p != [] {
      var q, b := p[..|p| - 1], p[|p| - 1];
      assert p == q + [b];
      EscapedDecodes(q, sent);
      DecodedConcat(Decoder([], sent), Escaped(q), EncodeByte(b));
      CollectsByte(Decoded(Decoder([], sent), Escaped(q)), q, b);
    }
  }

  /** A non-empty packet is sent as one packet, equal to the original exactly if it is unambiguous. */
  lemma PacketDecodes(p: Packet, sent: seq<Packet>)
    requires p != []
    ensures var r := Decoded(Decoder([], sent), Encoded(p));
            r.buf == [] && |r.sent| == |sent| + 1 && r.sent[..|sent|] == sent && (r.sent[|sent|] == p <==> !Ambiguous(p))
  {
    EscapedDecodes(p, sent);
    DecodedConcat(Decoder([], sent), Escaped(p), [END]);
    var d := Decoded(Decoder([], sent), Escaped(p));
    assert [END][..0] == [];
    assert Decoded(d, [END]) == Received(Decoded(d, []), END);
  }

  /** All packets so far are sent, each one unchanged exactly if it is unambiguous. */
  predicate SentAll(d: Decoder, ps: seq<Packet>) {
    d.buf == [] && |d.sent| == |ps| && forall k :: 0 <= k < |ps| ==> (d.sent[k] == ps[k] <==> !Ambiguous(ps[k]))
  }

  lemma SendsPacket(d: Decoder, ps: seq<Packet>, p: Packet)
    requires SentAll(d, ps) && p != []
    ensures SentAll(Decoded(d, Encoded(p)), ps + [p])
  {
    PacketDecodes(p, d.sent);
    var r := Decoded(d, Encoded(p));
    forall k | 0 <= k < |ps + [p]|
      ensures r.sent[k] == (ps + [p])[k] <==> !Ambiguous((ps + [p])[k])
    {
      if k < |ps| {
        assert r.sent[k] == r.sent[..|ps|][k];
      }
    }
  }

  lemma EncodedGrows(ps: seq<Packet>, p: Packet)
    ensures EncodedAll(ps + [p]) == EncodedAll(ps) + Encoded(p)
  {
    assert (ps + [p])[..|ps|] == ps;
  }

  lemma StreamGrows(d: Decoder, ps: seq<Packet>, p: Packet)
    requires p != [] && SentAll(Decoded(d, EncodedAll(ps)), ps)
    ensures SentAll(Decoded(d, EncodedAll(ps + [p])), ps + [p])
  {
    EncodedGrows(ps, p);
    DecodedConcat(d, EncodedAll(ps), Encoded(p));
    SendsPacket(Decoded(d, EncodedAll(ps)), ps, p);
  }

  lemma {:induction false} StreamDecodes(ps: seq<Packet>)
    requires forall k :: 0 <= k < |ps| ==> ps[k] != []
    ensures SentAll(Decoded(Decoder([], []), EncodedAll(ps)), ps)
    decreases |ps|
  {
    if ps != [] {
      var n := |ps| - 1;
      StreamDecodes(ps[..n]);
      StreamGrows(Decoder([], []), ps[..n], ps[n]);
      assert ps[..n] + [ps[n]] == ps;
    }
  }

  /** The stream round trip holds exactly if no packet is ambiguous. */
  lemma {:induction false} RoundTrip(ps: seq<Packet>)
    requires forall k :: 0 <= k < |ps| ==> ps[k] != []
    ensures Decoded(Decoder([], []), EncodedAll(ps)) == Decoder([], ps) <==> forall p :: p in ps ==> !Ambiguous(p)
  {
    StreamDecodes(ps);
    var r := Decoded(Decoder([], []), EncodedAll(ps));
    if forall p :: p in ps ==> !Ambiguous(p) {
      assert forall k :: 0 <= k < |ps| ==> ps[k] in ps;
      assert r.sent == ps;
    }
    if r == Decoder([], ps) {
      forall p | p in ps
        ensures !Ambiguous(p)
      {
        var k :| 0 <= k < |ps| && ps[k] == p;
        assert r.sent[k] == ps[k];
      }
    }
  }

  /** An escape byte followed by an escape code comes back as a single byte. */
  lemma AmbiguousExample()
    ensures Decoded(Decoder([], []), Encoded([ESC, ESC_END])) == Decoder([], [[END]])
  {
    var s := [ESC, ESC_ESC, ESC_END, END];
    assert Escaped([ESC]) == [ESC, ESC_ESC] by {
      assert [ESC][..0] == [];
    }
    assert [ESC, ESC_END][..1] == [ESC];
    assert Encoded([ESC, ESC_END]) == s;
    assert s[..3] == [ESC, ESC_ESC, ESC_END] && s[..3][..2] == [ESC, ESC_ESC] && s[..3][..2][..1] == [ESC] && [ESC][..0] == [];
    var d := Decoder([], []);
    assert Decoded(d, [ESC]) == Decoder([ESC], []);
    assert Decoded(d, [ESC, ESC_ESC]) == Decoder([ESC], []);
    assert Decoded(d, [ESC, ESC_ESC, ESC_END]) == Decoder([END], []);
  }
}
