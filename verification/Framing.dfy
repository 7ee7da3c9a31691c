/** The byte stream between podule and server: each packet is wrapped as channel, size low
    byte, size high byte, payload. The decoder here is the specification that both
    reassemblers, which see the stream cut at arbitrary points, have to meet. */
module Framing {
  import opened Bits

  datatype Packet = Packet(cid: Byte, payload: seq<Byte>)

  const HEADER: nat := 3

  /** A payload whose length fits the two size bytes. */
  predicate Sized(p: Packet) { |p.payload| < 0x1_0000 }

  predicate AllSized(ps: seq<Packet>) { forall i :: 0 <= i < |ps| ==> Sized(ps[i]) }

  predicate NoneEmpty(ps: seq<Packet>) { forall i :: 0 <= i < |ps| ==> |ps[i].payload| >= 1 }

  function Header(cid: Byte, len: nat): (h: seq<Byte>)
    ensures |h| == HEADER
  {
    [cid, len % 0x100, (len / 0x100) % 0x100]
  }

  function Frame(p: Packet): seq<Byte> { Header(p.cid, |p.payload|) + p.payload }

  function Frames(ps: seq<Packet>): seq<Byte> {
    if |ps| == 0 then [] else Frame(ps[0]) + Frames(ps[1..])
  }

  /** The total length of the frame whose header starts s. */
  function FrameLen(s: seq<Byte>): (n: nat)
    requires |s| >= HEADER
    ensures n >= HEADER
  {
    HEADER + s[1] as int + 0x100 * s[2] as int
  }

  /** A whole frame at the front of s. A reassembler looks at the header once it holds `need`
      bytes: 3 in the podule, 4 in the server. */
  predicate Complete(s: seq<Byte>, need: nat)
    requires need >= HEADER
  {
    |s| >= need && |s| >= FrameLen(s)
  }

  function FirstPacket(s: seq<Byte>): Packet
    requires Complete(s, HEADER)
  {
    Packet(s[0], s[HEADER..FrameLen(s)])
  }

  datatype Decoded = Decoded(packets: seq<Packet>, rest: seq<Byte>)

  function Decode(s: seq<Byte>, need: nat): Decoded
    requires need >= HEADER
    decreases |s|
  {
    if !Complete(s, need) then Decoded([], s)
    else
      var d := Decode(s[FrameLen(s)..], need);
      Decoded([FirstPacket(s)] + d.packets, d.rest)
  }

  // ---- Concatenation of frames

  lemma {:induction false} FramesAppend(ps: seq<Packet>, qs: seq<Packet>)
    ensures Frames(ps + qs) == Frames(ps) + Frames(qs)
  {
    if |ps| == 0 {
      assert ps + qs == qs;
      assert [] + Frames(qs) == Frames(qs);
    } else {
      FramesAppend(ps[1..], qs);
      assert (ps + qs)[1..] == ps[1..] + qs && (ps + qs)[0] == ps[0];
      ConcatAssoc(Frame(ps[0]), Frames(ps[1..]), Frames(qs));
    }
  }

  lemma ConcatAssoc<T>(a: seq<T>, b: seq<T>, c: seq<T>)
    ensures (a + b) + c == a + (b + c)
  {}

  lemma FramesSnoc(ps: seq<Packet>, p: Packet)
    ensures Frames(ps + [p]) == Frames(ps) + Frame(p)
  {
    FramesAppend(ps, [p]);
    assert [p][1..] == [];
  }

  /** The frames of a prefix are a prefix of the frames. */
  lemma FramesPrefix(ps: seq<Packet>, qs: seq<Packet>)
    requires ps <= qs
    ensures Frames(ps) <= Frames(qs)
  {
    assert qs == ps + qs[|ps|..];
    FramesAppend(ps, qs[|ps|..]);
  }

  lemma FrameHeader(p: Packet, t: seq<Byte>)
    requires Sized(p)
    ensures |Frame(p)| == HEADER + |p.payload|
    ensures FrameLen(Frame(p) + t) == |Frame(p)|
    ensures Complete(Frame(p) + t, HEADER) && FirstPacket(Frame(p) + t) == p
    ensures (Frame(p) + t)[|Frame(p)|..] == t
  {
    var s := Frame(p) + t;
    assert s[1] == |p.payload| % 0x100 && s[2] == |p.payload| / 0x100;
    assert s[HEADER..FrameLen(s)] == p.payload;
  }

  // ---- Laws of the decoder

  lemma SplitAt<T>(s: seq<T>, n: nat)
    requires n <= |s|
    ensures s[..n] + s[n..] == s
  {}

  lemma FrameOfFirst(s: seq<Byte>)
    requires Complete(s, HEADER)
    ensures Frame(FirstPacket(s)) == s[..FrameLen(s)] && Sized(FirstPacket(s))
  {
    assert s[..HEADER] + s[HEADER..FrameLen(s)] == s[..FrameLen(s)];
    assert s[..HEADER] == [s[0], s[1], s[2]];
  }

  /** Nothing is lost or invented: the packets and the residue re-encode to the input. */
  lemma {:induction false} DecodeConserves(s: seq<Byte>, need: nat)
    requires need >= HEADER
    ensures var d := Decode(s, need);
      Frames(d.packets) + d.rest == s && AllSized(d.packets) && !Complete(d.rest, need)
    decreases |s|
  {
    if Complete(s, need) {
      var n := FrameLen(s);
      DecodeConserves(s[n..], need);
      FrameOfFirst(s);
      var d := Decode(s[n..], need);
      var ps := [FirstPacket(s)] + d.packets;
      assert ps[1..] == d.packets;
      ConcatAssoc(s[..n], Frames(d.packets), d.rest);
      SplitAt(s, n);
    }
  }

  lemma CompleteExtends(a: seq<Byte>, b: seq<Byte>)
    requires Complete(a, HEADER)
    ensures Complete(a + b, HEADER) && FrameLen(a + b) == FrameLen(a)
    ensures FirstPacket(a + b) == FirstPacket(a) && (a + b)[FrameLen(a)..] == a[FrameLen(a)..] + b
  {}

  /** Decoding may stop at any cut and carry the residue over. */
  lemma {:induction false} DecodeAppend(a: seq<Byte>, b: seq<Byte>, need: nat)
    requires need >= HEADER
    ensures var d := Decode(a, need);
      var e := Decode(d.rest + b, need);
      Decode(a + b, need) == Decoded(d.packets + e.packets, e.rest)
    decreases |a|
  {
    if Complete(a, need) {
      var n := FrameLen(a);
      CompleteExtends(a, b);
      DecodeAppend(a[n..], b, need);
      var d := Decode(a[n..], need);
      ConcatAssoc([FirstPacket(a)], d.packets, Decode(d.rest + b, need).packets);
    } else {
      assert [] + Decode(a + b, need).packets == Decode(a + b, need).packets;
    }
  }

  /** One whole frame in front. */
  lemma DecodeFirst(p: Packet, u: seq<Byte>, need: nat)
    requires HEADER <= need <= HEADER + 1 && Sized(p) && (need > HEADER ==> |p.payload| >= 1)
    ensures var d := Decode(u, need);
      Decode(Frame(p) + u, need) == Decoded([p] + d.packets, d.rest)
  {
    FrameHeader(p, u);
    hide Frame, FrameLen, FirstPacket;
  }

  /** A stream that starts with whole frames decodes to their packets first. */
  lemma {:induction false} DecodeFrames(ps: seq<Packet>, t: seq<Byte>, need: nat)
    requires HEADER <= need <= HEADER + 1 && AllSized(ps) && (need > HEADER ==> NoneEmpty(ps))
    ensures var d := Decode(t, need);
      Decode(Frames(ps) + t, need) == Decoded(ps + d.packets, d.rest)
    decreases |ps|
  {
    hide Frame, Sized, Decode;
    var d := Decode(t, need);
    if |ps| == 0 {
      assert Frames(ps) + t == t && ps + d.packets == d.packets;
    } else {
      var rest := ps[1..];
      ConcatAssoc(Frame(ps[0]), Frames(rest), t);
      DecodeFirst(ps[0], Frames(rest) + t, need);
      DecodeFrames(rest, t, need);
      ConcatAssoc([ps[0]], rest, d.packets);
      assert [ps[0]] + rest == ps;
    }
  }

  /** Round trip. */
  lemma DecodeOfFrames(ps: seq<Packet>, need: nat)
    requires HEADER <= need <= HEADER + 1 && AllSized(ps) && (need > HEADER ==> NoneEmpty(ps))
    ensures Decode(Frames(ps), need) == Decoded(ps, [])
  {
    DecodeFrames(ps, [], need);
    assert Frames(ps) + [] == Frames(ps);
  }

  /** Whatever part of a stream of frames has arrived, the packets decoded from it are the
      first of those sent. */
  lemma DecodePrefix(s: seq<Byte>, ps: seq<Packet>, need: nat)
    requires HEADER <= need <= HEADER + 1 && AllSized(ps) && (need > HEADER ==> NoneEmpty(ps))
    requires s <= Frames(ps)
    ensures Decode(s, need).packets <= ps
  {
    var t := Frames(ps)[|s|..];
    assert s + t == Frames(ps);
    DecodeAppend(s, t, need);
    DecodeOfFrames(ps, need);
  }

  /** Two streams of frames, one a prefix of the other, come from packet lists that are. */
  lemma FramesInjective(ps: seq<Packet>, rest: seq<Byte>, qs: seq<Packet>)
    requires AllSized(ps) && AllSized(qs)
    requires Frames(ps) + rest <= Frames(qs)
    ensures ps <= qs
  {
    DecodePrefix(Frames(ps) + rest, qs, HEADER);
    DecodeFrames(ps, rest, HEADER);
  }

  lemma FramesOfPrefixOnly(ps: seq<Packet>, qs: seq<Packet>)
    requires AllSized(ps) && AllSized(qs)
    ensures Frames(ps) <= Frames(qs) <==> ps <= qs
  {
    if Frames(ps) <= Frames(qs) {
      assert Frames(ps) + [] == Frames(ps);
      FramesInjective(ps, [], qs);
    }
    if ps <= qs { FramesPrefix(ps, qs); }
  }

  /** A whole frame at the front of what remains of a stream of frames is the next one. */
  lemma NextFrame(held: seq<Byte>, t: seq<Byte>, gs: seq<Packet>)
    requires AllSized(gs) && held + t == Frames(gs) && Complete(held, HEADER)
    ensures |gs| > 0 && FirstPacket(held) == gs[0]
    ensures held[FrameLen(held)..] + t == Frames(gs[1..])
  {
    assert |held + t| >= HEADER;
    var u := Frames(gs[1..]);
    FrameHeader(gs[0], u);
    CompleteExtends(held, t);
  }

  /** A header at the front of what remains belongs to the next frame. */
  lemma NextHeader(held: seq<Byte>, t: seq<Byte>, gs: seq<Packet>)
    requires AllSized(gs) && held + t == Frames(gs) && |held| >= HEADER
    ensures |gs| > 0 && FrameLen(held) == |Frame(gs[0])|
  {
    assert |held + t| >= HEADER;
    FrameHeader(gs[0], Frames(gs[1..]));
    assert held[1] == (held + t)[1] && held[2] == (held + t)[2];
  }

  /** The residue of what has arrived is the beginning of the frames not yet decoded. */
  lemma DecodeRest(s: seq<Byte>, ps: seq<Packet>, need: nat) returns (t: seq<Byte>)
    requires HEADER <= need <= HEADER + 1 && AllSized(ps) && (need > HEADER ==> NoneEmpty(ps))
    requires s <= Frames(ps)
    ensures var d := Decode(s, need);
      d.packets <= ps && d.rest + t == Frames(ps[|d.packets|..]) && !Complete(d.rest, need)
    ensures t == Frames(ps)[|s|..]
  {
    DecodePrefix(s, ps, need);
    DecodeConserves(s, need);
    hide Decode, Frames;
    var d := Decode(s, need);
    t := Frames(ps)[|s|..];
    var gs := ps[|d.packets|..];
    assert ps == d.packets + gs;
    FramesAppend(d.packets, gs);
    CancelPrefix(Frames(d.packets), d.rest, t, Frames(gs), s, Frames(ps));
  }

  lemma CancelPrefix<T>(a: seq<T>, b: seq<T>, t: seq<T>, c: seq<T>, s: seq<T>, whole: seq<T>)
    requires a + b == s <= whole && t == whole[|s|..] && whole == a + c
    ensures b + t == c
  {
    assert whole == s + t;
    assert whole[|a|..] == c;
  }
}
