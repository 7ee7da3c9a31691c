/** The server's channel handlers: hostinfo (server/main.c) and raw file access
    (server/channel_rawfile.c). */
module HostChannels {
  import opened Bits
  import opened Framing
  import opened Words
  import opened Wrappers

  const CID_HOSTINFO: Byte := 1
  const CID_RAWFILE: Byte := 2
  const RAWFILE_INIT_READ: Byte := 0
  const RAWFILE_READ_BLOCK: Byte := 1
  const RAWFILE_CLOSE: Byte := 4
  const READ_BUFFER_SIZE: nat := 512

  // ---- File attributes

  /** crf_create_type: a typed file's load and exec words, from its type and 40-bit stamp. */
  function TypedLoad(ftype: nat, stamp: nat): nat {
    Or(Or(0xfff0_0000, Lsl(And(ftype, 0xfff), BYTE_BITS)), And(Lsr(stamp, WORD_BITS), 0xff))
  }

  function TypedExec(stamp: nat): nat { And(stamp, 0xffff_ffff) }

  /** `mvns r0, r6, asr #20` leaves zero. */
  predicate HasType(load: Word32) { Lsr(load, 20) == 0xfff }

  /** `r6, lsl #12` then `lsr #20`. */
  function TypeOf(load: Word32): nat { Lsr(Lsl(load, 12), 20) }

  lemma TypedLoadIs(ftype: nat, stamp: nat)
    ensures TypedLoad(ftype, stamp) == 0xfff0_0000 + 0x100 * (ftype % 0x1000) + (stamp / 0x1_0000_0000) % 0x100
    ensures TypedExec(stamp) == stamp % 0x1_0000_0000
  {
    hide Or, And, Lsr, Lsl;
    MaskedFields(ftype, stamp);
    Joined(ftype % 0x1000, (stamp / 0x1_0000_0000) % 0x100);
  }

  lemma MaskedFields(ftype: nat, stamp: nat)
    ensures Lsl(And(ftype, 0xfff), BYTE_BITS) == 0x100 * (ftype % 0x1000)
    ensures And(Lsr(stamp, WORD_BITS), 0xff) == (stamp / 0x1_0000_0000) % 0x100
    ensures And(stamp, 0xffff_ffff) == stamp % 0x1_0000_0000
  {
    hide And, Lsr, Scale;
    LowBits(ftype, 12, 0x1000);
    LowBits(stamp, 32, 0x1_0000_0000);
    LsrTable(stamp);
    LowBits(stamp / 0x1_0000_0000, 8, 0x100);
    ScaleTable(ftype % 0x1000);
  }

  lemma LowBits(x: nat, k: nat, m: nat)
    requires (k == 8 && m == 0x100) || (k == 12 && m == 0x1000) || (k == 32 && m == 0x1_0000_0000)
    ensures And(x, m - 1) == x % m
  {
    hide And, Scale, Pow2, Lsr;
    ScaleTable(1);
    LsrIsDiv(0, k);
    AndLowMask(x, k);
  }

  lemma Joined(t: nat, b: nat)
    requires t < 0x1000 && b < 0x100
    ensures Or(Or(0xfff0_0000, 0x100 * t), b) == 0xfff0_0000 + 0x100 * t + b
  {
    hide Or, Scale;
    ScaleTable(1);
    ScaleTable(0xfff);
    ScaleTable(0xff_f000 + t);
    OrDisjoint(0xfff, 20, 0x100 * t);
    OrDisjoint(0xff_f000 + t, 8, b);
  }

  /** The type and stamp the server stores are the ones the client reads back. */
  lemma TypeRoundTrip(ftype: nat, stamp: nat)
    ensures TypedLoad(ftype, stamp) < WORD_MODULUS && TypedExec(stamp) < WORD_MODULUS
    ensures HasType(TypedLoad(ftype, stamp)) && TypeOf(TypedLoad(ftype, stamp)) == ftype % 0x1000
    ensures stamp < 0x100_0000_0000 ==>
      0x1_0000_0000 * (TypedLoad(ftype, stamp) % 0x100) + TypedExec(stamp) == stamp
  {
    hide Or, And, Lsl, Lsr, TypedLoad, TypedExec;
    TypedLoadIs(ftype, stamp);
    var t, h := ftype % 0x1000, (stamp / 0x1_0000_0000) % 0x100;
    LoadFields(t, h, TypedLoad(ftype, stamp));
  }

  /** The client's test and shifts on any load word: it takes the file for a typed one exactly if the
      word's top twelve bits are set, and the type is in bits 8 to 19. */
  lemma TypeExact(load: Word32)
    ensures HasType(load) <==> load >= 0xfff0_0000
    ensures TypeOf(load) == (load / 0x100) % 0x1000
  {
    hide Lsr, Scale;
    LsrTable(load);
    ScaleTable(load);
    var low := load % 0x10_0000;
    DivModIs(0x1000 * load, WORD_MODULUS, load / 0x10_0000, 0x1000 * low);
    LsrTable(0x1000 * low);
    MiddleBits(load);
  }

  lemma MiddleBits(load: Word32)
    ensures (0x1000 * (load % 0x10_0000)) / 0x10_0000 == (load / 0x100) % 0x1000
  {
    var h, m, l := load / 0x10_0000, (load / 0x100) % 0x1000, load % 0x100;
    assert load / 0x100 == 0x1000 * h + m by { DivModIs(load / 0x100, 0x1000, h, m); }
    assert load % 0x10_0000 == 0x100 * m + l by { DivModIs(load, 0x10_0000, h, 0x100 * m + l); }
    DivModIs(0x1000 * (0x100 * m + l), 0x10_0000, m, 0x1000 * l);
  }

  lemma LoadFields(t: nat, h: nat, w: nat)
    requires t < 0x1000 && h < 0x100 && w == 0xfff0_0000 + 0x100 * t + h
    ensures HasType(w) && TypeOf(w) == t && w % 0x100 == h
  {
    hide Lsr, Scale;
    LsrTable(w);
    DivModIs(w, 0x10_0000, 0xfff, 0x100 * t + h);
    ScaleTable(w);
    DivModIs(0x1000 * w, WORD_MODULUS, 0xfff, 0x1000 * (0x100 * t + h));
    LsrTable(0x1000 * (0x100 * t + h));
    DivModIs(0x1000 * (0x100 * t + h), 0x10_0000, t, 0x1000 * h);
  }

  // ---- The handlers

  /** A file as crf_open_read finds it: contents and the attribute words it works out. */
  datatype RemoteFile = RemoteFile(content: seq<Byte>, load: Word32, exec: Word32)

  /** The server's directory, and what the reply to a failed open holds: the error number, and
      whatever is in the words that the handler then leaves unset. */
  datatype Files = Files(named: map<seq<Byte>, RemoteFile>, errno: Byte, stale: (Word32, Word32, Word32))

  /** `current_file` and `read_buff`. */
  datatype State = State(current: Option<seq<Byte>>, readBuff: seq<Byte>)

  datatype Reaction = Reaction(state: State, reply: Option<Packet>)

  predicate Sound(st: State) { |st.readBuff| == READ_BUFFER_SIZE }

  /** The bytes before the first NUL. */
  function CString(b: seq<Byte>): seq<Byte> {
    if |b| == 0 || b[0] == 0 then [] else [b[0]] + CString(b[1..])
  }

  /** `struct init_read_response`, padding taken as zero. */
  function InitResponse(status: Byte, size: nat, load: nat, exec: nat): (b: seq<Byte>)
    ensures |b| == 16
  {
    [status, 0, 0, 0] + Le32(size) + Le32(load) + Le32(exec)
  }

  /** A string of one-byte characters. */
  function Ascii(text: string): seq<Byte> { seq(|text|, i requires 0 <= i < |text| => text[i] as int % 0x100) }

  const HOSTINFO_PROTO_VERSION: Word32 := 1
  const HOSTINFO_STRING: string := "ArcPipePodule host server"
  const HOSTINFO_FIELD: nat := 28

  /** strncpy into a field that has been cleared: cut off or padded with zeros. */
  function Field(text: seq<Byte>, n: nat): (b: seq<Byte>)
    ensures |b| == n
  {
    seq(n, i requires 0 <= i < n => if i < |text| then text[i] else 0)
  }

  /** The version, the string's field, and a word of padding. */
  function HostInfo(): (b: seq<Byte>)
    ensures |b| == 8 + HOSTINFO_FIELD
  {
    Le32(HOSTINFO_PROTO_VERSION) + Field(Ascii(HOSTINFO_STRING), HOSTINFO_FIELD) + Le32(0)
  }

  lemma {:induction false} CStringStops(text: seq<Byte>, rest: seq<Byte>)
    requires 0 !in text && |rest| > 0 && rest[0] == 0
    ensures CString(text + rest) == text
  {
    if |text| > 0 {
      CStringStops(text[1..], rest);
      assert (text + rest)[1..] == text[1..] + rest;
    } else {
      assert text + rest == rest;
    }
  }

  /** What the client finds in the host information. */
  lemma InfoText()
    ensures var b := HostInfo();
      && |b| == 36 && ReadLe32(b, 0) == 1
      && CString(b[4..]) == Ascii("ArcPipePodule host server") && forall i :: 29 <= i < 36 ==> b[i] == 0
  {
    var b, text := HostInfo(), Ascii("ArcPipePodule host server");
    Le32Value(1);
    assert |text| == 25 && 0 !in text;
    assert b[..4] == Le32(1);
    assert b[4..29] == text;
    hide Le32, ReadLe32, HostInfo;
    assert b[4..] == text + b[29..];
    CStringStops(text, b[29..]);
  }

  /** `pread` into the front of a buffer: bytes past the end of the file leave it as it was. */
  function ReadInto(buf: seq<Byte>, content: seq<Byte>, offset: nat, size: nat): (r: seq<Byte>)
    requires size <= |buf|
    ensures |r| == |buf|
  {
    var n := if offset >= |content| then 0
             else if size <= |content| - offset then size
             else |content| - offset;
    if n == 0 then buf else content[offset..offset + n] + buf[n..]
  }

  function OpenFile(fs: Files, st: State, name: seq<Byte>): Reaction {
    if name in fs.named then
      var f := fs.named[name];
      Reaction(st.(current := Some(f.content)),
               Some(Packet(CID_RAWFILE, InitResponse(0, |f.content| % WORD_MODULUS, f.load, f.exec))))
    else
      var reply := InitResponse(fs.errno, fs.stale.0, fs.stale.1, fs.stale.2);
      Reaction(st.(current := None), Some(Packet(CID_RAWFILE, reply)))
  }

  /** A request larger than the read buffer, or cut short, is outside the contract: no reply. */
  function ReadBlock(st: State, data: seq<Byte>): Reaction
    requires Sound(st)
  {
    if |data| < 12 || st.current.None? || ReadLe32(data, 8) > READ_BUFFER_SIZE then Reaction(st, None)
    else
      var size := ReadLe32(data, 8);
      var buf := ReadInto(st.readBuff, st.current.value, ReadLe32(data, 4), size);
      Reaction(st.(readBuff := buf), Some(Packet(CID_RAWFILE, buf[..size])))
  }

  /** process_packet and the two channels' rx functions. */
  function Handle(fs: Files, st: State, p: Packet): (r: Reaction)
    requires Sound(st)
    ensures Sound(r.state)
    ensures r.reply.Some? ==> Expected(p)
  {
    if |p.payload| == 0 then Reaction(st, None)
    else if p.cid == CID_HOSTINFO then
      Reaction(st, if p.payload[0] == 0 then Some(Packet(CID_HOSTINFO, HostInfo())) else None)
    else if p.cid == CID_RAWFILE then
      if p.payload[0] == RAWFILE_INIT_READ then OpenFile(fs, st, CString(p.payload[1..]))
      else if p.payload[0] == RAWFILE_READ_BLOCK then ReadBlock(st, p.payload)
      else if p.payload[0] == RAWFILE_CLOSE then Reaction(st.(current := None), None)
      else Reaction(st, None)
    else Reaction(st, None)
  }

  /** The packets a client may expect a reply to. */
  predicate Expected(p: Packet) {
    |p.payload| > 0 &&
    ((p.cid == CID_HOSTINFO && p.payload[0] == 0)
     || (p.cid == CID_RAWFILE && (p.payload[0] == RAWFILE_INIT_READ || p.payload[0] == RAWFILE_READ_BLOCK)))
  }

  function CountExpected(ps: seq<Packet>): nat {
    if |ps| == 0 then 0 else CountExpected(ps[..|ps| - 1]) + (if Expected(ps[|ps| - 1]) then 1 else 0)
  }

  datatype Served = Served(state: State, replies: seq<Packet>)

  /** The server at start: no file open. */
  function Fresh(): (st: State)
    ensures Sound(st)
  {
    State(None, seq(READ_BUFFER_SIZE, _ => 0))
  }

  /** The server's state and replies after a list of packets. */
  function Serve(fs: Files, st: State, ps: seq<Packet>): (r: Served)
    requires Sound(st)
    ensures Sound(r.state)
    ensures |r.replies| <= CountExpected(ps)
    decreases |ps|
  {
    if |ps| == 0 then Served(st, [])
    else
      var before := Serve(fs, st, ps[..|ps| - 1]);
      var r := Handle(fs, before.state, ps[|ps| - 1]);
      Served(r.state, before.replies + (if r.reply.Some? then [r.reply.value] else []))
  }

  lemma ServeSnoc(fs: Files, st: State, ps: seq<Packet>, p: Packet)
    requires Sound(st)
    ensures var before := Serve(fs, st, ps);
      var r := Handle(fs, before.state, p);
      Serve(fs, st, ps + [p]) == Served(r.state, before.replies + (if r.reply.Some? then [r.reply.value] else []))
    ensures CountExpected(ps + [p]) == CountExpected(ps) + (if Expected(p) then 1 else 0)
  {
    assert (ps + [p])[..|ps|] == ps;
  }

  lemma {:induction false} CountPrefix(ps: seq<Packet>, qs: seq<Packet>)
    requires ps <= qs
    ensures CountExpected(ps) <= CountExpected(qs)
    ensures CountExpected(ps) == CountExpected(qs) && |qs| > 0 && Expected(qs[|qs| - 1]) ==> ps == qs
    decreases |qs|
  {
    if |ps| < |qs| {
      CountPrefix(ps, qs[..|qs| - 1]);
    } else {
      assert ps == qs;
    }
  }

  /** Once the file is closed, and until one is opened, no request for a block is answered. */
  lemma ClosedIsClosed(fs: Files, st: State, close: Packet, block: Packet)
    requires Sound(st) && close.cid == 2 && |close.payload| > 0 && close.payload[0] == 4
    requires block.cid == 2 && |block.payload| > 0 && block.payload[0] == 1
    ensures var r := Handle(fs, st, close);
      && r.reply.None? && r.state.current.None?
      && Handle(fs, r.state, block) == Reaction(r.state, None)
  {}

  /** A request for a whole block inside the open file is answered with exactly that block. */
  lemma BlockAnswer(fs: Files, st: State, p: Packet, content: seq<Byte>, offset: nat, size: nat)
    requires Sound(st) && st.current == Some(content)
    requires p.cid == CID_RAWFILE && |p.payload| >= 12 && p.payload[0] == RAWFILE_READ_BLOCK
    requires ReadLe32(p.payload, 4) == offset && ReadLe32(p.payload, 8) == size
    requires size <= READ_BUFFER_SIZE && offset + size <= |content|
    ensures var r := Handle(fs, st, p);
      r.state.current == Some(content) && r.reply == Some(Packet(CID_RAWFILE, content[offset..offset + size]))
  {}
}
