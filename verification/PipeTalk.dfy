/** The copy client's side of a run of the whole pipe: each call it makes, and each reply it
    takes, keeps the invariant. */
module PipeTalk {
  import opened Bits
  import opened Framing
  import opened Shuffle
  import opened HostChannels
  import opened Memory
  import opened Words
  import opened PipeSystem
  import opened PipeSafety
  import opened Wrappers
  import CopyClient
  import T = TxPipe
  import R = RxPipe
  import W = TxWire

  // ---- Requests

  lemma WordAt(b: seq<Byte>, at: nat, x: Word32)
    requires at + 4 <= |b| && b[at..at + 4] == Le32(x)
    ensures ReadLe32(b, at) == x
  {
    Le32Value(x);
    hide Le32;
    var q := b[at..at + 4];
    assert b[at] == q[0] && b[at + 1] == q[1] && b[at + 2] == q[2] && b[at + 3] == q[3];
  }

  lemma PutAt(s: seq<Byte>, at: nat, bytes: seq<Byte>)
    requires at + |bytes| <= |s|
    ensures var r := PutBlock(s, at, bytes);
      r[at..at + |bytes|] == bytes && r[..at] == s[..at]
  {}

  lemma Within(s: seq<Byte>, t: seq<Byte>, n: nat, i: nat, j: nat)
    requires i <= j <= n <= |s| && n <= |t| && s[..n] == t[..n]
    ensures s[i..j] == t[i..j]
  {
    assert s[i..j] == s[..n][i..j] && t[i..j] == t[..n][i..j];
  }

  lemma OpenPayload(scratch: seq<Byte>, name: seq<Byte>)
    requires |scratch| == SCRATCH_SIZE && NameOk(name)
    ensures var b := OpenRequest(scratch, name)[..OPEN_SIZE];
      b[0] == 0 && CString(b[1..]) == name
  {
    var s := PutBlock(scratch, 0, [0]);
    var t := OpenRequest(scratch, name);
    var n := |name|;
    PutAt(scratch, 0, [0]);
    PutAt(s, 1, name + [0]);
    hide PutBlock, CString;
    Within(s, t, 1, 0, 1);
    assert t[0..1] == [0] && t[1..1 + (n + 1)] == name + [0];
    hide OpenRequest;
    FrontThen(t, 1, n + 1, OPEN_SIZE);
    assert (name + [0]) + t[n + 2..OPEN_SIZE] == name + ([0] + t[n + 2..OPEN_SIZE]);
    CStringStops(name, [0] + t[n + 2..OPEN_SIZE]);
  }

  lemma FrontThen(t: seq<Byte>, i: nat, n: nat, k: nat)
    requires 1 <= i && i + n <= k <= |t|
    ensures t[..k][0] == t[0..1][0] && t[..k][i..] == t[i..i + n] + t[i + n..k]
  {}

  lemma BlockPayload(scratch: seq<Byte>, pos: Word32, size: Word32)
    requires |scratch| == SCRATCH_SIZE
    ensures var b := BlockRequest(scratch, pos, size)[..BLOCK_REQUEST_SIZE];
      b[0] == 1 && ReadLe32(b, 4) == pos && ReadLe32(b, 8) == size
  {
    var s := PutBlock(scratch, 0, [1]);
    var t := PutBlock(s, 4, Le32(pos));
    var u := PutBlock(t, 8, Le32(size));
    PutAt(scratch, 0, [1]);
    PutAt(s, 4, Le32(pos));
    PutAt(t, 8, Le32(size));
    hide PutBlock, Le32, ReadLe32;
    Within(s, t, 4, 0, 1);
    Within(t, u, 8, 0, 1);
    Within(t, u, 8, 4, 8);
    assert u[0..1] == [1];
    WordAt(u, 4, pos);
    WordAt(u, 8, size);
    ReadFront(u, BLOCK_REQUEST_SIZE);
  }

  lemma ReadFront(u: seq<Byte>, n: nat)
    requires 12 <= n <= |u|
    ensures u[..n][0] == u[0..1][0] && ReadLe32(u[..n], 4) == ReadLe32(u, 4) && ReadLe32(u[..n], 8) == ReadLe32(u, 8)
  {}

  function Requested(scratch: seq<Byte>, n: nat): (p: Packet)
    requires n <= |scratch|
    ensures p.cid == 2 && p.payload == scratch[..n]
  {
    T.PacketOf(T.Call(2, scratch[..n]))
  }

  lemma PacketsSnoc(cs: seq<T.Call>, c: T.Call)
    ensures W.Packets(cs + [c]) == W.Packets(cs) + [T.PacketOf(c)]
  {}

  /** The client is between calls and owed nothing. */
  predicate Between(w: World) {
    && Base(w) && w.tx.arc.Idle? && w.rx.arc.Idle? && CountExpected(Sent(w)) == |w.rx.received|
  }

  lemma CallTx(tx: T.Tx, c: T.Call)
    requires TxOk(tx) && tx.arc.Idle? && T.Legal(c) && RequestOk(T.PacketOf(c))
    ensures var r := T.Begin(tx, c);
      && TxOk(r) && !r.arc.Idle? && r.wire == tx.wire && r.calls == tx.calls + [c]
      && W.Packets(r.calls) == W.Packets(tx.calls) + [T.PacketOf(c)]
  {
    W.WireBegin(tx, c);
    PacketsSnoc(tx.calls, c);
    hide T.Inv, W.WireExact, T.PacketOf, RequestOk, W.Packets;
  }

  lemma CallBase(w: World, scratch: seq<Byte>, n: nat, phase: Phase)
    requires Between(w) && |scratch| == SCRATCH_SIZE && 1 <= n <= OPEN_SIZE && RequestOk(Requested(scratch, n))
    ensures var r := Call(w, scratch, n, phase);
      && Base(r) && Sent(r) == Sent(w) + [Requested(scratch, n)] && r.rx == w.rx
      && |r.tx.calls| == |w.tx.calls| + 1
      && r.cli.phase == phase && r.srv == w.srv && r.files == w.files && r.form == w.form
      && r.cli.commands == w.cli.commands
  {
    CallTx(w.tx, T.Call(2, scratch[..n]));
    hide TxOk, RxOk, UpOk, HostOk, ResultsOk, FilesOk, T.Begin, CountExpected, RequestOk, W.Packets, T.PacketOf,
      R.Shape, T.Shape;
  }

  lemma TalkExpected(files: Files, st: State, p: Packet, k: Talk)
    requires TalkOk(files, st, p, k)
    ensures RequestOk(p) && Expected(p)
  {
    hide CString, ReadLe32, CopyClient.BlockSize;
  }

  lemma Snoc(ps: seq<Packet>, p: Packet)
    ensures |ps + [p]| == |ps| + 1 && (ps + [p])[..|ps|] == ps && (ps + [p])[|ps|] == p
  {}

  lemma CallAsks(w: World, scratch: seq<Byte>, n: nat, k: Talk)
    requires Between(w) && |scratch| == SCRATCH_SIZE && 1 <= n <= OPEN_SIZE
    requires TalkOk(w.files, Serve(w.files, Fresh(), Sent(w)).state, Requested(scratch, n), k)
    ensures Inv(Call(w, scratch, n, Sending(k)))
  {
    hide TxOk, RxOk, UpOk, HostOk, ResultsOk, FilesOk, TalkOk, Base, Call, Requested, CountExpected, Serve, Handle,
      Sent, RequestOk, Expected;
    var p := Requested(scratch, n);
    TalkExpected(w.files, Serve(w.files, Fresh(), Sent(w)).state, p, k);
    CallBase(w, scratch, n, Sending(k));
    ServeSnoc(w.files, Fresh(), Sent(w), p);
    Snoc(Sent(w), p);
  }

  lemma CallCloses(w: World, result: Result)
    requires Between(w) && ResultOk(w.files, result)
    ensures Inv(AskClose(w, result))
  {
    var scratch := PutBlock(w.cli.scratch, 0, [4]);
    var p := Requested(scratch, 1);
    assert p.payload[0] == 4;
    CallBase(w, scratch, 1, Closing(result));
    ServeSnoc(w.files, Fresh(), Sent(w), p);
    hide TxOk, RxOk, UpOk, HostOk, ResultsOk, FilesOk, Base, Call, Requested, CountExpected, Serve, Handle, ResultOk;
  }

  lemma PromptBetween(w: World)
    requires Inv(w) && w.cli.phase.Prompt?
    ensures Between(w.(cli := w.cli.(commands := w.cli.commands + 1)))
  {
    hide TxOk, RxOk, UpOk, HostOk, ResultsOk, FilesOk, CountExpected, Conversation, T.Shape, R.Shape;
  }

  lemma OpenTalk(files: Files, st: State, scratch: seq<Byte>, name: seq<Byte>)
    requires |scratch| == SCRATCH_SIZE && NameOk(name) && Copyable(files, name)
    ensures TalkOk(files, st, Requested(OpenRequest(scratch, name), OPEN_SIZE), Opening(name))
  {
    OpenPayload(scratch, name);
    hide OpenRequest, CString, ReadLe32;
  }

  lemma OpenAsks(w: World, name: seq<Byte>)
    requires Inv(w) && w.cli.phase.Prompt? && NameOk(name) && Copyable(w.files, name)
    ensures Inv(AskOpen(w, name))
  {
    var t := w.(cli := w.cli.(commands := w.cli.commands + 1));
    PromptBetween(w);
    hide Inv, Between, CString, OpenRequest, Serve, Call, Base, TalkOk, Requested, NameOk;
    OpenTalk(w.files, Serve(w.files, Fresh(), Sent(t)).state, w.cli.scratch, name);
    CallAsks(t, OpenRequest(w.cli.scratch, name), OPEN_SIZE, Opening(name));
  }

  /** The three requests as the client makes them: 257, 16 and 1 bytes on channel 2. */
  lemma RequestsMade(w: World, name: seq<Byte>, info: Info, pos: Word32, local: seq<Byte>, result: Result)
    requires Between(w) && |name| <= 255
    ensures var c := AskOpen(w, name).tx.calls;
      |c| == |w.tx.calls| + 1 && c[|c| - 1].cid == 2 && |c[|c| - 1].data| == 257 && c[|c| - 1].data[0] == 0
    ensures var c := AskBlock(w, name, info, pos, local).tx.calls;
      |c| == |w.tx.calls| + 1 && c[|c| - 1].cid == 2 && |c[|c| - 1].data| == 16 && c[|c| - 1].data[0] == 1
    ensures AskClose(w, result).tx.calls == w.tx.calls + [T.Call(2, [4])]
  {
    var s := w.cli.scratch;
    BetweenShape(w);
    assert PutBlock(s, 0, [4])[..1] == [4];
    hide Between, Shape, T.Shape, CopyClient.BlockSize, Le32;
  }

  lemma BetweenShape(w: World)
    requires Between(w)
    ensures Shape(w) && w.tx.arc.Idle? && |w.cli.scratch| == SCRATCH_SIZE
  {
    hide TxOk, RxOk, UpOk, HostOk, ResultsOk, FilesOk, CountExpected, T.Shape, R.Shape;
  }

  /** A local file operation that fails never ends in a copy reported done: the client closes the host's
      file and says so, unless it was the open that had failed there. */
  lemma FailureReported(w: World, k: Talk)
    requires Inv(w) && w.cli.phase == Awaiting(k) && w.rx.arc.Idle? && |w.rx.received| > 0
    ensures var r := ClientStep(w, true);
      if k.Opening? && k.name !in w.files.named
      then r.cli.phase.Prompt? && r.cli.results == w.cli.results + [NotOpened(k.name)] && r.tx == w.tx
      else r.cli.phase == Closing(LocalError(k.name)) && r.cli.results == w.cli.results
           && r.tx.calls == w.tx.calls + [T.Call(2, [4])]
  {
    hide Inv, Between, Overlay, AskClose, AskBlock, Shape;
    AwaitingShape(w);
    var scratch := Overlay(w.cli.scratch, w.rx.received[|w.rx.received| - 1].payload);
    var t := w.(cli := w.cli.(scratch := scratch));
    RepliedBetween(w, k, scratch);
    BetweenShape(t);
    RequestsMade(t, [], Info(0, 0, 0), 0, [], LocalError(k.name));
    if k.Opening? { OpenStatus(w, k.name); }
    CloseTalk(t, LocalError(k.name));
  }

  lemma AwaitingShape(w: World)
    requires Inv(w)
    ensures Shape(w) && |w.cli.scratch| == SCRATCH_SIZE
  {
    hide TxOk, RxOk, UpOk, HostOk, Conversation, ResultsOk, Disciplined, T.Shape, R.Shape;
  }

  lemma CloseTalk(w: World, result: Result)
    requires Shape(w)
    ensures AskClose(w, result).cli.phase == Closing(result) && AskClose(w, result).cli.results == w.cli.results
  {
    hide Shape;
  }

  /** The status byte in hand says whether the file is there. */
  lemma OpenStatus(w: World, name: seq<Byte>)
    requires Inv(w) && w.cli.phase == Awaiting(Opening(name)) && w.rx.arc.Idle? && |w.rx.received| > 0
    ensures |w.cli.scratch| == SCRATCH_SIZE
    ensures Overlay(w.cli.scratch, w.rx.received[|w.rx.received| - 1].payload)[0] == 0 <==> name in w.files.named
  {
    LastHandled(w, Opening(name));
    var p, st := Sent(w)[|Sent(w)| - 1], Serve(w.files, Fresh(), Sent(w)[..|Sent(w)| - 1]).state;
    OpenHandled(w.files, st, p, name);
    assert FilesOk(w.files) && |w.cli.scratch| == SCRATCH_SIZE by {
      hide TxOk, RxOk, UpOk, HostOk, T.Shape, R.Shape, Disciplined, Conversation;
    }
    hide Inv, Serve, Handle, Overlay, Sent, ReadLe32, OpenAnswer;
    AnswerRead(w.files, name, w.cli.scratch);
  }

  /** Where the copy loop stands between two blocks. */
  predicate Midway(w: World, name: seq<Byte>, info: Info, pos: Word32, local: seq<Byte>) {
    && name in w.files.named
    && var f := w.files.named[name];
    && w.srv.host.current == Some(f.content)
    && info.len == |f.content| && info.load == f.load && info.exec == f.exec
    && pos < |f.content| <= CopyClient.MAX_LENGTH && pos % CopyClient.BLOCK == 0 && local == f.content[..pos]
  }

  lemma BlockAsks(w: World, name: seq<Byte>, info: Info, pos: Word32, local: seq<Byte>)
    requires Between(w) && Midway(w, name, info, pos, local)
    requires Serve(w.files, Fresh(), Sent(w)).state == w.srv.host
    ensures Inv(AskBlock(w, name, info, pos, local))
  {
    var size := CopyClient.BlockSize(info.len, pos);
    CopyClient.SizeInRange(info.len, pos);
    BlockPayload(w.cli.scratch, pos, size);
    hide Between, BlockRequest, Serve, CopyClient.BlockSize, ReadLe32;
    CallAsks(w, BlockRequest(w.cli.scratch, pos, size), BLOCK_REQUEST_SIZE, Reading(name, info, pos, size, local));
  }

  // ---- Replies

  /** The reply in hand is the server's answer to the last request, made in the state that the
      earlier requests led to. */
  lemma LastReply(w: World, k: Talk)
    requires Inv(w) && w.cli.phase == Awaiting(k) && w.rx.arc.Idle? && |w.rx.received| > 0
    ensures w.srv.dispatched == Sent(w) && w.rx.received == w.rx.given && |Sent(w)| > 0
    ensures Serve(w.files, Fresh(), Sent(w)) == Served(w.srv.host, w.rx.given)
    ensures |w.rx.given| == CountExpected(Sent(w))
    ensures w.tx.arc.Idle? && Expected(Sent(w)[|w.tx.calls| - 1])
  {
    assert w.rx.received <= w.rx.given by { hide T.Shape, TxOk, UpOk, HostOk, ResultsOk, FilesOk, Serve,
      CountExpected; }
    hide RxOk, R.Shape, T.Shape, ResultsOk, FilesOk, Serve;
    AllAnswered(w);
  }

  lemma ServeLast(files: Files, ps: seq<Packet>)
    requires |ps| > 0
    ensures var before := Serve(files, Fresh(), ps[..|ps| - 1]);
      var h := Handle(files, before.state, ps[|ps| - 1]);
      && Serve(files, Fresh(), ps).state == h.state
      && (h.reply.Some? ==>
            var rs := Serve(files, Fresh(), ps).replies;
            |rs| > 0 && rs[|rs| - 1] == h.reply.value)
  {}

  lemma ResultsSnoc(files: Files, rs: seq<Result>, r: Result)
    requires ResultsOk(files, rs) && ResultOk(files, r)
    ensures ResultsOk(files, rs + [r])
  {
    hide ResultOk;
  }

  /** Back at the prompt with one more result. */
  lemma FinishInv(w: World, result: Result)
    requires Between(w) && ResultOk(w.files, result) && Serve(w.files, Fresh(), Sent(w)).state.current.None?
    ensures Inv(w.(cli := w.cli.(phase := Prompt, results := w.cli.results + [result])))
  {
    ResultsSnoc(w.files, w.cli.results, result);
    hide TxOk, RxOk, UpOk, HostOk, ResultsOk, FilesOk, CountExpected, ResultOk, T.Shape, R.Shape;
  }

  /** With the reply to the last request in hand, the client is between calls, whatever it then
      puts in its scratch area. */
  lemma RepliedBetween(w: World, k: Talk, scratch: seq<Byte>)
    requires Inv(w) && w.cli.phase == Awaiting(k) && w.rx.arc.Idle? && |w.rx.received| > 0
    requires |scratch| == SCRATCH_SIZE
    ensures var t := w.(cli := w.cli.(scratch := scratch));
      Between(t) && Serve(t.files, Fresh(), Sent(t)).state == t.srv.host
  {
    LastReply(w, k);
    assert |Sent(w)| == |w.tx.calls|;
    hide TxOk, RxOk, UpOk, HostOk, ResultsOk, FilesOk, CountExpected, T.Shape, R.Shape, Serve, Conversation, W.Packets;
  }

  /** What the server made of the last request, in terms of the state it made it in. */
  lemma LastHandled(w: World, k: Talk)
    requires Inv(w) && w.cli.phase == Awaiting(k) && w.rx.arc.Idle? && |w.rx.received| > 0
    ensures |Sent(w)| > 0
    ensures var p, st := Sent(w)[|Sent(w)| - 1], Serve(w.files, Fresh(), Sent(w)[..|Sent(w)| - 1]).state;
      var h := Handle(w.files, st, p);
      && TalkOk(w.files, st, p, k) && w.srv.host == h.state
      && (h.reply.Some? ==> w.rx.received[|w.rx.received| - 1] == h.reply.value)
  {
    LastReply(w, k);
    ServeLast(w.files, Sent(w));
    hide TxOk, RxOk, UpOk, HostOk, ResultsOk, FilesOk, CountExpected, T.Shape, R.Shape, Serve, Handle, TalkOk, Sent,
      Disciplined;
  }

  // ---- The reply to an open

  function OpenAnswer(files: Files, name: seq<Byte>): (b: seq<Byte>)
    ensures |b| == 16
  {
    if name in files.named then
      var f := files.named[name];
      InitResponse(0, |f.content| % WORD_MODULUS, f.load, f.exec)
    else InitResponse(files.errno, files.stale.0, files.stale.1, files.stale.2)
  }

  lemma OpenHandled(files: Files, st: State, p: Packet, name: seq<Byte>)
    requires Sound(st) && TalkOk(files, st, p, Opening(name))
    ensures var h := Handle(files, st, p);
      && h.reply == Some(Packet(CID_RAWFILE, OpenAnswer(files, name)))
      && h.state.current == if name in files.named then Some(files.named[name].content) else None
  {
    hide CString, InitResponse, ReadLe32;
  }

  lemma OverlayFront(scratch: seq<Byte>, payload: seq<Byte>)
    requires |scratch| == SCRATCH_SIZE && |payload| <= SCRATCH_SIZE
    ensures Overlay(scratch, payload)[..|payload|] == payload
  {}

  lemma AnswerWords(s: seq<Byte>, status: Byte, len: Word32, load: Word32, exec: Word32)
    requires |s| == SCRATCH_SIZE && s[..16] == InitResponse(status, len, load, exec)
    ensures s[0] == status && ReadLe32(s, 4) == len && ReadLe32(s, 8) == load && ReadLe32(s, 12) == exec
  {
    var b := InitResponse(status, len, load, exec);
    hide Le32, ReadLe32;
    assert s[0] == s[..16][0];
    assert s[4..8] == s[..16][4..8] == b[4..8] == Le32(len);
    assert s[8..12] == s[..16][8..12] == b[8..12] == Le32(load);
    assert s[12..16] == s[..16][12..16] == b[12..16] == Le32(exec);
    hide InitResponse;
    WordAt(s, 4, len);
    WordAt(s, 8, load);
    WordAt(s, 12, exec);
  }

  lemma AnswerRead(files: Files, name: seq<Byte>, scratch: seq<Byte>)
    requires |scratch| == SCRATCH_SIZE && FilesOk(files) && Copyable(files, name)
    ensures var s := Overlay(scratch, OpenAnswer(files, name));
      && (s[0] == 0 <==> name in files.named)
      && (name in files.named ==>
            var f := files.named[name];
            ReadLe32(s, 4) == |f.content| && ReadLe32(s, 8) == f.load && ReadLe32(s, 12) == f.exec)
  {
    var s := Overlay(scratch, OpenAnswer(files, name));
    OverlayFront(scratch, OpenAnswer(files, name));
    hide Overlay, ReadLe32, InitResponse;
    if name in files.named {
      var f := files.named[name];
      DivModIs(|f.content|, WORD_MODULUS, 0, |f.content|);
      AnswerWords(s, 0, |f.content|, f.load, f.exec);
    } else {
      AnswerWords(s, files.errno, files.stale.0, files.stale.1, files.stale.2);
    }
  }

  lemma OpenedInv(w: World, name: seq<Byte>, scratch: seq<Byte>, fails: bool)
    requires Inv(w) && w.cli.phase == Awaiting(Opening(name)) && w.rx.arc.Idle? && |w.rx.received| > 0
    requires |scratch| == SCRATCH_SIZE
    requires scratch == Overlay(w.cli.scratch, w.rx.received[|w.rx.received| - 1].payload)
    ensures Inv(Opened(w.(cli := w.cli.(scratch := scratch)), name, fails))
  {
    RepliedBetween(w, Opening(name), scratch);
    LastHandled(w, Opening(name));
    var p, st := Sent(w)[|Sent(w)| - 1], Serve(w.files, Fresh(), Sent(w)[..|Sent(w)| - 1]).state;
    OpenHandled(w.files, st, p, name);
    assert FilesOk(w.files) && |w.cli.scratch| == SCRATCH_SIZE by {
      hide TxOk, RxOk, UpOk, HostOk, T.Shape, R.Shape, Disciplined, Conversation;
    }
    hide Inv, Between, Serve, Handle, TalkOk, Overlay, Sent, AskBlock, AskClose, ReadLe32, OpenAnswer;
    AnswerRead(w.files, name, w.cli.scratch);
    var t := w.(cli := w.cli.(scratch := scratch));
    if scratch[0] != 0 {
      FinishInv(t, NotOpened(name));
    } else if fails {
      CallCloses(t, LocalError(name));
    } else {
      var info := Info(ReadLe32(scratch, 4), ReadLe32(scratch, 8), ReadLe32(scratch, 12));
      assert Midway(t, name, info, 0, []);
      BlockAsks(t, name, info, 0, []);
    }
  }

  // ---- The reply to a block request

  lemma BlockHandled(files: Files, st: State, p: Packet, k: Talk)
    requires Sound(st) && k.Reading? && TalkOk(files, st, p, k)
    ensures var h := Handle(files, st, p);
      var content := files.named[k.name].content;
      && k.pos + k.size <= |content| && 1 <= k.size <= CopyClient.BLOCK
      && h.reply == Some(Packet(CID_RAWFILE, content[k.pos..k.pos + k.size]))
      && h.state.current == Some(content)
  {
    var content := files.named[k.name].content;
    CopyClient.SizeInRange(|content|, k.pos);
    hide CString, ReadLe32, CopyClient.BlockSize, Handle;
    BlockAnswer(files, st, p, content, k.pos, k.size);
  }

  /** The position after a block: short of the end exactly when the block was a full one with
      more behind it. */
  lemma NextBlock(len: Word32, pos: Word32, size: Word32)
    requires pos < len <= CopyClient.MAX_LENGTH && pos % CopyClient.BLOCK == 0
    requires size == CopyClient.BlockSize(len, pos)
    ensures var next := CopyClient.Advance(pos);
      && next == pos + CopyClient.BLOCK && next % CopyClient.BLOCK == 0
      && (CopyClient.GoesOn(len, next) <==> next < len)
      && (if next < len then size == CopyClient.BLOCK else pos + size == len)
  {
    CopyClient.SizeInRange(len, pos);
    hide CopyClient.BlockSize;
  }

  /** The loop, having written a block, is midway again or done. */
  lemma BlockWritten(w: World, k: Talk)
    requires k.Reading? && k.name in w.files.named && Copyable(w.files, k.name)
    requires var f := w.files.named[k.name];
      && w.srv.host.current == Some(f.content)
      && k.info.len == |f.content| && k.info.load == f.load && k.info.exec == f.exec
      && k.pos < |f.content| && k.pos % CopyClient.BLOCK == 0 && k.local == f.content[..k.pos]
      && k.size == CopyClient.BlockSize(k.info.len, k.pos) && k.pos + k.size <= |f.content|
    ensures var f := w.files.named[k.name];
      var local := CopyClient.WriteAt(k.local, k.pos, f.content[k.pos..k.pos + k.size]);
      var pos := CopyClient.Advance(k.pos);
      if CopyClient.GoesOn(k.info.len, pos) then Midway(w, k.name, k.info, pos, local)
      else ResultOk(w.files, Copied(k.name, local, k.info.load, k.info.exec, AttributeCall(k.info.load, k.info.exec)))
  {
    var f := w.files.named[k.name];
    NextBlock(k.info.len, k.pos, k.size);
    CopyClient.WriteNext(f.content, k.pos, k.size);
    TypeExact(k.info.load);
    hide CopyClient.BlockSize, CopyClient.GoesOn, CopyClient.Advance, CopyClient.WriteAt, HasType, TypeOf;
    assert f.content[..|f.content|] == f.content;
  }

  lemma GotBlockInv(w: World, k: Talk, scratch: seq<Byte>, fails: bool)
    requires Inv(w) && w.cli.phase == Awaiting(k) && k.Reading? && w.rx.arc.Idle? && |w.rx.received| > 0
    requires |scratch| == SCRATCH_SIZE
    requires scratch == Overlay(w.cli.scratch, w.rx.received[|w.rx.received| - 1].payload)
    ensures Inv(GotBlock(w.(cli := w.cli.(scratch := scratch)), k, fails))
  {
    RepliedBetween(w, k, scratch);
    LastHandled(w, k);
    var p, st := Sent(w)[|Sent(w)| - 1], Serve(w.files, Fresh(), Sent(w)[..|Sent(w)| - 1]).state;
    assert FilesOk(w.files) && |w.cli.scratch| == SCRATCH_SIZE by {
      hide TxOk, RxOk, UpOk, HostOk, T.Shape, R.Shape, Disciplined, Conversation;
    }
    hide Inv, Between, Serve, Handle, Overlay, Sent, AskBlock, AskClose, ReadLe32, CopyClient.BlockSize, RequestOk,
      FilesOk,
      CopyClient.WriteAt, CopyClient.Advance, CopyClient.GoesOn, Midway, ResultOk;
    BlockHandled(w.files, st, p, k);
    var t := w.(cli := w.cli.(scratch := scratch));
    var content := w.files.named[k.name].content;
    OverlayFront(w.cli.scratch, content[k.pos..k.pos + k.size]);
    if fails {
      assert ResultOk(w.files, LocalError(k.name)) by { LocalErrorOk(w.files, k.name); }
      CallCloses(t, LocalError(k.name));
    } else {
      BlockWritten(w, k);
      MidwayScratch(w, scratch, k);
      var local := CopyClient.WriteAt(k.local, k.pos, content[k.pos..k.pos + k.size]);
      var pos := CopyClient.Advance(k.pos);
      if CopyClient.GoesOn(k.info.len, pos) {
        BlockAsks(t, k.name, k.info, pos, local);
      } else {
        CallCloses(t, Copied(k.name, local, k.info.load, k.info.exec, AttributeCall(k.info.load, k.info.exec)));
      }
    }
  }

  lemma LocalErrorOk(files: Files, name: seq<Byte>)
    ensures ResultOk(files, LocalError(name))
  {}

  lemma MidwayScratch(w: World, scratch: seq<Byte>, k: Talk)
    ensures forall name, info, pos, local ::
      Midway(w.(cli := w.cli.(scratch := scratch)), name, info, pos, local) == Midway(w, name, info, pos, local)
  {}

  // ---- The client's step

  lemma RepliedInv(w: World, k: Talk, fails: bool)
    requires Inv(w) && w.cli.phase == Awaiting(k) && w.rx.arc.Idle? && |w.rx.received| > 0
    ensures Inv(Replied(w, k, fails))
  {
    var scratch := Overlay(w.cli.scratch, w.rx.received[|w.rx.received| - 1].payload);
    hide Inv, Opened, GotBlock, Overlay;
    if k.Opening? { OpenedInv(w, k.name, scratch, fails); } else { GotBlockInv(w, k, scratch, fails); }
  }

  lemma AwaitBase(w: World, phase: Phase)
    requires Base(w) && w.rx.arc.Idle?
    ensures Base(w.(rx := w.rx.(arc := R.Polling), cli := w.cli.(phase := phase)))
  {
    RxReceiveOk(w.rx, w.form);
    hide TxOk, RxOk, UpOk, HostOk, ResultsOk, FilesOk, T.Shape, R.Shape;
  }

  /** Calling pipe_packet_rx. */
  lemma AwaitInv(w: World, k: Talk)
    requires Inv(w) && w.cli.phase == Sending(k) && w.tx.arc.Idle? && w.rx.arc.Idle?
    ensures Inv(w.(rx := w.rx.(arc := R.Polling), cli := w.cli.(phase := Awaiting(k))))
  {
    AwaitBase(w, Awaiting(k));
    hide Base, CountExpected, TalkOk, Serve, Sent;
  }

  lemma RxReceiveOk(rx: R.Rx, form: Form)
    requires RxOk(rx, form) && rx.arc.Idle?
    ensures RxOk(rx.(arc := R.Polling), form) && R.Shape(rx.(arc := R.Polling))
  {
    RxStepOk(rx, form, R.Receive);
    hide R.Inv, R.Solo;
  }

  lemma CloseInv(w: World, result: Result)
    requires Inv(w) && w.cli.phase == Closing(result) && w.tx.arc.Idle?
    ensures Inv(w.(cli := w.cli.(phase := Prompt, results := w.cli.results + [result])))
  {
    ResultsSnoc(w.files, w.cli.results, result);
    hide TxOk, RxOk, UpOk, HostOk, ResultsOk, FilesOk, CountExpected, ResultOk, T.Shape, R.Shape;
  }

  lemma ClientInv(w: World, fails: bool)
    requires Inv(w)
    ensures Inv(ClientStep(w, fails))
  {
    hide Inv, Replied;
    match w.cli.phase
    case Prompt =>
    case Sending(k) => if w.tx.arc.Idle? && w.rx.arc.Idle? { AwaitInv(w, k); }
    case Awaiting(k) => if w.rx.arc.Idle? && |w.rx.received| > 0 { RepliedInv(w, k, fails); }
    case Closing(result) => if w.tx.arc.Idle? { CloseInv(w, result); }
  }
}
