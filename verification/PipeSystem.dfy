/** The whole pipe: the `pcpl` client on the Archimedes, the shared memory in both directions, the
    podule, the USB link cut at arbitrary points, and the server with its files. */
module PipeSystem {
  import opened Bits
  import opened Framing
  import opened Shuffle
  import opened HostChannels
  import opened Memory
  import opened Words
  import CopyClient
  import Server
  import T = TxPipe
  import R = RxPipe

  const SCRATCH_SIZE: nat := 1024
  const NAME_MAX: nat := 255
  const OPEN_SIZE: nat := 257
  const BLOCK_REQUEST_SIZE: nat := 16

  /** The reply to an open: length, load and exec words, as registers r8, r6 and r7 hold them. */
  datatype Info = Info(len: Word32, load: Word32, exec: Word32)

  datatype Talk =
    | Opening(name: seq<Byte>)
    | Reading(name: seq<Byte>, info: Info, pos: Word32, size: Word32, local: seq<Byte>)

  /** The attribute call that a copied file gets: its type (OS_File 18) or both words (OS_File 1). */
  datatype FileCall = SetType(ftype: nat) | SetWords(load: Word32, exec: Word32)

  datatype Result =
    | Copied(name: seq<Byte>, local: seq<Byte>, load: Word32, exec: Word32, attributes: FileCall)
    | NotOpened(name: seq<Byte>)
    | LocalError(name: seq<Byte>)

  datatype Phase =
    | Prompt
    | Sending(talk: Talk)
    | Awaiting(talk: Talk)
    | Closing(result: Result)

  datatype Client = Client(phase: Phase, scratch: seq<Byte>, commands: nat, results: seq<Result>)

  datatype Srv = Srv(read: nat, held: seq<Byte>, host: State, dispatched: seq<Packet>, faulted: bool, clobbered: bool)

  datatype World = World(files: Files, form: Form, tx: T.Tx, rx: R.Rx, srv: Srv, cli: Client)

  /** A bus or processing step of the two transmit-side parties, of the receive side, a read by the
      server that returns at most n bytes, a command typed at the prompt, and the client's own
      computation between calls, which may find a local file operation failing. */
  datatype Action =
    | TxArc | TxPod(n: nat)
    | RxArc | RxPod(n: nat) | Write(n: nat)
    | Read(n: nat)
    | Command(name: seq<Byte>)
    | Go(fails: bool)

  predicate Shape(w: World) {
    T.Shape(w.tx) && R.Shape(w.rx) && |w.cli.scratch| == SCRATCH_SIZE && Sound(w.srv.host)
  }

  // ---- The server's side

  /** process_packet: a reply goes to send_packet, which expects an idle transmitter and a packet
      the pipe can carry. */
  function Dispatch(w: World, p: Packet): (r: World)
    requires Shape(w)
    ensures Shape(r)
  {
    var h := Handle(w.files, w.srv.host, p);
    var t := w.(srv := w.srv.(host := h.state, dispatched := w.srv.dispatched + [p]));
    match h.reply
    case None => t
    case Some(q) =>
      if w.rx.owed == [] && R.Legal(q) then t.(rx := R.SendStep(w.rx, q))
      else t.(srv := t.srv.(clobbered := true))
  }

  function DispatchAll(w: World, ps: seq<Packet>): (r: World)
    requires Shape(w)
    ensures Shape(r)
    decreases |ps|
  {
    if |ps| == 0 then w else DispatchAll(Dispatch(w, ps[0]), ps[1..])
  }

  predicate Readable(w: World) { w.srv.read <= |w.tx.wire| && |w.srv.held| <= Server.BUFFER_SIZE }

  /** How many bytes a read of at most n returns. */
  function Taken(w: World, n: nat): nat
    requires Readable(w)
  {
    Min(Min(n, |w.tx.wire| - w.srv.read), Server.BUFFER_SIZE - |w.srv.held|)
  }

  /** What the server holds after it. */
  function Gathered(w: World, n: nat): (held: seq<Byte>)
    requires Readable(w)
    ensures |held| <= 4096
  {
    w.srv.held + w.tx.wire[w.srv.read..w.srv.read + Taken(w, n)]
  }

  function ReadStep(w: World, n: nat): (r: World)
    requires Shape(w)
    ensures Shape(r)
  {
    if w.srv.faulted || !Readable(w) then w
    else
      var a := Server.Reassemble(w.form, Gathered(w, n));
      DispatchAll(w.(srv := w.srv.(read := w.srv.read + Taken(w, n), held := a.rest, faulted := a.faulted)), a.packets)
  }

  // ---- The client's side

  /** The client's last step before it closes both files. */
  function AttributeCall(load: Word32, exec: Word32): FileCall {
    if HasType(load) then SetType(TypeOf(load)) else SetWords(load, exec)
  }

  /** pipe_packet_tx on channel 2 with the first n bytes of the scratch area. */
  function Call(w: World, scratch: seq<Byte>, n: nat, phase: Phase): (r: World)
    requires Shape(w) && |scratch| == SCRATCH_SIZE && n <= SCRATCH_SIZE
    ensures Shape(r)
  {
    w.(tx := T.Begin(w.tx, T.Call(2, scratch[..n])), cli := w.cli.(phase := phase, scratch := scratch))
  }

  function OpenRequest(scratch: seq<Byte>, name: seq<Byte>): (r: seq<Byte>)
    requires |scratch| == SCRATCH_SIZE && |name| <= NAME_MAX
    ensures |r| == |scratch|
  {
    PutBlock(PutBlock(scratch, 0, [0]), 1, name + [0])
  }

  function BlockRequest(scratch: seq<Byte>, pos: Word32, size: Word32): (r: seq<Byte>)
    requires |scratch| == SCRATCH_SIZE
    ensures |r| == |scratch|
  {
    PutBlock(PutBlock(PutBlock(scratch, 0, [1]), 4, Le32(pos)), 8, Le32(size))
  }

  function AskOpen(w: World, name: seq<Byte>): (r: World)
    requires Shape(w) && |name| <= NAME_MAX
    ensures Shape(r)
  {
    Call(w.(cli := w.cli.(commands := w.cli.commands + 1)), OpenRequest(w.cli.scratch, name), OPEN_SIZE,
         Sending(Opening(name)))
  }

  function AskBlock(w: World, name: seq<Byte>, info: Info, pos: Word32, local: seq<Byte>): (r: World)
    requires Shape(w)
    ensures Shape(r)
  {
    var size := CopyClient.BlockSize(info.len, pos);
    Call(w, BlockRequest(w.cli.scratch, pos, size), BLOCK_REQUEST_SIZE, Sending(Reading(name, info, pos, size, local)))
  }

  function AskClose(w: World, result: Result): (r: World)
    requires Shape(w)
    ensures Shape(r)
  {
    Call(w, PutBlock(w.cli.scratch, 0, [4]), 1, Closing(result))
  }

  /** A reply is copied to the front of the scratch area. */
  function Overlay(scratch: seq<Byte>, payload: seq<Byte>): (r: seq<Byte>)
    requires |scratch| == SCRATCH_SIZE
    ensures |r| == SCRATCH_SIZE
  {
    if |payload| <= SCRATCH_SIZE then PutBlock(scratch, 0, payload) else payload[..SCRATCH_SIZE]
  }

  function Opened(w: World, name: seq<Byte>, fails: bool): (r: World)
    requires Shape(w)
    ensures Shape(r)
  {
    var s := w.cli.scratch;
    if s[0] != 0 then w.(cli := w.cli.(phase := Prompt, results := w.cli.results + [NotOpened(name)]))
    else if fails then AskClose(w, LocalError(name))
    else AskBlock(w, name, Info(ReadLe32(s, 4), ReadLe32(s, 8), ReadLe32(s, 12)), 0, [])
  }

  /** The r4 bytes of the reply are written at r5, which then moves on. */
  function GotBlock(w: World, k: Talk, fails: bool): (r: World)
    requires Shape(w) && k.Reading?
    ensures Shape(r)
  {
    if fails then AskClose(w, LocalError(k.name))
    else
      var n := if k.size <= SCRATCH_SIZE then k.size else SCRATCH_SIZE;
      var local := CopyClient.WriteAt(k.local, k.pos, w.cli.scratch[..n]);
      var pos := CopyClient.Advance(k.pos);
      if CopyClient.GoesOn(k.info.len, pos) then AskBlock(w, k.name, k.info, pos, local)
      else AskClose(w, Copied(k.name, local, k.info.load, k.info.exec, AttributeCall(k.info.load, k.info.exec)))
  }

  /** pipe_packet_rx has returned. */
  function Replied(w: World, k: Talk, fails: bool): (r: World)
    requires Shape(w) && |w.rx.received| > 0
    ensures Shape(r)
  {
    var reply := w.rx.received[|w.rx.received| - 1];
    var t := w.(cli := w.cli.(scratch := Overlay(w.cli.scratch, reply.payload)));
    if k.Opening? then Opened(t, k.name, fails) else GotBlock(t, k, fails)
  }

  function ClientStep(w: World, fails: bool): (r: World)
    requires Shape(w)
    ensures Shape(r)
  {
    match w.cli.phase
    case Prompt => w
    case Sending(k) =>
      if w.tx.arc.Idle? && w.rx.arc.Idle?
      then w.(rx := w.rx.(arc := R.Polling), cli := w.cli.(phase := Awaiting(k)))
      else w
    case Awaiting(k) => if w.rx.arc.Idle? && |w.rx.received| > 0 then Replied(w, k, fails) else w
    case Closing(result) =>
      if w.tx.arc.Idle? then w.(cli := w.cli.(phase := Prompt, results := w.cli.results + [result])) else w
  }

  predicate NameOk(name: seq<Byte>) { |name| <= NAME_MAX && 0 !in name }

  function Step(w: World, a: Action): (r: World)
    requires Shape(w)
    ensures Shape(r)
  {
    match a
    case TxArc => w.(tx := T.ArcStep(w.tx))
    case TxPod(n) => w.(tx := T.PodStep(w.tx, n))
    case RxArc => w.(rx := R.ArcStep(w.rx))
    case RxPod(n) => w.(rx := R.PodStep(w.rx, n))
    case Write(n) => w.(rx := R.WriteStep(w.rx, n))
    case Read(n) => ReadStep(w, n)
    case Command(name) => if w.cli.phase.Prompt? && NameOk(name) then AskOpen(w, name) else w
    case Go(fails) => ClientStep(w, fails)
  }

  function Run(w: World, acts: seq<Action>): (r: World)
    requires Shape(w)
    ensures Shape(r)
    decreases |acts|
  {
    if |acts| == 0 then w else Run(Step(w, acts[0]), acts[1..])
  }

  /** A failed open says so. */
  predicate FilesOk(fs: Files) { fs.errno != 0 }

  /** If the file is there, the copy loop can handle it. */
  predicate Copyable(fs: Files, name: seq<Byte>) {
    name in fs.named ==> 1 <= |fs.named[name].content| <= CopyClient.MAX_LENGTH
  }

  /** Every file asked for is one the copy loop can handle. */
  predicate AllCopyable(fs: Files, acts: seq<Action>) {
    forall i :: 0 <= i < |acts| && acts[i].Command? ==> Copyable(fs, acts[i].name)
  }

  /** A read that does not leave bytes of a second frame behind a whole one: the branch with the
      excess subtraction is not taken. */
  predicate Spares(w: World, a: Action) {
    a.Read? && Readable(w) ==> !Server.Surplus(Gathered(w, a.n))
  }

  predicate Spared(w: World, acts: seq<Action>)
    requires Shape(w)
    decreases |acts|
  {
    |acts| > 0 ==> Spares(w, acts[0]) && Spared(Step(w, acts[0]), acts[1..])
  }

  predicate Initial(w: World) {
    && Shape(w) && FilesOk(w.files)
    && T.Initial(w.tx) && w.tx.connected && R.Initial(w.rx) && w.rx.form == w.form
    && w.srv == Srv(0, [], Fresh(), [], false, false)
    && w.cli.phase.Prompt? && w.cli.commands == 0 && w.cli.results == []
  }
}
