/** server/main.c and server/channel_rawfile.c: the host program's static buffers, its
    reassembly and output loops, and its dispatch. */
module Server {
  import opened Bits
  import opened Framing
  import opened Shuffle
  import opened HostChannels
  import opened Sequences
  import opened Words
  import opened Wrappers

  const BUFFER_SIZE: nat := 4096

  /** The server looks at a header only when it holds more than a header. */
  const NEED: nat := HEADER + 1

  /** A whole frame with bytes of the next one behind it. */
  predicate Surplus(held: seq<Byte>) { Complete(held, NEED) && |held| > FrameLen(held) }

  datatype Reassembly = Reassembly(packets: seq<Packet>, rest: seq<Byte>, faulted: bool)

  /** What the `packet_check` loop makes of the held bytes. */
  function Reassemble(form: Form, held: seq<Byte>): Reassembly {
    if form.AsWritten? && Surplus(held) then Reassembly([FirstPacket(held)], held, true)
    else
      var d := Decode(held, NEED);
      Reassembly(d.packets, d.rest, false)
  }

  /** The serial device: every read returns some of what is still to come, or fails; every write
      takes some of what it is offered, or fails. A ready one gives and takes all that it can. */
  class Tty {
    const ready: bool
    var incoming: seq<Byte>
    var outgoing: seq<Byte>

    /** What every read and every write has returned. */
    ghost var got: seq<int>
    ghost var put: seq<int>

    constructor (stream: seq<Byte>, ready: bool)
      ensures incoming == stream && outgoing == [] && got == [] && put == [] && this.ready == ready
    {
      incoming, outgoing, got, put, this.ready := stream, [], [], [], ready;
    }

    method Read(max: nat) returns (r: int, data: seq<Byte>)
      modifies this`incoming, this`got
      ensures old(incoming) == data + incoming && |data| <= max
      ensures if r < 0 then data == [] else r == |data|
      ensures got == old(got) + [r]
      ensures ready && max > 0 && old(incoming) != [] ==> r > 0
    {
      var limit := if max <= |incoming| then max else |incoming|;
      r :| -1 <= r <= limit && (ready ==> r == limit);
      if r < 0 {
        data := [];
      } else {
        data := incoming[..r];
        incoming := incoming[r..];
      }
      got := got + [r];
    }

    method Write(data: seq<Byte>) returns (r: int)
      modifies this`outgoing, this`put
      ensures -1 <= r <= |data|
      ensures outgoing == old(outgoing) + if r < 0 then [] else data[..r]
      ensures put == old(put) + [r]
      ensures ready && data != [] ==> r > 0
    {
      r :| -1 <= r <= |data| && (ready ==> r == |data|);
      outgoing := outgoing + if r < 0 then [] else data[..r];
      put := put + [r];
    }
  }

  /** The results r[n..] of a loop that goes on as long as they are positive; if it has not been left
      otherwise, the last is not. */
  predicate UntilNone(r: seq<int>, n: nat, left: bool) {
    && n < |r| && (forall i :: n <= i < |r| - 1 ==> r[i] > 0)
    && (!left ==> r[|r| - 1] <= 0)
  }

  class Server {
    const form: Form
    const files: Files
    const rxBuffer: array<Byte>
    var rxPos: nat
    const txBuffer: array<Byte>
    var txLen: int
    var txPos: nat
    var currentFile: Option<seq<Byte>>
    const readBuff: array<Byte>

    /** Every byte read, every packet dispatched, every reply handed to send_packet, every byte
        written, and whether send_packet ever found the transmitter busy. */
    ghost var input: seq<Byte>
    ghost var dispatched: seq<Packet>
    ghost var replies: seq<Packet>
    ghost var output: seq<Byte>
    ghost var clobbered: bool

    ghost predicate Arrays() {
      && rxBuffer.Length == BUFFER_SIZE && txBuffer.Length == BUFFER_SIZE && readBuff.Length == READ_BUFFER_SIZE
      && rxBuffer != txBuffer && rxBuffer != readBuff && txBuffer != readBuff
    }

    ghost predicate RxOk()
      reads `rxPos
    {
      Arrays() && rxPos <= BUFFER_SIZE
    }

    ghost predicate TxOk()
      reads `txLen, `txPos
    {
      Arrays() && (txLen == -1 || 0 <= txPos < txLen <= BUFFER_SIZE)
    }

    ghost function Held(): seq<Byte>
      requires RxOk()
      reads `rxPos, rxBuffer
    {
      rxBuffer[..rxPos]
    }

    ghost function Owed(): seq<Byte>
      requires TxOk()
      reads `txLen, `txPos, txBuffer
    {
      if txLen == -1 then [] else txBuffer[txPos..txLen]
    }

    ghost function HostState(): (st: State)
      requires Arrays()
      reads `currentFile, readBuff
      ensures Sound(st)
    {
      State(currentFile, readBuff[..])
    }

    /** What the handlers have done is what they do to the dispatched packets, in order; and while
        the transmitter was never found busy, the bytes written and owed are the replies' frames. */
    ghost predicate Handled()
      reads `txLen, `txPos, `currentFile, `dispatched, `replies, `output, `clobbered, txBuffer, readBuff
    {
      && TxOk()
      && Serve(files, Fresh(), dispatched) == Served(HostState(), replies)
      && (!clobbered ==> output + Owed() == Frames(replies))
    }

    /** The packets dispatched and the bytes held are those the pure decoder finds in the bytes
        read, wherever the reads were cut. */
    ghost predicate Reassembled()
      reads `rxPos, `input, `dispatched, rxBuffer
    {
      RxOk() && Decode(input, NEED) == Decoded(dispatched, Held())
    }

    /** The decoder's view half way: what it still finds in the held bytes completes what has been
        dispatched. */
    ghost predicate Reassembling()
      reads `rxPos, `input, `dispatched, rxBuffer
    {
      && RxOk()
      && var e := Decode(Held(), NEED);
      && Decode(input, NEED) == Decoded(dispatched + e.packets, e.rest)
    }

    ghost predicate Valid()
      reads this, rxBuffer, txBuffer, readBuff
    {
      Handled() && Reassembled()
    }

    constructor (form: Form, files: Files)
      ensures Valid() && input == [] && output == [] && !clobbered
      ensures fresh(rxBuffer) && fresh(txBuffer) && fresh(readBuff)
      ensures this.form == form && this.files == files
    {
      this.form, this.files := form, files;
      rxBuffer := new Byte[BUFFER_SIZE](_ => 0);
      txBuffer := new Byte[BUFFER_SIZE](_ => 0);
      readBuff := new Byte[READ_BUFFER_SIZE](_ => 0);
      rxPos, txLen, txPos, currentFile := 0, -1, 0, None;
      input, dispatched, replies, output, clobbered := [], [], [], [], false;
      new;
      assert readBuff[..] == Fresh().readBuff;
    }

    /** send_packet: overwrites the transmit buffer, busy or not. */
    method SendPacket(cid: Byte, data: seq<Byte>)
      requires TxOk() && |data| + HEADER <= BUFFER_SIZE
      modifies this`txLen, this`txPos, this`clobbered, txBuffer
      ensures TxOk() && Owed() == Frame(Packet(cid, data))
      ensures clobbered == (old(clobbered) || old(txLen) != -1)
    {
      if txLen != -1 {
        clobbered := true;
      }
      txBuffer[0], txBuffer[1], txBuffer[2] := cid, |data| % 0x100, (|data| / 0x100) % 0x100;
      forall i | 0 <= i < |data| {
        txBuffer[HEADER + i] := data[i];
      }
      txPos := 0;
      txLen := |data| + HEADER;
      assert txBuffer[..HEADER] == Header(cid, |data|);
      assert txBuffer[HEADER..HEADER + |data|] == data;
      assert txBuffer[0..txLen] == txBuffer[..HEADER] + txBuffer[HEADER..HEADER + |data|];
    }

    /** The handlers' effect: the file state moves as `Handle` says, and a reply, if there is one,
        is now what the transmitter owes. */
    twostate predicate Reacted(p: Packet)
      requires old(TxOk()) && TxOk()
      reads `txLen, `txPos, `currentFile, `clobbered, txBuffer, readBuff
    {
      var r := Handle(files, old(HostState()), p);
      && HostState() == r.state
      && (match r.reply
          case None => Owed() == old(Owed()) && clobbered == old(clobbered)
          case Some(q) => Owed() == Frame(q) && clobbered == (old(clobbered) || old(txLen) != -1))
    }

    method ChannelHostinfoRx(data: seq<Byte>)
      requires TxOk() && |data| > 0
      modifies this`txLen, this`txPos, this`clobbered, txBuffer
      ensures TxOk() && Reacted(Packet(CID_HOSTINFO, data))
    {
      if data[0] == 0 {
        SendPacket(CID_HOSTINFO, HostInfo());
      }
    }

    /** `pread` into read_buff. */
    method ReadFile(content: seq<Byte>, offset: nat, size: nat)
      requires TxOk() && size <= READ_BUFFER_SIZE
      modifies readBuff
      ensures readBuff[..] == ReadInto(old(readBuff[..]), content, offset, size)
    {
      if offset < |content| {
        var n := if size <= |content| - offset then size else |content| - offset;
        forall i | 0 <= i < n {
          readBuff[i] := content[offset + i];
        }
        assert readBuff[..] == content[offset..offset + n] + old(readBuff[..])[n..];
      }
    }

    method ChannelRawfileRx(data: seq<Byte>)
      requires TxOk() && |data| > 0
      modifies this`txLen, this`txPos, this`clobbered, this`currentFile, txBuffer, readBuff
      ensures TxOk() && Reacted(Packet(CID_RAWFILE, data))
    {
      hide CString, InitResponse, ReadLe32, ReadInto, Frame;
      if data[0] == RAWFILE_INIT_READ {
        var name := CString(data[1..]);
        if name in files.named {
          var f := files.named[name];
          currentFile := Some(f.content);
          SendPacket(CID_RAWFILE, InitResponse(0, |f.content| % WORD_MODULUS, f.load, f.exec));
        } else {
          currentFile := None;
          SendPacket(CID_RAWFILE, InitResponse(files.errno, files.stale.0, files.stale.1, files.stale.2));
        }
      } else if data[0] == RAWFILE_READ_BLOCK {
        if |data| >= 12 && currentFile.Some? && ReadLe32(data, 8) <= READ_BUFFER_SIZE {
          var size := ReadLe32(data, 8);
          ReadFile(currentFile.value, ReadLe32(data, 4), size);
          SendPacket(CID_RAWFILE, readBuff[..size]);
        }
      } else if data[0] == RAWFILE_CLOSE {
        currentFile := None;
      }
    }

    method Dispatch(p: Packet)
      requires TxOk()
      modifies this`txLen, this`txPos, this`clobbered, this`currentFile, txBuffer, readBuff
      ensures TxOk() && Reacted(p)
    {
      if |p.payload| > 0 {
        if p.cid == CID_HOSTINFO {
          ChannelHostinfoRx(p.payload);
        } else if p.cid == CID_RAWFILE {
          ChannelRawfileRx(p.payload);
        }
      }
    }

    /** process_packet, with the history it makes. */
    method ProcessPacket(p: Packet)
      requires Handled()
      modifies this`txLen, this`txPos, this`clobbered, this`currentFile, this`dispatched, this`replies, txBuffer,
        readBuff
      ensures Handled() && dispatched == old(dispatched) + [p]
      ensures clobbered == (old(clobbered) || (|replies| > |old(replies)| && old(txLen) != -1))
    {
      hide Serve, Handle, Frames, Frame;
      ghost var r := Handle(files, HostState(), p);
      ServeSnoc(files, Fresh(), dispatched, p);
      Dispatch(p);
      dispatched := dispatched + [p];
      if r.reply.Some? {
        FramesSnoc(replies, r.reply.value);
        assert old(txLen) == -1 ==> output + [] == output;
        replies := replies + [r.reply.value];
      } else {
        assert replies + [] == replies;
      }
    }

    /** The memmove of the excess, when it stays inside the array. */
    method MoveDown(end: nat, n: nat)
      requires Arrays() && end + n <= BUFFER_SIZE
      modifies this`rxPos, rxBuffer
      ensures RxOk() && Held() == old(rxBuffer[end..end + n])
    {
      forall i | 0 <= i < n {
        rxBuffer[i] := rxBuffer[end + i];
      }
      rxPos := n;
    }

    /** One pass from the `packet_check` label: false if the shuffle ran out of the array,
        otherwise whether to go round again. */
    method CheckOnce() returns (ok: bool, again: bool)
      requires Handled() && Reassembling()
      modifies this`rxPos, this`txLen, this`txPos, this`clobbered, this`currentFile, this`dispatched, this`replies
      modifies rxBuffer, txBuffer, readBuff
      ensures Handled() && RxOk()
      ensures ok <==> form.Intended? || !Surplus(old(Held()))
      ensures again ==> ok && Reassembling() && rxPos < old(rxPos)
      ensures ok && !again ==> Reassembled()
      ensures again ==> Surplus(old(Held()))
    {
      hide Handled, Decode;
      ok, again := true, false;
      ghost var held, done := Held(), dispatched;
      DecodeStep(held, done);
      if rxPos > HEADER {
        var end := HEADER + rxBuffer[1] as int + 0x100 * rxBuffer[2] as int;
        assert end == FrameLen(held);
        if rxPos >= end {
          var p := Packet(rxBuffer[0], rxBuffer[HEADER..end]);
          assert p == FirstPacket(held);
          ProcessPacket(p);
          if rxPos == end {
            rxPos := 0;
            assert held[end..] == [] == Held();
          } else {
            var n := Excess(form, rxPos, end);
            ShuffleExact(form, rxBuffer[..], rxPos, end);
            if end + n > BUFFER_SIZE {
              ok := false;
            } else {
              MoveDown(end, n);
              assert Held() == held[end..];
              again := true;
            }
          }
        }
      }
    }

    /** The `packet_check` loop. False if the shuffle ran out of the array: as written, exactly
        when the read has brought bytes of a second frame. */
    method PacketCheck() returns (ok: bool)
      requires Handled() && Reassembling()
      modifies this`rxPos, this`txLen, this`txPos, this`clobbered, this`currentFile, this`dispatched, this`replies
      modifies rxBuffer, txBuffer, readBuff
      ensures Handled() && RxOk()
      ensures ok <==> form.Intended? || !Surplus(old(Held()))
      ensures ok ==> Reassembled()
    {
      hide Handled, Decode, Surplus;
      var again;
      ok, again := CheckOnce();
      while again
        invariant Handled() && RxOk() && (again ==> ok && Reassembling()) && (ok && !again ==> Reassembled())
        invariant ok <==> form.Intended? || !Surplus(old(Held()))
        invariant again ==> form.Intended?
        decreases again, rxPos
      {
        ok, again := CheckOnce();
      }
    }

    /** A read's bytes are appended to those held. */
    method Receive(data: seq<Byte>)
      requires Reassembled() && rxPos + |data| <= BUFFER_SIZE
      modifies this`rxPos, this`input, rxBuffer
      ensures Reassembling() && input == old(input) + data && Held() == old(Held()) + data
    {
      hide Decode;
      ghost var held := Held();
      DecodeAppend(input, data, NEED);
      forall i | 0 <= i < |data| {
        rxBuffer[rxPos + i] := data[i];
      }
      rxPos := rxPos + |data|;
      assert Held() == held + data;
      input := input + data;
    }

    /** process_input: it reads, and goes on exactly as long as reads return something and the shuffle
        does not run out of the array. A ready device has then handed over all it had, unless the
        buffer is full. */
    method ProcessInput(tty: Tty) returns (ok: bool)
      requires Valid()
      modifies this`rxPos, this`txLen, this`txPos, this`clobbered, this`currentFile, this`dispatched, this`replies
      modifies this`input, rxBuffer, txBuffer, readBuff, tty`incoming, tty`got
      ensures Handled() && RxOk()
      ensures old(input) <= input && old(tty.incoming) == input[|old(input)|..] + tty.incoming
      ensures ok ==> Valid()
      ensures form.Intended? ==> ok
      ensures old(tty.got) <= tty.got && UntilNone(tty.got, |old(tty.got)|, !ok)
      ensures ok && tty.ready ==> tty.incoming == [] || rxPos == 4096
    {
      hide Handled, Decode, Surplus;
      ghost var before, n := |input|, |tty.got|;
      var r := 1;
      while r > 0
        invariant Handled() && Reassembled() && RxOk()
        invariant old(input) <= input && old(tty.incoming) == input[before..] + tty.incoming
        invariant old(tty.got) <= tty.got && n <= |tty.got|
        invariant forall i :: n <= i < |tty.got| - 1 ==> tty.got[i] > 0
        invariant |tty.got| == n ==> r > 0
        invariant |tty.got| > n ==> tty.got[|tty.got| - 1] == r
        decreases |tty.incoming|, r
      {
        ghost var was, held := input, Held();
        var data;
        r, data := tty.Read(BUFFER_SIZE - rxPos);
        if r < 0 {
          return true;
        }
        Receive(data);
        Splice(was, data, before, tty.incoming);
        var fine := PacketCheck();
        if !fine {
          return false;
        }
        if r == 0 {
          assert was + [] == was;
          assert Held() == held;
          break;
        }
      }
      return true;
    }

    /** One write: what the device takes moves from what is owed to what is written. */
    method WriteOnce(tty: Tty) returns (r: int)
      requires Handled() && TxOk() && txLen != -1
      modifies this`txPos, this`txLen, this`output, tty`outgoing, tty`put
      ensures Handled() && TxOk() && output + Owed() == old(output) + old(Owed())
      ensures Sent(old(output), output, old(tty.outgoing), tty.outgoing)
      ensures tty.put == old(tty.put) + [r] && (tty.ready ==> r > 0)
      ensures txLen == -1 <==> r == |old(Owed())|
      ensures txLen != -1 && r > 0 ==> txLen == old(txLen) && txPos > old(txPos)
      ensures r <= 0 ==> txLen == old(txLen) && txPos == old(txPos)
    {
      hide Serve, Frames;
      ghost var owed, was := Owed(), output;
      r := tty.Write(txBuffer[txPos..txLen]);
      if r >= 0 {
        Transfer(was, owed, r);
        output := was + owed[..r];
        txPos := txPos + r;
        if txPos == txLen {
          txLen := -1;
          assert owed[r..] == [];
        } else {
          assert Owed() == owed[r..];
        }
      } else {
        assert tty.outgoing == old(tty.outgoing) + [];
      }
    }

    /** process_output: it writes, and goes on exactly until the packet is out or a write takes nothing.
        With a ready device the packet is out. */
    method ProcessOutput(tty: Tty)
      requires Handled() && TxOk() && txLen != -1
      modifies this`txPos, this`txLen, this`output, tty`outgoing, tty`put
      ensures Handled() && TxOk() && output + Owed() == old(output) + old(Owed())
      ensures Sent(old(output), output, old(tty.outgoing), tty.outgoing)
      ensures old(tty.put) <= tty.put && UntilNone(tty.put, |old(tty.put)|, txLen == -1)
      ensures tty.ready ==> txLen == -1
    {
      hide Handled, Sent;
      SentNothing(output, tty.outgoing);
      ghost var n := |tty.put|;
      var r := 1;
      while r > 0 && txLen != -1
        invariant Handled() && TxOk() && output + Owed() == old(output) + old(Owed())
        invariant Sent(old(output), output, old(tty.outgoing), tty.outgoing)
        invariant old(tty.put) <= tty.put && n <= |tty.put|
        invariant forall i :: n <= i < |tty.put| - 1 ==> tty.put[i] > 0
        invariant |tty.put| == n ==> r > 0 && txLen != -1
        invariant |tty.put| > n ==> tty.put[|tty.put| - 1] == r && (tty.ready ==> r > 0)
        decreases txLen - txPos, r
      {
        ghost var was, sent := output, tty.outgoing;
        HandledTx();
        r := WriteOnce(tty);
        HandledTx();
        SentMore(old(output), was, output, old(tty.outgoing), sent, tty.outgoing);
      }
    }

    lemma HandledTx()
      requires Handled()
      ensures TxOk()
    {}

    /** One turn of service_loop after poll has returned without POLLHUP: input exactly if there is some
        and the transmitter is idle, then output exactly if there is some. */
    method ServiceTurn(tty: Tty, pollIn: bool) returns (ok: bool)
      requires Valid()
      modifies this, rxBuffer, txBuffer, readBuff, tty
      ensures Handled() && (form.Intended? ==> ok) && (ok ==> Valid())
      ensures old(input) <= input && old(tty.incoming) == input[|old(input)|..] + tty.incoming
      ensures Sent(old(output), output, old(tty.outgoing), tty.outgoing)
      ensures if pollIn && old(txLen) == -1
        then old(tty.got) <= tty.got && UntilNone(tty.got, |old(tty.got)|, !ok)
        else tty.got == old(tty.got) && input == old(input) && ok
      ensures ok && tty.ready && pollIn && old(txLen) == -1 ==> tty.incoming == [] || rxPos == 4096
      ensures tty.put == old(tty.put) ==> output == old(output) && (ok ==> txLen == -1)
      ensures tty.put != old(tty.put) ==>
        ok && old(tty.put) <= tty.put && UntilNone(tty.put, |old(tty.put)|, txLen == -1)
      ensures ok && tty.ready ==> txLen == -1
    {
      hide Handled, Reassembled;
      ok := true;
      SentNothing(output, tty.outgoing);
      if pollIn && txLen == -1 {
        ok := ProcessInput(tty);
      }
      HandledTx();
      if ok && txLen != -1 {
        ProcessOutput(tty);
      }
    }
  }

  /** The device has received exactly what the output has grown by. */
  predicate Sent(was: seq<Byte>, output: seq<Byte>, had: seq<Byte>, has: seq<Byte>) {
    was <= output && has == had + output[|was|..]
  }

  lemma SentNothing(output: seq<Byte>, had: seq<Byte>)
    ensures Sent(output, output, had, had)
  {}

  lemma SentMore(a: seq<Byte>, b: seq<Byte>, c: seq<Byte>, x: seq<Byte>, y: seq<Byte>, z: seq<Byte>)
    requires Sent(a, b, x, y) && Sent(b, c, y, z)
    ensures Sent(a, c, x, z)
  {
    assert c[|a|..] == b[|a|..] + c[|b|..];
  }

  lemma Splice<T>(was: seq<T>, data: seq<T>, before: nat, rest: seq<T>)
    requires before <= |was|
    ensures (was + data)[before..] + rest == was[before..] + (data + rest)
    ensures (was + data)[before..] == was[before..] + data
  {}

  lemma DecodeStep(held: seq<Byte>, done: seq<Packet>)
    ensures var e := Decode(held, NEED);
      if !Complete(held, NEED) then e == Decoded([], held) && done + e.packets == done
      else
        var f := Decode(held[FrameLen(held)..], NEED);
        done + e.packets == done + [FirstPacket(held)] + f.packets && e.rest == f.rest
    ensures Decode([], NEED) == Decoded([], []) && done + [] == done
  {}

  /** What is dispatched from any part of a stream of frames is a prefix of what was sent, and as
      long as no payload exceeds 4093 bytes there is always room to read on. */
  lemma ReassemblySafety(input: seq<Byte>, sent: seq<Packet>)
    requires AllSized(sent) && NoneEmpty(sent) && input <= Frames(sent)
    requires forall i :: 0 <= i < |sent| ==> |sent[i].payload| <= 4093
    ensures Decode(input, NEED).packets <= sent
    ensures |Decode(input, NEED).rest| < 4096
  {
    var t := DecodeRest(input, sent, NEED);
    var d := Decode(input, NEED);
    hide Decode, Frames;
    if |d.rest| >= NEED {
      NextHeader(d.rest, t, sent[|d.packets|..]);
    }
  }
}
