/**
 One bridged session: SSH input goes out as data frames over the WebSocket, remote output comes
 back into the SSH channel.  Each event of the bridge is a method; what the environment decides
 (buffer fill, write results, errors) is chosen by `if *`.  `Valid` is what every event keeps.
 */
module Bridge {
  import opened Basics
  import opened WireFrames
  import ExecCodec

  const WRITE_CHUNK: nat := 65536

  /** Input waiting to be sent: a text, how much of it has gone, and the raw bytes it accounts for. */
  datatype Item = Item(text: Text, offset: nat, rawBytes: nat, frame: Option<Frame>)

  /** A message that went over the WebSocket. */
  datatype Sent = Data(text: Text, from: nat, end: nat, message: Text, bytes: nat) | Resize(cols: nat, rows: nat) | Disconnect

  /** The incremental UTF-8 decoder: carried bytes and new bytes in, text and the length of the new carry out. */
  datatype Decoder = Decoder(write: (Bytes, Bytes) -> (Text, nat), end: Bytes -> Text)

  /** It consumes bytes exactly when it yields text. */
  ghost predicate DecoderOk(d: Decoder) {
    && (forall carry, data {:trigger d.write(carry, data)} ::
          d.write(carry, data).1 <= |carry| + |data| && (d.write(carry, data).0 == [] <==> d.write(carry, data).1 == |carry| + |data|))
    && (forall carry {:trigger d.end(carry)} :: d.end(carry) == [] <==> carry == [])
  }

  datatype Limits = Limits(maxPending: nat, maxWsBuffered: nat, maxQueuedOutput: nat)

  // ---- sums over the queues ----

  function RawBytes(pending: seq<Item>): nat {
    if pending == [] then 0 else pending[0].rawBytes + RawBytes(pending[1..])
  }

  function Remaining(item: Item): Text {
    if item.offset <= |item.text| then item.text[item.offset..] else []
  }

  /** The queued text that has not gone out. */
  function Unsent(pending: seq<Item>): Text {
    if pending == [] then [] else Remaining(pending[0]) + Unsent(pending[1..])
  }

  lemma QueueHead(item: Item, rest: seq<Item>)
    ensures Unsent([item] + rest) == Remaining(item) + Unsent(rest)
    ensures RawBytes([item] + rest) == item.rawBytes + RawBytes(rest)
  {
    assert ([item] + rest)[1..] == rest;
  }

  /** Moving an item's offset cuts a slice off the front of the unsent text. */
  lemma SliceMoves(item: Item, rest: seq<Item>, end: nat)
    requires item.offset <= end <= |item.text|
    ensures Unsent([item] + rest) == item.text[item.offset..end] + Unsent([item.(offset := end)] + rest)
    ensures end == |item.text| ==> Unsent([item.(offset := end)] + rest) == Unsent(rest)
  {
    hide Unsent, RawBytes;
    QueueHead(item, rest);
    QueueHead(item.(offset := end), rest);
    assert item.text[item.offset..] == item.text[item.offset..end] + item.text[end..];
    if end == |item.text| { assert Remaining(item.(offset := end)) == []; }
  }

  lemma {:induction false} UnsentAppend(pending: seq<Item>, item: Item)
    ensures Unsent(pending + [item]) == Unsent(pending) + Remaining(item)
  {
    hide Unsent, Remaining, RawBytes;
    if pending == [] {
      QueueHead(item, []);
      UnsentEmpty();
      assert pending + [item] == [item] + [];
    } else {
      UnsentAppend(pending[1..], item);
      QueueHead(pending[0], pending[1..]);
      QueueHead(pending[0], pending[1..] + [item]);
      HeadTail(pending, [item]);
      Assoc(Remaining(pending[0]), Unsent(pending[1..]), Remaining(item));
    }
  }

  lemma UnsentEmpty()
    ensures Unsent([]) == []
  {
  }

  lemma {:induction false} RawBytesAppend(pending: seq<Item>, item: Item)
    ensures RawBytes(pending + [item]) == RawBytes(pending) + item.rawBytes
  {
    if pending == [] {
      assert [item][1..] == [];
    } else {
      RawBytesAppend(pending[1..], item);
      assert (pending + [item])[0] == pending[0] && (pending + [item])[1..] == pending[1..] + [item];
    }
  }

  function SentSlice(sent: Sent): Text {
    if sent.Data? && sent.from <= sent.end <= |sent.text| then sent.text[sent.from..sent.end] else []
  }

  /** The text of all data frames, in order. */
  function SentText(wire: seq<Sent>): Text {
    if wire == [] then [] else SentText(wire[..|wire| - 1]) + SentSlice(wire[|wire| - 1])
  }

  /** Every data frame is a whole number of code points of its text, with its exact size, within the limit. */
  ghost predicate SentOk(sent: Sent, limit: nat) {
    sent.Data? ==>
      && sent.from < sent.end <= |sent.text|
      && Boundary(sent.text, sent.from) && Boundary(sent.text, sent.end)
      && sent.message == Message(sent.text[sent.from..sent.end])
      && sent.bytes == ByteLength(sent.message) <= limit
  }

  ghost predicate WireOk(wire: seq<Sent>, limit: nat) {
    && (forall i | 0 <= i < |wire| :: SentOk(wire[i], limit))
    // At most one disconnect, and no data behind it.
    && (forall i, j | 0 <= i < j < |wire| :: wire[i].Disconnect? ==> wire[j].Resize?)
  }

  lemma SentTextAppend(wire: seq<Sent>, sent: Sent)
    ensures SentText(wire + [sent]) == SentText(wire) + SentSlice(sent)
  {
    assert (wire + [sent])[..|wire|] == wire;
  }

  /** One more message on the wire. */
  lemma WireGrows(wire: seq<Sent>, sent: Sent, limit: nat)
    requires WireOk(wire, limit) && SentOk(sent, limit)
    requires sent.Resize? || forall i | 0 <= i < |wire| :: !wire[i].Disconnect?
    ensures WireOk(wire + [sent], limit)
    ensures SentText(wire + [sent]) == SentText(wire) + SentSlice(sent)
  {
    hide SentOk, SentSlice, SentText;
    SentTextAppend(wire, sent);
  }

  ghost predicate ItemOk(item: Item, limit: nat) {
    && item.offset < |item.text| && Boundary(item.text, item.offset)
    && (item.frame.Some? ==> FrameFor(item.frame.value, item.text, item.offset, limit))
  }

  /** The decoder folded over the input chunks: text so far and carried bytes. */
  function Decoded(d: Decoder, chunks: seq<Bytes>): (Text, Bytes) {
    if chunks == [] then ([], [])
    else
      var (text, carry) := Decoded(d, chunks[..|chunks| - 1]);
      var bytes := carry + chunks[|chunks| - 1];
      var (more, left) := d.write(carry, chunks[|chunks| - 1]);
      (text + more, if left <= |bytes| then bytes[|bytes| - left..] else [])
  }

  lemma FrameIsSendable(item: Item, frame: Frame, limit: nat)
    requires Boundary(item.text, item.offset) && FrameFor(frame, item.text, item.offset, limit)
    ensures SentOk(Data(item.text, item.offset, frame.end, frame.message, frame.bytes), limit)
    ensures item.offset < frame.end <= |item.text| && Boundary(item.text, frame.end)
  {
  }

  lemma DecodedGrows(d: Decoder, chunks: seq<Bytes>, data: Bytes)
    requires DecoderOk(d)
    ensures var (text, carry) := Decoded(d, chunks);
            var (more, left) := d.write(carry, data);
            left <= |carry| + |data| && (more == [] <==> left == |carry| + |data|) &&
            Decoded(d, chunks + [data]) == (text + more, (carry + data)[|carry| + |data| - left..])
  {
    assert (chunks + [data])[..|chunks|] == chunks;
  }

  class Session {
    const exec: bool
    const limits: Limits
    const decoder: Decoder
    const commandLine: Text     // the base64 command line of an exec session
    const commandBytes: nat

    // Input side.
    var pending: seq<Item>
    var pendingBytes: nat
    var carry: Bytes
    var ready: bool
    var remoteReady: bool
    var inputEnded: bool
    var disconnectSent: bool
    var eofDraining: bool
    var eofDisconnectDue: bool
    var pendingResize: Option<(nat, nat)>
    var channelPaused: bool
    var socketOpen: bool
    var pollArmed: bool            // a timer will try again to send
    var bytesSent: nat
    var wire: seq<Sent>

    // Output side.
    var output: seq<Bytes>
    var outputBytes: nat
    var waitingDrain: bool
    var drainArmed: bool
    var closed: bool
    var finished: bool
    var finishCode: Option<nat>
    var bytesReceived: nat
    var written: seq<Bytes>
    var exits: seq<nat>

    ghost var startup: Text            // queued before any input
    ghost var chunks: seq<Bytes>       // SSH input accepted so far
    ghost var commands: nat            // command lines queued by the exec parser
    ghost var accepted: nat            // raw input bytes accepted so far
    ghost var received: Bytes          // remote output accepted so far
    ghost var firstCode: Option<nat>   // the first completion code
    ghost var deadlineFired: bool

    function FrameLimit(): nat { Min(limits.maxWsBuffered, WRITE_CHUNK) }

    ghost predicate Live() reads this`closed, this`finishCode { !closed && finishCode.None? }

    /** Everything ever queued for the remote side. */
    ghost function Queued(): Text reads this`startup, this`chunks, this`commands, this`inputEnded {
      startup
      + (if exec then Repeat(commandLine, commands) else Decoded(decoder, chunks).0)
      + (if inputEnded && !exec then decoder.end(Decoded(decoder, chunks).1) else [])
    }

    /** What holds of the wire in every run, dead or alive. */
    ghost predicate WireInv()
      reads this`wire, this`ready, this`remoteReady, this`inputEnded, this`carry, this`chunks, this`accepted, this`startup, this`commands
    {
      && DecoderOk(decoder) && commandLine != []
      && WireOk(wire, FrameLimit())
      && (forall i | 0 <= i < |wire| :: wire[i].Data? ==> ready && remoteReady)
      && (forall i | 0 <= i < |wire| :: wire[i].Disconnect? ==> inputEnded && !exec)
      && carry == (if exec then [] else Decoded(decoder, chunks).1)
      && (!exec ==> accepted == |Flatten(chunks)|)
      && SentText(wire) <= Queued()
    }

    /** What holds of the input queue while the bridge is live: nothing is lost, and every raw byte is accounted for. */
    ghost predicate QueueInv()
      requires WireInv()
      reads this`wire, this`ready, this`remoteReady, this`inputEnded, this`carry, this`chunks, this`accepted, this`startup, this`commands
      reads this`pending, this`pendingBytes, this`bytesSent, this`disconnectSent
    {
      && (forall i | 0 <= i < |pending| :: ItemOk(pending[i], FrameLimit()))
      && SentText(wire) + Unsent(pending) == Queued()
      && (disconnectSent ==> pending == [] && inputEnded && !exec)
      && (forall i | 0 <= i < |wire| :: wire[i].Disconnect? ==> disconnectSent)
      && pendingBytes == RawBytes(pending) + (if inputEnded then 0 else |carry|)
      && bytesSent + pendingBytes == accepted
      && (!exec ==> pendingBytes <= limits.maxPending)
    }

    /** What holds of the output queue until the channel is closed. */
    ghost predicate OutputInv()
      reads this`output, this`outputBytes, this`written, this`received
    {
      && outputBytes == |Flatten(output)| <= limits.maxQueuedOutput
      && Flatten(written) + Flatten(output) == received
    }

    /** How a session ends: the first code, once, after all output, unless the drain deadline fires. */
    ghost predicate EndInv()
      reads this`output, this`written, this`received, this`closed, this`finishCode, this`finished, this`waitingDrain, this`drainArmed
      reads this`exits, this`firstCode, this`deadlineFired, this`bytesReceived
    {
      && bytesReceived == |received| && Flatten(written) <= received
      && (finished ==> finishCode.Some? && !waitingDrain && Flatten(written) == received && (!closed ==> output == []))
      && (drainArmed ==> waitingDrain && !closed)
      && |exits| <= 1
      && (if deadlineFired then closed && finishCode == Some(125) && (exits != [] ==> exits[0] == 125)
          else finishCode == firstCode && (exits != [] ==> finished && Some(exits[0]) == firstCode))
    }

    /** Nothing that could be sent is forgotten: it is gone, or a timer is armed that sends it. */
    ghost predicate NoStall()
      reads this`closed, this`finishCode, this`ready, this`remoteReady, this`socketOpen, this`pollArmed, this`pending, this`pendingResize
      reads this`inputEnded, this`disconnectSent, this`eofDraining, this`eofDisconnectDue
    {
      Live() && ready && remoteReady && socketOpen && !pollArmed ==>
        pending == [] && pendingResize.None? && (!exec && inputEnded && !disconnectSent ==> eofDraining && !eofDisconnectDue)
    }

    ghost predicate Valid() reads this {
      WireInv() && (Live() ==> QueueInv()) && (!closed ==> OutputInv()) && EndInv()
    }

    constructor (exec: bool, limits: Limits, decoder: Decoder, startup: Text, commandLine: Text, commandBytes: nat)
      requires DecoderOk(decoder) && commandLine != []
      ensures Valid() && Live() && NoStall() && wire == [] && exits == [] && Queued() == startup
      ensures this.exec == exec && this.limits == limits && this.decoder == decoder
    {
      this.exec, this.limits, this.decoder, this.commandLine, this.commandBytes := exec, limits, decoder, commandLine, commandBytes;
      pending := if startup == [] then [] else [Item(startup, 0, 0, None)];
      pendingBytes, carry, ready, remoteReady, inputEnded := 0, [], false, false, false;
      disconnectSent, eofDraining, eofDisconnectDue, pendingResize, channelPaused := false, false, false, None, false;
      socketOpen, pollArmed := false, false;
      bytesSent, wire, output, outputBytes, waitingDrain, drainArmed := 0, [], [], 0, false, false;
      closed, finished, finishCode, bytesReceived, written, exits := false, false, None, 0, [], [];
      this.startup, chunks, commands, accepted, received, firstCode, deadlineFired := startup, [], 0, 0, [], None, false;
      new;
      hide FrameFor, SentOk, Repeat, Boundary;
      assert Queued() == startup by { assert Decoded(decoder, chunks) == ([], []); }
      assert Unsent(pending) == startup && RawBytes(pending) == 0;
      hide Decoded, Unsent, RawBytes, Queued;
      assert SentText(wire) + Unsent(pending) == Queued();
    }

    /** Nothing new was accepted in either direction. */
    twostate predicate NothingAccepted() reads this {
      && chunks == old(chunks) && commands == old(commands) && accepted == old(accepted) && received == old(received)
      && startup == old(startup) && inputEnded == old(inputEnded) && ready == old(ready) && remoteReady == old(remoteReady)
      && socketOpen == old(socketOpen)
    }

    /** The input side is as it was. */
    twostate predicate InputSame()
      reads this`ready, this`remoteReady, this`socketOpen, this`pollArmed, this`pending, this`pendingResize, this`inputEnded
      reads this`disconnectSent, this`eofDraining, this`eofDisconnectDue
    {
      && ready == old(ready) && remoteReady == old(remoteReady) && socketOpen == old(socketOpen) && pollArmed == old(pollArmed)
      && pending == old(pending) && pendingResize == old(pendingResize) && inputEnded == old(inputEnded)
      && disconnectSent == old(disconnectSent) && eofDraining == old(eofDraining) && eofDisconnectDue == old(eofDisconnectDue)
    }

    // ---- output ----

    method Cleanup()
      requires WireInv() && (Live() ==> QueueInv()) && EndInv()
      modifies this`closed, this`drainArmed, this`pending, this`output
      ensures Valid() && closed
    {
      hide WireInv, QueueInv, OutputInv;
      if closed { return; }
      closed, drainArmed, pending, output := true, false, [], [];
    }

    /** Writes the oldest chunk into the channel. */
    method WriteOne() returns (more: bool)
      requires Valid() && !closed && !waitingDrain && !finished && output != []
      modifies this`closed, this`drainArmed, this`pending, this`output, this`outputBytes, this`waitingDrain, this`written
      ensures Valid() && !finished
      ensures !closed ==> pending == old(pending)
      ensures if more then !closed && !waitingDrain && |output| < |old(output)| else closed || waitingDrain
    {
      hide WireInv, QueueInv, Flatten;
      more := false;
      var chunk := TakeChunk();
      if * { Cleanup(); return; }
      FlattenAppend(written, [chunk]);
      FlattenOne(chunk);
      written := written + [chunk];
      if * {
        AwaitDrain();
        return;
      }
      more := true;
    }

    method TakeChunk() returns (chunk: Bytes)
      requires output != [] && outputBytes == |Flatten(output)|
      modifies this`output, this`outputBytes
      ensures old(output) == [chunk] + output && Flatten(old(output)) == chunk + Flatten(output) && outputBytes == |Flatten(output)|
    {
      FlattenHead(output);
      hide Flatten;
      chunk := output[0];
      output, outputBytes := output[1..], outputBytes - |chunk|;
    }

    method AwaitDrain()
      modifies this`waitingDrain, this`drainArmed
      ensures waitingDrain && drainArmed
    {
      waitingDrain, drainArmed := true, true;
    }

    /** All output is in the channel: the exit status follows it. */
    method SendExit()
      requires Valid() && !closed && !waitingDrain && !finished && output == [] && finishCode.Some?
      modifies this`closed, this`drainArmed, this`pending, this`output, this`finished, this`exits
      ensures Valid() && (closed || (finished && output == []))
    {
      hide WireInv, QueueInv, Flatten;
      FlattenHead(output);
      finished := true;
      if * { Cleanup(); return; }
      exits := exits + [finishCode.value];
      if * { Cleanup(); }
    }

    method FlushOutput()
      requires Valid()
      modifies this`closed, this`drainArmed, this`pending, this`output, this`outputBytes, this`waitingDrain, this`finished
      modifies this`written, this`exits
      ensures Valid() && (old(closed) ==> closed)
      ensures old(finishCode).None? && !closed ==> pending == old(pending)
      ensures closed || waitingDrain || (output == [] && (finishCode.Some? ==> finished))
    {
      hide WireInv, QueueInv, EndInv;
      if closed || waitingDrain || finished {
        if !closed && finished { FinishedIsEmpty(); }
        return;
      }
      hide OutputInv;
      while output != []
        invariant Valid() && !closed && !waitingDrain && !finished && pending == old(pending)
        decreases |output|
      {
        var more := WriteOne();
        if !more { return; }
      }
      if finishCode.Some? { SendExit(); }
    }

    lemma FinishedIsEmpty()
      requires Valid() && finished && !closed
      ensures output == [] && finishCode.Some?
    {
    }

    method OnDrain()
      requires Valid() && NoStall()
      modifies this
      ensures Valid() && NoStall() && finishCode == old(finishCode)
      ensures !old(closed) && old(waitingDrain) && old(finishCode).Some? ==> closed || waitingDrain || (output == [] && finished)
    {
      hide WireInv, QueueInv, OutputInv;
      if closed || !waitingDrain { return; }
      waitingDrain, drainArmed := false, false;
      FlushOutput();
    }

    /** The peer never drained: exit 125 whatever code was chosen before. */
    method OnDrainDeadline()
      requires Valid() && NoStall()
      modifies this
      ensures Valid() && NoStall()
      ensures if old(drainArmed) then closed && finishCode == Some(125) && deadlineFired
              else closed == old(closed) && finishCode == old(finishCode) && deadlineFired == old(deadlineFired) && exits == old(exits)
    {
      hide WireInv, QueueInv, OutputInv, EndInv, NoStall;
      if !drainArmed { return; }
      EndWithTimeout();
      CloseChannel();
      DeadlineEnds();
      ClosedIsQuiet();
    }

    /** The code becomes 125, and is sent if the channel still takes it. */
    method EndWithTimeout()
      modifies this`drainArmed, this`deadlineFired, this`finishCode, this`exits
      ensures !drainArmed && deadlineFired && finishCode == Some(125) && (exits == old(exits) || exits == old(exits) + [125])
    {
      drainArmed, deadlineFired, finishCode := false, true, Some(125);
      if * { exits := exits + [125]; }
    }

    method CloseChannel()
      modifies this`closed, this`pending, this`output
      ensures closed && pending == [] && output == []
    {
      closed, pending, output := true, [], [];
    }

    lemma ClosedIsQuiet()
      requires closed
      ensures NoStall()
    {
    }

    /** The deadline comes before the session has finished, so nothing was sent behind the output. */
    twostate lemma DeadlineEnds()
      requires old(EndInv()) && old(drainArmed)
      requires written == old(written) && received == old(received) && bytesReceived == old(bytesReceived) && waitingDrain == old(waitingDrain)
      requires finished == old(finished) && !drainArmed && deadlineFired && closed && finishCode == Some(125)
      requires exits == old(exits) || exits == old(exits) + [125]
      ensures EndInv()
    {
      hide Flatten;
    }

    /** The first completion decides the exit code. */
    method Complete(code: nat)
      requires WireInv() && (!closed ==> OutputInv()) && EndInv()
      modifies this
      ensures NothingAccepted()
      ensures Valid() && !Live()
      ensures finishCode == (if old(Live()) then Some(code) else old(finishCode))
      ensures firstCode == (if old(Live()) then Some(code) else old(firstCode))
      ensures old(Live()) ==> closed || waitingDrain || finished
    {
      hide WireInv, QueueInv, OutputInv;
      if closed || finishCode.Some? { return; }
      finishCode, firstCode, pending, pendingBytes := Some(code), Some(code), [], 0;
      FlushOutput();
    }

    method QueueOutput(buffer: Bytes)
      requires Valid()
      modifies this
      ensures Valid()
      ensures old(Live()) && old(outputBytes) + |buffer| <= limits.maxQueuedOutput ==>
                received == old(received) + buffer && bytesReceived == old(bytesReceived) + |buffer| && finishCode == old(finishCode)
      ensures old(Live()) && old(outputBytes) + |buffer| > limits.maxQueuedOutput ==> finishCode == Some(125) && received == old(received)
      ensures !old(Live()) ==> received == old(received) && !Live()
      ensures Live() ==> InputSame()
    {
      hide WireInv, QueueInv, Flatten;
      if closed || finishCode.Some? { return; }
      if outputBytes + |buffer| > limits.maxQueuedOutput { Complete(125); return; }
      AppendOutput(buffer);
      FlushOutput();
    }

    /** The buffer in chunks behind the queue, and counted. */
    method AppendOutput(buffer: Bytes)
      modifies this`output, this`outputBytes, this`bytesReceived, this`received
      ensures Flatten(output) == old(Flatten(output)) + buffer && outputBytes == old(outputBytes) + |buffer|
      ensures received == old(received) + buffer && bytesReceived == old(bytesReceived) + |buffer|
    {
      hide Flatten;
      bytesReceived, received := bytesReceived + |buffer|, received + buffer;
      var offset := 0;
      ghost var before := output;
      while offset < |buffer|
        invariant offset <= |buffer|
        invariant Flatten(output) == Flatten(before) + buffer[..offset]
        modifies this`output
      {
        var end := Min(offset + WRITE_CHUNK, |buffer|);
        FlattenAppend(output, [buffer[offset..end]]);
        FlattenOne(buffer[offset..end]);
        assert buffer[..end] == buffer[..offset] + buffer[offset..end];
        output, offset := output + [buffer[offset..end]], end;
      }
      assert buffer[..offset] == buffer;
      outputBytes := outputBytes + |buffer|;
    }

    // ---- input ----

    method PauseInput()
      requires Valid()
      modifies this`channelPaused
      ensures Valid()
    {
      hide WireInv, QueueInv, OutputInv, EndInv;
      if !exec { channelPaused := true; }
    }

    method ResumeInput()
      requires Valid()
      modifies this`channelPaused
      ensures Valid()
    {
      hide WireInv, QueueInv, OutputInv, EndInv;
      if channelPaused && !closed && !inputEnded { channelPaused := false; }
    }

    /** Cuts the frame of the oldest item, unless it is kept from a failed attempt. */
    method CutFrame() returns (frame: Option<Frame>)
      requires Valid() && Live() && pending != []
      modifies this`pending
      ensures Valid() && pending != [] && pending[0].text == old(pending[0].text) && pending[0].offset == old(pending[0].offset)
      ensures frame == pending[0].frame
      ensures Unsent(pending) == old(Unsent(pending))
    {
      hide WireInv, OutputInv, EndInv, FrameFor, Unsent, RawBytes, Queued, Boundary, SentText, Message, ByteLength;
      var item, rest := pending[0], pending[1..];
      frame := item.frame;
      if frame.None? {
        frame := NextDataFrame(item.text, item.offset, FrameLimit());
        assert pending == [item] + rest;
        QueueHead(item, rest);
        QueueHead(item.(frame := frame), rest);
        pending := [item.(frame := frame)] + rest;
      }
    }

    /** The frame has gone: the item shrinks, or leaves the queue with its raw bytes. */
    method Advance(item: Item, rest: seq<Item>, end: nat)
      requires pending == [item] + rest && item.offset < end <= |item.text| && Boundary(item.text, end)
      requires forall i | 0 <= i < |rest| :: ItemOk(rest[i], FrameLimit())
      requires pendingBytes >= RawBytes(pending)
      modifies this`pending, this`pendingBytes, this`bytesSent
      ensures forall i | 0 <= i < |pending| :: ItemOk(pending[i], FrameLimit())
      ensures Unsent(pending) == Unsent([item.(offset := end)] + rest)
      ensures bytesSent + pendingBytes == old(bytesSent + pendingBytes) && pendingBytes <= old(pendingBytes)
      ensures pendingBytes - RawBytes(pending) == old(pendingBytes - RawBytes(pending))
    {
      hide FrameFor, Unsent, RawBytes, Boundary, Remaining;
      QueueHead(item, rest);
      SliceMoves(item, rest, end);
      if end == |item.text| {
        pending := rest;
        pendingBytes, bytesSent := pendingBytes - item.rawBytes, bytesSent + item.rawBytes;
      } else {
        pending := [item.(frame := None, offset := end)] + rest;
        QueueHead(item.(frame := None, offset := end), rest);
        QueueHead(item.(offset := end), rest);
        SameRemaining(item, end);
      }
    }

    lemma SameRemaining(item: Item, end: nat)
      ensures Remaining(item.(frame := None, offset := end)) == Remaining(item.(offset := end))
    {
    }

    /** No room now: a timer will try again. */
    method WaitForRoom()
      requires Valid()
      modifies this`channelPaused, this`pollArmed
      ensures Valid() && pollArmed
    {
      hide WireInv, QueueInv, OutputInv, EndInv;
      PauseInput();
      pollArmed := true;
    }

    /** Sends one frame of the oldest item; says whether the flush may go on. */
    method SendFront() returns (again: bool)
      requires Valid() && Live() && pending != [] && ready && remoteReady
      modifies this
      ensures NothingAccepted()
      ensures Valid()
      ensures again ==> Live() && ready && remoteReady && |Unsent(pending)| < |old(Unsent(pending))|
      ensures !again && Live() ==> pollArmed
    {
      hide WireInv, QueueInv, OutputInv, EndInv, Unsent, RawBytes, Queued, SentText, FrameFor;
      var frame := CutFrame();
      if frame.None? {
        Complete(1);
        return false;
      }
      if * {
        WaitForRoom();
        return false;
      }
      if * {
        Complete(255);
        return false;
      }
      again := SendFrame(frame.value);
    }

    /** The frame goes out; the socket may fail behind it. */
    method SendFrame(frame: Frame) returns (again: bool)
      requires Valid() && Live() && pending != [] && ready && remoteReady && pending[0].frame == Some(frame)
      modifies this
      ensures NothingAccepted()
      ensures Valid() && again == Live()
      ensures again ==> ready && remoteReady && |Unsent(pending)| < |old(Unsent(pending))|
    {
      hide WireInv, OutputInv, EndInv, Unsent, RawBytes, Queued, Boundary, SentText, FrameFor, SentOk;
      var item, rest, end := pending[0], pending[1..], frame.end;
      assert pending == [item] + rest;
      var sent := Data(item.text, item.offset, end, frame.message, frame.bytes);
      FrameIsSendable(item, frame, FrameLimit());
      SliceMoves(item, rest, end);
      Transmit(sent, Unsent([item.(offset := end)] + rest));
      if * {
        Complete(255);
        return false;
      }
      Advance(item, rest, end);
      return true;
    }

    /** The message is on the wire. */
    method Transmit(sent: Sent, ghost left: Text)
      requires WireInv() && SentOk(sent, FrameLimit())
      requires sent.Data? ==> ready && remoteReady
      requires sent.Disconnect? ==> inputEnded && !exec
      requires sent.Resize? || forall i | 0 <= i < |wire| :: !wire[i].Disconnect?
      requires SentText(wire) + (SentSlice(sent) + left) == Queued()
      modifies this`wire
      ensures WireInv() && wire == old(wire) + [sent] && SentText(wire) + left == Queued()
    {
      hide SentText, Queued, SentOk, SentSlice, Decoded, DecoderOk;
      WireGrows(wire, sent, FrameLimit());
      wire := wire + [sent];
    }

    /** Sends a control message: refused for lack of room, failed, or sent. */
    method SendControl(message: Sent) returns (sent: bool)
      requires Valid() && Live() && !message.Data?
      requires message.Disconnect? ==> pending == [] && inputEnded && !exec && !disconnectSent
      modifies this
      ensures NothingAccepted()
      ensures !sent ==> Valid()
      ensures sent ==> Live() && WireInv() && OutputInv() && EndInv() && wire == old(wire) + [message]
      ensures sent ==> SentText(wire) + Unsent(pending) == Queued()
      ensures sent ==> pending == old(pending) && pendingBytes == old(pendingBytes) && bytesSent == old(bytesSent)
      ensures sent ==> accepted == old(accepted) && carry == old(carry) && inputEnded == old(inputEnded) && disconnectSent == old(disconnectSent)
      ensures sent ==> pendingResize == old(pendingResize) && eofDraining == old(eofDraining) && eofDisconnectDue == old(eofDisconnectDue)
      ensures !sent && Live() ==> pollArmed
    {
      hide WireInv, OutputInv, EndInv, Unsent, RawBytes, Queued, SentText;
      sent := false;
      if * {
        pollArmed := true;
        return;
      }
      if * { Complete(255); return; }
      assert SentSlice(message) + Unsent(pending) == Unsent(pending);
      Transmit(message, Unsent(pending));
      if * { Complete(255); return; }
      sent := true;
    }

    method SendQueue() returns (done: bool)
      requires Valid() && Live() && ready && remoteReady
      modifies this
      ensures NothingAccepted()
      ensures Valid() && (done ==> Live() && ready && remoteReady && pending == [])
      ensures !done && Live() ==> pollArmed
    {
      hide WireInv, QueueInv, OutputInv, EndInv, Unsent;
      while pending != []
        invariant Valid() && Live() && ready && remoteReady && NothingAccepted()
        decreases |Unsent(pending)|
      {
        var again := SendFront();
        if !again { return false; }
      }
      return true;
    }

    /** The latest terminal size, if one is waiting. */
    method SendResize() returns (done: bool)
      requires Valid() && Live() && pending == []
      modifies this
      ensures NothingAccepted()
      ensures Valid() && (done ==> Live() && pending == [] && pendingResize.None?)
      ensures !done && Live() ==> pollArmed
    {
      hide WireInv, OutputInv, EndInv, Unsent, RawBytes, Queued, SentText;
      if pendingResize.None? { return true; }
      if * { Complete(1); return false; }
      var sent := SendControl(Resize(pendingResize.value.0, pendingResize.value.1));
      if !sent { return false; }
      pendingResize := None;
      return true;
    }

    /** The disconnect, once input has ended and the grace period is over. */
    method SendDisconnect()
      requires Valid() && Live() && pending == [] && pendingResize.None? && !exec && inputEnded && !disconnectSent
      modifies this
      ensures NothingAccepted()
      ensures Valid() && NoStall()
    {
      hide WireInv, OutputInv, EndInv, Unsent, RawBytes, Queued, SentText;
      eofDraining := true;
      if !eofDisconnectDue { return; }
      if * { Complete(1); return; }
      var sent := SendControl(Disconnect);
      if sent { disconnectSent := true; }
    }

    /** Sends all that may be sent: queued input, the latest size, and after the EOF grace the disconnect. */
    method FlushInput()
      requires Valid()
      modifies this
      ensures NothingAccepted()
      ensures Valid() && NoStall()
    {
      hide WireInv, QueueInv, OutputInv, EndInv;
      if closed || finishCode.Some? || !ready || !remoteReady || !socketOpen { return; }
      var done := SendQueue();
      if !done { return; }
      done := SendResize();
      if !done { return; }
      ResumeInput();
      if !exec && inputEnded && !disconnectSent { SendDisconnect(); }
    }

    // ---- events ----

    /** Appends decoded text; text without bytes or bytes without text cannot happen. */
    method Enqueue(text: Text, rawBytes: nat)
      modifies this`pending
      ensures text == [] ==> pending == old(pending)
      ensures text != [] ==> pending == old(pending) + [Item(text, 0, rawBytes, None)]
    {
      if text != [] { pending := pending + [Item(text, 0, rawBytes, None)]; }
    }

    /** The queue's part of QueueInv after text and raw bytes were appended together. */
    lemma QueueGrows(before: seq<Item>, text: Text, rawBytes: nat)
      requires forall i | 0 <= i < |before| :: ItemOk(before[i], FrameLimit())
      requires text == [] ==> rawBytes == 0
      ensures var after := if text == [] then before else before + [Item(text, 0, rawBytes, None)];
              && (forall i | 0 <= i < |after| :: ItemOk(after[i], FrameLimit()))
              && Unsent(after) == Unsent(before) + text && RawBytes(after) == RawBytes(before) + rawBytes
    {
      hide FrameFor;
      if text == [] {
        assert Unsent(before) + text == Unsent(before);
      } else {
        var item := Item(text, 0, rawBytes, None);
        UnsentAppend(before, item);
        RawBytesAppend(before, item);
      }
    }

    /** SSH input: counted, decoded, queued. */
    method OnInput(data: Bytes)
      requires Valid() && NoStall()
      modifies this
      ensures Valid() && NoStall()
      ensures old(Live()) && 0 < |data| && exec ==> finishCode == Some(1) && chunks == old(chunks)
      ensures old(Live()) && 0 < |data| && !exec && !old(inputEnded) && old(pendingBytes) + |data| > limits.maxPending ==>
                finishCode == Some(1) && chunks == old(chunks)
      ensures old(Live()) && !exec && !old(inputEnded) && 0 < |data| && old(pendingBytes) + |data| <= limits.maxPending ==>
                chunks == old(chunks) + [data]
    {
      hide WireInv, QueueInv, OutputInv, EndInv;
      if closed || finishCode.Some? || |data| == 0 { return; }
      if exec { Complete(1); return; }
      if inputEnded { return; }
      if pendingBytes + |data| > limits.maxPending { Complete(1); return; }
      Take(data);
      if !ready || !remoteReady { PauseInput(); }
      FlushInput();
    }

    /** Decodes one chunk; the raw bytes of the text are the new bytes plus what the carry gave up. */
    method Absorb(data: Bytes) returns (text: Text, rawBytes: nat)
      requires WireInv() && !exec && !inputEnded
      modifies this`carry, this`chunks, this`accepted
      ensures WireInv() && Queued() == old(Queued()) + text
      ensures chunks == old(chunks) + [data] && accepted == old(accepted) + |data|
      ensures |carry| + rawBytes == old(|carry|) + |data| && (text == [] ==> rawBytes == 0)
    {
      hide SentText, WireOk, Flatten, Decoded, DecoderOk;
      var bytes := carry + data;
      var (more, left) := decoder.write(carry, data);
      DecodedGrows(decoder, chunks, data);
      FlattenAppend(chunks, [data]);
      FlattenOne(data);
      ghost var was := Queued();
      text, rawBytes := more, |bytes| - left;
      carry := bytes[|bytes| - left..];
      chunks, accepted := chunks + [data], accepted + |data|;
      assert Queued() == was + text;
    }

    method Take(data: Bytes)
      requires Valid() && Live() && !exec && !inputEnded && 0 < |data| && pendingBytes + |data| <= limits.maxPending
      modifies this`pendingBytes, this`carry, this`pending, this`chunks, this`accepted
      ensures Valid() && chunks == old(chunks) + [data]
    {
      hide WireInv, OutputInv, EndInv, Unsent, RawBytes, SentText, ItemOk, Queued, Flatten;
      ghost var queue := pending;
      pendingBytes := pendingBytes + |data|;
      var text, rawBytes := Absorb(data);
      QueueGrows(queue, text, rawBytes);
      Enqueue(text, rawBytes);
      Assoc(SentText(wire), Unsent(queue), text);
      assert SentText(wire) + Unsent(pending) == Queued();
    }

    /** SSH EOF: the decoder gives up its carry; an exec command is not cancelled by it. */
    method OnInputEnd()
      requires Valid() && NoStall()
      modifies this
      ensures Valid() && NoStall() && inputEnded == (old(inputEnded) || !old(closed)) && chunks == old(chunks)
    {
      hide WireInv, QueueInv, OutputInv, EndInv;
      if inputEnded || closed { return; }
      EndInput();
      if exec { return; }
      FlushInput();
    }

    method EndInput()
      requires Valid() && !inputEnded && !closed
      modifies this`inputEnded, this`pending
      ensures Valid() && inputEnded && (exec ==> pending == old(pending))
    {
      hide WireInv, OutputInv, EndInv, Unsent, RawBytes, SentText, ItemOk, Queued;
      var text := CloseDecoder();
      if exec { return; }
      if finishCode.None? { QueueGrows(pending, text, |carry|); }
      Enqueue(text, |carry|);
    }

    method CloseDecoder() returns (text: Text)
      requires WireInv() && !inputEnded
      modifies this`inputEnded
      ensures WireInv() && inputEnded && Queued() == old(Queued()) + text
      ensures if exec then text == [] && carry == [] else text == [] <==> carry == []
    {
      hide SentText, WireOk, Flatten, Decoded;
      ghost var was := Queued();
      inputEnded := true;
      text := if exec then [] else decoder.end(carry);
      assert Queued() == was + text;
    }

    method OnOpen()
      requires Valid() && NoStall()
      modifies this
      ensures Valid() && NoStall() && (old(Live()) ==> ready && socketOpen)
    {
      hide OutputInv, EndInv, SentText, Queued, WireOk, Unsent, RawBytes, ItemOk, Decoded, DecoderOk, Flatten;
      if closed || finishCode.Some? { return; }
      ready, socketOpen := true, true;
      if * { pendingResize := Some((80, 24)); }
      FlushInput();
    }

    /** The first data message opens the input gate. */
    method OpenGate()
      requires Valid() && NoStall()
      modifies this
      ensures Valid() && NoStall() && remoteReady
      ensures chunks == old(chunks) && received == old(received)
    {
      hide OutputInv, EndInv, SentText, Queued, WireOk, Unsent, RawBytes, ItemOk, Decoded, DecoderOk, Flatten;
      if remoteReady { return; }
      remoteReady := true;
      FlushInput();
    }

    /** Remote output of a shell session. */
    method OnData(payload: Bytes)
      requires Valid() && NoStall() && !exec
      modifies this
      ensures Valid() && NoStall()
      ensures received == old(received) || received == old(received) + payload
      ensures Live() ==> remoteReady && received == old(received) + payload
    {
      hide WireInv, QueueInv, OutputInv, EndInv;
      if closed || finishCode.Some? { return; }
      OpenGate();
      QueueOutput(payload);
    }

    /** Remote output of an exec session: the parser's callbacks, then perhaps its failure. */
    method OnExecData(callbacks: seq<ExecCodec.Event>, failed: Option<ExecCodec.Error>)
      requires Valid() && NoStall() && exec
      modifies this
      ensures Valid() && NoStall()
      ensures Live() ==> received == old(received) + OutputOf(callbacks) && failed.None?
    {
      hide WireInv, QueueInv, OutputInv, EndInv;
      if closed || finishCode.Some? { return; }
      OpenGate();
      for i := 0 to |callbacks|
        invariant Valid() && NoStall()
        invariant Live() ==> received == old(received) + OutputOf(callbacks[..i])
      {
        assert callbacks[..i + 1][..i] == callbacks[..i];
        match callbacks[i] {
          case OnReady => OnExecReady();
          case OnStart =>
          case OnOutput(bytes) => QueueOutput(bytes);
          case OnComplete(code) => Complete(code);
        }
      }
      assert callbacks[..|callbacks|] == callbacks;
      if failed.Some? { Complete(if failed.value == ExecCodec.OutputLimit then 125 else 1); }
    }

    /** The far end asks for the command. */
    method OnExecReady()
      requires Valid() && NoStall() && exec
      modifies this
      ensures Valid() && NoStall() && received == old(received) && (!old(Live()) ==> !Live())
      ensures old(Live()) ==> commands == old(commands) + 1
    {
      hide WireInv, QueueInv, OutputInv, EndInv;
      if closed || finishCode.Some? { return; }
      QueueCommand();
      FlushInput();
    }

    method QueueCommand()
      requires Valid() && Live() && exec
      modifies this`pendingBytes, this`pending, this`commands, this`accepted
      ensures Valid() && commands == old(commands) + 1
    {
      hide WireInv, OutputInv, EndInv, Unsent, RawBytes, SentText, ItemOk, Queued, Flatten, Decoded, WireOk, Repeat;
      AppendCommand();
      QueueGrows(old(pending), commandLine, commandBytes);
    }

    method AppendCommand()
      requires WireInv() && exec
      modifies this`pendingBytes, this`pending, this`commands, this`accepted
      ensures WireInv() && commandLine != [] && commands == old(commands) + 1 && accepted == old(accepted) + commandBytes
      ensures pendingBytes == old(pendingBytes) + commandBytes && pending == old(pending) + [Item(commandLine, 0, commandBytes, None)]
      ensures Queued() == old(Queued()) + commandLine
    {
      hide WireInv, Queued;
      CountCommand();
      Enqueue(commandLine, commandBytes);
    }

    method CountCommand()
      requires WireInv() && exec
      modifies this`commands, this`accepted, this`pendingBytes
      ensures WireInv() && commandLine != [] && commands == old(commands) + 1 && accepted == old(accepted) + commandBytes
      ensures pendingBytes == old(pendingBytes) + commandBytes
      ensures Queued() == old(Queued()) + commandLine
    {
      hide SentText, WireOk, Flatten, Decoded, DecoderOk;
      ghost var was := Queued();
      commands, accepted, pendingBytes := commands + 1, accepted + commandBytes, pendingBytes + commandBytes;
      assert Queued() == was + commandLine;
    }

    method OnResize(cols: nat, rows: nat)
      requires Valid() && NoStall()
      modifies this`pendingResize, this`pollArmed
      ensures Valid() && NoStall()
      ensures pendingResize == if Live() then Some((cols, rows)) else old(pendingResize)
    {
      hide WireInv, QueueInv, OutputInv, EndInv;
      if closed || finishCode.Some? { return; }
      pendingResize := Some((cols, rows));
      if ready && remoteReady { pollArmed := true; }
    }

    /** The socket is closing; its close event is still to come. */
    method OnSocketClosing()
      requires Valid() && NoStall()
      modifies this`socketOpen
      ensures Valid() && NoStall() && !socketOpen
    {
      hide WireInv, QueueInv, OutputInv, EndInv;
      socketOpen := false;
    }

    /** A poll timer, after backpressure or a resize. */
    method OnPoll()
      requires Valid() && NoStall()
      modifies this
      ensures Valid() && NoStall()
    {
      hide WireInv, QueueInv, OutputInv, EndInv;
      if !pollArmed { return; }
      pollArmed := false;
      FlushInput();
    }

    /** The EOF grace period is over, by silence or by deadline. */
    method OnEofTimer()
      requires Valid() && NoStall()
      modifies this
      ensures Valid() && NoStall()
    {
      hide WireInv, QueueInv, OutputInv, EndInv;
      if !eofDraining || closed || finishCode.Some? || disconnectSent { return; }
      eofDisconnectDue := true;
      FlushInput();
    }

    /** The channel closed, or a forced close fell due. */
    method OnClose()
      requires Valid() && NoStall()
      modifies this`closed, this`drainArmed, this`pending, this`output
      ensures Valid() && NoStall() && closed
    {
      Cleanup();
    }
  }

  /** The output that an exec parser's callbacks hand on. */
  function OutputOf(callbacks: seq<ExecCodec.Event>): Bytes {
    if callbacks == [] then []
    else
      var last := callbacks[|callbacks| - 1];
      OutputOf(callbacks[..|callbacks| - 1]) + (if last.OnOutput? then last.bytes else [])
  }

  function Repeat(text: Text, n: nat): Text {
    if n == 0 then [] else Repeat(text, n - 1) + text
  }

  /** Everything that can happen to a bridge.  `Ends` covers each timer and WebSocket event that completes it. */
  datatype Event =
    | Open | Closing | ShellData(payload: Bytes) | ExecData(callbacks: seq<ExecCodec.Event>, failed: Option<ExecCodec.Error>)
    | Input(data: Bytes) | InputEnd | Drain | DrainDeadline | Poll | EofTimer | Resized(cols: nat, rows: nat)
    | Ends(code: nat) | Close

  /**
     After every event of every run: what was sent is a prefix of what was queued, in whole frames within
     the limit and none before the first remote data; a disconnect is sent once, with no data behind it;
     while the bridge is live every byte is accounted for; and the exit, sent once, carries the first code
     and follows all output, unless the drain deadline fired.
   */
  method Run(session: Session, events: seq<Event>)
    requires session.Valid() && session.NoStall()
    modifies session
    ensures session.Valid() && session.NoStall()
    ensures SentText(session.wire) <= session.Queued()
    ensures forall i | 0 <= i < |session.wire| :: SentOk(session.wire[i], session.FrameLimit()) && (session.wire[i].Data? ==> session.remoteReady)
    ensures forall i, j | 0 <= i < j < |session.wire| :: session.wire[i].Disconnect? ==> session.wire[j].Resize?
    ensures session.Live() ==> SentText(session.wire) + Unsent(session.pending) == session.Queued()
    ensures session.Live() ==> session.bytesSent + session.pendingBytes == session.accepted
    ensures !session.closed ==> session.outputBytes == |Flatten(session.output)| <= session.limits.maxQueuedOutput
    ensures Flatten(session.written) <= session.received && |session.exits| <= 1
    ensures session.exits != [] ==> if session.deadlineFired then session.exits[0] == 125
                                    else Some(session.exits[0]) == session.firstCode && Flatten(session.written) == session.received
  {
    for i := 0 to |events|
      invariant session.Valid() && session.NoStall()
    {
      match events[i] {
        case Open => session.OnOpen();
        case Closing => session.OnSocketClosing();
        case ShellData(payload) => if !session.exec { session.OnData(payload); }
        case ExecData(callbacks, failed) => if session.exec { session.OnExecData(callbacks, failed); }
        case Input(data) => session.OnInput(data);
        case InputEnd => session.OnInputEnd();
        case Drain => session.OnDrain();
        case DrainDeadline => session.OnDrainDeadline();
        case Poll => session.OnPoll();
        case EofTimer => session.OnEofTimer();
        case Resized(cols, rows) => session.OnResize(cols, rows);
        case Ends(code) => session.Complete(code);
        case Close => session.OnClose();
      }
    }
  }
}
