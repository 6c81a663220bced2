/**
 The two ends of an SCP byte stream as objects: a reader that pulls arbitrary chunks and a writer
 that cuts what it sends into bounded chunks.
 */
module ScpEndpoint {
  import opened Basics
  import opened ScpProtocol
  import Utf8

  class Reader {
    const limits: Limits

    var incoming: seq<Bytes>   // what the stream will still deliver, chunk by chunk
    var buffer: Bytes
    var offset: nat

    constructor (limits: Limits, incoming: seq<Bytes>)
      ensures Valid() && Remaining() == Flatten(incoming) && this.limits == limits
    {
      this.limits, this.incoming, buffer, offset := limits, incoming, [], 0;
    }

    ghost predicate Valid() reads this { offset <= |buffer| }

    /** The unread bytes of the whole stream. */
    ghost function Remaining(): Bytes
      requires Valid()
      reads this
    {
      buffer[offset..] + Flatten(incoming)
    }

    /** Makes sure a byte is at hand, unless the stream has ended. */
    method Fill() returns (more: bool)
      requires Valid()
      modifies this
      ensures Valid() && Remaining() == old(Remaining())
      ensures more <==> offset < |buffer|
      ensures more <==> Remaining() != []
    {
      while offset == |buffer|
        invariant Valid() && Remaining() == old(Remaining())
        decreases |incoming|, |buffer| - offset
      {
        FlattenHead(incoming);
        if incoming == [] { return false; }
        buffer, offset, incoming := incoming[0], 0, incoming[1..];
      }
      return true;
    }

    method NextByte() returns (b: Option<Byte>)
      requires Valid()
      modifies this
      ensures Valid()
      ensures if old(Remaining()) == [] then b.None? && Remaining() == []
              else b == Some(old(Remaining())[0]) && Remaining() == old(Remaining())[1..]
    {
      var more := Fill();
      if !more { return None; }
      b := Some(buffer[offset]);
      offset := offset + 1;
    }

    /** The bytes up to the next newline, collected over as many chunks as it takes. */
    method Line() returns (line: Result<Bytes>)
      requires Valid()
      modifies this
      ensures Valid()
      ensures var input := old(Remaining()); var n := NewlineAt(input);
              if n > limits.maxLine then line == Err(BufferLimit)
              else if n == |input| then line == Err(UnexpectedEof)
              else line == Ok(input[..n]) && Remaining() == input[n + 1..]
    {
      hide NewlineAt, Flatten, Remaining, Valid;
      ghost var input := Remaining();
      var bytes: Bytes := [];
      Neutral(input);
      while true
        invariant Valid() && input == bytes + Remaining()
        invariant |bytes| <= limits.maxLine && 10 !in bytes
        decreases |Remaining()|
      {
        var more := Fill();
        if !more {
          NoLine(bytes, Remaining());
          return Err(UnexpectedEof);
        }
        var part, ended := TakeLinePart(bytes);
        if |bytes| + |part| > limits.maxLine { return Err(BufferLimit); }
        bytes := bytes + part;
        if ended { return Ok(bytes); }
      }
    }

    /** What is at hand of the line that `before` began, and whether the line ends in it. */
    method TakeLinePart(ghost before: Bytes) returns (part: Bytes, ended: bool)
      requires Valid() && offset < |buffer| && 10 !in before
      modifies this`offset
      ensures Valid() && |Remaining()| < old(|Remaining()|)
      ensures var input := before + old(Remaining()); var at := |before| + |part|;
              if ended then at < |input| && NewlineAt(input) == at && input[..at] == before + part && input[at + 1..] == Remaining()
              else NewlineAt(input) >= at && 10 !in before + part && input == (before + part) + Remaining()
    {
      hide NewlineAt, Flatten;
      var here := buffer[offset..];
      var n := NewlineAt(here);
      part, ended := here[..n], n < |here|;
      if ended {
        LineEnds(before, here, Flatten(incoming));
        offset := offset + n + 1;
        assert here[n + 1..] == buffer[offset..];
      } else {
        LineGoesOn(before, here, Flatten(incoming));
        offset := offset + n;
        assert part == here && buffer[offset..] == [];
        Neutral(Flatten(incoming));
      }
    }

    method ReadRecord() returns (record: Result<Option<Record>>)
      requires Valid()
      modifies this
      ensures Valid()
      ensures match ParseRecord(old(Remaining()), limits)
              case Err(e) => record == Err(e)
              case Ok((r, rest)) => record == Ok(r) && Remaining() == rest
    {
      var kind := NextByte();
      if kind.None? { return Ok(None); }
      if kind.value == 0 { return Ok(Some(Ack)); }
      var line := Line();
      if line.Err? { return Err(line.error); }
      var text := Utf8.Decode(line.value);
      if text.None? { return Err(Protocol); }
      var parsed := ParseLine(kind.value, text.value, limits);
      if parsed.Err? { return Err(parsed.error); }
      return Ok(Some(parsed.value));
    }

    /** Exactly `size` bytes, handed over in the pieces in which they are at hand. */
    method ReadPayload(size: nat) returns (pieces: Result<seq<Bytes>>)
      requires Valid()
      modifies this
      ensures Valid()
      ensures pieces.Ok? <==> size <= limits.maxFile && size <= |old(Remaining())|
      ensures pieces.Ok? ==> Flatten(pieces.value) == old(Remaining())[..size] && Remaining() == old(Remaining())[size..]
      ensures pieces.Ok? ==> forall i | 0 <= i < |pieces.value| :: pieces.value[i] != []
    {
      hide Flatten;
      if size > limits.maxFile { return Err(Protocol); }
      FlattenHead<Byte>([]);
      ghost var input := Remaining();
      var taken: seq<Bytes> := [];
      var remaining := size;
      while remaining > 0
        invariant Valid() && 0 <= remaining <= size && Flatten(taken) + Remaining() == input && |Flatten(taken)| == size - remaining
        invariant forall i | 0 <= i < |taken| :: taken[i] != []
      {
        var more := Fill();
        if !more { return Err(UnexpectedEof); }
        var part := TakePart(remaining);
        FlattenAppend(taken, [part]);
        FlattenOne(part);
        Assoc(Flatten(taken), part, Remaining());
        taken, remaining := taken + [part], remaining - |part|;
      }
      Split(Flatten(taken), Remaining());
      return Ok(taken);
    }

    /** What is at hand, but no more than wanted. */
    method TakePart(wanted: nat) returns (part: Bytes)
      requires Valid() && offset < |buffer| && wanted > 0
      modifies this`offset
      ensures Valid() && 0 < |part| <= wanted && old(Remaining()) == part + Remaining()
    {
      hide Flatten;
      var length := Min(wanted, |buffer| - offset);
      part := buffer[offset..offset + length];
      assert buffer[offset..] == part + buffer[offset + length..];
      offset := offset + length;
    }
  }

  lemma {:induction false} NewlineBeyond(before: Bytes, rest: Bytes)
    requires 10 !in before
    ensures NewlineAt(before + rest) == |before| + NewlineAt(rest)
  {
    if before == [] {
      assert before + rest == rest;
    } else {
      assert before[0] in before;
      NewlineBeyond(before[1..], rest);
      assert (before + rest)[1..] == before[1..] + rest;
    }
  }

  /** Nothing ends the line. */
  lemma NoLine(before: Bytes, rest: Bytes)
    requires 10 !in before && rest == []
    ensures |before + rest| == |before| && NewlineAt(before + rest) == |before|
  {
    NewlineBeyond(before, rest);
  }

  /** The line ends in this part. */
  lemma LineEnds(before: Bytes, here: Bytes, later: Bytes)
    requires 10 !in before && NewlineAt(here) < |here|
    ensures var n := NewlineAt(here); var input := before + (here + later); var at := |before| + n;
            NewlineAt(input) == at && input[..at] == before + here[..n] && input[at + 1..] == here[n + 1..] + later
  {
    var n := NewlineAt(here);
    var head, tail := before + here[..n], here[n..] + later;
    var input := before + (here + later);
    assert NewlineAt(input) == |before| + n by {
      NoNewlineBefore(before, here);
      hide NewlineAt;
      NewlineBeyond(head, tail);
      Rejoin(before, here, later, n);
      NewlineNow(tail);
    }
    hide *;
    assert input == head + tail by { Rejoin(before, here, later, n); }
    Split(head, tail);
    TailOfTail(head, tail);
    assert tail[1..] == here[n + 1..] + later by { TailOfDrop(here, n, later); }
  }

  /** The line goes on behind this part. */
  lemma LineGoesOn(before: Bytes, here: Bytes, later: Bytes)
    requires 10 !in before && NewlineAt(here) == |here|
    ensures NewlineAt(before + (here + later)) >= |before| + |here| && 10 !in before + here
    ensures before + (here + later) == (before + here) + later
  {
    NoNewlineBefore(before, here);
    hide *;
    assert here[..|here|] == here;
    NewlineBeyond(before + here, later);
    Assoc(before, here, later);
  }

  lemma NoNewlineBefore(before: Bytes, here: Bytes)
    requires 10 !in before
    ensures 10 !in before + here[..NewlineAt(here)]
  {
    assert 10 !in here[..NewlineAt(here)];
  }

  lemma TailOfDrop<T>(here: seq<T>, n: nat, later: seq<T>)
    requires n < |here|
    ensures (here[n..] + later)[1..] == here[n + 1..] + later
  {
  }

  lemma Rejoin<T>(before: seq<T>, here: seq<T>, later: seq<T>, n: nat)
    requires n <= |here|
    ensures before + (here + later) == (before + here[..n]) + (here[n..] + later)
  {
    assert here == here[..n] + here[n..];
    Assoc(here[..n], here[n..], later);
    Assoc(before, here[..n], here[n..] + later);
  }

  lemma TailOfTail<T>(head: seq<T>, tail: seq<T>)
    requires tail != []
    ensures (head + tail)[|head| + 1..] == tail[1..]
  {
  }

  lemma NewlineNow(b: Bytes)
    requires b != [] && b[0] == 10
    ensures NewlineAt(b) == 0
  {
  }

  class Writer {
    const limits: Limits
    const maxChunk: nat

    var sent: seq<Bytes>   // the chunks given to the stream

    constructor (limits: Limits, maxChunk: nat)
      requires maxChunk > 0
      ensures this.limits == limits && this.maxChunk == maxChunk && sent == [] && Valid()
    {
      this.limits, this.maxChunk, sent := limits, maxChunk, [];
    }

    ghost predicate Valid() reads this { maxChunk > 0 && forall i | 0 <= i < |sent| :: 0 < |sent[i]| <= maxChunk }

    method WriteBytes(bytes: Bytes)
      requires Valid()
      modifies this
      ensures Valid() && Flatten(sent) == old(Flatten(sent)) + bytes
    {
      var offset := 0;
      while offset < |bytes|
        invariant Valid() && offset <= |bytes| && Flatten(sent) == old(Flatten(sent)) + bytes[..offset]
      {
        var end := Min(|bytes|, offset + maxChunk);
        FlattenAppend(sent, [bytes[offset..end]]);
        FlattenOne(bytes[offset..end]);
        assert bytes[..end] == bytes[..offset] + bytes[offset..end];
        sent, offset := sent + [bytes[offset..end]], end;
      }
      assert bytes[..offset] == bytes;
    }

    method Record(record: ScpProtocol.Record) returns (error: Option<Error>)
      requires Valid()
      modifies this
      ensures Valid()
      ensures match WriteRecord(record, limits)
              case Ok(bytes) => error.None? && Flatten(sent) == old(Flatten(sent)) + bytes
              case Err(e) => error == Some(e) && sent == old(sent)
    {
      var bytes := WriteRecord(record, limits);
      if bytes.Err? { return Some(bytes.error); }
      WriteBytes(bytes.value);
      return None;
    }

    method Payload(bytes: Bytes) returns (error: Option<Error>)
      requires Valid()
      modifies this
      ensures Valid()
      ensures if |bytes| <= limits.maxFile then error.None? && Flatten(sent) == old(Flatten(sent)) + bytes
              else error.Some? && sent == old(sent)
    {
      if |bytes| > limits.maxFile { return Some(Protocol); }
      WriteBytes(bytes);
      return None;
    }
  }

  // ---- a whole conversation ----

  /** A record, or the payload announced by the record before it. */
  datatype Item = Rec(record: Record) | Payload(bytes: Bytes)

  /** What the writer accepts. */
  predicate Sendable(item: Item, limits: Limits) {
    match item
    case Rec(record) => WriteRecord(record, limits).Ok?
    case Payload(bytes) => |bytes| <= limits.maxFile
  }

  /** What the reader takes as well. */
  predicate Readable(item: Item) { item.Rec? ==> !HasLineTerminator(NameOf(item.record)) }

  predicate AllSendable(items: seq<Item>, limits: Limits) { forall i | 0 <= i < |items| :: Sendable(items[i], limits) }

  predicate AllReadable(items: seq<Item>) { forall i | 0 <= i < |items| :: Readable(items[i]) }

  function WireOf(item: Item, limits: Limits): Bytes
    requires Sendable(item, limits)
  {
    match item
    case Rec(record) => WriteRecord(record, limits).value
    case Payload(bytes) => bytes
  }

  function WireOfAll(items: seq<Item>, limits: Limits): Bytes
    requires AllSendable(items, limits)
  {
    if items == [] then [] else WireOf(items[0], limits) + WireOfAll(items[1..], limits)
  }

  lemma WireOfTail(items: seq<Item>, i: nat, limits: Limits)
    requires AllSendable(items, limits)
    requires i < |items|
    ensures WireOfAll(items[i..], limits) == WireOf(items[i], limits) + WireOfAll(items[i + 1..], limits)
  {
    hide Sendable, WireOf;
    assert items[i..][0] == items[i] && items[i..][1..] == items[i + 1..];
  }

  method ReadItem(reader: Reader, item: Item, ghost rest: Bytes) returns (got: Option<Item>)
    requires reader.Valid() && Sendable(item, reader.limits)
    requires reader.Remaining() == WireOf(item, reader.limits) + rest
    modifies reader
    ensures reader.Valid() && (got.Some? <==> Readable(item))
    ensures got.Some? ==> got == Some(item) && reader.Remaining() == rest
  {
    hide WriteRecord, ParseRecord, HasLineTerminator, Flatten;
    match item {
      case Rec(record) =>
        RecordRoundTrip(record, reader.limits, rest);
        var r := reader.ReadRecord();
        if r.Err? || r.value.None? { return None; }
        return Some(Rec(r.value.value));
      case Payload(bytes) =>
        assert (bytes + rest)[..|bytes|] == bytes && (bytes + rest)[|bytes|..] == rest;
        var pieces := reader.ReadPayload(|bytes|);
        if pieces.Err? { return None; }
        return Some(Payload(Flatten(pieces.value)));
    }
  }

  /** Reading back, in any chunks, what a list of items puts on the wire gives the items and a clean end, if and only if all are readable. */
  method ReadBack(limits: Limits, items: seq<Item>, chunks: seq<Bytes>) returns (got: seq<Item>, clean: bool)
    requires AllSendable(items, limits)
    requires Flatten(chunks) == WireOfAll(items, limits)
    ensures got == items && clean <==> AllReadable(items)
    ensures got <= items && (clean ==> got == items)
  {
    hide Sendable, WireOf, Flatten, WireOfAll, Readable;
    var reader := new Reader(limits, chunks);
    got := [];
    assert items[0..] == items;
    for i := 0 to |items|
      invariant reader.Valid() && reader.limits == limits
      invariant reader.Remaining() == WireOfAll(items[i..], limits)
      invariant got == items[..i] && forall k | 0 <= k < i :: Readable(items[k])
    {
      WireOfTail(items, i, limits);
      var item := ReadItem(reader, items[i], WireOfAll(items[i + 1..], limits));
      if item.None? { return got, false; }
      got := got + [item.value];
    }
    WireOfNothing(limits);
    assert items[|items|..] == [];
    var last := reader.ReadRecord();
    clean := last == Ok(None);
  }

  lemma WireOfNothing(limits: Limits)
    ensures WireOfAll([], limits) == []
  {
  }

  /** Sending a list of items puts exactly their bytes on the stream, in chunks of bounded size. */
  method SendAll(writer: Writer, items: seq<Item>) returns (error: Option<Error>)
    requires writer.Valid() && writer.sent == []
    requires AllSendable(items, writer.limits)
    modifies writer
    ensures writer.Valid() && error.None? && Flatten(writer.sent) == WireOfAll(items, writer.limits)
  {
    hide Flatten, WireOfAll, WriteRecord, HasLineTerminator;
    FlattenHead<Byte>([]);
    WireOfNothing(writer.limits);
    for i := 0 to |items|
      invariant writer.Valid() && Flatten(writer.sent) + WireOfAll(items[i..], writer.limits) == WireOfAll(items, writer.limits)
    {
      WireOfTail(items, i, writer.limits);
      Assoc(Flatten(writer.sent), WireOf(items[i], writer.limits), WireOfAll(items[i + 1..], writer.limits));
      match items[i] {
        case Rec(record) => error := writer.Record(record);
        case Payload(bytes) => error := writer.Payload(bytes);
      }
      if error.Some? { return; }
    }
    assert items[|items|..] == [];
    return None;
  }

  /** The codec end to end: items the writer sends, delivered in any other chunks, are read back exactly if all are readable. */
  method Deliver(limits: Limits, items: seq<Item>, maxChunk: nat, chunks: seq<Bytes>) returns (sent: Bytes, got: seq<Item>, clean: bool)
    requires maxChunk > 0 && AllSendable(items, limits)
    ensures sent == WireOfAll(items, limits)
    ensures Flatten(chunks) == sent ==> (got == items && clean <==> AllReadable(items))
  {
    hide WireOfAll, Sendable;
    var writer := new Writer(limits, maxChunk);
    var error := SendAll(writer, items);
    sent := Flatten(writer.sent);
    got, clean := [], false;
    if Flatten(chunks) == sent {
      got, clean := ReadBack(limits, items, chunks);
    }
  }
}
