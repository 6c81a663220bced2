/**
 An upload session over the bytes of its stream: the records as they are read, in any chunks, drive the
 receiver.  A forest's bytes arrive as the forest exactly if no name in it has a line terminator.
 */
module ScpSession {
  import opened Basics
  import opened ScpReceiver
  import opened ScpTree
  import opened ScpRebuild
  import opened ScpTransfer
  import P = ScpProtocol
  import E = ScpEndpoint
  import Names
  import Numbers
  import Utf8

  /** The stream limits of a session: its lines and its files. */
  const SESSION_STREAM: P.Limits := P.Limits(16384, 1073741824)

  // ---- the session on a whole input ----

  /** What a record is to the receiver between files; what it does not expect there is refused. */
  function MessageOf(r: P.Record): Message {
    match r
    case EndDirectory => End
    case File(_, size, name) => Header(name, size)
    case Directory(_, name) => Directory(name)
    case Time(_, _, _, _) => Time
    case Ack => Zero
    case Failure(_, _) => Zero
  }

  function ErrorOf(e: P.Error): Error { if e.BufferLimit? then Limit else Protocol }

  lemma ParseShrinks(input: Bytes, limits: P.Limits)
    ensures var r := P.ParseRecord(input, limits); r.Ok? && r.value.0.Some? ==> |r.value.1| < |input|
  {
  }

  /** The session's loop: a record, for a file its bytes and the byte behind them, and so on to the end of the input. */
  function RunBytes(setup: Setup, st: State, input: Bytes, limits: P.Limits): Result<State>
    decreases |input|
  {
    ParseShrinks(input, limits);
    match P.ParseRecord(input, limits)
    case Err(e) => Err(ErrorOf(e))
    case Ok((None, _)) => Next(setup, st, Eof)
    case Ok((Some(r), rest)) =>
      var s :- Next(setup, st, MessageOf(r));
      if r.File? then
        var (t, behind) :- FileBytes(setup, s, r.size, rest, limits);
        RunBytes(setup, t, behind, limits)
      else RunBytes(setup, s, rest, limits)
  }

  /** The bytes of a file and the byte behind them. */
  function FileBytes(setup: Setup, s: State, size: nat, rest: Bytes, limits: P.Limits): (r: Result<(State, Bytes)>)
    ensures r.Ok? ==> |r.value.1| < |rest|
  {
    if size > limits.maxFile || size > |rest| then Err(Protocol)
    else
      var t :- Next(setup, s, Data(rest[..size]));
      match P.ParseRecord(rest[size..], limits)
      case Ok((Some(Ack), behind)) =>
        var u :- Next(setup, t, Zero);
        Ok((u, behind))
      case Err(e) => Err(ErrorOf(e))
      case _ => Err(Protocol)
  }

  // ---- the session over a stream ----

  /** Behind an accepted record the receiver is between files, or expects exactly the bytes announced. */
  lemma StaysBetween(setup: Setup, st: State, r: P.Record)
    requires st.body.None? && !st.ended
    ensures var next := Next(setup, st, MessageOf(r));
            next.Ok? ==> !next.value.ended && if r.File? then next.value.body.Some? && next.value.body.value.size == r.size && next.value.body.value.got == []
                                              else next.value.body.None?
  {
    hide Next;
    var m := MessageOf(r);
    if Next(setup, st, m).Ok? {
      match m {
        case Directory(name) => DirectoryStep(setup, st, name);
        case Header(name, size) => HeaderStep(setup, st, name, size);
        case Zero => DataIsRefused(setup, st, m);
        case _ => StillBetween(setup, st, m);
      }
    }
  }

  lemma FileIsDone(setup: Setup, st: State)
    requires st.body.Some? && !st.ended
    ensures var next := Next(setup, st, Zero); next.Ok? ==> next.value.body.None? && !next.value.ended
  {
    hide FileTarget;
    PublishRun(setup, st);
  }

  method ReceivePieces(receiver: Receiver, pieces: seq<Bytes>)
    requires receiver.failure.None? && !receiver.ended && receiver.body.Some?
    requires receiver.body.value.got == [] && |Flatten(pieces)| == receiver.body.value.size
    modifies receiver
    ensures receiver.failure.None? && !receiver.ended && receiver.body.Some?
    ensures Next(receiver.setup, old(receiver.Now()), Data(Flatten(pieces))) == Ok(receiver.Now())
  {
    hide Flatten;
    ghost var start := receiver.Now();
    ghost var body := start.body.value;
    FlattenHead<Byte>([]);
    for i := 0 to |pieces|
      invariant receiver.failure.None? && |Flatten(pieces[..i])| <= body.size
      invariant receiver.Now() == start.(body := Some(body.(got := Flatten(pieces[..i]))))
    {
      assert pieces[..i + 1] == pieces[..i] + [pieces[i]];
      FlattenAppend(pieces[..i], [pieces[i]]);
      FlattenOne(pieces[i]);
      FlattenAppend(pieces[..i + 1], pieces[i + 1..]);
      assert pieces == pieces[..i + 1] + pieces[i + 1..];
      receiver.Receive(Data(pieces[i]));
    }
    assert pieces[..|pieces|] == pieces;
    Neutral(Flatten(pieces));
  }

  /** The loop of an upload: what it makes of the stream does not depend on the chunks. */
  method ReceiveSession(reader: E.Reader, receiver: Receiver)
    requires reader.Valid() && receiver.failure.None? && !receiver.ended && receiver.body.None?
    modifies reader, receiver
    ensures match RunBytes(receiver.setup, old(receiver.Now()), old(reader.Remaining()), reader.limits)
            case Ok(st) => receiver.failure.None? && receiver.Now() == st
            case Err(e) => receiver.failure == Some(e)
  {
    hide P.ParseRecord, Next, Flatten;
    ghost var start, whole := receiver.Now(), reader.Remaining();
    while true
      invariant reader.Valid() && receiver.failure.None? && !receiver.ended && receiver.body.None?
      invariant RunBytes(receiver.setup, start, whole, reader.limits) == RunBytes(receiver.setup, receiver.Now(), reader.Remaining(), reader.limits)
      decreases |reader.Remaining()|
    {
      ParseShrinks(reader.Remaining(), reader.limits);
      var record := reader.ReadRecord();
      if record.Err? { receiver.failure := Some(ErrorOf(record.error)); return; }
      if record.value.None? { receiver.Receive(Eof); return; }
      StaysBetween(receiver.setup, receiver.Now(), record.value.value);
      receiver.Receive(MessageOf(record.value.value));
      if receiver.failure.Some? { return; }
      if record.value.value.File? {
        ReceiveFile(reader, receiver, record.value.value.size);
        if receiver.failure.Some? { return; }
      }
    }
  }

  /** The payload, piece by piece as it comes, and the byte behind it. */
  method ReceiveFile(reader: E.Reader, receiver: Receiver, size: nat)
    requires reader.Valid() && receiver.failure.None? && !receiver.ended && receiver.body.Some?
    requires receiver.body.value.size == size && receiver.body.value.got == []
    modifies reader, receiver
    ensures reader.Valid()
    ensures match FileBytes(receiver.setup, old(receiver.Now()), size, old(reader.Remaining()), reader.limits)
            case Ok((st, behind)) => receiver.failure.None? && receiver.Now() == st && reader.Remaining() == behind && !st.ended && st.body.None?
            case Err(e) => receiver.failure == Some(e)
  {
    hide P.ParseRecord, Next, Flatten;
    var pieces := reader.ReadPayload(size);
    if pieces.Err? { receiver.failure := Some(Protocol); return; }
    ReceivePieces(receiver, pieces.value);
    var record := reader.ReadRecord();
    if record.Err? { receiver.failure := Some(ErrorOf(record.error)); return; }
    if record.value != Some(P.Ack) { receiver.failure := Some(Protocol); return; }
    FileIsDone(receiver.setup, receiver.Now());
    receiver.Receive(Zero);
  }

  // ---- the bytes of a forest ----

  datatype Stamp = Stamp(mtime: nat, mtimeUsec: nat, atime: nat, atimeUsec: nat)

  /** The modes and times of the entries, by their number; the receiver reads them and does not use them. */
  datatype Labels = Labels(mode: nat -> nat, stamp: nat -> Stamp)

  predicate LabelsOk(labels: Labels, k: nat) {
    var s := labels.stamp(k);
    labels.mode(k) <= 4095 && s.mtime <= P.MAX_SAFE_INTEGER && s.mtimeUsec <= 999999 && s.atime <= P.MAX_SAFE_INTEGER && s.atimeUsec <= 999999
  }

  function TimeRecord(labels: Labels, k: nat): P.Record {
    var s := labels.stamp(k);
    P.Time(s.mtime, s.mtimeUsec, s.atime, s.atimeUsec)
  }

  function TimeItems(time: bool, labels: Labels, k: nat): seq<E.Item> { if time then [E.Rec(TimeRecord(labels, k))] else [] }

  function FileItems(name: string, content: Bytes, labels: Labels, k: nat): seq<E.Item> {
    [E.Rec(P.File(labels.mode(k), |content|, name)), E.Payload(content), E.Rec(P.Ack)]
  }

  /** What a client sends for a forest, entries numbered from `k`. */
  function ItemsOf(f: Forest, labels: Labels, k: nat): seq<E.Item>
    decreases f
  {
    match f
    case Empty => []
    case File(time, name, parts, next) => TimeItems(time, labels, k) + (FileItems(name, Flatten(parts), labels, k) + ItemsOf(next, labels, k + 1))
    case Dir(time, name, children, next) =>
      TimeItems(time, labels, k) + ([E.Rec(P.Directory(labels.mode(k), name))] + (ItemsOf(children, labels, k + 1)
        + ([E.Rec(P.EndDirectory)] + ItemsOf(next, labels, k + 1 + Count(children)))))
  }

  lemma PartsOfSendable(a: seq<E.Item>, b: seq<E.Item>, limits: P.Limits)
    ensures E.AllSendable(a + b, limits) <==> E.AllSendable(a, limits) && E.AllSendable(b, limits)
    ensures E.AllReadable(a + b) <==> E.AllReadable(a) && E.AllReadable(b)
  {
    hide E.Sendable, E.Readable;
    var all := a + b;
    assert forall i | 0 <= i < |a| :: all[i] == a[i];
    assert forall i | 0 <= i < |b| :: all[|a| + i] == b[i];
    assert forall i | |a| <= i < |all| :: all[i] == b[i - |a|];
  }

  /** The items are readable exactly if the names are. */
  lemma {:induction false} ReadableNames(f: Forest, labels: Labels, k: nat)
    ensures E.AllReadable(ItemsOf(f, labels, k)) <==> NamesReadable(f)
    decreases f
  {
    hide Flatten, E.AllReadable, TimeItems, FileItems, P.HasLineTerminator;
    match f {
      case Empty => OneReadable(P.Ack);
      case File(time, name, parts, next) =>
        var items := FileItems(name, Flatten(parts), labels, k);
        ReadableNames(next, labels, k + 1);
        PartsOfSendable(TimeItems(time, labels, k), items + ItemsOf(next, labels, k + 1), SESSION_STREAM);
        PartsOfSendable(items, ItemsOf(next, labels, k + 1), SESSION_STREAM);
        TimeReadable(time, labels, k);
        FileReadable(name, Flatten(parts), labels, k);
      case Dir(time, name, children, next) =>
        var n := k + 1 + Count(children);
        var opening, inside, ending, behind := [E.Rec(P.Directory(labels.mode(k), name))], ItemsOf(children, labels, k + 1), [E.Rec(P.EndDirectory)], ItemsOf(next, labels, n);
        ReadableNames(children, labels, k + 1);
        ReadableNames(next, labels, n);
        PartsOfSendable(TimeItems(time, labels, k), opening + (inside + (ending + behind)), SESSION_STREAM);
        PartsOfSendable(opening, inside + (ending + behind), SESSION_STREAM);
        PartsOfSendable(inside, ending + behind, SESSION_STREAM);
        PartsOfSendable(ending, behind, SESSION_STREAM);
        TimeReadable(time, labels, k);
        OneReadable(P.Directory(labels.mode(k), name));
        OneReadable(P.EndDirectory);
    }
  }

  lemma OneReadable(r: P.Record)
    ensures E.AllReadable([E.Rec(r)]) <==> !P.HasLineTerminator(P.NameOf(r))
    ensures E.AllReadable([])
    ensures P.NameOf(r) == "" ==> !P.HasLineTerminator(P.NameOf(r))
  {
    var items := [E.Rec(r)];
    assert E.AllReadable(items) <==> E.Readable(items[0]);
  }

  lemma TimeReadable(time: bool, labels: Labels, k: nat)
    ensures E.AllReadable(TimeItems(time, labels, k))
  {
    OneReadable(TimeRecord(labels, k));
  }

  lemma FileReadable(name: string, content: Bytes, labels: Labels, k: nat)
    ensures E.AllReadable(FileItems(name, content, labels, k)) <==> !P.HasLineTerminator(name)
  {
    var items := FileItems(name, content, labels, k);
    OneReadable(P.Ack);
    assert E.AllReadable(items) <==> E.Readable(items[0]) && E.Readable(items[1]) && E.Readable(items[2]);
  }

  /** The messages that items are to the receiver. */
  function MessagesOf(items: seq<E.Item>): seq<Message> {
    if items == [] then []
    else [match items[0] case Rec(r) => MessageOf(r) case Payload(bytes) => Data(bytes)] + MessagesOf(items[1..])
  }

  /** The forest with each file in one part, as a client sends it. */
  function Whole(f: Forest): Forest {
    match f
    case Empty => Empty
    case File(time, name, parts, next) => Forest.File(time, name, [Flatten(parts)], Whole(next))
    case Dir(time, name, children, next) => Dir(time, name, Whole(children), Whole(next))
  }

  lemma {:induction false} MessagesOfAppend(a: seq<E.Item>, b: seq<E.Item>)
    ensures MessagesOf(a + b) == MessagesOf(a) + MessagesOf(b)
  {
    hide MessageOf;
    if a == [] {
      Neutral(b);
    } else {
      HeadTail(a, b);
      Split([a[0]], a[1..] + b);
      MessagesOfAppend(a[1..], b);
    }
  }

  lemma MessagesOfOne(r: P.Record)
    ensures MessagesOf([E.Rec(r)]) == [MessageOf(r)] && MessagesOf([]) == []
  {
    assert [E.Rec(r)][1..] == [];
  }

  lemma FileMessages(name: string, content: Bytes, labels: Labels, k: nat)
    ensures MessagesOf(FileItems(name, content, labels, k)) == FileText(name, [content])
  {
    hide Flatten;
    var items := FileItems(name, content, labels, k);
    assert items[1..] == [E.Payload(content), E.Rec(P.Ack)] && items[1..][1..] == [E.Rec(P.Ack)];
    MessagesOfOne(P.Ack);
    FlattenOne(content);
    assert [content][1..] == [];
    assert DataOf([content]) == [Data(content)];
  }

  lemma TimeMessages(time: bool, labels: Labels, k: nat)
    ensures MessagesOf(TimeItems(time, labels, k)) == TimeOf(time)
  {
    MessagesOfOne(TimeRecord(labels, k));
  }

  /** The items of a forest are the messages of its text. */
  lemma {:induction false} ItemsSpellForest(f: Forest, labels: Labels, k: nat)
    ensures MessagesOf(ItemsOf(f, labels, k)) == Messages(Whole(f))
    decreases f
  {
    hide MessagesOf, TimeItems, FileItems, TimeOf, FileText, Flatten;
    match f {
      case Empty => MessagesOfOne(P.Ack);
      case File(time, name, parts, next) =>
        var file, more := FileItems(name, Flatten(parts), labels, k), ItemsOf(next, labels, k + 1);
        MessagesOfAppend(TimeItems(time, labels, k), file + more);
        MessagesOfAppend(file, more);
        TimeMessages(time, labels, k);
        FileMessages(name, Flatten(parts), labels, k);
        ItemsSpellForest(next, labels, k + 1);
      case Dir(time, name, children, next) =>
        var n := k + 1 + Count(children);
        var opening, ending := [E.Rec(P.Directory(labels.mode(k), name))], [E.Rec(P.EndDirectory)];
        var inside, more := ItemsOf(children, labels, k + 1), ItemsOf(next, labels, n);
        MessagesOfAppend(TimeItems(time, labels, k), opening + (inside + (ending + more)));
        MessagesOfAppend(opening, inside + (ending + more));
        MessagesOfAppend(inside, ending + more);
        MessagesOfAppend(ending, more);
        TimeMessages(time, labels, k);
        MessagesOfOne(P.Directory(labels.mode(k), name));
        MessagesOfOne(P.EndDirectory);
        ItemsSpellForest(children, labels, k + 1);
        ItemsSpellForest(next, labels, n);
    }
  }

  /** The messages of a forest come back over any chunks, with a clean end, if and only if its names can be read. */
  method MessagesBack(limits: P.Limits, f: Forest, labels: Labels, chunks: seq<Bytes>) returns (messages: seq<Message>, clean: bool)
    requires E.AllSendable(ItemsOf(f, labels, 0), limits)
    requires Flatten(chunks) == E.WireOfAll(ItemsOf(f, labels, 0), limits)
    ensures messages == Messages(Whole(f)) && clean <==> NamesReadable(f)
  {
    hide E.AllSendable, E.WireOfAll, ItemsOf, Messages, MessagesOf, NamesReadable, Flatten, E.AllReadable, Whole;
    var items, ended := E.ReadBack(limits, ItemsOf(f, labels, 0), chunks);
    messages, clean := MessagesOf(items), ended;
    ItemsSpellForest(f, labels, 0);
    ReadableNames(f, labels, 0);
  }

  // ---- the bytes of a forest drive the receiver as its text does ----

  lemma {:induction false} WireAppend(a: seq<E.Item>, b: seq<E.Item>, limits: P.Limits)
    requires E.AllSendable(a, limits) && E.AllSendable(b, limits)
    ensures E.AllSendable(a + b, limits) && E.WireOfAll(a + b, limits) == E.WireOfAll(a, limits) + E.WireOfAll(b, limits)
  {
    hide E.Sendable, E.WireOf;
    PartsOfSendable(a, b, limits);
    if a == [] {
      Neutral(b);
      Neutral(E.WireOfAll(b, limits));
    } else {
      HeadTail(a, b);
      Split([a[0]], a[1..] + b);
      WireAppend(a[1..], b, limits);
      Assoc(E.WireOf(a[0], limits), E.WireOfAll(a[1..], limits), E.WireOfAll(b, limits));
    }
  }

  lemma WireOne(item: E.Item, limits: P.Limits)
    requires E.Sendable(item, limits)
    ensures E.AllSendable([item], limits) && E.WireOfAll([item], limits) == E.WireOf(item, limits)
  {
    hide E.Sendable, E.WireOf;
    E.WireOfNothing(limits);
    assert [item][1..] == [];
    Neutral(E.WireOf(item, limits));
  }

  /** What comes behind a part of the input. */
  function ThenBytes(setup: Setup, r: Result<State>, rest: Bytes, limits: P.Limits): Result<State> {
    if r.Err? then r else RunBytes(setup, r.value, rest, limits)
  }

  /** One record in front. */
  lemma RecordBytes(setup: Setup, st: State, r: P.Record, rest: Bytes, limits: P.Limits)
    requires E.Sendable(E.Rec(r), limits) && !r.File?
    ensures E.AllSendable([E.Rec(r)], limits)
    ensures RunBytes(setup, st, E.WireOfAll([E.Rec(r)], limits) + rest, limits) ==
            if P.HasLineTerminator(P.NameOf(r)) then Err(Protocol) else ThenBytes(setup, Next(setup, st, MessageOf(r)), rest, limits)
  {
    hide P.ParseRecord, P.WriteRecord, Next, P.HasLineTerminator, P.NameOf;
    WireOne(E.Rec(r), limits);
    P.RecordRoundTrip(r, limits, rest);
  }

  lemma TimeBytes(setup: Setup, st: State, time: bool, labels: Labels, k: nat, rest: Bytes, limits: P.Limits)
    requires E.AllSendable(TimeItems(time, labels, k), limits)
    ensures RunBytes(setup, st, E.WireOfAll(TimeItems(time, labels, k), limits) + rest, limits) == ThenBytes(setup, Run(setup, st, TimeOf(time)), rest, limits)
  {
    hide RunBytes, Next, P.WriteRecord, P.HasLineTerminator;
    if time {
      assert E.Sendable(TimeItems(time, labels, k)[0], limits);
      OneReadable(TimeRecord(labels, k));
      RecordBytes(setup, st, TimeRecord(labels, k), rest, limits);
      RunOne(setup, st, Time);
    } else {
      E.WireOfNothing(limits);
      Neutral(rest);
      RunNothing(setup, st);
    }
  }

  /** The wire of a file: its record, its bytes, and a zero. */
  lemma WireOfFile(name: string, content: Bytes, labels: Labels, k: nat, rest: Bytes, limits: P.Limits)
    requires E.AllSendable(FileItems(name, content, labels, k), limits)
    ensures var r := P.File(labels.mode(k), |content|, name);
            && P.WriteRecord(r, limits).Ok? && |content| <= limits.maxFile
            && E.WireOfAll(FileItems(name, content, labels, k), limits) + rest == P.WriteRecord(r, limits).value + (content + ([0] + rest))
  {
    var r, items := P.File(labels.mode(k), |content|, name), FileItems(name, content, labels, k);
    assert E.Sendable(items[0], limits) && E.Sendable(items[1], limits) && E.Sendable(items[2], limits);
    assert P.WriteRecord(P.Ack, limits) == P.Result.Ok([0]);
    hide P.WriteRecord, E.WireOfAll;
    assert items == [items[0]] + ([items[1]] + [items[2]]);
    WireOne(items[0], limits);
    WireOne(items[1], limits);
    WireOne(items[2], limits);
    WireAppend([items[1]], [items[2]], limits);
    WireAppend([items[0]], [items[1]] + [items[2]], limits);
    Assoc(content, [0 as Byte], rest);
    Assoc(P.WriteRecord(r, limits).value, content + [0], rest);
  }

  /** The bytes of a file, whole or in parts. */
  lemma ContentRuns(setup: Setup, st: State, parts: seq<Bytes>)
    requires st.body.Some? && !st.ended && st.body.value.got == [] && st.body.value.size == |Flatten(parts)|
    ensures Next(setup, st, Data(Flatten(parts))).Ok?
    ensures Run(setup, st, DataOf(parts) + [Zero]) == Next(setup, Next(setup, st, Data(Flatten(parts))).value, Zero)
  {
    hide Publish, AtRecord, Run, Flatten;
    Neutral(Flatten(parts));
    RunData(setup, st, parts);
    RunAppend(setup, st, DataOf(parts), [Zero]);
    RunOne(setup, Run(setup, st, DataOf(parts)).value, Zero);
  }

  lemma FileRunBytes(setup: Setup, st: State, name: string, parts: seq<Bytes>, labels: Labels, k: nat, rest: Bytes, limits: P.Limits)
    requires E.AllSendable(FileItems(name, Flatten(parts), labels, k), limits) && st.body.None? && !st.ended
    ensures RunBytes(setup, st, E.WireOfAll(FileItems(name, Flatten(parts), labels, k), limits) + rest, limits) ==
            if P.HasLineTerminator(name) then Err(Protocol) else ThenBytes(setup, Run(setup, st, FileText(name, parts)), rest, limits)
  {
    hide Next, Run, Flatten, P.WriteRecord, P.ParseRecord, P.HasLineTerminator, FileItems, DataOf, E.AllSendable;
    var content := Flatten(parts);
    var r, header := P.File(labels.mode(k), |content|, name), Header(name, |content|);
    var behind := content + ([0] + rest);
    WireOfFile(name, content, labels, k, rest, limits);
    P.RecordRoundTrip(r, limits, behind);
    RunStep(setup, st, header, DataOf(parts) + [Zero]);
    var next := Next(setup, st, header);
    if next.Ok? && !P.HasLineTerminator(name) {
      HeaderStep(setup, st, name, |content|);
      ContentRuns(setup, next.value, parts);
      Split(content, [0] + rest);
      AckInFront(rest, limits);
    }
  }

  lemma AckInFront(rest: Bytes, limits: P.Limits)
    ensures P.ParseRecord([0] + rest, limits) == P.Result.Ok((Some(P.Ack), rest))
  {
    Split([0 as Byte], rest);
  }

  predicate AsText(setup: Setup, st: State, f: Forest, bytes: Bytes, rest: Bytes, limits: P.Limits) {
    var r := RunBytes(setup, st, bytes + rest, limits);
    if NamesReadable(f) then r == ThenBytes(setup, Run(setup, st, Messages(f)), rest, limits)
    else r.Err? && (Run(setup, st, Messages(f)).Ok? ==> r == Err(Protocol))
  }

  /** In front of any other input the bytes of a forest are run as its text, unless a name cannot be read. */
  lemma {:induction false} ForestBytes(setup: Setup, st: State, f: Forest, labels: Labels, k: nat, rest: Bytes, limits: P.Limits)
    requires Idle(st) && RootsAllowed(setup, st, f) && E.AllSendable(ItemsOf(f, labels, k), limits)
    ensures AsText(setup, st, f, E.WireOfAll(ItemsOf(f, labels, k), limits), rest, limits)
    decreases f
  {
    hide RunBytes, Run, Next, Flatten, E.AllSendable, TimeItems, FileItems, P.HasLineTerminator, TimeOf, FileText, E.WireOfAll;
    match f {
      case Empty =>
        E.WireOfNothing(limits);
        Neutral(rest);
        RunNothing(setup, st);
      case File(time, name, parts, next) => FileForest(setup, st, f, labels, k, rest, limits);
      case Dir(time, name, children, next) => DirForest(setup, st, f, labels, k, rest, limits);
    }
  }

  lemma FileForest(setup: Setup, st: State, f: Forest, labels: Labels, k: nat, rest: Bytes, limits: P.Limits)
    requires f.File? && Idle(st) && RootsAllowed(setup, st, f) && E.AllSendable(ItemsOf(f, labels, k), limits)
    ensures AsText(setup, st, f, E.WireOfAll(ItemsOf(f, labels, k), limits), rest, limits)
    decreases f, 0
  {
    hide RunBytes, Run, Next, Flatten, E.AllSendable, TimeItems, FileItems, P.HasLineTerminator, TimeOf, FileText, E.WireOfAll;
    var times, file, more := TimeItems(f.time, labels, k), FileItems(f.name, Flatten(f.parts), labels, k), ItemsOf(f.next, labels, k + 1);
    PartsOfSendable(times, file + more, limits);
    PartsOfSendable(file, more, limits);
    WireAppend(file, more, limits);
    WireAppend(times, file + more, limits);
    var a, b, c := E.WireOfAll(times, limits), E.WireOfAll(file, limits), E.WireOfAll(more, limits);
    Assoc(a, b + c, rest);
    Assoc(b, c, rest);
    TimeBytes(setup, st, f.time, labels, k, b + (c + rest), limits);
    TimeRun(setup, st, f.time);
    RunAppend(setup, st, TimeOf(f.time), FileText(f.name, f.parts) + Messages(f.next));
    var s1 := Run(setup, st, TimeOf(f.time));
    if s1.Ok? {
      FileRunBytes(setup, s1.value, f.name, f.parts, labels, k, c + rest, limits);
      FileRun(setup, s1.value, f.name, f.parts);
      RunAppend(setup, s1.value, FileText(f.name, f.parts), Messages(f.next));
      var s2 := Run(setup, s1.value, FileText(f.name, f.parts));
      if s2.Ok? { ForestBytes(setup, s2.value, f.next, labels, k + 1, rest, limits); }
    }
  }

  lemma DirForest(setup: Setup, st: State, f: Forest, labels: Labels, k: nat, rest: Bytes, limits: P.Limits)
    requires f.Dir? && Idle(st) && RootsAllowed(setup, st, f) && E.AllSendable(ItemsOf(f, labels, k), limits)
    ensures AsText(setup, st, f, E.WireOfAll(ItemsOf(f, labels, k), limits), rest, limits)
    decreases f, 0
  {
    hide RunBytes, Run, Next, Flatten, E.AllSendable, TimeItems, P.HasLineTerminator, TimeOf, E.WireOfAll;
    var n := k + 1 + Count(f.children);
    var opening, ending := P.Directory(labels.mode(k), f.name), P.EndDirectory;
    var times, inside, more := TimeItems(f.time, labels, k), ItemsOf(f.children, labels, k + 1), ItemsOf(f.next, labels, n);
    DirWire(times, opening, inside, ending, more, rest, limits);
    var a, b, c, d, e := E.WireOfAll(times, limits), E.WireOfAll([E.Rec(opening)], limits), E.WireOfAll(inside, limits), E.WireOfAll([E.Rec(ending)], limits), E.WireOfAll(more, limits);
    var behind := [End] + Messages(f.next);
    TimeBytes(setup, st, f.time, labels, k, b + (c + (d + (e + rest))), limits);
    TimeRun(setup, st, f.time);
    RunAppend(setup, st, TimeOf(f.time), [Directory(f.name)] + (Messages(f.children) + behind));
    var s1 := Run(setup, st, TimeOf(f.time));
    if s1.Ok? {
      RecordBytes(setup, s1.value, opening, c + (d + (e + rest)), limits);
      EnterRun(setup, s1.value, f.name);
      RunOne(setup, s1.value, Directory(f.name));
      RunAppend(setup, s1.value, [Directory(f.name)], Messages(f.children) + behind);
      var s2 := Run(setup, s1.value, [Directory(f.name)]);
      if s2.Ok? {
        ForestBytes(setup, s2.value, f.children, labels, k + 1, d + (e + rest), limits);
        ForestRun(setup, s2.value, f.children);
        RunAppend(setup, s2.value, Messages(f.children), behind);
        var s3 := Run(setup, s2.value, Messages(f.children));
        if s3.Ok? {
          OneReadable(ending);
          RecordBytes(setup, s3.value, ending, e + rest, limits);
          LeaveRun(setup, s3.value);
          RunOne(setup, s3.value, End);
          RunAppend(setup, s3.value, [End], Messages(f.next));
          var s4 := Run(setup, s3.value, [End]);
          if s4.Ok? { ForestBytes(setup, s4.value, f.next, labels, n, rest, limits); }
        }
      }
    }
  }

  /** The wire of a directory, part by part. */
  lemma DirWire(times: seq<E.Item>, opening: P.Record, inside: seq<E.Item>, ending: P.Record, more: seq<E.Item>, rest: Bytes, limits: P.Limits)
    requires E.AllSendable(times + ([E.Rec(opening)] + (inside + ([E.Rec(ending)] + more))), limits)
    ensures E.AllSendable(times, limits) && E.Sendable(E.Rec(opening), limits) && E.AllSendable([E.Rec(opening)], limits) && E.AllSendable(inside, limits)
    ensures E.Sendable(E.Rec(ending), limits) && E.AllSendable([E.Rec(ending)], limits) && E.AllSendable(more, limits)
    ensures E.WireOfAll(times + ([E.Rec(opening)] + (inside + ([E.Rec(ending)] + more))), limits) + rest ==
            E.WireOfAll(times, limits) + (E.WireOfAll([E.Rec(opening)], limits) + (E.WireOfAll(inside, limits) + (E.WireOfAll([E.Rec(ending)], limits)
              + (E.WireOfAll(more, limits) + rest))))
  {
    hide E.AllSendable, E.WireOfAll, E.Sendable;
    var i2, i4 := [E.Rec(opening)], [E.Rec(ending)];
    PartsOfSendable(times, i2 + (inside + (i4 + more)), limits);
    PartsOfSendable(i2, inside + (i4 + more), limits);
    PartsOfSendable(inside, i4 + more, limits);
    PartsOfSendable(i4, more, limits);
    WireAppend(i4, more, limits);
    WireAppend(inside, i4 + more, limits);
    WireAppend(i2, inside + (i4 + more), limits);
    WireAppend(times, i2 + (inside + (i4 + more)), limits);
    FirstSendable(i2, limits);
    FirstSendable(i4, limits);
    var a, b, c, d, e := E.WireOfAll(times, limits), E.WireOfAll(i2, limits), E.WireOfAll(inside, limits), E.WireOfAll(i4, limits), E.WireOfAll(more, limits);
    Assoc(a, b + (c + (d + e)), rest);
    Assoc(b, c + (d + e), rest);
    Assoc(c, d + e, rest);
    Assoc(d, e, rest);
  }

  lemma FirstSendable(items: seq<E.Item>, limits: P.Limits)
    requires items != [] && E.AllSendable(items, limits)
    ensures E.Sendable(items[0], limits)
  {
  }

  /** The whole stream of a forest: run as its text and its end, or refused if and only if a name cannot be read. */
  lemma StreamOfForest(setup: Setup, st: State, f: Forest, labels: Labels, limits: P.Limits)
    requires AtStart(st) && RootsAllowed(setup, st, f) && E.AllSendable(ItemsOf(f, labels, 0), limits)
    ensures var r := RunBytes(setup, st, E.WireOfAll(ItemsOf(f, labels, 0), limits), limits);
            if NamesReadable(f) then r == Run(setup, st, Messages(f) + [Eof])
            else r.Err? && (Run(setup, st, Messages(f)).Ok? ==> r == Err(Protocol))
  {
    hide Run, Messages, E.AllSendable, ItemsOf, E.WireOfAll, NamesReadable, Next;
    var wire := E.WireOfAll(ItemsOf(f, labels, 0), limits);
    ForestBytes(setup, st, f, labels, 0, [], limits);
    Neutral(wire);
    RunAppend(setup, st, Messages(f), [Eof]);
    var r := Run(setup, st, Messages(f));
    if r.Ok? {
      RunOne(setup, r.value, Eof);
      assert RunBytes(setup, r.value, [], limits) == Next(setup, r.value, Eof);
    }
  }

  // ---- what a session takes can be sent ----

  function Tens(k: nat): nat { if k == 0 then 1 else 10 * Tens(k - 1) }

  lemma {:induction false} DecimalAtMost(n: nat, k: nat)
    requires k > 0 && n < Tens(k)
    ensures |Numbers.Decimal(n)| <= k
  {
    if n >= 10 {
      assert k > 1;
      DecimalAtMost(n / 10, k - 1);
    }
  }

  lemma DecimalIsShort(n: nat)
    requires n <= P.MAX_SAFE_INTEGER
    ensures |Numbers.Decimal(n)| <= 16
  {
    assert Tens(8) == 100000000;
    assert Tens(16) == 100000000 * Tens(8) by { assert Tens(16) == 10 * 10 * 10 * 10 * 10 * 10 * 10 * 10 * Tens(8); }
    DecimalAtMost(n, 16);
  }

  /** The fixed part of an entry's line is at most 22 characters. */
  lemma EntryFits(directory: bool, mode: nat, size: nat, name: string, limits: P.Limits)
    requires mode <= 4095 && size <= limits.maxFile && size <= P.MAX_SAFE_INTEGER && Names.ValidName(name)
    requires |Utf8.Encode(name)| + 88 <= limits.maxLine && (directory ==> size == 0)
    ensures P.WriteRecord(if directory then P.Directory(mode, name) else P.File(mode, size, name), limits).Ok?
  {
    hide Utf8.Encode, Numbers.Decimal, P.Octal4, Names.ValidName;
    DecimalIsShort(size);
    var front := P.Octal4(mode) + (" " + (Numbers.Decimal(size) + " "));
    assert P.Octal4(mode) + (" " + (Numbers.Decimal(size) + (" " + name))) == front + name;
    Utf8.EncodeAppend(front, name);
    P.EncodeBound(front);
  }

  lemma TimeFits(labels: Labels, k: nat, limits: P.Limits)
    requires LabelsOk(labels, k) && limits.maxLine >= 268
    ensures P.WriteRecord(TimeRecord(labels, k), limits).Ok?
  {
    hide Utf8.Encode, Numbers.Decimal;
    var s := labels.stamp(k);
    DecimalIsShort(s.mtime);
    DecimalIsShort(s.mtimeUsec);
    DecimalIsShort(s.atime);
    DecimalIsShort(s.atimeUsec);
    P.EncodeBound(P.Body(TimeRecord(labels, k)));
  }

  lemma TimeSendable(time: bool, labels: Labels, k: nat, limits: P.Limits)
    requires LabelsOk(labels, k) && limits.maxLine >= 268
    ensures E.AllSendable(TimeItems(time, labels, k), limits)
  {
    hide P.WriteRecord;
    TimeFits(labels, k, limits);
  }

  lemma OneSendable(r: P.Record, limits: P.Limits)
    requires P.WriteRecord(r, limits).Ok?
    ensures E.AllSendable([E.Rec(r)], limits)
  {
    hide P.WriteRecord;
  }

  lemma PlainSendable(limits: P.Limits)
    ensures P.WriteRecord(P.Ack, limits).Ok? && P.WriteRecord(P.EndDirectory, limits).Ok?
  {
  }

  lemma FileSendable(name: string, content: Bytes, labels: Labels, k: nat, limits: P.Limits)
    requires LabelsOk(labels, k) && |content| <= limits.maxFile && |content| <= P.MAX_SAFE_INTEGER && Names.ValidName(name)
    requires |Utf8.Encode(name)| + 88 <= limits.maxLine
    ensures E.AllSendable(FileItems(name, content, labels, k), limits)
  {
    hide P.WriteRecord, Utf8.Encode, Names.ValidName;
    EntryFits(false, labels.mode(k), |content|, name, limits);
    PlainSendable(limits);
  }

  ghost predicate AllLabelsOk(labels: Labels) { forall k: nat :: LabelsOk(labels, k) }

  /** The lines of the stream are long enough for every path that is short enough, and its files as large as the session's. */
  predicate LinesFit(setup: Setup, limits: P.Limits) {
    setup.limits.maxPath + 88 <= limits.maxLine && limits.maxLine >= 268 && setup.limits.maxFile <= Min(limits.maxFile, P.MAX_SAFE_INTEGER)
  }

  lemma NameInPath(dir: Path, name: string)
    ensures |Utf8.Encode(name)| <= PathBytes(dir + [name])
  {
    assert Parent(dir + [name]) == dir && Last(dir + [name]) == name;
  }

  /** Everything a client sends for a forest that is short enough and small enough is accepted by the writer, the limit of a line included. */
  lemma {:induction false} ForestIsSendable(setup: Setup, dir: Path, k: nat, f: Forest, labels: Labels, j: nat, limits: P.Limits)
    requires WellNamed(f) && Short(setup, k, dir, f) && FilesFit(f, setup.limits.maxFile) && AllLabelsOk(labels) && LinesFit(setup, limits)
    ensures E.AllSendable(ItemsOf(f, labels, j), limits)
    decreases f
  {
    hide E.AllSendable, TimeItems, FileItems, PathBytes, Utf8.Encode, Names.ValidName, Flatten, Staging, P.WriteRecord;
    match f {
      case Empty => NothingSendable(limits);
      case File(time, name, parts, next) =>
        var file, more := FileItems(name, Flatten(parts), labels, j), ItemsOf(next, labels, j + 1);
        NameInPath(dir, name);
        TimeSendable(time, labels, j, limits);
        FileSendable(name, Flatten(parts), labels, j, limits);
        ForestIsSendable(setup, dir, k + 1, next, labels, j + 1, limits);
        PartsOfSendable(file, more, limits);
        PartsOfSendable(TimeItems(time, labels, j), file + more, limits);
      case Dir(time, name, children, next) =>
        var n := 1 + Count(children);
        NameInPath(dir, name);
        TimeSendable(time, labels, j, limits);
        ForestIsSendable(setup, dir + [name], k + 1, children, labels, j + 1, limits);
        ForestIsSendable(setup, dir, k + n, next, labels, j + n, limits);
        DirSendable(TimeItems(time, labels, j), labels.mode(j), name, ItemsOf(children, labels, j + 1), ItemsOf(next, labels, j + n), limits);
    }
  }

  lemma DirSendable(times: seq<E.Item>, mode: nat, name: string, inside: seq<E.Item>, more: seq<E.Item>, limits: P.Limits)
    requires mode <= 4095 && Names.ValidName(name) && |Utf8.Encode(name)| + 88 <= limits.maxLine
    requires E.AllSendable(times, limits) && E.AllSendable(inside, limits) && E.AllSendable(more, limits)
    ensures E.AllSendable(times + ([E.Rec(P.Directory(mode, name))] + (inside + ([E.Rec(P.EndDirectory)] + more))), limits)
  {
    hide E.AllSendable, Utf8.Encode, Names.ValidName, P.WriteRecord;
    var opening, ending := [E.Rec(P.Directory(mode, name))], [E.Rec(P.EndDirectory)];
    EntryFits(true, mode, 0, name, limits);
    PlainSendable(limits);
    OneSendable(P.Directory(mode, name), limits);
    OneSendable(P.EndDirectory, limits);
    PartsOfSendable(ending, more, limits);
    PartsOfSendable(inside, ending + more, limits);
    PartsOfSendable(opening, inside + (ending + more), limits);
    PartsOfSendable(times, opening + (inside + (ending + more)), limits);
  }

  lemma NothingSendable(limits: P.Limits)
    ensures E.AllSendable([], limits)
  {
  }

  // ---- a session over the bytes, from end to end ----

  /** Sent to a fresh place in a directory, the bytes of a forest rebuild it there if and only if all its names can be read. */
  lemma ForestArrives(setup: Setup, st: State, f: Forest, labels: Labels, limits: P.Limits)
    requires AtStart(st) && setup.intoDirectory && !f.Empty? && Ready(setup, st, setup.destination, f)
    requires st.records + 2 * Acks(f) + 1 <= setup.limits.maxRecords && AllLabelsOk(labels) && LinesFit(setup, limits)
    ensures E.AllSendable(ItemsOf(f, labels, 0), limits)
    ensures var r := RunBytes(setup, st, E.WireOfAll(ItemsOf(f, labels, 0), limits), limits);
            if NamesReadable(f) then Completed(r) && r.value.acks == st.acks + Acks(f) && r.value.storage == st.storage + Placement(setup.destination, f)
            else r == Err(Protocol)
  {
    hide RunBytes, Run, Messages, Placement, E.AllSendable, E.WireOfAll, ItemsOf, NamesReadable, AllLabelsOk;
    ForestIsSendable(setup, setup.destination, st.entries, f, labels, 0, limits);
    StreamOfForest(setup, st, f, labels, limits);
    Rebuild(setup, st, setup.destination, f);
    EndsBehind(setup, st, f);
  }

  /** What was listed on one side then stands below the destination on the other, and everything else is as it was. */
  lemma SourceArrives(setup: Setup, st: State, source: Source, preserve: bool, labels: Labels, limits: P.Limits, place: Path)
    requires var f := Sent(source, preserve);
             AtStart(st) && setup.intoDirectory && !f.Empty? && Ready(setup, st, setup.destination, f)
             && st.records + 2 * Acks(f) + 1 <= setup.limits.maxRecords && AllLabelsOk(labels) && LinesFit(setup, limits)
    ensures var f := Sent(source, preserve);
            && E.AllSendable(ItemsOf(f, labels, 0), limits)
            && var r := RunBytes(setup, st, E.WireOfAll(ItemsOf(f, labels, 0), limits), limits);
               var node := if Below(setup.destination, place) then Listed(source, place[|setup.destination|..]) else None;
               && (r.Ok? <==> NamesReadable(f))
               && (r.Ok? ==> if node.Some? then place in r.value.storage && r.value.storage[place] == node.value && place !in st.storage
                             else (place in r.value.storage <==> place in st.storage) && (place in r.value.storage ==> r.value.storage[place] == st.storage[place]))
  {
    hide RunBytes, Run, Messages, Placement, E.AllSendable, E.WireOfAll, ItemsOf, NamesReadable, AllLabelsOk, Listed, Lookup, Ready;
    var f := Sent(source, preserve);
    ForestArrives(setup, st, f, labels, limits);
    if Below(setup.destination, place) { SentIsListed(source, preserve, place[|setup.destination|..]); }
    RebuiltTree(setup, st, setup.destination, f, place);
  }

  /** At the session's own limits: what may be counted beforehand is enough for the upload to arrive. */
  lemma UploadInSession(storage: Storage, destination: Path, f: Forest, labels: Labels, recursive: bool, noOverwrite: bool,
                        staging: nat -> string, needsDirectory: bool)
    requires SessionTakes(storage, destination, f, recursive, staging) && AllLabelsOk(labels)
    ensures var begun := Begin(storage, destination, false, needsDirectory, recursive, noOverwrite, SESSION_LIMITS, staging, (_: nat) => {});
            && begun.Ok? && AtStart(begun.value.1) && E.AllSendable(ItemsOf(f, labels, 0), SESSION_STREAM)
            && var r := RunBytes(begun.value.0, begun.value.1, E.WireOfAll(ItemsOf(f, labels, 0), SESSION_STREAM), SESSION_STREAM);
               if NamesReadable(f) then Completed(r) && r.value.storage == storage + Placement(destination, f) else r == Err(Protocol)
  {
    hide RunBytes, Placement, SessionTakes, Begin, Ready, E.AllSendable, E.WireOfAll, ItemsOf, NamesReadable, AllLabelsOk;
    var setup, st := SessionSetup(destination, recursive, noOverwrite, staging), SessionStart(storage, destination);
    SessionBegins(storage, destination, f, recursive, noOverwrite, staging, needsDirectory);
    SessionIsReady(storage, destination, f, recursive, noOverwrite, staging);
    NotEmpty(storage, destination, f, recursive, staging);
    ForestArrives(setup, st, f, labels, SESSION_STREAM);
  }

  /** Both ends of an upload as they run: a client sends in bounded chunks, and the session reads the same bytes in any chunks. */
  method UploadOverBytes(storage: Storage, destination: Path, f: Forest, labels: Labels, recursive: bool, noOverwrite: bool,
                         staging: nat -> string, needsDirectory: bool, maxChunk: nat, chunks: seq<Bytes>)
    returns (sent: Bytes, receiver: Receiver)
    requires SessionTakes(storage, destination, f, recursive, staging) && AllLabelsOk(labels) && maxChunk > 0
    ensures fresh(receiver) && E.AllSendable(ItemsOf(f, labels, 0), SESSION_STREAM) && sent == E.WireOfAll(ItemsOf(f, labels, 0), SESSION_STREAM)
    ensures Flatten(chunks) == sent ==>
              if NamesReadable(f) then receiver.failure.None? && receiver.ended && receiver.storage == storage + Placement(destination, f)
              else receiver.failure == Some(Protocol)
  {
    hide RunBytes, Placement, SessionTakes, Begin, E.AllSendable, E.WireOfAll, ItemsOf, NamesReadable, AllLabelsOk, Flatten;
    UploadInSession(storage, destination, f, labels, recursive, noOverwrite, staging, needsDirectory);
    var writer := new E.Writer(SESSION_STREAM, maxChunk);
    FlattenHead<Byte>([]);
    var error := E.SendAll(writer, ItemsOf(f, labels, 0));
    sent := Flatten(writer.sent);
    var begun := Begin(storage, destination, false, needsDirectory, recursive, noOverwrite, SESSION_LIMITS, staging, (_: nat) => {});
    receiver := new Receiver(begun.value.0, begun.value.1);
    if Flatten(chunks) == sent {
      var reader := new E.Reader(SESSION_STREAM, chunks);
      ReceiveSession(reader, receiver);
    }
  }

  /** A directory named U+2028 meets every condition that can be counted, and is sent, and is refused. */
  lemma SeparatorTreeIsLost(labels: Labels, staging: nat -> string)
    requires AllLabelsOk(labels)
    ensures var f := Dir(false, "\U{2028}", Empty, Empty);
            && SessionTakes(map[], [], f, true, staging) && E.AllSendable(ItemsOf(f, labels, 0), SESSION_STREAM)
            && RunBytes(SessionSetup([], true, false, staging), SessionStart(map[], []), E.WireOfAll(ItemsOf(f, labels, 0), SESSION_STREAM), SESSION_STREAM) == Err(Protocol)
  {
    hide SessionTakes, RunBytes, Begin, E.AllSendable, E.WireOfAll, ItemsOf;
    var name := "\U{2028}";
    var f := Dir(false, name, Empty, Empty);
    assert P.IsLineTerminator(name[0]);
    P.EncodeBound(name);
    OneDirectoryTaken(name, staging);
    UploadInSession(map[], [], f, labels, true, false, staging, false);
    SessionBegins(map[], [], f, true, false, staging, false);
  }

  /** An empty storage takes any directory with a safe name that is short enough. */
  lemma OneDirectoryTaken(name: string, staging: nat -> string)
    requires Safe(name) && |Utf8.Encode(name)| < SESSION_LIMITS.maxPath
    ensures SessionTakes(map[], [], Dir(false, name, Empty, Empty), true, staging)
  {
    hide Utf8.Encode, Safe;
    var f := Dir(false, name, Empty, Empty);
    assert Parent([name]) == [] && Last([name]) == name && [] + [name] == [name];
    assert PathBytes([]) == 0 && PathBytes([name]) == 1 + |Utf8.Encode(name)|;
    assert Children(map[], []) == {};
    assert Around(map[], []) == {};
    assert WellNamed(f);
    assert Height(f) == 1;
    assert FilesFit(f, SESSION_LIMITS.maxFile);
    assert Total(f) == 0;
    assert Acks(f) == 2;
    assert Short(SessionSetup([], true, false, staging), 0, [], f);
    assert Files(f) == 0;
  }
}
