/**
 Trees as lists of SCP messages.  The receiver accepts exactly the lists that are the text of a
 forest, and below a fresh place it rebuilds that forest.
 */
module ScpTree {
  import opened Basics
  import opened ScpReceiver

  /** Entries side by side, each with the entries behind it; a file comes in parts. */
  datatype Forest =
    | Empty
    | File(time: bool, name: string, parts: seq<Bytes>, next: Forest)
    | Dir(time: bool, name: string, children: Forest, next: Forest)

  // ---- the text of a forest ----

  function DataOf(parts: seq<Bytes>): seq<Message> {
    if parts == [] then [] else [Data(parts[0])] + DataOf(parts[1..])
  }

  function TimeOf(time: bool): seq<Message> { if time then [Time] else [] }

  function FileText(name: string, parts: seq<Bytes>): seq<Message> {
    [Header(name, |Flatten(parts)|)] + (DataOf(parts) + [Zero])
  }

  function Messages(f: Forest): seq<Message> {
    match f
    case Empty => []
    case File(time, name, parts, next) => TimeOf(time) + (FileText(name, parts) + Messages(next))
    case Dir(time, name, children, next) => TimeOf(time) + ([Directory(name)] + (Messages(children) + ([End] + Messages(next))))
  }

  function Roots(f: Forest): nat { if f.Empty? then 0 else 1 + Roots(f.next) }

  // ---- running over parts of a list ----

  /** Running one piece behind another. */
  function Then(setup: Setup, r: Result<State>, messages: seq<Message>): Result<State> {
    if r.Err? then r else Run(setup, r.value, messages)
  }

  lemma {:induction false} RunAppend(setup: Setup, st: State, a: seq<Message>, b: seq<Message>)
    ensures Run(setup, st, a + b) == Then(setup, Run(setup, st, a), b)
    decreases |a|
  {
    hide Next;
    if a == [] {
      Neutral(b);
    } else {
      HeadTail(a, b);
      Split([a[0]], a[1..] + b);
      var s := Next(setup, st, a[0]);
      if s.Ok? { RunAppend(setup, s.value, a[1..], b); }
    }
  }

  lemma RunOne(setup: Setup, st: State, m: Message)
    ensures Run(setup, st, [m]) == Next(setup, st, m)
  {
    hide Next;
    if Next(setup, st, m).Ok? { assert [m][1..] == []; }
  }

  lemma RunStep(setup: Setup, st: State, m: Message, rest: seq<Message>)
    ensures Run(setup, st, [m] + rest) == Then(setup, Next(setup, st, m), rest)
  {
    hide Next, Run;
    RunAppend(setup, st, [m], rest);
    RunOne(setup, st, m);
  }

  /** The bytes of a file, in whatever parts they come. */
  lemma {:induction false} RunData(setup: Setup, st: State, parts: seq<Bytes>)
    requires st.body.Some? && !st.ended && |st.body.value.got| + |Flatten(parts)| <= st.body.value.size
    ensures Run(setup, st, DataOf(parts)) == Ok(st.(body := Some(st.body.value.(got := st.body.value.got + Flatten(parts)))))
    decreases |parts|
  {
    hide Publish, AtRecord, Run;
    if parts == [] {
      RunNothing(setup, st);
      Neutral(st.body.value.got);
    } else {
      var s := st.(body := Some(st.body.value.(got := st.body.value.got + parts[0])));
      RunData(setup, s, parts[1..]);
      RunStep(setup, st, Data(parts[0]), DataOf(parts[1..]));
      Assoc(st.body.value.got, parts[0], Flatten(parts[1..]));
    }
  }

  lemma RunNothing(setup: Setup, st: State)
    ensures Run(setup, st, []) == Ok(st)
  {
  }

  /** Between records: no file open, no time waiting for its entry. */
  predicate Idle(st: State) { st.body.None? && !st.pendingTime && !st.ended }

  function RootsWith(st: State, more: nat): nat { if st.stack == [] then st.rootEntries + more else st.rootEntries }

  predicate RootsAllowed(setup: Setup, st: State, f: Forest) {
    setup.intoDirectory || st.stack != [] || st.rootEntries + Roots(f) <= 1
  }

  /** Any failure is not the protocol's, and without one the machine is between records, where it should be. */
  predicate NoProtocolFailure(r: Result<State>, stack: seq<Path>, roots: nat, pendingTime: bool) {
    if r.Err? then r.error != Protocol
    else r.value.body.None? && !r.value.ended && r.value.pendingTime == pendingTime && r.value.stack == stack && r.value.rootEntries == roots
  }

  lemma TimeRun(setup: Setup, st: State, time: bool)
    requires Idle(st)
    ensures NoProtocolFailure(Run(setup, st, TimeOf(time)), st.stack, st.rootEntries, time)
  {
    if time { RunOne(setup, st, Time); } else { RunNothing(setup, st); }
  }

  predicate RootAllowed(setup: Setup, st: State) { setup.intoDirectory || st.stack != [] || st.rootEntries == 0 }

  lemma PlacedRun(setup: Setup, st: State, name: string)
    requires RootAllowed(setup, st)
    ensures var r := Placed(setup, st, name);
            if r.Err? then r.error != Protocol else r.value.1 == st.(rootEntries := RootsWith(st, 1))
  {
  }

  lemma OpenDirectoryRun(setup: Setup, st: State, path: Path)
    ensures var r := OpenDirectory(setup, st, path);
            if r.Err? then r.error != Protocol
            else NoProtocolFailure(r, st.stack + [path], st.rootEntries, st.pendingTime) || st.body.Some? || st.ended
  {
    hide Inspect;
  }

  lemma OpenFileRun(setup: Setup, st: State, path: Path, size: nat)
    ensures var r := OpenFile(setup, st, path, size);
            if r.Err? then r.error != Protocol
            else r.value.body == Some(Body(path, size, [])) && r.value.stack == st.stack && r.value.rootEntries == st.rootEntries
                 && r.value.pendingTime == st.pendingTime && r.value.ended == st.ended
  {
    hide FileTarget;
  }

  lemma PublishRun(setup: Setup, st: State)
    requires st.body.Some?
    ensures var r := Publish(setup, st);
            if r.Err? then r.error != Protocol
            else r.value.body == None && r.value.stack == st.stack && r.value.rootEntries == st.rootEntries
                 && r.value.pendingTime == st.pendingTime && r.value.ended == st.ended
  {
    hide FileTarget;
  }

  lemma FileRun(setup: Setup, st: State, name: string, parts: seq<Bytes>)
    requires st.body.None? && !st.ended && RootAllowed(setup, st)
    ensures NoProtocolFailure(Run(setup, st, FileText(name, parts)), st.stack, RootsWith(st, 1), false)
  {
    hide Run, OpenFile, Publish, Placed;
    var header := Header(name, |Flatten(parts)|);
    RunStep(setup, st, header, DataOf(parts) + [Zero]);
    var s := st.(records := st.records + 1, pendingTime := false);
    PlacedRun(setup, s, name);
    var place := Placed(setup, s, name);
    if place.Ok? { OpenFileRun(setup, place.value.1, place.value.0, |Flatten(parts)|); }
    var ready := Next(setup, st, header);
    if ready.Ok? {
      RunData(setup, ready.value, parts);
      RunAppend(setup, ready.value, DataOf(parts), [Zero]);
      Neutral(Flatten(parts));
      var filled := Run(setup, ready.value, DataOf(parts)).value;
      PublishRun(setup, filled);
      RunOne(setup, filled, Zero);
    }
  }

  /** A directory is entered; what follows is below it. */
  lemma EnterRun(setup: Setup, st: State, name: string)
    requires st.body.None? && !st.ended && RootAllowed(setup, st)
    ensures var r := Run(setup, st, [Directory(name)]);
            if r.Err? then r.error != Protocol
            else r.value.stack != [] && r.value.stack[..|r.value.stack| - 1] == st.stack && NoProtocolFailure(r, r.value.stack, RootsWith(st, 1), false)
  {
    hide Run, OpenDirectory, Placed, InBody, OpenFile;
    RunOne(setup, st, Directory(name));
    var s := st.(records := st.records + 1, pendingTime := false);
    PlacedRun(setup, s, name);
    var place := Placed(setup, s, name);
    if place.Ok? { OpenDirectoryRun(setup, place.value.1, place.value.0); }
  }

  lemma LeaveRun(setup: Setup, st: State)
    requires Idle(st) && st.stack != []
    ensures NoProtocolFailure(Run(setup, st, [End]), st.stack[..|st.stack| - 1], st.rootEntries, false)
  {
    RunOne(setup, st, End);
  }

  /** The text of a forest never runs into a protocol failure, and leaves the machine where it was. */
  lemma {:induction false} ForestRun(setup: Setup, st: State, f: Forest)
    requires Idle(st) && RootsAllowed(setup, st, f)
    ensures NoProtocolFailure(Run(setup, st, Messages(f)), st.stack, RootsWith(st, Roots(f)), false)
    decreases f
  {
    hide Run, Next;
    match f {
      case Empty => RunNothing(setup, st);
      case File(time, name, parts, next) =>
        TimeRun(setup, st, time);
        RunAppend(setup, st, TimeOf(time), FileText(name, parts) + Messages(next));
        var s1 := Run(setup, st, TimeOf(time));
        if s1.Ok? {
          FileRun(setup, s1.value, name, parts);
          RunAppend(setup, s1.value, FileText(name, parts), Messages(next));
          var s2 := Run(setup, s1.value, FileText(name, parts));
          if s2.Ok? { ForestRun(setup, s2.value, next); }
        }
      case Dir(time, name, children, next) =>
        var behind := [End] + Messages(next);
        TimeRun(setup, st, time);
        RunAppend(setup, st, TimeOf(time), [Directory(name)] + (Messages(children) + behind));
        var s1 := Run(setup, st, TimeOf(time));
        if s1.Ok? {
          EnterRun(setup, s1.value, name);
          RunAppend(setup, s1.value, [Directory(name)], Messages(children) + behind);
          var s2 := Run(setup, s1.value, [Directory(name)]);
          if s2.Ok? {
            ForestRun(setup, s2.value, children);
            RunAppend(setup, s2.value, Messages(children), behind);
            var s3 := Run(setup, s2.value, Messages(children));
            if s3.Ok? {
              LeaveRun(setup, s3.value);
              RunAppend(setup, s3.value, [End], Messages(next));
              var s4 := Run(setup, s3.value, [End]);
              if s4.Ok? { ForestRun(setup, s4.value, next); }
            }
          }
        }
    }
  }

  // ---- what is accepted is the text of a forest ----

  /** The open directories' remaining entries, innermost first, each level closed by an End. */
  function Levels(fs: seq<Forest>): seq<Message>
    requires fs != []
  {
    if |fs| == 1 then Messages(fs[0]) else Messages(fs[0]) + ([End] + Levels(fs[1..]))
  }

  lemma LevelsHead(f: Forest, g: Forest, fs: seq<Forest>, text: seq<Message>)
    requires Messages(g) == text + Messages(f)
    ensures Levels([g] + fs) == text + Levels([f] + fs)
  {
    hide Messages;
    assert ([g] + fs)[1..] == fs && ([f] + fs)[1..] == fs;
    if fs != [] { Assoc(text, Messages(f), [End] + Levels(fs)); }
  }

  /** The rest of a file, once its header was accepted. */
  lemma {:induction false} BodyEnds(setup: Setup, st: State, messages: seq<Message>) returns (parts: seq<Bytes>, rest: seq<Message>, s: State)
    requires st.body.Some? && !st.ended && Run(setup, st, messages).Ok? && Run(setup, st, messages).value.ended
    requires |st.body.value.got| <= st.body.value.size
    ensures messages == DataOf(parts) + ([Zero] + rest) && |rest| < |messages|
    ensures |st.body.value.got| + |Flatten(parts)| == st.body.value.size
    ensures s.body.None? && !s.ended && s.pendingTime == st.pendingTime && s.stack == st.stack && s.rootEntries == st.rootEntries
    ensures Run(setup, st, messages) == Run(setup, s, rest)
    decreases |messages|
  {
    hide FileTarget, AtRecord;
    var m := messages[0];
    if m.Zero? {
      parts, rest, s := [], messages[1..], Next(setup, st, m).value;
      assert messages == [] + ([Zero] + rest);
    } else {
      var t := Next(setup, st, m).value;
      var p, r, u := BodyEnds(setup, t, messages[1..]);
      parts, rest, s := [m.bytes] + p, r, u;
      assert parts[1..] == p && messages == [m] + messages[1..];
      Assoc([m], DataOf(p), [Zero] + rest);
    }
  }

  lemma LevelsEmpty(fs: seq<Forest>)
    ensures Levels([Empty]) == [] && (fs != [] ==> Levels([Empty] + fs) == [End] + Levels(fs))
  {
    if fs != [] {
      assert ([Empty] + fs)[1..] == fs;
      Neutral([End] + Levels(fs));
    }
  }

  /** Two innermost levels are the children and the later siblings of a directory. */
  lemma LevelsDir(time: bool, name: string, children: Forest, next: Forest, fs: seq<Forest>)
    ensures Levels([Dir(time, name, children, next)] + fs) == TimeOf(time) + ([Directory(name)] + Levels([children] + ([next] + fs)))
  {
    var opening := TimeOf(time) + [Directory(name)];
    var text := opening + (Messages(children) + [End]);
    assert ([children] + ([next] + fs))[1..] == [next] + fs;
    hide Levels, Messages;
    DirText(time, name, children, next);
    LevelsHead(next, Dir(time, name, children, next), fs, text);
    var behind := Levels([next] + fs);
    Assoc(opening, Messages(children) + [End], behind);
    Assoc(Messages(children), [End], behind);
    Assoc(TimeOf(time), [Directory(name)], Messages(children) + ([End] + behind));
    LevelsCons(children, [next] + fs);
  }

  lemma LevelsCons(f: Forest, fs: seq<Forest>)
    requires fs != []
    ensures Levels([f] + fs) == Messages(f) + ([End] + Levels(fs))
  {
    assert ([f] + fs)[1..] == fs;
  }

  lemma DirText(time: bool, name: string, children: Forest, next: Forest)
    ensures Messages(Dir(time, name, children, next)) == (TimeOf(time) + [Directory(name)]) + (Messages(children) + [End]) + Messages(next)
  {
    hide TimeOf;
    var a, b, c, d := TimeOf(time), [Directory(name)], Messages(children), Messages(next);
    Assoc(c, [End], d);
    Assoc(b, c + [End], d);
    Assoc(a, b, c + ([End] + d));
    Assoc(a + b, c + [End], d);
  }

  lemma FileLevels(time: bool, name: string, parts: seq<Bytes>, next: Forest, fs: seq<Forest>)
    ensures Levels([File(time, name, parts, next)] + fs) == TimeOf(time) + (FileText(name, parts) + Levels([next] + fs))
  {
    hide Levels, FileText;
    Assoc(TimeOf(time), FileText(name, parts), Messages(next));
    LevelsHead(next, File(time, name, parts, next), fs, TimeOf(time) + FileText(name, parts));
    Assoc(TimeOf(time), FileText(name, parts), Levels([next] + fs));
  }

  predicate Completed(r: Result<State>) { r.Ok? && r.value.ended }

  /** What is still to come is what the levels need, and its roots are all counted. */
  predicate Explains(setup: Setup, st: State, messages: seq<Message>, fs: seq<Forest>) {
    && |fs| == |st.stack| + 1 && TimeOf(st.pendingTime) + messages == Levels(fs) + [Eof]
    && Completed(Run(setup, st, messages))
    && Run(setup, st, messages).value.rootEntries == st.rootEntries + Roots(fs[|fs| - 1])
    && Run(setup, st, messages).value.rootEntries > 0
    && (!setup.intoDirectory && st.rootEntries <= 1 ==> Run(setup, st, messages).value.rootEntries <= 1)
  }

  lemma EofEnds(setup: Setup, st: State, messages: seq<Message>)
    requires st.body.None? && !st.ended && messages != [] && messages[0].Eof? && Completed(Run(setup, st, messages))
    ensures Explains(setup, st, messages, [Empty])
  {
    LevelsEmpty([]);
    hide Levels;
    var s := Next(setup, st, Eof).value;
    assert messages[1..] == [];
    assert messages == [] + [Eof];
  }

  lemma EndCloses(setup: Setup, st: State, messages: seq<Message>, fs: seq<Forest>)
    requires st.body.None? && !st.ended && messages != [] && messages[0].End? && Next(setup, st, messages[0]).Ok?
    requires Explains(setup, Next(setup, st, messages[0]).value, messages[1..], fs)
    ensures Explains(setup, st, messages, [Empty] + fs)
  {
    LevelsEmpty(fs);
    hide Levels, Placed, OpenDirectory, OpenFile, InBody;
    assert messages == [End] + messages[1..];
    Neutral(messages);
    Neutral(messages[1..]);
    Assoc([End], Levels(fs), [Eof]);
  }

  lemma TimeComes(setup: Setup, st: State, messages: seq<Message>, fs: seq<Forest>)
    requires st.body.None? && !st.ended && messages != [] && messages[0].Time? && Next(setup, st, messages[0]).Ok?
    requires Explains(setup, Next(setup, st, messages[0]).value, messages[1..], fs)
    ensures Explains(setup, st, messages, fs)
  {
    hide Levels, Placed, OpenDirectory, OpenFile, InBody;
    assert messages == [Time] + messages[1..];
    Neutral(messages);
  }

  lemma DirectoryOpens(setup: Setup, st: State, name: string, rest: seq<Message>, s: State, fs: seq<Forest>)
    requires Idle(s) && |s.stack| == |st.stack| + 1 && s.rootEntries == RootsWith(st, 1)
    requires st.stack == [] && !setup.intoDirectory ==> s.rootEntries <= 1
    requires Run(setup, st, [Directory(name)] + rest) == Run(setup, s, rest) && Explains(setup, s, rest, fs)
    ensures |fs| > 1 && Explains(setup, st, [Directory(name)] + rest, [Dir(st.pendingTime, name, fs[0], fs[1])] + fs[2..])
  {
    hide Levels, Run, TimeOf;
    TimeNone();
    LevelsDir(st.pendingTime, name, fs[0], fs[1], fs[2..]);
    assert fs == [fs[0]] + ([fs[1]] + fs[2..]);
    Neutral(rest);
    Assoc([Directory(name)], Levels(fs), [Eof]);
    Assoc(TimeOf(st.pendingTime), [Directory(name)] + Levels(fs), [Eof]);
  }

  lemma TimeNone()
    ensures TimeOf(false) == []
  {
  }

  /** An accepted directory is one level more, and a root if it is opened at the top. */
  lemma DirectoryStep(setup: Setup, st: State, name: string)
    requires st.body.None? && !st.ended && Next(setup, st, Directory(name)).Ok?
    ensures var s := Next(setup, st, Directory(name)).value;
            Idle(s) && |s.stack| == |st.stack| + 1 && s.rootEntries == RootsWith(st, 1)
            && (st.stack == [] && !setup.intoDirectory ==> s.rootEntries <= 1)
  {
    hide Inspect, Child;
    var s := st.(records := st.records + 1, pendingTime := false);
    var place := Placed(setup, s, name).value;
    OpenDirectoryRun(setup, place.1, place.0);
  }

  lemma HeaderStep(setup: Setup, st: State, name: string, size: nat)
    requires st.body.None? && !st.ended && Next(setup, st, Header(name, size)).Ok?
    ensures var s := Next(setup, st, Header(name, size)).value;
            s.body.Some? && s.body.value.size == size && s.body.value.got == [] && !s.pendingTime && !s.ended
            && s.stack == st.stack && s.rootEntries == RootsWith(st, 1) && (st.stack == [] && !setup.intoDirectory ==> s.rootEntries <= 1)
  {
    hide Inspect, Child;
    var s := st.(records := st.records + 1, pendingTime := false);
    var place := Placed(setup, s, name).value;
    OpenFileRun(setup, place.1, place.0, size);
  }

  lemma FileSplits(messages: seq<Message>, parts: seq<Bytes>, rest: seq<Message>)
    requires messages != [] && messages[0].Header? && messages[0].size == |Flatten(parts)|
    requires messages[1..] == DataOf(parts) + ([Zero] + rest)
    ensures messages == FileText(messages[0].name, parts) + rest
  {
    hide DataOf, Flatten;
    var m := messages[0];
    assert messages == [m] + messages[1..];
    Assoc(DataOf(parts), [Zero], rest);
    Assoc([m], DataOf(parts) + [Zero], rest);
  }

  lemma FileComes(setup: Setup, st: State, messages: seq<Message>, name: string, parts: seq<Bytes>, rest: seq<Message>, s: State, fs: seq<Forest>)
    requires messages == FileText(name, parts) + rest
    requires !s.pendingTime && s.stack == st.stack && s.rootEntries == RootsWith(st, 1)
    requires st.stack == [] && !setup.intoDirectory ==> s.rootEntries <= 1
    requires Run(setup, st, messages) == Run(setup, s, rest) && Explains(setup, s, rest, fs)
    ensures fs != [] && Explains(setup, st, messages, [File(st.pendingTime, name, parts, fs[0])] + fs[1..])
  {
    hide Levels, Run, FileText, Messages;
    FileLevels(st.pendingTime, name, parts, fs[0], fs[1..]);
    assert fs == [fs[0]] + fs[1..];
    Neutral(rest);
    Assoc(FileText(name, parts), Levels(fs), [Eof]);
    Assoc(TimeOf(st.pendingTime), FileText(name, parts) + Levels(fs), [Eof]);
  }

  /** Whatever the machine accepts to the end is the text of forests, one for each open level. */
  lemma {:induction false} Decompose(setup: Setup, st: State, messages: seq<Message>) returns (fs: seq<Forest>)
    requires st.body.None? && !st.ended && Completed(Run(setup, st, messages))
    ensures Explains(setup, st, messages, fs)
    decreases |messages|
  {
    hide Next, Levels, Explains, FileText;
    var m := messages[0];
    var s := Next(setup, st, m).value;
    match m {
      case Eof =>
        EofEnds(setup, st, messages);
        fs := [Empty];
      case End =>
        StillBetween(setup, st, m);
        var rest := Decompose(setup, s, messages[1..]);
        EndCloses(setup, st, messages, rest);
        fs := [Empty] + rest;
      case Time =>
        StillBetween(setup, st, m);
        fs := Decompose(setup, s, messages[1..]);
        TimeComes(setup, st, messages, fs);
      case Directory(name) =>
        DirectoryStep(setup, st, name);
        var rest := Decompose(setup, s, messages[1..]);
        assert messages == [m] + messages[1..];
        DirectoryOpens(setup, st, name, messages[1..], s, rest);
        fs := [Dir(st.pendingTime, name, rest[0], rest[1])] + rest[2..];
      case Header(name, size) =>
        HeaderStep(setup, st, name, size);
        var parts, rest, after := BodyEnds(setup, s, messages[1..]);
        var more := Decompose(setup, after, rest);
        FileSplits(messages, parts, rest);
        FileComes(setup, st, messages, name, parts, rest, after, more);
        fs := [File(st.pendingTime, name, parts, more[0])] + more[1..];
      case _ => DataIsRefused(setup, st, m);
    }
  }

  lemma StillBetween(setup: Setup, st: State, m: Message)
    requires st.body.None? && !st.ended && (m.End? || m.Time?) && Next(setup, st, m).Ok?
    ensures Next(setup, st, m).value.body.None? && !Next(setup, st, m).value.ended
  {
  }

  lemma DataIsRefused(setup: Setup, st: State, m: Message)
    requires st.body.None? && (m.Data? || m.Zero?)
    ensures Next(setup, st, m).Err?
  {
  }

  /** The text of a nonempty forest and the end of the stream; only a directory takes more than one root. */
  ghost predicate IsForestText(setup: Setup, messages: seq<Message>) {
    exists f: Forest :: messages == Messages(f) + [Eof] && !f.Empty? && (setup.intoDirectory || Roots(f) == 1)
  }

  predicate AtStart(st: State) { Idle(st) && st.stack == [] && st.rootEntries == 0 }

  /**
     The receiver accepts exactly well-nested lists: what it accepts is the text of a forest, and on
     such a text it never reports a protocol error and never waits for more.
   */
  lemma AcceptsForestTexts(setup: Setup, st: State, messages: seq<Message>)
    requires AtStart(st)
    ensures Completed(Run(setup, st, messages)) ==> IsForestText(setup, messages)
    ensures IsForestText(setup, messages) ==> Run(setup, st, messages) != Err(Protocol) && (Run(setup, st, messages).Ok? ==> Completed(Run(setup, st, messages)))
  {
    hide Run, Messages;
    if Completed(Run(setup, st, messages)) {
      var fs := Decompose(setup, st, messages);
      Neutral(messages);
      assert messages == Messages(fs[0]) + [Eof];
    }
    if IsForestText(setup, messages) {
      var f: Forest :| messages == Messages(f) + [Eof] && !f.Empty? && (setup.intoDirectory || Roots(f) == 1);
      ForestRun(setup, st, f);
      RunAppend(setup, st, Messages(f), [Eof]);
      var r := Run(setup, st, Messages(f));
      if r.Ok? { RunOne(setup, r.value, Eof); }
    }
  }

  /** Each message but payload and the end of the stream is acknowledged once. */
  lemma {:induction false} AcksCounted(setup: Setup, st: State, messages: seq<Message>)
    requires Run(setup, st, messages).Ok?
    ensures Run(setup, st, messages).value.acks == st.acks + Answers(messages)
    decreases |messages|
  {
    if messages != [] {
      AckCounted(setup, st, messages[0]);
      hide Next;
      AcksCounted(setup, Next(setup, st, messages[0]).value, messages[1..]);
    }
  }

  lemma AckCounted(setup: Setup, st: State, m: Message)
    requires Next(setup, st, m).Ok?
    ensures Next(setup, st, m).value.acks == st.acks + (if Answered(m) then 1 else 0)
  {
    hide Inspect, Child;
  }
}
