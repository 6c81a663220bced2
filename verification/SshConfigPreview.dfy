/** The preview of a managed SSH configuration: the loop over its lines, and what repeating it gives. */
module SshConfigPreview {
  import opened Basics
  import opened SshConfigText
  import opened SshConfig
  import Utf8

  const BOM: Bytes := [0xEF, 0xBB, 0xBF]

  function BomLength(source: Bytes): (n: nat)
    ensures n <= |source|
  {
    if |source| >= 3 && source[..3] == BOM then 3 else 0
  }

  datatype Error = Invalid | Conflict

  datatype Unmanaged = Unmanaged(bom: Bytes, content: Bytes, hasBlock: bool)

  datatype Result<+T> = Ok(value: T) | Err(error: Error)

  /** The division of a source, if it is text in UTF-8 and nothing in it conflicts. */
  function PartsOf(source: Bytes, alias: string): Option<Parts> {
    if Utf8.Decode(source).None? then None else Divide(Lines(source[BomLength(source)..]), alias, Before)
  }

  function Content(p: Parts): Bytes { Flatten(p.before) + Flatten(p.after) }

  /** The new file: the byte order mark, the block, and everything that is not managed. */
  function PreviewOf(source: Bytes, o: Options): Option<Bytes> {
    match PartsOf(source, o.alias)
    case None => None
    case Some(p) => Some(source[..BomLength(source)] + (Flatten(Block(o)) + Content(p)))
  }

  // ---- the loop ----

  function Added(p: Parts, stage: Stage, line: Bytes): Parts {
    match stage
    case Before => p.(before := p.before + [line])
    case Inside => p.(owned := p.owned + [line])
    case After => p.(after := p.after + [line])
  }

  function Joined(done: Parts, rest: Option<Parts>): Option<Parts> {
    if rest.None? then None
    else Some(Parts(done.before + rest.value.before, done.owned + rest.value.owned, done.after + rest.value.after))
  }

  lemma JoinedPlain(done: Parts, line: Bytes, rest: seq<Bytes>, alias: string, stage: Stage)
    requires Harmless(line, alias) && !stage.Inside?
    ensures Joined(done, Divide([line] + rest, alias, stage)) == Joined(Added(done, stage, line), Divide(rest, alias, stage))
  {
    BeginsIsHarmful(line, alias);
    Split([line], rest);
    hide Harmless, MarkOf;
    var r := Divide(rest, alias, stage);
    if r.Some? {
      Assoc(done.before, [line], r.value.before);
      Assoc(done.after, [line], r.value.after);
    }
  }

  lemma JoinedOwned(done: Parts, line: Bytes, rest: seq<Bytes>, alias: string, stage: Stage, next: Stage)
    requires (stage.Before? && MarkOf(line).Begins? && next.Inside?)
             || (stage.Inside? && !MarkOf(line).Begins? && next == if MarkOf(line).Ends? then After else Inside)
    ensures Joined(done, Divide([line] + rest, alias, stage)) == Joined(Added(done, Inside, line), Divide(rest, alias, next))
  {
    Split([line], rest);
    hide Harmless, MarkOf;
    var r := Divide(rest, alias, next);
    if r.Some? { Assoc(done.owned, [line], r.value.owned); }
  }

  /** The line at an offset, and what follows it. */
  method TakeLine(source: Bytes, offset: nat) returns (end: nat)
    requires offset < |source|
    ensures offset < end <= |source| && Lines(source[offset..]) == [source[offset..end]] + Lines(source[end..])
  {
    hide Lines, LineLength;
    end := offset;
    while end < |source| && source[end] != NEWLINE
      invariant offset <= end <= |source| && forall i | offset <= i < end :: source[i] != NEWLINE
    {
      end := end + 1;
    }
    if end < |source| { end := end + 1; }
    LineFound(source, offset, end);
  }

  lemma LineFound(source: Bytes, offset: nat, end: nat)
    requires offset < end <= |source| && (forall i | offset <= i < end - 1 :: source[i] != NEWLINE) && (source[end - 1] == NEWLINE || end == |source|)
    ensures Lines(source[offset..]) == [source[offset..end]] + Lines(source[end..])
  {
    var b := source[offset..];
    LineEnds(b, end - offset);
    LinesCons(b);
    hide Lines, LineLength;
    assert b[..end - offset] == source[offset..end] && b[end - offset..] == source[end..];
  }

  lemma LineEnds(b: Bytes, n: nat)
    requires 0 < n <= |b| && (forall i | 0 <= i < n - 1 :: b[i] != NEWLINE) && (b[n - 1] == NEWLINE || n == |b|)
    ensures LineLength(b) == n
  {
    assert b == b[..n] + b[n..];
    LineLengthIs(b[..n], b[n..]);
  }

  /** Where the loop stands, in offsets as it keeps them and in the lines it has passed. */
  ghost predicate Scanned(source: Bytes, alias: string, bom: nat, offset: nat, begin: Option<nat>, span: Option<(nat, nat)>, done: Parts, stage: Stage) {
    && bom <= offset <= |source|
    && Divide(Lines(source[bom..]), alias, Before) == Joined(done, Divide(Lines(source[offset..]), alias, stage))
    && source[bom..offset] == Flatten(done.before) + (Flatten(done.owned) + Flatten(done.after))
    && match stage
       case Before => begin.None? && span.None? && done.owned == [] && done.after == []
       case Inside => begin == Some(bom + |Flatten(done.before)|) && span.None? && done.owned != [] && done.after == []
       case After => begin.None? && span == Some((bom + |Flatten(done.before)|, bom + |Flatten(done.before)| + |Flatten(done.owned)|)) && done.owned != []
  }

  lemma SpanGrows(source: Bytes, bom: nat, offset: nat, end: nat, done: Parts, stage: Stage)
    requires bom <= offset <= end <= |source| && source[bom..offset] == Flatten(done.before) + (Flatten(done.owned) + Flatten(done.after))
    requires (stage.Before? ==> done.owned == [] && done.after == []) && (stage.Inside? ==> done.after == [])
    ensures var more := Added(done, stage, source[offset..end]); var line := source[offset..end];
            source[bom..end] == Flatten(more.before) + (Flatten(more.owned) + Flatten(more.after))
            && |Flatten(more.before)| == |Flatten(done.before)| + (if stage.Before? then |line| else 0)
            && |Flatten(more.owned)| == |Flatten(done.owned)| + (if stage.Inside? then |line| else 0)
  {
    var line := source[offset..end];
    FlattenHead<Byte>([]);
    hide Flatten;
    assert source[bom..end] == source[bom..offset] + line;
    var b, o, a := Flatten(done.before), Flatten(done.owned), Flatten(done.after);
    FlattenOne(line);
    FlattenAppend(done.before, [line]);
    FlattenAppend(done.owned, [line]);
    FlattenAppend(done.after, [line]);
    match stage {
      case Before =>
        Neutral(b);
        Neutral(b + line);
      case Inside =>
        Neutral(o);
        Neutral(o + line);
        Assoc(b, o, line);
      case After =>
        Assoc(b, o + a, line);
        Assoc(o, a, line);
    }
  }

  lemma PassPlain(source: Bytes, alias: string, bom: nat, offset: nat, end: nat, begin: Option<nat>, span: Option<(nat, nat)>, done: Parts, stage: Stage)
    requires Scanned(source, alias, bom, offset, begin, span, done, stage) && !stage.Inside? && offset < end <= |source|
    requires Lines(source[offset..]) == [source[offset..end]] + Lines(source[end..]) && Harmless(source[offset..end], alias)
    ensures Scanned(source, alias, bom, end, begin, span, Added(done, stage, source[offset..end]), stage)
  {
    hide Lines, Divide, Harmless, Flatten;
    JoinedPlain(done, source[offset..end], Lines(source[end..]), alias, stage);
    SpanGrows(source, bom, offset, end, done, stage);
  }

  lemma PassOwned(source: Bytes, alias: string, bom: nat, offset: nat, end: nat, begin: Option<nat>, span: Option<(nat, nat)>, done: Parts, stage: Stage)
    requires Scanned(source, alias, bom, offset, begin, span, done, stage) && offset < end <= |source|
    requires Lines(source[offset..]) == [source[offset..end]] + Lines(source[end..])
    requires var mark := MarkOf(source[offset..end]); (stage.Before? && mark.Begins?) || (stage.Inside? && !mark.Begins?)
    ensures var line := source[offset..end]; var next := if MarkOf(line).Ends? then After else Inside;
            Scanned(source, alias, bom, end,
                    if stage.Before? then Some(offset) else if next.After? then None else begin,
                    if next.After? then Some((if begin.Some? then begin.value else 0, end)) else None,
                    Added(done, Inside, line), next)
  {
    hide Lines, Divide, Flatten, MarkOf;
    var line := source[offset..end];
    var next := if MarkOf(line).Ends? then After else Inside;
    JoinedOwned(done, line, Lines(source[end..]), alias, stage, next);
    SpanGrows(source, bom, offset, end, done, Inside);
    BeforeOffset(source, bom, offset, done);
  }

  lemma BeforeOffset(source: Bytes, bom: nat, offset: nat, done: Parts)
    requires bom <= offset <= |source| && source[bom..offset] == Flatten(done.before) + (Flatten(done.owned) + Flatten(done.after))
    ensures offset == bom + |Flatten(done.before)| + |Flatten(done.owned)| + |Flatten(done.after)|
    ensures done.owned == [] ==> Flatten(done.owned) == []
    ensures done.after == [] ==> Flatten(done.after) == []
  {
  }

  /** A line on which the loop gives up is one that no division has room for. */
  lemma NoRoom(source: Bytes, alias: string, bom: nat, offset: nat, end: nat, begin: Option<nat>, span: Option<(nat, nat)>, done: Parts, stage: Stage)
    requires Scanned(source, alias, bom, offset, begin, span, done, stage) && offset < end <= |source|
    requires Lines(source[offset..]) == [source[offset..end]] + Lines(source[end..])
    requires var line := source[offset..end];
             if stage.Inside? then MarkOf(line).Begins? else !Harmless(line, alias) && !(stage.Before? && MarkOf(line).Begins?)
    ensures Divide(Lines(source[bom..]), alias, Before).None?
  {
    hide Lines, Flatten, MarkOf, Harmless;
  }

  /** The text of a line outside the block: whether it may stand there. */
  method CheckOutside(text: string, alias: string) returns (error: Option<Error>)
    ensures error.None? <==> HostPatterns(text).Some? && forall p | p in HostPatterns(text).value :: !SameName(p, alias)
    ensures error == Some(Conflict) ==> HostPatterns(text).Some? && exists p :: p in HostPatterns(text).value && SameName(p, alias)
  {
    hide HostPatterns, HostArguments, Patterns, SshConfigText.Reads, Meant, SameName;
    var patterns := ReadHostPatterns(text);
    if patterns.None? { return Some(Invalid); }
    for i := 0 to |patterns.value|
      invariant forall k | 0 <= k < i :: !SameName(patterns.value[k], alias)
    {
      if SameName(patterns.value[i], alias) {
        assert patterns.value[i] in patterns.value;
        return Some(Conflict);
      }
    }
    return None;
  }

  /** The loop over the lines: it finds the division of the source exactly when there is one, and cuts the block out. */
  method UnmanagedBytes(source: Bytes, alias: string) returns (r: Result<Unmanaged>)
    ensures match PartsOf(source, alias)
            case None => r.Err?
            case Some(p) => r == Ok(Unmanaged(source[..BomLength(source)], Content(p), p.owned != []))
  {
    hide Divide, Lines, Flatten, Scanned, MarkOf, Harmless;
    if Utf8.Decode(source).None? { return Err(Invalid); }
    var bom := BomLength(source);
    var begin: Option<nat> := None;
    var span: Option<(nat, nat)> := None;
    var offset := bom;
    ghost var done, stage := Parts([], [], []), Before;
    ScanStarts(source, alias, bom);
    while offset < |source|
      invariant bom <= offset <= |source| && Scanned(source, alias, bom, offset, begin, span, done, stage)
    {
      var end := TakeLine(source, offset);
      var line := source[offset..end];
      ScannedStage(source, alias, bom, offset, begin, span, done, stage);
      Reads(line, alias);
      var text := Utf8.Decode(Bare(line));
      var mark := if text.Some? then TextMark(text.value) else Plain;
      if mark.Begins? {
        if begin.Some? || span.Some? {
          NoRoom(source, alias, bom, offset, end, begin, span, done, stage);
          return Err(Invalid);
        }
        PassOwned(source, alias, bom, offset, end, begin, span, done, stage);
        begin := Some(offset);
        done, stage := Added(done, Inside, line), Inside;
      } else if mark.Ends? {
        if begin.None? {
          NoRoom(source, alias, bom, offset, end, begin, span, done, stage);
          return Err(Invalid);
        }
        PassOwned(source, alias, bom, offset, end, begin, span, done, stage);
        span, begin := Some((begin.value, end)), None;
        done, stage := Added(done, Inside, line), After;
      } else if begin.None? {
        var error := Some(Invalid);
        if text.Some? { error := CheckOutside(text.value, alias); }
        if error.Some? {
          NoRoom(source, alias, bom, offset, end, begin, span, done, stage);
          return Err(error.value);
        }
        PassPlain(source, alias, bom, offset, end, begin, span, done, stage);
        done := Added(done, stage, line);
      } else {
        PassOwned(source, alias, bom, offset, end, begin, span, done, stage);
        done := Added(done, Inside, line);
      }
      offset := end;
    }
    ScanDivides(source, alias, bom, begin, span, done, stage);
    if begin.Some? { return Err(Invalid); }
    ScanCuts(source, alias, bom, begin, span, done, stage);
    var content := if span.Some? then source[bom..span.value.0] + source[span.value.1..] else source[bom..];
    return Ok(Unmanaged(source[..bom], content, span.Some?));
  }

  /** How a line is looked at, and what it then means. */
  lemma Reads(line: Bytes, alias: string)
    ensures var text := Utf8.Decode(Bare(line));
            MarkOf(line) == (if text.Some? then TextMark(text.value) else Plain)
            && (Harmless(line, alias) <==> MarkOf(line).Plain? && text.Some? && HostPatterns(text.value).Some?
                                            && forall p | p in HostPatterns(text.value).value :: !SameName(p, alias))
  {
  }

  lemma ScanStarts(source: Bytes, alias: string, bom: nat)
    requires bom <= |source|
    ensures Scanned(source, alias, bom, bom, None, None, Parts([], [], []), Before)
  {
    FlattenHead<Byte>([]);
    var r := Divide(Lines(source[bom..]), alias, Before);
    if r.Some? {
      Neutral(r.value.before);
      Neutral(r.value.owned);
      Neutral(r.value.after);
    }
  }

  lemma ScannedStage(source: Bytes, alias: string, bom: nat, offset: nat, begin: Option<nat>, span: Option<(nat, nat)>, done: Parts, stage: Stage)
    requires Scanned(source, alias, bom, offset, begin, span, done, stage)
    ensures match stage case Before => begin.None? && span.None? case Inside => begin.Some? && span.None? case After => begin.None? && span.Some?
  {
  }

  lemma ScanDivides(source: Bytes, alias: string, bom: nat, begin: Option<nat>, span: Option<(nat, nat)>, done: Parts, stage: Stage)
    requires Scanned(source, alias, bom, |source|, begin, span, done, stage)
    ensures Divide(Lines(source[bom..]), alias, Before) == if begin.Some? then None else Some(done)
    ensures begin.None? ==> (span.Some? <==> done.owned != [])
  {
    hide Flatten, Lines, Divide;
    assert source[|source|..] == [];
    NothingMore(alias, stage);
    Neutral(done.before);
    Neutral(done.owned);
    Neutral(done.after);
  }

  lemma ScannedBytes(source: Bytes, alias: string, bom: nat, offset: nat, begin: Option<nat>, span: Option<(nat, nat)>, done: Parts, stage: Stage)
    requires Scanned(source, alias, bom, offset, begin, span, done, stage) && begin.None?
    ensures bom <= offset <= |source| && source[bom..offset] == Flatten(done.before) + (Flatten(done.owned) + Flatten(done.after))
    ensures span.None? ==> done.owned == [] && done.after == []
    ensures span.Some? ==> span.value == (bom + |Flatten(done.before)|, bom + |Flatten(done.before)| + |Flatten(done.owned)|)
  {
    hide Flatten, Lines, Divide;
  }

  lemma ScanCuts(source: Bytes, alias: string, bom: nat, begin: Option<nat>, span: Option<(nat, nat)>, done: Parts, stage: Stage)
    requires Scanned(source, alias, bom, |source|, begin, span, done, stage) && begin.None?
    ensures match span
      case None => source[bom..] == Content(done)
      case Some((x, y)) => bom <= x <= y <= |source| && source[bom..x] + source[y..] == Content(done)
  {
    hide Scanned;
    ScannedBytes(source, alias, bom, |source|, begin, span, done, stage);
    BeforeOffset(source, bom, |source|, done);
    hide Flatten;
    assert source[bom..|source|] == source[bom..];
    if span.Some? {
      CutOut(source, bom, Flatten(done.before), Flatten(done.owned), Flatten(done.after));
    } else {
      Neutral(Flatten(done.before));
      Neutral(Flatten(done.after));
    }
  }

  lemma NothingMore(alias: string, stage: Stage)
    ensures Lines([]) == [] && Divide([], alias, stage) == if stage.Inside? then None else Some(Parts([], [], []))
  {
  }

  lemma CutOut(source: Bytes, bom: nat, b: Bytes, o: Bytes, a: Bytes)
    requires bom <= |source| && source[bom..] == b + (o + a)
    ensures var x, y := bom + |b|, bom + |b| + |o|; y <= |source| && source[bom..x] + source[y..] == b + a
  {
    Pieces(source[bom..], b, o, a);
    assert source[bom..][..|b|] == source[bom..bom + |b|] && source[bom..][|b| + |o|..] == source[bom + |b| + |o|..];
  }

  lemma Pieces(s: Bytes, b: Bytes, o: Bytes, a: Bytes)
    requires s == b + (o + a)
    ensures s[..|b|] == b && s[|b| + |o|..] == a
  {
    Split(b, o + a);
    Assoc(b, o, a);
    Split(b + o, a);
  }

  method Preview(source: Bytes, o: Options) returns (r: Result<Bytes>)
    ensures match PreviewOf(source, o)
            case None => r.Err?
            case Some(content) => r == Ok(content)
  {
    hide PartsOf, Content;
    var unmanaged := UnmanagedBytes(source, o.alias);
    match unmanaged {
      case Err(e) => return Err(e);
      case Ok(u) => return Ok(u.bom + (Flatten(Block(o)) + u.content));
    }
  }

  // ---- what a preview keeps ----

  /** The unmanaged bytes and the byte order mark are kept, in order; only a block is taken out, and the new one put in front. */
  lemma KeepsUnmanaged(source: Bytes, o: Options)
    requires PreviewOf(source, o).Some?
    ensures var p := PartsOf(source, o.alias).value; var bom := source[..BomLength(source)];
            source == bom + (Flatten(p.before) + (Flatten(p.owned) + Flatten(p.after)))
            && PreviewOf(source, o).value == bom + (Flatten(Block(o)) + (Flatten(p.before) + Flatten(p.after)))
            && (p.owned == [] || IsBlock(p.owned)) && AllHarmless(p.before, o.alias) && AllHarmless(p.after, o.alias)
  {
    hide MarkOf, Harmless, IsBlock, AllHarmless, Flatten, Lines, Divide, Block;
    var body := source[BomLength(source)..];
    var p := PartsOf(source, o.alias).value;
    DivideSound(Lines(body), o.alias, Before);
    LinesAreLines(body);
    FlattenAppend(p.before, p.owned + p.after);
    FlattenAppend(p.owned, p.after);
    assert source == source[..BomLength(source)] + body;
  }

  lemma LineListParts(before: seq<Bytes>, owned: seq<Bytes>, after: seq<Bytes>)
    requires LineList(before + (owned + after)) && (owned == [] ==> after == [])
    ensures LineList(before + after)
  {
    hide IsLine, Closed;
    var all, some := before + (owned + after), before + after;
    forall i | 0 <= i < |some| ensures IsLine(some[i]) && (i < |some| - 1 ==> Closed(some[i])) {
      if i < |before| {
        assert all[i] == some[i];
      } else {
        assert all[i + |owned|] == some[i];
      }
    }
  }

  lemma LineListFront(block: seq<Bytes>, rest: seq<Bytes>)
    requires (forall i | 0 <= i < |block| :: IsLine(block[i]) && Closed(block[i])) && LineList(rest)
    ensures LineList(block + rest)
  {
    hide IsLine, Closed;
    var all := block + rest;
    forall i | 0 <= i < |all| ensures IsLine(all[i]) && (i < |all| - 1 ==> Closed(all[i])) {
      if i >= |block| { assert all[i] == rest[i - |block|]; }
    }
  }

  lemma DecodeFirst(a: Bytes, b: Bytes)
    requires a != [] && Utf8.DecodeChar(a).Some?
    ensures Utf8.DecodeChar(a + b) == Utf8.DecodeChar(a)
  {
    assert forall i | 0 <= i < |a| :: (a + b)[i] == a[i];
  }

  /** Texts put together are a text. */
  lemma {:induction false} DecodeAppend(a: Bytes, b: Bytes)
    requires Utf8.Decode(a).Some? && Utf8.Decode(b).Some?
    ensures Utf8.Decode(a + b).Some?
    decreases |a|
  {
    hide Utf8.DecodeChar;
    if a == [] {
      Neutral(b);
    } else {
      var n := Utf8.DecodeChar(a).value.1;
      DecodeFirst(a, b);
      DecodeAppend(a[n..], b);
      assert (a + b)[n..] == a[n..] + b;
    }
  }

  lemma {:induction false} DecodeAll(lines: seq<Bytes>)
    requires forall i | 0 <= i < |lines| :: Utf8.Decode(lines[i]).Some?
    ensures Utf8.Decode(Flatten(lines)).Some?
  {
    if lines != [] {
      assert forall i | 0 <= i < |lines| - 1 :: lines[1..][i] == lines[i + 1];
      DecodeAll(lines[1..]);
      DecodeAppend(lines[0], Flatten(lines[1..]));
    }
  }

  lemma HarmlessDecodes(line: Bytes, alias: string)
    requires Harmless(line, alias)
    ensures Utf8.Decode(line).Some?
  {
    hide Utf8.Decode, HostPatterns, MarkOf, SameName;
    if Bare(line) != line {
      assert line == Bare(line) + [NEWLINE];
      DecodeNewline();
      DecodeAppend(Bare(line), [NEWLINE]);
    }
  }

  lemma DecodeNewline()
    ensures Utf8.Decode([NEWLINE]).Some?
  {
    assert [NEWLINE][1..] == [];
  }

  lemma DecodeBom(source: Bytes)
    ensures Utf8.Decode(source[..BomLength(source)]).Some?
  {
    if BomLength(source) == 3 {
      assert BOM[3..] == [];
      assert Utf8.DecodeChar(BOM) == Some(('\U{feff}', 3));
    }
  }

  /** The new file begins with the same mark, or with the comment sign of the block if there is none. */
  lemma BomKept(bom: Bytes, rest: Bytes)
    requires (bom == BOM || bom == []) && rest != [] && rest[0] == 35
    ensures BomLength(bom + rest) == |bom| && (bom + rest)[|bom|..] == rest && (bom + rest)[..|bom|] == bom
  {
    if bom == [] { Neutral(rest); }
  }

  lemma BlockBegins(o: Options)
    ensures Flatten(Block(o)) != [] && Flatten(Block(o))[0] == 35
  {
    var lines := Block(o);
    assert lines[0] == LineOf(BEGIN_MARKER);
    assert BEGIN_MARKER[0] == '#';
    hide Block;
    FlattenHead(lines);
  }

  /** The lines of a preview: the block, then everything that is not managed. */
  lemma PreviewLines(source: Bytes, o: Options)
    requires Normal(o) && PreviewOf(source, o).Some?
    ensures var p := PartsOf(source, o.alias).value; var c := PreviewOf(source, o).value;
            BomLength(c) == BomLength(source) && c[..BomLength(c)] == source[..BomLength(source)]
            && Lines(c[BomLength(c)..]) == Block(o) + (p.before + p.after) && Utf8.Decode(c).Some?
  {
    hide PartsOf, PreviewOf, BomLength, Lines, Flatten, Utf8.Decode, Block, IsBlock, LineList, Harmless, AllHarmless, GoodLine;
    KeepsUnmanaged(source, o);
    BlockLines(o);
    BlockBegins(o);
    DecodeBom(source);
    PartsAreLines(source, o);
    BomIs(source);
    var p := PartsOf(source, o.alias).value;
    var bom := source[..BomLength(source)];
    PreviewBody(Block(o), p, o.alias);
    var body := Flatten(Block(o)) + (Flatten(p.before) + Flatten(p.after));
    BomKept(bom, body);
    DecodeAppend(bom, body);
  }

  lemma BomIs(source: Bytes)
    ensures source[..BomLength(source)] == BOM || source[..BomLength(source)] == []
  {
  }

  lemma PartsAreLines(source: Bytes, o: Options)
    requires PreviewOf(source, o).Some?
    ensures PartsOf(source, o.alias).Some?
    ensures var p := PartsOf(source, o.alias).value; LineList(p.before + (p.owned + p.after)) && (p.owned == [] ==> p.after == [])
  {
    hide Lines, Divide, Flatten, MarkOf, IsLine, Closed, Utf8.Decode, IsBlock, Harmless, AllHarmless, LineList, Block, Content, BomLength;
    LinesAreLines(source[BomLength(source)..]);
    DivideSound(Lines(source[BomLength(source)..]), o.alias, Before);
  }

  lemma PreviewBody(block: seq<Bytes>, p: Parts, alias: string)
    requires forall i | 0 <= i < |block| :: GoodLine(block[i])
    requires LineList(p.before + (p.owned + p.after)) && (p.owned == [] ==> p.after == []) && AllHarmless(p.before, alias) && AllHarmless(p.after, alias)
    ensures var body := Flatten(block) + (Flatten(p.before) + Flatten(p.after));
            Lines(body) == block + (p.before + p.after) && Utf8.Decode(body).Some?
  {
    hide Lines, Flatten, IsLine, Closed, Utf8.Decode, Harmless, LineList;
    var rest := p.before + p.after;
    LineListParts(p.before, p.owned, p.after);
    LineListFront(block, rest);
    FlattenAppend(p.before, p.after);
    FlattenAppend(block, rest);
    LinesBack(block + rest);
    var all := block + rest;
    forall i | 0 <= i < |all| ensures Utf8.Decode(all[i]).Some? {
      if i < |block| { assert GoodLine(block[i]); }
      else if i < |block| + |p.before| { HarmlessDecodes(p.before[i - |block|], alias); }
      else { HarmlessDecodes(p.after[i - |block| - |p.before|], alias); }
    }
    DecodeAll(all);
  }

  lemma HarmlessAppend(a: seq<Bytes>, b: seq<Bytes>, alias: string)
    ensures AllHarmless(a + b, alias) == (AllHarmless(a, alias) && AllHarmless(b, alias))
  {
    hide Harmless;
    var all := a + b;
    assert forall i | 0 <= i < |a| :: all[i] == a[i];
    assert forall i | 0 <= i < |b| :: all[|a| + i] == b[i];
    assert forall i | |a| <= i < |all| :: all[i] == b[i - |a|];
  }

  /** Behind the new block the unmanaged lines are read as before, for whichever alias. */
  lemma PartsOfPreview(source: Bytes, o: Options, alias: string)
    requires Normal(o) && PreviewOf(source, o).Some?
    ensures var p := PartsOf(source, o.alias).value; var c := PreviewOf(source, o).value;
            PartsOf(c, alias) == (if AllHarmless(p.before, alias) && AllHarmless(p.after, alias) then Some(Parts([], Block(o), p.before + p.after)) else None)
            && c[..BomLength(c)] == source[..BomLength(source)]
  {
    hide Lines, Divide, Flatten, Utf8.Decode, Block, IsBlock, AllHarmless, GoodLine, BomLength, Content;
    PreviewLines(source, o);
    BlockLines(o);
    var p := PartsOf(source, o.alias).value;
    BlockRun(Block(o), p.before + p.after, alias);
    AfterRun(p.before + p.after, alias);
    HarmlessAppend(p.before, p.after, alias);
  }

  /** Two aliases read the same source alike, except for what conflicts. */
  lemma PartsOfOther(source: Bytes, a: string, b: string)
    requires PartsOf(source, a).Some?
    ensures var p := PartsOf(source, a).value; PartsOf(source, b) == if AllHarmless(p.before, b) && AllHarmless(p.after, b) then Some(p) else None
  {
    hide Lines, Divide, Utf8.Decode, AllHarmless;
    OtherAlias(Lines(source[BomLength(source)..]), a, b, Before);
  }

  /**
     A preview forgets which preview was there before: writing for one alias and then for another gives the
     same bytes, or the same refusal, as writing for the second at once.  With the same alias twice, the
     second preview changes nothing.
   */
  lemma PreviewForgets(source: Bytes, first: Options, second: Options)
    requires Normal(first) && PreviewOf(source, first).Some?
    ensures PreviewOf(PreviewOf(source, first).value, second) == PreviewOf(source, second)
  {
    PartsOfPreview(source, first, second.alias);
    PartsOfOther(source, first.alias, second.alias);
    FlattenHead<Byte>([]);
    hide PartsOf, Flatten, Block, AllHarmless, BomLength;
    var p := PartsOf(source, first.alias).value;
    FlattenAppend(p.before, p.after);
    Neutral(Flatten(p.before + p.after));
  }

  /** Previewing what a preview produced reports no change. */
  lemma PreviewIsStable(source: Bytes, o: Options)
    requires Normal(o) && PreviewOf(source, o).Some?
    ensures PreviewOf(PreviewOf(source, o).value, o) == PreviewOf(source, o)
  {
    hide PreviewOf;
    PreviewForgets(source, o, o);
  }
}
