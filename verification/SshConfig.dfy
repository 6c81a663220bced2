/**
 The managed block of an SSH client configuration: which bytes belong to it, and what a preview makes of a
 file.  All other bytes are kept.
 */
module SshConfig {
  import opened Basics
  import opened Names
  import opened Numbers
  import opened SshConfigText
  import Utf8

  datatype Options = Options(alias: string, host: string, port: nat, keyPath: string)

  predicate Normal(o: Options) {
    1 <= o.port <= 65535 && !HasControl(o.alias) && !HasControl(o.host) && !HasControl(o.keyPath)
  }

  // ---- the block ----

  function Escaped(s: string): string {
    if s == "" then "" else (if s[0] == '\\' || s[0] == '"' then ['\\', s[0]] else [s[0]]) + Escaped(s[1..])
  }

  function BlockText(o: Options): seq<string> {
    [ BEGIN_MARKER,
      "Host " + o.alias,
      "  " + ("HostName " + o.host),
      "  " + ("Port " + Decimal(o.port)),
      "  " + "User user",
      "  " + ("IdentityFile \"" + (Escaped(o.keyPath) + "\"")),
      "  " + "IdentitiesOnly yes",
      "  " + "StrictHostKeyChecking accept-new",
      "Host *",
      END_MARKER ]
  }

  function LineOf(text: string): Bytes { Utf8.Encode(text) + [NEWLINE] }

  function LinesOf(texts: seq<string>): (lines: seq<Bytes>)
    ensures |lines| == |texts| && forall i | 0 <= i < |lines| :: lines[i] == LineOf(texts[i])
  {
    if texts == [] then [] else [LineOf(texts[0])] + LinesOf(texts[1..])
  }

  function Block(o: Options): seq<Bytes> { LinesOf(BlockText(o)) }

  // ---- which lines are managed ----

  datatype Parts = Parts(before: seq<Bytes>, owned: seq<Bytes>, after: seq<Bytes>)

  datatype Stage = Before | Inside | After

  predicate AllHarmless(lines: seq<Bytes>, alias: string) {
    forall i | 0 <= i < |lines| :: Harmless(lines[i], alias)
  }

  /** A block with its two markers and none in between. */
  predicate IsBlock(lines: seq<Bytes>) {
    |lines| >= 2 && MarkOf(lines[0]).Begins? && MarkOf(lines[|lines| - 1]).Ends?
    && forall i | 0 < i < |lines| - 1 :: MarkOf(lines[i]).Plain?
  }

  /** The lines are those before a block, the block, and those behind it; at most one block, and nothing outside conflicts. */
  predicate Divides(lines: seq<Bytes>, alias: string, p: Parts) {
    lines == p.before + (p.owned + p.after) && AllHarmless(p.before, alias) && AllHarmless(p.after, alias)
    && if p.owned == [] then p.after == [] else IsBlock(p.owned)
  }

  function Divide(lines: seq<Bytes>, alias: string, stage: Stage): Option<Parts>
    decreases |lines|
  {
    if lines == [] then if stage.Inside? then None else Some(Parts([], [], []))
    else
      var line := lines[0];
      match stage
      case Before =>
        if MarkOf(line).Begins? then Owned(line, Divide(lines[1..], alias, Inside))
        else if Harmless(line, alias) then
          var rest := Divide(lines[1..], alias, Before);
          if rest.None? then None else Some(rest.value.(before := [line] + rest.value.before))
        else None
      case Inside =>
        if MarkOf(line).Begins? then None
        else Owned(line, Divide(lines[1..], alias, if MarkOf(line).Ends? then After else Inside))
      case After =>
        if Harmless(line, alias) then
          var rest := Divide(lines[1..], alias, After);
          if rest.None? then None else Some(rest.value.(after := [line] + rest.value.after))
        else None
  }

  function Owned(line: Bytes, rest: Option<Parts>): Option<Parts> {
    if rest.None? then None else Some(rest.value.(owned := [line] + rest.value.owned))
  }

  /** What is found of a division from a later stage on. */
  predicate DividesFrom(lines: seq<Bytes>, alias: string, stage: Stage, p: Parts) {
    match stage
    case Before => Divides(lines, alias, p)
    case Inside =>
      p.before == [] && p.owned != [] && MarkOf(p.owned[|p.owned| - 1]).Ends?
      && (forall i | 0 <= i < |p.owned| - 1 :: MarkOf(p.owned[i]).Plain?)
      && lines == p.owned + p.after && AllHarmless(p.after, alias)
    case After => p.before == [] && p.owned == [] && lines == p.after && AllHarmless(p.after, alias)
  }

  lemma HarmlessMore(line: Bytes, lines: seq<Bytes>, alias: string)
    requires Harmless(line, alias) && AllHarmless(lines, alias)
    ensures AllHarmless([line] + lines, alias)
  {
    hide Harmless;
  }

  lemma StepBefore(line: Bytes, rest: seq<Bytes>, alias: string, q: Parts)
    requires Harmless(line, alias) && DividesFrom(rest, alias, Before, q)
    ensures DividesFrom([line] + rest, alias, Before, q.(before := [line] + q.before))
  {
    hide Harmless, AllHarmless, IsBlock;
    HarmlessMore(line, q.before, alias);
    Assoc([line], q.before, q.owned + q.after);
  }

  lemma StepBegins(line: Bytes, rest: seq<Bytes>, alias: string, q: Parts)
    requires MarkOf(line).Begins? && DividesFrom(rest, alias, Inside, q)
    ensures DividesFrom([line] + rest, alias, Before, q.(owned := [line] + q.owned))
  {
    hide AllHarmless, MarkOf;
    var owned := [line] + q.owned;
    assert AllHarmless([], alias) by { NoneHarmful(alias); }
    assert owned[|owned| - 1] == q.owned[|q.owned| - 1];
    assert forall i | 0 < i < |owned| - 1 :: owned[i] == q.owned[i - 1];
    Assoc([line], q.owned, q.after);
    Neutral(owned + q.after);
  }

  lemma NoneHarmful(alias: string)
    ensures AllHarmless([], alias)
  {
  }

  lemma StepInside(line: Bytes, rest: seq<Bytes>, alias: string, q: Parts)
    requires MarkOf(line).Plain? && DividesFrom(rest, alias, Inside, q)
    ensures DividesFrom([line] + rest, alias, Inside, q.(owned := [line] + q.owned))
  {
    hide AllHarmless, MarkOf;
    var owned := [line] + q.owned;
    assert owned[|owned| - 1] == q.owned[|q.owned| - 1];
    assert forall i | 0 < i < |owned| - 1 :: owned[i] == q.owned[i - 1];
    Assoc([line], q.owned, q.after);
  }

  lemma StepEnds(line: Bytes, rest: seq<Bytes>, alias: string, q: Parts)
    requires MarkOf(line).Ends? && DividesFrom(rest, alias, After, q)
    ensures DividesFrom([line] + rest, alias, Inside, q.(owned := [line] + q.owned))
  {
    hide AllHarmless, MarkOf;
    Neutral([line]);
  }

  lemma StepAfter(line: Bytes, rest: seq<Bytes>, alias: string, q: Parts)
    requires Harmless(line, alias) && DividesFrom(rest, alias, After, q)
    ensures DividesFrom([line] + rest, alias, After, q.(after := [line] + q.after))
  {
    hide Harmless, AllHarmless;
    HarmlessMore(line, q.after, alias);
  }

  lemma {:induction false} DivideSound(lines: seq<Bytes>, alias: string, stage: Stage)
    requires Divide(lines, alias, stage).Some?
    ensures DividesFrom(lines, alias, stage, Divide(lines, alias, stage).value)
    decreases |lines|
  {
    if lines == [] {
      NoneHarmful(alias);
    } else {
      hide MarkOf, Harmless, DividesFrom;
      var line, rest := lines[0], lines[1..];
      assert lines == [line] + rest;
      var next := if stage.Before? then if MarkOf(line).Begins? then Inside else Before
                  else if stage.Inside? && !MarkOf(line).Ends? then Inside else After;
      DivideSound(rest, alias, next);
      var q := Divide(rest, alias, next).value;
      if stage.Before? {
        if next.Inside? { StepBegins(line, rest, alias, q); } else { StepBefore(line, rest, alias, q); }
      } else if stage.Inside? {
        if next.After? { StepEnds(line, rest, alias, q); } else { StepInside(line, rest, alias, q); }
      } else {
        StepAfter(line, rest, alias, q);
      }
    }
  }

  /** A block comes off the front: the rest is read as what stands behind it. */
  lemma {:induction false} InsideRun(owned: seq<Bytes>, rest: seq<Bytes>, alias: string)
    requires owned != [] && MarkOf(owned[|owned| - 1]).Ends? && forall i | 0 <= i < |owned| - 1 :: MarkOf(owned[i]).Plain?
    ensures Divide(owned + rest, alias, Inside) == WithOwned(owned, Divide(rest, alias, After))
  {
    hide MarkOf, Harmless;
    HeadTail(owned, rest);
    Split([owned[0]], owned[1..] + rest);
    if |owned| == 1 {
      assert owned[1..] + rest == rest && owned == [owned[0]];
      if Divide(rest, alias, After).Some? { AfterOwnsNothing(rest, alias); Neutral(owned); }
    } else {
      InsideRun(owned[1..], rest, alias);
      if Divide(rest, alias, After).Some? { assert [owned[0]] + owned[1..] == owned; }
    }
  }

  function WithOwned(owned: seq<Bytes>, rest: Option<Parts>): Option<Parts> {
    if rest.None? then None else Some(rest.value.(owned := owned))
  }

  lemma AfterOwnsNothing(lines: seq<Bytes>, alias: string)
    requires Divide(lines, alias, After).Some?
    ensures Divide(lines, alias, After) == Some(Parts([], [], lines))
  {
    DivideSound(lines, alias, After);
  }

  lemma BlockRun(block: seq<Bytes>, rest: seq<Bytes>, alias: string)
    requires IsBlock(block)
    ensures Divide(block + rest, alias, Before) == WithOwned(block, Divide(rest, alias, After))
  {
    hide MarkOf, Harmless;
    HeadTail(block, rest);
    Split([block[0]], block[1..] + rest);
    assert forall i | 0 <= i < |block| - 2 :: block[1..][i] == block[i + 1];
    InsideRun(block[1..], rest, alias);
    if Divide(rest, alias, After).Some? { assert [block[0]] + block[1..] == block; }
  }

  lemma {:induction false} AfterRun(lines: seq<Bytes>, alias: string)
    ensures Divide(lines, alias, After) == if AllHarmless(lines, alias) then Some(Parts([], [], lines)) else None
  {
    if lines != [] {
      hide Harmless;
      AfterRun(lines[1..], alias);
      assert lines == [lines[0]] + lines[1..];
      assert AllHarmless(lines, alias) == (Harmless(lines[0], alias) && AllHarmless(lines[1..], alias)) by {
        assert forall i | 0 <= i < |lines| - 1 :: lines[1..][i] == lines[i + 1];
        assert forall i | 0 < i < |lines| :: lines[i] == lines[1..][i - 1];
      }
    }
  }

  /** Which lines are managed does not depend on the alias; the alias only decides whether anything conflicts. */
  lemma {:induction false} OtherAlias(lines: seq<Bytes>, a: string, b: string, stage: Stage)
    requires Divide(lines, a, stage).Some?
    ensures var p := Divide(lines, a, stage).value;
            Divide(lines, b, stage) == if AllHarmless(p.before, b) && AllHarmless(p.after, b) then Some(p) else None
    decreases |lines|
  {
    NoneHarmful(b);
    if lines != [] {
      var line, rest := lines[0], lines[1..];
      var next := if stage.Before? then if MarkOf(line).Begins? then Inside else Before
                  else if stage.Inside? && !MarkOf(line).Ends? then Inside else After;
      BeginsIsHarmful(line, b);
      hide MarkOf, Harmless;
      OtherAlias(rest, a, b, next);
      var q := Divide(rest, a, next).value;
      AllHarmlessCons(line, q.before, b);
      AllHarmlessCons(line, q.after, b);
    }
  }

  lemma BeginsIsHarmful(line: Bytes, alias: string)
    ensures !MarkOf(line).Plain? ==> !Harmless(line, alias)
  {
  }

  lemma AllHarmlessCons(line: Bytes, lines: seq<Bytes>, alias: string)
    ensures AllHarmless([line] + lines, alias) == (Harmless(line, alias) && AllHarmless(lines, alias))
  {
    hide Harmless;
    var all := [line] + lines;
    assert all[0] == line && forall i | 0 <= i < |lines| :: all[i + 1] == lines[i];
    assert forall i | 0 < i < |all| :: all[i] == lines[i - 1];
  }

  lemma {:induction false} BeforeRun(before: seq<Bytes>, rest: seq<Bytes>, alias: string)
    requires AllHarmless(before, alias)
    ensures Divide(before + rest, alias, Before) ==
      var r := Divide(rest, alias, Before); if r.None? then None else Some(r.value.(before := before + r.value.before))
  {
    if before == [] {
      Neutral(rest);
      if Divide(rest, alias, Before).Some? { Neutral(Divide(rest, alias, Before).value.before); }
    } else {
      assert before == [before[0]] + before[1..];
      AllHarmlessCons(before[0], before[1..], alias);
      BeginsIsHarmful(before[0], alias);
      hide MarkOf, Harmless, AllHarmless;
      HeadTail(before, rest);
      Split([before[0]], before[1..] + rest);
      BeforeRun(before[1..], rest, alias);
      var r := Divide(rest, alias, Before);
      if r.Some? { Assoc([before[0]], before[1..], r.value.before); }
    }
  }

  /** Every division is found: there is at most one. */
  lemma DivideComplete(lines: seq<Bytes>, alias: string, p: Parts)
    requires Divides(lines, alias, p)
    ensures Divide(lines, alias, Before) == Some(p)
  {
    hide Harmless, MarkOf, Divide, AllHarmless, IsBlock;
    BeforeRun(p.before, p.owned + p.after, alias);
    Neutral(p.before);
    if p.owned == [] {
      NothingLeft(alias);
    } else {
      BlockRun(p.owned, p.after, alias);
      AfterRun(p.after, alias);
    }
  }

  lemma NothingLeft(alias: string)
    ensures Divide([], alias, Before) == Some(Parts([], [], []))
  {
  }

  // ---- the block's own lines ----

  lemma {:induction false} EscapedPlain(s: string)
    requires '\n' !in s
    ensures '\n' !in Escaped(s)
  {
    if s != "" {
      assert s[0] in s && forall c | c in s[1..] :: c in s;
      EscapedPlain(s[1..]);
    }
  }

  lemma NoNewline(s: string)
    requires !HasControl(s)
    ensures '\n' !in s
  {
  }

  /** A text without a newline makes one line, which reads back as the text. */
  lemma LineOfIsLine(text: string)
    requires '\n' !in text
    ensures IsLine(LineOf(text)) && Closed(LineOf(text)) && Utf8.Decode(Bare(LineOf(text))) == Some(text)
  {
    Utf8.NewlineBytes(text);
    Utf8.RoundTrip(text);
    var b := Utf8.Encode(text);
    assert LineOf(text)[..|b|] == b;
    forall i | 0 <= i < |b| ensures LineOf(text)[i] != NEWLINE { assert b[i] in b; }
  }

  lemma MarkOfText(text: string)
    requires '\n' !in text
    ensures MarkOf(LineOf(text)) == TextMark(text)
  {
    LineOfIsLine(text);
  }

  lemma TrimSame(s: string)
    requires s != "" && !IsWhite(s[0]) && !IsWhite(s[|s| - 1])
    ensures Trim(s) == s
  {
  }

  lemma MarksOfMarkers()
    ensures TextMark(BEGIN_MARKER).Begins? && TextMark(END_MARKER).Ends?
  {
    hide Trim;
    TrimSame(BEGIN_MARKER);
    TrimSame(END_MARKER);
    assert BEGIN_MARKER[2] == 'B' && END_MARKER[2] == 'E';
  }

  lemma TrimHead(text: string)
    requires text != "" && !IsWhite(text[0])
    ensures Trim(text) != "" && Trim(text)[0] == text[0]
  {
  }

  lemma TrimIndented(text: string)
    ensures Trim("  " + text) == Trim(text)
  {
    assert ("  " + text)[1..] == " " + text && (" " + text)[1..] == text;
    assert TrimStart("  " + text) == TrimStart(" " + text) == TrimStart(text);
  }

  /** A text that begins with a letter is no marker, even indented. */
  lemma PlainText(text: string)
    requires text != "" && !IsWhite(text[0]) && text[0] != '#'
    ensures TextMark(text).Plain? && TextMark("  " + text).Plain?
  {
    hide Trim, IsWhite;
    TrimHead(text);
    TrimIndented(text);
    assert BEGIN_MARKER[0] == '#' && END_MARKER[0] == '#';
  }

  lemma {:induction false} DecimalPlain(n: nat)
    ensures '\n' !in Decimal(n)
  {
    DecimalNumber(n);
  }

  lemma BlockTexts(o: Options)
    requires Normal(o)
    ensures forall i | 0 <= i < 10 :: '\n' !in BlockText(o)[i]
    ensures TextMark(BlockText(o)[0]).Begins? && TextMark(BlockText(o)[9]).Ends?
    ensures forall i | 0 < i < 9 :: TextMark(BlockText(o)[i]).Plain?
  {
    hide TextMark, Decimal, Escaped, HasControl;
    NoNewline(o.alias);
    NoNewline(o.host);
    NoNewline(o.keyPath);
    EscapedPlain(o.keyPath);
    DecimalPlain(o.port);
    MarksOfMarkers();
    PlainText("Host " + o.alias);
    PlainText("Host *");
    PlainText("HostName " + o.host);
    PlainText("Port " + Decimal(o.port));
    PlainText("User user");
    PlainText("IdentityFile \"" + (Escaped(o.keyPath) + "\""));
    PlainText("IdentitiesOnly yes");
    PlainText("StrictHostKeyChecking accept-new");
  }

  /** A whole line in UTF-8, with its newline. */
  predicate GoodLine(line: Bytes) { IsLine(line) && Closed(line) && Utf8.Decode(line).Some? }

  lemma GoodLineOf(text: string)
    requires '\n' !in text
    ensures GoodLine(LineOf(text)) && MarkOf(LineOf(text)) == TextMark(text)
  {
    LineOfIsLine(text);
    LineDecodes(text);
    MarkOfText(text);
  }

  /** The texts of a block: markers at both ends and none in between. */
  predicate TextBlock(texts: seq<string>) {
    |texts| >= 2 && TextMark(texts[0]).Begins? && TextMark(texts[|texts| - 1]).Ends?
    && (forall i | 0 < i < |texts| - 1 :: TextMark(texts[i]).Plain?) && forall i | 0 <= i < |texts| :: '\n' !in texts[i]
  }

  lemma BlockOfTexts(texts: seq<string>)
    requires TextBlock(texts)
    ensures IsBlock(LinesOf(texts)) && forall i | 0 <= i < |texts| :: GoodLine(LinesOf(texts)[i])
  {
    hide MarkOf, TextMark, LineOf, GoodLine, LinesOf;
    var lines := LinesOf(texts);
    forall i | 0 <= i < |texts| ensures GoodLine(lines[i]) && MarkOf(lines[i]) == TextMark(texts[i]) {
      GoodLineOf(texts[i]);
      assert lines[i] == LineOf(texts[i]);
    }
  }

  lemma BlockLines(o: Options)
    requires Normal(o)
    ensures IsBlock(Block(o)) && forall i | 0 <= i < |Block(o)| :: GoodLine(Block(o)[i])
  {
    assert TextBlock(BlockText(o)) by { BlockTexts(o); hide TextMark; }
    hide TextBlock, BlockText, GoodLine, IsBlock;
    BlockOfTexts(BlockText(o));
  }

  lemma LineDecodes(text: string)
    ensures Utf8.Decode(LineOf(text)).Some?
  {
    Utf8.EncodeAppend(text, "\n");
    assert Utf8.Encode("\n") == [NEWLINE] by { assert "\n"[1..] == ""; }
    Utf8.RoundTrip(text + "\n");
  }
}
