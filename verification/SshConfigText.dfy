/**
 The text of an SSH client configuration, line by line: the markers of the managed block and the patterns
 of Host directives.
 */
module SshConfigText {
  import opened Basics
  import Utf8

  const NEWLINE: Byte := 10

  // ---- white space ----

  predicate IsWhite(c: char) {
    ('\t' <= c <= '\r') || c == ' ' || c == '\U{a0}' || c == '\U{1680}' || ('\U{2000}' <= c <= '\U{200a}')
    || c == '\U{2028}' || c == '\U{2029}' || c == '\U{202f}' || c == '\U{205f}' || c == '\U{3000}' || c == '\U{feff}'
  }

  function TrimStart(s: string): string {
    if s != "" && IsWhite(s[0]) then TrimStart(s[1..]) else s
  }

  function TrimEnd(s: string): (t: string)
    ensures t <= s
    ensures s != "" && !IsWhite(s[0]) ==> t != "" && t[0] == s[0]
  {
    if s != "" && IsWhite(s[|s| - 1]) then TrimEnd(s[..|s| - 1]) else s
  }

  function Trim(s: string): string { TrimEnd(TrimStart(s)) }

  const BEGIN_MARKER: string := "# BEGIN usshtc107 managed"
  const END_MARKER: string := "# END usshtc107 managed"

  // ---- the patterns of a Host directive ----

  predicate IsBlank(c: char) { c == '\t' || c == ' ' }

  function SkipBlanks(s: string): string {
    if s != "" && IsBlank(s[0]) then SkipBlanks(s[1..]) else s
  }

  /** Lower case as far as it can matter beside an ASCII alias: the Kelvin sign becomes a plain k. */
  function Lower(c: char): char {
    if 'A' <= c <= 'Z' then (c as int + 32) as char else if c == '\U{212a}' then 'k' else c
  }

  predicate SameName(a: string, b: string) {
    |a| == |b| && forall i | 0 <= i < |a| :: Lower(a[i]) == Lower(b[i])
  }

  /** What follows a Host keyword and the blanks, or the equals sign, behind it. */
  function HostArguments(line: string): Option<string> {
    var s := SkipBlanks(line);
    if |s| < 4 || !(s[0] in "Hh" && s[1] in "Oo" && s[2] in "Ss" && s[3] in "Tt") then None
    else
      var rest := s[4..];
      if rest != "" && IsBlank(rest[0]) then Some(SkipBlanks(rest))
      else
        var r := SkipBlanks(rest);
        if r != "" && r[0] == '=' then Some(SkipBlanks(r[1..])) else None
  }

  function Finished(patterns: seq<string>, token: string): seq<string> {
    if token != "" then patterns + [token] else patterns
  }

  /** The rest of the arguments; none if a quote or an escape is left open. */
  function Patterns(s: string, patterns: seq<string>, token: string, quoted: bool, escaped: bool): Option<seq<string>>
    decreases |s|
  {
    if s == "" then if quoted || escaped then None else Some(Finished(patterns, token))
    else if escaped then Patterns(s[1..], patterns, token + [s[0]], quoted, false)
    else if s[0] == '\\' then Patterns(s[1..], patterns, token, quoted, true)
    else if s[0] == '"' then Patterns(s[1..], patterns, token, !quoted, false)
    else if !quoted && s[0] == '#' then Some(Finished(patterns, token))
    else if !quoted && (IsBlank(s[0]) || s[0] == '\r') then Patterns(s[1..], Finished(patterns, token), "", quoted, false)
    else Patterns(s[1..], patterns, token + [s[0]], quoted, false)
  }

  function HostPatterns(line: string): Option<seq<string>> {
    match HostArguments(line)
    case None => Some([])
    case Some(s) => Patterns(s, [], "", false, false)
  }

  // ---- what a pattern is ----

  /** Inside quotes a backslash keeps the character behind it. */
  datatype Inner = Raw(c: char) | Kept(c: char)

  /** The arguments piece by piece: patterns are what stands between gaps, with quotes and backslashes taken off. */
  datatype Piece = Gap(c: char) | Single(c: char) | Escaped(c: char) | Quoted(inner: seq<Inner>)

  predicate IsGap(c: char) { IsBlank(c) || c == '\r' }

  predicate InnerOk(i: Inner) { i.Raw? ==> i.c != '"' && i.c != '\\' }

  predicate PieceOk(p: Piece) {
    match p
    case Gap(c) => IsGap(c)
    case Single(c) => !IsGap(c) && c != '\\' && c != '"' && c != '#'
    case Escaped(_) => true
    case Quoted(inner) => forall i | i in inner :: InnerOk(i)
  }

  function InnerText(inner: seq<Inner>): string {
    if inner == [] then "" else (if inner[0].Raw? then [inner[0].c] else ['\\', inner[0].c]) + InnerText(inner[1..])
  }

  function InnerMeans(inner: seq<Inner>): string {
    if inner == [] then "" else [inner[0].c] + InnerMeans(inner[1..])
  }

  function PieceText(p: Piece): string {
    match p
    case Gap(c) => [c]
    case Single(c) => [c]
    case Escaped(c) => ['\\', c]
    case Quoted(inner) => "\"" + (InnerText(inner) + "\"")
  }

  function PieceMeans(p: Piece): string {
    match p
    case Gap(_) => ""
    case Single(c) => [c]
    case Escaped(c) => [c]
    case Quoted(inner) => InnerMeans(inner)
  }

  function Text(pieces: seq<Piece>): string {
    if pieces == [] then "" else PieceText(pieces[0]) + Text(pieces[1..])
  }

  /** The pattern up to the first gap. */
  function Leading(pieces: seq<Piece>): string {
    if pieces == [] || pieces[0].Gap? then "" else PieceMeans(pieces[0]) + Leading(pieces[1..])
  }

  /** The patterns between the gaps; an empty one counts for nothing. */
  function Meant(pieces: seq<Piece>): seq<string> {
    Finished([], Leading(pieces)) + MeantBehind(pieces)
  }

  function MeantBehind(pieces: seq<Piece>): seq<string>
    decreases pieces, 0
  {
    if pieces == [] then []
    else if pieces[0].Gap? then Finished([], Leading(pieces[1..])) + MeantBehind(pieces[1..])
    else MeantBehind(pieces[1..])
  }

  predicate AllOk(pieces: seq<Piece>) { forall p | p in pieces :: PieceOk(p) }

  predicate IsComment(s: string) { s == "" || s[0] == '#' }

  /** The arguments are these pieces, and perhaps a comment. */
  predicate Reads(s: string, pieces: seq<Piece>, comment: string) {
    AllOk(pieces) && IsComment(comment) && s == Text(pieces) + comment
  }

  lemma PatternsFirst(c: char, rest: string, patterns: seq<string>, token: string, quoted: bool, escaped: bool)
    ensures Patterns([c] + rest, patterns, token, quoted, escaped) ==
            if escaped then Patterns(rest, patterns, token + [c], quoted, false)
            else if c == '\\' then Patterns(rest, patterns, token, quoted, true)
            else if c == '"' then Patterns(rest, patterns, token, !quoted, false)
            else if !quoted && c == '#' then Some(Finished(patterns, token))
            else if !quoted && IsGap(c) then Patterns(rest, Finished(patterns, token), "", quoted, false)
            else Patterns(rest, patterns, token + [c], quoted, false)
  {
    hide Finished;
    Split([c], rest);
  }

  lemma PatternsOfNothing(patterns: seq<string>, token: string, quoted: bool, escaped: bool)
    ensures Patterns("", patterns, token, quoted, escaped) == if quoted || escaped then None else Some(Finished(patterns, token))
  {
  }

  /** What stands between quotes is added to the pattern, and reading goes on behind them. */
  lemma {:induction false} QuotedReads(inner: seq<Inner>, rest: string, patterns: seq<string>, token: string)
    requires forall i | i in inner :: InnerOk(i)
    ensures Patterns(InnerText(inner) + ("\"" + rest), patterns, token, true, false) == Patterns(rest, patterns, token + InnerMeans(inner), false, false)
    decreases |inner|
  {
    hide Patterns, Finished;
    var closing := "\"" + rest;
    if inner == [] {
      Neutral(closing);
      Neutral(token);
      PatternsFirst('"', rest, patterns, token, true, false);
    } else {
      var i, more := inner[0], InnerText(inner[1..]) + closing;
      assert InnerOk(i);
      Assoc(token, [i.c], InnerMeans(inner[1..]));
      QuotedReads(inner[1..], rest, patterns, token + [i.c]);
      PatternsFirst(i.c, more, patterns, token, true, i.Kept?);
      if i.Raw? {
        Assoc([i.c], InnerText(inner[1..]), closing);
      } else {
        PatternsFirst('\\', [i.c] + more, patterns, token, true, false);
        assert InnerText(inner) + closing == ['\\'] + ([i.c] + more);
      }
    }
  }

  /** One piece in front: a gap ends the pattern, anything else adds to it. */
  lemma PieceReads(p: Piece, rest: string, patterns: seq<string>, token: string)
    requires PieceOk(p)
    ensures Patterns(PieceText(p) + rest, patterns, token, false, false) ==
            if p.Gap? then Patterns(rest, Finished(patterns, token), "", false, false)
            else Patterns(rest, patterns, token + PieceMeans(p), false, false)
  {
    hide Patterns, Finished, InnerText, InnerMeans;
    match p {
      case Gap(c) => PatternsFirst(c, rest, patterns, token, false, false);
      case Single(c) => PatternsFirst(c, rest, patterns, token, false, false);
      case Escaped(c) =>
        PatternsFirst('\\', [c] + rest, patterns, token, false, false);
        PatternsFirst(c, rest, patterns, token, false, true);
        assert PieceText(p) + rest == ['\\'] + ([c] + rest);
      case Quoted(inner) =>
        PatternsFirst('"', InnerText(inner) + ("\"" + rest), patterns, token, false, false);
        Assoc(InnerText(inner), "\"", rest);
        Assoc("\"", InnerText(inner) + "\"", rest);
        QuotedReads(inner, rest, patterns, token);
    }
  }

  lemma FinishedApart(patterns: seq<string>, token: string)
    ensures Finished(patterns, token) == patterns + Finished([], token)
  {
  }

  /** What the pieces of an argument text mean is what reading it gives. */
  lemma {:induction false} TextReads(pieces: seq<Piece>, comment: string, patterns: seq<string>, token: string)
    requires AllOk(pieces) && IsComment(comment)
    ensures Patterns(Text(pieces) + comment, patterns, token, false, false) == Some(Finished(patterns, token + Leading(pieces)) + MeantBehind(pieces))
    decreases |pieces|
  {
    if pieces == [] {
      Neutral(comment);
      Neutral(token);
      Neutral(Finished(patterns, token));
    } else {
      hide Patterns, Finished, PieceText, PieceMeans;
      var p, rest := pieces[0], Text(pieces[1..]) + comment;
      Assoc(PieceText(p), Text(pieces[1..]), comment);
      PieceReads(p, rest, patterns, token);
      if p.Gap? {
        TextReads(pieces[1..], comment, Finished(patterns, token), "");
        Neutral(token);
        Neutral(Leading(pieces[1..]));
        FinishedApart(Finished(patterns, token), Leading(pieces[1..]));
        Assoc(Finished(patterns, token), Finished([], Leading(pieces[1..])), MeantBehind(pieces[1..]));
      } else {
        TextReads(pieces[1..], comment, patterns, token + PieceMeans(p));
        Assoc(token, PieceMeans(p), Leading(pieces[1..]));
      }
    }
  }

  /** Text that is accepted from inside quotes has their end. */
  lemma {:induction false} QuoteEnds(s: string, patterns: seq<string>, token: string) returns (inner: seq<Inner>, rest: string)
    requires Patterns(s, patterns, token, true, false).Some?
    ensures s == InnerText(inner) + ("\"" + rest) && |rest| < |s| && forall i | i in inner :: InnerOk(i)
    decreases |s|
  {
    hide Patterns, Finished;
    PatternsOfNothing(patterns, token, true, false);
    PatternsOfNothing(patterns, token, true, true);
    var c, tail := s[0], s[1..];
    assert s == [c] + tail;
    PatternsFirst(c, tail, patterns, token, true, false);
    if c == '"' {
      inner, rest := [], tail;
      Neutral("\"" + rest);
    } else if c == '\\' {
      assert tail == [tail[0]] + tail[1..];
      PatternsFirst(tail[0], tail[1..], patterns, token, true, true);
      var more;
      more, rest := QuoteEnds(tail[1..], patterns, token + [tail[0]]);
      inner := InnerFirst(Kept(tail[0]), more, "\"" + rest);
    } else {
      var more;
      more, rest := QuoteEnds(tail, patterns, token + [c]);
      inner := InnerFirst(Raw(c), more, "\"" + rest);
    }
  }

  lemma InnerFirst(first: Inner, more: seq<Inner>, rest: string) returns (inner: seq<Inner>)
    requires InnerOk(first) && forall i | i in more :: InnerOk(i)
    ensures InnerText(inner) + rest == (if first.Raw? then [first.c] else ['\\', first.c]) + (InnerText(more) + rest)
    ensures forall i | i in inner :: InnerOk(i)
  {
    inner := [first] + more;
    assert inner[1..] == more;
    Assoc(if first.Raw? then [first.c] else ['\\', first.c], InnerText(more), rest);
  }

  /** The first piece of an accepted text, and what is left of it. */
  lemma FirstPiece(s: string, patterns: seq<string>, token: string) returns (p: Piece, rest: string)
    requires Patterns(s, patterns, token, false, false).Some? && s != "" && s[0] != '#'
    ensures PieceOk(p) && s == PieceText(p) + rest && |rest| < |s|
  {
    hide Patterns, Finished, InnerText;
    PatternsOfNothing(patterns, token, false, true);
    var c, tail := s[0], s[1..];
    assert s == [c] + tail;
    PatternsFirst(c, tail, patterns, token, false, false);
    if c == '"' {
      var inner;
      inner, rest := QuoteEnds(tail, patterns, token);
      p := Quoted(inner);
      Assoc(InnerText(inner), "\"", rest);
      Assoc("\"", InnerText(inner) + "\"", rest);
    } else if c == '\\' {
      assert tail == [tail[0]] + tail[1..];
      p, rest := Escaped(tail[0]), tail[1..];
      assert s == ['\\', tail[0]] + rest;
    } else {
      p, rest := if IsGap(c) then Gap(c) else Single(c), tail;
    }
  }

  /** Whatever is accepted is the text of pieces and perhaps a comment. */
  lemma {:induction false} AcceptedReads(s: string, patterns: seq<string>, token: string) returns (pieces: seq<Piece>, comment: string)
    requires Patterns(s, patterns, token, false, false).Some?
    ensures Reads(s, pieces, comment)
    decreases |s|
  {
    hide Patterns, Finished, PieceText, PieceOk;
    if s == "" || s[0] == '#' {
      pieces, comment := [], s;
      Neutral(s);
    } else {
      var p, rest := FirstPiece(s, patterns, token);
      PieceReads(p, rest, patterns, token);
      var more;
      more, comment := AcceptedReads(rest, if p.Gap? then Finished(patterns, token) else patterns, if p.Gap? then "" else token + PieceMeans(p));
      pieces := [p] + more;
      assert pieces[1..] == more;
      Assoc(PieceText(p), Text(more), comment);
    }
  }

  /** The arguments are read exactly if they are pieces with perhaps a comment behind, and then as what these mean. */
  lemma PatternsAreMeant(s: string)
    ensures Patterns(s, [], "", false, false).Some? <==> exists pieces, comment :: Reads(s, pieces, comment)
    ensures forall pieces, comment | Reads(s, pieces, comment) :: Patterns(s, [], "", false, false) == Some(Meant(pieces))
  {
    forall pieces, comment | Reads(s, pieces, comment) ensures Patterns(s, [], "", false, false) == Some(Meant(pieces)) {
      TextReads(pieces, comment, [], "");
      assert "" + Leading(pieces) == Leading(pieces);
    }
    if Patterns(s, [], "", false, false).Some? {
      var pieces, comment := AcceptedReads(s, [], "");
    }
  }

  /** The patterns of a line, none in a line that is no Host directive; refused if a quote or a backslash is left open. */
  method ReadHostPatterns(line: string) returns (r: Option<seq<string>>)
    ensures r == HostPatterns(line)
    ensures HostArguments(line).None? ==> r == Some([])
    ensures HostArguments(line).Some? ==> (r.Some? <==> exists pieces, comment :: Reads(HostArguments(line).value, pieces, comment))
    ensures HostArguments(line).Some? ==>
              forall pieces, comment | Reads(HostArguments(line).value, pieces, comment) :: r == Some(Meant(pieces))
  {
    hide Reads, Meant;
    var arguments := HostArguments(line);
    if arguments.None? { return Some([]); }
    var s := arguments.value;
    PatternsAreMeant(s);
    var patterns: seq<string> := [];
    var token, quoted, escaped := "", false, false;
    var i := 0;
    assert s[0..] == s;
    while i < |s|
      invariant 0 <= i <= |s| && Patterns(s, [], "", false, false) == Patterns(s[i..], patterns, token, quoted, escaped)
    {
      assert s[i..][1..] == s[i + 1..];
      var c := s[i];
      if escaped {
        token, escaped := token + [c], false;
      } else if c == '\\' {
        escaped := true;
      } else if c == '"' {
        quoted := !quoted;
      } else if !quoted && c == '#' {
        return Some(Finished(patterns, token));
      } else if !quoted && (IsBlank(c) || c == '\r') {
        patterns, token := Finished(patterns, token), "";
      } else {
        token := token + [c];
      }
      i := i + 1;
    }
    if quoted || escaped { return None; }
    return Some(Finished(patterns, token));
  }

  // ---- lines ----

  /** The text cut behind each newline. */
  function Lines(b: Bytes): seq<Bytes>
    decreases |b|
  {
    if b == [] then []
    else
      var n := LineLength(b);
      [b[..n]] + Lines(b[n..])
  }

  function LineLength(b: Bytes): (n: nat)
    requires b != []
    ensures 0 < n <= |b|
    ensures forall i | 0 <= i < n - 1 :: b[i] != NEWLINE
    ensures b[n - 1] == NEWLINE || (n == |b| && NEWLINE !in b)
  {
    if b[0] == NEWLINE || |b| == 1 then 1 else 1 + LineLength(b[1..])
  }

  /** A line without the newline at its end, if it has one. */
  function Bare(line: Bytes): Bytes {
    if line != [] && line[|line| - 1] == NEWLINE then line[..|line| - 1] else line
  }

  datatype Mark = Begins | Ends | Plain

  /** A marker counts with any white space around it. */
  function TextMark(text: string): Mark {
    if Trim(text) == BEGIN_MARKER then Begins else if Trim(text) == END_MARKER then Ends else Plain
  }

  /** A line that begins or ends a managed block. */
  function MarkOf(line: Bytes): Mark {
    var text := Utf8.Decode(Bare(line));
    if text.None? then Plain else TextMark(text.value)
  }

  /** A line that may stand outside the managed block for an alias. */
  predicate Harmless(line: Bytes, alias: string) {
    MarkOf(line).Plain?
    && match Utf8.Decode(Bare(line))
       case None => false
       case Some(text) => HostPatterns(text).Some? && forall p | p in HostPatterns(text).value :: !SameName(p, alias)
  }

  /** One whole line: at least one byte, and no newline but the last. */
  predicate IsLine(line: Bytes) {
    line != [] && forall i | 0 <= i < |line| - 1 :: line[i] != NEWLINE
  }

  predicate Closed(line: Bytes) { line != [] && line[|line| - 1] == NEWLINE }

  /** Lines as a text is cut into: only the last may lack its newline. */
  predicate LineList(lines: seq<Bytes>) {
    forall i | 0 <= i < |lines| :: IsLine(lines[i]) && (i < |lines| - 1 ==> Closed(lines[i]))
  }

  lemma {:induction false} LinesAreLines(b: Bytes)
    ensures LineList(Lines(b)) && Flatten(Lines(b)) == b
    decreases |b|
  {
    hide Lines, Flatten;
    LinesOfNothing();
    if b != [] {
      var n := LineLength(b);
      assert IsLine(b[..n]) && (n < |b| ==> Closed(b[..n]));
      LinesAreLines(b[n..]);
      LinesCons(b);
      hide IsLine, Closed;
      FlattenCons(b[..n], Lines(b[n..]));
      assert b == b[..n] + b[n..];
      var all, rest := Lines(b), Lines(b[n..]);
      forall i | 0 <= i < |all| ensures IsLine(all[i]) && (i < |all| - 1 ==> Closed(all[i])) {
        if i > 0 { assert all[i] == rest[i - 1]; }
      }
    }
  }

  lemma LinesOfNothing()
    ensures Lines([]) == [] && Flatten<Byte>([]) == []
  {
  }

  lemma LinesCons(b: Bytes)
    requires b != []
    ensures Lines(b) == [b[..LineLength(b)]] + Lines(b[LineLength(b)..]) && (LineLength(b) == |b| ==> Lines(b) == [b])
  {
    var n := LineLength(b);
    if n == |b| { assert b[n..] == [] && b[..n] == b; }
  }

  lemma {:induction false} LineLengthIs(line: Bytes, rest: Bytes)
    requires IsLine(line) && (Closed(line) || rest == [])
    ensures LineLength(line + rest) == |line|
  {
    var b := line + rest;
    if |line| == 1 {
      assert b[0] == line[0];
    } else {
      assert b[0] == line[0] != NEWLINE;
      assert b[1..] == line[1..] + rest;
      LineLengthIs(line[1..], rest);
    }
  }

  lemma FirstLine(line: Bytes, rest: Bytes)
    requires IsLine(line) && (Closed(line) || rest == [])
    ensures Lines(line + rest) == [line] + Lines(rest)
  {
    LineLengthIs(line, rest);
    LinesCons(line + rest);
    Split(line, rest);
  }

  /** Lines put together are cut into the same lines again. */
  lemma {:induction false} LinesBack(lines: seq<Bytes>)
    requires LineList(lines)
    ensures Lines(Flatten(lines)) == lines
  {
    if lines != [] {
      hide Flatten, Lines;
      assert forall i | 0 <= i < |lines| - 1 :: lines[1..][i] == lines[i + 1];
      LinesBack(lines[1..]);
      assert lines == [lines[0]] + lines[1..];
      FlattenCons(lines[0], lines[1..]);
      FlattenHead<Byte>(lines[1..]);
      FirstLine(lines[0], Flatten(lines[1..]));
    }
  }
}
