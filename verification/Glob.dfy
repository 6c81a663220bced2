/**
 The glob matcher: an index-driven pattern parser and a matcher that keeps two rows of a
 dynamic-programming table and swaps them.
 */
module Glob {
  import opened Basics
  import opened Names
  import opened GlobPattern

  // ---- the parser ----

  function Prefixed<T>(done: seq<T>, rest: Option<seq<T>>): Option<seq<T>> {
    if rest.None? then None else Some(done + rest.value)
  }

  lemma JoinOne<T>(done: seq<T>, one: T, rest: Option<seq<T>>)
    ensures Prefixed(done, Prefixed([one], rest)) == Prefixed(done + [one], rest)
  {
    if rest.Some? { Assoc(done, [one], rest.value); }
  }

  method ReadRanges(members: seq<Member>) returns (r: Option<seq<Range>>)
    ensures r == RangesOf(members)
  {
    var ranges: seq<Range> := [];
    var member := 0;
    assert members[0..] == members;
    if RangesOf(members).Some? { Neutral(RangesOf(members).value); }
    while member < |members|
      invariant 0 <= member <= |members|
      invariant RangesOf(members) == Prefixed(ranges, RangesOf(members[member..]))
    {
      var start := members[member].value;
      ghost var left := members[member..];
      if member + 2 < |members| && members[member + 1] == Member('-', false) {
        var end := members[member + 2].value;
        assert left[1] == Member('-', false) && left[2].value == end && left[3..] == members[member + 3..];
        if end < start { return None; }
        JoinOne(ranges, Range(start, end), RangesOf(left[3..]));
        ranges := ranges + [Range(start, end)];
        member := member + 3;
      } else {
        assert left[1..] == members[member + 1..];
        JoinOne(ranges, Range(start, start), RangesOf(left[1..]));
        ranges := ranges + [Range(start, start)];
        member := member + 1;
      }
    }
    assert members[member..] == [];
    Neutral(ranges);
    return Some(ranges);
  }

  function WithMembers(done: seq<Member>, rest: Option<(seq<Member>, string)>): Option<(seq<Member>, string)> {
    if rest.None? then None else Some((done + rest.value.0, rest.value.1))
  }

  /** The members from `start` on; `cursor` is left at the closing bracket. */
  method ReadMemberList(chars: string, start: nat) returns (r: Option<(seq<Member>, nat)>)
    requires start <= |chars|
    ensures match r
            case None => ReadFirst(chars[start..]).None?
            case Some((members, cursor)) =>
              start <= cursor < |chars| && chars[cursor] == ']' && members != [] && ReadFirst(chars[start..]) == Some((members, chars[cursor + 1..]))
  {
    var cursor := start;
    var members: seq<Member> := [];
    if cursor < |chars| && chars[cursor] == ']' {
      members, cursor := [Member(chars[cursor], false)], cursor + 1;
      assert chars[start..][1..] == chars[cursor..];
    } else if ReadMembers(chars[cursor..]).Some? {
      Neutral(ReadMembers(chars[cursor..]).value.0);
    }
    while cursor < |chars| && chars[cursor] != ']'
      invariant start <= cursor <= |chars| && (members == [] ==> cursor == start && !(start < |chars| && chars[start] == ']'))
      invariant ReadFirst(chars[start..]) == WithMembers(members, ReadMembers(chars[cursor..]))
    {
      var value := chars[cursor];
      var escaped := false;
      ghost var left := chars[cursor..];
      cursor := cursor + 1;
      assert left[1..] == chars[cursor..];
      if value == '\\' {
        if cursor == |chars| { return None; }
        value, escaped := chars[cursor], true;
        cursor := cursor + 1;
        assert left[2..] == chars[cursor..];
      }
      ghost var rest := ReadMembers(chars[cursor..]);
      if rest.Some? { Assoc(members, [Member(value, escaped)], rest.value.0); }
      members := members + [Member(value, escaped)];
    }
    if cursor == |chars| || members == [] { return None; }
    Neutral(members);
    assert chars[cursor..][1..] == chars[cursor + 1..];
    return Some((members, cursor));
  }

  /** The bracket expression opened at index `i`, and the index of the bracket that closes it. */
  method ReadClass(chars: string, i: nat) returns (r: Option<(Token, nat)>)
    requires i < |chars| && chars[i] == '['
    ensures match r
            case None => ReadBracket(chars[i + 1..]).None? || Meaning(ReadBracket(chars[i + 1..]).value.0).None?
            case Some((token, cursor)) =>
              i < cursor < |chars| && ReadBracket(chars[i + 1..]).Some? && token.Class?
              && Meaning(ReadBracket(chars[i + 1..]).value.0) == Some(token) && ReadBracket(chars[i + 1..]).value.1 == chars[cursor + 1..]
  {
    hide ReadFirst, RangesOf;
    var cursor := i + 1;
    var negative := cursor < |chars| && IsSign(chars[cursor]);
    if negative { cursor := cursor + 1; }
    assert negative ==> chars[i + 1..][1..] == chars[cursor..];
    var list := ReadMemberList(chars, cursor);
    if list.None? { return None; }
    var (members, closing) := list.value;
    var ranges := ReadRanges(members);
    if ranges.None? { return None; }
    return Some((Class(negative, ranges.value), closing));
  }

  /** A pattern that is rejected, because of its text, of what its pieces mean, or of its size. */
  ghost predicate Rejected(pattern: string, limits: Limits) {
    !ValidPatternText(pattern, limits) || Pieces(pattern).None?
    || (exists i :: 0 <= i < |Pieces(pattern).value| && Meaning(Pieces(pattern).value[i]).None?)
    || (exists i :: 0 <= i < |Pieces(pattern).value| - 1 && Pieces(pattern).value[i].StarPiece? && Pieces(pattern).value[i + 1].StarPiece?)
    || |Pieces(pattern).value| > limits.maxTokens
  }

  lemma AcceptedIsNotRejected(pattern: string, limits: Limits, p: Pattern)
    requires Accepted(pattern, limits, p)
    ensures !Rejected(pattern, limits)
  {
    hide Pieces, ValidPatternText, Meaning;
    ReadsIsPieces(pattern, p);
    var pieces := Pieces(pattern).value;
    forall i | 0 <= i < |pieces| ensures Meaning(pieces[i]).Some? {
      assert Meaning(pieces[i]) == Some(p.tokens[i]);
    }
    forall i | 0 <= i < |pieces| - 1 ensures !(pieces[i].StarPiece? && pieces[i + 1].StarPiece?) {
      StarMeansStar(pieces[i]);
      StarMeansStar(pieces[i + 1]);
      assert !(p.tokens[i].Star? && p.tokens[i + 1].Star?);
    }
  }

  lemma StarMeansStar(p: Piece)
    ensures Meaning(p) == Some(Star) <==> p.StarPiece?
  {
  }

  /** One more piece read behind those already done. */
  lemma PieceRead(pattern: string, i: nat, done: seq<Piece>)
    requires i < |pattern| && Pieces(pattern) == Prefixed(done, Pieces(pattern[i..]))
    ensures match ReadPiece(pattern[i..])
            case None => Pieces(pattern).None?
            case Some((piece, rest)) =>
              WellFormed(piece) && Pieces(pattern) == Prefixed(done + [piece], Pieces(rest))
              && (Pieces(pattern).Some? ==> |Pieces(pattern).value| > |done| && Pieces(pattern).value[|done|] == piece)
  {
    hide ReadPiece, WellFormed, PieceText;
    var first := ReadPiece(pattern[i..]);
    if first.Some? {
      JoinOne(done, first.value.0, Pieces(first.value.1));
      PieceForth(pattern[i..]);
    }
  }

  /** What the loop has established when it has read `done`. */
  ghost predicate ReadSoFar(pattern: string, i: nat, done: seq<Piece>, tokens: seq<Token>, magic: bool, limits: Limits) {
    && i <= |pattern| && Pieces(pattern) == Prefixed(done, Pieces(pattern[i..]))
    && Mean(done, tokens) && NoDoubleStar(tokens) && (|tokens| <= limits.maxTokens || done == [])
    && (magic <==> exists k :: 0 <= k < |done| && IsMagic(done[k]))
  }

  lemma ReadOneMore(pattern: string, i: nat, next: nat, done: seq<Piece>, piece: Piece, tokens: seq<Token>, token: Token, magic: bool, limits: Limits)
    requires ReadSoFar(pattern, i, done, tokens, magic, limits) && i < next <= |pattern|
    requires ReadPiece(pattern[i..]) == Some((piece, pattern[next..])) && Meaning(piece) == Some(token)
    requires !(tokens != [] && tokens[|tokens| - 1].Star? && token.Star?) && |tokens| < limits.maxTokens
    ensures ReadSoFar(pattern, next, done + [piece], tokens + [token], magic || IsMagic(piece), limits)
  {
    PieceRead(pattern, i, done);
    hide Pieces, ReadPiece, Meaning, WellFormed, IsMagic;
    var grown := done + [piece];
    assert grown[|done|] == piece && forall k | 0 <= k < |done| :: grown[k] == done[k];
  }

  /** Nothing that begins with an unreadable piece, a second star in a row or too many pieces is a pattern. */
  lemma ReadNoMore(pattern: string, i: nat, done: seq<Piece>, tokens: seq<Token>, magic: bool, limits: Limits)
    requires ReadSoFar(pattern, i, done, tokens, magic, limits) && i < |pattern|
    requires var next := ReadPiece(pattern[i..]);
             next.None? || Meaning(next.value.0).None? || |tokens| >= limits.maxTokens
             || (next.value.0.StarPiece? && tokens != [] && tokens[|tokens| - 1].Star?)
    ensures Rejected(pattern, limits)
  {
    PieceRead(pattern, i, done);
    hide Pieces, ReadPiece, WellFormed, IsMagic, ValidPatternText;
    var next := ReadPiece(pattern[i..]);
    if Pieces(pattern).Some? {
      var pieces := Pieces(pattern).value;
      assert pieces[|done|] == next.value.0;
      if tokens != [] && tokens[|tokens| - 1].Star? && next.value.0.StarPiece? {
        var k := |done| - 1;
        StarMeansStar(done[k]);
        assert pieces[k] == done[k];
      }
    }
  }

  /** One token at index `i`, whether it makes the pattern magic, and the index behind it. */
  method ReadToken(pattern: string, i: nat) returns (r: Option<(Token, bool, nat)>)
    requires i < |pattern|
    ensures var next := ReadPiece(pattern[i..]);
            match r
            case None => next.None? || Meaning(next.value.0).None?
            case Some((token, magic, after)) =>
              i < after <= |pattern| && next.Some? && next.value.1 == pattern[after..] && Meaning(next.value.0) == Some(token) && magic == IsMagic(next.value.0)
  {
    hide ReadBracket, RangesOf;
    ghost var left := pattern[i..];
    assert left[1..] == pattern[i + 1..];
    var c := pattern[i];
    if c == '\\' {
      if i + 1 == |pattern| { return None; }
      assert left[2..] == pattern[i + 2..];
      return Some((Literal(pattern[i + 1]), false, i + 2));
    } else if c == '*' {
      return Some((Star, true, i + 1));
    } else if c == '?' {
      return Some((AnyChar, true, i + 1));
    } else if c == '[' {
      var bracket := ReadClass(pattern, i);
      if bracket.None? { return None; }
      var (token, cursor) := bracket.value;
      return Some((token, true, cursor + 1));
    } else {
      return Some((Literal(c), false, i + 1));
    }
  }

  lemma NoneAccepted(pattern: string, limits: Limits)
    requires Rejected(pattern, limits)
    ensures forall p :: !Accepted(pattern, limits, p)
  {
    hide Rejected, Accepted;
    forall p ensures !Accepted(pattern, limits, p) {
      if Accepted(pattern, limits, p) { AcceptedIsNotRejected(pattern, limits, p); }
    }
  }

  lemma OneAccepted(pattern: string, limits: Limits, done: seq<Piece>, p: Pattern)
    requires ValidPatternText(pattern, limits) && ReadSoFar(pattern, |pattern|, done, p.tokens, p.magic, limits)
    ensures Accepted(pattern, limits, p) && forall q :: Accepted(pattern, limits, q) ==> q == p
  {
    hide ReadPiece, Meaning, WellFormed;
    assert pattern[|pattern|..] == "";
    Neutral(done);
    hide Pieces;
    assert done != [] by { PiecesForth(pattern); }
    ReadsIsPieces(pattern, p);
    forall q | Accepted(pattern, limits, q) ensures q == p {
      ReadsIsPieces(pattern, q);
      MeanOnce(done, p.tokens, q.tokens);
    }
  }

  lemma MeanOnce(pieces: seq<Piece>, a: seq<Token>, b: seq<Token>)
    requires Mean(pieces, a) && Mean(pieces, b)
    ensures a == b
  {
    hide Meaning, WellFormed;
    assert forall i | 0 <= i < |pieces| :: Meaning(pieces[i]) == Some(a[i]) && Meaning(pieces[i]) == Some(b[i]);
  }

  /**
     The parser decides the grammar: it accepts a pattern exactly if its text is that of some pieces
     within the limits, and then there is only one meaning, the one it returns.
   */
  method ParsePattern(pattern: string, limits: Limits) returns (r: Option<Pattern>)
    ensures r.Some? ==> Accepted(pattern, limits, r.value)
    ensures forall p :: Accepted(pattern, limits, p) ==> r == Some(p)
  {
    hide Pieces, ReadPiece, Meaning, WellFormed, Accepted, ReadSoFar;
    r := None;
    if !ValidPatternText(pattern, limits) {
      NoneAccepted(pattern, limits);
      return;
    }
    hide ValidPatternText, Rejected;
    var tokens: seq<Token> := [];
    var magic := false;
    var i := 0;
    ghost var done: seq<Piece> := [];
    NothingRead(pattern, limits);
    while i < |pattern|
      invariant i <= |pattern| && ReadSoFar(pattern, i, done, tokens, magic, limits)
    {
      var read := ReadToken(pattern, i);
      ghost var next := ReadPiece(pattern[i..]);
      if next.Some? && Meaning(next.value.0).Some? { StarMeansStar(next.value.0); }
      if read.None? || |tokens| >= limits.maxTokens || (read.value.0.Star? && tokens != [] && tokens[|tokens| - 1].Star?) {
        ReadNoMore(pattern, i, done, tokens, magic, limits);
        NoneAccepted(pattern, limits);
        return;
      }
      var (token, special, after) := read.value;
      ReadOneMore(pattern, i, after, done, next.value.0, tokens, token, magic, limits);
      done := done + [next.value.0];
      tokens, magic, i := tokens + [token], magic || special, after;
    }
    OneAccepted(pattern, limits, done, Pattern(tokens, magic));
    return Some(Pattern(tokens, magic));
  }

  lemma NothingRead(pattern: string, limits: Limits)
    ensures ReadSoFar(pattern, 0, [], [], false, limits)
  {
    hide Pieces;
    assert pattern[0..] == pattern;
    if Pieces(pattern).Some? { Neutral(Pieces(pattern).value); }
  }

  // ---- the matcher ----

  predicate Accepts(t: Token, c: char) {
    match t
    case AnyChar => true
    case Literal(value) => c == value
    case Class(negative, ranges) => negative != exists i :: 0 <= i < |ranges| && ranges[i].low <= c <= ranges[i].high
    case Star => false
  }

  /** A part of the name that one token stands for: any run for a star, one character otherwise. */
  predicate Stands(t: Token, part: string) {
    t.Star? || (|part| == 1 && Accepts(t, part[0]))
  }

  /** The name is cut into one part a token. */
  predicate Splits(tokens: seq<Token>, name: string, parts: seq<string>) {
    |parts| == |tokens| && Flatten(parts) == name && forall i | 0 <= i < |parts| :: Stands(tokens[i], parts[i])
  }

  ghost predicate Matches(tokens: seq<Token>, name: string) {
    exists parts :: Splits(tokens, name, parts)
  }

  lemma NoTokens(name: string)
    ensures Matches([], name) <==> name == ""
  {
    if name == "" { assert Splits([], "", []); }
  }

  lemma MatchOne(tokens: seq<Token>, t: Token, name: string, part: string)
    requires Matches(tokens, name) && Stands(t, part)
    ensures Matches(tokens + [t], name + part)
  {
    hide Stands;
    var parts :| Splits(tokens, name, parts);
    FlattenAppend(parts, [part]);
    FlattenOne(part);
    assert Splits(tokens + [t], name + part, parts + [part]);
  }

  /** The last part of a match, and the match without it. */
  lemma LastPart(tokens: seq<Token>, t: Token, name: string) returns (front: string, part: string)
    requires Matches(tokens + [t], name)
    ensures Matches(tokens, front) && Stands(t, part) && name == front + part
  {
    hide Stands, Flatten;
    var parts :| Splits(tokens + [t], name, parts);
    var n := |tokens|;
    part := parts[n];
    front := Flatten(parts[..n]);
    assert parts == parts[..n] + [part] && (tokens + [t])[n] == t;
    FlattenAppend(parts[..n], [part]);
    FlattenOne(part);
    assert forall i | 0 <= i < n :: Stands((tokens + [t])[i], parts[i]);
    assert Splits(tokens, front, parts[..n]);
  }

  /** A star takes one character more, or none. */
  lemma StarStep(tokens: seq<Token>, name: string)
    ensures Matches(tokens + [Star], name) <==> Matches(tokens, name) || (name != "" && Matches(tokens + [Star], name[..|name| - 1]))
  {
    hide Matches;
    if Matches(tokens + [Star], name) {
      var front, part := LastPart(tokens, Star, name);
      if part == "" {
        Neutral(front);
      } else {
        MatchOne(tokens, Star, front, part[..|part| - 1]);
        assert name[..|name| - 1] == front + part[..|part| - 1];
      }
    }
    if Matches(tokens, name) {
      MatchOne(tokens, Star, name, "");
      Neutral(name);
    }
    if name != "" && Matches(tokens + [Star], name[..|name| - 1]) {
      var front, part := LastPart(tokens, Star, name[..|name| - 1]);
      MatchOne(tokens, Star, front, part + name[|name| - 1..]);
      assert name == front + (part + name[|name| - 1..]);
    }
  }

  /** Any other token takes the last character. */
  lemma OneStep(tokens: seq<Token>, t: Token, name: string)
    requires !t.Star?
    ensures Matches(tokens + [t], name) <==> name != "" && Accepts(t, name[|name| - 1]) && Matches(tokens, name[..|name| - 1])
  {
    hide Matches, Accepts;
    if Matches(tokens + [t], name) {
      var front, part := LastPart(tokens, t, name);
      assert front == name[..|name| - 1] && part[0] == name[|name| - 1];
    }
    if name != "" && Accepts(t, name[|name| - 1]) && Matches(tokens, name[..|name| - 1]) {
      MatchOne(tokens, t, name[..|name| - 1], [name[|name| - 1]]);
      assert name == name[..|name| - 1] + [name[|name| - 1]];
    }
  }

  /** Whether the tokens stand for the first `i` characters of the name: one cell of the table. */
  ghost predicate Cell(tokens: seq<Token>, name: string, i: nat)
    requires i <= |name|
  {
    Matches(tokens, name[..i])
  }

  /** A row holds, for each length of prefix, whether the tokens stand for it. */
  ghost predicate Row(row: seq<bool>, tokens: seq<Token>, name: string, upto: nat) {
    |row| == |name| + 1 && upto <= |row| && forall i | 0 <= i < upto :: row[i] == Cell(tokens, name, i)
  }

  lemma CellStar(tokens: seq<Token>, name: string, i: nat)
    requires i <= |name|
    ensures Cell(tokens + [Star], name, i) <==> Cell(tokens, name, i) || (i > 0 && Cell(tokens + [Star], name, i - 1))
  {
    hide Matches;
    StarStep(tokens, name[..i]);
    if i > 0 { assert name[..i][..i - 1] == name[..i - 1]; }
  }

  lemma CellOne(tokens: seq<Token>, t: Token, name: string, i: nat)
    requires i <= |name| && !t.Star?
    ensures Cell(tokens + [t], name, i) <==> i > 0 && Accepts(t, name[i - 1]) && Cell(tokens, name, i - 1)
  {
    hide Matches, Accepts;
    OneStep(tokens, t, name[..i]);
    if i > 0 { assert name[..i][..i - 1] == name[..i - 1]; }
  }

  /** Fills the row behind one more token from the row before it. */
  method FillRow(previous: array<bool>, next: array<bool>, t: Token, chars: string, ghost done: seq<Token>)
    requires previous != next && next.Length == |chars| + 1 && Row(previous[..], done, chars, |chars| + 1)
    modifies next
    ensures Row(next[..], done + [t], chars, |chars| + 1)
  {
    hide Cell, Accepts;
    forall i | 0 <= i < next.Length { next[i] := false; }
    if t.Star? {
      next[0] := previous[0];
      CellStar(done, chars, 0);
    } else {
      CellOne(done, t, chars, 0);
    }
    assert previous[..][0] == previous[0];
    for i := 1 to |chars| + 1
      invariant forall k | 0 <= k < i :: next[k] == Cell(done + [t], chars, k)
      invariant forall k | i <= k < next.Length :: !next[k]
    {
      assert previous[..][i - 1] == previous[i - 1] && previous[..][i] == previous[i];
      if t.Star? {
        CellStar(done, chars, i);
        next[i] := previous[i] || next[i - 1];
      } else {
        CellOne(done, t, chars, i);
        if previous[i - 1] { next[i] := Accepts(t, chars[i - 1]); }
      }
    }
  }

  /** The table, kept as two rows that change places behind every token. */
  method MatchTokens(tokens: seq<Token>, chars: string) returns (found: bool)
    ensures found <==> Matches(tokens, chars)
  {
    hide Cell;
    var previous := new bool[|chars| + 1](_ => false);
    var next := new bool[|chars| + 1](_ => false);
    previous[0] := true;
    FirstRow(previous[..], chars);
    for k := 0 to |tokens|
      invariant previous != next && fresh(previous) && fresh(next)
      invariant next.Length == |chars| + 1 && Row(previous[..], tokens[..k], chars, |chars| + 1)
    {
      FillRow(previous, next, tokens[k], chars, tokens[..k]);
      assert tokens[..k + 1] == tokens[..k] + [tokens[k]];
      previous, next := next, previous;
    }
    assert tokens[..|tokens|] == tokens;
    LastCell(tokens, chars);
    assert previous[..][|chars|] == previous[|chars|];
    return previous[|chars|];
  }

  lemma FirstRow(row: seq<bool>, chars: string)
    requires |row| == |chars| + 1 && row[0] && forall i | 0 < i < |row| :: !row[i]
    ensures Row(row, [], chars, |chars| + 1)
  {
    forall i | 0 <= i < |row| ensures row[i] == Cell([], chars, i) { NoTokens(chars[..i]); }
  }

  lemma LastCell(tokens: seq<Token>, chars: string)
    ensures Cell(tokens, chars, |chars|) <==> Matches(tokens, chars)
  {
    assert chars[..|chars|] == chars;
  }

  /** A name can be matched at all: it is a valid one, and its leading dot is named by the pattern. */
  predicate Matchable(p: Pattern, name: string, limits: Limits) {
    && ValidName(name) && Utf16Length(name) <= limits.maxNameLength
    && (name[0] == '.' ==> p.tokens != [] && p.tokens[0] == Literal('.'))
  }

  /** The matcher finds exactly the matchable names that split along the tokens. */
  method Test(p: Pattern, name: string, limits: Limits) returns (found: bool)
    ensures found <==> Matchable(p, name, limits) && Matches(p.tokens, name)
  {
    if name == "" || Utf16Length(name) > limits.maxNameLength || '/' in name || HasControl(name) || name == "." || name == ".." {
      return false;
    }
    if name[0] == '.' && !(p.tokens != [] && p.tokens[0] == Literal('.')) { return false; }
    found := MatchTokens(p.tokens, name);
  }

  /** A dot in front is matched by a dot of the pattern only, never by a star, a question mark or a class. */
  lemma LeadingDot(p: Pattern, name: string, limits: Limits)
    requires Matchable(p, name, limits) && name[0] == '.' && Matches(p.tokens, name)
    ensures Matches([Literal('.')], name[..1]) && Matches(p.tokens[1..], name[1..])
  {
    var parts :| Splits(p.tokens, name, parts);
    assert Stands(p.tokens[0], parts[0]);
    assert name == parts[0] + Flatten(parts[1..]);
    assert name[1..] == Flatten(parts[1..]);
    assert Splits(p.tokens[1..], name[1..], parts[1..]);
    FlattenOne(name[..1]);
    assert Splits([Literal('.')], name[..1], [name[..1]]);
  }

  // ---- quoted segments ----

  predicate IsSpecial(c: char) { c == '*' || c == '?' || c == '[' || c == ']' || c == '\\' }

  /** A text with every character that a pattern could read otherwise escaped. */
  function EscapeAll(s: string): string {
    if s == "" then "" else (if IsSpecial(s[0]) then ['\\', s[0]] else [s[0]]) + EscapeAll(s[1..])
  }

  function Literals(s: string): (tokens: seq<Token>)
    ensures |tokens| == |s| && forall i | 0 <= i < |s| :: tokens[i] == Literal(s[i])
  {
    if s == "" then [] else [Literal(s[0])] + Literals(s[1..])
  }

  function EscapedPieces(s: string): (pieces: seq<Piece>)
    ensures |pieces| == |s| && forall i | 0 <= i < |s| :: pieces[i] == if IsSpecial(s[i]) then Escaped(s[i]) else Plain(s[i])
  {
    if s == "" then [] else [if IsSpecial(s[0]) then Escaped(s[0]) else Plain(s[0])] + EscapedPieces(s[1..])
  }

  lemma {:induction false} EscapedText(s: string)
    ensures Text(EscapedPieces(s)) == EscapeAll(s)
  {
    if s != "" {
      EscapedText(s[1..]);
      PiecesCons(EscapedPieces(s)[0], EscapedPieces(s[1..]));
    }
  }

  lemma {:induction false} LiteralsMatch(s: string, name: string)
    ensures Matches(Literals(s), name) <==> name == s
  {
    hide Matches;
    if s == "" {
      NoTokens(name);
    } else {
      var n := |s| - 1;
      LiteralsMatch(s[..n], if name == "" then "" else name[..|name| - 1]);
      assert Literals(s) == Literals(s[..n]) + [Literal(s[n])];
      OneStep(Literals(s[..n]), Literal(s[n]), name);
      assert s == s[..n] + [s[n]];
      if name != "" { assert name == name[..|name| - 1] + [name[|name| - 1]]; }
    }
  }

  /** A text all of whose characters were quoted is a pattern without magic: its own characters. */
  lemma EscapedPattern(s: string, limits: Limits)
    requires ValidPatternText(EscapeAll(s), limits) && |s| <= limits.maxTokens
    ensures Accepted(EscapeAll(s), limits, Pattern(Literals(s), false))
  {
    EscapedMeaning(s);
    EscapedText(s);
    hide ValidPatternText, EscapeAll, Text, Mean, IsMagic, EscapedPieces, Literals;
    assert Reads(EscapeAll(s), Pattern(Literals(s), false));
  }

  lemma EscapedMeaning(s: string)
    ensures Mean(EscapedPieces(s), Literals(s)) && NoDoubleStar(Literals(s))
    ensures forall i | 0 <= i < |s| :: !IsMagic(EscapedPieces(s)[i])
  {
    hide EscapedPieces, Literals;
    var pieces, tokens := EscapedPieces(s), Literals(s);
    forall i | 0 <= i < |s| ensures WellFormed(pieces[i]) && Meaning(pieces[i]) == Some(tokens[i]) && !IsMagic(pieces[i]) {
      assert pieces[i] == if IsSpecial(s[i]) then Escaped(s[i]) else Plain(s[i]);
    }
  }

  /** Of all names only the text itself is matched, provided that it is a valid name. */
  lemma EscapedMatchesItself(s: string, name: string, limits: Limits)
    ensures Matchable(Pattern(Literals(s), false), name, limits) && Matches(Literals(s), name)
            <==> name == s && ValidName(s) && Utf16Length(s) <= limits.maxNameLength
  {
    hide Matches, ValidName, Utf16Length;
    LiteralsMatch(s, name);
    if name == s && ValidName(s) { ValidNameIsSomething(s); }
  }

  lemma ValidNameIsSomething(s: string)
    requires ValidName(s)
    ensures s != ""
  {
  }
}
