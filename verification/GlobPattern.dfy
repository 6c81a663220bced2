/**
 Glob patterns of an SCP source path: the syntax of a pattern, the parser that reads it index by
 index, and the tokens it stands for.
 */
module GlobPattern {
  import opened Basics
  import opened Names

  datatype Range = Range(low: char, high: char)

  datatype Token = Star | AnyChar | Literal(value: char) | Class(negative: bool, ranges: seq<Range>)

  datatype Limits = Limits(maxPatternLength: nat, maxTokens: nat, maxNameLength: nat)

  datatype Pattern = Pattern(tokens: seq<Token>, magic: bool)

  // ---- the syntax ----

  /** A character listed in a bracket expression. */
  datatype Member = Member(value: char, escaped: bool)

  datatype Piece =
    | StarPiece
    | AnyPiece
    | Plain(c: char)
    | Escaped(c: char)
    | Bracket(sign: Option<char>, members: seq<Member>)

  function MemberText(m: Member): string {
    if m.escaped then ['\\', m.value] else [m.value]
  }

  function MembersText(members: seq<Member>): string {
    if members == [] then "" else MemberText(members[0]) + MembersText(members[1..])
  }

  function PieceText(p: Piece): string {
    match p
    case StarPiece => "*"
    case AnyPiece => "?"
    case Plain(c) => [c]
    case Escaped(c) => ['\\', c]
    case Bracket(sign, members) => "[" + ((if sign.Some? then [sign.value] else "") + (MembersText(members) + "]"))
  }

  function Text(pieces: seq<Piece>): string {
    if pieces == [] then "" else PieceText(pieces[0]) + Text(pieces[1..])
  }

  /** A member that stands for itself behind the first place of a bracket expression. */
  predicate Inner(m: Member) { m.escaped || (m.value != ']' && m.value != '\\') }

  predicate InnerMembers(members: seq<Member>) {
    forall i | 0 <= i < |members| :: Inner(members[i])
  }

  predicate IsSign(c: char) { c == '!' || c == '^' }

  predicate WellFormed(p: Piece) {
    match p
    case Plain(c) => c != '\\' && c != '*' && c != '?' && c != '['
    case Bracket(sign, members) =>
      && members != [] && (sign.Some? ==> IsSign(sign.value))
      && (members[0] == Member(']', false) || Inner(members[0])) && InnerMembers(members[1..])
      && (sign.None? ==> members[0].escaped || !IsSign(members[0].value))
    case _ => true
  }

  // ---- what the pieces mean ----

  /** The ranges listed by the members; none if one of them is reversed. */
  function RangesOf(members: seq<Member>): Option<seq<Range>> {
    if members == [] then Some([])
    else if |members| > 2 && members[1] == Member('-', false) then
      if members[2].value < members[0].value then None
      else
        var rest := RangesOf(members[3..]);
        if rest.None? then None else Some([Range(members[0].value, members[2].value)] + rest.value)
    else
      var rest := RangesOf(members[1..]);
      if rest.None? then None else Some([Range(members[0].value, members[0].value)] + rest.value)
  }

  function Meaning(p: Piece): Option<Token> {
    match p
    case StarPiece => Some(Star)
    case AnyPiece => Some(AnyChar)
    case Plain(c) => Some(Literal(c))
    case Escaped(c) => Some(Literal(c))
    case Bracket(sign, members) =>
      var ranges := RangesOf(members);
      if ranges.None? then None else Some(Class(sign.Some?, ranges.value))
  }

  predicate IsMagic(p: Piece) { p.StarPiece? || p.AnyPiece? || p.Bracket? }

  /** `tokens` is what `pieces` mean, one token a piece. */
  predicate Mean(pieces: seq<Piece>, tokens: seq<Token>) {
    |pieces| == |tokens| && forall i | 0 <= i < |pieces| :: WellFormed(pieces[i]) && Meaning(pieces[i]) == Some(tokens[i])
  }

  predicate NoDoubleStar(tokens: seq<Token>) {
    forall i | 0 <= i < |tokens| - 1 :: !(tokens[i].Star? && tokens[i + 1].Star?)
  }

  predicate ValidPatternText(pattern: string, limits: Limits) {
    pattern != "" && Utf16Length(pattern) <= limits.maxPatternLength && '/' !in pattern && !HasControl(pattern)
  }

  /** The pattern's text is that of some pieces, and these mean the tokens. */
  ghost predicate Reads(pattern: string, p: Pattern) {
    exists pieces :: Text(pieces) == pattern && Mean(pieces, p.tokens) && (p.magic <==> exists i :: 0 <= i < |pieces| && IsMagic(pieces[i]))
  }

  ghost predicate Accepted(pattern: string, limits: Limits, p: Pattern) {
    ValidPatternText(pattern, limits) && Reads(pattern, p) && NoDoubleStar(p.tokens) && |p.tokens| <= limits.maxTokens
  }

  // ---- reading pieces off the front of a text ----

  /** The members up to the closing bracket, and what follows it. */
  function ReadMembers(s: string): (r: Option<(seq<Member>, string)>)
    ensures r.Some? ==> |r.value.1| < |s|
  {
    if s == "" then None
    else if s[0] == ']' then Some(([], s[1..]))
    else if s[0] == '\\' then
      if |s| < 2 then None
      else
        var rest := ReadMembers(s[2..]);
        if rest.None? then None else Some(([Member(s[1], true)] + rest.value.0, rest.value.1))
    else
      var rest := ReadMembers(s[1..]);
      if rest.None? then None else Some(([Member(s[0], false)] + rest.value.0, rest.value.1))
  }

  /** A closing bracket in the first place is a member. */
  function ReadFirst(s: string): (r: Option<(seq<Member>, string)>)
    ensures r.Some? ==> |r.value.1| < |s|
  {
    if s != "" && s[0] == ']' then
      var rest := ReadMembers(s[1..]);
      if rest.None? then None else Some(([Member(']', false)] + rest.value.0, rest.value.1))
    else ReadMembers(s)
  }

  /** A bracket expression behind its opening bracket. */
  function ReadBracket(s: string): (r: Option<(Piece, string)>)
    ensures r.Some? ==> |r.value.1| < |s|
  {
    var signed := s != "" && IsSign(s[0]);
    var rest := ReadFirst(if signed then s[1..] else s);
    if rest.None? then None else Some((Bracket(if signed then Some(s[0]) else None, rest.value.0), rest.value.1))
  }

  function ReadPiece(s: string): (r: Option<(Piece, string)>)
    requires s != ""
    ensures r.Some? ==> |r.value.1| < |s|
  {
    if s[0] == '\\' then if |s| < 2 then None else Some((Escaped(s[1]), s[2..]))
    else if s[0] == '*' then Some((StarPiece, s[1..]))
    else if s[0] == '?' then Some((AnyPiece, s[1..]))
    else if s[0] == '[' then ReadBracket(s[1..])
    else Some((Plain(s[0]), s[1..]))
  }

  function Pieces(s: string): Option<seq<Piece>>
    decreases |s|
  {
    if s == "" then Some([])
    else
      var first := ReadPiece(s);
      if first.None? then None
      else
        var rest := Pieces(first.value.1);
        if rest.None? then None else Some([first.value.0] + rest.value)
  }

  // ---- reading and printing are inverse ----

  lemma {:induction false} MembersBack(members: seq<Member>, rest: string)
    requires InnerMembers(members)
    ensures ReadMembers(MembersText(members) + ("]" + rest)) == Some((members, rest))
  {
    var tail := "]" + rest;
    if members == [] {
      assert MembersText(members) + tail == tail && tail[1..] == rest;
    } else {
      var m := members[0];
      assert Inner(m);
      MembersBack(members[1..], rest);
      var s := MembersText(members) + tail;
      var after := MembersText(members[1..]) + tail;
      Assoc(MemberText(m), MembersText(members[1..]), tail);
      assert s == MemberText(m) + after;
      assert s[|MemberText(m)|..] == after;
      assert [m] + members[1..] == members;
    }
  }

  lemma {:induction false} MembersForth(s: string)
    requires ReadMembers(s).Some?
    ensures var (members, rest) := ReadMembers(s).value; InnerMembers(members) && MembersText(members) + ("]" + rest) == s
  {
    if s[0] != ']' {
      var n := if s[0] == '\\' then 2 else 1;
      MembersForth(s[n..]);
      var (members, rest) := ReadMembers(s[n..]).value;
      var m := Member(s[n - 1], n == 2);
      assert MemberText(m) == s[..n];
      MembersCons(m, members);
      Assoc(MemberText(m), MembersText(members), "]" + rest);
      assert s[..n] + s[n..] == s;
    }
  }

  lemma MembersCons(m: Member, members: seq<Member>)
    ensures MembersText([m] + members) == MemberText(m) + MembersText(members)
  {
    assert ([m] + members)[1..] == members;
  }

  lemma FirstBack(members: seq<Member>, rest: string)
    requires members != [] && InnerMembers(members[1..]) && (members[0] == Member(']', false) || Inner(members[0]))
    ensures ReadFirst(MembersText(members) + ("]" + rest)) == Some((members, rest))
  {
    var tail := "]" + rest;
    assert [members[0]] + members[1..] == members;
    if members[0] == Member(']', false) {
      MembersBack(members[1..], rest);
      hide ReadMembers, InnerMembers;
      assert MembersText(members) + tail == "]" + (MembersText(members[1..]) + tail) by {
        Assoc("]", MembersText(members[1..]), tail);
      }
    } else {
      assert InnerMembers(members) by {
        forall i | 0 <= i < |members| ensures Inner(members[i]) { if i > 0 { assert members[i] == members[1..][i - 1]; } }
      }
      MembersBack(members, rest);
      hide ReadMembers, InnerMembers;
      assert (MembersText(members) + tail)[0] == MemberText(members[0])[0];
    }
  }

  /** A bracket expression is read back: its sign, then its members up to the bracket that closes it. */
  lemma BracketBack(sign: Option<char>, members: seq<Member>, rest: string)
    requires WellFormed(Bracket(sign, members))
    ensures ReadBracket((if sign.Some? then [sign.value] else "") + (MembersText(members) + ("]" + rest))) == Some((Bracket(sign, members), rest))
  {
    FirstBack(members, rest);
    var inner := MembersText(members) + ("]" + rest);
    assert inner[0] == MemberText(members[0])[0];
    hide ReadFirst, MembersText;
    if sign.Some? {
      Split([sign.value], inner);
      assert ([sign.value] + inner)[0] == sign.value;
    } else {
      assert "" + inner == inner;
    }
  }

  lemma FirstForth(s: string)
    requires ReadFirst(s).Some?
    ensures var (members, rest) := ReadFirst(s).value;
            MembersText(members) + ("]" + rest) == s && WellFormed(Bracket(Some('!'), members)) && (members[0] == Member(s[0], false) || members[0].escaped)
  {
    if s[0] == ']' {
      MembersForth(s[1..]);
      var (members, rest) := ReadMembers(s[1..]).value;
      MembersCons(Member(']', false), members);
    } else {
      MembersForth(s);
    }
  }

  lemma BracketText(sign: Option<char>, members: seq<Member>, rest: string)
    ensures PieceText(Bracket(sign, members)) + rest == "[" + ((if sign.Some? then [sign.value] else "") + (MembersText(members) + ("]" + rest)))
  {
    hide MembersText;
    var prefix := if sign.Some? then [sign.value] else "";
    Assoc(MembersText(members), "]", rest);
    Assoc(prefix, MembersText(members) + "]", rest);
    Assoc("[", prefix + (MembersText(members) + "]"), rest);
  }

  lemma PieceBack(p: Piece, rest: string)
    requires WellFormed(p)
    ensures ReadPiece(PieceText(p) + rest) == Some((p, rest))
  {
    hide ReadBracket, MembersText;
    match p {
      case Bracket(sign, members) =>
        BracketBack(sign, members, rest);
        BracketText(sign, members, rest);
        var prefix := if sign.Some? then [sign.value] else "";
        Split("[", prefix + (MembersText(members) + ("]" + rest)));
      case Plain(c) => Split([c], rest);
      case Escaped(c) => Split(['\\', c], rest);
      case StarPiece => Split("*", rest);
      case AnyPiece => Split("?", rest);
    }
  }

  lemma BracketForth(t: string)
    requires ReadBracket(t).Some?
    ensures var (p, rest) := ReadBracket(t).value; WellFormed(p) && PieceText(p) + rest == "[" + t
  {
    var signed := t != "" && IsSign(t[0]);
    var u := if signed then t[1..] else t;
    FirstForth(u);
    hide ReadFirst, MembersText;
    var (p, rest) := ReadBracket(t).value;
    var members := p.members;
    var prefix := if signed then [t[0]] else "";
    assert t == prefix + u;
    BracketText(p.sign, members, rest);
  }

  lemma PieceForth(s: string)
    requires s != "" && ReadPiece(s).Some?
    ensures var (p, rest) := ReadPiece(s).value; WellFormed(p) && PieceText(p) + rest == s
  {
    hide ReadBracket, MembersText;
    assert [s[0]] + s[1..] == s;
    if s[0] == '[' {
      BracketForth(s[1..]);
    }
  }

  lemma PiecesCons(p: Piece, pieces: seq<Piece>)
    ensures Text([p] + pieces) == PieceText(p) + Text(pieces)
  {
    assert ([p] + pieces)[1..] == pieces;
  }

  lemma {:induction false} PiecesBack(pieces: seq<Piece>)
    requires forall i | 0 <= i < |pieces| :: WellFormed(pieces[i])
    ensures Pieces(Text(pieces)) == Some(pieces)
  {
    hide ReadPiece, PieceText, WellFormed;
    if pieces != [] {
      PiecesBack(pieces[1..]);
      PieceBack(pieces[0], Text(pieces[1..]));
      PieceIsSomething(pieces[0]);
      assert [pieces[0]] + pieces[1..] == pieces;
    }
  }

  lemma PieceIsSomething(p: Piece)
    ensures PieceText(p) != ""
  {
  }

  lemma {:induction false} PiecesForth(s: string)
    requires Pieces(s).Some?
    ensures Text(Pieces(s).value) == s && forall i | 0 <= i < |Pieces(s).value| :: WellFormed(Pieces(s).value[i])
    decreases |s|
  {
    hide ReadPiece, PieceText, WellFormed;
    if s != "" {
      var (p, rest) := ReadPiece(s).value;
      PiecesForth(rest);
      PieceForth(s);
      PiecesCons(p, Pieces(rest).value);
    }
  }

  /** Reading is unambiguous: a pattern has one meaning, that of the pieces it is read as. */
  lemma ReadsIsPieces(pattern: string, p: Pattern)
    ensures Reads(pattern, p) <==>
      Pieces(pattern).Some? && Mean(Pieces(pattern).value, p.tokens)
      && (p.magic <==> exists i :: 0 <= i < |Pieces(pattern).value| && IsMagic(Pieces(pattern).value[i]))
  {
    hide Pieces, Text;
    if Reads(pattern, p) {
      var pieces :| Text(pieces) == pattern && Mean(pieces, p.tokens) && (p.magic <==> exists i :: 0 <= i < |pieces| && IsMagic(pieces[i]));
      PiecesBack(pieces);
    }
    if Pieces(pattern).Some? {
      PiecesForth(pattern);
    }
  }
}
