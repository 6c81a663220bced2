/**
 The words of a remote SCP command: a character loop that undoes shell quoting and keeps, beside
 each word, the glob pattern in which its quoted characters are escaped.
 */
module ShellWords {
  import opened Basics
  import Glob

  datatype Word = Word(text: string, pattern: string)

  datatype Quote = Outside | Single | Double

  datatype State = State(words: seq<Word>, word: Word, started: bool)

  const EMPTY: Word := Word("", "")
  const START: State := State([], EMPTY, false)

  function Append(st: State, c: char, literal: bool): State {
    var mark := if c == '\\' || (literal && c in "*?[]") then ['\\', c] else [c];
    st.(word := Word(st.word.text + [c], st.word.pattern + mark))
  }

  function Begin(st: State): State { st.(started := true) }

  function Finish(st: State): State {
    State(if st.started then st.words + [st.word] else st.words, EMPTY, false)
  }

  predicate IsBlank(c: char) { c == ' ' || c == '\t' }

  predicate Refused(c: char, started: bool) { c in ";&|<>(){}$`" || (!started && (c == '~' || c == '#')) }

  /** A backslash in double quotes stays in the word unless it stands before one of four characters. */
  function AppendEscaped(st: State, q: Quote, c: char): State {
    Begin(Append(if q.Double? && c !in "$`\"\\" then Append(st, '\\', true) else st, c, true))
  }

  /** The rest of a command, read from inside or outside quotes. */
  function Lex(s: string, q: Quote, st: State): Option<State>
    decreases |s|
  {
    if s == "" then if q.Outside? then Some(Finish(st)) else None
    else if q.Single? then
      if s[0] == '\'' then Lex(s[1..], Outside, st) else Lex(s[1..], Single, Append(st, s[0], true))
    else if s[0] == '\\' then
      if |s| < 2 then None else Lex(s[2..], q, AppendEscaped(st, q, s[1]))
    else if q.Double? then
      if s[0] == '"' then Lex(s[1..], Outside, st)
      else if s[0] == '$' || s[0] == '`' then None
      else Lex(s[1..], Double, Append(st, s[0], true))
    else if IsBlank(s[0]) then Lex(s[1..], Outside, Finish(st))
    else if s[0] == '\'' then Lex(s[1..], Single, Begin(st))
    else if s[0] == '"' then Lex(s[1..], Double, Begin(st))
    else if Refused(s[0], st.started) then None
    else Lex(s[1..], Outside, Begin(Append(st, s[0], false)))
  }

  /** The tokenizer: one pass over the characters of the command. */
  method Tokenize(command: string) returns (r: Option<seq<Word>>)
    ensures r == WordsOf(command)
    ensures r.Some? ==> Spells(command, r.value)
    ensures forall words :: Spells(command, words) ==> r == Some(words)
  {
    DecidesGrammar(command);
    hide Spells;
    var words: seq<Word> := [];
    var word := EMPTY;
    var started := false;
    var quote := Outside;
    var i := 0;
    assert command[0..] == command;
    while i < |command|
      invariant 0 <= i <= |command|
      invariant Lex(command, Outside, START) == Lex(command[i..], quote, State(words, word, started))
    {
      ghost var left := command[i..];
      assert left[1..] == command[i + 1..];
      var c := command[i];
      if quote.Single? {
        if c == '\'' { quote := Outside; } else { word := Append(State(words, word, started), c, true).word; }
      } else if c == '\\' {
        if i + 1 == |command| { return None; }
        i := i + 1;
        assert left[2..] == command[i + 1..];
        var next := command[i];
        if quote.Double? && next !in "$`\"\\" { word := Append(State(words, word, started), '\\', true).word; }
        word := Append(State(words, word, started), next, true).word;
        started := true;
      } else if quote.Double? {
        if c == '"' { quote := Outside; }
        else if c == '$' || c == '`' { return None; }
        else { word := Append(State(words, word, started), c, true).word; }
      } else if IsBlank(c) {
        if started { words := words + [word]; }
        word, started := EMPTY, false;
      } else if c == '\'' || c == '"' {
        quote := if c == '"' then Double else Single;
        started := true;
      } else {
        if Refused(c, started) { return None; }
        word := Append(State(words, word, started), c, false).word;
        started := true;
      }
      i := i + 1;
    }
    if !quote.Outside? { return None; }
    if started { words := words + [word]; }
    return Some(words);
  }

  function WordsOf(command: string): Option<seq<Word>> {
    match Lex(command, Outside, START)
    case None => None
    case Some(st) => Some(st.words)
  }

  // ---- the grammar ----

  datatype Inner = Bare(c: char) | Escape(c: char)

  datatype Fragment =
    | Blank(c: char)
    | Plain(c: char)
    | Backslash(c: char)
    | InSingle(text: string)
    | InDouble(inner: seq<Inner>)

  function InnerText(inner: seq<Inner>): string {
    if inner == [] then ""
    else (if inner[0].Bare? then [inner[0].c] else ['\\', inner[0].c]) + InnerText(inner[1..])
  }

  function FragmentText(f: Fragment): string {
    match f
    case Blank(c) => [c]
    case Plain(c) => [c]
    case Backslash(c) => ['\\', c]
    case InSingle(text) => "'" + (text + "'")
    case InDouble(inner) => "\"" + (InnerText(inner) + "\"")
  }

  function Text(fragments: seq<Fragment>): string {
    if fragments == [] then "" else FragmentText(fragments[0]) + Text(fragments[1..])
  }

  predicate InnerFits(inner: seq<Inner>) {
    forall i | 0 <= i < |inner| :: inner[i].Bare? ==> inner[i].c !in "\"\\$`"
  }

  /** Whether a fragment may stand here; only `~` and `#` depend on where a word begins. */
  predicate Fits(f: Fragment, started: bool) {
    match f
    case Blank(c) => IsBlank(c)
    case Plain(c) => !IsBlank(c) && c !in "'\"\\" && !Refused(c, started)
    case Backslash(_) => true
    case InSingle(text) => '\'' !in text
    case InDouble(inner) => InnerFits(inner)
  }

  function AppendText(st: State, text: string): State
    decreases |text|
  {
    if text == "" then st else AppendText(Append(st, text[0], true), text[1..])
  }

  function AppendInner(st: State, inner: seq<Inner>): State
    decreases |inner|
  {
    if inner == [] then st
    else AppendInner(if inner[0].Bare? then Append(st, inner[0].c, true) else AppendEscaped(st, Double, inner[0].c), inner[1..])
  }

  function Apply(f: Fragment, st: State): State {
    match f
    case Blank(_) => Finish(st)
    case Plain(c) => Begin(Append(st, c, false))
    case Backslash(c) => AppendEscaped(st, Outside, c)
    case InSingle(text) => AppendText(Begin(st), text)
    case InDouble(inner) => AppendInner(Begin(st), inner)
  }

  /** The fragments fit one behind the other and leave the state `result`. */
  predicate Leads(fragments: seq<Fragment>, st: State, result: State) {
    if fragments == [] then st == result
    else Fits(fragments[0], st.started) && Leads(fragments[1..], Apply(fragments[0], st), result)
  }

  /** The command is a text of fragments, and these make the words. */
  ghost predicate Spells(command: string, words: seq<Word>) {
    exists fragments, st :: Text(fragments) == command && Leads(fragments, START, st) && Finish(st).words == words
  }

  // ---- the tokenizer against the grammar ----

  lemma {:induction false} SingleRun(text: string, rest: string, st: State)
    requires '\'' !in text
    ensures Lex(text + ("'" + rest), Single, st) == Lex(rest, Outside, AppendText(st, text))
  {
    var s := text + ("'" + rest);
    if text == "" {
      assert s == "'" + rest && s[1..] == rest;
    } else {
      assert text[0] in text && forall c | c in text[1..] :: c in text;
      assert s[1..] == text[1..] + ("'" + rest);
      SingleRun(text[1..], rest, Append(st, text[0], true));
    }
  }

  lemma {:induction false} DoubleRun(inner: seq<Inner>, rest: string, st: State)
    requires InnerFits(inner)
    ensures Lex(InnerText(inner) + ("\"" + rest), Double, st) == Lex(rest, Outside, AppendInner(st, inner))
  {
    var s := InnerText(inner) + ("\"" + rest);
    if inner == [] {
      assert s == "\"" + rest && s[1..] == rest;
    } else {
      var n := if inner[0].Bare? then 1 else 2;
      assert s[n..] == InnerText(inner[1..]) + ("\"" + rest);
      assert InnerFits(inner[1..]);
      DoubleRun(inner[1..], rest, if n == 1 then Append(st, inner[0].c, true) else AppendEscaped(st, Double, inner[0].c));
    }
  }

  lemma FragmentRun(f: Fragment, rest: string, st: State)
    requires Fits(f, st.started)
    ensures Lex(FragmentText(f) + rest, Outside, st) == Lex(rest, Outside, Apply(f, st))
  {
    match f {
      case InSingle(text) =>
        SingleRun(text, rest, Begin(st));
        Assoc(text, "'", rest);
        Assoc("'", text + "'", rest);
        Split("'", text + ("'" + rest));
      case InDouble(inner) =>
        DoubleRun(inner, rest, Begin(st));
        Assoc(InnerText(inner), "\"", rest);
        Assoc("\"", InnerText(inner) + "\"", rest);
        Split("\"", InnerText(inner) + ("\"" + rest));
      case Backslash(c) => Split(['\\', c], rest);
      case Blank(c) => Split([c], rest);
      case Plain(c) => Split([c], rest);
    }
  }

  lemma {:induction false} GrammarLexes(fragments: seq<Fragment>, st: State, result: State)
    requires Leads(fragments, st, result)
    ensures Lex(Text(fragments), Outside, st) == Some(Finish(result))
  {
    hide Fits, Apply, FragmentText, Finish;
    if fragments != [] {
      GrammarLexes(fragments[1..], Apply(fragments[0], st), result);
      FragmentRun(fragments[0], Text(fragments[1..]), st);
    }
  }

  lemma {:induction false} SingleEnds(s: string, st: State) returns (text: string, rest: string)
    requires Lex(s, Single, st).Some?
    ensures s == text + ("'" + rest) && '\'' !in text && Lex(s, Single, st) == Lex(rest, Outside, AppendText(st, text))
  {
    if s[0] == '\'' {
      text, rest := "", s[1..];
    } else {
      var t, r := SingleEnds(s[1..], Append(st, s[0], true));
      text, rest := [s[0]] + t, r;
      assert text[1..] == t;
    }
  }

  lemma InnerNothing()
    ensures InnerText([]) == ""
  {
  }

  lemma InnerCons(one: Inner, inner: seq<Inner>)
    ensures InnerText([one] + inner) == (if one.Bare? then [one.c] else ['\\', one.c]) + InnerText(inner)
  {
    assert ([one] + inner)[1..] == inner;
  }

  lemma {:induction false} DoubleEnds(s: string, st: State) returns (inner: seq<Inner>, rest: string)
    requires Lex(s, Double, st).Some?
    ensures s == InnerText(inner) + ("\"" + rest) && InnerFits(inner) && Lex(s, Double, st) == Lex(rest, Outside, AppendInner(st, inner))
    decreases |s|
  {
    hide Append, AppendEscaped, Finish, Begin, InnerText;
    if s[0] == '"' {
      InnerNothing();
      inner, rest := [], s[1..];
    } else if s[0] == '\\' {
      var i, r := DoubleEnds(s[2..], AppendEscaped(st, Double, s[1]));
      inner, rest := [Escape(s[1])] + i, r;
      assert inner[1..] == i;
      InnerCons(Escape(s[1]), i);
      assert s == ['\\', s[1]] + s[2..];
      Assoc(['\\', s[1]], InnerText(i), "\"" + rest);
    } else {
      var i, r := DoubleEnds(s[1..], Append(st, s[0], true));
      inner, rest := [Bare(s[0])] + i, r;
      assert inner[1..] == i;
      InnerCons(Bare(s[0]), i);
      assert s == [s[0]] + s[1..];
      Assoc([s[0]], InnerText(i), "\"" + rest);
    }
  }

  /** The first fragment of a command that is accepted. */
  lemma FirstFragment(s: string, st: State) returns (f: Fragment, rest: string)
    requires s != "" && Lex(s, Outside, st).Some?
    ensures s == FragmentText(f) + rest && |rest| < |s| && Fits(f, st.started) && Lex(s, Outside, st) == Lex(rest, Outside, Apply(f, st))
  {
    if s[0] == '\\' {
      f, rest := Backslash(s[1]), s[2..];
    } else if s[0] == '\'' {
      var text, r := SingleEnds(s[1..], Begin(st));
      f, rest := InSingle(text), r;
      assert s == ['\''] + s[1..];
      Assoc(text, "'", rest);
      Assoc("'", text + "'", rest);
    } else if s[0] == '"' {
      var inner, r := DoubleEnds(s[1..], Begin(st));
      f, rest := InDouble(inner), r;
      assert s == ['"'] + s[1..];
      Assoc(InnerText(inner), "\"", rest);
      Assoc("\"", InnerText(inner) + "\"", rest);
    } else if IsBlank(s[0]) {
      f, rest := Blank(s[0]), s[1..];
    } else {
      f, rest := Plain(s[0]), s[1..];
    }
  }

  lemma {:induction false} LexesGrammar(s: string, st: State) returns (fragments: seq<Fragment>, result: State)
    requires Lex(s, Outside, st).Some?
    ensures Text(fragments) == s && Leads(fragments, st, result) && Lex(s, Outside, st) == Some(Finish(result))
    decreases |s|
  {
    if s == "" {
      fragments, result := [], st;
    } else {
      var f, rest := FirstFragment(s, st);
      hide Fits, Apply, FragmentText, Finish, Lex;
      var more, last := LexesGrammar(rest, Apply(f, st));
      fragments, result := [f] + more, last;
      assert fragments[1..] == more;
    }
  }

  /** The tokenizer accepts exactly the commands of the grammar and makes the words the grammar gives them. */
  lemma DecidesGrammar(command: string)
    ensures forall words :: Spells(command, words) <==> WordsOf(command) == Some(words)
  {
    hide Lex, Text, Leads, Finish;
    forall words ensures Spells(command, words) <==> WordsOf(command) == Some(words) {
      if Spells(command, words) {
        var fragments, st :| Text(fragments) == command && Leads(fragments, START, st) && Finish(st).words == words;
        GrammarLexes(fragments, START, st);
      }
      if WordsOf(command) == Some(words) {
        var fragments, st := LexesGrammar(command, START);
      }
    }
  }

  // ---- quoting ----

  /** Each apostrophe leaves the quotes, stands behind a backslash, and enters them again. */
  function Requote(text: string): string {
    if text == "" then "" else (if text[0] == '\'' then "'\\''" else [text[0]]) + Requote(text[1..])
  }

  /** A text in single quotes; a NUL cannot be part of an argument. */
  function QuotePosix(text: string): Option<string> {
    if '\0' in text then None else Some("'" + (Requote(text) + "'"))
  }

  /** The command of quoted words, with a blank between them. */
  function QuotedLine(words: seq<string>): string
    requires forall i | 0 <= i < |words| :: QuotePosix(words[i]).Some?
  {
    if words == [] then ""
    else if |words| == 1 then QuotePosix(words[0]).value
    else QuotePosix(words[0]).value + (" " + QuotedLine(words[1..]))
  }

  /** The words themselves, each with all its characters escaped in the pattern. */
  function Literally(words: seq<string>): (r: seq<Word>)
    ensures |r| == |words| && forall i | 0 <= i < |words| :: r[i] == Word(words[i], Glob.EscapeAll(words[i]))
  {
    if words == [] then [] else [Word(words[0], Glob.EscapeAll(words[0]))] + Literally(words[1..])
  }

  lemma {:induction false} RequoteRun(text: string, rest: string, st: State)
    requires st.started
    ensures Lex(Requote(text) + ("'" + rest), Single, st) == Lex(rest, Outside, AppendText(st, text))
  {
    var tail := "'" + rest;
    var s := Requote(text) + tail;
    if text == "" {
      assert s == tail && s[1..] == rest;
    } else {
      RequoteRun(text[1..], rest, Append(st, text[0], true));
      RequoteCons(text);
      hide Requote, Append;
      var after := Requote(text[1..]) + tail;
      if text[0] == '\'' {
        Assoc("'\\''", Requote(text[1..]), tail);
        ApostropheRun(after, st);
      } else {
        Assoc([text[0]], Requote(text[1..]), tail);
        Split([text[0]], after);
      }
    }
  }

  lemma RequoteCons(text: string)
    requires text != ""
    ensures Requote(text) == (if text[0] == '\'' then "'\\''" else [text[0]]) + Requote(text[1..])
  {
  }

  lemma ApostropheRun(after: string, st: State)
    requires st.started
    ensures Lex("'\\''" + after, Single, st) == Lex(after, Single, Append(st, '\'', true))
  {
    var s := "'\\''" + after;
    assert s[1..] == "\\''" + after;
    var t := s[1..];
    assert t[0] == '\\' && t[1] == '\'' && t[2..] == "'" + after;
    var u := t[2..];
    assert u[0] == '\'' && u[1..] == after;
    var done := AppendEscaped(st, Outside, '\'');
    assert done == Append(st, '\'', true) == Begin(done);
    assert Lex(u, Outside, done) == Lex(after, Single, done);
    assert Lex(t, Outside, st) == Lex(u, Outside, done);
  }

  lemma {:induction false} AppendTextIs(st: State, text: string)
    ensures AppendText(st, text) == st.(word := Word(st.word.text + text, st.word.pattern + Glob.EscapeAll(text)))
    decreases |text|
  {
    if text == "" {
      Neutral(st.word.text);
      Neutral(st.word.pattern);
    } else {
      var one := Append(st, text[0], true);
      AppendTextIs(one, text[1..]);
      assert text == [text[0]] + text[1..];
      Assoc(st.word.text, [text[0]], text[1..]);
      var mark := if Glob.IsSpecial(text[0]) then ['\\', text[0]] else [text[0]];
      assert one.word.pattern == st.word.pattern + mark;
      Assoc(st.word.pattern, mark, Glob.EscapeAll(text[1..]));
    }
  }

  lemma QuoteRun(text: string, rest: string, words: seq<Word>)
    requires QuotePosix(text).Some?
    ensures Lex(QuotePosix(text).value + rest, Outside, State(words, EMPTY, false))
            == Lex(rest, Outside, State(words, Word(text, Glob.EscapeAll(text)), true))
  {
    var st := State(words, EMPTY, true);
    RequoteRun(text, rest, st);
    AppendTextIs(st, text);
    Neutral(text);
    Neutral(Glob.EscapeAll(text));
    hide Requote, AppendText, Glob.EscapeAll;
    Assoc(Requote(text), "'", rest);
    Assoc("'", Requote(text) + "'", rest);
    Split("'", Requote(text) + ("'" + rest));
  }

  lemma {:induction false} LineRun(words: seq<string>, done: seq<Word>)
    requires forall i | 0 <= i < |words| :: QuotePosix(words[i]).Some?
    ensures Lex(QuotedLine(words), Outside, State(done, EMPTY, false)) == Some(State(done + Literally(words), EMPTY, false))
  {
    hide QuotePosix, Glob.EscapeAll;
    if words == [] {
      Neutral(done);
    } else {
      var w := Word(words[0], Glob.EscapeAll(words[0]));
      var rest := if |words| == 1 then "" else " " + QuotedLine(words[1..]);
      QuoteRun(words[0], rest, done);
      if |words| == 1 {
        Neutral(QuotePosix(words[0]).value);
        Neutral([w]);
        assert Literally(words) == [w];
      } else {
        assert rest[1..] == QuotedLine(words[1..]);
        LineRun(words[1..], done + [w]);
        Assoc(done, [w], Literally(words[1..]));
      }
    }
  }

  /** Whatever words are quoted and joined, the tokenizer gives them back, empty ones included, with nothing left to expand. */
  lemma QuotingRoundTrip(words: seq<string>)
    requires forall i | 0 <= i < |words| :: '\0' !in words[i]
    ensures WordsOf(QuotedLine(words)) == Some(Literally(words))
  {
    LineRun(words, []);
    Neutral(Literally(words));
  }

  // ---- a word and its pattern, segment by segment ----

  /** The pattern is the text with some of its special characters, and every backslash, escaped. */
  predicate Renders(pattern: string, text: string)
    decreases |text|
  {
    if text == "" then pattern == ""
    else if pattern != "" && pattern[0] == '\\' then |pattern| > 1 && pattern[1] == text[0] && Glob.IsSpecial(text[0]) && Renders(pattern[2..], text[1..])
    else pattern != "" && pattern[0] == text[0] && Renders(pattern[1..], text[1..])
  }

  lemma {:induction false} RendersMore(pattern: string, text: string, mark: string, c: char)
    requires Renders(pattern, text)
    requires (mark == [c] && c != '\\') || (mark == ['\\', c] && Glob.IsSpecial(c))
    ensures Renders(pattern + mark, text + [c])
    decreases |text|
  {
    if text == "" {
      assert pattern + mark == mark && text + [c] == [c];
      assert mark[|mark|..] == "";
    } else {
      var n := if pattern[0] == '\\' then 2 else 1;
      RendersMore(pattern[n..], text[1..], mark, c);
      assert (pattern + mark)[n..] == pattern[n..] + mark && (text + [c])[1..] == text[1..] + [c];
    }
  }

  predicate WordRenders(w: Word) { Renders(w.pattern, w.text) }

  predicate StateRenders(st: State) {
    WordRenders(st.word) && forall i | 0 <= i < |st.words| :: WordRenders(st.words[i])
  }

  lemma AppendRenders(st: State, c: char, literal: bool)
    requires StateRenders(st)
    ensures StateRenders(Append(st, c, literal))
  {
    var mark := if c == '\\' || (literal && c in "*?[]") then ['\\', c] else [c];
    RendersMore(st.word.pattern, st.word.text, mark, c);
  }

  /** In every word of every accepted command the pattern renders the text. */
  lemma {:induction false} LexRenders(s: string, q: Quote, st: State)
    requires StateRenders(st) && Lex(s, q, st).Some?
    ensures StateRenders(Lex(s, q, st).value)
    decreases |s|
  {
    hide WordRenders, Append;
    assert WordRenders(EMPTY) by { EmptyRenders(); }
    if s != "" {
      if q.Single? {
        AppendRenders(st, s[0], true);
        if s[0] == '\'' { LexRenders(s[1..], Outside, st); } else { LexRenders(s[1..], Single, Append(st, s[0], true)); }
      } else if s[0] == '\\' {
        AppendRenders(st, '\\', true);
        AppendRenders(if q.Double? && s[1] !in "$`\"\\" then Append(st, '\\', true) else st, s[1], true);
        LexRenders(s[2..], q, AppendEscaped(st, q, s[1]));
      } else if q.Double? {
        AppendRenders(st, s[0], true);
        if s[0] == '"' { LexRenders(s[1..], Outside, st); } else { LexRenders(s[1..], Double, Append(st, s[0], true)); }
      } else if IsBlank(s[0]) {
        LexRenders(s[1..], Outside, Finish(st));
      } else if s[0] == '\'' || s[0] == '"' {
        LexRenders(s[1..], if s[0] == '"' then Double else Single, Begin(st));
      } else {
        AppendRenders(st, s[0], false);
        LexRenders(s[1..], Outside, Begin(Append(st, s[0], false)));
      }
    }
  }

  lemma EmptyRenders()
    ensures WordRenders(EMPTY)
  {
  }

  /** The pieces of a path between slashes. */
  function Segments(path: string): (r: seq<string>)
    ensures r != []
  {
    if path == "" then [""]
    else
      var rest := Segments(path[1..]);
      if path[0] == '/' then [""] + rest else [[path[0]] + rest[0]] + rest[1..]
  }

  /** The segments that name something: neither empty nor a lone dot. */
  function Named(segments: seq<string>): seq<string> {
    if segments == [] then []
    else if segments[0] != "" && segments[0] != "." then [segments[0]] + Named(segments[1..])
    else Named(segments[1..])
  }

  predicate AllRender(patterns: seq<string>, texts: seq<string>) {
    |patterns| == |texts| && forall i | 0 <= i < |texts| :: Renders(patterns[i], texts[i])
  }

  lemma {:induction false} SegmentsRender(pattern: string, text: string)
    requires Renders(pattern, text)
    ensures AllRender(Segments(pattern), Segments(text))
    decreases |text|
  {
    if text == "" {
      assert AllRender([""], [""]);
    } else {
      var escaped := pattern[0] == '\\';
      var n := if escaped then 2 else 1;
      var ps, ts := Segments(pattern[n..]), Segments(text[1..]);
      SegmentsRender(pattern[n..], text[1..]);
      assert Renders(ps[0], ts[0]);
      var mark := pattern[..n];
      if text[0] == '/' {
        assert Renders("", "");
      } else {
        if escaped { EscapedHead(pattern); } else { assert mark == [pattern[0]]; }
        assert (mark + ps[0])[n..] == ps[0] && ([text[0]] + ts[0])[1..] == ts[0];
        assert Segments(pattern) == [mark + ps[0]] + ps[1..];
        assert Renders(mark + ps[0], [text[0]] + ts[0]);
      }
    }
  }

  lemma EscapedHead(pattern: string)
    requires |pattern| > 1 && pattern[0] == '\\' && pattern[1] != '/'
    ensures Segments(pattern) == [pattern[..2] + Segments(pattern[2..])[0]] + Segments(pattern[2..])[1..]
  {
    var rest := Segments(pattern[2..]);
    assert pattern[1..][1..] == pattern[2..];
    var one := Segments(pattern[1..]);
    assert one == [[pattern[1]] + rest[0]] + rest[1..];
    assert [pattern[0]] + ([pattern[1]] + rest[0]) == pattern[..2] + rest[0];
    assert one[1..] == rest[1..];
  }

  lemma RendersNothing(pattern: string, text: string)
    requires Renders(pattern, text)
    ensures (pattern == "" <==> text == "") && (pattern == "." <==> text == ".")
  {
    if pattern == "." { assert pattern[1..] == "" && text[1..] == ""; assert text == [text[0]] + text[1..]; }
    if text == "." { assert pattern[1..] == ""; assert pattern == [pattern[0]] + pattern[1..]; }
  }

  lemma {:induction false} NamedRender(patterns: seq<string>, texts: seq<string>)
    requires AllRender(patterns, texts)
    ensures AllRender(Named(patterns), Named(texts))
  {
    hide Renders;
    if texts != [] {
      assert Renders(patterns[0], texts[0]);
      RendersNothing(patterns[0], texts[0]);
      assert forall i | 0 <= i < |texts| - 1 :: patterns[1..][i] == patterns[i + 1] && texts[1..][i] == texts[i + 1];
      NamedRender(patterns[1..], texts[1..]);
    }
  }

  /**
     Cutting a word and cutting its pattern give the same number of named segments, each pattern
     rendering its text: expanding a path never fails because the two disagree.
   */
  lemma SegmentsAgree(command: string, k: nat)
    requires WordsOf(command).Some? && k < |WordsOf(command).value|
    ensures var w := WordsOf(command).value[k]; AllRender(Named(Segments(w.pattern)), Named(Segments(w.text)))
  {
    hide Renders, Lex, Segments;
    EmptyRenders();
    LexRenders(command, Outside, START);
    var w := WordsOf(command).value[k];
    assert WordRenders(w);
    SegmentsRender(w.pattern, w.text);
    NamedRender(Segments(w.pattern), Segments(w.text));
  }

  function EscapeEach(segments: seq<string>): (r: seq<string>)
    ensures |r| == |segments| && forall i | 0 <= i < |segments| :: r[i] == Glob.EscapeAll(segments[i])
  {
    if segments == [] then [] else [Glob.EscapeAll(segments[0])] + EscapeEach(segments[1..])
  }

  /** The segments of a wholly quoted path are wholly quoted segments. */
  lemma {:induction false} EscapedSegments(path: string)
    ensures Segments(Glob.EscapeAll(path)) == EscapeEach(Segments(path))
  {
    if path != "" {
      var rest := Glob.EscapeAll(path[1..]);
      EscapedSegments(path[1..]);
      var e := Glob.EscapeAll(path);
      var ts := Segments(path[1..]);
      if Glob.IsSpecial(path[0]) {
        assert e[2..] == rest;
        EscapedHead(e);
        assert ([path[0]] + ts[0])[1..] == ts[0];
      } else {
        assert e[1..] == rest;
        assert ([path[0]] + ts[0])[1..] == ts[0];
      }
    }
  }
}
