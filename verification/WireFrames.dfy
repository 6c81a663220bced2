/**
 Client messages as they go over the WebSocket: UTF-16 text, JSON string escaping (section 7 of
 RFC 8259, with lone surrogates escaped) and the size of the UTF-8 wire form.
 */
module WireFrames {
  import opened Basics

  /** A UTF-16 code unit. */
  newtype Unit = u: int | 0 <= u < 0x10000
  type Text = seq<Unit>

  predicate High(u: Unit) { 0xD800 <= u < 0xDC00 }
  predicate Low(u: Unit) { 0xDC00 <= u < 0xE000 }

  /** The number of units of the code point at i. */
  function Width(text: Text, i: nat): (w: nat)
    requires i < |text|
    ensures 1 <= w <= 2 && i + w <= |text|
  {
    if High(text[i]) && i + 1 < |text| && Low(text[i + 1]) then 2 else 1
  }

  function Ascii(s: string): Text
    requires forall i | 0 <= i < |s| :: s[i] < '\U{80}'
  {
    seq(|s|, i requires 0 <= i < |s| => s[i] as int as Unit)
  }

  const QUOTE: Unit := 34
  const BACKSLASH: Unit := 92

  function HexDigit(v: nat): Unit
    requires v < 16
  {
    if v < 10 then (48 + v) as Unit else (87 + v) as Unit
  }

  function HexEscape(u: Unit): (e: Text)
    ensures |e| == 6
  {
    var v := u as int;
    [BACKSLASH, 117, HexDigit(v / 4096), HexDigit(v / 256 % 16), HexDigit(v / 16 % 16), HexDigit(v % 16)]
  }

  /** The JSON form of one code point. */
  function EscapePoint(p: Text): (e: Text)
    requires 1 <= |p| <= 2 && (|p| == 2 ==> High(p[0]) && Low(p[1]))
    ensures 1 <= |e| && !High(e[|e| - 1]) && !Low(e[0])
  {
    if |p| == 2 then p
    else if p[0] == QUOTE || p[0] == BACKSLASH then [BACKSLASH, p[0]]
    else if p[0] == 8 then [BACKSLASH, 98]
    else if p[0] == 12 then [BACKSLASH, 102]
    else if p[0] == 10 then [BACKSLASH, 110]
    else if p[0] == 13 then [BACKSLASH, 114]
    else if p[0] == 9 then [BACKSLASH, 116]
    else if p[0] < 32 || High(p[0]) || Low(p[0]) then HexEscape(p[0])
    else p
  }

  function Escape(text: Text): (e: Text)
    ensures e != [] ==> !High(e[|e| - 1]) && !Low(e[0])
  {
    if text == [] then []
    else var w := Width(text, 0); EscapePoint(text[..w]) + Escape(text[w..])
  }

  /** Buffer.byteLength of a string. */
  function ByteLength(text: Text): nat {
    if text == [] then 0
    else if Width(text, 0) == 2 then 4 + ByteLength(text[2..])
    else (if text[0] < 0x80 then 1 else if text[0] < 0x800 then 2 else 3) + ByteLength(text[1..])
  }

  function MessageHead(): Text { Ascii("{\"$case\":\"data\",\"data\":{\"data\":\"") }
  function MessageTail(): Text { Ascii("\"}}") }

  /** JSON.stringify of a data message. */
  function Message(text: Text): Text { MessageHead() + Escape(text) + MessageTail() }

  /** A cut between two units that does not split a surrogate pair. */
  predicate Boundary(text: Text, i: nat) {
    i <= |text| && (0 < i < |text| ==> !(High(text[i - 1]) && Low(text[i])))
  }

  // ---- sizes add up ----

  lemma {:induction false} ByteLengthAppend(a: Text, b: Text)
    requires Boundary(a + b, |a|)
    ensures ByteLength(a + b) == ByteLength(a) + ByteLength(b)
  {
    if a == [] {
      assert a + b == b;
    } else {
      var w := Width(a, 0);
      assert Width(a + b, 0) == w && (a + b)[0] == a[0];
      assert (a + b)[w..] == a[w..] + b;
      assert Boundary(a[w..] + b, |a[w..]|);
      ByteLengthAppend(a[w..], b);
    }
  }

  lemma {:induction false} EscapeAppend(a: Text, b: Text)
    requires Boundary(a + b, |a|)
    ensures Escape(a + b) == Escape(a) + Escape(b)
  {
    hide EscapePoint;
    if a == [] {
      assert a + b == b;
    } else {
      var w := Width(a, 0);
      assert Width(a + b, 0) == w && (a + b)[..w] == a[..w];
      assert (a + b)[w..] == a[w..] + b;
      assert Boundary(a[w..] + b, |a[w..]|);
      EscapeAppend(a[w..], b);
    }
  }

  /** What one more code point adds to a message. */
  function Cost(p: Text): int
    requires 1 <= |p| <= 2 && (|p| == 2 ==> High(p[0]) && Low(p[1]))
  {
    var quoted := [QUOTE] + EscapePoint(p) + [QUOTE];
    ByteLength(quoted) - 2
  }

  lemma CostIsEscapedSize(p: Text)
    requires 1 <= |p| <= 2 && (|p| == 2 ==> High(p[0]) && Low(p[1]))
    ensures Cost(p) == ByteLength(EscapePoint(p))
  {
    var e := EscapePoint(p);
    ByteLengthAppend([QUOTE] + e, [QUOTE]);
    ByteLengthAppend([QUOTE], e);
    assert ByteLength([QUOTE]) == 1;
  }

  lemma MessageSize(text: Text)
    ensures ByteLength(Message(text)) == ByteLength(Message([])) + ByteLength(Escape(text))
  {
    hide Escape, ByteLength;
    var head, tail := MessageHead(), MessageTail();
    assert tail[0] == QUOTE && head[|head| - 1] == QUOTE;
    ByteLengthAppend(head + Escape(text), tail);
    ByteLengthAppend(head, Escape(text));
    ByteLengthAppend(head + Escape([]), tail);
    ByteLengthAppend(head, Escape([]));
    EmptyEscape();
  }

  lemma EmptyEscape()
    ensures Escape([]) == [] && ByteLength([]) == 0
  {
  }

  lemma EscapeOfPoint(p: Text)
    requires 1 <= |p| <= 2 && Width(p, 0) == |p|
    ensures Escape(p) == EscapePoint(p)
  {
    hide EscapePoint;
    assert p[..|p|] == p && p[|p|..] == [];
  }

  /** The code point at a boundary, as a piece of the text. */
  lemma PointIsWhole(text: Text, from: nat, end: nat)
    requires from <= end < |text| && Boundary(text, end)
    ensures var w := Width(text, end); var a, p := text[from..end], text[end..end + w];
            && Boundary(text, end + w) && text[from..end + w] == a + p && Boundary(a + p, |a|)
            && 1 <= |p| <= 2 && Width(p, 0) == |p| && (|p| == 2 ==> High(p[0]) && Low(p[1]))
  {
  }

  lemma JoinedAtBoundary(a: Text, b: Text)
    requires a != [] ==> !High(a[|a| - 1])
    ensures Boundary(a + b, |a|)
  {
  }

  lemma PointAppend(text: Text, from: nat, end: nat)
    requires from <= end < |text| && Boundary(text, end)
    ensures var w := Width(text, end);
            && Boundary(text, end + w)
            && Escape(text[from..end + w]) == Escape(text[from..end]) + EscapePoint(text[end..end + w])
            && ByteLength(Escape(text[from..end + w])) == ByteLength(Escape(text[from..end])) + Cost(text[end..end + w])
  {
    hide ByteLength, EscapePoint, Escape, Cost;
    PointIsWhole(text, from, end);
    hide Width, Boundary;
    var w := Width(text, end);
    var a, p := text[from..end], text[end..end + w];
    EscapeAppend(a, p);
    EscapeOfPoint(p);
    JoinedAtBoundary(Escape(a), EscapePoint(p));
    ByteLengthAppend(Escape(a), EscapePoint(p));
    CostIsEscapedSize(p);
  }

  datatype Frame = Frame(message: Text, end: nat, bytes: nat)

  /** A frame for text[offset..]: exact size, within the limit, whole code points, as long as possible. */
  ghost predicate FrameFor(frame: Frame, text: Text, offset: nat, maxBytes: nat) {
    && offset < frame.end <= |text|
    && frame.message == Message(text[offset..frame.end])
    && frame.bytes == ByteLength(frame.message) <= maxBytes
    && Boundary(text, frame.end)
    && (frame.end < |text| ==> ByteLength(Message(text[offset..frame.end + Width(text, frame.end)])) > maxBytes)
  }

  /** Cuts the next frame; the only failure is a limit too small for the next code point. */
  method NextDataFrame(text: Text, offset: nat, maxBytes: nat) returns (frame: Option<Frame>)
    requires offset < |text| && Boundary(text, offset)
    ensures frame.Some? ==> FrameFor(frame.value, text, offset, maxBytes)
    ensures frame.None? <==> ByteLength(Message(text[offset..offset + Width(text, offset)])) > maxBytes
  {
    hide ByteLength, Escape, EscapePoint, Message;
    var bytes := ByteLength(Message([]));
    var end := offset;
    assert text[offset..offset] == [];
    MessageSize(text[offset..end]);
    while end < |text|
      invariant offset <= end <= |text| && Boundary(text, end)
      invariant bytes == ByteLength(Message(text[offset..end]))
      invariant end > offset ==> bytes <= maxBytes && ByteLength(Message(text[offset..offset + Width(text, offset)])) <= maxBytes
      decreases |text| - end
    {
      var width := Width(text, end);
      var cost := Cost(text[end..end + width]);
      PointAppend(text, offset, end);
      MessageSize(text[offset..end]);
      MessageSize(text[offset..end + width]);
      if bytes + cost > maxBytes { break; }
      bytes := bytes + cost;
      end := end + width;
    }
    if end == offset { return None; }
    return Some(Frame(Message(text[offset..end]), end, bytes));
  }

  // ---- the far end reads back what was sent ----

  function HexValue(u: Unit): nat {
    if 48 <= u <= 57 then u as int - 48 else if 97 <= u <= 102 then u as int - 87 else 0
  }

  /** A JSON string reader, as section 7 of RFC 8259 defines the escapes. */
  function Unescape(e: Text): Text {
    if e == [] then []
    else if e[0] != BACKSLASH then [e[0]] + Unescape(e[1..])
    else if |e| >= 6 && e[1] == 117 then
      var v := HexValue(e[2]) * 4096 + HexValue(e[3]) * 256 + HexValue(e[4]) * 16 + HexValue(e[5]);
      [if v < 0x10000 then v as Unit else 0] + Unescape(e[6..])
    else if |e| >= 2 then
      [match e[1] case 98 => 8 case 102 => 12 case 110 => 10 case 114 => 13 case 116 => 9 case c => c] + Unescape(e[2..])
    else []
  }

  lemma HexDigitValue(v: nat)
    requires v < 16
    ensures HexValue(HexDigit(v)) == v
  {
  }

  lemma FourHexDigits(v: nat)
    requires v < 0x10000
    ensures v == v / 4096 * 4096 + v / 256 % 16 * 256 + v / 16 % 16 * 16 + v % 16
  {
    assert v / 16 == v / 256 * 16 + v / 16 % 16;
    assert v / 256 == v / 4096 * 16 + v / 256 % 16;
  }

  lemma ReadHex(u: Unit, rest: Text)
    ensures Unescape(HexEscape(u) + rest) == [u] + Unescape(rest)
  {
    hide HexDigit, HexValue;
    var v := u as int;
    HexDigitValue(v / 4096);
    HexDigitValue(v / 256 % 16);
    HexDigitValue(v / 16 % 16);
    HexDigitValue(v % 16);
    FourHexDigits(v);
    var s := HexEscape(u) + rest;
    assert s[6..] == rest;
  }

  lemma ReadPlain(u: Unit, rest: Text)
    requires u != BACKSLASH
    ensures Unescape([u] + rest) == [u] + Unescape(rest)
  {
    assert ([u] + rest)[1..] == rest;
  }

  lemma ReadShort(c: Unit, rest: Text)
    requires c != 117
    ensures Unescape([BACKSLASH, c] + rest) ==
            [match c case 98 => 8 case 102 => 12 case 110 => 10 case 114 => 13 case 116 => 9 case c => c] + Unescape(rest)
  {
    assert ([BACKSLASH, c] + rest)[2..] == rest;
  }

  lemma UnescapePoint(p: Text, rest: Text)
    requires 1 <= |p| <= 2 && (|p| == 2 ==> High(p[0]) && Low(p[1]))
    ensures Unescape(EscapePoint(p) + rest) == p + Unescape(rest)
  {
    hide Unescape, HexEscape;
    var e := EscapePoint(p);
    if |p| == 2 {
      ReadPlain(p[1], rest);
      ReadPlain(p[0], [p[1]] + rest);
      assert e + rest == [p[0]] + ([p[1]] + rest);
      assert p + Unescape(rest) == [p[0]] + ([p[1]] + Unescape(rest));
    } else {
      assert p == [p[0]];
      ReadHex(p[0], rest);
      if e == p { ReadPlain(p[0], rest); }
      if |e| == 2 { ReadShort(e[1], rest); }
    }
  }

  /** Reading a message's string gives the text back. */
  lemma {:induction false} UnescapeEscape(text: Text)
    ensures Unescape(Escape(text)) == text
  {
    hide EscapePoint, Unescape;
    if text == [] {
      UnescapeEmpty();
    } else {
      var w := Width(text, 0);
      UnescapeEscape(text[w..]);
      UnescapePoint(text[..w], Escape(text[w..]));
    }
  }

  lemma UnescapeEmpty()
    ensures Unescape([]) == []
  {
  }
}
