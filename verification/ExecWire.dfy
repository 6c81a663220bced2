/**
 The exec wire format as a whole: what a well-formed session transcript is, and when a text can no
 longer be the beginning of one.  The streaming parser in ExecCodec is proved against this.
 */
module ExecWire {
  import opened Basics
  import opened Search
  import opened Base64
  import opened WireFrames

  const RS := '\U{1e}'
  const US := '\U{1f}'

  datatype Limits = Limits(prelude: int, output: nat, encoded: nat)

  /** One command's life on the wire, in UTF-16 units; the body is base64 with any line breaks in it. */
  datatype Session = Session(noise1: Text, noise2: Text, body: Text, payload: Bytes, code: nat)

  /** A plain character as a unit; the markers have no other. */
  function UnitOf(c: char): Unit { if c < '\U{80}' then c as int as Unit else 0xFFFD }

  function Units(s: string): Text { seq(|s|, i requires 0 <= i < |s| => UnitOf(s[i])) }

  predicate IsPlain(u: Unit) { u < 0x80 }

  predicate Plain(text: Text) { forall i | 0 <= i < |text| :: IsPlain(text[i]) }

  /** A plain unit as a character; any other is one that base64 does not use. */
  function CharOf(u: Unit): char { if IsPlain(u) then u as int as char else '\U{80}' }

  predicate ValidNonce(nonce: string) {
    |nonce| == 64 && forall i | 0 <= i < |nonce| :: '0' <= nonce[i] <= '9' || 'a' <= nonce[i] <= 'f'
  }

  function ReadyMarker(nonce: string): (marker: Text)
    ensures |marker| > 0
  {
    Units([RS] + "USSHTC_" + nonce + ":READY" + [US])
  }

  function StartMarker(nonce: string): (marker: Text)
    ensures |marker| > 0
  {
    Units([RS] + "USSHTC_" + nonce + ":START" + [US])
  }

  function Ascii(s: string): Bytes
    requires forall i | 0 <= i < |s| :: s[i] < '\U{80}'
  {
    seq(|s|, i requires 0 <= i < |s| => s[i] as int as Byte)
  }

  function EndPrefix(nonce: string): (marker: Bytes)
    requires ValidNonce(nonce)
    ensures |marker| > 0
  {
    Ascii([RS] + "USSHTC_" + nonce + ":END:")
  }

  function Digits(code: nat): Bytes
    requires code <= 255
  {
    if code < 10 then [(48 + code) as Byte]
    else if code < 100 then [(48 + code / 10) as Byte, (48 + code % 10) as Byte]
    else [(48 + code / 100) as Byte, (48 + code / 10 % 10) as Byte, (48 + code % 10) as Byte]
  }

  predicate AllDigits(text: Bytes) { forall i | 0 <= i < |text| :: 48 <= text[i] <= 57 }

  /** The exit code rule: canonical decimal, at most 255. */
  function ParseCode(text: Bytes): (code: Option<nat>)
    ensures code.Some? ==> code.value <= 255
  {
    if !(1 <= |text| <= 3 && AllDigits(text)) || (|text| > 1 && text[0] == 48) then None
    else
      var d0 := text[0] as int - 48;
      var value := if |text| == 1 then d0
                   else if |text| == 2 then d0 * 10 + (text[1] as int - 48)
                   else d0 * 100 + (text[1] as int - 48) * 10 + (text[2] as int - 48);
      if value <= 255 then Some(value) else None
  }

  lemma ParseCodeExact(text: Bytes, code: nat)
    requires code <= 255
    ensures ParseCode(text) == Some(code) <==> text == Digits(code)
    ensures AllDigits(Digits(code)) && |Digits(code)| <= 3
  {
    DecimalDigits(code);
    if ParseCode(text) == Some(code) {
      var d0 := text[0] as int - 48;
      var d1 := if |text| > 1 then text[1] as int - 48 else 0;
      var d2 := if |text| > 2 then text[2] as int - 48 else 0;
      ThreeDigits(d0, d1, d2);
    }
  }

  lemma DecimalDigits(code: nat)
    requires code <= 255
    ensures code == code / 10 * 10 + code % 10 && code == code / 100 * 100 + code / 10 % 10 * 10 + code % 10
  {
  }

  lemma ThreeDigits(a: nat, b: nat, c: nat)
    requires a < 10 && b < 10 && c < 10
    ensures (a * 10 + b) / 10 == a && (a * 10 + b) % 10 == b
    ensures var n := a * 100 + b * 10 + c; n / 100 == a && n / 10 % 10 == b && n % 10 == c
  {
    var n := a * 100 + b * 10 + c;
    assert n / 10 == a * 10 + b;
  }

  function EndFrame(nonce: string, code: nat): Bytes
    requires ValidNonce(nonce) && code <= 255
  {
    EndPrefix(nonce) + (Digits(code) + [31])
  }

  predicate IsBreak(u: Unit) { u == 13 || u == 10 }

  function Kept(u: Unit): string { if IsBreak(u) then "" else [CharOf(u)] }

  function Strip(text: Text): string {
    if text == [] then "" else Kept(text[0]) + Strip(text[1..])
  }

  predicate IsLegal(u: Unit) { IsSymbol(CharOf(u)) || CharOf(u) == '=' || IsBreak(u) }

  predicate LegalBody(text: Text) {
    forall i | 0 <= i < |text| :: IsLegal(text[i])
  }

  function Transcript(s: Session, nonce: string): Text {
    s.noise1 + ReadyMarker(nonce) + (s.noise2 + StartMarker(nonce) + s.body)
  }

  /** A transcript the far end may produce: markers only where they belong, everything canonical. */
  ghost predicate WellFormed(s: Session, nonce: string)
    requires ValidNonce(nonce)
  {
    && Absent(s.noise1, ReadyMarker(nonce))
    && Absent(s.noise2, StartMarker(nonce))
    && LegalBody(s.body)
    && s.code <= 255 && Absent(s.payload, EndPrefix(nonce))
    && Strip(s.body) == Encode(s.payload + EndFrame(nonce, s.code))
  }

  ghost predicate Within(s: Session, limits: Limits) {
    && ByteLength(s.noise1) + ByteLength(s.noise2) <= limits.prelude
    && |s.payload| <= limits.output
    && |s.body| <= limits.encoded
  }

  ghost predicate Good(s: Session, nonce: string, limits: Limits)
    requires ValidNonce(nonce)
  {
    WellFormed(s, nonce) && Within(s, limits)
  }

  /** No good session begins with this text. */
  ghost predicate Hopeless(text: Text, nonce: string, limits: Limits)
    requires ValidNonce(nonce)
  {
    forall s: Session | Good(s, nonce, limits) :: !(text <= Transcript(s, nonce))
  }

  /** The same for the decoded bytes of the body. */
  ghost predicate HopelessBytes(data: Bytes, nonce: string, limits: Limits)
    requires ValidNonce(nonce)
  {
    forall payload: Bytes, code: nat |
      code <= 255 && |payload| <= limits.output && Absent(payload, EndPrefix(nonce)) ::
      !(data <= payload + EndFrame(nonce, code))
  }

  // ---- the pieces of a text ----

  function After(text: Text, marker: Text): Option<Text> {
    match IndexOf(text, marker)
    case None => None
    case Some(i) => Some(text[i + |marker|..])
  }

  /** The encoded body of a text, once both markers have been seen. */
  function BodyOf(text: Text, nonce: string): Option<Text> {
    match After(text, ReadyMarker(nonce))
    case None => None
    case Some(rest) => After(rest, StartMarker(nonce))
  }

  // ---- small facts ----

  lemma MarkersDoNotRecur(nonce: string)
    requires ValidNonce(nonce)
    ensures forall p | 0 < p < |ReadyMarker(nonce)| :: ReadyMarker(nonce)[p] != ReadyMarker(nonce)[0]
    ensures forall p | 0 < p < |StartMarker(nonce)| :: StartMarker(nonce)[p] != StartMarker(nonce)[0]
    ensures forall p | 0 < p < |EndPrefix(nonce)| :: EndPrefix(nonce)[p] != EndPrefix(nonce)[0]
  {
    var text := [RS] + "USSHTC_" + nonce + ":END:";
    var ready, start := [RS] + "USSHTC_" + nonce + ":READY" + [US], [RS] + "USSHTC_" + nonce + ":START" + [US];
    forall p | 0 < p < |text| ensures text[p] != RS && text[p] < '\U{80}' {
      if 8 <= p < 72 { assert text[p] == nonce[p - 8]; }
    }
    assert forall p | 0 <= p < |text| :: EndPrefix(nonce)[p] == text[p] as int as Byte;
    forall p | 0 < p < |ready| ensures ready[p] != RS && start[p] != RS && ready[p] < '\U{80}' && start[p] < '\U{80}' {
      if 8 <= p < 72 { assert ready[p] == start[p] == nonce[p - 8]; }
    }
    assert forall p | 0 <= p < |ready| :: ReadyMarker(nonce)[p] == UnitOf(ready[p]) && StartMarker(nonce)[p] == UnitOf(start[p]);
  }

  /** The markers are plain, and so is their last unit. */
  lemma MarkersArePlain(nonce: string)
    requires ValidNonce(nonce)
    ensures Plain(ReadyMarker(nonce)) && Plain(StartMarker(nonce))
  {
    var ready, start := [RS] + "USSHTC_" + nonce + ":READY" + [US], [RS] + "USSHTC_" + nonce + ":START" + [US];
    forall p | 0 <= p < |ready| ensures ready[p] < '\U{80}' && start[p] < '\U{80}' {
      if 8 <= p < 72 { assert ready[p] == start[p] == nonce[p - 8]; }
    }
    assert forall p | 0 <= p < |ready| :: ReadyMarker(nonce)[p] == UnitOf(ready[p]) && StartMarker(nonce)[p] == UnitOf(start[p]);
  }

  lemma StripCons(c: Unit, rest: Text)
    ensures Strip([c] + rest) == Kept(c) + Strip(rest)
  {
    assert ([c] + rest)[1..] == rest;
  }

  lemma {:induction false} StripAppend(a: Text, b: Text)
    ensures Strip(a + b) == Strip(a) + Strip(b)
  {
    if a == [] {
      assert a + b == b;
    } else {
      hide Strip, Kept;
      StripAppend(a[1..], b);
      StripCons(a[0], a[1..]);
      StripCons(a[0], a[1..] + b);
      HeadTail(a, b);
      Assoc(Kept(a[0]), Strip(a[1..]), Strip(b));
    }
  }

  lemma {:induction false} StripShorter(a: Text)
    ensures |Strip(a)| <= |a|
    ensures LegalBody(a) ==> forall i | 0 <= i < |Strip(a)| :: IsSymbol(Strip(a)[i]) || Strip(a)[i] == '='
    ensures (forall i | 0 <= i < |a| :: IsBreak(a[i])) <==> Strip(a) == ""
  {
    if a != [] {
      StripShorter(a[1..]);
      assert forall i | 1 <= i < |a| :: a[i] == a[1..][i - 1];
    }
  }

  // ---- the size of parts ----

  /** A surrogate pair is cut between the two texts. */
  predicate Joins(a: Text, b: Text) { a != [] && b != [] && High(a[|a| - 1]) && Low(b[0]) }

  /** The bytes of two parts are those of the whole, and two more if a pair is cut: each half counts three. */
  lemma ByteLengthParts(a: Text, b: Text)
    ensures ByteLength(a) + ByteLength(b) == ByteLength(a + b) + if Joins(a, b) then 2 else 0
  {
    hide ByteLength;
    if Joins(a, b) {
      var n := |a| - 1;
      assert a == a[..n] + [a[n]] && a + b == a[..n] + ([a[n]] + b);
      PairAcross(a[..n], a[n], b);
    } else {
      ByteLengthAppend(a, b);
    }
  }

  lemma PairAcross(front: Text, high: Unit, b: Text)
    requires High(high) && b != [] && Low(b[0])
    ensures ByteLength(front + [high]) + ByteLength(b) == ByteLength(front + ([high] + b)) + 2
  {
    hide ByteLength;
    ByteLengthAppend(front, [high]);
    ByteLengthAppend(front, [high] + b);
    PairBytes(high, b);
    LowBytes(b);
  }

  lemma PairBytes(high: Unit, b: Text)
    requires High(high) && b != [] && Low(b[0])
    ensures ByteLength([high] + b) == 4 + ByteLength(b[1..]) && ByteLength([high]) == 3
  {
    assert ([high] + b)[2..] == b[1..];
    assert [high][1..] == [];
  }

  lemma LowBytes(b: Text)
    requires b != [] && Low(b[0])
    ensures ByteLength(b) == 3 + ByteLength(b[1..])
  {
  }

  lemma ByteLengthPrefix(a: Text, b: Text)
    requires a <= b
    ensures ByteLength(a) <= ByteLength(b)
  {
    hide ByteLength;
    var rest := b[|a|..];
    assert b == a + rest;
    ByteLengthParts(a, rest);
    if Joins(a, rest) { LowBytes(rest); }
  }

  lemma FirstIsStable<T>(s: seq<T>, marker: seq<T>, more: seq<T>)
    requires IndexOf(s, marker).Some?
    ensures IndexOf(s + more, marker) == IndexOf(s, marker)
  {
    var i := IndexOf(s, marker).value;
    assert (s + more)[i..i + |marker|] == s[i..i + |marker|];
    assert At(s + more, marker, i);
    forall j: nat | j < i ensures !At(s + more, marker, j) {
      assert (s + more)[j..j + |marker|] == s[j..j + |marker|];
      assert !At(s, marker, j);
    }
  }

  // ---- how a beginning of a good session is cut ----

  /** A text that is the beginning of a good session shows its markers exactly where the session has them. */
  lemma SessionPieces(s: Session, nonce: string, text: Text)
    requires ValidNonce(nonce) && WellFormed(s, nonce) && text <= Transcript(s, nonce)
    ensures IndexOf(text, ReadyMarker(nonce)).None? ==> |text| < |s.noise1| + |ReadyMarker(nonce)|
    ensures IndexOf(text, ReadyMarker(nonce)).Some? ==>
              && IndexOf(text, ReadyMarker(nonce)).value == |s.noise1|
              && After(text, ReadyMarker(nonce)).value <= s.noise2 + StartMarker(nonce) + s.body
    ensures var rest := After(text, ReadyMarker(nonce));
            rest.Some? ==>
              && (IndexOf(rest.value, StartMarker(nonce)).None? ==> |rest.value| < |s.noise2| + |StartMarker(nonce)|)
              && (IndexOf(rest.value, StartMarker(nonce)).Some? ==>
                    && IndexOf(rest.value, StartMarker(nonce)).value == |s.noise2|
                    && BodyOf(text, nonce) == Some(rest.value[|s.noise2| + |StartMarker(nonce)|..])
                    && BodyOf(text, nonce).value <= s.body)
  {
    MarkersDoNotRecur(nonce);
    var ready, start := ReadyMarker(nonce), StartMarker(nonce);
    AbsentBeforeMarkerEnds(s.noise1, ready, s.noise2 + start + s.body, text);
    var rest := After(text, ready);
    if rest.Some? {
      assert Transcript(s, nonce)[|s.noise1| + |ready|..] == s.noise2 + start + s.body;
      assert rest.value <= s.noise2 + start + s.body;
      AbsentBeforeMarkerEnds(s.noise2, start, s.body, rest.value);
      assert (s.noise2 + start + s.body)[|s.noise2| + |start|..] == s.body;
    }
  }

  /** A part of the noise that cannot grow into the marker is noise for good. */
  lemma TailCoversMarkerPart<T>(noise: seq<T>, marker: seq<T>, rest: seq<T>, part: seq<T>, k: nat)
    requires part <= noise + marker + rest && |part| < |noise| + |marker| && IsTail(part, marker, k)
    ensures |part| - k <= |noise|
    ensures part[..|part| - k] <= noise
  {
    if |part| > |noise| {
      var j := |part| - |noise|;
      assert part[|part| - j..] == (noise + marker + rest)[|noise|..|part|] == marker[..j];
      assert EndsWithPrefix(part, marker, j);
    }
  }

  /** The decoded beginning of a body belongs to the payload and its frame. */
  lemma BodyDecodes(s: Session, nonce: string, body: Text, groups: string, carry: string, decoded: Bytes)
    requires ValidNonce(nonce) && WellFormed(s, nonce) && body <= s.body
    requires Strip(body) == groups + carry && |groups| % 4 == 0 && groups == Encode(decoded)
    ensures groups + carry <= Encode(s.payload + EndFrame(nonce, s.code))
    ensures decoded <= s.payload + EndFrame(nonce, s.code)
    ensures |decoded| % 3 != 0 || decoded == s.payload + EndFrame(nonce, s.code) ==>
              groups == Encode(s.payload + EndFrame(nonce, s.code)) && carry == ""
  {
    hide Encode;
    hide Strip;
    var whole := s.payload + EndFrame(nonce, s.code);
    StripAppend(body, s.body[|body|..]);
    assert s.body == body + s.body[|body|..];
    assert groups + carry <= Encode(whole);
    EncodedPrefixInverse(decoded, whole);
  }

  /** The beginning of a payload with its frame shows the frame exactly after the payload. */
  lemma FramePieces(data: Bytes, payload: Bytes, code: nat, nonce: string)
    requires ValidNonce(nonce) && code <= 255 && Absent(payload, EndPrefix(nonce))
    requires data <= payload + EndFrame(nonce, code)
    ensures IndexOf(data, EndPrefix(nonce)).None? ==> |data| < |payload| + |EndPrefix(nonce)|
    ensures IndexOf(data, EndPrefix(nonce)).Some? ==>
              && IndexOf(data, EndPrefix(nonce)).value == |payload|
              && data[..|payload|] == payload
              && data[|payload| + |EndPrefix(nonce)|..] <= Digits(code) + [31]
  {
    MarkersDoNotRecur(nonce);
    var end, tail := EndPrefix(nonce), Digits(code) + [31];
    assert payload + EndFrame(nonce, code) == payload + end + tail;
    AbsentBeforeMarkerEnds(payload, end, tail, data);
    if |data| >= |payload| + |end| {
      assert (payload + end + tail)[|payload| + |end|..] == tail;
    }
  }

  lemma TooMuchOutput(data: Bytes, nonce: string, limits: Limits, emitted: nat)
    requires ValidNonce(nonce) && limits.output < emitted
    requires match IndexOf(data, EndPrefix(nonce))
             case Some(i) => emitted == i
             case None => emitted <= |data| && IsTail(data, EndPrefix(nonce), |data| - emitted)
    ensures HopelessBytes(data, nonce, limits)
  {
    forall payload: Bytes, code: nat |
      code <= 255 && |payload| <= limits.output && Absent(payload, EndPrefix(nonce))
      ensures !(data <= payload + EndFrame(nonce, code))
    {
      if data <= payload + EndFrame(nonce, code) {
        FramePieces(data, payload, code, nonce);
        if IndexOf(data, EndPrefix(nonce)).None? {
          assert payload + EndFrame(nonce, code) == payload + EndPrefix(nonce) + (Digits(code) + [31]);
          TailCoversMarkerPart(payload, EndPrefix(nonce), Digits(code) + [31], data, |data| - emitted);
        }
      }
    }
  }

  /** A suffix that no exit code explains. */
  lemma BadSuffix(data: Bytes, nonce: string, limits: Limits, i: nat)
    requires ValidNonce(nonce) && IndexOf(data, EndPrefix(nonce)) == Some(i)
    requires forall code: nat | code <= 255 :: !(data[i + |EndPrefix(nonce)|..] <= Digits(code) + [31])
    ensures HopelessBytes(data, nonce, limits)
  {
    forall payload: Bytes, code: nat |
      code <= 255 && |payload| <= limits.output && Absent(payload, EndPrefix(nonce))
      ensures !(data <= payload + EndFrame(nonce, code))
    {
      if data <= payload + EndFrame(nonce, code) {
        FramePieces(data, payload, code, nonce);
      }
    }
  }

  /** The parser's two readings of what follows the END prefix, against the code they must come from. */
  lemma SuffixRule(suffix: Bytes, code: nat)
    requires code <= 255 && suffix <= Digits(code) + [31]
    ensures IndexOf(suffix, [31]).None? ==> |suffix| <= 3 && AllDigits(suffix)
    ensures IndexOf(suffix, [31]).Some? ==>
              IndexOf(suffix, [31]).value == |suffix| - 1 && suffix[..|suffix| - 1] == Digits(code) && suffix == Digits(code) + [31]
  {
    ParseCodeExact(Digits(code), code);
    var t := IndexOf(suffix, [31]);
    if t.Some? {
      assert suffix[t.value..t.value + 1][0] == 31;
      assert suffix[t.value] == (Digits(code) + [31])[t.value];
    }
    if |suffix| == |Digits(code)| + 1 {
      assert suffix[|suffix| - 1..|suffix| - 1 + 1] == [31];
      assert At(suffix, [31], |suffix| - 1);
    }
  }

  /** What the parser reads after the END prefix: nothing yet, a code, or an error. */
  datatype Reading = More | Code(code: nat) | Bad

  function ReadSuffix(suffix: Bytes): Reading {
    match IndexOf(suffix, [31])
    case None => if |suffix| > 3 || !AllDigits(suffix) then Bad else More
    case Some(t) =>
      match ParseCode(suffix[..t])
      case None => Bad
      case Some(code) => if t != |suffix| - 1 then Bad else Code(code)
  }

  /** A bad reading fits no code; a code read is the code sent, and nothing is left over. */
  lemma ReadSuffixExact(suffix: Bytes)
    ensures ReadSuffix(suffix).Bad? ==> forall code: nat | code <= 255 :: !(suffix <= Digits(code) + [31])
    ensures ReadSuffix(suffix).Code? ==> ReadSuffix(suffix).code <= 255 && suffix == Digits(ReadSuffix(suffix).code) + [31]
    ensures ReadSuffix(suffix).More? ==> |suffix| <= 3 && AllDigits(suffix)
  {
    hide Digits, ParseCode, IndexFrom;
    var t := IndexOf(suffix, [31]);
    forall code: nat | code <= 255 && suffix <= Digits(code) + [31] ensures !ReadSuffix(suffix).Bad? {
      SuffixRule(suffix, code);
      ParseCodeExact(Digits(code), code);
    }
    if ReadSuffix(suffix).Code? {
      ParseCodeExact(suffix[..t.value], ReadSuffix(suffix).code);
      assert suffix[t.value..t.value + 1] == [31];
      assert suffix == suffix[..t.value] + [31];
    }
  }

  // ---- bodies no session has ----

  /** No good session's body begins with this text. */
  ghost predicate HopelessBody(body: Text, nonce: string, limits: Limits)
    requires ValidNonce(nonce)
  {
    forall s: Session | Good(s, nonce, limits) :: !(body <= s.body)
  }

  lemma StrippedPrefix(body: Text, s: Session)
    requires body <= s.body
    ensures Strip(body) <= Strip(s.body)
  {
    StripAppend(body, s.body[|body|..]);
    assert s.body == body + s.body[|body|..];
  }

  /** Decoded bytes that contain a whole frame are a whole payload with its frame. */
  lemma FramedIsWhole(data: Bytes, payload: Bytes, code: nat, nonce: string, m: nat, c: nat)
    requires ValidNonce(nonce) && code <= 255 && c <= 255 && Absent(payload, EndPrefix(nonce))
    requires data <= payload + EndFrame(nonce, code)
    requires IndexOf(data, EndPrefix(nonce)) == Some(m) && data[m + |EndPrefix(nonce)|..] == Digits(c) + [31]
    ensures data == payload + EndFrame(nonce, code) && m == |payload| && c == code
  {
    hide IndexOf, Digits;
    FramePieces(data, payload, code, nonce);
    var suffix := data[m + |EndPrefix(nonce)|..];
    ParseCodeExact(Digits(c), c);
    assert suffix[|suffix| - 1..|suffix| - 1 + 1] == [31];
    assert At(suffix, [31], |suffix| - 1);
    SuffixRule(suffix, code);
    ParseCodeExact(Digits(c), code);
    assert data == data[..m + |EndPrefix(nonce)|] + suffix;
  }

  /** After padding or a whole frame nothing may follow. */
  lemma NothingFollows(body: Text, decoded: Bytes, carry: string, nonce: string, limits: Limits)
    requires ValidNonce(nonce) && Strip(body) == Encode(decoded) + carry && carry != ""
    requires || |decoded| % 3 != 0
             || (IndexOf(decoded, EndPrefix(nonce)).Some? &&
                 exists c: nat | c <= 255 :: decoded[IndexOf(decoded, EndPrefix(nonce)).value + |EndPrefix(nonce)|..] == Digits(c) + [31])
    ensures HopelessBody(body, nonce, limits)
  {
    hide Encode, Strip, IndexOf, Digits, EndPrefix;
    forall s: Session | Good(s, nonce, limits) ensures !(body <= s.body) {
      if body <= s.body {
        BodyDecodes(s, nonce, body, Encode(decoded), carry, decoded);
        if |decoded| % 3 == 0 {
          var c: nat :| c <= 255 && decoded[IndexOf(decoded, EndPrefix(nonce)).value + |EndPrefix(nonce)|..] == Digits(c) + [31];
          FramedIsWhole(decoded, s.payload, s.code, nonce, IndexOf(decoded, EndPrefix(nonce)).value, c);
        }
      }
    }
  }

  lemma PartOfEncoding(x: Bytes, before: string, data: string)
    requires before + data <= Encode(x)
    ensures Shape(data)
  {
    hide Encode;
    EncodedShape(x);
    ShapeOfPart(Encode(x), |before|, |before| + |data|);
    assert Encode(x)[|before|..|before| + |data|] == data;
  }

  lemma BadShape(body: Text, decoded: Bytes, data: string, nonce: string, limits: Limits)
    requires ValidNonce(nonce) && Strip(body) == Encode(decoded) + data && !Shape(data)
    ensures HopelessBody(body, nonce, limits)
  {
    hide Encode, Strip;
    forall s: Session | Good(s, nonce, limits) ensures !(body <= s.body) {
      if body <= s.body {
        StrippedPrefix(body, s);
        PartOfEncoding(s.payload + EndFrame(nonce, s.code), Encode(decoded), data);
      }
    }
  }

  /** Padded groups must be the last ones and canonical. */
  lemma BadPadding(body: Text, decoded: Bytes, groups: string, rest: string, nonce: string, limits: Limits)
    requires ValidNonce(nonce) && Strip(body) == Encode(decoded) + groups + rest
    requires |decoded| % 3 == 0 && |groups| % 4 == 0 && exists i | 0 <= i < |groups| :: groups[i] == '='
    requires rest != "" || Encode(Decode(groups)) != groups
    ensures HopelessBody(body, nonce, limits)
  {
    hide Encode, Decode, Strip, EndFrame;
    forall s: Session | Good(s, nonce, limits) ensures !(body <= s.body) {
      if body <= s.body {
        var whole := s.payload + EndFrame(nonce, s.code);
        StrippedPrefix(body, s);
        PaddingEnds(decoded, groups, rest, whole);
      }
    }
  }

  lemma PaddingEnds(decoded: Bytes, groups: string, rest: string, whole: Bytes)
    requires Encode(decoded) + groups + rest <= Encode(whole)
    requires |decoded| % 3 == 0 && |groups| % 4 == 0 && exists i | 0 <= i < |groups| :: groups[i] == '='
    ensures rest == "" && Encode(Decode(groups)) == groups
  {
    hide Encode, Decode;
    var i :| 0 <= i < |groups| && groups[i] == '=';
    var e := Encode(decoded);
    PadMeansEnd(whole, e + groups, |e| + i);
    EncodedPrefixInverse(decoded, whole);
    var tail := whole[|decoded|..];
    assert whole == decoded + tail;
    EncodeAppend(decoded, tail);
    Cancel(e, groups, Encode(tail));
    EncodedPrefixInverse(tail, tail);
  }

  lemma Cancel<T>(a: seq<T>, b: seq<T>, c: seq<T>)
    requires a + b == a + c
    ensures b == c
  {
    assert b == (a + b)[|a|..] == (a + c)[|a|..] == c;
  }

  lemma PadMeansEnd(x: Bytes, part: string, i: nat)
    requires part <= Encode(x) && |part| % 4 == 0 && i < |part| && part[i] == '='
    ensures part == Encode(x)
  {
    hide Encode, Decode;
    EncodedPrefix(x, part);
  }

  lemma BytesToBody(body: Text, decoded: Bytes, carry: string, nonce: string, limits: Limits)
    requires ValidNonce(nonce) && Strip(body) == Encode(decoded) + carry && HopelessBytes(decoded, nonce, limits)
    ensures HopelessBody(body, nonce, limits)
  {
    hide Encode, Strip, EndFrame;
    forall s: Session | Good(s, nonce, limits) ensures !(body <= s.body) {
      if body <= s.body { BodyDecodes(s, nonce, body, Encode(decoded), carry, decoded); }
    }
  }

  lemma BodyToText(text: Text, body: Text, nonce: string, limits: Limits)
    requires ValidNonce(nonce) && BodyOf(text, nonce) == Some(body) && HopelessBody(body, nonce, limits)
    ensures Hopeless(text, nonce, limits)
  {
    hide IndexOf, ReadyMarker, StartMarker;
    forall s: Session | Good(s, nonce, limits) ensures !(text <= Transcript(s, nonce)) {
      if text <= Transcript(s, nonce) { SessionPieces(s, nonce, text); }
    }
  }

  /** Taking whole groups off the front of the data. */
  lemma GroupsAppend(decoded: Bytes, groups: string)
    requires |decoded| % 3 == 0 && |groups| % 4 == 0 && Encode(Decode(groups)) == groups
    ensures Encode(decoded + Decode(groups)) == Encode(decoded) + groups
  {
    EncodeAppend(decoded, Decode(groups));
  }

  /** A pad shows in the decoded length. */
  lemma PadShows(groups: string)
    requires |groups| % 4 == 0 && Encode(Decode(groups)) == groups
    ensures |Decode(groups)| % 3 != 0 <==> exists i | 0 <= i < |groups| :: groups[i] == '='
  {
    hide Encode, Decode;
    PadInEncoding(Decode(groups));
  }

  lemma PadInGroup(x: Bytes)
    requires 1 <= |x| <= 3
    ensures '=' in EncodeGroup(x) <==> |x| < 3
  {
    GroupRoundTrip(x);
    hide EncodeGroup, IsSymbol;
    var q := EncodeGroup(x);
    assert q == [q[0], q[1], q[2], q[3]];
    NoSymbolIsPad(q[0]);
    NoSymbolIsPad(q[1]);
    NoSymbolIsPad(q[2]);
    NoSymbolIsPad(q[3]);
  }

  lemma NoSymbolIsPad(c: char)
    ensures IsSymbol(c) ==> c != '='
  {
  }

  lemma {:induction false} PadInEncoding(x: Bytes)
    ensures |x| % 3 != 0 <==> '=' in Encode(x)
  {
    hide EncodeGroup, IsSymbol;
    if x != [] {
      var n := Min(3, |x|);
      PadInGroup(x[..n]);
      PadInEncoding(x[n..]);
    }
  }

  // ---- the prelude ----

  lemma AfterAppend(text: Text, marker: Text, more: Text)
    requires After(text, marker).Some?
    ensures After(text + more, marker) == Some(After(text, marker).value + more)
  {
    FirstIsStable(text, marker, more);
    var i := IndexOf(text, marker).value + |marker|;
    assert (text + more)[i..] == text[i..] + more;
  }

  lemma RegionGrows(text: Text, marker: Text, more: Text)
    requires After(text, marker).Some?
    ensures After(text + more, marker) == Some(After(text, marker).value + more)
    ensures IndexOf(text, marker).Some? && IndexOf(text + more, marker) == IndexOf(text, marker)
    ensures IndexOf(text, marker).value <= |text|
    ensures (text + more)[..IndexOf(text, marker).value] == text[..IndexOf(text, marker).value]
  {
    FirstIsStable(text, marker, more);
    AfterAppend(text, marker, more);
  }

  lemma BodyOfAppend(text: Text, more: Text, nonce: string)
    requires BodyOf(text, nonce).Some?
    ensures BodyOf(text + more, nonce) == Some(BodyOf(text, nonce).value + more)
  {
    hide After, ReadyMarker, StartMarker;
    AfterAppend(text, ReadyMarker(nonce), more);
    AfterAppend(After(text, ReadyMarker(nonce)).value, StartMarker(nonce), more);
  }

  /** The scanned-over part of a region: up to the marker, or up to the kept tail. */
  ghost predicate Passed(region: Text, marker: Text, n: nat) {
    n <= |region| &&
    match IndexOf(region, marker)
    case Some(i) => n == i
    case None => IsTail(region, marker, |region| - n)
  }

  lemma PassedIsNoise(region: Text, marker: Text, noise: Text, rest: Text, n: nat)
    requires |marker| > 0 && (forall p | 0 < p < |marker| :: marker[p] != marker[0])
    requires Absent(noise, marker) && region <= noise + marker + rest && Passed(region, marker, n)
    ensures region[..n] <= noise
    ensures ByteLength(region[..n]) <= ByteLength(noise)
  {
    AbsentBeforeMarkerEnds(noise, marker, rest, region);
    if IndexOf(region, marker).None? {
      TailCoversMarkerPart(noise, marker, rest, region, |region| - n);
    }
    ByteLengthPrefix(region[..n], noise);
  }

  lemma TooMuchPrelude(text: Text, nonce: string, limits: Limits, n: nat)
    requires ValidNonce(nonce) && Passed(text, ReadyMarker(nonce), n) && ByteLength(text[..n]) > limits.prelude
    ensures Hopeless(text, nonce, limits)
  {
    hide IndexOf, ReadyMarker, StartMarker, ByteLength;
    MarkersDoNotRecur(nonce);
    forall s: Session | Good(s, nonce, limits) ensures !(text <= Transcript(s, nonce)) {
      if text <= Transcript(s, nonce) {
        PassedIsNoise(text, ReadyMarker(nonce), s.noise1, s.noise2 + StartMarker(nonce) + s.body, n);
      }
    }
  }

  lemma TooMuchBeforeStart(text: Text, nonce: string, limits: Limits, rest: Text, n: nat)
    requires ValidNonce(nonce) && After(text, ReadyMarker(nonce)) == Some(rest) && Passed(rest, StartMarker(nonce), n)
    requires ByteLength(text[..IndexOf(text, ReadyMarker(nonce)).value]) + ByteLength(rest[..n]) > limits.prelude
    ensures Hopeless(text, nonce, limits)
  {
    hide IndexOf, ReadyMarker, StartMarker, ByteLength;
    MarkersDoNotRecur(nonce);
    forall s: Session | Good(s, nonce, limits) ensures !(text <= Transcript(s, nonce)) {
      if text <= Transcript(s, nonce) {
        SessionPieces(s, nonce, text);
        assert text[..|s.noise1|] == s.noise1;
        PassedIsNoise(rest, StartMarker(nonce), s.noise2, s.body, n);
      }
    }
  }

  lemma AtCut(s: Text, marker: Text, n: nat, j: nat)
    requires n <= |s|
    ensures At(s[..n], marker, j) <==> j + |marker| <= n && At(s, marker, j)
  {
    if j + |marker| <= n { assert s[..n][j..j + |marker|] == s[j..j + |marker|]; }
  }

  lemma FirstIsIndex(s: Text, marker: Text, i: nat)
    requires FirstAt(s, marker, i)
    ensures IndexOf(s, marker) == Some(i)
  {
    hide At;
    assert IndexOf(s, marker).Some?;
  }

  /** A cut behind the first marker keeps it where it was. */
  lemma FirstInCut(s: Text, marker: Text, n: nat)
    requires IndexOf(s, marker).Some? && IndexOf(s, marker).value + |marker| <= n <= |s|
    ensures IndexOf(s[..n], marker) == IndexOf(s, marker)
  {
    hide At, IndexOf;
    var i := IndexOf(s, marker).value;
    AtCut(s, marker, n, i);
    forall j: nat | j < i ensures !At(s[..n], marker, j) { AtCut(s, marker, n, j); }
    FirstIsIndex(s[..n], marker, i);
  }

  /** Cutting a text right behind its marker keeps the marker where it was. */
  lemma CutBehindMarker(text: Text, more: Text, marker: Text, rest: Text)
    requires |marker| > 0 && After(text + more, marker) == Some(rest) && |rest| <= |more|
    ensures After(text + more[..|more| - |rest|], marker) == Some([])
    ensures IndexOf(text + more[..|more| - |rest|], marker) == IndexOf(text + more, marker)
  {
    hide IndexOf;
    var whole, cut := text + more, text + more[..|more| - |rest|];
    var i := IndexOf(whole, marker).value;
    assert rest == whole[i + |marker|..];
    assert |cut| == i + |marker| && cut == whole[..|cut|];
    FirstInCut(whole, marker, |cut|);
    assert cut[i + |marker|..] == [];
  }
}
