/**
 The streaming exec parser.  Text arrives in any pieces; the object keeps only short carries, and
 its invariant says what those carries, counters and callbacks are in terms of the whole text fed
 so far.
 */
module ExecCodec {
  import opened Basics
  import opened Search
  import opened Base64
  import opened ExecWire
  import opened WireFrames

  const MAX_CHUNK: nat := 65536

  datatype State = Prelude | Ready | Output | Complete

  datatype Error = Framing | OutputLimit | Setup

  /** A callback made by the parser. */
  datatype Event = OnReady | OnStart | OnOutput(bytes: Bytes) | OnComplete(code: nat)

  function Outputs(parts: seq<Bytes>): seq<Event> {
    seq(|parts|, i requires 0 <= i < |parts| => OnOutput(parts[i]))
  }

  /** The carry is the end of the region that may still become the marker. */
  ghost predicate Scans<T>(region: seq<T>, marker: seq<T>, carry: seq<T>) {
    Absent(region, marker) && |carry| <= |region| && region[|region| - |carry|..] == carry && IsTail(region, marker, |carry|)
  }

  /** The carry may be a scanned tail or start at the marker; either way the next search may skip what is before it. */
  lemma CarryFindsFirst<T>(s: seq<T>, marker: seq<T>, carry: seq<T>, more: seq<T>)
    requires |marker| > 0 && |carry| <= |s| && carry == s[|s| - |carry|..]
    requires Scans(s, marker, carry) || IndexOf(s, marker) == Some(|s| - |carry|)
    ensures IndexOf(carry + more, marker).None? <==> IndexOf(s + more, marker).None?
    ensures IndexOf(carry + more, marker).Some? ==>
              IndexOf(s + more, marker) == Some(|s| - |carry| + IndexOf(carry + more, marker).value)
    ensures IndexOf(s + more, marker).None? ==> Scans(s, marker, carry)
    ensures (s + more)[|s| - |carry|..] == carry + more
  {
    if Scans(s, marker, carry) {
      TailFindsFirst(s, marker, |carry|, more);
    } else {
      FirstIsStable(s, marker, more);
      var i := |s| - |carry|;
      assert (carry + more)[0..|marker|] == s[i..i + |marker|];
      assert At(carry + more, marker, 0);
    }
  }

  /** Nothing found: the new tail is kept and everything before it is passed over. */
  lemma ScanOn(region: Text, marker: Text, carry: Text, text: Text, keep: nat)
    requires |marker| > 0 && Scans(region, marker, carry)
    requires IndexOf(carry + text, marker).None? && IsTail(carry + text, marker, keep)
    ensures var data, whole, base := carry + text, region + text, |region| - |carry|;
            && Scans(whole, marker, data[|data| - keep..]) && Passed(whole, marker, |whole| - keep)
            && After(whole, marker).None?
            && whole[..|whole| - keep] == region[..base] + data[..|data| - keep]
  {
    hide IndexOf;
    TailFindsFirst(region, marker, |carry|, text);
    TailOfTail(region, marker, |carry|, text, keep);
  }

  /** Found: the marker is where the whole region has it, and what follows it is new text. */
  lemma ScanHit(region: Text, marker: Text, carry: Text, text: Text, index: nat)
    requires |marker| > 0 && Scans(region, marker, carry) && IndexOf(carry + text, marker) == Some(index)
    ensures var data, whole, base := carry + text, region + text, |region| - |carry|;
            var rest := data[index + |marker|..];
            && Passed(whole, marker, base + index) && After(whole, marker) == Some(rest)
            && whole[..base + index] == region[..base] + data[..index]
            && |rest| < |text| && text == text[..|text| - |rest|] + rest
  {
    hide IndexOf;
    TailFindsFirst(region, marker, |carry|, text);
    var data, whole, base := carry + text, region + text, |region| - |carry|;
    assert whole[base..] == data;
    var rest := data[index + |marker|..];
    assert whole[base + index + |marker|..] == rest;
    assert text[|text| - |rest|..] == rest;
  }

  lemma UnpaddedGroups(groups: string, carry: string)
    requires |groups| % 4 == 0 && Shape(groups + carry) && IndexOf(groups, "=").None?
    ensures Encode(Decode(groups)) == groups && |Decode(groups)| % 3 == 0
  {
    hide Encode, Decode, IndexOf, IsSymbol;
    forall i | 0 <= i < |groups| ensures IsSymbol(groups[i]) {
      assert groups[i..i + 1] == [groups[i]] && !At(groups, "=", i);
      assert groups[i] == (groups + carry)[i];
    }
    UnpaddedIsCanonical(groups);
  }

  lemma PaddedGroups(groups: string, carry: string, i: nat)
    requires IndexOf(groups, "=") == Some(i)
    ensures i < |groups| && groups[i] == '='
    ensures Shape(groups + carry) && carry == "" ==> i + 2 >= |groups|
  {
    assert groups[i..i + 1][0] == '=';
    assert (groups + carry)[i] == '=';
  }

  // ---- pairs cut between slices ----

  function Cut(before: Text, text: Text): nat { if Joins(before, text) then 1 else 0 }

  /** The surrogate pairs that one write cuts: at its front, and where it is sliced. */
  function CutsOf(before: Text, text: Text): nat
    decreases |text|
  {
    if text == [] then 0
    else
      var n := Min(MAX_CHUNK, |text|);
      Cut(before, text[..n]) + CutsOf(before + text[..n], text[n..])
  }

  /** The pairs cut by a list of writes. */
  function CutsOfAll(chunks: seq<Text>): nat {
    if chunks == [] then 0
    else CutsOfAll(chunks[..|chunks| - 1]) + CutsOf(Flatten(chunks[..|chunks| - 1]), chunks[|chunks| - 1])
  }

  /** Second halves of pairs: no more pairs than these can be cut. */
  function Lows(text: Text): nat {
    if text == [] then 0 else (if Low(text[0]) then 1 else 0) + Lows(text[1..])
  }

  lemma {:induction false} LowsAppend(a: Text, b: Text)
    ensures Lows(a + b) == Lows(a) + Lows(b)
  {
    if a == [] {
      Neutral(b);
    } else {
      HeadTail(a, b);
      Split([a[0]], a[1..] + b);
      LowsAppend(a[1..], b);
    }
  }

  lemma {:induction false} CutsAtMostLows(before: Text, text: Text)
    ensures CutsOf(before, text) <= Lows(text)
    decreases |text|
  {
    if text != [] {
      var n := Min(MAX_CHUNK, |text|);
      CutsAtMostLows(before + text[..n], text[n..]);
      assert text == text[..n] + text[n..];
      LowsAppend(text[..n], text[n..]);
    }
  }

  /** A bound that does not depend on the writes. */
  lemma {:induction false} AllCutsAtMostLows(chunks: seq<Text>)
    ensures CutsOfAll(chunks) <= Lows(Flatten(chunks))
  {
    if chunks != [] {
      var n := |chunks| - 1;
      AllCutsAtMostLows(chunks[..n]);
      CutsAtMostLows(Flatten(chunks[..n]), chunks[n]);
      FlattenAppend(chunks[..n], [chunks[n]]);
      FlattenOne(chunks[n]);
      LowsAppend(Flatten(chunks[..n]), chunks[n]);
      assert chunks == chunks[..n] + [chunks[n]];
    }
  }

  /** One write of 65535 letters and one pair: the slice ends inside the pair, which then counts six bytes. */
  lemma SliceCutsPair()
    ensures var text := seq(65535, _ => 97) + [0xD83D, 0xDE00];
            ByteLength([0xD83D, 0xDE00]) == 4 && ByteLength([0xD83D]) + ByteLength([0xDE00]) == 6 && CutsOf([], text) == 1
  {
    var letters: Text := seq(65535, _ => 97);
    var text := letters + [0xD83D, 0xDE00];
    var head: Text := letters + [0xD83D];
    assert text[..MAX_CHUNK] == head && text[MAX_CHUNK..] == [0xDE00] && [] + head == head;
    ByteLengthParts([0xD83D], [0xDE00]);
    assert [0xD83D as Unit] + [0xDE00] == [0xD83D, 0xDE00];
    assert ByteLength([0xD83D]) == 3 && ByteLength([0xDE00]) == 3 by { assert [0xD83D as Unit][1..] == [] && [0xDE00 as Unit][1..] == []; }
    assert CutsOf(head, [0xDE00]) == 1 by {
      assert [0xDE00 as Unit][..1] == [0xDE00] && [0xDE00 as Unit][1..] == [];
    }
  }

  lemma CarryIsPlain(data: Text, marker: Text, keep: nat)
    requires Plain(marker) && IsTail(data, marker, keep)
    ensures Plain(data[|data| - keep..]) && (keep > 0 ==> IsPlain(data[|data| - keep]))
  {
    assert data[|data| - keep..] == marker[..keep];
    assert keep > 0 ==> data[|data| - keep] == data[|data| - keep..][0];
  }

  lemma MarkerIsPlain(data: Text, marker: Text, i: nat)
    requires Plain(marker) && |marker| > 0 && At(data, marker, i)
    ensures IsPlain(data[i])
  {
    assert data[i] == data[i..i + |marker|][0];
  }

  /** What is passed over begins where the region ends, or with a plain carry. */
  lemma JoinsWhereTextDoes(region: Text, carry: Text, text: Text, part: Text)
    requires |carry| <= |region| && region[|region| - |carry|..] == carry && Plain(carry)
    requires part <= carry + text && (|part| < |carry + text| ==> IsPlain((carry + text)[|part|]))
    ensures Joins(region[..|region| - |carry|], part) <==> Joins(region, text)
  {
    if carry == [] {
      assert region[..|region|] == region && carry + text == text;
    } else {
      assert region[|region| - 1] == carry[|carry| - 1];
      assert part != [] ==> part[0] == carry[0];
    }
  }

  /** Behind a plain marker nothing is cut. */
  lemma RegionJoins(text: Text, marker: Text, region: Text, more: Text)
    requires Plain(marker) && |marker| > 0 && After(text, marker) == Some(region)
    ensures Joins(text, more) <==> Joins(region, more)
  {
    var i := IndexOf(text, marker).value;
    assert text[i..i + |marker|][|marker| - 1] == text[i + |marker| - 1];
    assert region == text[i + |marker|..];
  }

  lemma LegalParts(body: Text, text: Text)
    requires LegalBody(body + text)
    ensures LegalBody(text)
  {
    forall i | 0 <= i < |text| ensures IsLegal(text[i]) { assert (body + text)[|body| + i] == text[i]; }
  }

  lemma LegalCutsNothing(before: Text, text: Text)
    requires LegalBody(text)
    ensures !Joins(before, text)
  {
    if text != [] { assert IsLegal(text[0]); }
  }

  class ExecParser {
    const nonce: string
    const limits: Limits

    var state: State
    var preludeCarry: Text
    var preludeBytes: nat
    var encodedBytes: nat
    var outputBytes: nat
    var base64Carry: string
    var padded: bool
    var decodedCarry: Bytes
    var completeCode: Option<nat>
    var failed: Option<Error>
    var events: seq<Event>

    ghost var fed: Text            // everything consumed so far
    ghost var ended: bool          // the stream was closed before completion
    ghost var decoded: Bytes       // the decoded body so far
    ghost var parts: seq<Bytes>    // the pieces handed to the output callback
    ghost var cuts: nat            // surrogate pairs cut between two slices

    constructor (nonce: string, limits: Limits)
      requires ValidNonce(nonce) && 0 <= limits.prelude
      ensures Valid() && failed.None? && !ended && state == Prelude && fed == [] && cuts == 0 && events == []
      ensures this.nonce == nonce && this.limits == limits
    {
      this.nonce, this.limits := nonce, limits;
      state, preludeCarry, preludeBytes, encodedBytes, outputBytes := Prelude, [], 0, 0, 0;
      base64Carry, padded, decodedCarry, completeCode, failed, events := "", false, [], None, None, [];
      fed, ended, decoded, parts, cuts := [], false, [], [], 0;
    }

    ghost predicate Fresh() reads this {
      && base64Carry == "" && !padded && decodedCarry == [] && completeCode.None?
      && outputBytes == 0 && encodedBytes == 0 && decoded == [] && parts == []
    }

    ghost predicate Emitting() reads this { events == [OnReady, OnStart] + Outputs(parts) }

    /** What the output side knows of the decoded bytes. */
    ghost predicate FramesExplained()
      requires ValidNonce(nonce)
      reads this
    {
      var end := EndPrefix(nonce);
      && outputBytes == |Flatten(parts)| <= limits.output
      && match IndexOf(decoded, end)
         case None => completeCode.None? && Scans(decoded, end, decodedCarry) && Flatten(parts) == decoded[..|decoded| - |decodedCarry|]
         case Some(m) =>
           && Flatten(parts) == decoded[..m]
           && var suffix := decoded[m + |end|..];
              match completeCode
              case None => decodedCarry == decoded[m..] && |suffix| <= 3 && AllDigits(suffix)
              case Some(code) => code <= 255 && suffix == Digits(code) + [31] && decodedCarry == []
    }

    /** What the base64 side knows of the encoded body. */
    ghost predicate BodyExplained(body: Text)
      requires ValidNonce(nonce)
      reads this
    {
      && LegalBody(body)
      && Strip(body) == Encode(decoded) + base64Carry && |base64Carry| < 4
      && (padded <==> |decoded| % 3 != 0)
      && (padded ==> base64Carry == "")
      && encodedBytes <= |body|
      && FramesExplained()
    }

    ghost predicate InPrelude()
      requires ValidNonce(nonce)
      reads this
    {
      && state == Prelude && Fresh() && events == [] && Scans(fed, ReadyMarker(nonce), preludeCarry)
      && preludeBytes == ByteLength(fed[..|fed| - |preludeCarry|]) + 2 * cuts <= limits.prelude
    }

    ghost predicate InReady()
      requires ValidNonce(nonce)
      reads this
    {
      && state == Ready && Fresh() && events == [OnReady]
      && match After(fed, ReadyMarker(nonce))
         case None => false
         case Some(rest) =>
           && Scans(rest, StartMarker(nonce), preludeCarry)
           && preludeBytes == ByteLength(fed[..IndexOf(fed, ReadyMarker(nonce)).value]) + ByteLength(rest[..|rest| - |preludeCarry|]) + 2 * cuts
              <= limits.prelude
    }

    /** What was discarded before the body: each pair that was cut counts six bytes instead of four. */
    ghost predicate PreludeSpent()
      reads this`fed, this`cuts
    {
      && BodyOf(fed, nonce).Some?
      && var rest := After(fed, ReadyMarker(nonce)).value;
         ByteLength(fed[..IndexOf(fed, ReadyMarker(nonce)).value]) + ByteLength(rest[..IndexOf(rest, StartMarker(nonce)).value]) + 2 * cuts
         <= limits.prelude
    }

    ghost predicate InBody()
      requires ValidNonce(nonce)
      reads this
    {
      && PreludeSpent() && BodyExplained(BodyOf(fed, nonce).value)
      && match state
         case Output => Emitting()
         case Complete =>
           && completeCode.Some? && base64Carry == ""
           && events == [OnReady, OnStart] + Outputs(parts) + [OnComplete(completeCode.value)]
         case _ => false
    }

    ghost predicate Explained()
      requires ValidNonce(nonce)
      reads this
    {
      match state
      case Prelude => InPrelude()
      case Ready => InReady()
      case _ => InBody()
    }

    /** The limits less what the cut pairs have cost. */
    ghost function Allowed(): Limits reads this`cuts { limits.(prelude := limits.prelude - 2 * cuts) }

    /** A parser that has not failed explains its text; one that has failed was given a hopeless one. */
    ghost predicate Valid() reads this {
      && ValidNonce(nonce)
      && (failed.None? ==> Explained())
      && (failed.Some? && !ended ==> Hopeless(fed, nonce, Allowed()))
    }

    /** Hands decoded bytes on, unless they exceed the limit. */
    method Emit(bytes: Bytes)
      requires failed.None? && outputBytes == |Flatten(parts)| <= limits.output && events == [OnReady, OnStart] + Outputs(parts)
      modifies this`outputBytes, this`failed, this`events, this`parts
      ensures failed.Some? <==> |bytes| > 0 && old(outputBytes) + |bytes| > limits.output
      ensures failed.Some? ==> failed == Some(OutputLimit)
      ensures failed.None? ==> Flatten(parts) == old(Flatten(parts)) + bytes
      ensures failed.None? ==> outputBytes == |Flatten(parts)| <= limits.output && events == [OnReady, OnStart] + Outputs(parts)
    {
      if |bytes| == 0 { return; }
      if outputBytes + |bytes| > limits.output { failed := Some(OutputLimit); return; }
      FlattenAppend(parts, [bytes]);
      FlattenOne(bytes);
      outputBytes := outputBytes + |bytes|;
      events := events + [OnOutput(bytes)];
      parts := parts + [bytes];
    }

    /** Decoded bytes whose first `base` have been handed on, with nothing yet decided about the rest. */
    ghost predicate Pending(data: Bytes, base: nat)
      requires ValidNonce(nonce)
      reads this
    {
      && failed.None? && completeCode.None? && Emitting()
      && outputBytes == |Flatten(parts)| <= limits.output
      && base <= |decoded| && Flatten(parts) == decoded[..base] && decoded[base..] == data
    }

    method FoundEnd(data: Bytes, m: nat, ghost base: nat)
      requires ValidNonce(nonce) && Pending(data, base)
      requires m + |EndPrefix(nonce)| <= |data| && IndexOf(decoded, EndPrefix(nonce)) == Some(base + m)
      modifies this`decodedCarry, this`completeCode, this`outputBytes, this`failed, this`events, this`parts
      ensures failed.None? ==> FramesExplained() && Emitting()
      ensures failed.Some? ==> HopelessBytes(decoded, nonce, limits)
    {
      hide IndexOf, EndPrefix, Digits, ReadSuffix, HopelessBytes, FramesExplained;
      assert decoded[..base + m] == decoded[..base] + data[..m];
      assert decoded[base + m..] == data[m..];
      Emit(data[..m]);
      if failed.Some? { TooMuchOutput(decoded, nonce, limits, base + m); return; }
      ReadEnd(data[m..], base + m);
    }

    /** The exit code behind the END prefix that `rest` begins with; everything before it has been handed on. */
    method ReadEnd(rest: Bytes, ghost at: nat)
      requires ValidNonce(nonce) && Pending(rest, at)
      requires |EndPrefix(nonce)| <= |rest| && IndexOf(decoded, EndPrefix(nonce)) == Some(at)
      modifies this`decodedCarry, this`completeCode, this`failed
      ensures failed.None? ==> FramesExplained() && Emitting()
      ensures failed.Some? ==> HopelessBytes(decoded, nonce, limits)
    {
      hide IndexOf, EndPrefix, Digits, ReadSuffix, Outputs, HopelessBytes;
      var end := EndPrefix(nonce);
      var suffix := rest[|end|..];
      assert suffix == decoded[at + |end|..];
      ReadSuffixExact(suffix);
      match ReadSuffix(suffix) {
        case Bad =>
          failed := Some(Framing);
          BadSuffix(decoded, nonce, limits, at);
        case More =>
          decodedCarry := rest;
        case Code(code) =>
          completeCode, decodedCarry := Some(code), [];
      }
    }

    method NoEndYet(data: Bytes, ghost base: nat)
      requires ValidNonce(nonce) && Pending(data, base)
      requires Absent(decoded, EndPrefix(nonce)) && IndexOf(decoded, EndPrefix(nonce)).None?
      requires forall n: nat | IsTail(data, EndPrefix(nonce), n) :: IsTail(decoded, EndPrefix(nonce), n)
      modifies this`decodedCarry, this`outputBytes, this`failed, this`events, this`parts
      ensures failed.None? ==> FramesExplained() && Emitting()
      ensures failed.Some? ==> HopelessBytes(decoded, nonce, limits)
    {
      hide IndexOf, EndPrefix;
      var keep := LongestTail(data, EndPrefix(nonce));
      assert IsTail(decoded, EndPrefix(nonce), keep);
      var cut := |data| - keep;
      assert decoded[..|decoded| - keep] == decoded[..base] + data[..cut];
      Emit(data[..cut]);
      if failed.Some? { TooMuchOutput(decoded, nonce, limits, |decoded| - keep); return; }
      decodedCarry := data[cut..];
      assert decoded[|decoded| - keep..] == data[cut..];
    }

    /** Looks for the END frame in the decoded bytes and hands on what lies before it. */
    method DecodeOutput(bytes: Bytes)
      requires ValidNonce(nonce) && failed.None? && completeCode.None? && FramesExplained() && Emitting()
      modifies this`decodedCarry, this`completeCode, this`outputBytes, this`failed, this`events, this`decoded, this`parts
      ensures decoded == old(decoded) + bytes
      ensures failed.None? ==> FramesExplained() && Emitting()
      ensures failed.Some? ==> HopelessBytes(decoded, nonce, limits)
    {
      hide IndexOf, EndPrefix, Digits;
      var end := EndPrefix(nonce);
      var data := decodedCarry + bytes;
      ghost var before, carry, base := decoded, decodedCarry, |decoded| - |decodedCarry|;
      CarryFindsFirst(before, end, carry, bytes);
      assert (before + bytes)[..base] == before[..base];
      decoded := decoded + bytes;
      var marker := IndexOf(data, end);
      if marker.Some? {
        FoundEnd(data, marker.value, base);
        return;
      }
      forall n: nat | IsTail(data, end, n) ensures IsTail(decoded, end, n) {
        TailOfTail(before, end, |carry|, bytes, n);
      }
      NoEndYet(data, base);
    }

    /** Adds legal text to the body and decodes the groups it completes. */
    method ConsumeBase64(text: Text, ghost body: Text)
      requires ValidNonce(nonce) && failed.None? && BodyExplained(body) && Emitting()
      modifies this`encodedBytes, this`base64Carry, this`padded, this`decodedCarry, this`completeCode
      modifies this`outputBytes, this`failed, this`events, this`decoded, this`parts
      ensures failed.None? ==> BodyExplained(body + text) && Emitting()
      ensures failed.Some? ==> HopelessBody(body + text, nonce, limits)
    {
      hide Encode, Decode, Strip, IndexOf, EndPrefix, EndFrame, Digits, IsLegal;
      encodedBytes := encodedBytes + |text|;
      if encodedBytes > limits.encoded { failed := Some(OutputLimit); return; }
      if !LegalBody(text) {
        failed := Some(Framing);
        forall s: Session | Good(s, nonce, limits) ensures !(body + text <= s.body) {
          var i :| 0 <= i < |text| && !IsLegal(text[i]);
          assert (body + text)[|body| + i] == text[i];
        }
        return;
      }
      assert LegalBody(body + text);
      var compact := Strip(text);
      StripAppend(body, text);
      var data := base64Carry + compact;
      assert Strip(body + text) == Encode(decoded) + data;
      if compact == "" {
        assert data == base64Carry;
        return;
      }
      if padded || completeCode.Some? {
        failed := Some(Framing);
        NothingFollows(body + text, decoded, data, nonce, limits);
        return;
      }
      if !Shape(data) {
        failed := Some(Framing);
        BadShape(body + text, decoded, data, nonce, limits);
        return;
      }
      var length := |data| - |data| % 4;
      base64Carry := data[length..];
      var groups := data[..length];
      assert data == groups + base64Carry;
      if length == 0 { return; }
      Decodable(body + text, groups);
    }

    method Decodable(ghost body: Text, groups: string)
      requires ValidNonce(nonce) && failed.None? && FramesExplained() && Emitting() && completeCode.None?
      requires LegalBody(body) && |decoded| % 3 == 0 && !padded && encodedBytes <= |body|
      requires |groups| % 4 == 0 && |base64Carry| < 4
      requires Strip(body) == Encode(decoded) + (groups + base64Carry) && Shape(groups + base64Carry)
      modifies this`padded, this`decodedCarry, this`completeCode
      modifies this`outputBytes, this`failed, this`events, this`decoded, this`parts
      ensures failed.None? ==> BodyExplained(body) && Emitting()
      ensures failed.Some? ==> HopelessBody(body, nonce, limits)
    {
      hide Encode, Decode, Strip, IndexOf, EndPrefix, EndFrame, Digits;
      ghost var before, carry := decoded, base64Carry;
      assert Strip(body) == Encode(before) + groups + carry;
      var padding := IndexOf(groups, "=");
      if padding.Some? {
        PaddedGroups(groups, carry, padding.value);
        if base64Carry != "" || padding.value + 2 < |groups| {
          failed := Some(Framing);
          BadPadding(body, before, groups, carry, nonce, limits);
          return;
        }
        padded := true;
        if Encode(Decode(groups)) != groups {
          failed := Some(Framing);
          BadPadding(body, before, groups, carry, nonce, limits);
          return;
        }
      } else {
        UnpaddedGroups(groups, carry);
      }
      GroupsAppend(before, groups);
      PadShows(groups);
      DecodeOutput(Decode(groups));
      if failed.Some? { BytesToBody(body, decoded, carry, nonce, limits); }
    }

    /** Scans one region of the prelude for its marker; `n` is how much of the region has been passed over. */
    method Scan(text: Text, marker: Text, ghost region: Text, ghost spent: nat) returns (rest: Option<Text>, ghost n: nat)
      requires failed.None? && |marker| > 0 && Plain(marker) && Scans(region, marker, preludeCarry)
      requires preludeBytes == spent + ByteLength(region[..|region| - |preludeCarry|]) + 2 * cuts
      modifies this`preludeCarry, this`preludeBytes, this`failed, this`cuts
      ensures Passed(region + text, marker, n) && preludeBytes == spent + ByteLength((region + text)[..n]) + 2 * cuts
      ensures cuts == old(cuts) + if Joins(region, text) then 1 else 0
      ensures failed.Some? <==> preludeBytes > limits.prelude
      ensures failed.Some? ==> failed == Some(OutputLimit)
      ensures failed.None? ==> rest == After(region + text, marker)
      ensures failed.None? && rest.Some? ==> IndexOf(region + text, marker) == Some(n)
      ensures failed.None? && rest.None? ==> Scans(region + text, marker, preludeCarry) && n == |region| + |text| - |preludeCarry|
      ensures failed.None? && rest.Some? ==> |rest.value| < |text| && text == text[..|text| - |rest.value|] + rest.value && preludeCarry == []
    {
      hide IndexOf, ByteLength, IsTail, Joins, Plain;
      var data := preludeCarry + text;
      ghost var carry, base := preludeCarry, |region| - |preludeCarry|;
      rest := None;
      var index := IndexOf(data, marker);
      if index.None? {
        var keep := LongestTail(data, marker);
        ScanOn(region, marker, carry, text, keep);
        n := |region| + |text| - keep;
        CarryIsPlain(data, marker, keep);
        Discard(data[..|data| - keep], region, marker, carry, text);
        if preludeBytes > limits.prelude { failed := Some(OutputLimit); return; }
        preludeCarry := data[|data| - keep..];
        return;
      }
      ScanHit(region, marker, carry, text, index.value);
      n := base + index.value;
      MarkerIsPlain(data, marker, index.value);
      Discard(data[..index.value], region, marker, carry, text);
      if preludeBytes > limits.prelude { failed := Some(OutputLimit); return; }
      preludeCarry := [];
      rest := Some(data[index.value + |marker|..]);
    }

    /** Counts a part that is passed over; a pair whose first half was passed over before costs two bytes more. */
    method Discard(part: Text, ghost region: Text, ghost marker: Text, ghost carry: Text, ghost text: Text)
      requires Plain(marker) && Scans(region, marker, carry)
      requires part <= carry + text && (|part| < |carry + text| ==> IsPlain((carry + text)[|part|]))
      modifies this`preludeBytes, this`cuts
      ensures cuts == old(cuts) + if Joins(region, text) then 1 else 0
      ensures preludeBytes - 2 * cuts - ByteLength(region[..|region| - |carry|] + part) ==
              old(preludeBytes - 2 * cuts) - ByteLength(region[..|region| - |carry|])
    {
      hide ByteLength;
      ghost var before := region[..|region| - |carry|];
      ByteLengthParts(before, part);
      CarryIsPlain(region, marker, |carry|);
      JoinsWhereTextDoes(region, carry, text, part);
      preludeBytes := preludeBytes + ByteLength(part);
      cuts := cuts + if Joins(region, text) then 1 else 0;
    }

    /** The READY marker has been seen. */
    method EnterReady(text: Text, rest: Text, ghost n: nat)
      requires ValidNonce(nonce) && failed.None? && state == Prelude && Fresh() && events == []
      requires After(fed + text, ReadyMarker(nonce)) == Some(rest) && |rest| < |text|
      requires IndexOf(fed + text, ReadyMarker(nonce)) == Some(n)
      requires preludeCarry == [] && preludeBytes == ByteLength((fed + text)[..n]) + 2 * cuts <= limits.prelude
      modifies this`state, this`events, this`fed
      ensures state == Ready && InReady() && fed == old(fed) + text[..|text| - |rest|] && !Joins(fed, rest)
    {
      hide IndexOf, ReadyMarker, StartMarker, Plain;
      MarkersArePlain(nonce);
      CutBehindMarker(fed, text, ReadyMarker(nonce), rest);
      assert (fed + text)[..n] == (fed + text[..|text| - |rest|])[..n];
      fed := fed + text[..|text| - |rest|];
      RegionJoins(fed, ReadyMarker(nonce), [], rest);
      state := Ready;
      events := events + [OnReady];
    }

    /** The START marker has been seen: the body begins. */
    method EnterOutput(text: Text, rest: Text, ghost region: Text, ghost n: nat)
      requires ValidNonce(nonce) && failed.None? && state == Ready && Fresh() && events == [OnReady]
      requires After(fed, ReadyMarker(nonce)) == Some(region)
      requires After(region + text, StartMarker(nonce)) == Some(rest) && |rest| < |text|
      requires IndexOf(region + text, StartMarker(nonce)) == Some(n)
      requires ByteLength(fed[..IndexOf(fed, ReadyMarker(nonce)).value]) + ByteLength((region + text)[..n]) + 2 * cuts <= limits.prelude
      modifies this`state, this`events, this`fed
      ensures InBody() && state == Output && fed == old(fed) + text[..|text| - |rest|] && !Joins(fed, rest)
    {
      hide IndexOf, ReadyMarker, StartMarker, ByteLength, Plain, Absent;
      MarkersArePlain(nonce);
      ghost var part := text[..|text| - |rest|];
      CutBehindMarker(region, text, StartMarker(nonce), rest);
      RegionGrows(fed, ReadyMarker(nonce), part);
      assert (region + text)[..n] == (region + part)[..n];
      fed := fed + part;
      assert BodyOf(fed, nonce) == Some([]);
      RegionJoins(fed, ReadyMarker(nonce), region + part, rest);
      RegionJoins(region + part, StartMarker(nonce), [], rest);
      state := Output;
      events := events + [OnStart];
      AbsentInNothing();
    }

    lemma AbsentInNothing()
      requires ValidNonce(nonce)
      ensures IndexOf([], EndPrefix(nonce)).None? && Scans([], EndPrefix(nonce), []) && Flatten<Byte>([]) == []
    {
    }

    method ConsumeTrailer(text: Text)
      requires ValidNonce(nonce) && failed.None? && state == Complete && InBody()
      modifies this`failed, this`fed
      ensures fed == old(fed) + text
      ensures failed.None? ==> state == old(state) && InBody() && LegalBody(text)
      ensures failed.Some? ==> Hopeless(fed, nonce, Allowed())
    {
      hide IndexOf, ReadyMarker, StartMarker, ByteLength, Encode, Strip, BodyOf;
      ghost var body := BodyOf(fed, nonce).value;
      BodyOfAppend(fed, text, nonce);
      SpentStays(fed, text);
      StripAppend(body, text);
      StripShorter(text);
      fed := fed + text;
      if exists i | 0 <= i < |text| :: !IsBreak(text[i]) {
        failed := Some(Framing);
        NothingFollows(body + text, decoded, Strip(text), nonce, Allowed());
        BodyToText(fed, body + text, nonce, Allowed());
      }
    }

    method ConsumeBody(text: Text)
      requires ValidNonce(nonce) && failed.None? && state == Output && InBody()
      modifies this`encodedBytes, this`base64Carry, this`padded, this`decodedCarry, this`completeCode
      modifies this`outputBytes, this`failed, this`events, this`decoded, this`parts, this`fed
      ensures fed == old(fed) + text
      ensures failed.None? ==> state == old(state) && InBody() && LegalBody(text)
      ensures failed.Some? ==> Hopeless(fed, nonce, Allowed())
    {
      hide IndexOf, ReadyMarker, StartMarker, ByteLength, Encode, Strip, BodyOf;
      ghost var body := BodyOf(fed, nonce).value;
      BodyOfAppend(fed, text, nonce);
      SpentStays(fed, text);
      ConsumeBase64(text, body);
      fed := fed + text;
      if failed.Some? { OnlyTheBody(body + text); BodyToText(fed, body + text, nonce, Allowed()); }
      else { LegalParts(body, text); }
    }

    /** More text changes nothing before the body. */
    lemma SpentStays(text: Text, more: Text)
      requires BodyOf(text, nonce).Some?
      ensures BodyOf(text + more, nonce).Some?
      ensures var a, b := After(text, ReadyMarker(nonce)).value, After(text + more, ReadyMarker(nonce)).value;
              && (text + more)[..IndexOf(text + more, ReadyMarker(nonce)).value] == text[..IndexOf(text, ReadyMarker(nonce)).value]
              && b[..IndexOf(b, StartMarker(nonce)).value] == a[..IndexOf(a, StartMarker(nonce)).value]
    {
      hide IndexOf, ReadyMarker, StartMarker;
      RegionGrows(text, ReadyMarker(nonce), more);
      RegionGrows(After(text, ReadyMarker(nonce)).value, StartMarker(nonce), more);
    }

    /** The body's limits are not those of the prelude. */
    lemma OnlyTheBody(body: Text)
      requires ValidNonce(nonce) && HopelessBody(body, nonce, limits)
      ensures HopelessBody(body, nonce, Allowed())
    {
      hide WellFormed;
      forall s: Session | Good(s, nonce, Allowed()) ensures !(body <= s.body) {
        assert Good(s, nonce, limits);
      }
    }

    method ScanForReady(text: Text) returns (rest: Option<Text>)
      requires ValidNonce(nonce) && failed.None? && InPrelude()
      modifies this`preludeCarry, this`preludeBytes, this`failed, this`state, this`events, this`fed, this`cuts
      ensures cuts == old(cuts) + if Joins(old(fed), text) then 1 else 0
      ensures failed.Some? ==> fed == old(fed) + text && Hopeless(fed, nonce, Allowed())
      ensures failed.None? && rest.None? ==> state == Prelude && InPrelude() && fed == old(fed) + text
      ensures failed.None? && rest.Some? ==> state == Ready && InReady() && |rest.value| < |text| && fed + rest.value == old(fed) + text
      ensures failed.None? && rest.Some? ==> !Joins(fed, rest.value)
    {
      hide IndexOf, After, ReadyMarker, StartMarker, ByteLength, IsTail, Joins, Plain, Hopeless, Absent;
      MarkersArePlain(nonce);
      ghost var n: nat;
      rest, n := Scan(text, ReadyMarker(nonce), fed, 0);
      if failed.Some? {
        fed := fed + text;
        TooMuchPrelude(fed, nonce, Allowed(), n);
      } else if rest.None? {
        fed := fed + text;
      } else {
        EnterReady(text, rest.value, n);
      }
    }

    method ScanForStart(text: Text) returns (rest: Option<Text>)
      requires ValidNonce(nonce) && failed.None? && InReady()
      modifies this`preludeCarry, this`preludeBytes, this`failed, this`state, this`events, this`fed, this`cuts
      ensures cuts == old(cuts) + if Joins(old(fed), text) then 1 else 0
      ensures failed.Some? ==> fed == old(fed) + text && Hopeless(fed, nonce, Allowed())
      ensures failed.None? && rest.None? ==> state == Ready && InReady() && fed == old(fed) + text
      ensures failed.None? && rest.Some? ==> state == Output && InBody() && |rest.value| < |text| && fed + rest.value == old(fed) + text
      ensures failed.None? && rest.Some? ==> !Joins(fed, rest.value)
    {
      hide IndexOf, After, ReadyMarker, StartMarker, ByteLength, IsTail, Joins, Plain, Hopeless, Absent;
      MarkersArePlain(nonce);
      ghost var region := After(fed, ReadyMarker(nonce)).value;
      RegionJoins(fed, ReadyMarker(nonce), region, text);
      RegionGrows(fed, ReadyMarker(nonce), text);
      ghost var i := IndexOf(fed, ReadyMarker(nonce)).value;
      ghost var n: nat;
      rest, n := Scan(text, StartMarker(nonce), region, ByteLength(fed[..i]));
      if failed.Some? {
        fed := fed + text;
        TooMuchBeforeStart(fed, nonce, Allowed(), region + text, n);
      } else if rest.None? {
        fed := fed + text;
      } else {
        EnterOutput(text, rest.value, region, n);
      }
    }

    /** Consumes one piece of text in whatever state the parser is. */
    method Consume(text: Text)
      requires ValidNonce(nonce) && failed.None? && Explained()
      modifies this
      ensures fed == old(fed) + text && ended == old(ended)
      ensures failed.None? ==> Explained() && cuts == old(cuts) + Cut(old(fed), text)
      ensures failed.Some? ==> Hopeless(fed, nonce, Allowed()) && cuts <= old(cuts) + Cut(old(fed), text)
      decreases |text|
    {
      hide InPrelude, InReady, InBody, Joins;
      match state {
        case Complete =>
          ConsumeTrailer(text);
          if failed.None? { LegalCutsNothing(old(fed), text); }
        case Output =>
          ConsumeBody(text);
          if failed.None? { LegalCutsNothing(old(fed), text); }
        case Prelude =>
          var rest := ScanForReady(text);
          if failed.None? && rest.Some? { Consume(rest.value); }
        case Ready =>
          var rest := ScanForStart(text);
          if failed.None? && rest.Some? { Consume(rest.value); }
      }
    }

    lemma Slices(before: Text, text: Text, offset: nat, end: nat)
      requires offset <= end <= |text|
      ensures before + text[..offset] + text[offset..end] == before + text[..end] <= before + text
      ensures text[..|text|] == text
    {
      assert text[..end] == text[..offset] + text[offset..end];
    }

    lemma SliceCuts(before: Text, text: Text, offset: nat, end: nat)
      requires offset < end == Min(offset + MAX_CHUNK, |text|)
      ensures CutsOf(before, text[offset..]) == Cut(before, text[offset..end]) + CutsOf(before + text[offset..end], text[end..])
    {
      var rest := text[offset..];
      assert rest[..end - offset] == text[offset..end] && rest[end - offset..] == text[end..];
    }

    /** One write: the text is cut into chunks, and a frame that is complete at the end completes the session. */
    method Write(text: Text)
      requires Valid() && (state == Output && failed.None? ==> completeCode.None?)
      modifies this
      ensures Valid() && (state == Output && failed.None? ==> completeCode.None?) && ended == old(ended)
      ensures old(failed).Some? ==> failed == old(failed) && events == old(events) && fed == old(fed) && cuts == old(cuts)
      ensures failed.None? ==> fed == old(fed) + text && cuts == old(cuts) + CutsOf(old(fed), text)
      ensures failed.Some? && old(failed).None? ==> fed <= old(fed) + text && cuts <= old(cuts) + CutsOf(old(fed), text)
    {
      if failed.Some? { return; }
      hide Explained, Hopeless, ValidNonce, CutsOf, Cut, Allowed;
      var offset := 0;
      assert text[0..] == text && old(fed) + text[..0] == old(fed);
      while offset < |text|
        invariant offset <= |text| && failed.None? && ended == old(ended)
        invariant ValidNonce(nonce) && Explained() && fed == old(fed) + text[..offset]
        invariant cuts + CutsOf(fed, text[offset..]) == old(cuts) + CutsOf(old(fed), text)
      {
        var end := Min(offset + MAX_CHUNK, |text|);
        Slices(old(fed), text, offset, end);
        SliceCuts(fed, text, offset, end);
        Consume(text[offset..end]);
        if failed.Some? { return; }
        offset := end;
      }
      NothingCut(fed, text);
      Finish();
    }

    lemma NothingCut(before: Text, text: Text)
      ensures text[|text|..] == [] && CutsOf(before, []) == 0 && text[..|text|] == text
    {
    }

    method Finish()
      requires Valid() && failed.None?
      modifies this`state, this`failed, this`events
      ensures Valid() && (state == Output && failed.None? ==> completeCode.None?)
    {
      hide Strip, Encode, Decode, IndexOf, EndPrefix, Digits, BodyOf;
      if completeCode.Some? && state != Complete {
        if base64Carry != "" {
          failed := Some(Framing);
          ghost var body := BodyOf(fed, nonce).value;
          NothingFollows(body, decoded, base64Carry, nonce, Allowed());
          BodyToText(fed, body, nonce, Allowed());
          return;
        }
        state := Complete;
        events := events + [OnComplete(completeCode.value)];
      }
    }

    /** The far end closed its output. */
    method End()
      requires Valid()
      modifies this`failed, this`ended
      ensures Valid()
      ensures old(failed).Some? ==> failed == old(failed)
      ensures old(failed).None? ==> (failed.None? <==> state == Complete) && (failed == Some(Setup) <==> state == Prelude)
    {
      if failed.Some? || state == Complete { return; }
      ended := true;
      failed := Some(if state == Prelude then Setup else Framing);
    }

    /** A text is complete exactly when it is a transcript: the payload and code the callbacks got spell it. */
    lemma CompleteMeansTranscript() returns (s: Session)
      requires Valid() && failed.None? && state == Complete
      ensures WellFormed(s, nonce) && fed == Transcript(s, nonce)
      ensures s.payload == Flatten(parts) && |s.payload| <= limits.output
      ensures ByteLength(s.noise1) + ByteLength(s.noise2) + 2 * cuts <= limits.prelude
      ensures events == [OnReady, OnStart] + Outputs(parts) + [OnComplete(s.code)]
    {
      var body := BodyOf(fed, nonce).value;
      var m := IndexOf(decoded, EndPrefix(nonce)).value;
      hide ReadyMarker, StartMarker, Encode, Strip, Digits, IndexOf, EndPrefix, LegalBody, Flatten, ByteLength;
      var noise1, noise2 := TextPieces(fed, nonce);
      s := Session(noise1, noise2, body, decoded[..m], completeCode.value);
      BeforeFirstIsAbsent(decoded, EndPrefix(nonce), m);
      FrameIsEnd(decoded, m, nonce, s.code);
    }

    /** Over a whole text the prelude is what decides. */
    lemma CompletesWithin(s: Session, text: Text, total: nat)
      requires Valid() && !ended && (state == Output && failed.None? ==> completeCode.None?)
      requires WellFormed(s, nonce) && BodyFits(s, limits) && text == Transcript(s, nonce)
      requires if failed.None? then fed == text && cuts == total else fed <= text && cuts <= total
      ensures failed.None? && state == Complete <==> PreludeCost(s, total) <= limits.prelude
    {
      hide ByteLength, WellFormed, Explained;
      if PreludeCost(s, total) <= limits.prelude {
        assert Good(s, nonce, Allowed());
        assert failed.None?;
        TranscriptCompletes(s);
      } else if failed.None? && state == Complete {
        var t := CompleteMeansTranscript();
        SameSession(s, t, nonce);
      }
    }

    /** The round trip: a good transcript, however it was cut, is complete with its own payload and code. */
    lemma TranscriptCompletes(s: Session)
      requires Valid() && !ended && (state == Output && failed.None? ==> completeCode.None?)
      requires Good(s, nonce, Allowed()) && fed == Transcript(s, nonce)
      ensures failed.None? && state == Complete
      ensures Flatten(parts) == s.payload && events == [OnReady, OnStart] + Outputs(parts) + [OnComplete(s.code)]
    {
      hide ReadyMarker, StartMarker, Encode, Strip, Digits, IndexOf;
      var text := Transcript(s, nonce);
      assert failed.None?;
      SessionPieces(s, nonce, text);
      var whole := s.payload + EndFrame(nonce, s.code);
      assert BodyOf(text, nonce).value == s.body;
      WholeDecoding(decoded, base64Carry, whole);
      MarkersDoNotRecur(nonce);
      assert whole == s.payload + EndPrefix(nonce) + (Digits(s.code) + [31]);
      FirstAfterNoise(s.payload, EndPrefix(nonce), Digits(s.code) + [31]);
      var suffix := whole[|s.payload| + |EndPrefix(nonce)|..];
      assert suffix == Digits(s.code) + [31] && suffix[|suffix| - 1] == 31;
      assert whole[..|s.payload|] == s.payload;
      if completeCode.Some? {
        var c := completeCode.value;
        assert Digits(c) == (Digits(c) + [31])[..|suffix| - 1] == (Digits(s.code) + [31])[..|suffix| - 1] == Digits(s.code);
        ParseCodeExact(Digits(c), c);
        ParseCodeExact(Digits(c), s.code);
      }
    }
  }

  /** A transcript has one reading. */
  lemma SameSession(s: Session, t: Session, nonce: string)
    requires ValidNonce(nonce) && WellFormed(s, nonce) && WellFormed(t, nonce) && Transcript(s, nonce) == Transcript(t, nonce)
    ensures s == t
  {
    hide ReadyMarker, StartMarker, Encode, Strip, Digits, IndexOf, EndFrame;
    var text := Transcript(s, nonce);
    SessionPieces(s, nonce, text);
    SessionPieces(t, nonce, text);
    assert text[..|s.noise1|] == s.noise1 && text[..|t.noise1|] == t.noise1;
    var rest := After(text, ReadyMarker(nonce)).value;
    assert rest[..|s.noise2|] == s.noise2 && rest[..|t.noise2|] == t.noise2;
    var a, b := s.payload + EndFrame(nonce, s.code), t.payload + EndFrame(nonce, t.code);
    EncodedPrefixInverse(a, b);
    EncodedPrefixInverse(b, a);
    SameFrame(s.payload, s.code, t.payload, t.code, nonce);
  }

  lemma SameFrame(payload: Bytes, code: nat, other: Bytes, code2: nat, nonce: string)
    requires ValidNonce(nonce) && code <= 255 && code2 <= 255 && Absent(payload, EndPrefix(nonce)) && Absent(other, EndPrefix(nonce))
    requires payload + EndFrame(nonce, code) == other + EndFrame(nonce, code2)
    ensures payload == other && code == code2
  {
    hide EndPrefix, Digits;
    var data := payload + EndFrame(nonce, code);
    FramePieces(data, payload, code, nonce);
    FramePieces(data, other, code2, nonce);
    var c := Digits(code) + [31];
    assert data[|payload| + |EndPrefix(nonce)|..] == c && data[|other| + |EndPrefix(nonce)|..] == Digits(code2) + [31];
    assert Digits(code) == c[..|c| - 1] == Digits(code2);
    ParseCodeExact(Digits(code), code);
    ParseCodeExact(Digits(code), code2);
  }

  /** The text before the body, cut at its markers. */
  lemma TextPieces(text: Text, nonce: string) returns (noise1: Text, noise2: Text)
    requires ValidNonce(nonce) && BodyOf(text, nonce).Some?
    ensures Absent(noise1, ReadyMarker(nonce)) && Absent(noise2, StartMarker(nonce))
    ensures text == Transcript(Session(noise1, noise2, BodyOf(text, nonce).value, [], 0), nonce)
    ensures var rest := After(text, ReadyMarker(nonce)).value;
            noise1 == text[..IndexOf(text, ReadyMarker(nonce)).value] && noise2 == rest[..IndexOf(rest, StartMarker(nonce)).value]
  {
    hide ReadyMarker, StartMarker, IndexOf, Absent;
    var ready, start := ReadyMarker(nonce), StartMarker(nonce);
    var i := IndexOf(text, ready).value;
    var rest := After(text, ready).value;
    var j := IndexOf(rest, start).value;
    noise1, noise2 := text[..i], rest[..j];
    BeforeFirstIsAbsent(text, ready, i);
    BeforeFirstIsAbsent(rest, start, j);
  }

  lemma FrameIsEnd(data: Bytes, m: nat, nonce: string, code: nat)
    requires ValidNonce(nonce) && code <= 255 && m + |EndPrefix(nonce)| <= |data|
    requires data == data[..m] + EndPrefix(nonce) + data[m + |EndPrefix(nonce)|..] && data[m + |EndPrefix(nonce)|..] == Digits(code) + [31]
    ensures data == data[..m] + EndFrame(nonce, code)
  {
    hide EndPrefix, Digits;
    Assoc(EndPrefix(nonce), Digits(code), [31]);
    Assoc(data[..m], EndPrefix(nonce), Digits(code) + [31]);
  }

  lemma BeforeFirstIsAbsent<T>(s: seq<T>, marker: seq<T>, i: nat)
    requires |marker| > 0 && IndexOf(s, marker) == Some(i)
    ensures Absent(s[..i], marker) && s == s[..i] + marker + s[i + |marker|..]
  {
    forall j: nat ensures !At(s[..i], marker, j) {
      if j + |marker| <= i {
        assert s[..i][j..j + |marker|] == s[j..j + |marker|];
        assert !At(s, marker, j);
      }
    }
  }

  lemma WholeDecoding(decoded: Bytes, carry: string, whole: Bytes)
    requires Encode(decoded) + carry == Encode(whole) && |carry| < 4
    ensures decoded == whole && carry == ""
  {
    hide Encode;
    assert |carry| % 4 == 0;
    EncodedPrefixInverse(decoded, whole);
    EncodedPrefixInverse(whole, decoded);
  }

  /** The callbacks of a finished session: ready, start, the payload in pieces, the code. */
  ghost predicate Delivered(events: seq<Event>, payload: Bytes, code: nat) {
    exists parts: seq<Bytes> :: Flatten(parts) == payload && events == [OnReady, OnStart] + Outputs(parts) + [OnComplete(code)]
  }

  /** The session's payload and body are within their limits. */
  predicate BodyFits(s: Session, limits: Limits) { |s.payload| <= limits.output && |s.body| <= limits.encoded }

  /** What the parser counts before the body, if so many pairs are cut: six bytes for a cut pair, four for another. */
  function PreludeCost(s: Session, cuts: nat): nat { ByteLength(s.noise1) + ByteLength(s.noise2) + 2 * cuts }

  /**
     A whole session in any number of writes.  It completes only on transcripts, and a transcript whose
     payload and body fit completes exactly if its prelude fits, counted as the writes cut it: the
     documented limit is in bytes of the text, and each pair cut between two slices takes two more.
   */
  method Replay(nonce: string, limits: Limits, chunks: seq<Text>) returns (parser: ExecParser)
    requires ValidNonce(nonce) && 0 <= limits.prelude
    ensures parser.Valid() && parser.nonce == nonce && parser.limits == limits
    ensures forall s: Session | WellFormed(s, nonce) && BodyFits(s, limits) && Flatten(chunks) == Transcript(s, nonce) ::
              parser.failed.None? && parser.state == Complete <==> PreludeCost(s, CutsOfAll(chunks)) <= limits.prelude
    ensures forall s: Session | WellFormed(s, nonce) && Flatten(chunks) == Transcript(s, nonce) && parser.failed.None? && parser.state == Complete ::
              Delivered(parser.events, s.payload, s.code)
    ensures parser.failed.None? && parser.state == Complete ==>
              exists s: Session :: WellFormed(s, nonce) && Flatten(chunks) == Transcript(s, nonce) && Delivered(parser.events, s.payload, s.code)
  {
    hide CutsOf;
    parser := new ExecParser(nonce, limits);
    for i := 0 to |chunks|
      invariant parser.Valid() && parser.nonce == nonce && parser.limits == limits && !parser.ended
      invariant parser.state == Output && parser.failed.None? ==> parser.completeCode.None?
      invariant if parser.failed.None? then parser.fed == Flatten(chunks[..i]) && parser.cuts == CutsOfAll(chunks[..i])
                else parser.fed <= Flatten(chunks[..i]) && parser.cuts <= CutsOfAll(chunks[..i])
    {
      FlattenAppend(chunks[..i], [chunks[i]]);
      FlattenOne(chunks[i]);
      assert chunks[..i + 1] == chunks[..i] + [chunks[i]];
      assert chunks[..i + 1][..i] == chunks[..i];
      parser.Write(chunks[i]);
    }
    assert chunks[..|chunks|] == chunks;
    forall s: Session | WellFormed(s, nonce) && BodyFits(s, limits) && Flatten(chunks) == Transcript(s, nonce)
      ensures parser.failed.None? && parser.state == Complete <==> PreludeCost(s, CutsOfAll(chunks)) <= limits.prelude
    {
      parser.CompletesWithin(s, Flatten(chunks), CutsOfAll(chunks));
    }
    forall s: Session | WellFormed(s, nonce) && Flatten(chunks) == Transcript(s, nonce) && parser.failed.None? && parser.state == Complete
      ensures Delivered(parser.events, s.payload, s.code)
    {
      var t := parser.CompleteMeansTranscript();
      SameSession(s, t, nonce);
      assert Delivered(parser.events, t.payload, t.code);
    }
    if parser.failed.None? && parser.state == Complete {
      ghost var s := parser.CompleteMeansTranscript();
      assert Delivered(parser.events, s.payload, s.code);
    }
  }
}
