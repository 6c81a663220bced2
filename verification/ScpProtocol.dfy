/**
 Legacy SCP records as bytes: what the writer sends, what the reader makes of a byte stream, and a
 reader object that gets the stream in arbitrary chunks.
 */
module ScpProtocol {
  import opened Basics
  import opened Names
  import opened Numbers
  import Utf8

  const MAX_SAFE_INTEGER: nat := 9007199254740991

  datatype Record =
    | Ack
    | Failure(fatal: bool, message: string)
    | EndDirectory
    | File(mode: nat, size: nat, name: string)
    | Directory(mode: nat, name: string)
    | Time(mtime: nat, mtimeUsec: nat, atime: nat, atimeUsec: nat)

  datatype Error = Protocol | BufferLimit | UnexpectedEof

  datatype Result<+T> = Ok(value: T) | Err(error: Error) {
    predicate IsFailure() { Err? }
    function PropagateFailure<U>(): Result<U> requires Err? { Err(error) }
    function Extract(): T requires Ok? { value }
  }

  datatype Limits = Limits(maxLine: nat, maxFile: nat)

  predicate IsOctal(c: char) { '0' <= c <= '7' }

  function Octal4(mode: nat): (o: string)
    requires mode <= 4095
    ensures |o| == 4
  {
    [(48 + mode / 512) as char, (48 + mode / 64 % 8) as char, (48 + mode / 8 % 8) as char, (48 + mode % 8) as char]
  }

  function OctalDigit(c: char): nat
    requires IsOctal(c)
  {
    c as int - 48
  }

  function OctalValue(s: string): nat
    requires |s| == 4 && forall i | 0 <= i < 4 :: IsOctal(s[i])
  {
    OctalDigit(s[0]) * 512 + OctalDigit(s[1]) * 64 + OctalDigit(s[2]) * 8 + OctalDigit(s[3])
  }

  lemma OctalRoundTrip(mode: nat)
    requires mode <= 4095
    ensures (forall i | 0 <= i < 4 :: IsOctal(Octal4(mode)[i])) && OctalValue(Octal4(mode)) == mode
  {
    assert mode == mode / 8 * 8 + mode % 8 && mode / 8 == mode / 64 * 8 + mode / 8 % 8 && mode / 64 == mode / 512 * 8 + mode / 64 % 8;
  }

  // ---- the writer ----

  predicate Writable(r: Record, limits: Limits) {
    match r
    case Ack => true
    case EndDirectory => true
    case Failure(_, message) => message != "" && !HasControl(message)
    case File(mode, size, name) => mode <= 4095 && size <= limits.maxFile && size <= MAX_SAFE_INTEGER && ValidName(name)
    case Directory(mode, name) => mode <= 4095 && ValidName(name)
    case Time(m, mu, a, au) => m <= MAX_SAFE_INTEGER && mu <= 999999 && a <= MAX_SAFE_INTEGER && au <= 999999
  }

  function TypeByte(r: Record): Byte {
    match r
    case Ack => 0
    case Failure(fatal, _) => if fatal then 2 else 1
    case EndDirectory => 69
    case File(_, _, _) => 67
    case Directory(_, _) => 68
    case Time(_, _, _, _) => 84
  }

  /** The text of a record between its type byte and the newline. */
  function Body(r: Record): string
    requires r.File? ==> r.mode <= 4095
    requires r.Directory? ==> r.mode <= 4095
  {
    match r
    case Ack => ""
    case Failure(_, message) => message
    case EndDirectory => ""
    case File(mode, size, name) => Octal4(mode) + (" " + (Decimal(size) + (" " + name)))
    case Directory(mode, name) => Octal4(mode) + (" " + (Decimal(0) + (" " + name)))
    case Time(m, mu, a, au) => Decimal(m) + (" " + (Decimal(mu) + (" " + (Decimal(a) + (" " + Decimal(au))))))
  }

  /** The bytes of a record; the line limit counts neither the type byte nor the newline. */
  function WriteRecord(r: Record, limits: Limits): Result<Bytes> {
    if !Writable(r, limits) then Err(Protocol)
    else if r.Ack? then Ok([0])
    else
      var body := Utf8.Encode(Body(r));
      if |body| > limits.maxLine then Err(BufferLimit) else Ok([TypeByte(r)] + body + [10])
  }

  // ---- the reader, on a whole input ----

  /** The number of leading digits. */
  function DigitRun(s: string): (n: nat)
    ensures n <= |s| && (forall i | 0 <= i < n :: IsDigit(s[i])) && (n < |s| ==> !IsDigit(s[n]))
  {
    if s != "" && IsDigit(s[0]) then 1 + DigitRun(s[1..]) else 0
  }

  /** A run of digits, at least one, as a bounded integer, and what follows it. */
  function TakeNumber(s: string, max: nat): Result<(nat, string)> {
    var n := DigitRun(s);
    if n == 0 then Err(Protocol)
    else if Number(s[..n]) > Min(max, MAX_SAFE_INTEGER) then Err(Protocol)
    else Ok((Number(s[..n]), s[n..]))
  }

  function TakeSpace(s: string): Result<string> {
    if s != "" && s[0] == ' ' then Ok(s[1..]) else Err(Protocol)
  }

  /** The dot of a JavaScript pattern does not match line terminators. */
  predicate IsLineTerminator(c: char) { c == '\n' || c == '\r' || c == '\U{2028}' || c == '\U{2029}' }

  predicate HasLineTerminator(s: string) { exists i | 0 <= i < |s| :: IsLineTerminator(s[i]) }

  function ParseEntry(directory: bool, line: string, limits: Limits): Result<Record> {
    if |line| < 4 || exists i | 0 <= i < 4 :: !IsOctal(line[i]) then Err(Protocol)
    else
      var mode := OctalValue(line[..4]);
      var rest :- TakeSpace(line[4..]);
      var (size, rest2) :- TakeNumber(rest, limits.maxFile);
      var name :- TakeSpace(rest2);
      if name == "" || HasLineTerminator(name) then Err(Protocol)
      else if directory && size != 0 then Err(Protocol)
      else if !ValidName(name) then Err(Protocol)
      else Ok(if directory then Directory(mode, name) else File(mode, size, name))
  }

  function ParseTime(line: string): Result<Record> {
    var (m, r1) :- TakeNumber(line, MAX_SAFE_INTEGER);
    var s1 :- TakeSpace(r1);
    var (mu, r2) :- TakeNumber(s1, 999999);
    var s2 :- TakeSpace(r2);
    var (a, r3) :- TakeNumber(s2, MAX_SAFE_INTEGER);
    var s3 :- TakeSpace(r3);
    var (au, r4) :- TakeNumber(s3, 999999);
    if r4 == "" then Ok(Time(m, mu, a, au)) else Err(Protocol)
  }

  function ParseLine(kind: Byte, line: string, limits: Limits): Result<Record> {
    if HasControl(line) then Err(Protocol)
    else if kind == 1 || kind == 2 then Ok(Failure(kind == 2, line))
    else if kind == 69 && line == "" then Ok(EndDirectory)
    else if kind == 67 || kind == 68 then ParseEntry(kind == 68, line, limits)
    else if kind == 84 then ParseTime(line)
    else Err(Protocol)
  }

  function NewlineAt(b: Bytes): (n: nat)
    ensures n <= |b| && (forall i | 0 <= i < n :: b[i] != 10) && (n < |b| ==> b[n] == 10)
  {
    if b == [] || b[0] == 10 then 0 else 1 + NewlineAt(b[1..])
  }

  /** The line behind a type byte, and what the reader makes of it. */
  function ParseTail(kind: Byte, tail: Bytes, limits: Limits): Result<(Option<Record>, Bytes)> {
    var n := NewlineAt(tail);
    if n > limits.maxLine then Err(BufferLimit)
    else if n == |tail| then Err(UnexpectedEof)
    else
      match Utf8.Decode(tail[..n])
      case None => Err(Protocol)
      case Some(line) =>
        var record :- ParseLine(kind, line, limits);
        Ok((Some(record), tail[n + 1..]))
  }

  /** One record off the front of the input; no record and no error means a clean end. */
  function ParseRecord(input: Bytes, limits: Limits): Result<(Option<Record>, Bytes)> {
    if input == [] then Ok((None, []))
    else if input[0] == 0 then Ok((Some(Ack), input[1..]))
    else ParseTail(input[0], input[1..], limits)
  }

  // ---- writer against reader ----

  lemma {:induction false} DigitRunOf(digits: string, rest: string)
    requires forall i | 0 <= i < |digits| :: IsDigit(digits[i])
    requires rest == "" || !IsDigit(rest[0])
    ensures DigitRun(digits + rest) == |digits|
  {
    if digits == "" {
      assert digits + rest == rest;
    } else {
      DigitRunOf(digits[1..], rest);
      assert (digits + rest)[1..] == digits[1..] + rest;
    }
  }

  lemma TakeNumberOf(n: nat, max: nat, rest: string)
    requires n <= max && n <= MAX_SAFE_INTEGER && (rest == "" || !IsDigit(rest[0]))
    ensures TakeNumber(Decimal(n) + rest, max) == Ok((n, rest))
  {
    DecimalNumber(n);
    DigitRunOf(Decimal(n), rest);
    assert (Decimal(n) + rest)[..|Decimal(n)|] == Decimal(n);
    assert (Decimal(n) + rest)[|Decimal(n)|..] == rest;
  }

  lemma TakeSpaceOf(rest: string)
    ensures TakeSpace(" " + rest) == Ok(rest)
  {
  }

  /** An entry line is read back exactly when its name has no character the reader's pattern refuses. */
  lemma EntryLine(directory: bool, mode: nat, size: nat, name: string, limits: Limits)
    requires mode <= 4095 && size <= limits.maxFile && size <= MAX_SAFE_INTEGER && ValidName(name) && (directory ==> size == 0)
    ensures var line := Octal4(mode) + (" " + (Decimal(size) + (" " + name)));
            ParseEntry(directory, line, limits) ==
              if HasLineTerminator(name) then Err(Protocol)
              else Ok(if directory then Directory(mode, name) else File(mode, size, name))
  {
    hide Decimal, Number, OctalValue, Octal4, HasControl, TakeNumber, TakeSpace, DigitRun;
    var tail := " " + (Decimal(size) + (" " + name));
    var line := Octal4(mode) + tail;
    OctalRoundTrip(mode);
    assert line[..4] == Octal4(mode) && line[4..] == tail;
    assert forall i | 0 <= i < 4 :: line[i] == Octal4(mode)[i];
    TakeSpaceOf(Decimal(size) + (" " + name));
    TakeNumberOf(size, limits.maxFile, " " + name);
    TakeSpaceOf(name);
  }

  lemma TimeLine(m: nat, mu: nat, a: nat, au: nat)
    requires m <= MAX_SAFE_INTEGER && mu <= 999999 && a <= MAX_SAFE_INTEGER && au <= 999999
    ensures ParseTime(Body(Time(m, mu, a, au))) == Ok(Time(m, mu, a, au))
  {
    hide Decimal, Number, DigitRun, TakeNumber, TakeSpace;
    var t3 := Decimal(a) + (" " + Decimal(au));
    var t2 := Decimal(mu) + (" " + t3);
    TakeNumberOf(m, MAX_SAFE_INTEGER, " " + t2);
    TakeSpaceOf(t2);
    TakeNumberOf(mu, 999999, " " + t3);
    TakeSpaceOf(t3);
    TakeNumberOf(a, MAX_SAFE_INTEGER, " " + Decimal(au));
    TakeSpaceOf(Decimal(au));
    assert Decimal(au) + "" == Decimal(au);
    TakeNumberOf(au, 999999, "");
  }

  lemma DecimalIsPlain(n: nat)
    ensures !HasControl(Decimal(n))
  {
    DecimalNumber(n);
  }

  lemma PlainAppend(a: string, b: string)
    requires !HasControl(a) && !HasControl(b)
    ensures !HasControl(a + b)
  {
    forall i | 0 <= i < |a + b| ensures !IsControl((a + b)[i]) {
      if i < |a| { assert !IsControl(a[i]); } else { assert !IsControl(b[i - |a|]); }
    }
  }

  /** No record the writer accepts has a control character in its line. */
  lemma BodyIsPlain(r: Record, limits: Limits)
    requires Writable(r, limits)
    ensures !HasControl(Body(r))
  {
    hide Decimal;
    match r {
      case File(mode, size, name) =>
        OctalRoundTrip(mode);
        DecimalIsPlain(size);
        PlainAppend(" ", name);
        PlainAppend(Decimal(size), " " + name);
        PlainAppend(" ", Decimal(size) + (" " + name));
        PlainAppend(Octal4(mode), " " + (Decimal(size) + (" " + name)));
      case Directory(mode, name) =>
        OctalRoundTrip(mode);
        DecimalIsPlain(0);
        PlainAppend(" ", name);
        PlainAppend(Decimal(0), " " + name);
        PlainAppend(" ", Decimal(0) + (" " + name));
        PlainAppend(Octal4(mode), " " + (Decimal(0) + (" " + name)));
      case Time(m, mu, a, au) =>
        DecimalIsPlain(m);
        DecimalIsPlain(mu);
        DecimalIsPlain(a);
        DecimalIsPlain(au);
        PlainAppend(" ", Decimal(au));
        PlainAppend(Decimal(a), " " + Decimal(au));
        PlainAppend(" ", Decimal(a) + (" " + Decimal(au)));
        PlainAppend(Decimal(mu), " " + (Decimal(a) + (" " + Decimal(au))));
        PlainAppend(" ", Decimal(mu) + (" " + (Decimal(a) + (" " + Decimal(au)))));
        PlainAppend(Decimal(m), " " + (Decimal(mu) + (" " + (Decimal(a) + (" " + Decimal(au))))));
      case _ =>
    }
  }

  /** The name of an entry record, if it has one. */
  function NameOf(r: Record): string {
    if r.File? || r.Directory? then r.name else ""
  }

  lemma LineRoundTrip(r: Record, limits: Limits)
    requires Writable(r, limits) && !r.Ack?
    ensures ParseLine(TypeByte(r), Body(r), limits) == if HasLineTerminator(NameOf(r)) then Err(Protocol) else Ok(r)
  {
    hide Decimal, Octal4, ParseEntry, ParseTime, ValidName, HasControl;
    BodyIsPlain(r, limits);
    match r {
      case File(mode, size, name) => EntryLine(false, mode, size, name, limits);
      case Directory(mode, name) => EntryLine(true, mode, 0, name, limits);
      case Time(m, mu, a, au) => TimeLine(m, mu, a, au);
      case _ =>
    }
  }

  lemma {:induction false} NewlineAtOf(body: Bytes, rest: Bytes)
    requires 10 !in body
    ensures NewlineAt(body + [10] + rest) == |body|
  {
    if body == [] {
      assert (body + [10] + rest)[0] == 10;
    } else {
      NewlineAtOf(body[1..], rest);
      assert (body + [10] + rest)[1..] == body[1..] + [10] + rest;
      assert (body + [10] + rest)[0] == body[0] && body[0] in body;
    }
  }

  /** What the reader does with one complete line. */
  lemma ParseRecordAt(kind: Byte, body: Bytes, rest: Bytes, limits: Limits)
    requires kind != 0 && 10 !in body && |body| <= limits.maxLine && Utf8.Decode(body).Some?
    ensures ParseRecord([kind] + body + [10] + rest, limits) ==
              match ParseLine(kind, Utf8.Decode(body).value, limits)
              case Err(e) => Err(e)
              case Ok(record) => Ok((Some(record), rest))
  {
    hide ParseLine, NewlineAt, Utf8.Decode;
    NewlineAtOf(body, rest);
    var tail := body + [10] + rest;
    assert tail[..|body|] == body && tail[|body| + 1..] == rest;
    var input := [kind] + body + [10] + rest;
    assert input[1..] == tail;
  }

  /**
     The record codec.  Whatever the writer accepts comes back as the same record with the rest of
     the input untouched, unless its name has a line terminator the reader's pattern does not match:
     those records are written and then refused.
   */
  lemma RecordRoundTrip(r: Record, limits: Limits, rest: Bytes)
    requires WriteRecord(r, limits).Ok?
    ensures ParseRecord(WriteRecord(r, limits).value + rest, limits) ==
              if HasLineTerminator(NameOf(r)) then Err(Protocol) else Ok((Some(r), rest))
  {
    if r.Ack? {
      assert ([0] + rest)[1..] == rest;
    } else {
      hide ParseLine, ParseRecord, Body, HasLineTerminator, Writable, TypeByte;
      var body := Utf8.Encode(Body(r));
      TypeByteIsNotAck(r);
      BodyHasNoNewline(r, limits);
      Utf8.RoundTrip(Body(r));
      LineRoundTrip(r, limits);
      ParseRecordAt(TypeByte(r), body, rest, limits);
    }
  }

  lemma TypeByteIsNotAck(r: Record)
    ensures TypeByte(r) != 0 <==> !r.Ack?
  {
  }

  lemma BodyHasNoNewline(r: Record, limits: Limits)
    requires Writable(r, limits)
    ensures 10 !in Utf8.Encode(Body(r))
  {
    BodyIsPlain(r, limits);
    assert '\n' !in Body(r);
    Utf8.NewlineBytes(Body(r));
  }

  /** A valid name with U+2028 in it: the writer sends the record, the reader refuses it. */
  lemma SeparatorNameIsLost(limits: Limits)
    requires limits.maxLine >= 32
    ensures WriteRecord(Directory(493, "\U{2028}"), limits).Ok?
    ensures ParseRecord(WriteRecord(Directory(493, "\U{2028}"), limits).value, limits) == Err(Protocol)
  {
    var r := Directory(493, "\U{2028}");
    EncodeBound(Body(r));
    assert IsLineTerminator(r.name[0]);
    RecordRoundTrip(r, limits, []);
    assert WriteRecord(r, limits).value + [] == WriteRecord(r, limits).value;
  }

  lemma {:induction false} EncodeBound(s: string)
    ensures |Utf8.Encode(s)| <= 4 * |s|
  {
    if s != "" { EncodeBound(s[1..]); }
  }
}
