/** UTF-8 with fatal decoding: no overlong forms, no surrogates, nothing above U+10FFFF. */
module Utf8 {
  import opened Basics

  function EncodeChar(c: char): (b: Bytes)
    ensures 1 <= |b| <= 4
  {
    var v := c as int;
    if v < 0x80 then [v as Byte]
    else if v < 0x800 then [(0xC0 + v / 64) as Byte, (0x80 + v % 64) as Byte]
    else if v < 0x10000 then [(0xE0 + v / 4096) as Byte, (0x80 + v / 64 % 64) as Byte, (0x80 + v % 64) as Byte]
    else [(0xF0 + v / 262144) as Byte, (0x80 + v / 4096 % 64) as Byte, (0x80 + v / 64 % 64) as Byte, (0x80 + v % 64) as Byte]
  }

  function Encode(s: string): Bytes {
    if s == "" then [] else EncodeChar(s[0]) + Encode(s[1..])
  }

  predicate Trail(b: Byte) { 0x80 <= b < 0xC0 }

  /** The first character of the bytes and its length, if the bytes begin with a well-formed one. */
  function DecodeChar(b: Bytes): (r: Option<(char, nat)>)
    ensures r.Some? ==> 1 <= r.value.1 <= |b|
  {
    if |b| == 0 then None
    else
      var b0 := b[0] as int;
      if b0 < 0x80 then Some((b0 as char, 1))
      else if 0xC2 <= b0 < 0xE0 then
        if |b| >= 2 && Trail(b[1]) then Some((((b0 - 0xC0) * 64 + (b[1] as int - 0x80)) as char, 2)) else None
      else if 0xE0 <= b0 < 0xF0 then
        if |b| >= 3 && Trail(b[1]) && Trail(b[2]) then
          var v := (b0 - 0xE0) * 4096 + (b[1] as int - 0x80) * 64 + (b[2] as int - 0x80);
          if v < 0x800 || 0xD800 <= v < 0xE000 then None else Some((v as char, 3))
        else None
      else if 0xF0 <= b0 < 0xF5 then
        if |b| >= 4 && Trail(b[1]) && Trail(b[2]) && Trail(b[3]) then
          var v := (b0 - 0xF0) * 262144 + (b[1] as int - 0x80) * 4096 + (b[2] as int - 0x80) * 64 + (b[3] as int - 0x80);
          if v < 0x10000 || v >= 0x110000 then None else Some((v as char, 4))
        else None
      else None
  }

  function Decode(b: Bytes): Option<string>
    decreases |b|
  {
    if b == [] then Some("")
    else
      match DecodeChar(b)
      case None => None
      case Some((c, n)) =>
        match Decode(b[n..])
        case None => None
        case Some(rest) => Some([c] + rest)
  }

  /** Sextets of a code point put together again. */
  lemma Sextets(v: nat)
    requires v < 0x110000
    ensures v == v / 64 * 64 + v % 64
    ensures v / 64 == v / 4096 * 64 + v / 64 % 64
    ensures v / 4096 == v / 262144 * 64 + v / 4096 % 64
  {
  }

  lemma TwoBytes(v: nat)
    requires 0x80 <= v < 0x800
    ensures 0xC2 <= 0xC0 + v / 64 < 0xE0 && v / 64 * 64 + v % 64 == v
  {
  }

  lemma ThreeBytes(v: nat)
    requires 0x800 <= v < 0x10000
    ensures 0xE0 <= 0xE0 + v / 4096 < 0xF0 && v / 4096 * 4096 + v / 64 % 64 * 64 + v % 64 == v
  {
    Sextets(v);
  }

  lemma FourBytes(v: nat)
    requires 0x10000 <= v < 0x110000
    ensures 0xF0 <= 0xF0 + v / 262144 < 0xF5 && v / 262144 * 262144 + v / 4096 % 64 * 4096 + v / 64 % 64 * 64 + v % 64 == v
  {
    Sextets(v);
  }

  lemma CharRoundTrip(c: char, rest: Bytes)
    ensures DecodeChar(EncodeChar(c) + rest) == Some((c, |EncodeChar(c)|))
  {
    var v := c as int;
    var b := EncodeChar(c);
    assert forall i | 0 <= i < |b| :: (b + rest)[i] == b[i];
    if v < 0x80 {
    } else if v < 0x800 {
      TwoBytes(v);
    } else if v < 0x10000 {
      ThreeBytes(v);
    } else {
      FourBytes(v);
    }
  }

  /** What is encoded decodes to itself. */
  lemma {:induction false} RoundTrip(s: string)
    ensures Decode(Encode(s)) == Some(s)
  {
    hide EncodeChar, DecodeChar;
    if s != "" {
      RoundTrip(s[1..]);
      CharRoundTrip(s[0], Encode(s[1..]));
      assert Encode(s)[|EncodeChar(s[0])|..] == Encode(s[1..]);
      assert [s[0]] + s[1..] == s;
    }
  }

  lemma EncodeCons(c: char, s: string)
    ensures Encode([c] + s) == EncodeChar(c) + Encode(s)
  {
    assert ([c] + s)[1..] == s;
  }

  lemma {:induction false} EncodeAppend(a: string, b: string)
    ensures Encode(a + b) == Encode(a) + Encode(b)
  {
    if a == "" {
      assert a + b == b;
    } else {
      hide Encode, EncodeChar;
      EncodeAppend(a[1..], b);
      EncodeCons(a[0], a[1..]);
      EncodeCons(a[0], a[1..] + b);
      HeadTail(a, b);
      Assoc(EncodeChar(a[0]), Encode(a[1..]), Encode(b));
    }
  }

  lemma CharBytes(c: char)
    ensures forall i | 0 <= i < |EncodeChar(c)| :: EncodeChar(c)[i] < 0x80 <==> (c < '\U{80}' && EncodeChar(c)[i] as int == c as int)
  {
  }

  /** A newline byte stands for a newline character and for nothing else. */
  lemma {:induction false} NewlineBytes(s: string)
    requires '\n' !in s
    ensures 10 !in Encode(s)
  {
    if s != "" {
      hide EncodeChar;
      NewlineBytes(s[1..]);
      CharBytes(s[0]);
      assert s[0] in s && forall c | c in s[1..] :: c in s;
    }
  }
}
