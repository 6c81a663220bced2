/** Base64 with the standard alphabet and canonical pad bits (sections 4 and 3.5 of RFC 4648). */
module Base64 {
  import opened Basics

  function Symbol(v: nat): char
    requires v < 64
  {
    if v < 26 then ('A' as int + v) as char
    else if v < 52 then ('a' as int + v - 26) as char
    else if v < 62 then ('0' as int + v - 52) as char
    else if v == 62 then '+' else '/'
  }

  predicate IsSymbol(c: char) {
    'A' <= c <= 'Z' || 'a' <= c <= 'z' || '0' <= c <= '9' || c == '+' || c == '/'
  }

  /** The decoder's value of a character; a character outside the alphabet contributes nothing. */
  function Value(c: char): (v: nat)
    ensures v < 64
    ensures IsSymbol(c) ==> Symbol(v) == c
  {
    if 'A' <= c <= 'Z' then c as int - 'A' as int
    else if 'a' <= c <= 'z' then c as int - 'a' as int + 26
    else if '0' <= c <= '9' then c as int - '0' as int + 52
    else if c == '+' then 62 else if c == '/' then 63 else 0
  }

  lemma ValueOfSymbol(v: nat)
    requires v < 64
    ensures IsSymbol(Symbol(v)) && Symbol(v) != '=' && Value(Symbol(v)) == v
  {
  }

  // The six-bit values of three bytes, and the bytes of four such values.
  function S0(a: nat): nat { a / 4 }
  function S1(a: nat, b: nat): nat { a % 4 * 16 + b / 16 }
  function S2(b: nat, c: nat): nat { b % 16 * 4 + c / 64 }
  function S3(c: nat): nat { c % 64 }
  function O0(v0: nat, v1: nat): nat { v0 * 4 + v1 / 16 }
  function O1(v1: nat, v2: nat): nat { v1 % 16 * 16 + v2 / 4 }
  function O2(v2: nat, v3: nat): nat { v2 % 4 * 64 + v3 }

  function EncodeGroup(x: Bytes): (q: string)
    requires 1 <= |x| <= 3
    ensures |q| == 4
  {
    var a := x[0] as int;
    var b := if |x| > 1 then x[1] as int else 0;
    var c := if |x| > 2 then x[2] as int else 0;
    [Symbol(S0(a)), Symbol(S1(a, b)),
     if |x| > 1 then Symbol(S2(b, c)) else '=',
     if |x| > 2 then Symbol(S3(c)) else '=']
  }

  function Encode(x: Bytes): (e: string)
    ensures |e| % 4 == 0
  {
    if x == [] then ""
    else
      hide EncodeGroup;
      var n := Min(3, |x|);
      EncodeGroup(x[..n]) + Encode(x[n..])
  }

  function DecodeGroup(q: string): (x: Bytes)
    requires |q| == 4
    ensures 1 <= |x| <= 3
  {
    var v0, v1, v2, v3 := Value(q[0]), Value(q[1]), Value(q[2]), Value(q[3]);
    var first := O0(v0, v1) as Byte;
    if q[2] == '=' then [first]
    else
      var second := O1(v1, v2) as Byte;
      if q[3] == '=' then [first, second]
      else [first, second, O2(v2, v3) as Byte]
  }

  function Decode(g: string): Bytes
    requires |g| % 4 == 0
  {
    if g == "" then [] else DecodeGroup(g[..4]) + Decode(g[4..])
  }

  /** The transport's shape check: symbols, then at most two pads. */
  predicate Shape(data: string) {
    forall i | 0 <= i < |data| ::
      IsSymbol(data[i]) || (i + 2 >= |data| && forall j | i <= j < |data| :: data[j] == '=')
  }

  /** Three bytes cut into sextets and put together again. */
  lemma Octets(a: nat, b: nat, c: nat)
    requires a < 256 && b < 256 && c < 256
    ensures S0(a) < 64 && S1(a, b) < 64 && S2(b, c) < 64 && S3(c) < 64
    ensures O0(S0(a), S1(a, b)) == a && O1(S1(a, b), S2(b, c)) == b && O2(S2(b, c), S3(c)) == c
  {
  }

  /** Four sextets packed into three bytes and unpacked again. */
  lemma Sextets(v0: nat, v1: nat, v2: nat, v3: nat)
    requires v0 < 64 && v1 < 64 && v2 < 64 && v3 < 64
    ensures O0(v0, v1) < 256 && O1(v1, v2) < 256 && O2(v2, v3) < 256
    ensures S0(O0(v0, v1)) == v0 && S1(O0(v0, v1), O1(v1, v2)) == v1
    ensures S2(O1(v1, v2), O2(v2, v3)) == v2 && S3(O2(v2, v3)) == v3
  {
  }

  lemma GroupRoundTrip(x: Bytes)
    requires 1 <= |x| <= 3
    ensures DecodeGroup(EncodeGroup(x)) == x
    ensures IsSymbol(EncodeGroup(x)[0]) && IsSymbol(EncodeGroup(x)[1])
    ensures if |x| > 1 then IsSymbol(EncodeGroup(x)[2]) else EncodeGroup(x)[2] == '='
    ensures if |x| > 2 then IsSymbol(EncodeGroup(x)[3]) else EncodeGroup(x)[3] == '='
  {
    hide Symbol, Value, IsSymbol, S0, S1, S2, S3, O0, O1, O2;
    var a := x[0] as int;
    var b := if |x| > 1 then x[1] as int else 0;
    var c := if |x| > 2 then x[2] as int else 0;
    Octets(a, b, c);
    ValueOfSymbol(S0(a));
    ValueOfSymbol(S1(a, b));
    ValueOfSymbol(S2(b, c));
    ValueOfSymbol(S3(c));
  }

  lemma SymbolsRoundTrip(q: string)
    requires |q| == 4 && forall i | 0 <= i < 4 :: IsSymbol(q[i])
    ensures |DecodeGroup(q)| == 3 && EncodeGroup(DecodeGroup(q)) == q
  {
    hide Symbol, Value, S0, S1, S2, S3, O0, O1, O2;
    Sextets(Value(q[0]), Value(q[1]), Value(q[2]), Value(q[3]));
    assert q[2] != '=' && q[3] != '=';
  }

  lemma EncodeStep(x: Bytes)
    requires x != []
    ensures Encode(x)[..4] == EncodeGroup(x[..Min(3, |x|)])
    ensures Encode(x)[4..] == Encode(x[Min(3, |x|)..])
  {
    hide EncodeGroup;
  }

  /** Unpadded text is canonical: encoding what it decodes to gives it back. */
  lemma {:induction false} UnpaddedIsCanonical(g: string)
    requires |g| % 4 == 0 && forall i | 0 <= i < |g| :: IsSymbol(g[i])
    ensures 4 * |Decode(g)| == 3 * |g| && Encode(Decode(g)) == g
  {
    hide DecodeGroup, EncodeGroup, IsSymbol;
    if g != "" {
      SymbolsRoundTrip(g[..4]);
      UnpaddedIsCanonical(g[4..]);
      var head, tail := DecodeGroup(g[..4]), Decode(g[4..]);
      assert (head + tail)[..3] == head && (head + tail)[3..] == tail;
      EncodeStep(head + tail);
    }
  }

  lemma {:induction false} EncodeAppend(x: Bytes, y: Bytes)
    requires |x| % 3 == 0
    ensures Encode(x + y) == Encode(x) + Encode(y)
  {
    hide EncodeGroup;
    if x == [] {
      assert x + y == y;
    } else {
      EncodeAppend(x[3..], y);
      assert (x + y)[..3] == x[..3] && (x + y)[3..] == x[3..] + y;
    }
  }

  lemma {:induction false} DecodeAppend(a: string, b: string)
    requires |a| % 4 == 0 && |b| % 4 == 0
    ensures Decode(a + b) == Decode(a) + Decode(b)
  {
    hide DecodeGroup;
    if a == "" {
      assert a + b == b;
    } else {
      DecodeAppend(a[4..], b);
      assert (a + b)[..4] == a[..4] && (a + b)[4..] == a[4..] + b;
    }
  }

  /** Round trip, whole groups at a time; a pad can only stand in the last group. */
  lemma {:induction false} EncodedPrefix(x: Bytes, part: string)
    requires part <= Encode(x) && |part| % 4 == 0
    ensures Decode(part) <= x
    ensures part == Encode(x) ==> Decode(part) == x
    ensures |part| < |Encode(x)| ==> 4 * |Decode(part)| == 3 * |part| && forall i | 0 <= i < |part| :: IsSymbol(part[i])
  {
    hide DecodeGroup, EncodeGroup, IsSymbol;
    if x != [] && part != "" {
      var n := Min(3, |x|);
      GroupRoundTrip(x[..n]);
      EncodeStep(x);
      var head, tail := part[..4], part[4..];
      assert head == Encode(x)[..4];
      assert tail <= Encode(x)[4..];
      EncodedPrefix(x[n..], tail);
      assert x == x[..n] + x[n..];
      forall i | 0 <= i < |part| && |part| < |Encode(x)| ensures IsSymbol(part[i]) {
        assert part[i] == if i < 4 then head[i] else tail[i - 4];
      }
    }
  }

  lemma {:induction false} EncodedShape(x: Bytes)
    ensures Shape(Encode(x))
    ensures |x| >= 3 ==> forall i | 0 <= i < 4 :: IsSymbol(Encode(x)[i])
  {
    hide EncodeGroup, IsSymbol;
    var e := Encode(x);
    if x != [] {
      var n := Min(3, |x|);
      GroupRoundTrip(x[..n]);
      EncodeStep(x);
      EncodedShape(x[n..]);
      forall i | 0 <= i < |e|
        ensures IsSymbol(e[i]) || (i + 2 >= |e| && forall j | i <= j < |e| :: e[j] == '=')
      {
        if i < 4 {
          assert e[i] == e[..4][i];
          if |e| == 4 { assert e[2] == e[..4][2] && e[3] == e[..4][3]; }
        } else {
          assert e[i] == e[4..][i - 4];
          forall j | i <= j < |e| ensures e[j] == e[4..][j - 4] {}
        }
      }
    }
  }

  /** A text that continues an encoding decodes to bytes that continue the bytes; a pad ends everything. */
  lemma EncodedPrefixInverse(x: Bytes, y: Bytes)
    requires Encode(x) <= Encode(y)
    ensures x <= y && Decode(Encode(x)) == x
    ensures |x| % 3 != 0 ==> Encode(x) == Encode(y)
  {
    hide *;
    EncodedPrefix(x, Encode(x));
    EncodedPrefix(y, Encode(x));
    if |Encode(x)| < |Encode(y)| { WholeGroups(|x|, |Encode(x)|); }
  }

  lemma WholeGroups(bytes: nat, symbols: nat)
    requires 4 * bytes == 3 * symbols && symbols % 4 == 0
    ensures bytes % 3 == 0
  {
    assert bytes == 3 * (symbols / 4);
  }

  lemma ShapeOfPart(data: string, from: nat, to: nat)
    requires Shape(data) && from <= to <= |data|
    ensures Shape(data[from..to])
  {
    var part := data[from..to];
    forall i | 0 <= i < |part|
      ensures IsSymbol(part[i]) || (i + 2 >= |part| && forall j | i <= j < |part| :: part[j] == '=')
    {
      assert part[i] == data[from + i];
      forall j | i <= j < |part| ensures part[j] == data[from + j] {}
    }
  }
}
