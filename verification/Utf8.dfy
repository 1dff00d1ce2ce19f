/** Bytes, and UTF-8 as section 3 of RFC 3629 defines it: the strict decoder that the text
    merge, the draft editor and the canonical JSON printer all rely on. */
module Utf8 {
  import opened Sequences

  newtype Byte = x: int | 0 <= x < 256

  type Bytes = seq<Byte>

  /** A byte that can only appear inside a character, never at its start. */
  predicate Continuation(b: Byte) {
    0x80 <= b <= 0xBF
  }

  /** The length of the well-formed character at the head of `s`, or 0 when there is none. */
  function CharLength(s: Bytes): (n: nat)
    ensures n <= 4 && n <= |s|
    ensures forall k :: 1 <= k < n ==> Continuation(s[k])
    ensures n > 0 ==> !Continuation(s[0])
  {
    if s == [] then 0
    else if s[0] <= 0x7F then 1
    else if 0xC2 <= s[0] <= 0xDF then
      if |s| >= 2 && Continuation(s[1]) then 2 else 0
    else if 0xE0 <= s[0] <= 0xEF then
      if |s| >= 3 && Continuation(s[1]) && Continuation(s[2]) && (s[0] == 0xE0 ==> s[1] >= 0xA0)
        && (s[0] == 0xED ==> s[1] <= 0x9F)
      then 3 else 0
    else if 0xF0 <= s[0] <= 0xF4 then
      if |s| >= 4 && Continuation(s[1]) && Continuation(s[2]) && Continuation(s[3]) && (s[0] == 0xF0 ==> s[1] >= 0x90)
        && (s[0] == 0xF4 ==> s[1] <= 0x8F)
      then 4 else 0
    else 0
  }

  predicate Valid(s: Bytes) {
    s == [] || (var n := CharLength(s); n > 0 && Valid(s[n..]))
  }

  /** Only the first character's bytes decide its length. */
  lemma CharLengthLocal(s: Bytes, t: Bytes)
    requires CharLength(s) > 0
    ensures CharLength(s + t) == CharLength(s)
  {
  }

  lemma CharLengthPrefix(s: Bytes, p: nat)
    requires 0 < CharLength(s) <= p <= |s|
    ensures CharLength(s[..p]) == CharLength(s)
  {
  }

  lemma ValidStep(s: Bytes)
    requires s != []
    ensures Valid(s) <==> CharLength(s) > 0 && Valid(s[CharLength(s)..])
  {
    hide CharLength;
  }

  lemma {:induction false} ValidConcat(s: Bytes, t: Bytes)
    requires Valid(s) && Valid(t)
    ensures Valid(s + t)
  {
    if s == [] {
      assert s + t == t;
    } else {
      hide CharLength, Valid;
      ValidStep(s);
      var n := CharLength(s);
      CharLengthLocal(s, t);
      ValidConcat(s[n..], t);
      assert (s + t)[n..] == s[n..] + t;
      ValidStep(s + t);
    }
  }

  /** In well-formed text a position is a character boundary exactly when no continuation byte stands there. */
  lemma {:induction false} ValidSplit(s: Bytes, p: nat)
    requires Valid(s) && p <= |s|
    requires p == |s| || !Continuation(s[p])
    ensures Valid(s[..p]) && Valid(s[p..])
  {
    hide *;
    if p == 0 {
      NothingIsValid();
      assert s[0..] == s && s[..0] == [];
    } else {
      ValidStep(s);
      var n := CharLength(s);
      assert n <= p;
      Slices(s, n, p);
      ValidSplit(s[n..], p - n);
      CharLengthPrefix(s, p);
      ValidStep(s[..p]);
    }
  }

  lemma NothingIsValid()
    ensures Valid([])
  {
  }

  lemma Slices(s: Bytes, n: nat, p: nat)
    requires n <= p <= |s|
    ensures s[n..][p - n..] == s[p..] && s[n..][..p - n] == s[..p][n..]
    ensures p < |s| ==> s[n..][p - n] == s[p]
  {
  }

  lemma {:induction false} ValidSplitConverse(s: Bytes, p: nat)
    requires Valid(s) && p < |s| && Valid(s[p..])
    ensures !Continuation(s[p])
  {
    assert s[p..][0] == s[p];
  }

  // --- Characters -----------------------------------------------------------------------

  /** Six bits behind the lead byte. */
  function Trail(x: nat): (b: Byte)
    ensures Continuation(b)
  {
    (0x80 + x % 64) as Byte
  }

  function Two(x: nat): (b: Bytes)
    requires 0x80 <= x < 0x800
    ensures |b| == 2 && CharLength(b) == 2
  {
    [(0xC0 + x / 64) as Byte, Trail(x)]
  }

  function Three(x: nat): (b: Bytes)
    requires 0x800 <= x < 0xD800 || 0xE000 <= x < 0x10000
    ensures |b| == 3 && CharLength(b) == 3
  {
    [(0xE0 + x / 4096) as Byte, Trail(x / 64), Trail(x)]
  }

  function Four(x: nat): (b: Bytes)
    requires 0x10000 <= x < 0x110000
    ensures |b| == 4 && CharLength(b) == 4
  {
    [(0xF0 + x / 262144) as Byte, Trail(x / 4096), Trail(x / 64), Trail(x)]
  }

  /** The bytes of one character. A Dafny `char` is a Unicode scalar value, so no surrogate reaches here. */
  function EncodeChar(c: char): (b: Bytes)
    ensures 1 <= |b| <= 4 && CharLength(b) == |b|
  {
    var x := c as int;
    if x < 0x80 then [x as Byte]
    else if x < 0x800 then Two(x)
    else if x < 0x10000 then Three(x)
    else Four(x)
  }

  function Encode(s: string): Bytes {
    if s == [] then [] else EncodeChar(s[0]) + Encode(s[1..])
  }

  lemma {:induction false} EncodeConcat(s: string, t: string)
    ensures Encode(s + t) == Encode(s) + Encode(t)
  {
    if s == [] {
      assert s + t == t;
    } else {
      var head, rest := EncodeChar(s[0]), Encode(s[1..]);
      assert Encode(s) == head + rest;
      Associates([s[0]], s[1..], t);
      assert s == [s[0]] + s[1..];
      EncodeCons(s[0], s[1..] + t);
      hide *;
      EncodeConcat(s[1..], t);
      Associates(head, rest, Encode(t));
    }
  }

  lemma EncodeCons(c: char, t: string)
    ensures Encode([c] + t) == EncodeChar(c) + Encode(t)
  {
    assert ([c] + t)[1..] == t;
  }

  lemma {:induction false} EncodeValid(s: string)
    ensures Valid(Encode(s))
  {
    if s != [] {
      EncodeValid(s[1..]);
      var head := EncodeChar(s[0]);
      CharLengthLocal(head, Encode(s[1..]));
      assert (head + Encode(s[1..]))[|head|..] == Encode(s[1..]);
    }
  }

  /** The scalar value of the well-formed character at the head of `s`. */
  function DecodeChar(s: Bytes): (c: char)
    requires CharLength(s) > 0
  {
    var x := match CharLength(s)
      case 1 => s[0] as int
      case 2 => (s[0] as int - 0xC0) * 64 + (s[1] as int - 0x80)
      case 3 => (s[0] as int - 0xE0) * 4096 + (s[1] as int - 0x80) * 64 + (s[2] as int - 0x80)
      case _ =>
        (s[0] as int - 0xF0) * 262144 + (s[1] as int - 0x80) * 4096 + (s[2] as int - 0x80) * 64 + (s[3] as int - 0x80);
    x as char
  }

  function Decode(s: Bytes): (t: string)
    requires Valid(s)
  {
    if s == [] then [] else [DecodeChar(s)] + Decode(s[CharLength(s)..])
  }

  /** Base-64 digits of a code point are unique. */
  lemma Digits(high: nat, low: nat)
    requires low < 64
    ensures (high * 64 + low) / 64 == high && (high * 64 + low) % 64 == low
  {
  }

  lemma DecodeCharEncodes(s: Bytes)
    requires CharLength(s) > 0
    ensures EncodeChar(DecodeChar(s)) == s[..CharLength(s)]
  {
    match CharLength(s)
    case 1 =>
    case 2 =>
      Digits(s[0] as int - 0xC0, s[1] as int - 0x80);
    case 3 =>
      DecodeThree(s);
    case _ =>
      DecodeFour(s);
  }

  lemma DecodeThree(s: Bytes)
    requires CharLength(s) == 3
    ensures EncodeChar(DecodeChar(s)) == s[..3]
  {
    var x := DecodeChar(s) as int;
    var a, b, c := s[0] as int - 0xE0, s[1] as int - 0x80, s[2] as int - 0x80;
    var high := a * 64 + b;
    Digits(high, c);
    Digits(a, b);
    assert x == high * 64 + c;
    assert x / 4096 == x / 64 / 64;
    assert 0x800 <= x < 0x10000;
  }

  lemma DecodeFour(s: Bytes)
    requires CharLength(s) == 4
    ensures EncodeChar(DecodeChar(s)) == s[..4]
  {
    var x := DecodeChar(s) as int;
    var a, b, c, d := s[0] as int - 0xF0, s[1] as int - 0x80, s[2] as int - 0x80, s[3] as int - 0x80;
    var top := a * 64 + b;
    var high := top * 64 + c;
    Digits(high, d);
    Digits(top, c);
    Digits(a, b);
    assert x == high * 64 + d;
    assert x / 4096 == x / 64 / 64 && x / 262144 == x / 64 / 64 / 64;
    assert 0x10000 <= x < 0x110000;
  }

  lemma EncodeCharDecodes(c: char, rest: Bytes)
    ensures CharLength(EncodeChar(c) + rest) == |EncodeChar(c)|
    ensures DecodeChar(EncodeChar(c) + rest) == c
  {
    var head := EncodeChar(c);
    CharLengthLocal(head, rest);
    assert (head + rest)[..|head|] == head;
    DecodeCharEncodes(head + rest);
    EncodeCharInjective(c, DecodeChar(head + rest));
  }

  lemma EncodeCharInjective(c: char, d: char)
    requires EncodeChar(c) == EncodeChar(d)
    ensures c == d
  {
    var x, y := c as int, d as int;
    assert EncodeChar(c)[0] == EncodeChar(d)[0];
    if |EncodeChar(c)| > 1 { assert EncodeChar(c)[1] == EncodeChar(d)[1]; }
    if |EncodeChar(c)| > 2 { assert EncodeChar(c)[2] == EncodeChar(d)[2]; }
    if |EncodeChar(c)| > 3 { assert EncodeChar(c)[3] == EncodeChar(d)[3]; }
    assert x / 4096 == x / 64 / 64 && y / 4096 == y / 64 / 64;
    assert x / 262144 == x / 64 / 64 / 64 && y / 262144 == y / 64 / 64 / 64;
  }

  /** Encoding what was decoded gives the original bytes back... */
  lemma {:induction false} EncodeDecode(s: Bytes)
    requires Valid(s)
    ensures Encode(Decode(s)) == s
  {
    hide *;
    if s == [] {
      NothingDecoded();
    } else {
      var n := CharLength(s);
      DecodeStep(s);
      DecodeCharEncodes(s);
      EncodeDecode(s[n..]);
      EncodeCons(DecodeChar(s), Decode(s[n..]));
      assert s[..n] + s[n..] == s;
    }
  }

  lemma NothingDecoded()
    ensures Valid([]) && Decode([]) == [] && Encode([]) == []
  {
  }

  lemma DecodeStep(s: Bytes)
    requires Valid(s) && s != []
    ensures 0 < CharLength(s) && Valid(s[CharLength(s)..]) && Decode(s) == [DecodeChar(s)] + Decode(s[CharLength(s)..])
  {
    hide CharLength, DecodeChar;
  }

  /** ...and decoding what was encoded gives the original text back. */
  lemma {:induction false} DecodeEncode(t: string)
    ensures Valid(Encode(t)) && Decode(Encode(t)) == t
  {
    EncodeValid(t);
    if t != [] {
      hide CharLength, EncodeChar, DecodeChar;
      var head := EncodeChar(t[0]);
      EncodeCharDecodes(t[0], Encode(t[1..]));
      assert Encode(t)[|head|..] == Encode(t[1..]);
      DecodeEncode(t[1..]);
    }
  }
}
