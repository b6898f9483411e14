/** UTF-8 as RFC 3629, section 4, defines it, and the longest valid prefix of a byte string. */
module Utf8 {
  type byte = x: int | 0 <= x < 256

  predicate Tail(b: byte) { 0x80 <= b <= 0xBF }

  /** The first two bytes of a three-byte character: no overlong form, no surrogate. */
  predicate Lead3(a: byte, b: byte) {
    || (a == 0xE0 && 0xA0 <= b <= 0xBF)
    || (0xE1 <= a <= 0xEC && Tail(b))
    || (a == 0xED && 0x80 <= b <= 0x9F)
    || (0xEE <= a <= 0xEF && Tail(b))
  }

  /** The first two bytes of a four-byte character: no overlong form, nothing above U+10FFFF. */
  predicate Lead4(a: byte, b: byte) {
    || (a == 0xF0 && 0x90 <= b <= 0xBF)
    || (0xF1 <= a <= 0xF3 && Tail(b))
    || (a == 0xF4 && 0x80 <= b <= 0x8F)
  }

  /** The length of the character at the head of `s`, or 0 if there is none. */
  function CharLen(s: seq<byte>): (n: nat)
    ensures n <= |s| && n <= 4
  {
    if |s| >= 1 && s[0] <= 0x7F then 1
    else if |s| >= 2 && 0xC2 <= s[0] <= 0xDF && Tail(s[1]) then 2
    else if |s| >= 3 && Lead3(s[0], s[1]) && Tail(s[2]) then 3
    else if |s| >= 4 && Lead4(s[0], s[1]) && Tail(s[2]) && Tail(s[3]) then 4
    else 0
  }

  predicate Valid(s: seq<byte>)
    decreases |s|
  {
    |s| == 0 || (CharLen(s) > 0 && Valid(s[CharLen(s)..]))
  }

  /** The length of the run of complete characters at the head of `s`. */
  function Longest(s: seq<byte>): (n: nat)
    ensures n <= |s|
    decreases |s|
  {
    if CharLen(s) == 0 then 0 else CharLen(s) + Longest(s[CharLen(s)..])
  }

  /** A byte string that can still become valid. */
  ghost predicate Extensible(s: seq<byte>) {
    exists t :: Valid(s + t)
  }

  lemma {:induction false} CharLenLocal(s: seq<byte>, t: seq<byte>)
    ensures CharLen(s) > 0 ==> CharLen(s + t) == CharLen(s)
    ensures |s| >= 4 ==> CharLen(s + t) == CharLen(s)
  {
  }

  lemma {:induction false} ValidConcat(s: seq<byte>, t: seq<byte>)
    requires Valid(s)
    ensures Valid(s + t) <==> Valid(t)
    decreases |s|
  {
    if |s| == 0 {
      assert s + t == t;
    } else {
      CharLenLocal(s, t);
      var n := CharLen(s);
      assert (s + t)[n..] == s[n..] + t;
      ValidConcat(s[n..], t);
    }
  }

  /** `Longest` cuts off a valid prefix. */
  lemma {:induction false} LongestValid(s: seq<byte>)
    ensures Valid(s[..Longest(s)])
    decreases |s|
  {
    var n := CharLen(s);
    if n == 0 {
    } else {
      var rest := s[n..];
      LongestValid(rest);
      CharLenLocal(s[..n], rest);
      assert s[..n] + rest == s;
      assert CharLen(s[..n]) == n && |s[..n][n..]| == 0;
      ValidConcat(s[..n], rest[..Longest(rest)]);
      assert s[..n] + rest[..Longest(rest)] == s[..Longest(s)];
    }
  }

  /** No longer prefix is valid. */
  lemma {:induction false} LongestMaximal(s: seq<byte>, i: nat)
    requires i <= |s| && Valid(s[..i])
    ensures i <= Longest(s)
  {
    LongestConcat(s[..i], s[i..]);
    assert s[..i] + s[i..] == s;
  }

  /** Nothing is left to cut behind the longest valid prefix. */
  lemma {:induction false} LongestRest(s: seq<byte>)
    ensures CharLen(s[Longest(s)..]) == 0
    decreases |s|
  {
    var n := CharLen(s);
    if n == 0 {
      assert s[0..] == s;
    } else {
      LongestRest(s[n..]);
      assert s[n..][Longest(s[n..])..] == s[Longest(s)..];
    }
  }

  /** Behind a valid prefix, the longest valid prefix continues with that of the rest. */
  lemma {:induction false} LongestConcat(s: seq<byte>, t: seq<byte>)
    requires Valid(s)
    ensures Longest(s + t) == |s| + Longest(t)
    decreases |s|
  {
    if |s| == 0 {
      assert s + t == t;
    } else {
      CharLenLocal(s, t);
      var n := CharLen(s);
      assert (s + t)[n..] == s[n..] + t;
      LongestConcat(s[n..], t);
    }
  }

  /** A string that can still become valid ends in at most three bytes of an incomplete character. */
  lemma {:induction false} ExtensibleTail(s: seq<byte>)
    requires Extensible(s)
    ensures |s| - Longest(s) <= 3
  {
    var t :| Valid(s + t);
    TailIsShort(s, t, Longest(s));
  }

  lemma {:induction false} TailIsShort(s: seq<byte>, t: seq<byte>, n: nat)
    requires n == Longest(s) && Valid(s + t)
    ensures |s| - n <= 3
  {
    hide CharLen, Longest, Valid;
    var head, rest := s[..n], s[n..];
    LongestValid(s);
    LongestRest(s);
    assert head + (rest + t) == s + t by {
      assert head + rest == s;
    }
    ValidConcat(head, rest + t);
    IncompleteIsShort(rest, t);
  }

  lemma {:induction false} IncompleteIsShort(s: seq<byte>, t: seq<byte>)
    requires CharLen(s) == 0 && Valid(s + t)
    ensures |s| <= 3
  {
    CharLenLocal(s, t);
  }

  lemma {:induction false} ExtensiblePrefix(s: seq<byte>, t: seq<byte>)
    requires Extensible(s + t)
    ensures Extensible(s)
  {
    var u :| Valid(s + t + u);
    assert s + (t + u) == s + t + u;
  }

  // ---------- Encoded characters ----------

  /** A Unicode scalar value: a code point that is no surrogate. */
  predicate Scalar(c: nat) { c <= 0xD7FF || 0xE000 <= c <= 0x10FFFF }

  /** The UTF-8 form of a scalar value, six bits to a continuation byte. */
  function Encoding(c: nat): (s: seq<byte>)
    requires Scalar(c)
    ensures 1 <= |s| <= 4
  {
    if c < 0x80 then [c]
    else if c < 0x800 then [0xC0 + c / 0x40, 0x80 + c % 0x40]
    else if c < 0x1_0000 then [0xE0 + c / 0x1000, 0x80 + c / 0x40 % 0x40, 0x80 + c % 0x40]
    else [0xF0 + c / 0x4_0000, 0x80 + c / 0x1000 % 0x40, 0x80 + c / 0x40 % 0x40, 0x80 + c % 0x40]
  }

  /** Six payload bits appended to a number. */
  function Push(high: int, tail: int): int { high * 0x40 + (tail - 0x80) }

  /** The scalar value a character stands for. */
  function Decoding(s: seq<byte>): (c: int)
    requires CharLen(s) > 0
  {
    var n, lead: int := CharLen(s), s[0];
    if n == 1 then lead
    else if n == 2 then Push(lead - 0xC0, s[1])
    else if n == 3 then Push(Push(lead - 0xE0, s[1]), s[2])
    else Push(Push(Push(lead - 0xF0, s[1]), s[2]), s[3])
  }

  lemma {:induction false} Pop(high: int, tail: int)
    requires 0x80 <= tail <= 0xBF
    ensures Push(high, tail) / 0x40 == high && 0x80 + Push(high, tail) % 0x40 == tail
  {
  }

  lemma {:induction false} EncodingIsChar(c: nat, t: seq<byte>)
    requires Scalar(c)
    ensures CharLen(Encoding(c) + t) == |Encoding(c)|
  {
    EncodingStandsAlone(c);
    CharLenLocal(Encoding(c), t);
  }

  lemma {:induction false} EncodingStandsAlone(c: nat)
    requires Scalar(c)
    ensures CharLen(Encoding(c)) == |Encoding(c)|
  {
  }

  lemma {:induction false} TwoBytes(a: byte, b: byte)
    requires 0xC2 <= a <= 0xDF && Tail(b)
    ensures var c := Push(a as int - 0xC0, b); 0x80 <= c < 0x800 && Encoding(c) == [a, b]
  {
    Pop(a as int - 0xC0, b);
  }

  lemma {:induction false} ThreeBytes(a: byte, b: byte, d: byte)
    requires Lead3(a, b) && Tail(d)
    ensures var c := Push(Push(a as int - 0xE0, b), d); 0x800 <= c < 0x1_0000 && Scalar(c) && Encoding(c) == [a, b, d]
  {
    var high: int := a as int - 0xE0;
    Pop(high, b);
    Pop(Push(high, b), d);
    var c := Push(Push(high, b), d);
    assert c / 0x1000 == c / 0x40 / 0x40;
  }

  lemma {:induction false} FourBytes(a: byte, b: byte, d: byte, e: byte)
    requires Lead4(a, b) && Tail(d) && Tail(e)
    ensures var c := Push(Push(Push(a as int - 0xF0, b), d), e);
            0x1_0000 <= c && Scalar(c) && Encoding(c) == [a, b, d, e]
  {
    var high: int := a as int - 0xF0;
    Pop(high, b);
    Pop(Push(high, b), d);
    Pop(Push(Push(high, b), d), e);
    var c := Push(Push(Push(high, b), d), e);
    assert c / 0x1000 == c / 0x40 / 0x40;
    assert c / 0x4_0000 == c / 0x40 / 0x40 / 0x40;
  }

  lemma {:induction false} CharIsEncoding(s: seq<byte>)
    requires CharLen(s) > 0
    ensures Decoding(s) >= 0 && Scalar(Decoding(s)) && Encoding(Decoding(s)) == s[..CharLen(s)]
  {
    hide Encoding;
    var n := CharLen(s);
    if n == 1 {
      OneByte(s[0]);
      assert s[..1] == [s[0]];
    } else if n == 2 {
      TwoBytes(s[0], s[1]);
      assert s[..2] == [s[0], s[1]];
    } else if n == 3 {
      ThreeBytes(s[0], s[1], s[2]);
      assert s[..3] == [s[0], s[1], s[2]];
    } else {
      FourBytes(s[0], s[1], s[2], s[3]);
      assert s[..4] == [s[0], s[1], s[2], s[3]];
    }
  }

  lemma {:induction false} OneByte(a: byte)
    requires a <= 0x7F
    ensures Encoding(a) == [a]
  {
  }

  /** `c` is the scalar value whose UTF-8 form the first `n` bytes are. */
  predicate Begins(s: seq<byte>, n: nat, c: nat) {
    n <= |s| && Scalar(c) && Encoding(c) == s[..n]
  }

  /** A character of length `n` is at the head exactly if the first `n` bytes are the UTF-8 form of a scalar value. */
  lemma {:induction false} CharLenIff(s: seq<byte>, n: nat)
    requires n > 0
    ensures CharLen(s) == n <==> exists c: nat :: Begins(s, n, c)
  {
    if CharLen(s) == n {
      CharIsEncoding(s);
      assert Begins(s, n, Decoding(s));
    }
    if c: nat :| Begins(s, n, c) {
      EncodingIsChar(c, s[n..]);
      assert s == Encoding(c) + s[n..];
    }
  }

  predicate Scalars(cs: seq<nat>) { forall k :: 0 <= k < |cs| ==> Scalar(cs[k]) }

  function EncodeAll(cs: seq<nat>): seq<byte>
    requires Scalars(cs)
  {
    if |cs| == 0 then [] else Encoding(cs[0]) + EncodeAll(cs[1..])
  }

  lemma {:induction false} EncodeAllAppend(cs: seq<nat>, ds: seq<nat>)
    requires Scalars(cs) && Scalars(ds)
    ensures EncodeAll(cs + ds) == EncodeAll(cs) + EncodeAll(ds)
  {
    if |cs| == 0 {
      assert cs + ds == ds;
    } else {
      EncodeAllAppend(cs[1..], ds);
      assert (cs + ds)[1..] == cs[1..] + ds;
    }
  }

  ghost predicate IsText(s: seq<byte>) {
    exists cs :: Scalars(cs) && EncodeAll(cs) == s
  }

  lemma {:induction false} EncodeAllValid(cs: seq<nat>)
    requires Scalars(cs)
    ensures Valid(EncodeAll(cs))
  {
    if |cs| == 0 {
    } else {
      var head, rest := Encoding(cs[0]), EncodeAll(cs[1..]);
      EncodingIsChar(cs[0], rest);
      EncodeAllValid(cs[1..]);
      assert (head + rest)[|head|..] == rest;
    }
  }

  lemma {:induction false} EncodeAllHead(c: nat, cs: seq<nat>)
    requires Scalar(c) && Scalars(cs)
    ensures Scalars([c] + cs) && EncodeAll([c] + cs) == Encoding(c) + EncodeAll(cs)
  {
    hide Encoding;
    assert ([c] + cs)[1..] == cs;
  }

  lemma {:induction false} ValidIsText(s: seq<byte>) returns (cs: seq<nat>)
    requires Valid(s)
    ensures Scalars(cs) && EncodeAll(cs) == s
    decreases |s|
  {
    if |s| == 0 {
      cs := [];
    } else {
      hide Encoding, Decoding, CharLen, EncodeAll, Scalar, Valid;
      HeadAndRest(s);
      var rest := ValidIsText(s[CharLen(s)..]);
      cs := [Decoding(s)] + rest;
      EncodeAllHead(Decoding(s), rest);
    }
  }

  lemma {:induction false} HeadAndRest(s: seq<byte>)
    requires Valid(s) && |s| > 0
    ensures CharLen(s) > 0 && Valid(s[CharLen(s)..])
    ensures Decoding(s) >= 0 && Scalar(Decoding(s)) && s == Encoding(Decoding(s)) + s[CharLen(s)..]
  {
    hide Encoding, Decoding, CharLen, Scalar;
    CharIsEncoding(s);
    assert s == s[..CharLen(s)] + s[CharLen(s)..];
  }

  /** Validity says what it should: the bytes are the UTF-8 form of a sequence of scalar values. */
  lemma {:induction false} ValidIff(s: seq<byte>)
    ensures Valid(s) <==> IsText(s)
  {
    if Valid(s) {
      var cs := ValidIsText(s);
    }
    if IsText(s) {
      var cs :| Scalars(cs) && EncodeAll(cs) == s;
      EncodeAllValid(cs);
    }
  }
}
