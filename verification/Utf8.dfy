/** UTF-8 as sections 3 and 4 of RFC 3629 define it. */
module Utf8 {
  import opened Prelude

  type Bytes = seq<byte>

  predicate Tail(b: byte) { 0x80 <= b <= 0xBF }

  /** Length of the well-formed sequence at the start of `s`, or 0 when there is none. */
  function SequenceLength(s: Bytes): (n: nat)
    ensures n <= 4 && n <= |s|
  {
    if s == [] then 0
    else if s[0] <= 0x7F then 1
    else if |s| >= 2 && 0xC2 <= s[0] <= 0xDF && Tail(s[1]) then 2
    else if |s| >= 3 && SecondOfThree(s[0], s[1]) && Tail(s[2]) then 3
    else if |s| >= 4 && SecondOfFour(s[0], s[1]) && Tail(s[2]) && Tail(s[3]) then 4
    else 0
  }

  predicate SecondOfThree(a: byte, b: byte)
  {
    || (a == 0xE0 && 0xA0 <= b <= 0xBF)
    || (0xE1 <= a <= 0xEC && Tail(b))
    || (a == 0xED && 0x80 <= b <= 0x9F)
    || (0xEE <= a <= 0xEF && Tail(b))
  }

  predicate SecondOfFour(a: byte, b: byte)
  {
    || (a == 0xF0 && 0x90 <= b <= 0xBF)
    || (0xF1 <= a <= 0xF3 && Tail(b))
    || (a == 0xF4 && 0x80 <= b <= 0x8F)
  }

  /** Length of the longest prefix made of complete sequences. */
  function ValidUpTo(s: Bytes): (n: nat)
    ensures n <= |s|
    decreases |s|
  {
    var n := SequenceLength(s);
    if n == 0 then 0 else n + ValidUpTo(s[n..])
  }

  predicate Valid(s: Bytes) { ValidUpTo(s) == |s| }

  // ----- encoding

  function EncodeChar(c: char): (s: Bytes)
    ensures 1 <= |s| <= 4
  {
    var n := c as int;
    if n < 0x80 then [n]
    else if n < 0x800 then [0xC0 + n / 64, 0x80 + n % 64]
    else if n < 0x10000 then [0xE0 + n / 4096, 0x80 + n / 64 % 64, 0x80 + n % 64]
    else [0xF0 + n / 262144, 0x80 + n / 4096 % 64, 0x80 + n / 64 % 64, 0x80 + n % 64]
  }

  function Encode(text: string): Bytes
  {
    if text == [] then [] else EncodeChar(text[0]) + Encode(text[1..])
  }

  /** Code point of the sequence at the start of `s`. */
  function CodePoint(s: Bytes): int
    requires SequenceLength(s) > 0
  {
    match SequenceLength(s)
    case 1 => s[0]
    case 2 => (s[0] as int - 0xC0) * 64 + (s[1] - 0x80)
    case 3 => (s[0] as int - 0xE0) * 4096 + (s[1] as int - 0x80) * 64 + (s[2] - 0x80)
    case _ => (s[0] as int - 0xF0) * 262144 + (s[1] as int - 0x80) * 4096 + (s[2] as int - 0x80) * 64 + (s[3] - 0x80)
  }

  /** The bytes of an encoded character are one well-formed sequence that decodes to it. */
  lemma EncodedCharDecodes(c: char)
    ensures SequenceLength(EncodeChar(c)) == |EncodeChar(c)|
    ensures CodePoint(EncodeChar(c)) == c as int
  {
    var n := c as int;
    if 0x800 <= n < 0x10000 {
      assert n / 64 / 64 == n / 4096;
    } else if 0x10000 <= n {
      assert n / 4096 / 64 == n / 262144;
      assert n / 64 / 64 == n / 4096;
    }
  }

  /** So they are whatever follows. */
  lemma EncodedCharIsSequence(c: char, rest: Bytes)
    ensures SequenceLength(EncodeChar(c) + rest) == |EncodeChar(c)|
    ensures CodePoint(EncodeChar(c) + rest) == c as int
  {
    EncodedCharDecodes(c);
    var s, head := EncodeChar(c) + rest, EncodeChar(c);
    assert s[0] == head[0];
    assert |head| >= 2 ==> s[1] == head[1];
    assert |head| >= 3 ==> s[2] == head[2];
    assert |head| >= 4 ==> s[3] == head[3];
  }

  /** Every text encodes to valid UTF-8. */
  lemma {:induction false} EncodedTextIsValid(text: string)
    ensures Valid(Encode(text))
  {
    if text != [] {
      var head, rest := EncodeChar(text[0]), Encode(text[1..]);
      EncodedTextIsValid(text[1..]);
      EncodedCharIsSequence(text[0], rest);
      assert (head + rest)[|head|..] == rest;
    }
  }

  /** Two texts with the same encoding are the same text. */
  lemma {:induction false} EncodeInjective(a: string, b: string)
    requires Encode(a) == Encode(b)
    ensures a == b
  {
    if a != [] && b != [] {
      var x, y := EncodeChar(a[0]), EncodeChar(b[0]);
      EncodedCharIsSequence(a[0], Encode(a[1..]));
      EncodedCharIsSequence(b[0], Encode(b[1..]));
      assert Encode(a)[|x|..] == Encode(a[1..]);
      assert Encode(b)[|y|..] == Encode(b[1..]);
      EncodeInjective(a[1..], b[1..]);
    }
  }

  /** A well-formed sequence is the encoding of its code point, which is a character. */
  lemma SequenceIsEncodedChar(s: Bytes)
    requires SequenceLength(s) > 0
    ensures 0 <= CodePoint(s) < 0xD800 || 0xE000 <= CodePoint(s) < 0x110000
    ensures EncodeChar(CodePoint(s) as char) == s[..SequenceLength(s)]
  {
    match SequenceLength(s)
    case 1 =>
    case 2 => TwoBytes(s);
    case 3 => ThreeBytes(s);
    case 4 => FourBytes(s);
  }

  lemma TwoBytes(s: Bytes)
    requires SequenceLength(s) == 2
    ensures 0x80 <= CodePoint(s) < 0x800 && EncodeChar(CodePoint(s) as char) == s[..2]
  {
    var x, y := s[0] as int - 0xC0, s[1] as int - 0x80;
    Digits(x, y);
  }

  lemma ThreeBytes(s: Bytes)
    requires SequenceLength(s) == 3
    ensures 0x800 <= CodePoint(s) < 0xD800 || 0xE000 <= CodePoint(s) < 0x10000
    ensures EncodeChar(CodePoint(s) as char) == s[..3]
  {
    var x, y, z := s[0] as int - 0xE0, s[1] as int - 0x80, s[2] as int - 0x80;
    Digits(x * 64 + y, z);
    Digits(x, y);
    assert CodePoint(s) == (x * 64 + y) * 64 + z;
    assert CodePoint(s) / 4096 == CodePoint(s) / 64 / 64;
  }

  lemma FourBytes(s: Bytes)
    requires SequenceLength(s) == 4
    ensures 0x10000 <= CodePoint(s) < 0x110000 && EncodeChar(CodePoint(s) as char) == s[..4]
  {
    var x, y, z, w := s[0] as int - 0xF0, s[1] as int - 0x80, s[2] as int - 0x80, s[3] as int - 0x80;
    var n := CodePoint(s);
    Digits((x * 64 + y) * 64 + z, w);
    Digits(x * 64 + y, z);
    Digits(x, y);
    assert n == ((x * 64 + y) * 64 + z) * 64 + w;
    assert n / 4096 == n / 64 / 64 && n / 262144 == n / 64 / 64 / 64;
  }

  lemma Digits(high: int, low: int)
    requires 0 <= low < 64
    ensures (high * 64 + low) / 64 == high && (high * 64 + low) % 64 == low
  {
  }

  /** Every valid byte string is the encoding of a text. */
  lemma {:induction false} ValidIsEncoded(s: Bytes) returns (text: string)
    requires Valid(s)
    ensures Encode(text) == s
    decreases |s|
  {
    var n := SequenceLength(s);
    if n == 0 {
      text := "";
    } else {
      assert ValidUpTo(s) == n + ValidUpTo(s[n..]);
      var rest := ValidIsEncoded(s[n..]);
      text := EncodedBefore(s, rest);
    }
  }

  /** One more sequence in front is one more character in front. */
  lemma EncodedBefore(s: Bytes, rest: string) returns (text: string)
    requires SequenceLength(s) > 0 && Encode(rest) == s[SequenceLength(s)..]
    ensures Encode(text) == s
  {
    var n := SequenceLength(s);
    SequenceIsEncodedChar(s);
    text := [CodePoint(s) as char] + rest;
    assert text[1..] == rest;
    assert Encode(text) == s[..n] + Encode(rest);
    assert s == s[..n] + s[n..];
  }

  // ----- cutting

  /** A cut that leaves the whole first sequence keeps it; a shorter cut leaves no sequence at all. */
  lemma CutSequence(s: Bytes, cut: nat)
    requires cut <= |s| && SequenceLength(s) > 0
    ensures SequenceLength(s[..cut]) == if SequenceLength(s) <= cut then SequenceLength(s) else 0
  {
  }

  /** The longest valid prefix is valid. */
  lemma {:induction false} PrefixIsValid(s: Bytes)
    ensures Valid(s[..ValidUpTo(s)])
    decreases |s|
  {
    var n, k := SequenceLength(s), ValidUpTo(s);
    if n > 0 {
      PrefixIsValid(s[n..]);
      CutSequence(s, k);
      assert s[..k][n..] == s[n..][..k - n];
    }
  }

  /** And no longer prefix is. */
  lemma {:induction false} PrefixIsLongest(s: Bytes, k: nat)
    requires ValidUpTo(s) < k <= |s|
    ensures !Valid(s[..k])
    decreases |s|
  {
    var n := SequenceLength(s);
    if n > 0 {
      CutSequence(s, k);
      PrefixIsLongest(s[n..], k - n);
      assert s[..k][n..] == s[n..][..k - n];
    } else {
      NoSequenceInCut(s, k);
    }
  }

  lemma NoSequenceInCut(s: Bytes, k: nat)
    requires SequenceLength(s) == 0 && k <= |s|
    ensures SequenceLength(s[..k]) == 0
  {
  }

  /** The first sequence of a valid text survives a cut behind it. */
  lemma CutStep(s: Bytes, cut: nat)
    requires Valid(s) && SequenceLength(s) <= cut <= |s| && s != []
    ensures 0 < SequenceLength(s) && Valid(s[SequenceLength(s)..])
    ensures ValidUpTo(s[..cut]) == SequenceLength(s) + ValidUpTo(s[SequenceLength(s)..][..cut - SequenceLength(s)])
  {
    var n := SequenceLength(s);
    CutSequence(s, cut);
    assert s[..cut][n..] == s[n..][..cut - n];
  }

  lemma {:induction false} CutLosesAtMostThree(s: Bytes, cut: nat)
    requires Valid(s) && cut <= |s|
    ensures cut - 3 <= ValidUpTo(s[..cut]) <= cut
    decreases |s|
  {
    var n := SequenceLength(s);
    if s != [] && n <= cut {
      CutStep(s, cut);
      CutLosesAtMostThree(s[n..], cut - n);
    }
  }

  /** `k` is the end of some sequence of `s`, or its start. */
  predicate Boundary(s: Bytes, k: nat)
    requires k <= |s|
    decreases |s|
  {
    k == 0 || (0 < SequenceLength(s) <= k && Boundary(s[SequenceLength(s)..], k - SequenceLength(s)))
  }

  lemma {:induction false} CutEndsOnBoundary(s: Bytes, cut: nat)
    requires Valid(s) && cut <= |s|
    ensures Boundary(s, ValidUpTo(s[..cut]))
    decreases |s|
  {
    var n := SequenceLength(s);
    if s == [] || n > cut {
      ShortCutKeepsNothing(s, cut);
    } else {
      CutStep(s, cut);
      CutEndsOnBoundary(s[n..], cut - n);
    }
  }

  lemma {:induction false} BehindBoundaryIsValid(s: Bytes, k: nat)
    requires k <= |s| && Boundary(s, k)
    ensures ValidUpTo(s) == k + ValidUpTo(s[k..])
    decreases |s|
  {
    if k == 0 {
      assert s[0..] == s;
    } else {
      var n := SequenceLength(s);
      BehindBoundaryIsValid(s[n..], k - n);
      assert s[n..][k - n..] == s[k..];
    }
  }

  lemma ShortCutKeepsNothing(s: Bytes, cut: nat)
    requires cut <= |s| && (s == [] || cut < SequenceLength(s))
    ensures ValidUpTo(s[..cut]) == 0
  {
    if s != [] {
      CutSequence(s, cut);
    }
  }

  /** Cutting valid text loses at most three bytes of a straddling sequence, and both parts of the kept cut are valid. */
  lemma CutValid(s: Bytes, cut: nat)
    requires Valid(s) && cut <= |s|
    ensures var k := ValidUpTo(s[..cut]);
            cut - 3 <= k <= cut && Valid(s[..k]) && Valid(s[k..])
  {
    CutLosesAtMostThree(s, cut);
    PrefixIsValid(s[..cut]);
    CutEndsOnBoundary(s, cut);
    BehindBoundaryIsValid(s, ValidUpTo(s[..cut]));
    assert s[..cut][..ValidUpTo(s[..cut])] == s[..ValidUpTo(s[..cut])];
  }
}
