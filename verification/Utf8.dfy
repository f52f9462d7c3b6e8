/** Bounding text without breaking a character: well-formed UTF-8 as section 4 of RFC 3629
    spells it, the tail a sweep keeps of a pane and the head it keeps of an error message. */
module Utf8 {
  type Byte = x: int | 0 <= x < 256 witness 0
  type Bytes = seq<Byte>

  const UTF_MAX: nat := 4

  predicate Within(s: Bytes, i: nat, lo: int, hi: int) {
    i < |s| && lo <= s[i] <= hi
  }

  /** The width of the character at `i`, or 0 when none is well-formed there. */
  function Width(s: Bytes, i: nat): (w: nat)
    ensures w <= UTF_MAX && (w > 0 ==> i + w <= |s|)
  {
    if Within(s, i, 0x00, 0x7F) then 1
    else if Within(s, i, 0xC2, 0xDF) && Within(s, i + 1, 0x80, 0xBF) then 2
    else if && (|| (Within(s, i, 0xE0, 0xE0) && Within(s, i + 1, 0xA0, 0xBF))
                || (Within(s, i, 0xE1, 0xEC) && Within(s, i + 1, 0x80, 0xBF))
                || (Within(s, i, 0xED, 0xED) && Within(s, i + 1, 0x80, 0x9F))
                || (Within(s, i, 0xEE, 0xEF) && Within(s, i + 1, 0x80, 0xBF)))
            && Within(s, i + 2, 0x80, 0xBF) then 3
    else if && (|| (Within(s, i, 0xF0, 0xF0) && Within(s, i + 1, 0x90, 0xBF))
                || (Within(s, i, 0xF1, 0xF3) && Within(s, i + 1, 0x80, 0xBF))
                || (Within(s, i, 0xF4, 0xF4) && Within(s, i + 1, 0x80, 0x8F)))
            && Within(s, i + 2, 0x80, 0xBF) && Within(s, i + 3, 0x80, 0xBF) then 4
    else 0
  }

  predicate ValidFrom(s: Bytes, i: nat)
    requires i <= |s|
    decreases |s| - i
  {
    i == |s| || (Width(s, i) > 0 && ValidFrom(s, i + Width(s, i)))
  }

  predicate Valid(s: Bytes) { ValidFrom(s, 0) }

  predicate ValidTail(s: Bytes, b: nat) { b <= |s| && Valid(s[b..]) }

  predicate ValidHead(s: Bytes, n: nat) { n <= |s| && Valid(s[..n]) }

  lemma {:induction false} DropShifts(s: Bytes, a: nat, i: nat)
    requires a + i <= |s|
    ensures ValidFrom(s[a..], i) == ValidFrom(s, a + i)
    decreases |s| - i
  {
    if a + i < |s| {
      WidthShifts(s, a, i);
      var w := Width(s, a + i);
      if w > 0 {
        DropShifts(s, a, i + w);
      }
    }
  }

  lemma WidthShifts(s: Bytes, a: nat, i: nat)
    requires a + i <= |s|
    ensures Width(s[a..], i) == Width(s, a + i)
  {
    var t := s[a..];
    assert forall k: nat :: k < |t| ==> t[k] == s[a + k];
    assert i < |t| ==> t[i] == s[a + i];
    assert i + 1 < |t| ==> t[i + 1] == s[a + i + 1];
    assert i + 2 < |t| ==> t[i + 2] == s[a + i + 2];
    assert i + 3 < |t| ==> t[i + 3] == s[a + i + 3];
  }

  /** No character spans more than four bytes, so a boundary is at most three bytes on. */
  lemma {:induction false} BoundaryAfter(s: Bytes, i: nat, p: nat) returns (b: nat)
    requires i <= p <= |s| && ValidFrom(s, i)
    ensures p <= b <= |s| && b <= p + 3 && ValidFrom(s, b)
    decreases |s| - i
  {
    if i == p {
      b := i;
    } else if i + Width(s, i) <= p {
      b := BoundaryAfter(s, i + Width(s, i), p);
    } else {
      b := i + Width(s, i);
    }
  }

  /** Likewise at most three bytes back, and everything before it is well-formed. */
  lemma {:induction false} BoundaryBefore(s: Bytes, i: nat, p: nat) returns (b: nat)
    requires i <= p <= |s| && ValidFrom(s, i)
    ensures i <= b <= p <= b + 3 && ValidFrom(s[..b], i)
    decreases |s| - i
  {
    var w := if i < |s| then Width(s, i) else 0;
    if i < |s| && i + w <= p {
      b := BoundaryBefore(s, i + w, p);
      WidthOfPrefix(s, b, i);
    } else {
      b := i;
    }
  }

  lemma WidthOfPrefix(s: Bytes, b: nat, i: nat)
    requires i + Width(s, i) <= b <= |s| && Width(s, i) > 0
    ensures Width(s[..b], i) == Width(s, i)
  {
    forall k: nat, lo, hi | k < i + Width(s, i)
      ensures Within(s[..b], k, lo, hi) == Within(s, k, lo, hi)
    {
    }
  }

  // ----- encoded characters -----

  /** Unicode scalar values: code points without the surrogates. */
  type Scalar = c: int | 0 <= c <= 0x10FFFF && !(0xD800 <= c <= 0xDFFF) witness 0

  /** The encoding of one character, as section 3 of RFC 3629 fills the bits in. */
  function Encode(c: Scalar): Bytes {
    if c < 0x80 then [c]
    else if c < 0x800 then [0xC0 + c / 64, 0x80 + c % 64]
    else if c < 0x1_0000 then [0xE0 + c / 4096, 0x80 + c / 64 % 64, 0x80 + c % 64]
    else [0xF0 + c / 0x4_0000, 0x80 + c / 4096 % 64, 0x80 + c / 64 % 64, 0x80 + c % 64]
  }

  function EncodeAll(cs: seq<Scalar>): Bytes {
    if cs == [] then [] else Encode(cs[0]) + EncodeAll(cs[1..])
  }

  /** The six-bit digits of a number. */
  lemma SixBits(a: nat, b: nat, c: nat, d: nat)
    requires b < 64 && c < 64 && d < 64
    ensures var n := a * 0x4_0000 + b * 4096 + c * 64 + d;
            n / 0x4_0000 == a && n / 4096 % 64 == b && n / 64 % 64 == c && n % 64 == d
  {
    var n := a * 0x4_0000 + b * 4096 + c * 64 + d;
    assert n / 4096 == a * 64 + b;
    assert n / 64 == (a * 64 + b) * 64 + c;
  }

  /** An encoded character is recognised, whatever follows it. */
  lemma EncodedIsRead(c: Scalar, t: Bytes)
    ensures Width(Encode(c) + t, 0) == |Encode(c)|
  {
    var s := Encode(c) + t;
    assert forall k :: 0 <= k < |Encode(c)| ==> s[k] == Encode(c)[k];
    if 0x800 <= c < 0x1_0000 {
      assert c / 4096 <= 15;
    } else if c >= 0x1_0000 {
      assert c / 0x4_0000 <= 4;
    }
  }

  lemma DecodeTwo(x: Byte, y: Byte) returns (c: Scalar)
    requires 0xC2 <= x <= 0xDF && 0x80 <= y <= 0xBF
    ensures Encode(c) == [x, y]
  {
    var a: int, b: int := x, y;
    SixBits(0, 0, a - 0xC0, b - 0x80);
    c := (a - 0xC0) * 64 + (b - 0x80);
  }

  lemma DecodeThree(x: Byte, y: Byte, z: Byte) returns (c: Scalar)
    requires 0xE0 <= x <= 0xEF && 0x80 <= y <= 0xBF && 0x80 <= z <= 0xBF
    requires x == 0xE0 ==> y >= 0xA0
    requires x == 0xED ==> y <= 0x9F
    ensures Encode(c) == [x, y, z]
  {
    var a: int, b: int, d: int := x, y, z;
    SixBits(0, a - 0xE0, b - 0x80, d - 0x80);
    c := (a - 0xE0) * 4096 + (b - 0x80) * 64 + (d - 0x80);
  }

  lemma DecodeFour(x: Byte, y: Byte, z: Byte, u: Byte) returns (c: Scalar)
    requires 0xF0 <= x <= 0xF4 && 0x80 <= y <= 0xBF && 0x80 <= z <= 0xBF && 0x80 <= u <= 0xBF
    requires x == 0xF0 ==> y >= 0x90
    requires x == 0xF4 ==> y <= 0x8F
    ensures Encode(c) == [x, y, z, u]
  {
    var a: int, b: int, d: int, e: int := x, y, z, u;
    SixBits(a - 0xF0, b - 0x80, d - 0x80, e - 0x80);
    c := (a - 0xF0) * 0x4_0000 + (b - 0x80) * 4096 + (d - 0x80) * 64 + (e - 0x80);
  }

  /** Whatever is recognised is the encoding of a character. */
  lemma ReadIsEncoded(s: Bytes, i: nat) returns (c: Scalar)
    requires Width(s, i) > 0
    ensures i + Width(s, i) <= |s| && s[i..i + Width(s, i)] == Encode(c)
  {
    var w := Width(s, i);
    if w == 1 {
      c := s[i];
      assert s[i..i + 1] == [s[i]];
    } else {
      hide Encode;
      if w == 2 {
        c := DecodeTwo(s[i], s[i + 1]);
        assert s[i..i + 2] == [s[i], s[i + 1]];
      } else if w == 3 {
        c := DecodeThree(s[i], s[i + 1], s[i + 2]);
        assert s[i..i + 3] == [s[i], s[i + 1], s[i + 2]];
      } else {
        c := DecodeFour(s[i], s[i + 1], s[i + 2], s[i + 3]);
        assert s[i..i + 4] == [s[i], s[i + 1], s[i + 2], s[i + 3]];
      }
    }
  }

  lemma {:induction false} ValidDecodes(s: Bytes, i: nat) returns (cs: seq<Scalar>)
    requires i <= |s| && ValidFrom(s, i)
    ensures s[i..] == EncodeAll(cs)
    decreases |s| - i
  {
    if i == |s| {
      cs := [];
    } else {
      hide Width;
      var w := Width(s, i);
      var c := ReadIsEncoded(s, i);
      var rest := ValidDecodes(s, i + w);
      hide Encode;
      cs := [c] + rest;
      assert cs[1..] == rest && s[i..] == s[i..i + w] + s[i + w..];
    }
  }

  lemma {:induction false} EncodedIsValid(cs: seq<Scalar>)
    ensures Valid(EncodeAll(cs))
  {
    if cs != [] {
      var first := Encode(cs[0]);
      EncodedIsRead(cs[0], []);
      assert first + [] == first;
      EncodedIsValid(cs[1..]);
      hide Encode;
      ValidAppend(first, EncodeAll(cs[1..]), 0);
    }
  }

  /** Well-formed text is exactly a sequence of encoded characters. */
  lemma ValidExactly(s: Bytes)
    ensures Valid(s) <==> exists cs :: s == EncodeAll(cs)
  {
    if Valid(s) {
      var cs := ValidDecodes(s, 0);
      assert s[0..] == s;
    }
    if cs :| s == EncodeAll(cs) {
      EncodedIsValid(cs);
    }
  }

  /** The first suffix, among `tries` starting at `start`, that begins a character. */
  function KeepFrom(s: Bytes, start: nat, tries: nat): Bytes
    requires start + tries <= |s|
    decreases tries
  {
    if tries == 0 then [] else if ValidTail(s, start) then s[start..] else KeepFrom(s, start + 1, tries - 1)
  }

  function Tries(max: int): nat { if max <= 0 then 0 else if max < UTF_MAX then max else UTF_MAX }

  predicate Cuts(text: Bytes, max: int) { 0 < max < |text| }

  function Tail(text: Bytes, max: int): Bytes {
    if Cuts(text, max) then KeepFrom(text, |text| - max, Tries(max)) else text
  }

  method TruncateTail(text: Bytes, max: int) returns (out: Bytes, truncated: bool)
    ensures out == Tail(text, max)
    ensures truncated == Cuts(text, max)
  {
    hide Valid;
    if max <= 0 || |text| <= max {
      return text, false;
    }
    var start := |text| - max;
    var cut := text[start..];
    var i := 0;
    while i < |cut| && i < UTF_MAX
      invariant i <= Tries(max)
      invariant Tail(text, max) == KeepFrom(text, start + i, Tries(max) - i)
    {
      assert cut[i..] == text[start + i..];
      if Valid(cut[i..]) {
        return cut[i..], true;
      }
      i := i + 1;
    }
    return [], true;
  }

  /** `t` is the longest well-formed suffix of `text` that fits in `max` bytes. */
  ghost predicate LongestTail(text: Bytes, max: nat, t: Bytes)
    requires max <= |text|
  {
    && |t| <= max && t == text[|text| - |t|..] && Valid(t)
    && forall b :: |text| - max <= b < |text| - |t| ==> !ValidTail(text, b)
  }

  lemma {:induction false} KeepFromFinds(s: Bytes, start: nat, tries: nat)
    requires start + tries <= |s|
    ensures var t := KeepFrom(s, start, tries);
            && Valid(t) && |t| <= |s| - start && t == s[|s| - |t|..]
            && (t != [] ==> |s| - |t| < start + tries)
            && (forall b :: start <= b < start + tries && b < |s| - |t| ==> !ValidTail(s, b))
    decreases tries
  {
    if tries > 0 && !ValidTail(s, start) {
      KeepFromFinds(s, start + 1, tries - 1);
    }
  }

  /** Truncating well-formed text loses at most three bytes more than the cap asks for, and
      keeps the longest well-formed tail the cap allows, however small the cap is. */
  lemma TailIsLongest(text: Bytes, max: nat)
    requires Valid(text) && Cuts(text, max)
    ensures LongestTail(text, max, Tail(text, max))
    ensures |Tail(text, max)| + 3 >= max
  {
    hide KeepFrom, ValidFrom;
    KeepFromFinds(text, |text| - max, Tries(max));
    var b := BoundaryAfter(text, 0, |text| - max);
    DropShifts(text, b, 0);
    assert ValidTail(text, b);
  }

  /** Whatever the text, a truncated tail is well-formed, within the cap and a suffix; it is
      the longest such suffix unless that one starts more than three bytes into the cap, and
      then it is empty. */
  lemma TailExactly(text: Bytes, max: nat)
    requires Cuts(text, max)
    ensures var t := Tail(text, max);
            && Valid(t) && |t| <= max && t == text[|text| - |t|..]
            && (t != [] ==> LongestTail(text, max, t) && |t| + 3 >= max)
            && (t == [] ==> forall b :: |text| - max <= b < |text| - max + Tries(max) ==> !ValidTail(text, b))
  {
    hide KeepFrom, ValidFrom;
    KeepFromFinds(text, |text| - max, Tries(max));
  }

  const MAX_DETAIL: nat := 240
  const ELLIPSIS: Bytes := [46, 46, 46]

  /** One bounded line of an error message whose white space has been collapsed. A long
      message keeps its longest well-formed head within the bound, at most three bytes short of it when
      the message was well-formed. The line is well-formed exactly when it was shortened or
      the message already was: a short malformed message is passed on as it is. */
  method ErrDetail(msg: Bytes) returns (out: Bytes)
    ensures |msg| <= 240 ==> out == msg
    ensures |msg| > 240 ==> exists n: nat :: LongestHead(msg, n) && out == msg[..n] + [46, 46, 46]
    ensures Valid(out) <==> |msg| > 240 || Valid(msg)
    ensures Valid(msg) && |msg| > 240 ==> |out| >= 240
  {
    if |msg| <= MAX_DETAIL {
      return msg;
    }
    var cut := msg[..MAX_DETAIL];
    while |cut| > 0 && !Valid(cut)
      invariant |cut| <= MAX_DETAIL && cut == msg[..|cut|]
      invariant forall k :: |cut| < k <= MAX_DETAIL ==> !ValidHead(msg, k)
    {
      cut := cut[..|cut| - 1];
    }
    assert LongestHead(msg, |cut|);
    HeadIsValid(msg, |cut|);
    if Valid(msg) {
      HeadKeepsAlmostAll(msg, |cut|);
    }
    out := cut + ELLIPSIS;
  }

  /** The first `n` bytes are the longest well-formed head within the bound. */
  ghost predicate LongestHead(msg: Bytes, n: nat) {
    && n <= MAX_DETAIL <= |msg| && ValidHead(msg, n)
    && forall k :: n < k <= MAX_DETAIL ==> !ValidHead(msg, k)
  }

  /** A well-formed message loses at most three bytes to the boundary. */
  lemma HeadKeepsAlmostAll(msg: Bytes, n: nat)
    requires LongestHead(msg, n) && Valid(msg)
    ensures n >= MAX_DETAIL - 3
  {
    var b := BoundaryBefore(msg, 0, MAX_DETAIL);
    assert ValidHead(msg, b);
  }

  lemma {:induction false} ValidAppend(s: Bytes, t: Bytes, i: nat)
    requires i <= |s| && ValidFrom(s, i) && Valid(t)
    ensures ValidFrom(s + t, i)
    decreases |s| - i
  {
    var all := s + t;
    if i == |s| {
      assert all[i..] == t;
      DropShifts(all, i, 0);
    } else {
      var w := Width(s, i);
      assert all[..|s|] == s;
      WidthGrows(all, |s|, i);
      ValidAppend(s, t, i + w);
    }
  }

  lemma WidthGrows(s: Bytes, b: nat, i: nat)
    requires i < b <= |s| && Width(s[..b], i) > 0
    ensures Width(s, i) == Width(s[..b], i)
  {
    forall k: nat, lo, hi | k < b
      ensures Within(s[..b], k, lo, hi) == Within(s, k, lo, hi)
    {
    }
  }

  lemma HeadIsValid(msg: Bytes, n: nat)
    requires LongestHead(msg, n)
    ensures Valid(msg[..n] + ELLIPSIS)
  {
    assert Width(ELLIPSIS, 0) == 1 && Width(ELLIPSIS, 1) == 1 && Width(ELLIPSIS, 2) == 1;
    assert ValidFrom(ELLIPSIS, 2) && ValidFrom(ELLIPSIS, 1);
    ValidAppend(msg[..n], ELLIPSIS, 0);
  }
}
