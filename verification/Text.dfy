/** The string operations of Go's standard library that the modelled code relies on.
    A `char` is a Unicode scalar value, so comparing strings character by character
    agrees with Go's byte-wise comparison of their UTF-8 encodings. */
module Text {

  datatype Option<+T> = None | Some(value: T)

  const MAX_INT64: int := 0x7fff_ffff_ffff_ffff
  const MIN_INT64: int := -0x8000_0000_0000_0000

  /** unicode.IsSpace */
  predicate IsSpace(c: char) {
    || '\t' <= c <= '\r' || c == ' ' || c == '\U{0085}' || c == '\U{00A0}' || c == '\U{1680}'
    || '\U{2000}' <= c <= '\U{200A}' || c == '\U{2028}' || c == '\U{2029}' || c == '\U{202F}'
    || c == '\U{205F}' || c == '\U{3000}'
  }

  /** No white space anywhere, so `Fields` never cuts `s`. */
  ghost predicate Solid(s: string) {
    forall i :: 0 <= i < |s| ==> !IsSpace(s[i])
  }

  /** Length of the longest white-space-free prefix. */
  function WordLength(s: string): (n: nat)
    ensures n <= |s|
    ensures Solid(s[..n])
    ensures n < |s| ==> IsSpace(s[n])
  {
    if s == [] || IsSpace(s[0]) then 0
    else
      var n := WordLength(s[1..]);
      assert s[..n + 1] == [s[0]] + s[1..][..n];
      n + 1
  }

  /** strings.Fields */
  function Fields(s: string): (words: seq<string>)
    ensures forall i :: 0 <= i < |words| ==> words[i] != [] && Solid(words[i])
  {
    if s == [] then []
    else if IsSpace(s[0]) then Fields(s[1..])
    else
      var n := WordLength(s);
      [s[..n]] + Fields(s[n..])
  }

  lemma {:induction false} WordLengthOf(word: string, sep: char, rest: string)
    requires Solid(word) && IsSpace(sep)
    ensures WordLength(word + [sep] + rest) == |word|
  {
    var s := word + [sep] + rest;
    if word == [] {
      assert s[0] == sep;
    } else {
      assert s[1..] == word[1..] + [sep] + rest;
      WordLengthOf(word[1..], sep, rest);
    }
  }

  /** One word followed by a separator is the first field. */
  lemma FieldsOfWord(word: string, sep: char, rest: string)
    requires word != [] && Solid(word) && IsSpace(sep)
    ensures Fields(word + [sep] + rest) == [word] + Fields(rest)
  {
    var s := word + [sep] + rest;
    WordLengthOf(word, sep, rest);
    assert s[..|word|] == word;
    assert s[|word|..] == [sep] + rest;
    assert ([sep] + rest)[1..] == rest;
    assert Fields([sep] + rest) == Fields(rest);
  }

  /** White space in front is skipped, and a last word needs nothing behind it. */
  lemma FieldsAround(word: string, sep: char, rest: string)
    requires word != [] && Solid(word) && IsSpace(sep)
    ensures Fields([]) == [] && Fields([sep] + rest) == Fields(rest) && Fields(word) == [word]
  {
    assert ([sep] + rest)[1..] == rest;
    assert WordLength(word) == |word| && word[..|word|] == word && word[|word|..] == [];
  }

  /** The white space among the ASCII characters. */
  lemma AsciiSpaces(c: char)
    requires c <= '\U{007F}'
    ensures IsSpace(c) <==> c == ' ' || c == '\t' || c == '\n' || c == '\r' || c == '\U{000B}' || c == '\U{000C}'
  {
  }

  /** strings.TrimSpace(s) == "" */
  predicate IsBlank(s: string) {
    forall i :: 0 <= i < |s| ==> IsSpace(s[i])
  }

  /** strings.TrimSpace */
  function Trim(s: string): (t: string)
    ensures t == "" <==> IsBlank(s)
    ensures t != "" ==> !IsSpace(t[0]) && !IsSpace(t[|t| - 1])
  {
    if s == [] then []
    else if IsSpace(s[0]) then
      assert s == [s[0]] + s[1..];
      Trim(s[1..])
    else if IsSpace(s[|s| - 1]) then Trim(s[..|s| - 1])
    else s
  }

  /** Trimming takes exactly the white space at both ends away. */
  lemma {:induction false} TrimExactly(front: string, core: string, back: string)
    requires IsBlank(front) && IsBlank(back)
    requires core == "" || (!IsSpace(core[0]) && !IsSpace(core[|core| - 1]))
    ensures Trim(front + core + back) == core
    decreases |front| + |back|
  {
    var s := front + core + back;
    if core == "" {
      assert IsBlank(s);
    } else if front != [] {
      assert s[0] == front[0] && s[1..] == front[1..] + core + back;
      TrimExactly(front[1..], core, back);
    } else if back != [] {
      var rest := back[..|back| - 1];
      assert s[0] == core[0] && s[|s| - 1] == back[|back| - 1] && s[..|s| - 1] == front + core + rest;
      TrimExactly(front, core, rest);
    } else {
      assert s == core;
    }
  }

  /** strings.HasPrefix */
  predicate HasPrefix(s: string, prefix: string) {
    |prefix| <= |s| && s[..|prefix|] == prefix
  }

  /** Position of the first `c`, or |s|. */
  function IndexOf(s: string, c: char): (i: nat)
    ensures i <= |s|
    ensures c !in s[..i]
    ensures i < |s| ==> s[i] == c
  {
    if s == [] || s[0] == c then 0
    else
      var i := IndexOf(s[1..], c);
      assert s[..i + 1] == [s[0]] + s[1..][..i];
      i + 1
  }

  /** strings.Split on a one-character separator */
  function Split(s: string, sep: char): (parts: seq<string>)
    ensures parts != []
  {
    var i := IndexOf(s, sep);
    if i == |s| then [s] else [s[..i]] + Split(s[i + 1..], sep)
  }

  lemma SplitWhole(s: string, sep: char)
    requires sep !in s
    ensures Split(s, sep) == [s]
  {
  }

  lemma SplitCut(left: string, sep: char, right: string)
    requires sep !in left
    ensures Split(left + [sep] + right, sep) == [left] + Split(right, sep)
  {
    var s := left + [sep] + right;
    IndexOfFirst(left, sep, right);
    assert s[..|left|] == left && s[|left| + 1..] == right;
  }

  lemma {:induction false} IndexOfFirst(left: string, c: char, right: string)
    requires c !in left
    ensures IndexOf(left + [c] + right, c) == |left|
  {
    var s := left + [c] + right;
    if left == [] {
      assert s[0] == c;
    } else {
      assert s[0] == left[0];
      assert s[1..] == left[1..] + [c] + right;
      IndexOfFirst(left[1..], c, right);
    }
  }

  predicate IsDigit(c: char) { '0' <= c <= '9' }

  predicate AllDigits(s: string) {
    forall i :: 0 <= i < |s| ==> IsDigit(s[i])
  }

  function Digit(c: char): (d: nat)
    requires IsDigit(c)
    ensures d < 10
  {
    c as int - '0' as int
  }

  function DigitChar(d: nat): (c: char)
    requires d < 10
    ensures IsDigit(c) && Digit(c) == d
  {
    ('0' as int + d) as char
  }

  /** The number a string of decimal digits denotes. */
  function DigitsValue(s: string): nat
    requires AllDigits(s)
  {
    if s == [] then 0 else DigitsValue(s[..|s| - 1]) * 10 + Digit(s[|s| - 1])
  }

  /** strconv.Itoa for the non-negative numbers the code prints. */
  function Itoa(n: nat): (s: string)
    ensures s != [] && AllDigits(s)
    ensures DigitsValue(s) == n
    ensures n > 0 ==> s[0] != '0'
  {
    if n < 10 then
      var s := [DigitChar(n)];
      assert s[..0] == [];
      s
    else
      var front := Itoa(n / 10);
      var s := front + [DigitChar(n % 10)];
      assert s[..|s| - 1] == front;
      s
  }

  /** strconv.FormatInt in base 10 */
  function Numeral(n: int): string {
    if n < 0 then "-" + Itoa(-n) else Itoa(n)
  }

  lemma ItoaInjective(m: nat, n: nat)
    requires Itoa(m) == Itoa(n)
    ensures m == n
  {
    assert m == DigitsValue(Itoa(m));
  }

  lemma ItoaSolid(n: nat)
    ensures Solid(Itoa(n))
    ensures '=' !in Itoa(n)
  {
    var s := Itoa(n);
    assert forall i :: 0 <= i < |s| ==> IsDigit(s[i]);
  }

  lemma ItoaAppend(v: nat, d: nat)
    requires d < 10
    ensures Itoa(v * 10 + d) == if v == 0 then [DigitChar(d)] else Itoa(v) + [DigitChar(d)]
  {
    var w := v * 10 + d;
    assert w / 10 == v && w % 10 == d;
  }

  predicate AllZeros(s: string) { forall i :: 0 <= i < |s| ==> s[i] == '0' }

  lemma DigitsValueAppend(front: string, last: char)
    requires AllDigits(front) && IsDigit(last)
    ensures AllDigits(front + [last]) && DigitsValue(front + [last]) == DigitsValue(front) * 10 + Digit(last)
  {
    var s := front + [last];
    assert s[..|s| - 1] == front && s[|s| - 1] == last;
  }

  /** One more digit behind leading zeros and a canonical numeral. */
  lemma NumeralAppend(zeros: string, v: nat, last: char) returns (more: string)
    requires AllZeros(zeros) && IsDigit(last)
    ensures AllZeros(more) && zeros + Itoa(v) + [last] == more + Itoa(v * 10 + Digit(last))
  {
    assert DigitChar(Digit(last)) == last && DigitChar(0) == '0';
    ItoaAppend(v, Digit(last));
    ItoaAppend(0, 0);
    hide Itoa;
    more := if v == 0 then zeros + "0" else zeros;
  }

  lemma OneDigit(last: char) returns (zeros: string)
    requires IsDigit(last)
    ensures AllZeros(zeros) && AllDigits([last]) && [last] == zeros + Itoa(DigitsValue([last]))
  {
    DigitsValueAppend([], last);
    ItoaAppend(0, Digit(last));
    assert DigitChar(Digit(last)) == last && [] + [last] == [last];
    zeros := [];
  }

  lemma LastDigit(s: string)
    requires s != [] && AllDigits(s)
    ensures var front, last := s[..|s| - 1], s[|s| - 1];
            && s == front + [last] && AllDigits(front) && IsDigit(last)
            && DigitsValue(s) == DigitsValue(front) * 10 + Digit(last)
  {
  }

  /** A digit string is the canonical numeral of its value behind leading zeros. */
  lemma {:induction false} CanonicalNumeral(s: string) returns (zeros: string)
    requires s != [] && AllDigits(s)
    ensures s == zeros + Itoa(DigitsValue(s))
    ensures AllZeros(zeros)
  {
    hide *;
    LastDigit(s);
    var front, last := s[..|s| - 1], s[|s| - 1];
    if front == [] {
      assert s == [last];
      zeros := OneDigit(last);
    } else {
      var z := CanonicalNumeral(front);
      zeros := NumeralAppend(z, DigitsValue(front), last);
    }
  }

  /** strconv.ParseInt(s, 10, 64) and strconv.Atoi: an optional sign, at least one
      digit, nothing else, and a value in the int64 range. */
  function ParseInt(s: string): (n: Option<int>)
    ensures n.Some? ==> MIN_INT64 <= n.value <= MAX_INT64
  {
    var signed := s != [] && (s[0] == '-' || s[0] == '+');
    var digits := if signed then s[1..] else s;
    if digits == [] || !AllDigits(digits) then None
    else
      var v: int := if signed && s[0] == '-' then 0 - DigitsValue(digits) else DigitsValue(digits);
      if MIN_INT64 <= v <= MAX_INT64 then Some(v) else None
  }

  function Within64(v: int): Option<int> { if -0x8000_0000_0000_0000 <= v <= 0x7fff_ffff_ffff_ffff then Some(v) else None }

  /** A numeral is digits with at most one sign in front, and denotes itself if it fits. */
  lemma ParseIntOf(digits: string)
    requires digits != [] && AllDigits(digits)
    ensures ParseInt(digits) == Within64(DigitsValue(digits))
    ensures ParseInt("+" + digits) == Within64(DigitsValue(digits))
    ensures ParseInt("-" + digits) == Within64(0 - DigitsValue(digits))
  {
    assert IsDigit(digits[0]);
    assert ("+" + digits)[1..] == digits && ("-" + digits)[1..] == digits;
  }

  /** Nothing else is a numeral. */
  lemma ParseIntOnly(s: string)
    requires ParseInt(s).Some?
    ensures exists digits :: digits != [] && AllDigits(digits) && (s == digits || s == "+" + digits || s == "-" + digits)
  {
    var digits := if s[0] == '-' || s[0] == '+' then s[1..] else s;
    assert s == digits || s == [s[0]] + digits;
    assert digits != [] && AllDigits(digits) && (s == digits || s == "+" + digits || s == "-" + digits);
  }

  lemma ParseItoa(n: nat)
    requires n <= MAX_INT64
    ensures ParseInt(Itoa(n)) == Some(n)
  {
    var s := Itoa(n);
    assert IsDigit(s[0]);
  }

  /** Go's `a < b` on strings. */
  predicate Less(a: string, b: string) {
    if b == [] then false
    else if a == [] then true
    else if a[0] != b[0] then a[0] < b[0]
    else Less(a[1..], b[1..])
  }

  lemma {:induction false} LessTotal(a: string, b: string)
    ensures Less(a, b) || Less(b, a) || a == b
    ensures !(Less(a, b) && Less(b, a))
    ensures Less(a, b) ==> a != b
  {
    if a != [] && b != [] && a[0] == b[0] {
      LessTotal(a[1..], b[1..]);
      assert a == [a[0]] + a[1..] && b == [b[0]] + b[1..];
    }
  }

  lemma {:induction false} LessTransitive(a: string, b: string, c: string)
    requires Less(a, b) && Less(b, c)
    ensures Less(a, c)
  {
    if a != [] && a[0] == b[0] && b[0] == c[0] {
      LessTransitive(a[1..], b[1..], c[1..]);
    }
  }

  /** Before in the order: a proper prefix, or smaller at the first difference. */
  ghost predicate Differs(a: string, b: string, i: int) {
    && 0 <= i <= |a| && i < |b| && a[..i] == b[..i]
    && (i == |a| || a[i] < b[i])
  }

  lemma DiffersAtOnce(a: string, b: string)
    requires a == [] || b == [] || a[0] != b[0]
    ensures forall i :: Differs(a, b, i) ==> i == 0
  {
    forall i ensures Differs(a, b, i) ==> i == 0 {
      if 0 < i <= |a| && i < |b| {
        assert a[..i][0] == a[0] && b[..i][0] == b[0];
      }
    }
  }

  lemma {:induction false} LessExactly(a: string, b: string)
    ensures Less(a, b) <==> exists i :: Differs(a, b, i)
  {
    if a == [] || b == [] || a[0] != b[0] {
      if b != [] && (a == [] || a[0] < b[0]) {
        assert Differs(a, b, 0);
      }
      DiffersAtOnce(a, b);
    } else {
      LessExactly(a[1..], b[1..]);
      if i :| Differs(a[1..], b[1..], i) {
        assert a[..i + 1] == [a[0]] + a[1..][..i] && b[..i + 1] == [b[0]] + b[1..][..i];
        assert Differs(a, b, i + 1);
      }
      if i :| Differs(a, b, i) {
        assert i > 0;
        assert a[1..][..i - 1] == a[..i][1..] && b[1..][..i - 1] == b[..i][1..];
        assert Differs(a[1..], b[1..], i - 1);
      }
    }
  }

  lemma LessComplement(a: string, b: string, c: string)
    ensures !Less(b, a) && !Less(c, b) ==> !Less(c, a)
    ensures Less(a, b) ==> !Less(b, a)
  {
    LessTotal(a, b);
    LessTotal(b, c);
    LessTotal(a, c);
    if Less(a, b) && Less(b, c) {
      LessTransitive(a, b, c);
    }
  }

  /** The order by a first and then a second string. */
  predicate PairLess(a: (string, string), b: (string, string)) {
    if a.0 != b.0 then Less(a.0, b.0) else Less(a.1, b.1)
  }

  lemma PairLessComplement(a: (string, string), b: (string, string), c: (string, string))
    ensures !PairLess(b, a) && !PairLess(c, b) ==> !PairLess(c, a)
    ensures PairLess(a, b) ==> !PairLess(b, a)
    ensures !PairLess(a, b) && !PairLess(b, a) ==> a == b
  {
    LessComplement(a.0, b.0, c.0);
    LessComplement(a.1, b.1, c.1);
    LessTotal(a.0, b.0);
    LessTotal(b.0, c.0);
    LessTotal(a.0, c.0);
    LessTotal(a.1, b.1);
  }

  /** strings.Contains */
  predicate Contains(s: string, sub: string) {
    exists i :: 0 <= i <= |s| && HasPrefix(s[i..], sub)
  }

  /** Containing is being some text with more in front and behind. */
  lemma ContainsExactly(s: string, sub: string)
    ensures Contains(s, sub) <==> exists front, back :: s == front + sub + back
  {
    if i :| 0 <= i <= |s| && HasPrefix(s[i..], sub) {
      assert s == s[..i] + sub + s[i..][|sub|..];
    }
    if front, back :| s == front + sub + back {
      assert s[|front|..] == sub + back;
      assert HasPrefix(s[|front|..], sub);
    }
  }
}
