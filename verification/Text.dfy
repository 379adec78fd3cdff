/** String helpers with the meaning the two host languages give them. */
module Text {

  datatype Option<+T> = None | Some(value: T)

  /** Unicode `White_Space`, as `str::trim` and `split_whitespace` use it. */
  predicate IsSpace(c: char) {
    var n := c as int;
    9 <= n <= 13 || n == 32 || n == 0x85 || n == 0xA0 || n == 0x1680 || 0x2000 <= n <= 0x200A
    || n == 0x2028 || n == 0x2029 || n == 0x202F || n == 0x205F || n == 0x3000
  }

  /** White space of the console's language: `String.prototype.trim` and `\s`. */
  predicate IsJsSpace(c: char) {
    (IsSpace(c) && c as int != 0x85) || c as int == 0xFEFF
  }

  function TrimLeft(s: string, space: char -> bool): string {
    if s != "" && space(s[0]) then TrimLeft(s[1..], space) else s
  }

  function TrimRight(s: string, space: char -> bool): string {
    if s != "" && space(s[|s| - 1]) then TrimRight(s[..|s| - 1], space) else s
  }

  function Trim(s: string, space: char -> bool): string {
    TrimRight(TrimLeft(s, space), space)
  }

  lemma TrimIdentity(s: string, space: char -> bool)
    requires s == "" || (!space(s[0]) && !space(s[|s| - 1]))
    ensures Trim(s, space) == s
  {
  }

  /** The pieces of `s` between separators; always at least one piece. */
  function Split(s: string, sep: char): (parts: seq<string>)
    ensures |parts| > 0
    ensures forall i :: 0 <= i < |parts| ==> sep !in parts[i]
    ensures Join(parts, sep) == s
  {
    if s == "" then [""]
    else
      var rest := Split(s[1..], sep);
      if s[0] == sep then [""] + rest
      else [[s[0]] + rest[0]] + rest[1..]
  }

  function Join(parts: seq<string>, sep: char): string {
    if parts == [] then ""
    else if |parts| == 1 then parts[0]
    else parts[0] + [sep] + Join(parts[1..], sep)
  }

  /** Splitting is the only way to undo `Join` with separator-free pieces. */
  lemma {:induction false} SplitJoin(parts: seq<string>, sep: char)
    requires |parts| > 0
    requires forall i :: 0 <= i < |parts| ==> sep !in parts[i]
    ensures Split(Join(parts, sep), sep) == parts
    decreases |parts|, if |parts| > 0 then |parts[0]| else 0
  {
    var s := Join(parts, sep);
    if parts[0] == "" {
      if |parts| > 1 {
        assert s[1..] == Join(parts[1..], sep);
        SplitJoin(parts[1..], sep);
      }
    } else {
      var first := parts[0];
      assert s[0] == first[0] && first[0] in first;
      var shorter := [first[1..]] + parts[1..];
      assert shorter[1..] == parts[1..];
      assert Join(shorter, sep) == s[1..];
      SplitJoin(shorter, sep);
      assert [first[0]] + first[1..] == first;
      assert [first] + parts[1..] == parts;
    }
  }

  /** The maximal runs of non-space characters. */
  function SplitSpaces(s: string): (words: seq<string>)
    ensures forall i :: 0 <= i < |words| ==> words[i] != ""
    ensures forall i, c :: 0 <= i < |words| && c in words[i] ==> !IsSpace(c)
  {
    if s == "" then []
    else
      var rest := SplitSpaces(s[1..]);
      if IsSpace(s[0]) then rest
      else if |s| > 1 && !IsSpace(s[1]) && |rest| > 0 then [[s[0]] + rest[0]] + rest[1..]
      else [[s[0]]] + rest
  }

  /** Position of the first `c`, or `|s|`. */
  function IndexOf(s: string, c: char): (i: nat)
    ensures i <= |s|
    ensures i < |s| ==> s[i] == c
    ensures c !in s[..i]
    ensures i == |s| <==> c !in s
  {
    if s == "" then 0
    else if s[0] == c then 0
    else
      var i := 1 + IndexOf(s[1..], c);
      assert s[..i] == [s[0]] + s[1..][..i - 1];
      i
  }

  lemma {:induction false} IndexOfFirst(a: string, c: char, b: string)
    requires c !in a
    ensures IndexOf(a + [c] + b, c) == |a|
  {
    if a != "" {
      assert a[0] in a;
      assert (a + [c] + b)[1..] == a[1..] + [c] + b;
      IndexOfFirst(a[1..], c, b);
    }
  }

  predicate IsDigit(c: char) {
    '0' <= c <= '9'
  }

  function DigitsValue(s: string): nat
    requires forall c :: c in s ==> IsDigit(c)
  {
    if s == "" then 0
    else
      var c := s[|s| - 1];
      assert IsDigit(c);
      10 * DigitsValue(s[..|s| - 1]) + (c as int - '0' as int)
  }

  const U32_MAX := 0xFFFF_FFFF

  /** `str::parse::<u32>`: an optional `+`, then decimal digits, no overflow. */
  function ParseU32(s: string): (r: Option<nat>)
    ensures r.Some? ==> s != "" && forall c :: c in s ==> IsDigit(c) || c == '+'
  {
    var digits := if s != "" && s[0] == '+' then s[1..] else s;
    if digits == "" || exists c :: c in digits && !IsDigit(c) then None
    else if DigitsValue(digits) > U32_MAX then None
    else Some(DigitsValue(digits))
  }

  function LowerChar(c: char): char {
    if 'A' <= c <= 'Z' then (c as int + 32) as char else c
  }

  /** `to_ascii_lowercase`. */
  function Lower(s: string): string {
    seq(|s|, i requires 0 <= i < |s| => LowerChar(s[i]))
  }

  /** Digests are compared trimmed and in lower case. */
  function Norm(s: string): string {
    Lower(Trim(s, IsSpace))
  }

  // ---------------------------------------------------------------- what these give back

  /** The decimal numeral of `n`. */
  function Decimal(n: nat): string {
    if n < 10 then [DigitChar(n)] else Decimal(n / 10) + [DigitChar(n % 10)]
  }

  function DigitChar(d: nat): char
    requires d < 10
  {
    (d + '0' as int) as char
  }

  lemma {:induction false} DecimalValue(n: nat)
    ensures Decimal(n) != "" && (forall c :: c in Decimal(n) ==> IsDigit(c))
    ensures DigitsValue(Decimal(n)) == n
    decreases n
  {
    if n >= 10 {
      DecimalValue(n / 10);
      var s := Decimal(n);
      assert s[..|s| - 1] == Decimal(n / 10) && s[|s| - 1] == DigitChar(n % 10);
    } else {
      assert Decimal(n)[..0] == "";
    }
  }

  /** A numeral is read as its number up to the greatest 32-bit one, and not at all beyond. */
  lemma NumeralRead(n: nat)
    ensures ParseU32(Decimal(n)) == if n <= U32_MAX then Some(n) else None
  {
    DecimalValue(n);
    var s := Decimal(n);
    assert IsDigit(s[0]) by {
      assert s[0] in s;
    }
  }

  predicate AllSpace(s: string, space: char -> bool) {
    forall i :: 0 <= i < |s| ==> space(s[i])
  }

  /** Trimming takes off the white space on both sides and nothing else. */
  lemma {:induction false} TrimPadded(a: string, s: string, b: string, space: char -> bool)
    requires AllSpace(a, space) && AllSpace(b, space) && s != "" && !space(s[0]) && !space(s[|s| - 1])
    ensures Trim(a + s + b, space) == s
    decreases |a| + |b|
  {
    if a != "" {
      assert (a + s + b)[1..] == a[1..] + s + b;
      TrimPadded(a[1..], s, b, space);
      assert TrimLeft(a + s + b, space) == TrimLeft(a[1..] + s + b, space);
    } else {
      assert a + s + b == s + b;
      assert TrimLeft(s + b, space) == s + b;
      TrimRightPadded(s, b, space);
    }
  }

  lemma {:induction false} TrimRightPadded(s: string, b: string, space: char -> bool)
    requires AllSpace(b, space) && s != "" && !space(s[|s| - 1])
    ensures TrimRight(s + b, space) == s
    decreases |b|
  {
    if b == "" {
      assert s + b == s;
    } else {
      assert (s + b)[..|s + b| - 1] == s + b[..|b| - 1];
      TrimRightPadded(s, b[..|b| - 1], space);
    }
  }

  predicate IsWord(s: string) {
    s != "" && forall i :: 0 <= i < |s| ==> !IsSpace(s[i])
  }

  /** Words joined by single spaces are split into the same words. */
  lemma {:induction false} SplitWords(words: seq<string>)
    requires forall i :: 0 <= i < |words| ==> IsWord(words[i])
    ensures SplitSpaces(Join(words, ' ')) == words
    decreases |words|
  {
    if |words| == 1 {
      LastWord(words[0]);
    } else if |words| > 1 {
      SplitWords(words[1..]);
      FirstWord(words[0], Join(words[1..], ' '));
      assert words == [words[0]] + words[1..];
    }
  }

  lemma {:induction false} LastWord(w: string)
    requires IsWord(w)
    ensures SplitSpaces(w) == [w]
    decreases |w|
  {
    if |w| > 1 {
      LastWord(w[1..]);
      assert [w[0]] + w[1..] == w;
    } else {
      assert w[1..] == "" && [w[0]] == w;
    }
  }

  lemma {:induction false} FirstWord(w: string, rest: string)
    requires IsWord(w)
    ensures SplitSpaces(w + [' '] + rest) == [w] + SplitSpaces(rest)
    decreases |w|
  {
    var s := w + [' '] + rest;
    if |w| > 1 {
      FirstWord(w[1..], rest);
      assert s[1..] == w[1..] + [' '] + rest;
      assert [w[0]] + w[1..] == w;
    } else {
      assert s[1..] == [' '] + rest && s[1..][1..] == rest && [w[0]] == w;
    }
  }
}
