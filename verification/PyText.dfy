/** The string primitives the text-handling code leans on: strip, split, join, decimal print and parse. */
module PyText {
  /** `str.isspace` for one character. */
  predicate IsSpace(c: char) {
    var n := c as int;
    || 0x09 <= n <= 0x0D || 0x1C <= n <= 0x20 || n == 0x85 || n == 0xA0 || n == 0x1680
    || 0x2000 <= n <= 0x200A || n == 0x2028 || n == 0x2029 || n == 0x202F || n == 0x205F || n == 0x3000
  }

  predicate AllSpace(s: string) {
    forall i | 0 <= i < |s| :: IsSpace(s[i])
  }

  function StripLeft(s: string): string {
    if s != [] && IsSpace(s[0]) then StripLeft(s[1..]) else s
  }

  function StripRight(s: string): string {
    if s != [] && IsSpace(s[|s| - 1]) then StripRight(s[..|s| - 1]) else s
  }

  /** `str.strip()`. */
  function Strip(s: string): string {
    StripRight(StripLeft(s))
  }

  /** Nothing left to strip. */
  predicate Trim(s: string) {
    s != [] ==> !IsSpace(s[0]) && !IsSpace(s[|s| - 1])
  }

  lemma {:induction false} StripLeftPad(pad: string, s: string)
    requires AllSpace(pad)
    ensures StripLeft(pad + s) == StripLeft(s)
  {
    if pad == [] {
      assert pad + s == s;
    } else {
      assert (pad + s)[1..] == pad[1..] + s;
      StripLeftPad(pad[1..], s);
    }
  }

  lemma {:induction false} StripRightPad(s: string, pad: string)
    requires AllSpace(pad)
    ensures StripRight(s + pad) == StripRight(s)
  {
    if pad == [] {
      assert s + pad == s;
    } else {
      assert (s + pad)[..|s + pad| - 1] == s + pad[..|pad| - 1];
      StripRightPad(s, pad[..|pad| - 1]);
    }
  }

  lemma {:induction false} StripLeftSplit(s: string) returns (pad: string)
    ensures AllSpace(pad) && s == pad + StripLeft(s)
    ensures StripLeft(s) != [] ==> !IsSpace(StripLeft(s)[0])
  {
    if s != [] && IsSpace(s[0]) {
      var rest := StripLeftSplit(s[1..]);
      pad := [s[0]] + rest;
      assert s == [s[0]] + s[1..];
    } else {
      pad := [];
    }
  }

  lemma {:induction false} StripRightSplit(s: string) returns (pad: string)
    ensures AllSpace(pad) && s == StripRight(s) + pad
    ensures StripRight(s) != [] ==> !IsSpace(StripRight(s)[|StripRight(s)| - 1])
  {
    if s != [] && IsSpace(s[|s| - 1]) {
      var init, last := s[..|s| - 1], s[|s| - 1];
      var rest := StripRightSplit(init);
      pad := rest + [last];
      assert s == init + [last] == StripRight(init) + rest + [last];
    } else {
      pad := [];
    }
  }

  /** A stripped string and the white space around it. */
  lemma StripParts(s: string) returns (left: string, right: string)
    ensures AllSpace(left) && AllSpace(right) && s == left + Strip(s) + right && Trim(Strip(s))
  {
    left := StripLeftSplit(s);
    right := StripRightSplit(StripLeft(s));
    assert s == left + (Strip(s) + right) == left + Strip(s) + right;
    assert StripLeft(s) == Strip(s) + right;
    if Strip(s) != [] {
      assert StripLeft(s)[0] == Strip(s)[0];
    }
  }

  /** Stripping removes padding and only padding. */
  lemma StripPadded(left: string, s: string, right: string)
    requires AllSpace(left) && AllSpace(right) && Trim(s)
    ensures Strip(left + s + right) == s
  {
    assert left + s + right == left + (s + right);
    StripLeftPad(left, s + right);
    if s == [] {
      assert s + right == right && right + [] == right;
      StripLeftPad(right, []);
    } else {
      assert (s + right)[0] == s[0];
      StripRightPad(s, right);
    }
  }

  lemma StripTrim(s: string)
    requires Trim(s)
    ensures Strip(s) == s
  {
    assert [] + s + [] == s;
    StripPadded([], s, []);
  }

  lemma StripTwice(s: string)
    ensures Trim(Strip(s)) && Strip(Strip(s)) == Strip(s)
  {
    var left, right := StripParts(s);
    StripTrim(Strip(s));
  }

  lemma BlankIffSpace(s: string)
    ensures Strip(s) == "" <==> AllSpace(s)
  {
    var left, right := StripParts(s);
    if Strip(s) == "" {
      assert s == left + right;
    } else {
      assert s[|left|] == Strip(s)[0];
    }
  }

  // ---- Split and join on one character ----

  /** `s.split(sep)`. */
  function Split(s: string, sep: char): (r: seq<string>)
    ensures r != []
  {
    if s == [] then [[]]
    else
      var rest := Split(s[1..], sep);
      if s[0] == sep then [[]] + rest else [[s[0]] + rest[0]] + rest[1..]
  }

  /** `sep.join(parts)`. */
  function Join(parts: seq<string>, sep: char): string {
    if parts == [] then []
    else if |parts| == 1 then parts[0]
    else parts[0] + [sep] + Join(parts[1..], sep)
  }

  lemma {:induction false} SplitConcat(a: string, sep: char, b: string)
    requires sep !in a
    ensures Split(a + [sep] + b, sep) == [a] + Split(b, sep)
    ensures Split(a, sep) == [a]
  {
    if a == [] {
      assert a + [sep] + b == [sep] + b;
    } else {
      assert (a + [sep] + b)[1..] == a[1..] + [sep] + b;
      SplitConcat(a[1..], sep, b);
      assert a[0] in a && [a[0]] + a[1..] == a;
      assert ([a[1..]] + Split(b, sep))[1..] == Split(b, sep);
    }
  }

  /** Splitting undoes joining whenever no part contains the separator. */
  lemma {:induction false} SplitJoin(parts: seq<string>, sep: char)
    requires parts != [] && forall p <- parts :: sep !in p
    ensures Split(Join(parts, sep), sep) == parts
  {
    assert parts[0] in parts;
    if |parts| == 1 {
      SplitConcat(parts[0], sep, []);
    } else {
      SplitConcat(parts[0], sep, Join(parts[1..], sep));
      SplitJoin(parts[1..], sep);
      assert parts == [parts[0]] + parts[1..];
    }
  }

  /** Joining undoes splitting, and no part has the separator. */
  lemma {:induction false} JoinSplit(s: string, sep: char)
    ensures Join(Split(s, sep), sep) == s && forall p <- Split(s, sep) :: sep !in p
  {
    if s != [] {
      var rest := Split(s[1..], sep);
      JoinSplit(s[1..], sep);
      assert s == [s[0]] + s[1..];
      assert rest == [rest[0]] + rest[1..] && rest[0] in rest;
      if s[0] == sep {
        assert ([[]] + rest)[1..] == rest;
        assert [] + [sep] + Join(rest, sep) == s;
      } else {
        var parts := [[s[0]] + rest[0]] + rest[1..];
        assert parts[1..] == rest[1..];
        if |rest| > 1 {
          assert ([s[0]] + rest[0]) + [sep] + Join(rest[1..], sep) == [s[0]] + (rest[0] + [sep] + Join(rest[1..], sep));
        }
      }
    }
  }

  // ---- Decimals ----

  /** What Python calls the decimal digits (category Nd) with their values, -1 for every other
      character: the ten ASCII digits, and whatever else the Unicode tables add. */
  type Digits = char -> int

  ghost predicate DigitTable(d: Digits) {
    && (forall c: char :: -1 <= d(c) <= 9)
    && (forall c: char | '0' <= c <= '9' :: d(c) == c as int - '0' as int)
    && (forall c: char | IsSpace(c) || c in {'-', '+', '_', ','} :: d(c) == -1)
  }

  function Digit(n: nat): char
    requires n < 10
  {
    (n + '0' as int) as char
  }

  /** `str(n)` for a natural number. */
  function Print(n: nat): string {
    if n < 10 then [Digit(n)] else Print(n / 10) + [Digit(n % 10)]
  }

  predicate AllDigits(d: Digits, s: string) {
    forall i | 0 <= i < |s| :: d(s[i]) >= 0
  }

  function Value(d: Digits, s: string): nat
    requires AllDigits(d, s)
  {
    if s == [] then 0 else 10 * Value(d, s[..|s| - 1]) + d(s[|s| - 1])
  }

  predicate AsciiDigits(s: string) {
    forall i | 0 <= i < |s| :: '0' <= s[i] <= '9'
  }

  lemma {:induction false} PrintIsDigits(n: nat)
    ensures Print(n) != [] && AsciiDigits(Print(n))
    ensures n > 0 ==> Print(n)[0] != '0'
  {
    if n >= 10 {
      PrintIsDigits(n / 10);
    }
  }

  /** parse(print(n)) = n, for every digit table. */
  lemma {:induction false} ValuePrint(d: Digits, n: nat)
    requires DigitTable(d)
    ensures AllDigits(d, Print(n)) && Value(d, Print(n)) == n
  {
    if n >= 10 {
      ValuePrint(d, n / 10);
      var init := Print(n / 10);
      assert Print(n)[..|init|] == init;
    }
  }

  lemma AsciiAreDigits(d: Digits, s: string)
    requires DigitTable(d) && AsciiDigits(s)
    ensures AllDigits(d, s) && ',' !in s && '-' !in s && Trim(s)
  {}
}
