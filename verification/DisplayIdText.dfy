/** Which texts `int` accepts and where the dashes of a display id are: what reading a number out of an id means. */
module DisplayIdText {
  import opened Wrappers
  import opened PyText
  import opened DisplayIds

  // ---- `int(text)` ----

  /** The digits without their underscores. */
  function Bare(s: string): string {
    if s == [] then [] else (if s[0] == '_' then [] else [s[0]]) + Bare(s[1..])
  }

  /** Digits, with at most one underscore between any two of them and none at either end. */
  ghost predicate Grouped(d: Digits, s: string) {
    && s != [] && s[0] != '_' && s[|s| - 1] != '_'
    && (forall i | 0 <= i < |s| :: d(s[i]) >= 0 || s[i] == '_')
    && (forall i | 0 <= i < |s| - 1 :: !(s[i] == '_' && s[i + 1] == '_'))
  }

  /** What may follow when some digits have been read. */
  ghost predicate GroupedRest(d: Digits, s: string, afterDigit: bool) {
    && (s == [] ==> afterDigit) && (s != [] ==> s[|s| - 1] != '_' && (s[0] == '_' ==> afterDigit))
    && (forall i | 0 <= i < |s| :: d(s[i]) >= 0 || s[i] == '_')
    && (forall i | 0 <= i < |s| - 1 :: !(s[i] == '_' && s[i + 1] == '_'))
  }

  lemma RestTail(d: Digits, s: string, afterDigit: bool)
    requires s != []
    ensures GroupedRest(d, s, afterDigit) <==>
              (d(s[0]) >= 0 || s[0] == '_') && (s[0] == '_' ==> afterDigit) && GroupedRest(d, s[1..], s[0] != '_')
  {
    var t := s[1..];
    assert forall i | 0 <= i < |t| :: t[i] == s[i + 1];
    if GroupedRest(d, t, s[0] != '_') && (d(s[0]) >= 0 || s[0] == '_') && (s[0] == '_' ==> afterDigit) {
      forall i | 0 <= i < |s| ensures d(s[i]) >= 0 || s[i] == '_' {
        if i > 0 { assert s[i] == t[i - 1]; }
      }
      forall i | 0 <= i < |s| - 1 ensures !(s[i] == '_' && s[i + 1] == '_') {
        if i > 0 { assert s[i] == t[i - 1] && s[i + 1] == t[i]; } else { assert s[1] == t[0]; }
      }
    }
  }

  lemma {:induction false} BareDigits(d: Digits, s: string)
    requires forall i | 0 <= i < |s| :: d(s[i]) >= 0 || s[i] == '_'
    ensures AllDigits(d, Bare(s))
  {
    if s != [] { BareDigits(d, s[1..]); }
  }

  /** Reading on from `acc` appends digits to it. */
  function Onward(d: Digits, acc: nat, s: string): nat
    requires AllDigits(d, s)
    decreases |s|
  {
    if s == [] then acc else Onward(d, 10 * acc + d(s[0]), s[1..])
  }

  lemma {:induction false} OnwardSnoc(d: Digits, acc: nat, s: string, c: char)
    requires AllDigits(d, s) && d(c) >= 0
    ensures AllDigits(d, s + [c]) && Onward(d, acc, s + [c]) == 10 * Onward(d, acc, s) + d(c)
    decreases |s|
  {
    if s == [] {
      assert s + [c] == [c];
    } else {
      assert (s + [c])[1..] == s[1..] + [c];
      OnwardSnoc(d, 10 * acc + d(s[0]), s[1..], c);
    }
  }

  lemma {:induction false} OnwardIsValue(d: Digits, s: string)
    requires AllDigits(d, s)
    ensures Onward(d, 0, s) == Value(d, s)
  {
    if s != [] {
      var init, last := s[..|s| - 1], s[|s| - 1];
      assert s == init + [last];
      OnwardIsValue(d, init);
      OnwardSnoc(d, 0, init, last);
    }
  }

  lemma {:induction false} ParseDigitsMeans(d: Digits, s: string, acc: nat, afterDigit: bool)
    requires DigitTable(d)
    ensures ParseDigits(d, s, acc, afterDigit).Some? <==> GroupedRest(d, s, afterDigit)
    ensures GroupedRest(d, s, afterDigit) ==>
              AllDigits(d, Bare(s)) && ParseDigits(d, s, acc, afterDigit) == Some(Onward(d, acc, Bare(s)))
    decreases |s|
  {
    assert d('_') == -1;
    if s != [] {
      RestTail(d, s, afterDigit);
      if s[0] == '_' {
        ParseDigitsMeans(d, s[1..], acc, false);
        assert Bare(s) == Bare(s[1..]);
      } else if d(s[0]) >= 0 {
        ParseDigitsMeans(d, s[1..], 10 * acc + d(s[0]), true);
        if GroupedRest(d, s, afterDigit) {
          BareDigits(d, s);
          assert Bare(s)[1..] == Bare(s[1..]);
        }
      }
    }
  }

  lemma WholeMeans(d: Digits, s: string, n: nat)
    requires DigitTable(d)
    ensures ParseDigits(d, s, 0, false) == Some(n) <==> Grouped(d, s) && AllDigits(d, Bare(s)) && n == Value(d, Bare(s))
  {
    ParseDigitsMeans(d, s, 0, false);
    assert GroupedRest(d, s, false) <==> Grouped(d, s);
    if Grouped(d, s) { OnwardIsValue(d, Bare(s)); }
  }

  /** `int(text)`: white space around is ignored, one sign may lead, and single underscores may separate digits;
      anything else is a ValueError. */
  ghost predicate Denotes(d: Digits, text: string, n: int) {
    exists left, sign, digits, right ::
      && text == left + sign + digits + right && AllSpace(left) && AllSpace(right) && sign in {"", "+", "-"}
      && Grouped(d, digits) && AllDigits(d, Bare(digits))
      && n == if sign == "-" then -(Value(d, Bare(digits)) as int) else Value(d, Bare(digits)) as int
  }

  lemma GroupedTrim(d: Digits, sign: string, digits: string)
    requires DigitTable(d) && sign in {"", "+", "-"} && Grouped(d, digits)
    ensures Trim(sign + digits) && digits[0] !in {'+', '-'}
  {
    var s := sign + digits;
    assert d('+') == -1 && d('-') == -1 && !IsSpace('+') && !IsSpace('-') && !IsSpace('_');
    assert s[|s| - 1] == digits[|digits| - 1];
    assert s[0] == if sign == "" then digits[0] else sign[0];
  }

  lemma SignedMeans(d: Digits, text: string, sign: string, digits: string, n: nat)
    requires DigitTable(d) && Strip(text) == sign + digits && sign in {"+", "-"}
    requires ParseDigits(d, digits, 0, false) == Some(n)
    ensures Denotes(d, text, if sign == "-" then -(n as int) else n)
  {
    var left, right := StripParts(text);
    WholeMeans(d, digits, n);
    assert text == left + sign + digits + right;
  }

  lemma UnsignedMeans(d: Digits, text: string, n: nat)
    requires DigitTable(d) && ParseDigits(d, Strip(text), 0, false) == Some(n)
    ensures Denotes(d, text, n)
  {
    var left, right := StripParts(text);
    WholeMeans(d, Strip(text), n);
    assert text == left + "" + Strip(text) + right;
  }

  lemma DenotedParses(d: Digits, text: string, left: string, sign: string, digits: string, right: string)
    requires DigitTable(d) && text == left + sign + digits + right && AllSpace(left) && AllSpace(right)
    requires sign in {"", "+", "-"} && Grouped(d, digits) && AllDigits(d, Bare(digits))
    ensures var n := Value(d, Bare(digits)) as int; ParseInt(d, text) == Some(if sign == "-" then -n else n)
  {
    GroupedTrim(d, sign, digits);
    assert text == left + (sign + digits) + right;
    StripPadded(left, sign + digits, right);
    WholeMeans(d, digits, Value(d, Bare(digits)));
    if sign == "" {
      assert sign + digits == digits;
    } else {
      assert (sign + digits)[1..] == digits && (sign + digits)[0] == sign[0];
    }
  }

  lemma ParseIntMeans(d: Digits, text: string, n: int)
    requires DigitTable(d)
    ensures ParseInt(d, text) == Some(n) <==> Denotes(d, text, n)
  {
    var s := Strip(text);
    if ParseInt(d, text) == Some(n) {
      if s != [] && (s[0] == '-' || s[0] == '+') {
        assert s == s[..1] + s[1..] && s[..1] == [s[0]];
        SignedMeans(d, text, s[..1], s[1..], if s[0] == '-' then -n else n);
      } else {
        UnsignedMeans(d, text, n);
      }
    }
    if Denotes(d, text, n) {
      var left, sign, digits, right :|
        && text == left + sign + digits + right && AllSpace(left) && AllSpace(right) && sign in {"", "+", "-"}
        && Grouped(d, digits) && AllDigits(d, Bare(digits))
        && n == if sign == "-" then -(Value(d, Bare(digits)) as int) else Value(d, Bare(digits)) as int;
      DenotedParses(d, text, left, sign, digits, right);
    }
  }

  // ---- The two splits at a dash ----

  /** Everything after the first dash; None without one. */
  lemma AfterFirstDashIff(id: string, tail: string)
    ensures AfterFirstDash(id) == Some(tail) <==> exists head :: id == head + "-" + tail && '-' !in head
    ensures AfterFirstDash(id) == None <==> '-' !in id
  {
    var head := FirstDashSplit(id);
    if h :| id == h + "-" + tail && '-' !in h {
      FirstDashAfter(h, tail);
      assert h + ['-'] + tail == id;
    }
  }

  lemma {:induction false} FirstDashAfter(head: string, tail: string)
    requires '-' !in head
    ensures AfterFirstDash(head + ['-'] + tail) == Some(tail)
  {
    var id := head + ['-'] + tail;
    if head == [] {
      assert id[0] == '-' && id[1..] == tail;
    } else {
      assert head[0] in head && id[1..] == head[1..] + ['-'] + tail;
      FirstDashAfter(head[1..], tail);
    }
  }

  lemma {:induction false} FirstDashSplit(id: string) returns (head: string)
    ensures if AfterFirstDash(id).Some? then id == head + "-" + AfterFirstDash(id).value && '-' !in head
            else '-' !in id
  {
    head := [];
    if id != [] {
      assert id == [id[0]] + id[1..];
      if id[0] != '-' {
        var rest := FirstDashSplit(id[1..]);
        head := [id[0]] + rest;
        if AfterFirstDash(id).Some? {
          assert [id[0]] + (rest + "-" + AfterFirstDash(id).value) == head + "-" + AfterFirstDash(id).value;
        }
      }
    }
  }

  /** Everything after the last dash; None without one. */
  lemma AfterLastDashIff(id: string, tail: string)
    ensures AfterLastDash(id) == Some(tail) <==> exists head :: id == head + "-" + tail && '-' !in tail
    ensures AfterLastDash(id) == None <==> '-' !in id
  {
    var head := LastDashSplit(id);
    if h :| id == h + "-" + tail && '-' !in tail {
      LastDashOf(h, tail);
      assert h + ['-'] + tail == id;
    }
  }

  lemma {:induction false} LastDashSplit(id: string) returns (head: string)
    ensures if AfterLastDash(id).Some?
            then id == head + "-" + AfterLastDash(id).value && '-' !in AfterLastDash(id).value
            else '-' !in id
  {
    head := [];
    if id != [] {
      var init, last := id[..|id| - 1], id[|id| - 1];
      assert id == init + [last];
      if last == '-' {
        head := init;
      } else {
        head := LastDashSplit(init);
        if AfterLastDash(init).Some? {
          assert head + "-" + (AfterLastDash(init).value + [last]) == (head + "-" + AfterLastDash(init).value) + [last];
        }
      }
    }
  }
}
