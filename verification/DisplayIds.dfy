/** Display ids such as `T-007`: minting the next one and why it is new. */
module DisplayIds {
  import opened Wrappers
  import opened PyText

  // ---- `int(text)` ----

  /** Digits with single underscores between them, read left to right. */
  function ParseDigits(d: Digits, s: string, acc: nat, afterDigit: bool): Option<nat> {
    if s == [] then if afterDigit then Some(acc) else None
    else if s[0] == '_' then if afterDigit then ParseDigits(d, s[1..], acc, false) else None
    else if d(s[0]) >= 0 then ParseDigits(d, s[1..], 10 * acc + d(s[0]), true)
    else None
  }

  /** White space around, one optional sign, then digits; None is the ValueError. */
  function ParseInt(d: Digits, text: string): Option<int> {
    var s := Strip(text);
    if s != [] && (s[0] == '-' || s[0] == '+') then
      match ParseDigits(d, s[1..], 0, false)
      case Some(n) => Some(if s[0] == '-' then -(n as int) else n as int)
      case None => None
    else
      match ParseDigits(d, s, 0, false)
      case Some(n) => Some(n)
      case None => None
  }

  function Zeros(n: nat): string {
    if n == 0 then [] else Zeros(n - 1) + ['0']
  }

  /** `f"{n:03d}"`: the sign counts towards the width. */
  function Pad3(n: int): string {
    if n >= 0 then PadDigits(n, 3) else ['-'] + PadDigits(-n, 2)
  }

  function PadDigits(n: nat, width: nat): string {
    var p := Print(n);
    (if |p| < width then Zeros(width - |p|) else []) + p
  }

  lemma {:induction false} ParseSnoc(d: Digits, s: string, c: char, acc: nat, afterDigit: bool)
    requires DigitTable(d) && AllDigits(d, s) && d(c) >= 0
    requires s != [] || afterDigit
    ensures ParseDigits(d, s, acc, afterDigit).Some?
    ensures ParseDigits(d, s + [c], acc, afterDigit) == Some(10 * ParseDigits(d, s, acc, afterDigit).value + d(c))
  {
    assert d('_') == -1;
    if s == [] {
      assert s + [c] == [c];
    } else {
      assert (s + [c])[1..] == s[1..] + [c];
      ParseSnoc(d, s[1..], c, 10 * acc + d(s[0]), true);
    }
  }

  /** On plain digits `int` is positional value. */
  lemma {:induction false} ParseIsValue(d: Digits, s: string)
    requires DigitTable(d) && AllDigits(d, s) && s != []
    ensures ParseDigits(d, s, 0, false) == Some(Value(d, s))
  {
    var init, last := s[..|s| - 1], s[|s| - 1];
    assert d('_') == -1 && s == init + [last];
    if init == [] {
      assert ParseDigits(d, s, 0, false) == ParseDigits(d, [], d(last), true);
    } else {
      ParseIsValue(d, init);
      ParseSnoc(d, init, last, 0, false);
    }
  }

  lemma {:induction false} ZerosAreNothing(d: Digits, k: nat)
    requires DigitTable(d)
    ensures AllDigits(d, Zeros(k)) && Value(d, Zeros(k)) == 0
  {
    assert d('0') == 0;
    if k > 0 {
      var z := Zeros(k - 1);
      ZerosAreNothing(d, k - 1);
      assert Zeros(k) == z + ['0'] && (z + ['0'])[..|z|] == z;
      assert Value(d, z + ['0']) == 10 * Value(d, z) + d('0');
    }
  }

  lemma {:induction false} LeadingZeros(d: Digits, k: nat, s: string)
    requires DigitTable(d) && AllDigits(d, s)
    ensures AllDigits(d, Zeros(k) + s) && Value(d, Zeros(k) + s) == Value(d, s)
  {
    ZerosAreNothing(d, k);
    if s == [] {
      assert Zeros(k) + s == Zeros(k);
    } else {
      var init, last := s[..|s| - 1], s[|s| - 1];
      LeadingZeros(d, k, init);
      assert Zeros(k) + s == (Zeros(k) + init) + [last];
      assert (Zeros(k) + s)[..|Zeros(k) + s| - 1] == Zeros(k) + init;
    }
  }

  lemma PadDigitsParses(d: Digits, n: nat, width: nat)
    requires DigitTable(d)
    ensures PadDigits(n, width) != [] && AllDigits(d, PadDigits(n, width))
    ensures ParseDigits(d, PadDigits(n, width), 0, false) == Some(n)
  {
    ValuePrint(d, n);
    PrintIsDigits(n);
    var zeros := if |Print(n)| < width then width - |Print(n)| else 0;
    LeadingZeros(d, zeros, Print(n));
    assert Zeros(0) + Print(n) == Print(n);
    ParseIsValue(d, PadDigits(n, width));
  }

  lemma ParseUnsigned(d: Digits, s: string, n: nat)
    requires DigitTable(d) && s != [] && AllDigits(d, s) && ParseDigits(d, s, 0, false) == Some(n)
    ensures ParseInt(d, s) == Some(n)
  {
    assert d(s[0]) >= 0 && d('-') == -1 && d('+') == -1;
    StripTrim(s);
  }

  lemma ParseNegative(d: Digits, s: string, n: nat)
    requires DigitTable(d) && s != [] && AllDigits(d, s) && ParseDigits(d, s, 0, false) == Some(n)
    ensures ParseInt(d, ['-'] + s) == Some(0 - n as int)
  {
    var t := ['-'] + s;
    assert t[1..] == s && t[|t| - 1] == s[|s| - 1];
    StripTrim(t);
  }

  /** parse(print(n)) = n for zero-padded decimals, negative ones included. */
  lemma ParsePad3(d: Digits, n: int)
    requires DigitTable(d)
    ensures ParseInt(d, Pad3(n)) == Some(n)
  {
    if n >= 0 {
      PadDigitsParses(d, n, 3);
      ParseUnsigned(d, Pad3(n), n);
    } else {
      PadDigitsParses(d, -n, 2);
      ParseNegative(d, PadDigits(-n, 2), -n);
    }
  }

  // ---- Reading the number out of an existing id ----

  /** `id.split("-", 1)[1]`, or None for the IndexError. */
  function AfterFirstDash(id: string): Option<string> {
    if id == [] then None else if id[0] == '-' then Some(id[1..]) else AfterFirstDash(id[1..])
  }

  /** `id.rsplit("-", 1)[1]` when there is a dash. */
  function AfterLastDash(id: string): Option<string> {
    if id == [] then None
    else if id[|id| - 1] == '-' then Some([])
    else match AfterLastDash(id[..|id| - 1])
      case Some(tail) => Some(tail + [id[|id| - 1]])
      case None => None
  }

  function MergerNumber(d: Digits, id: string): Option<int> {
    match AfterFirstDash(id) case Some(tail) => ParseInt(d, tail) case None => None
  }

  function ManualNumber(d: Digits, id: string): Option<int> {
    match AfterLastDash(id) case Some(tail) => ParseInt(d, tail) case None => None
  }

  function DisplayId(n: int): string {
    "T-" + Pad3(n)
  }

  lemma {:induction false} LastDashOf(head: string, tail: string)
    requires '-' !in tail
    ensures AfterLastDash(head + ['-'] + tail) == Some(tail)
  {
    var id := head + ['-'] + tail;
    if tail == [] {
      assert id[|id| - 1] == '-';
    } else {
      var init, last := tail[..|tail| - 1], tail[|tail| - 1];
      assert id[..|id| - 1] == head + ['-'] + init && id[|id| - 1] == last && last in tail;
      LastDashOf(head, init);
      assert init + [last] == tail;
    }
  }

  lemma FirstDashOf(tail: string)
    ensures AfterFirstDash("T-" + tail) == Some(tail)
  {
    var id := "T-" + tail;
    assert id[0] == 'T' && id[1..] == "-" + tail && id[1..][0] == '-';
    assert id[1..][1..] == tail;
    assert AfterFirstDash(id[1..]) == Some(tail);
  }

  /** Both readers recover the number a minted id was built from. */
  lemma MergerReads(d: Digits, n: int)
    requires DigitTable(d)
    ensures MergerNumber(d, DisplayId(n)) == Some(n)
  {
    ParsePad3(d, n);
    FirstDashOf(Pad3(n));
  }

  lemma ManualReads(d: Digits, n: nat)
    requires DigitTable(d)
    ensures ManualNumber(d, DisplayId(n)) == Some(n)
  {
    ParsePad3(d, n);
    PadDigitsParses(d, n, 3);
    NoDash(d, Pad3(n));
    ManualReadsTail(d, Pad3(n));
  }

  lemma ManualReadsTail(d: Digits, tail: string)
    requires '-' !in tail
    ensures ManualNumber(d, "T-" + tail) == ParseInt(d, tail)
  {
    LastDashOf("T", tail);
    assert "T-" + tail == "T" + ['-'] + tail;
  }

  lemma NoDash(d: Digits, s: string)
    requires DigitTable(d) && AllDigits(d, s)
    ensures '-' !in s
  {
    assert d('-') == -1;
  }

  // ---- `create_manual_threat`: one more than the largest number in use ----

  /** The loop over the model's rows; an id that does not parse is skipped. */
  method MintManual(d: Digits, ids: seq<string>) returns (id: string, n: int)
    requires DigitTable(d)
    ensures id == DisplayId(n) && n > 0 && id !in ids
    ensures forall x <- ids :: ManualNumber(d, x).Some? ==> ManualNumber(d, x).value < n
    ensures n == 1 || exists x <- ids :: ManualNumber(d, x) == Some(n - 1)
  {
    var max := 0;
    for i := 0 to |ids|
      invariant max >= 0
      invariant forall x <- ids[..i] :: ManualNumber(d, x).Some? ==> ManualNumber(d, x).value <= max
      invariant max == 0 || exists x <- ids[..i] :: ManualNumber(d, x) == Some(max)
    {
      assert ids[..i + 1] == ids[..i] + [ids[i]];
      var number := ManualNumber(d, ids[i]);
      if number.Some? && number.value > max {
        max := number.value;
        assert ids[i] in ids[..i + 1];
      }
    }
    assert ids[..|ids|] == ids;
    n := max + 1;
    id := DisplayId(n);
    ManualReads(d, n);
  }

  // ---- The merger's numbering: consecutive ids above every rule threat's ----

  /** `max(nums, default=0) + 1` over the ids that parse. */
  function NextNumber(d: Digits, ids: seq<string>): (n: int)
    ensures forall x <- ids :: MergerNumber(d, x).Some? ==> MergerNumber(d, x).value < n
  {
    if exists x <- ids :: MergerNumber(d, x).Some? then MaxNumber(d, ids) + 1 else 1
  }

  function MaxNumber(d: Digits, ids: seq<string>): (m: int)
    requires exists x <- ids :: MergerNumber(d, x).Some?
    ensures forall x <- ids :: MergerNumber(d, x).Some? ==> MergerNumber(d, x).value <= m
    ensures exists x <- ids :: MergerNumber(d, x) == Some(m)
  {
    var init, last := ids[..|ids| - 1], ids[|ids| - 1];
    assert ids == init + [last];
    var number := MergerNumber(d, last);
    if exists x <- init :: MergerNumber(d, x).Some? then
      var m := MaxNumber(d, init);
      if number.Some? && number.value > m then
        assert last in ids; number.value
      else m
    else
      assert last in ids; number.value
  }

  /** It is the number after the largest readable one, or 1 if none is readable. */
  lemma NextNumberExact(d: Digits, ids: seq<string>)
    ensures if exists x <- ids :: MergerNumber(d, x).Some?
            then exists x <- ids :: MergerNumber(d, x) == Some(NextNumber(d, ids) - 1)
            else NextNumber(d, ids) == 1
  {
    if exists x <- ids :: MergerNumber(d, x).Some? {
      assert NextNumber(d, ids) == MaxNumber(d, ids) + 1;
    }
  }

  lemma AboveIsNew(d: Digits, ids: seq<string>, n: int)
    requires DigitTable(d) && forall x <- ids :: MergerNumber(d, x).Some? ==> MergerNumber(d, x).value < n
    ensures DisplayId(n) !in ids
  {
    MergerReads(d, n);
  }

  lemma DisplayIdInjective(d: Digits, a: int, b: int)
    requires DigitTable(d) && DisplayId(a) == DisplayId(b)
    ensures a == b
  {
    MergerReads(d, a);
    MergerReads(d, b);
  }
}
