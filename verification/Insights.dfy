/** Appending AI insights to a rationale, each behind a marker, without repeating one. */
module Insights {
  import opened Wrappers
  import opened PyText

  const MARKER := "[AI Insight]"

  // ---- `s.split(sep)` for a whole string ----

  predicate StartsWith(s: string, sep: string) {
    |sep| <= |s| && s[..|sep|] == sep
  }

  /** Left to right, without overlaps. */
  function SplitOn(s: string, sep: string): (r: seq<string>)
    requires sep != []
    ensures r != []
  {
    if s == [] then [[]]
    else if StartsWith(s, sep) then [[]] + SplitOn(s[|sep|..], sep)
    else
      var rest := SplitOn(s[1..], sep);
      [[s[0]] + rest[0]] + rest[1..]
  }

  predicate Contains(s: string, sep: string) {
    exists i | 0 <= i <= |s| :: StartsWith(s[i..], sep)
  }

  /** The separator cannot overlap a shifted copy of itself: its first character occurs nowhere else. */
  predicate HeadUnique(sep: string) {
    sep != [] && forall i | 0 < i < |sep| :: sep[i] != sep[0]
  }

  lemma StartsAt(s: string, sep: string, i: nat)
    requires i < |sep| && i < |s|
    ensures StartsWith(s, sep) ==> s[i] == sep[i]
  {
    if StartsWith(s, sep) { assert s[..|sep|][i] == s[i]; }
  }

  lemma NoStraddle(a: string, sep: string, b: string)
    requires HeadUnique(sep) && a != []
    ensures StartsWith(a + sep + b, sep) <==> StartsWith(a, sep)
  {
    var s := a + sep + b;
    if |a| < |sep| {
      StartsAt(s, sep, |a|);
      assert s[|a|] == sep[0];
    } else {
      assert s[..|sep|] == a[..|sep|];
    }
  }

  lemma ConsConcat(p: string, x: seq<string>, y: seq<string>)
    ensures [p] + (x + y) == ([p] + x) + y
  {}

  lemma LeadConcat(lead: string, x: seq<string>, y: seq<string>)
    requires x != []
    ensures [lead + (x + y)[0]] + (x + y)[1..] == ([lead + x[0]] + x[1..]) + y
  {}

  /** Splitting at an inserted separator: nothing on either side changes. */
  lemma {:induction false} SplitAppend(a: string, sep: string, b: string)
    requires HeadUnique(sep)
    ensures SplitOn(a + sep + b, sep) == SplitOn(a, sep) + SplitOn(b, sep)
    decreases |a|
  {
    var s := a + sep + b;
    if a == [] {
      assert s == sep + b && s[..|sep|] == sep && s[|sep|..] == b;
    } else {
      NoStraddle(a, sep, b);
      if StartsWith(a, sep) {
        assert s[|sep|..] == a[|sep|..] + sep + b;
        SplitAppend(a[|sep|..], sep, b);
        ConsConcat([], SplitOn(a[|sep|..], sep), SplitOn(b, sep));
      } else {
        assert s[1..] == a[1..] + sep + b && s[0] == a[0];
        SplitAppend(a[1..], sep, b);
        LeadConcat([a[0]], SplitOn(a[1..], sep), SplitOn(b, sep));
      }
    }
  }

  function PadLast(parts: seq<string>, pad: string): seq<string>
    requires parts != []
  {
    parts[..|parts| - 1] + [parts[|parts| - 1] + pad]
  }

  lemma PadLastCons(p: string, parts: seq<string>, pad: string)
    requires parts != []
    ensures PadLast([p] + parts, pad) == [p] + PadLast(parts, pad)
  {}

  lemma PadLastLead(lead: string, parts: seq<string>, pad: string)
    requires parts != []
    ensures PadLast([lead + parts[0]] + parts[1..], pad) == [lead + PadLast(parts, pad)[0]] + PadLast(parts, pad)[1..]
  {
    if |parts| == 1 { assert (lead + parts[0]) + pad == lead + (parts[0] + pad); }
  }

  /** Trailing characters foreign to the separator stay with the last part. */
  lemma {:induction false} SplitPadded(a: string, sep: string, pad: string)
    requires sep != [] && forall c <- pad :: c !in sep
    ensures SplitOn(a + pad, sep) == PadLast(SplitOn(a, sep), pad)
    decreases |a|
  {
    var s := a + pad;
    if a == [] {
      assert s == pad;
      SplitForeign(pad, sep);
    } else {
      ForeignTail(a, sep, pad);
      if StartsWith(a, sep) {
        assert s[|sep|..] == a[|sep|..] + pad;
        SplitPadded(a[|sep|..], sep, pad);
        PadLastCons([], SplitOn(a[|sep|..], sep), pad);
      } else {
        assert s[1..] == a[1..] + pad && s[0] == a[0];
        SplitPadded(a[1..], sep, pad);
        PadLastLead([a[0]], SplitOn(a[1..], sep), pad);
      }
    }
  }

  lemma ForeignTail(a: string, sep: string, pad: string)
    requires sep != [] && a != [] && forall c <- pad :: c !in sep
    ensures StartsWith(a + pad, sep) <==> StartsWith(a, sep)
  {
    var s := a + pad;
    if pad == [] {
      assert s == a;
    } else if |a| < |sep| {
      StartsAt(s, sep, |a|);
      assert s[|a|] == pad[0] && pad[0] in pad && sep[|a|] in sep;
    } else {
      assert s[..|sep|] == a[..|sep|];
    }
  }

  lemma {:induction false} SplitForeign(s: string, sep: string)
    requires sep != [] && forall c <- s :: c !in sep
    ensures SplitOn(s, sep) == [s]
  {
    if s != [] {
      StartsAt(s, sep, 0);
      assert s[0] in s && sep[0] in sep;
      SplitForeign(s[1..], sep);
      assert [s[0]] + s[1..] == s;
    }
  }

  /** A leading character other than the separator's head stays with the first part. */
  lemma SplitLed(c: char, s: string, sep: string)
    requires sep != [] && c != sep[0]
    ensures SplitOn([c] + s, sep) == [[c] + SplitOn(s, sep)[0]] + SplitOn(s, sep)[1..]
  {
    var t := [c] + s;
    StartsAt(t, sep, 0);
    assert t[1..] == s;
  }

  /** One part exactly when the separator does not occur. */
  lemma {:induction false} SplitIffContains(s: string, sep: string)
    requires sep != []
    ensures |SplitOn(s, sep)| == 1 <==> !Contains(s, sep)
    ensures !Contains(s, sep) ==> SplitOn(s, sep) == [s]
  {
    if s == [] {
    } else if StartsWith(s, sep) {
      assert s[0..] == s;
    } else {
      SplitIffContains(s[1..], sep);
      ContainsLater(s, sep);
      assert [s[0]] + s[1..] == s;
    }
  }

  lemma ContainsLater(s: string, sep: string)
    requires s != [] && !StartsWith(s, sep)
    ensures Contains(s, sep) <==> Contains(s[1..], sep)
  {
    if i :| 0 <= i <= |s| && StartsWith(s[i..], sep) {
      assert s[0..] == s;
      assert i > 0 && s[1..][i - 1..] == s[i..];
    }
    if i :| 0 <= i <= |s[1..]| && StartsWith(s[1..][i..], sep) {
      assert s[i + 1..] == s[1..][i..];
    }
  }

  // ---- Normal form of an insight ----

  /** `casefold` maps characters to strings; only that is used of it. */
  type Folding = char -> string

  /** `re.sub(r"\s+", " ", s)`. */
  function Collapse(s: string): string {
    if s == [] then []
    else if IsSpace(s[0]) then (if |s| > 1 && IsSpace(s[1]) then [] else [' ']) + Collapse(s[1..])
    else [s[0]] + Collapse(s[1..])
  }

  function FoldText(fold: Folding, s: string): string {
    if s == [] then [] else fold(s[0]) + FoldText(fold, s[1..])
  }

  /** `_normalize_ai_insight`. */
  function Normalize(fold: Folding, s: string): string {
    FoldText(fold, Collapse(Strip(s)))
  }

  /** Some nonblank part reads, normalised, as `n`. */
  ghost predicate Reads(fold: Folding, parts: seq<string>, n: string) {
    exists p <- parts :: Strip(p) != [] && Normalize(fold, p) == n
  }

  /** The insight already stands behind a marker: `normalized_candidate in existing_insights`. */
  ghost predicate Present(fold: Folding, current: string, candidate: string) {
    Reads(fold, SplitOn(current, MARKER)[1..], Normalize(fold, candidate))
  }

  function NormalParts(fold: Folding, parts: seq<string>): (r: seq<string>)
    ensures forall n :: n in r <==> Reads(fold, parts, n)
  {
    if parts == [] then []
    else
      assert parts == [parts[0]] + parts[1..];
      (if Strip(parts[0]) != [] then [Normalize(fold, parts[0])] else []) + NormalParts(fold, parts[1..])
  }

  function OrEmpty(s: Option<string>): string {
    if s.Some? then s.value else []
  }

  /** `_append_ai_insight`. */
  function Append(fold: Folding, existing: Option<string>, insight: string): Option<string> {
    var current, candidate := Strip(OrEmpty(existing)), Strip(insight);
    if current == [] then
      if candidate == [] then None else Some(MARKER + " " + candidate)
    else if candidate == [] then Some(current)
    else if Normalize(fold, candidate) in NormalParts(fold, SplitOn(current, MARKER)[1..]) then Some(current)
    else Some(current + "\n\n" + MARKER + " " + candidate)
  }

  /** Some part behind a marker says the same, up to white space and case. */
  ghost predicate SaidBefore(fold: Folding, current: string, candidate: string) {
    var parts := SplitOn(current, "[AI Insight]");
    exists i | 0 < i < |parts| ::
      !AllSpace(parts[i]) && FoldText(fold, Collapse(Strip(parts[i]))) == FoldText(fold, Collapse(Strip(candidate)))
  }

  /** How the text looks afterwards: nothing, the insight behind its marker, the old text, or both with a blank line
      between them unless it was said before. */
  lemma AppendLayout(fold: Folding, existing: Option<string>, insight: string)
    ensures var r, current, candidate := Append(fold, existing, insight), Strip(OrEmpty(existing)), Strip(insight);
            && (r == None <==> current == "" && candidate == "")
            && (current == "" && candidate != "" ==> r == Some("[AI Insight] " + candidate))
            && (current != "" && (candidate == "" || SaidBefore(fold, current, candidate)) ==> r == Some(current))
            && (current != "" && candidate != "" && !SaidBefore(fold, current, candidate) ==>
                  r == Some(current + "\n\n[AI Insight] " + candidate))
  {
    var current, candidate := Strip(OrEmpty(existing)), Strip(insight);
    var parts := SplitOn(current, MARKER);
    assert MARKER + " " + candidate == "[AI Insight] " + candidate;
    assert current + "\n\n" + MARKER + " " + candidate == current + "\n\n[AI Insight] " + candidate;
    PresentMeans(fold, current, candidate, parts);
  }

  lemma PresentMeans(fold: Folding, current: string, candidate: string, parts: seq<string>)
    requires parts == SplitOn(current, MARKER)
    ensures SaidBefore(fold, current, candidate) <==> Present(fold, current, candidate)
  {
    assert MARKER == "[AI Insight]";
    forall i | 0 < i < |parts|
      ensures parts[i] == parts[1..][i - 1] && (Strip(parts[i]) == "" <==> AllSpace(parts[i]))
    {
      BlankIffSpace(parts[i]);
    }
    if Present(fold, current, candidate) {
      var p :| p in parts[1..] && Strip(p) != [] && Normalize(fold, p) == Normalize(fold, candidate);
      var k :| 0 <= k < |parts[1..]| && parts[1..][k] == p;
      assert parts[k + 1] == p;
    }
    if SaidBefore(fold, current, candidate) {
      var i :| 0 < i < |parts| && !AllSpace(parts[i])
               && FoldText(fold, Collapse(Strip(parts[i]))) == FoldText(fold, Collapse(Strip(candidate)));
      assert parts[1..][i - 1] in parts[1..];
    }
  }

  lemma {:induction false} CollapsePad(pad: string, b: string)
    requires AllSpace(pad) && pad != "" && (b == "" || !IsSpace(b[0]))
    ensures Collapse(pad + b) == [' '] + Collapse(b)
    decreases |pad|
  {
    var s, rest := pad + b, pad[1..];
    assert s[0] == pad[0] && s[1..] == rest + b;
    if rest == "" {
      assert rest + b == b;
      assert |s| > 1 ==> s[1] == b[0];
    } else {
      assert s[1] == rest[0] && [] + Collapse(rest + b) == Collapse(rest + b);
      CollapsePad(rest, b);
    }
  }

  /** A run of white space between two texts becomes one blank. */
  lemma {:induction false} CollapseRun(a: string, pad: string, b: string)
    requires AllSpace(pad) && pad != "" && (b == "" || !IsSpace(b[0])) && (a == "" || !IsSpace(a[|a| - 1]))
    ensures Collapse(a + (pad + b)) == Collapse(a) + ([' '] + Collapse(b))
    decreases |a|
  {
    if a == "" {
      assert a + (pad + b) == pad + b;
      CollapsePad(pad, b);
    } else {
      CollapseRun(a[1..], pad, b);
      CollapseFirst(a, pad + b);
    }
  }

  /** The first character and the rest, when the text before `tail` does not end in white space. */
  lemma CollapseFirst(a: string, tail: string)
    requires a != "" && !IsSpace(a[|a| - 1])
    ensures var lead := if !IsSpace(a[0]) then [a[0]] else if IsSpace(a[1]) then [] else [' '];
            Collapse(a) == lead + Collapse(a[1..]) && Collapse(a + tail) == lead + Collapse(a[1..] + tail)
  {
    var s := a + tail;
    assert s[0] == a[0] && s[1..] == a[1..] + tail;
    assert |a| > 1 ==> s[1] == a[1];
  }

  /** Anything else is kept. */
  lemma {:induction false} CollapseWord(word: string)
    requires forall i | 0 <= i < |word| :: !IsSpace(word[i])
    ensures Collapse(word) == word
  {
    if word != "" {
      CollapseWord(word[1..]);
    }
  }

  lemma PadStrip(left: string, s: string, right: string)
    requires AllSpace(left) && AllSpace(right)
    ensures Strip(left + s + right) == Strip(s)
  {
    var l, r := StripParts(s);
    assert left + s + right == (left + l) + Strip(s) + (r + right);
    StripPadded(left + l, Strip(s), r + right);
  }

  lemma LedPart(c: char, s: string)
    requires IsSpace(c)
    ensures Strip([c] + s) == Strip(s)
  {
    PadStrip([c], s, []);
    assert [c] + s + [] == [c] + s;
  }

  lemma PaddedPart(s: string)
    ensures Strip(s + "\n\n") == Strip(s)
  {
    PadStrip([], s, "\n\n");
    assert [] + s + "\n\n" == s + "\n\n";
  }

  /** What the marker-separated parts of a rationale become when another insight is appended. */
  lemma AppendedParts(current: string, candidate: string)
    ensures var parts, own := SplitOn(current, MARKER), SplitOn(candidate, MARKER);
            SplitOn(current + "\n\n" + MARKER + " " + candidate, MARKER) ==
            PadLast(parts, "\n\n") + ([[' '] + own[0]] + own[1..])
  {
    assert current + "\n\n" + MARKER + " " + candidate == (current + "\n\n") + MARKER + (" " + candidate);
    SplitAppend(current + "\n\n", MARKER, " " + candidate);
    SplitPadded(current, MARKER, "\n\n");
    SplitLed(' ', candidate, MARKER);
  }

  lemma TailOfPadded(parts: seq<string>, pad: string, more: seq<string>)
    requires parts != []
    ensures var n := |parts|;
            (PadLast(parts, pad) + more)[1..] == if n == 1 then more else parts[1..n - 1] + [parts[n - 1] + pad] + more
  {}

  /** Appending reads exactly as the old insights plus the parts of the new text. */
  lemma AppendedReads(fold: Folding, current: string, candidate: string, n: string)
    ensures Reads(fold, SplitOn(current + "\n\n" + MARKER + " " + candidate, MARKER)[1..], n)
            <==> Reads(fold, SplitOn(current, MARKER)[1..], n) || Reads(fold, SplitOn(candidate, MARKER), n)
  {
    var parts, own := SplitOn(current, MARKER), SplitOn(candidate, MARKER);
    var last := parts[|parts| - 1];
    AppendedParts(current, candidate);
    PaddedPart(last);
    LedPart(' ', own[0]);
    var after := SplitOn(current + "\n\n" + MARKER + " " + candidate, MARKER)[1..];
    var led := [[' '] + own[0]] + own[1..];
    TailOfPadded(parts, "\n\n", led);
    ReadsPieces(fold, parts, own, last, after, led, n);
  }

  lemma ReadsPieces(fold: Folding, parts: seq<string>, own: seq<string>, last: string, after: seq<string>,
                    led: seq<string>, n: string)
    requires parts != [] && own != [] && last == parts[|parts| - 1]
    requires led == [[' '] + own[0]] + own[1..]
    requires after == if |parts| == 1 then led else parts[1..|parts| - 1] + [last + "\n\n"] + led
    requires Strip(last + "\n\n") == Strip(last) && Strip([' '] + own[0]) == Strip(own[0])
    ensures Reads(fold, after, n) <==> Reads(fold, parts[1..], n) || Reads(fold, own, n)
  {
    assert own == [own[0]] + own[1..];
    assert Reads(fold, led, n) <==> Reads(fold, own, n);
    if |parts| > 1 {
      assert parts[1..] == parts[1..|parts| - 1] + [last];
    }
  }

  // ---- When appending twice is appending once ----

  /** The opening brackets a text carries once folded; white space carries none. */
  function Brackets(fold: Folding, s: string): nat {
    if s == [] then 0
    else (if IsSpace(s[0]) then 0 else multiset(fold(s[0]))['[']) + Brackets(fold, s[1..])
  }

  /** What the exactness result needs of `casefold`: brackets and blanks fold to themselves. */
  ghost predicate PlainFolding(fold: Folding) {
    fold('[') == ['['] && fold(' ') == [' ']
  }

  lemma {:induction false} BracketsConcat(fold: Folding, a: string, b: string)
    ensures Brackets(fold, a + b) == Brackets(fold, a) + Brackets(fold, b)
  {
    if a == [] {
      assert a + b == b;
    } else {
      assert (a + b)[1..] == a[1..] + b;
      BracketsConcat(fold, a[1..], b);
    }
  }

  lemma {:induction false} BracketsOfSpace(fold: Folding, pad: string)
    requires AllSpace(pad)
    ensures Brackets(fold, pad) == 0
  {
    if pad != [] {
      BracketsOfSpace(fold, pad[1..]);
    }
  }

  lemma BracketsStrip(fold: Folding, s: string)
    ensures Brackets(fold, Strip(s)) == Brackets(fold, s)
  {
    var l, r := StripParts(s);
    BracketsConcat(fold, l + Strip(s), r);
    BracketsConcat(fold, l, Strip(s));
    BracketsOfSpace(fold, l);
    BracketsOfSpace(fold, r);
  }

  lemma {:induction false} FoldedBrackets(fold: Folding, s: string)
    requires PlainFolding(fold)
    ensures multiset(FoldText(fold, Collapse(s)))['['] == Brackets(fold, s)
  {
    if s != [] {
      FoldedBrackets(fold, s[1..]);
      var rest := Collapse(s[1..]);
      if !IsSpace(s[0]) {
        assert ([s[0]] + rest)[1..] == rest;
      } else if |s| > 1 && IsSpace(s[1]) {
        assert Collapse(s) == rest;
      } else {
        assert Collapse(s) == [' '] + rest && ([' '] + rest)[1..] == rest;
        assert FoldText(fold, Collapse(s)) == fold(' ') + FoldText(fold, rest);
      }
    }
  }

  lemma NormalBrackets(fold: Folding, s: string)
    requires PlainFolding(fold)
    ensures multiset(Normalize(fold, s))['['] == Brackets(fold, s)
  {
    FoldedBrackets(fold, Strip(s));
    BracketsStrip(fold, s);
  }

  lemma MarkerBracket(fold: Folding)
    requires PlainFolding(fold)
    ensures Brackets(fold, MARKER) >= 1
  {
    assert Brackets(fold, MARKER) == multiset(fold('['))['['] + Brackets(fold, MARKER[1..]);
  }

  /** Every separator between the parts of a text costs each part at least one bracket. */
  lemma {:induction false} PartsLoseBrackets(fold: Folding, s: string, p: string)
    requires PlainFolding(fold) && p in SplitOn(s, MARKER)
    ensures Brackets(fold, p) + |SplitOn(s, MARKER)| - 1 <= Brackets(fold, s)
    decreases |s|
  {
    if s == [] {
    } else if StartsWith(s, MARKER) {
      var tail := s[|MARKER|..];
      assert s == MARKER + tail;
      BracketsConcat(fold, MARKER, tail);
      MarkerBracket(fold);
      PartsLoseBrackets(fold, tail, if p in SplitOn(tail, MARKER) then p else SplitOn(tail, MARKER)[0]);
    } else {
      var rest := SplitOn(s[1..], MARKER);
      assert s == [s[0]] + s[1..];
      BracketsConcat(fold, [s[0]], s[1..]);
      if p == [s[0]] + rest[0] {
        BracketsConcat(fold, [s[0]], rest[0]);
        PartsLoseBrackets(fold, s[1..], rest[0]);
      } else {
        assert p in rest[1..];
        PartsLoseBrackets(fold, s[1..], p);
      }
    }
  }

  /** An insight reads back from the text that carries it exactly when it does not contain the marker. */
  lemma OwnPartsRead(fold: Folding, candidate: string)
    requires Trim(candidate) && candidate != []
    ensures !Contains(candidate, MARKER) ==> Reads(fold, SplitOn(candidate, MARKER), Normalize(fold, candidate))
    ensures PlainFolding(fold) && Contains(candidate, MARKER) ==>
            !Reads(fold, SplitOn(candidate, MARKER), Normalize(fold, candidate))
  {
    SplitIffContains(candidate, MARKER);
    StripTrim(candidate);
    if !Contains(candidate, MARKER) {
      assert candidate in SplitOn(candidate, MARKER);
    } else if PlainFolding(fold) {
      forall p <- SplitOn(candidate, MARKER) ensures Normalize(fold, p) != Normalize(fold, candidate) {
        PartsLoseBrackets(fold, candidate, p);
        NormalBrackets(fold, p);
        NormalBrackets(fold, candidate);
      }
    }
  }

  /** A first insight behind its marker: the parts after the marker are the insight's own. */
  lemma FirstParts(fold: Folding, candidate: string, n: string)
    ensures Reads(fold, SplitOn(MARKER + " " + candidate, MARKER)[1..], n) <==>
            Reads(fold, SplitOn(candidate, MARKER), n)
  {
    var own := SplitOn(candidate, MARKER);
    assert MARKER + " " + candidate == [] + MARKER + (" " + candidate);
    SplitAppend([], MARKER, " " + candidate);
    SplitLed(' ', candidate, MARKER);
    LedPart(' ', own[0]);
    assert own == [own[0]] + own[1..];
  }

  lemma MarkedTrim(prefix: string, candidate: string)
    requires Trim(candidate) && candidate != [] && Trim(prefix)
    ensures Trim(MARKER + " " + candidate)
    ensures prefix != [] ==> Trim(prefix + "\n\n" + MARKER + " " + candidate)
  {}

  /** The rationale already carries the insight. */
  ghost predicate AlreadyThere(fold: Folding, existing: Option<string>, insight: string) {
    Strip(OrEmpty(existing)) != [] && Present(fold, Strip(OrEmpty(existing)), Strip(insight))
  }

  /** After one append the insight is there to be found exactly when it was there before or carries no
      marker of its own. */
  lemma AppendedThere(fold: Folding, existing: Option<string>, insight: string)
    requires Strip(insight) != []
    ensures var r := Append(fold, existing, insight);
            r.Some? && r.value != [] && Strip(r.value) == r.value
            && (AlreadyThere(fold, existing, insight) || !Contains(Strip(insight), MARKER) ==>
                AlreadyThere(fold, r, insight))
            && (PlainFolding(fold) && AlreadyThere(fold, r, insight) ==>
                  AlreadyThere(fold, existing, insight) || !Contains(Strip(insight), MARKER))
  {
    var current, candidate := Strip(OrEmpty(existing)), Strip(insight);
    var n := Normalize(fold, candidate);
    StripTwice(OrEmpty(existing));
    StripTwice(insight);
    OwnPartsRead(fold, candidate);
    MarkedTrim(current, candidate);
    if current == [] {
      FirstParts(fold, candidate, n);
      StripTrim(MARKER + " " + candidate);
    } else if !Present(fold, current, candidate) {
      AppendedReads(fold, current, candidate, n);
      StripTrim(current + "\n\n" + MARKER + " " + candidate);
    }
  }

  /** Appending the same insight again changes nothing if and only if the insight is blank, was already
      there, or does not itself contain the marker. */
  lemma AppendTwiceIff(fold: Folding, existing: Option<string>, insight: string)
    requires PlainFolding(fold)
    ensures var once := Append(fold, existing, insight);
            Append(fold, once, insight) == once <==>
            Strip(insight) == [] || AlreadyThere(fold, existing, insight) || !Contains(Strip(insight), MARKER)
  {
    var once := Append(fold, existing, insight);
    StripTwice(OrEmpty(existing));
    if Strip(insight) != [] {
      AppendedThere(fold, existing, insight);
    }
  }

  /** A rationale before and after each of several passes with the same insight. */
  ghost predicate Passes(fold: Folding, insight: string, rs: seq<Option<string>>) {
    forall i | 0 <= i < |rs| - 1 :: rs[i + 1] == Append(fold, rs[i], insight)
  }

  /** The insight carries a marker of its own and does not stand behind one in the rationale. */
  ghost predicate Unread(fold: Folding, r: Option<string>, insight: string) {
    Contains(Strip(insight), MARKER) && !AlreadyThere(fold, r, insight)
  }

  lemma UnreadAfterPass(fold: Folding, r: Option<string>, insight: string, r': Option<string>)
    requires PlainFolding(fold) && Unread(fold, r, insight) && r' == Append(fold, r, insight)
    ensures Unread(fold, r', insight)
  {
    MarkerNotBlank(Strip(insight));
    AppendedThere(fold, r, insight);
  }

  lemma {:induction false} StaysUnread(fold: Folding, insight: string, rs: seq<Option<string>>, n: nat)
    requires PlainFolding(fold) && Passes(fold, insight, rs) && n < |rs| && Unread(fold, rs[0], insight)
    ensures Unread(fold, rs[n], insight)
  {
    if n > 0 {
      var m := n - 1;
      StaysUnread(fold, insight, rs, m);
      assert rs[m + 1] == Append(fold, rs[m], insight);
      UnreadAfterPass(fold, rs[m], insight, rs[n]);
    }
  }

  lemma MarkerNotBlank(insight: string)
    requires Contains(insight, MARKER)
    ensures insight != []
  {}

  /** Such an insight is appended again on every pass: the rationale never stops growing. */
  lemma MarkedGrowsForever(fold: Folding, insight: string, rs: seq<Option<string>>, n: nat)
    requires PlainFolding(fold) && Passes(fold, insight, rs) && n + 1 < |rs| && Unread(fold, rs[0], insight)
    ensures rs[n + 1].Some? && |rs[n + 1].value| > |Strip(OrEmpty(rs[n]))|
    ensures n > 0 ==> Strip(OrEmpty(rs[n])) == OrEmpty(rs[n])
  {
    MarkerNotBlank(Strip(insight));
    StaysUnread(fold, insight, rs, n);
    assert rs[n + 1] == Append(fold, rs[n], insight);
    if n > 0 {
      assert rs[(n - 1) + 1] == Append(fold, rs[n - 1], insight);
      AppendedThere(fold, rs[n - 1], insight);
    }
  }

  /** The marker itself as an insight, on an empty rationale: the second pass changes it. */
  lemma MarkerRepeats(fold: Folding)
    requires PlainFolding(fold)
    ensures var once := Append(fold, None, MARKER); Append(fold, once, MARKER) != once
  {
    assert Trim(MARKER);
    StripTrim(MARKER);
    assert StartsWith(MARKER[0..], MARKER);
    AppendTwiceIff(fold, None, MARKER);
  }

  /** Appending is a no-op: the rationale is in normal form and carries the insight, if there is one. */
  ghost predicate Absorbs(fold: Folding, r: Option<string>, insight: string) {
    Append(fold, r, insight) == r
  }

  lemma AbsorbsMeans(fold: Folding, r: Option<string>, insight: string)
    ensures Absorbs(fold, r, insight) <==>
            var current := Strip(OrEmpty(r));
            if current == [] then r == None && Strip(insight) == []
            else r == Some(current) && (Strip(insight) == [] || Present(fold, current, Strip(insight)))
  {
    var current, candidate := Strip(OrEmpty(r)), Strip(insight);
    StripTwice(OrEmpty(r));
    StripTwice(insight);
    if candidate != [] {
      MarkedTrim(current, candidate);
      StripTrim(MARKER + " " + candidate);
      if current != [] { StripTrim(current + "\n\n" + MARKER + " " + candidate); }
    }
  }

  /** What has been absorbed stays absorbed, whatever is appended later. */
  lemma AbsorbedStays(fold: Folding, r: Option<string>, insight: string, later: string)
    requires Absorbs(fold, r, insight)
    ensures Absorbs(fold, Append(fold, r, later), insight)
  {
    var r' := Append(fold, r, later);
    AbsorbsMeans(fold, r, insight);
    AbsorbsMeans(fold, r', insight);
    StripTwice(OrEmpty(r));
    if Strip(later) != [] {
      AppendedThere(fold, r, later);
      if Strip(insight) != [] && !Present(fold, Strip(OrEmpty(r)), Strip(later)) {
        AppendedReads(fold, Strip(OrEmpty(r)), Strip(later), Normalize(fold, Strip(insight)));
      }
    }
  }

  // ---- Several insights in a row: what the rationale carries, and when a second round changes nothing ----

  /** `n` stands, normalised, behind a marker of the rationale. */
  ghost predicate Carries(fold: Folding, r: Option<string>, n: string) {
    Reads(fold, SplitOn(Strip(OrEmpty(r)), MARKER)[1..], n)
  }

  /** What `Append` returns: nothing, or a nonblank stripped text. */
  predicate Tidy(r: Option<string>) {
    r == None || (r.value != [] && Strip(r.value) == r.value)
  }

  lemma BlankCarriesNothing(fold: Folding, r: Option<string>, n: string)
    requires Strip(OrEmpty(r)) == []
    ensures !Carries(fold, r, n)
  {}

  lemma AppendIsTidy(fold: Folding, r: Option<string>, insight: string)
    ensures Tidy(Append(fold, r, insight))
    ensures |OrEmpty(Append(fold, r, insight))| >= |Strip(OrEmpty(r))|
    ensures Tidy(r) && |OrEmpty(Append(fold, r, insight))| == |OrEmpty(r)| ==> Append(fold, r, insight) == r
  {
    var current, candidate := Strip(OrEmpty(r)), Strip(insight);
    StripTwice(OrEmpty(r));
    StripTwice(insight);
    if candidate != [] {
      MarkedTrim(current, candidate);
      StripTrim(MARKER + " " + candidate);
      if current != [] { StripTrim(current + "\n\n" + MARKER + " " + candidate); }
    }
  }

  /** One append makes readable what the new text brings - unless it is blank or its whole was readable before. */
  lemma AppendCarries(fold: Folding, r: Option<string>, insight: string, n: string)
    ensures Carries(fold, Append(fold, r, insight), n) <==>
              Carries(fold, r, n)
              || (Strip(insight) != [] && !Carries(fold, r, Normalize(fold, Strip(insight)))
                  && Reads(fold, SplitOn(Strip(insight), MARKER), n))
  {
    var current, candidate := Strip(OrEmpty(r)), Strip(insight);
    StripTwice(OrEmpty(r));
    StripTwice(insight);
    if candidate != [] {
      MarkedTrim(current, candidate);
      if current == [] {
        BlankCarriesNothing(fold, r, n);
        BlankCarriesNothing(fold, r, Normalize(fold, candidate));
        StripTrim(MARKER + " " + candidate);
        FirstParts(fold, candidate, n);
      } else {
        StripTrim(current + "\n\n" + MARKER + " " + candidate);
        AppendedReads(fold, current, candidate, n);
      }
    }
  }

  /** A tidy rationale absorbs an insight exactly when it is blank or carried. */
  lemma AbsorbsIffCarries(fold: Folding, r: Option<string>, insight: string)
    requires Tidy(r)
    ensures Absorbs(fold, r, insight) <==> Strip(insight) == [] || Carries(fold, r, Normalize(fold, Strip(insight)))
  {
    AbsorbsMeans(fold, r, insight);
    if Strip(OrEmpty(r)) == [] { BlankCarriesNothing(fold, r, Normalize(fold, Strip(insight))); }
  }

  function AppendAll(fold: Folding, r: Option<string>, insights: seq<string>): Option<string> {
    if insights == [] then r
    else Append(fold, AppendAll(fold, r, insights[..|insights| - 1]), insights[|insights| - 1])
  }

  /** The read-set accumulated along a round of appends: what stood there before, and the parts of every nonblank
      insight that was not readable as a whole when its turn came. */
  ghost predicate Readable(fold: Folding, r: Option<string>, insights: seq<string>, n: string) {
    if insights == [] then Carries(fold, r, n)
    else
      var init, last := insights[..|insights| - 1], Strip(insights[|insights| - 1]);
      Readable(fold, r, init, n)
      || (last != [] && !Readable(fold, r, init, Normalize(fold, last)) && Reads(fold, SplitOn(last, MARKER), n))
  }

  lemma {:induction false} AppendAllCarries(fold: Folding, r: Option<string>, insights: seq<string>, n: string)
    ensures Carries(fold, AppendAll(fold, r, insights), n) <==> Readable(fold, r, insights, n)
  {
    if insights != [] {
      var init, last := insights[..|insights| - 1], insights[|insights| - 1];
      AppendAllCarries(fold, r, init, n);
      AppendAllCarries(fold, r, init, Normalize(fold, Strip(last)));
      AppendCarries(fold, AppendAll(fold, r, init), last, n);
    }
  }

  lemma {:induction false} AppendAllTidy(fold: Folding, r: Option<string>, insights: seq<string>)
    requires Tidy(r) || insights != []
    ensures Tidy(AppendAll(fold, r, insights))
    ensures Tidy(r) ==> |OrEmpty(AppendAll(fold, r, insights))| >= |OrEmpty(r)|
  {
    if insights != [] {
      var init, last := insights[..|insights| - 1], insights[|insights| - 1];
      var before := AppendAll(fold, r, init);
      AppendIsTidy(fold, before, last);
      if Tidy(r) { AppendAllTidy(fold, r, init); }
    }
  }

  ghost predicate AllAbsorbed(fold: Folding, r: Option<string>, insights: seq<string>) {
    forall k | 0 <= k < |insights| :: Absorbs(fold, r, insights[k])
  }

  lemma AllAbsorbedSnoc(fold: Folding, r: Option<string>, insights: seq<string>)
    requires insights != []
    ensures var n := |insights| - 1;
            AllAbsorbed(fold, r, insights) <==> AllAbsorbed(fold, r, insights[..n]) && Absorbs(fold, r, insights[n])
  {
    var n := |insights| - 1;
    assert forall k | 0 <= k < n :: insights[..n][k] == insights[k];
  }

  /** A round changes a tidy rationale unless it absorbs each of the insights: nothing ever shrinks. */
  lemma {:induction false} RoundIsIdentityIff(fold: Folding, r: Option<string>, insights: seq<string>)
    requires Tidy(r)
    ensures AppendAll(fold, r, insights) == r <==> AllAbsorbed(fold, r, insights)
  {
    if insights != [] {
      var init, last := insights[..|insights| - 1], insights[|insights| - 1];
      var before := AppendAll(fold, r, init);
      RoundIsIdentityIff(fold, r, init);
      AppendAllTidy(fold, r, init);
      AppendIsTidy(fold, before, last);
      AllAbsorbedSnoc(fold, r, insights);
      assert AppendAll(fold, r, insights) == r ==> before == r;
    }
  }

  /** Every insight of the round is blank or readable in the end. */
  ghost predicate AllReadable(fold: Folding, r: Option<string>, insights: seq<string>) {
    forall k | 0 <= k < |insights| ::
      Strip(insights[k]) == [] || Readable(fold, r, insights, Normalize(fold, Strip(insights[k])))
  }

  /** A second round with the same insights changes nothing if and only if each nonblank one is in the read-set
      of the first round. */
  lemma SecondRoundIff(fold: Folding, r: Option<string>, insights: seq<string>)
    requires insights != []
    ensures AppendAll(fold, AppendAll(fold, r, insights), insights) == AppendAll(fold, r, insights)
            <==> AllReadable(fold, r, insights)
  {
    var once := AppendAll(fold, r, insights);
    AppendAllTidy(fold, r, insights);
    RoundIsIdentityIff(fold, once, insights);
    forall k | 0 <= k < |insights|
      ensures Absorbs(fold, once, insights[k]) <==>
                Strip(insights[k]) == [] || Readable(fold, r, insights, Normalize(fold, Strip(insights[k])))
    {
      AbsorbsIffCarries(fold, once, insights[k]);
      AppendAllCarries(fold, r, insights, Normalize(fold, Strip(insights[k])));
    }
  }

  lemma {:induction false} MarkerlessReadable(fold: Folding, r: Option<string>, insights: seq<string>, k: nat)
    requires k < |insights| && Strip(insights[k]) != [] && !Contains(Strip(insights[k]), MARKER)
    ensures Readable(fold, r, insights, Normalize(fold, Strip(insights[k])))
  {
    var init, last := insights[..|insights| - 1], insights[|insights| - 1];
    if k < |init| {
      MarkerlessReadable(fold, r, init, k);
    } else {
      StripTwice(last);
      OwnPartsRead(fold, Strip(last));
    }
  }
}
