/** The scan-target port list: a canonicalising parser and printer. */
module Ports {
  import opened Wrappers
  import opened PyText

  datatype PortError = InvalidPorts

  predicate ValidPort(n: int) {
    1 <= n <= 65535
  }

  /** One comma-separated piece: stripped, nonempty, all decimal digits, in range.  `isdigit` also lets
      digits without a decimal value through (superscripts); `int` then raises, so they are refused too. */
  function PortOf(d: Digits, piece: string): Option<nat>
  {
    var text := Strip(piece);
    if text == [] || !AllDigits(d, text) then None
    else if ValidPort(Value(d, text)) then Some(Value(d, text)) else None
  }

  /** The ports a list of pieces denotes, or None if any piece is bad. */
  function PortsOf(d: Digits, pieces: seq<string>): Option<seq<nat>> {
    if pieces == [] then Some([])
    else
      var init, last := PortsOf(d, pieces[..|pieces| - 1]), PortOf(d, pieces[|pieces| - 1]);
      if init.Some? && last.Some? then Some(init.value + [last.value]) else None
  }

  /** What a field value means: no ports at all, or a nonempty list, or nothing acceptable. */
  datatype Meaning = NoPorts | PortList(ports: seq<nat>) | Unacceptable

  function MeaningOf(d: Digits, value: Option<string>): Meaning {
    if value == None || Strip(value.value) == [] then NoPorts
    else match PortsOf(d, Split(Strip(value.value), ','))
      case Some(ports) => PortList(ports)
      case None => Unacceptable
  }

  function PrintAll(ports: seq<nat>): (r: seq<string>)
    ensures |r| == |ports|
  {
    seq(|ports|, i requires 0 <= i < |ports| => Print(ports[i]))
  }

  function Render(ports: seq<nat>): string {
    Join(PrintAll(ports), ',')
  }

  ghost predicate ValidPorts(ports: seq<nat>) {
    ports != [] && forall n <- ports :: ValidPort(n)
  }

  /** `_validate_scan_target_ports`. */
  method Normalise(d: Digits, value: Option<string>) returns (r: Result<Option<string>, PortError>)
    ensures r == match MeaningOf(d, value)
                 case NoPorts => Ok(None)
                 case PortList(ports) => Ok(Some(Render(ports)))
                 case Unacceptable => Err(InvalidPorts)
  {
    if value == None { return Ok(None); }
    var candidate := Strip(value.value);
    if candidate == [] { return Ok(None); }
    var pieces := Split(candidate, ',');
    var normalised: seq<string> := [];
    ghost var ports: seq<nat> := [];
    for i := 0 to |pieces|
      invariant PortsOf(d, pieces[..i]) == Some(ports)
      invariant normalised == PrintAll(ports)
    {
      assert pieces[..i + 1][..i] == pieces[..i];
      var text := Strip(pieces[i]);
      if text == [] || !AllDigits(d, text) || !ValidPort(Value(d, text)) {
        BadPiece(d, pieces, i);
        return Err(InvalidPorts);
      }
      normalised := normalised + [Print(Value(d, text))];
      ports := ports + [Value(d, text)];
    }
    assert pieces[..|pieces|] == pieces;
    return Ok(Some(Join(normalised, ',')));
  }

  lemma {:induction false} BadPiece(d: Digits, pieces: seq<string>, i: nat)
    requires i < |pieces| && PortOf(d, pieces[i]) == None
    ensures PortsOf(d, pieces) == None
  {
    if i < |pieces| - 1 {
      assert pieces[..|pieces| - 1][i] == pieces[i];
      BadPiece(d, pieces[..|pieces| - 1], i);
    }
  }

  // ---- What a field value means, read off its text ----

  /** White space around, then decimal digits of a number from 1 to 65535. */
  ghost predicate PieceIs(d: Digits, piece: string, port: nat) {
    var text := Strip(piece);
    text != "" && AllDigits(d, text) && Value(d, text) == port && 1 <= port <= 65535
  }

  /** The text is these pieces, separated by commas, and piece `i` is port `i`. */
  ghost predicate IsList(d: Digits, text: string, pieces: seq<string>, ports: seq<nat>) {
    && |pieces| == |ports| > 0 && Join(pieces, ',') == text
    && forall i | 0 <= i < |pieces| :: ',' !in pieces[i] && PieceIs(d, pieces[i], ports[i])
  }

  lemma {:induction false} PortsOfPieces(d: Digits, pieces: seq<string>, ports: seq<nat>)
    ensures PortsOf(d, pieces) == Some(ports) <==>
              |pieces| == |ports| && forall i | 0 <= i < |pieces| :: PieceIs(d, pieces[i], ports[i])
  {
    if pieces != [] && ports != [] {
      var init, initPorts := pieces[..|pieces| - 1], ports[..|ports| - 1];
      PortsOfPieces(d, init, initPorts);
      assert pieces == init + [pieces[|pieces| - 1]] && ports == initPorts + [ports[|ports| - 1]];
      if PortsOf(d, pieces) == Some(ports) {
        assert ports[..|ports| - 1] == PortsOf(d, init).value;
      }
    }
  }

  /** A blank field means no ports; any other means a list of ports exactly when its comma-separated pieces are port
      numbers one by one, and is unacceptable otherwise. */
  lemma MeaningIsRead(d: Digits, value: Option<string>, ports: seq<nat>)
    ensures MeaningOf(d, value) == NoPorts <==> value == None || AllSpace(value.value)
    ensures MeaningOf(d, value) == PortList(ports) <==>
              value.Some? && exists pieces :: IsList(d, Strip(value.value), pieces, ports)
  {
    if value.Some? {
      var text := Strip(value.value);
      BlankIffSpace(value.value);
      var split := Split(text, ',');
      JoinSplit(text, ',');
      PortsOfPieces(d, split, ports);
      if MeaningOf(d, value) == PortList(ports) {
        assert IsList(d, text, split, ports);
      }
      if pieces :| IsList(d, text, pieces, ports) {
        SplitJoin(pieces, ',');
        ListNotBlank(d, text, pieces, ports);
      }
    }
  }

  lemma ListNotBlank(d: Digits, text: string, pieces: seq<string>, ports: seq<nat>)
    requires IsList(d, text, pieces, ports)
    ensures text != ""
  {
    assert PieceIs(d, pieces[0], ports[0]);
    assert Strip("") == "";
  }

  // ---- Reading back what was rendered ----

  lemma PortOfPrint(d: Digits, n: nat)
    requires DigitTable(d) && ValidPort(n)
    ensures PortOf(d, Print(n)) == Some(n) && ',' !in Print(n) && Trim(Print(n)) && Print(n) != []
  {
    ValuePrint(d, n);
    PrintIsDigits(n);
    AsciiAreDigits(d, Print(n));
    StripTrim(Print(n));
  }

  lemma {:induction false} PortsOfPrintAll(d: Digits, ports: seq<nat>)
    requires DigitTable(d) && forall n <- ports :: ValidPort(n)
    ensures PortsOf(d, PrintAll(ports)) == Some(ports)
  {
    if ports != [] {
      var init, last := ports[..|ports| - 1], ports[|ports| - 1];
      assert ports == init + [last];
      PortsOfPrintAll(d, init);
      PortOfPrint(d, last);
      assert PrintAll(ports)[..|ports| - 1] == PrintAll(init);
    }
  }

  lemma {:induction false} RenderTrim(d: Digits, ports: seq<nat>)
    requires DigitTable(d) && ValidPorts(ports)
    ensures Render(ports) != [] && Trim(Render(ports))
  {
    PortOfPrint(d, ports[0]);
    if |ports| > 1 {
      var rest := ports[1..];
      assert ports == [ports[0]] + rest;
      RenderTrim(d, rest);
      assert PrintAll(ports)[1..] == PrintAll(rest);
      assert Render(ports) == Print(ports[0]) + [','] + Render(rest);
    }
  }

  lemma RenderMeans(d: Digits, ports: seq<nat>)
    requires DigitTable(d) && ValidPorts(ports)
    ensures MeaningOf(d, Some(Render(ports))) == PortList(ports)
  {
    RenderTrim(d, ports);
    StripTrim(Render(ports));
    forall p <- PrintAll(ports) ensures ',' !in p {
      var i :| 0 <= i < |ports| && PrintAll(ports)[i] == p;
      PortOfPrint(d, ports[i]);
    }
    SplitJoin(PrintAll(ports), ',');
    PortsOfPrintAll(d, ports);
  }

  lemma {:induction false} PortsOfValid(d: Digits, pieces: seq<string>)
    requires PortsOf(d, pieces).Some?
    ensures |PortsOf(d, pieces).value| == |pieces| && forall n <- PortsOf(d, pieces).value :: ValidPort(n)
  {
    if pieces != [] {
      PortsOfValid(d, pieces[..|pieces| - 1]);
    }
  }

  /** The value `Normalise` stores. */
  function Normal(d: Digits, value: Option<string>): Option<string>
    requires MeaningOf(d, value) != Unacceptable
  {
    match MeaningOf(d, value)
    case PortList(ports) => Some(Render(ports))
    case _ => None
  }

  /** Normalising keeps the meaning, doing it twice is doing it once, and two accepted values have the
      same normal form exactly when they mean the same ports. */
  lemma NormalisingIsCanonical(d: Digits, a: Option<string>, b: Option<string>)
    requires DigitTable(d) && MeaningOf(d, a) != Unacceptable && MeaningOf(d, b) != Unacceptable
    ensures MeaningOf(d, Normal(d, a)) == MeaningOf(d, a)
    ensures Normal(d, Normal(d, a)) == Normal(d, a)
    ensures Normal(d, a) == Normal(d, b) <==> MeaningOf(d, a) == MeaningOf(d, b)
  {
    MeaningKept(d, a);
    MeaningKept(d, b);
  }

  lemma MeaningKept(d: Digits, a: Option<string>)
    requires DigitTable(d) && MeaningOf(d, a) != Unacceptable
    ensures MeaningOf(d, Normal(d, a)) == MeaningOf(d, a)
  {
    match MeaningOf(d, a)
    case PortList(ports) =>
      PortsOfValid(d, Split(Strip(a.value), ','));
      RenderMeans(d, ports);
    case _ =>
  }

  /** Exactly the renderings of nonempty lists of valid ports are their own normal form. */
  lemma FixedPointsAreRenderings(d: Digits, text: string)
    requires DigitTable(d)
    ensures (MeaningOf(d, Some(text)) != Unacceptable && Normal(d, Some(text)) == Some(text))
            <==> exists ports :: ValidPorts(ports) && text == Render(ports)
  {
    if MeaningOf(d, Some(text)) != Unacceptable && Normal(d, Some(text)) == Some(text) {
      var ports := MeaningOf(d, Some(text)).ports;
      PortsOfValid(d, Split(Strip(text), ','));
      assert ValidPorts(ports) && text == Render(ports);
    }
    if ports :| ValidPorts(ports) && text == Render(ports) {
      RenderMeans(d, ports);
    }
  }
}
