/** Threats an analyst writes by hand: from a catalog rule or entirely custom. */
module ThreatCatalog {
  import opened Wrappers
  import opened PyText
  import opened Threats

  datatype CatalogEntry = CatalogEntry(ruleId: string, stride: string, subtype: string, severity: string,
      template: string)

  /** `nodeIds` is `None` when one of the given node ids is not a UUID. */
  datatype ManualBody = ManualBody(
    ruleId: Option<string>, subtype: Option<string>, description: Option<string>, severity: Option<string>,
    stride: Option<string>, nodeIds: Option<seq<Uuid>>)

  datatype ManualError = DescriptionRequired | InvalidSeverity | InvalidNodeId

  /** `value or fallback`. */
  function Or(s: Option<string>, fallback: string): string {
    if Blank(s) then fallback else s.value
  }

  function StoredRuleId(b: ManualBody): Option<string> {
    OrNone(Some(Strip(Or(b.ruleId, ""))))
  }

  /** The first catalog entry with the given rule. */
  function Lookup(catalog: seq<CatalogEntry>, rule: Option<string>): Option<CatalogEntry> {
    if catalog == [] || rule == None then None
    else if catalog[0].ruleId == rule.value then Some(catalog[0])
    else Lookup(catalog[1..], rule)
  }

  function BlankRow(now: Time): Threat {
    Threat("", "", "", "", "", Manual, Open, None, None, false, false, [], [], None, None, None, None, None, "none",
           None, None, None, None, None, None, None, None, None, None, now)
  }

  function ManualRow(catalog: seq<CatalogEntry>, b: ManualBody, displayId: string, now: Time)
    : Result<Threat, ManualError>
  {
    var rule := StoredRuleId(b);
    var entry := Lookup(catalog, rule);
    if entry == None && Blank(b.description) then Err(DescriptionRequired)
    else
      var severity := Or(b.severity, if entry.Some? then entry.value.severity else "Medium");
      if severity !in {"Critical", "High", "Medium", "Low"} then Err(InvalidSeverity)
      else if b.nodeIds == None then Err(InvalidNodeId)
      else
        Ok(BlankRow(now).(
             displayId := displayId, severity := severity, ruleId := rule, nodeIds := b.nodeIds.value,
             description := Or(b.description, if entry.Some? then entry.value.template else ""),
             stride := if entry.Some? then entry.value.stride else Or(b.stride, "Tampering"),
             subtype := if entry.Some? then entry.value.subtype
                        else Or(Some(Strip(Or(b.subtype, "Custom threat"))), "Custom threat")))
  }

  predicate Rated(severity: string) {
    severity == "Critical" || severity == "High" || severity == "Medium" || severity == "Low"
  }

  /** `create_manual_threat` up to the insert: catalog defaults under the caller's overrides, checks in order. */
  method BuildManual(catalog: seq<CatalogEntry>, b: ManualBody, displayId: string, now: Time)
    returns (r: Result<Threat, ManualError>)
    ensures r == ManualRow(catalog, b, displayId, now)
  {
    var rule := StoredRuleId(b);
    var entry := Lookup(catalog, rule);
    var description, severity, stride, subtype := "", "", "", "";
    match entry {
      case Some(e) =>
        description, severity := Or(b.description, e.template), Or(b.severity, e.severity);
        stride, subtype := e.stride, e.subtype;
      case None =>
        if Blank(b.description) { return Err(DescriptionRequired); }
        description, severity, stride := b.description.value, Or(b.severity, "Medium"), Or(b.stride, "Tampering");
        subtype := Strip(Or(b.subtype, "Custom threat"));
        if subtype == "" { subtype := "Custom threat"; }
    }
    if !Rated(severity) { return Err(InvalidSeverity); }
    if b.nodeIds == None { return Err(InvalidNodeId); }
    var row := BlankRow(now).(displayId := displayId, description := description, stride := stride, subtype := subtype);
    row := row.(severity := severity, ruleId := rule, nodeIds := b.nodeIds.value);
    return Ok(row);
  }
}
