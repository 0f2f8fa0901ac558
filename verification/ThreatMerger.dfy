/** Merging the AI pass into the rule threats: additive, guarded, and numbered. */
module ThreatMerger {
  import opened Wrappers
  import opened PyText
  import opened DisplayIds
  import opened Insights

  datatype RuleThreat = RuleThreat(
    ruleId: string, displayId: string, stride: string, subtype: string, severity: string, description: string,
    nodeIds: seq<string>, edgeIds: seq<string>, rationale: Option<string>, source: string, providerManaged: bool)

  datatype AIThreat = AIThreat(
    description: string, stride: string, severity: string, enhances: Option<string>, reasoning: string,
    rationale: string, nodeNames: seq<string>)

  /** `str.lower`, `casefold`, the regex that drops control citations, and the digit table: all arbitrary. */
  datatype Text = Text(lower: string -> string, fold: Folding, clean: string -> string, digits: Digits)

  /** A diagram as the merger sees it: the name-to-id dictionary in insertion order, the boundary names, and
      which nodes a provider manages. */
  datatype Diagram = Diagram(names: seq<(string, string)>, boundaries: set<string>, managed: map<string, bool>)

  // ---- Which nodes an AI threat is about ----

  function IdOf(names: seq<(string, string)>, name: string): Option<string> {
    if names == [] then None
    else if names[|names| - 1].0 == name then Some(names[|names| - 1].1)
    else IdOf(names[..|names| - 1], name)
  }

  function AddNew(found: seq<string>, id: string): seq<string> {
    if id in found then found else found + [id]
  }

  /** `_resolve_node_ids`, first loop: the structured names, in order. */
  function NamedIds(x: Text, names: seq<(string, string)>, wanted: seq<string>): seq<string> {
    if wanted == [] then []
    else
      var found := NamedIds(x, names, wanted[..|wanted| - 1]);
      match IdOf(names, Strip(x.lower(wanted[|wanted| - 1])))
      case Some(id) => if id != [] then AddNew(found, id) else found
      case None => found
  }

  /** Second loop: every node whose name occurs in the description. */
  function MentionedIds(names: seq<(string, string)>, lowered: string, found: seq<string>): seq<string> {
    if names == [] then found
    else
      var before, last := MentionedIds(names[..|names| - 1], lowered, found), names[|names| - 1];
      if Contains(lowered, last.0) then AddNew(before, last.1) else before
  }

  function ResolvedIds(x: Text, names: seq<(string, string)>, ai: AIThreat): seq<string> {
    MentionedIds(names, x.lower(ai.description), NamedIds(x, names, ai.nodeNames))
  }

  lemma {:induction false} NamedIdsMembers(x: Text, names: seq<(string, string)>, wanted: seq<string>)
    ensures Distinct(NamedIds(x, names, wanted))
    ensures forall id :: id in NamedIds(x, names, wanted) <==>
              id != [] && exists name <- wanted :: IdOf(names, Strip(x.lower(name))) == Some(id)
  {
    if wanted != [] {
      var init, last := wanted[..|wanted| - 1], wanted[|wanted| - 1];
      assert wanted == init + [last];
      NamedIdsMembers(x, names, init);
    }
  }

  lemma {:induction false} MentionedIdsMembers(names: seq<(string, string)>, lowered: string, found: seq<string>)
    requires Distinct(found)
    ensures Distinct(MentionedIds(names, lowered, found)) && found <= MentionedIds(names, lowered, found)
    ensures forall id :: id in MentionedIds(names, lowered, found) <==>
              id in found || exists p <- names :: p.1 == id && Contains(lowered, p.0)
  {
    if names != [] {
      var init, last := names[..|names| - 1], names[|names| - 1];
      assert names == init + [last];
      MentionedIdsMembers(init, lowered, found);
    }
  }

  /** The resolved list has no repetitions and holds exactly the nodes the threat names or mentions. */
  lemma ResolvedIdsExact(x: Text, names: seq<(string, string)>, ai: AIThreat)
    ensures Distinct(ResolvedIds(x, names, ai))
    ensures forall id :: id in ResolvedIds(x, names, ai) <==>
              (id != [] && exists name <- ai.nodeNames :: IdOf(names, Strip(x.lower(name))) == Some(id))
              || exists p <- names :: p.1 == id && Contains(x.lower(ai.description), p.0)
  {
    NamedIdsMembers(x, names, ai.nodeNames);
    MentionedIdsMembers(names, x.lower(ai.description), NamedIds(x, names, ai.nodeNames));
  }

  lemma NamedIdsSnoc(x: Text, names: seq<(string, string)>, wanted: seq<string>, i: nat)
    requires i < |wanted|
    ensures var found, id := NamedIds(x, names, wanted[..i]), IdOf(names, Strip(x.lower(wanted[i])));
            NamedIds(x, names, wanted[..i + 1]) == if id.Some? && id.value != [] then AddNew(found, id.value) else found
  {
    assert wanted[..i + 1][..i] == wanted[..i];
  }

  lemma MentionedIdsSnoc(names: seq<(string, string)>, lowered: string, named: seq<string>, i: nat)
    requires i < |names|
    ensures var found := MentionedIds(names[..i], lowered, named);
            MentionedIds(names[..i + 1], lowered, named)
            == if Contains(lowered, names[i].0) then AddNew(found, names[i].1) else found
  {
    assert names[..i + 1][..i] == names[..i];
  }

  method ResolveNodeIds(x: Text, names: seq<(string, string)>, ai: AIThreat) returns (found: seq<string>)
    ensures found == ResolvedIds(x, names, ai)
  {
    found := [];
    for i := 0 to |ai.nodeNames|
      invariant found == NamedIds(x, names, ai.nodeNames[..i])
    {
      NamedIdsSnoc(x, names, ai.nodeNames, i);
      var id := IdOf(names, Strip(x.lower(ai.nodeNames[i])));
      if id.Some? && id.value != [] && id.value !in found {
        found := found + [id.value];
      }
    }
    assert ai.nodeNames[..|ai.nodeNames|] == ai.nodeNames;
    var lowered := x.lower(ai.description);
    ghost var named := found;
    for i := 0 to |names|
      invariant found == MentionedIds(names[..i], lowered, named)
    {
      MentionedIdsSnoc(names, lowered, named, i);
      if Contains(lowered, names[i].0) && names[i].1 !in found {
        found := found + [names[i].1];
      }
    }
    assert names[..|names|] == names;
  }

  // ---- Duplicates ----

  /** Same STRIDE category and a node in common. */
  predicate Overlaps(t: RuleThreat, stride: string, ids: seq<string>) {
    t.stride == stride && exists id <- ids :: id in t.nodeIds
  }

  predicate Duplicate(rules: seq<RuleThreat>, stride: string, ids: seq<string>) {
    exists t <- rules :: Overlaps(t, stride, ids)
  }

  method IsDuplicate(ai: AIThreat, existing: seq<RuleThreat>, ids: seq<string>) returns (dup: bool)
    ensures dup <==> Duplicate(existing, ai.stride, ids)
  {
    for i := 0 to |existing|
      invariant forall k | 0 <= k < i :: !Overlaps(existing[k], ai.stride, ids)
    {
      if existing[i].stride != ai.stride { continue; }
      if exists id <- ids :: id in existing[i].nodeIds {
        assert Overlaps(existing[i], ai.stride, ids);
        return true;
      }
    }
    return false;
  }

  // ---- Enrichments ----

  function ReferencedBoundaries(x: Text, text: string, boundaries: set<string>): set<string> {
    set b | b in boundaries && Contains(x.lower(text), x.lower(b))
  }

  function ReferencedNodes(x: Text, text: string, names: seq<(string, string)>): set<string> {
    set p | p in names && Contains(x.lower(text), p.0) :: p.1
  }

  /** An enrichment must not speak of other boundaries or nodes than the threat it enriches. */
  predicate Applies(x: Text, g: Diagram, t: RuleThreat, e: AIThreat) {
    var text := e.description + " " + e.reasoning;
    var spoken := ReferencedBoundaries(x, text, g.boundaries);
    && (spoken == {} || spoken == ReferencedBoundaries(x, t.description, g.boundaries))
    && forall id <- ReferencedNodes(x, text, g.names) :: id in t.nodeIds
  }

  function InsightOf(x: Text, e: AIThreat): string {
    Join((if Strip(e.description) != [] then [x.clean(e.description)] else [])
         + (if Strip(e.reasoning) != [] then [x.clean(e.reasoning)] else []), ' ')
  }

  function Enriched(x: Text, t: RuleThreat, e: AIThreat): RuleThreat {
    t.(source := "AI+Rules", rationale := Append(x.fold, Some(Strip(OrEmpty(t.rationale))), InsightOf(x, e)))
  }

  /** `{t.display_id: i for i, t in enumerate(merged)}`: the last threat with the id wins. */
  function IndexOfId(ts: seq<RuleThreat>, id: string): (r: Option<nat>)
    ensures r.Some? ==> r.value < |ts| && ts[r.value].displayId == id
    ensures r == None <==> forall t <- ts :: t.displayId != id
  {
    if ts == [] then None
    else if ts[|ts| - 1].displayId == id then Some(|ts| - 1)
    else
      assert ts == ts[..|ts| - 1] + [ts[|ts| - 1]];
      IndexOfId(ts[..|ts| - 1], id)
  }

  function EnrichOne(x: Text, g: Diagram, ts: seq<RuleThreat>, e: AIThreat): (r: seq<RuleThreat>)
    requires e.enhances.Some?
    ensures |r| == |ts|
  {
    match IndexOfId(ts, e.enhances.value)
    case None => ts
    case Some(i) => if Applies(x, g, ts[i], e) then ts[i := Enriched(x, ts[i], e)] else ts
  }

  predicate AllEnrich(es: seq<AIThreat>) {
    forall i | 0 <= i < |es| :: es[i].enhances.Some?
  }

  function EnrichAll(x: Text, g: Diagram, ts: seq<RuleThreat>, es: seq<AIThreat>): (r: seq<RuleThreat>)
    requires AllEnrich(es)
    ensures |r| == |ts|
  {
    if es == [] then ts
    else EnrichOne(x, g, EnrichAll(x, g, ts, es[..|es| - 1]), es[|es| - 1])
  }

  /** Equal but for the two fields an enrichment may write. */
  ghost predicate SameThreat(t: RuleThreat, t': RuleThreat) {
    t'.(source := t.source, rationale := t.rationale) == t
  }

  ghost predicate SameThreats(ts: seq<RuleThreat>, ts': seq<RuleThreat>) {
    |ts'| == |ts| && forall i | 0 <= i < |ts| :: SameThreat(ts[i], ts'[i])
  }

  lemma {:induction false} SameIndex(ts: seq<RuleThreat>, ts': seq<RuleThreat>, id: string)
    requires |ts'| == |ts| && forall i | 0 <= i < |ts| :: ts'[i].displayId == ts[i].displayId
    ensures IndexOfId(ts', id) == IndexOfId(ts, id)
  {
    if ts != [] {
      SameIndex(ts[..|ts| - 1], ts'[..|ts| - 1], id);
    }
  }

  /** The guards read nothing an enrichment writes. */
  lemma SameGuards(x: Text, g: Diagram, t: RuleThreat, t': RuleThreat, e: AIThreat)
    requires SameThreat(t, t')
    ensures Applies(x, g, t', e) == Applies(x, g, t, e) && t'.displayId == t.displayId
  {
    assert t'.description == t.description && t'.nodeIds == t.nodeIds && t'.displayId == t.displayId;
  }

  /** Enrichment is additive: no threat is added, dropped, reordered or re-rated. */
  lemma {:induction false} EnrichAllSame(x: Text, g: Diagram, ts: seq<RuleThreat>, es: seq<AIThreat>)
    requires AllEnrich(es)
    ensures SameThreats(ts, EnrichAll(x, g, ts, es))
  {
    if es != [] {
      EnrichAllSame(x, g, ts, es[..|es| - 1]);
    }
  }

  // ---- When a second enrichment pass changes nothing ----

  lemma StripFirst(fold: Folding, r: Option<string>, insight: string)
    ensures Append(fold, Some(Strip(OrEmpty(r))), insight) == Append(fold, r, insight)
  {
    StripTwice(OrEmpty(r));
  }

  /** The enrichment hits threat `i` and its guards let it pass. */
  predicate Hits(x: Text, g: Diagram, ts: seq<RuleThreat>, e: AIThreat, i: nat)
    requires i < |ts|
  {
    e.enhances.Some? && IndexOfId(ts, e.enhances.value) == Some(i) && Applies(x, g, ts[i], e)
  }

  /** The insights a pass appends to threat `i`, in order. */
  function InsightsFor(x: Text, g: Diagram, ts: seq<RuleThreat>, es: seq<AIThreat>, i: nat): seq<string>
    requires i < |ts|
  {
    if es == [] then []
    else
      var last := es[|es| - 1];
      InsightsFor(x, g, ts, es[..|es| - 1], i) + if Hits(x, g, ts, last, i) then [InsightOf(x, last)] else []
  }

  /** A threat after its insights. */
  function EnrichedBy(fold: Folding, t: RuleThreat, insights: seq<string>): RuleThreat {
    if insights == [] then t else t.(source := "AI+Rules", rationale := AppendAll(fold, t.rationale, insights))
  }

  /** Hitting reads nothing an enrichment writes. */
  lemma SameHits(x: Text, g: Diagram, ts: seq<RuleThreat>, ts': seq<RuleThreat>, e: AIThreat, i: nat)
    requires SameThreats(ts, ts') && i < |ts|
    ensures Hits(x, g, ts', e, i) == Hits(x, g, ts, e, i)
  {
    if e.enhances.Some? {
      forall k | 0 <= k < |ts| ensures ts'[k].displayId == ts[k].displayId {
        assert SameThreat(ts[k], ts'[k]);
      }
      SameIndex(ts, ts', e.enhances.value);
      SameGuards(x, g, ts[i], ts'[i], e);
    }
  }

  lemma {:induction false} SameInsightsFor(x: Text, g: Diagram, ts: seq<RuleThreat>, ts': seq<RuleThreat>,
                                           es: seq<AIThreat>, i: nat)
    requires SameThreats(ts, ts') && i < |ts|
    ensures InsightsFor(x, g, ts', es, i) == InsightsFor(x, g, ts, es, i)
  {
    if es != [] {
      SameInsightsFor(x, g, ts, ts', es[..|es| - 1], i);
      SameHits(x, g, ts, ts', es[|es| - 1], i);
    }
  }

  lemma EnrichedBySnoc(x: Text, t: RuleThreat, insights: seq<string>, e: AIThreat)
    ensures Enriched(x, EnrichedBy(x.fold, t, insights), e) == EnrichedBy(x.fold, t, insights + [InsightOf(x, e)])
  {
    var all, before := insights + [InsightOf(x, e)], AppendAll(x.fold, t.rationale, insights);
    assert all[..|all| - 1] == insights;
    StripFirst(x.fold, before, InsightOf(x, e));
  }

  /** One enrichment, seen from threat `i`. */
  lemma EnrichOneAt(x: Text, g: Diagram, ts: seq<RuleThreat>, e: AIThreat, i: nat)
    requires e.enhances.Some? && i < |ts|
    ensures EnrichOne(x, g, ts, e)[i] == if Hits(x, g, ts, e, i) then Enriched(x, ts[i], e) else ts[i]
  {}

  lemma PassStep(x: Text, g: Diagram, ts: seq<RuleThreat>, before: seq<RuleThreat>, e: AIThreat, i: nat,
                 insights: seq<string>, hits: bool)
    requires e.enhances.Some? && i < |ts| && SameThreats(ts, before) && hits == Hits(x, g, ts, e, i)
    requires before[i] == EnrichedBy(x.fold, ts[i], insights)
    ensures EnrichOne(x, g, before, e)[i]
         == EnrichedBy(x.fold, ts[i], if hits then insights + [InsightOf(x, e)] else insights)
  {
    SameHits(x, g, ts, before, e, i);
    EnrichOneAt(x, g, before, e, i);
    EnrichedBySnoc(x, ts[i], insights, e);
  }

  lemma InsightsSnoc(x: Text, g: Diagram, ts: seq<RuleThreat>, es: seq<AIThreat>, i: nat)
    requires es != [] && i < |ts|
    ensures var init, last := InsightsFor(x, g, ts, es[..|es| - 1], i), es[|es| - 1];
            InsightsFor(x, g, ts, es, i) == if Hits(x, g, ts, last, i) then init + [InsightOf(x, last)] else init
  {}

  /** A pass gives each threat its own insights, and nothing else. */
  lemma {:induction false} PassAt(x: Text, g: Diagram, ts: seq<RuleThreat>, es: seq<AIThreat>, i: nat)
    requires AllEnrich(es) && i < |ts|
    ensures EnrichAll(x, g, ts, es)[i] == EnrichedBy(x.fold, ts[i], InsightsFor(x, g, ts, es, i))
  {
    if es != [] {
      var init, last := es[..|es| - 1], es[|es| - 1];
      PassAt(x, g, ts, init, i);
      EnrichAllSame(x, g, ts, init);
      InsightsSnoc(x, g, ts, es, i);
      PassStep(x, g, ts, EnrichAll(x, g, ts, init), last, i, InsightsFor(x, g, ts, init, i), Hits(x, g, ts, last, i));
    }
  }

  /** Every nonblank insight appended to threat `i` is in the read-set the pass accumulates there. */
  ghost predicate PassReadable(x: Text, g: Diagram, ts: seq<RuleThreat>, es: seq<AIThreat>, i: nat)
    requires i < |ts|
  {
    AllReadable(x.fold, ts[i].rationale, InsightsFor(x, g, ts, es, i))
  }

  lemma SecondPassAt(x: Text, g: Diagram, ts: seq<RuleThreat>, es: seq<AIThreat>, once: seq<RuleThreat>, i: nat)
    requires AllEnrich(es) && i < |ts| && once == EnrichAll(x, g, ts, es)
    ensures EnrichAll(x, g, once, es)[i] == once[i] <==> PassReadable(x, g, ts, es, i)
  {
    var insights := InsightsFor(x, g, ts, es, i);
    EnrichAllSame(x, g, ts, es);
    SameInsightsFor(x, g, ts, once, es, i);
    PassAt(x, g, ts, es, i);
    PassAt(x, g, once, es, i);
    if insights != [] {
      SecondRoundIff(x.fold, ts[i].rationale, insights);
    }
  }

  /** Applying a list of enrichments to its own result changes nothing if and only if, at every threat, each
      nonblank insight that reaches it is readable once the first pass is over: it was there before, or some
      appended text has it as one of its marker-separated parts. */
  lemma EnrichmentIdempotentIff(x: Text, g: Diagram, ts: seq<RuleThreat>, es: seq<AIThreat>)
    requires AllEnrich(es)
    ensures EnrichAll(x, g, EnrichAll(x, g, ts, es), es) == EnrichAll(x, g, ts, es)
            <==> forall i: nat | i < |ts| :: PassReadable(x, g, ts, es, i)
  {
    var once := EnrichAll(x, g, ts, es);
    var twice := EnrichAll(x, g, once, es);
    forall i: nat | i < |ts| ensures twice[i] == once[i] <==> PassReadable(x, g, ts, es, i) {
      SecondPassAt(x, g, ts, es, once, i);
    }
    if forall i: nat | i < |ts| :: PassReadable(x, g, ts, es, i) {
      assert forall i: nat | i < |ts| :: twice[i] == once[i];
    }
  }

  ghost predicate Markerless(x: Text, es: seq<AIThreat>) {
    forall i | 0 <= i < |es| :: !Contains(Strip(InsightOf(x, es[i])), MARKER)
  }

  lemma {:induction false} MarkerlessInsights(x: Text, g: Diagram, ts: seq<RuleThreat>, es: seq<AIThreat>, i: nat)
    requires Markerless(x, es) && i < |ts|
    ensures forall insight <- InsightsFor(x, g, ts, es, i) :: !Contains(Strip(insight), MARKER)
  {
    if es != [] {
      MarkerlessInsights(x, g, ts, es[..|es| - 1], i);
    }
  }

  /** In particular it changes nothing as long as no insight contains the marker. */
  lemma EnrichmentIdempotent(x: Text, g: Diagram, ts: seq<RuleThreat>, es: seq<AIThreat>)
    requires AllEnrich(es) && Markerless(x, es)
    ensures EnrichAll(x, g, EnrichAll(x, g, ts, es), es) == EnrichAll(x, g, ts, es)
  {
    forall i: nat | i < |ts| ensures PassReadable(x, g, ts, es, i) {
      var insights := InsightsFor(x, g, ts, es, i);
      MarkerlessInsights(x, g, ts, es, i);
      forall k | 0 <= k < |insights| && Strip(insights[k]) != []
        ensures Readable(x.fold, ts[i].rationale, insights, Normalize(x.fold, Strip(insights[k])))
      {
        assert insights[k] in insights;
        MarkerlessReadable(x.fold, ts[i].rationale, insights, k);
      }
    }
    EnrichmentIdempotentIff(x, g, ts, es);
  }

  /** For one enrichment that applies the condition is exact: a second pass changes nothing if and only if the
      insight is blank, was there before, or carries no marker. */
  lemma EnrichTwiceIff(x: Text, g: Diagram, t: RuleThreat, e: AIThreat)
    requires PlainFolding(x.fold)
    ensures Enriched(x, Enriched(x, t, e), e) == Enriched(x, t, e) <==>
              Strip(InsightOf(x, e)) == [] || AlreadyThere(x.fold, t.rationale, InsightOf(x, e))
              || !Contains(Strip(InsightOf(x, e)), MARKER)
  {
    var insight := InsightOf(x, e);
    StripFirst(x.fold, t.rationale, insight);
    StripFirst(x.fold, Enriched(x, t, e).rationale, insight);
    AppendTwiceIff(x.fold, t.rationale, insight);
  }

  // ---- New threats ----

  function Enrichments(ais: seq<AIThreat>): (r: seq<AIThreat>)
    ensures AllEnrich(r)
  {
    if ais == [] then []
    else Enrichments(ais[..|ais| - 1]) + if ais[|ais| - 1].enhances.Some? then [ais[|ais| - 1]] else []
  }

  predicate IsNew(x: Text, g: Diagram, rules: seq<RuleThreat>, ai: AIThreat) {
    ai.enhances == None && !Duplicate(rules, ai.stride, ResolvedIds(x, g.names, ai))
  }

  /** The AI threats that make it into the result, in order. */
  function Kept(x: Text, g: Diagram, rules: seq<RuleThreat>, ais: seq<AIThreat>): seq<AIThreat> {
    if ais == [] then []
    else
      Kept(x, g, rules, ais[..|ais| - 1]) + if IsNew(x, g, rules, ais[|ais| - 1]) then [ais[|ais| - 1]] else []
  }

  /** The text before the first ": ", else the first eighty characters. */
  function Title(description: string): string {
    if Contains(description, ": ") then SplitOn(description, ": ")[0]
    else if |description| > 80 then description[..80] else description
  }

  function BuiltThreat(x: Text, g: Diagram, ai: AIThreat, counter: nat, display: int): RuleThreat {
    var ids := ResolvedIds(x, g.names, ai);
    RuleThreat("AI-" + Pad3(counter), DisplayId(display), ai.stride, Title(ai.description), ai.severity, ai.description,
               ids, [], Some(ai.rationale), "AI", exists id <- ids :: id in g.managed && g.managed[id])
  }

  function Builder(x: Text, g: Diagram, first: int): (AIThreat, nat) -> RuleThreat {
    (ai: AIThreat, k: nat) => BuiltThreat(x, g, ai, k + 1, first + k)
  }

  /** Each element with its position. */
  function Numbered(ais: seq<AIThreat>, build: (AIThreat, nat) -> RuleThreat): (r: seq<RuleThreat>)
    ensures |r| == |ais|
  {
    seq(|ais|, k requires 0 <= k < |ais| => build(ais[k], k))
  }

  function Suffix(x: Text, g: Diagram, kept: seq<AIThreat>, first: int): (r: seq<RuleThreat>)
    ensures |r| == |kept|
  {
    Numbered(kept, Builder(x, g, first))
  }

  function IdsOf(ts: seq<RuleThreat>): (r: seq<string>)
    ensures |r| == |ts|
  {
    seq(|ts|, i requires 0 <= i < |ts| => ts[i].displayId)
  }

  function Merged(x: Text, g: Diagram, rules: seq<RuleThreat>, ais: seq<AIThreat>): seq<RuleThreat> {
    EnrichAll(x, g, rules, Enrichments(ais)) + Suffix(x, g, Kept(x, g, rules, ais), NextNumber(x.digits, IdsOf(rules)))
  }

  lemma KeptSnoc(x: Text, g: Diagram, rules: seq<RuleThreat>, ais: seq<AIThreat>, i: nat)
    requires i < |ais|
    ensures Kept(x, g, rules, ais[..i + 1]) == Kept(x, g, rules, ais[..i])
            + if IsNew(x, g, rules, ais[i]) then [ais[i]] else []
    ensures Enrichments(ais[..i + 1]) == Enrichments(ais[..i]) + if ais[i].enhances.Some? then [ais[i]] else []
  {
    assert ais[..i + 1][..i] == ais[..i];
  }

  /** The AI threats split into enrichments and new threats, both in order. */
  method Partition(ais: seq<AIThreat>) returns (news: seq<AIThreat>, enrichments: seq<AIThreat>)
    ensures enrichments == Enrichments(ais) && news == NewOnes(ais)
  {
    news, enrichments := [], [];
    for i := 0 to |ais|
      invariant enrichments == Enrichments(ais[..i]) && news == NewOnes(ais[..i])
    {
      assert ais[..i + 1][..i] == ais[..i];
      if ais[i].enhances.Some? { enrichments := enrichments + [ais[i]]; } else { news := news + [ais[i]]; }
    }
    assert ais[..|ais|] == ais;
  }

  function NewOnes(ais: seq<AIThreat>): seq<AIThreat> {
    if ais == [] then []
    else NewOnes(ais[..|ais| - 1]) + if ais[|ais| - 1].enhances == None then [ais[|ais| - 1]] else []
  }

  lemma {:induction false} KeptOfNew(x: Text, g: Diagram, rules: seq<RuleThreat>, ais: seq<AIThreat>)
    ensures Kept(x, g, rules, NewOnes(ais)) == Kept(x, g, rules, ais)
  {
    if ais != [] {
      var init, last := ais[..|ais| - 1], ais[|ais| - 1];
      KeptOfNew(x, g, rules, init);
      if last.enhances == None {
        var ones := NewOnes(init) + [last];
        KeptSnoc(x, g, rules, ones, |ones| - 1);
        assert ones[..|ones| - 1] == NewOnes(init) && ones[..|ones|] == ones;
      } else {
        assert NewOnes(ais) == NewOnes(init);
      }
    }
  }

  /** The enrichment loop: `merged[idx] = target.model_copy(...)`. */
  method Enrich(x: Text, g: Diagram, rules: seq<RuleThreat>, es: seq<AIThreat>) returns (merged: seq<RuleThreat>)
    requires AllEnrich(es)
    ensures merged == EnrichAll(x, g, rules, es)
  {
    merged := rules;
    var byId := map t <- rules :: t.displayId := IndexOfId(rules, t.displayId).value;
    for i := 0 to |es|
      invariant merged == EnrichAll(x, g, rules, es[..i])
    {
      assert es[..i + 1][..i] == es[..i];
      EnrichAllSame(x, g, rules, es[..i]);
      SameIndex(rules, merged, es[i].enhances.value);
      if es[i].enhances.value in byId {
        var idx := byId[es[i].enhances.value];
        if Applies(x, g, merged[idx], es[i]) {
          merged := merged[idx := Enriched(x, merged[idx], es[i])];
        }
      }
    }
    assert es[..|es|] == es;
  }

  lemma NumberedSnoc(ais: seq<AIThreat>, ai: AIThreat, build: (AIThreat, nat) -> RuleThreat)
    ensures Numbered(ais + [ai], build) == Numbered(ais, build) + [build(ai, |ais|)]
  {}

  lemma SuffixSnoc(x: Text, g: Diagram, kept: seq<AIThreat>, ai: AIThreat, first: int)
    ensures Suffix(x, g, kept + [ai], first) == Suffix(x, g, kept, first)
            + [BuiltThreat(x, g, ai, |kept| + 1, first + |kept|)]
  {
    NumberedSnoc(kept, ai, Builder(x, g, first));
  }

  method Build(x: Text, g: Diagram, ai: AIThreat, ids: seq<string>, counter: nat, next: int) returns (row: RuleThreat)
    requires ids == ResolvedIds(x, g.names, ai)
    ensures row == BuiltThreat(x, g, ai, counter, next)
  {
    var title := Title(ai.description);
    var managed := exists id <- ids :: id in g.managed && g.managed[id];
    row := RuleThreat("AI-" + Pad3(counter), DisplayId(next), ai.stride, title, ai.severity, ai.description,
                      ids, [], Some(ai.rationale), "AI", managed);
  }

  /** The loop over new threats, advancing `ai_counter` and `next_display_num`. */
  method AppendNew(x: Text, g: Diagram, rules: seq<RuleThreat>, news: seq<AIThreat>, first: int)
    returns (added: seq<RuleThreat>)
    requires forall i | 0 <= i < |news| :: news[i].enhances == None
    ensures added == Suffix(x, g, Kept(x, g, rules, news), first)
  {
    added := [];
    var counter, next := 1, first;
    ghost var kept: seq<AIThreat> := [];
    for i := 0 to |news|
      invariant kept == Kept(x, g, rules, news[..i]) && added == Suffix(x, g, kept, first)
      invariant counter == |kept| + 1 && next == first + |kept|
    {
      KeptSnoc(x, g, rules, news, i);
      var ids := ResolveNodeIds(x, g.names, news[i]);
      var dup := IsDuplicate(news[i], rules, ids);
      if !dup {
        SuffixSnoc(x, g, kept, news[i], first);
        var row := Build(x, g, news[i], ids, counter, next);
        added := added + [row];
        counter, next := counter + 1, next + 1;
        kept := kept + [news[i]];
      }
    }
    assert news[..|news|] == news;
  }

  lemma {:induction false} NewOnesAreNew(ais: seq<AIThreat>)
    ensures forall i | 0 <= i < |NewOnes(ais)| :: NewOnes(ais)[i].enhances == None
  {
    if ais != [] { NewOnesAreNew(ais[..|ais| - 1]); }
  }

  /** `merge_ai_threats`. */
  method MergeAIThreats(x: Text, g: Diagram, rules: seq<RuleThreat>, ais: seq<AIThreat>)
    returns (merged: seq<RuleThreat>)
    ensures merged == Merged(x, g, rules, ais)
  {
    merged := rules;
    if ais == [] { return; }
    var news, enrichments := Partition(ais);
    merged := Enrich(x, g, rules, enrichments);
    EnrichAllSame(x, g, rules, enrichments);
    assert IdsOf(merged) == IdsOf(rules);
    var first := NextNumber(x.digits, IdsOf(merged));
    NewOnesAreNew(ais);
    KeptOfNew(x, g, rules, ais);
    var added := AppendNew(x, g, rules, news, first);
    merged := merged + added;
  }

  // ---- Exactly what the merge adds ----

  lemma {:induction false} KeptExact(x: Text, g: Diagram, rules: seq<RuleThreat>, ais: seq<AIThreat>)
    ensures forall ai :: ai in Kept(x, g, rules, ais) <==> ai in ais && IsNew(x, g, rules, ai)
    ensures multiset(Kept(x, g, rules, ais)) <= multiset(ais)
    ensures forall ai | IsNew(x, g, rules, ai) :: multiset(Kept(x, g, rules, ais))[ai] == multiset(ais)[ai]
  {
    if ais != [] {
      var init, last := ais[..|ais| - 1], ais[|ais| - 1];
      assert ais == init + [last];
      KeptExact(x, g, rules, init);
    }
  }

  /** `t` is the result row of the `k`-th AI threat that was kept. */
  ghost predicate IsRowOf(x: Text, g: Diagram, rules: seq<RuleThreat>, t: RuleThreat, ai: AIThreat, k: nat,
                          first: int) {
    && t.ruleId == "AI-" + Pad3(k + 1) && t.displayId == DisplayId(first + k) && t.source == "AI"
    && t.description == ai.description && t.stride == ai.stride && t.severity == ai.severity
    && Distinct(t.nodeIds) && !Duplicate(rules, t.stride, t.nodeIds)
    && forall id :: id in t.nodeIds <==> id in ResolvedIds(x, g.names, ai)
  }

  lemma BuiltRow(x: Text, g: Diagram, rules: seq<RuleThreat>, ai: AIThreat, k: nat, first: int)
    requires IsNew(x, g, rules, ai)
    ensures IsRowOf(x, g, rules, BuiltThreat(x, g, ai, k + 1, first + k), ai, k, first)
  {
    var t := BuiltThreat(x, g, ai, k + 1, first + k);
    assert t.nodeIds == ResolvedIds(x, g.names, ai);
    assert Distinct(t.nodeIds) by {
      ResolvedIdsExact(x, g.names, ai);
    }
  }

  lemma SuffixRow(x: Text, g: Diagram, rules: seq<RuleThreat>, ais: seq<AIThreat>, kept: seq<AIThreat>, first: int,
                  k: nat)
    requires kept == Kept(x, g, rules, ais) && k < |kept|
    ensures IsRowOf(x, g, rules, Suffix(x, g, kept, first)[k], kept[k], k, first)
  {
    var ai := kept[k];
    assert ai in kept && IsNew(x, g, rules, ai) by {
      KeptExact(x, g, rules, ais);
    }
    BuiltRow(x, g, rules, ai, k, first);
  }

  /** The prefix of the result is the rule threats, at most re-sourced and annotated; the suffix holds the AI
      threats that share no category-and-node with a rule threat, in order, numbered consecutively, with
      duplicate-free node lists. */
  lemma MergeIsAdditive(x: Text, g: Diagram, rules: seq<RuleThreat>, ais: seq<AIThreat>)
    ensures var merged, kept := Merged(x, g, rules, ais), Kept(x, g, rules, ais);
            |merged| == |rules| + |kept| && SameThreats(rules, merged[..|rules|])
            && (forall k | 0 <= k < |kept| ::
                  IsRowOf(x, g, rules, merged[|rules|..][k], kept[k], k, NextNumber(x.digits, IdsOf(rules))))
            && (forall ai :: ai in kept <==> ai in ais && IsNew(x, g, rules, ai))
  {
    var merged, kept, first := Merged(x, g, rules, ais), Kept(x, g, rules, ais), NextNumber(x.digits, IdsOf(rules));
    EnrichAllSame(x, g, rules, Enrichments(ais));
    KeptExact(x, g, rules, ais);
    assert merged[..|rules|] == EnrichAll(x, g, rules, Enrichments(ais));
    assert merged[|rules|..] == Suffix(x, g, kept, first);
    forall k | 0 <= k < |kept| ensures IsRowOf(x, g, rules, merged[|rules|..][k], kept[k], k, first) {
      SuffixRow(x, g, rules, ais, kept, first, k);
    }
  }

  /** `n` consecutive ids under a naming scheme. */
  function Minted(name: int -> string, first: int, n: nat): (r: seq<string>)
    ensures |r| == n
  {
    if n == 0 then [] else Minted(name, first, n - 1) + [name(first + n - 1)]
  }

  ghost predicate Injective(name: int -> string) {
    forall a, b :: name(a) == name(b) ==> a == b
  }

  /** Every number from `first` on is still free. */
  ghost predicate FreeFrom(name: int -> string, ids: seq<string>, first: int) {
    forall m | first <= m :: name(m) !in ids
  }

  lemma {:induction false} MintedBelow(name: int -> string, first: int, n: nat, m: int)
    requires Injective(name) && first + n <= m
    ensures name(m) !in Minted(name, first, n)
  {
    if n > 0 {
      MintedBelow(name, first, n - 1, m);
    }
  }

  lemma DistinctSnoc(ids: seq<string>, last: string)
    requires Distinct(ids) && last !in ids
    ensures Distinct(ids + [last])
  {}

  lemma {:induction false} MintingKeepsDistinct(name: int -> string, ids: seq<string>, first: int, n: nat)
    requires Injective(name) && Distinct(ids) && FreeFrom(name, ids, first)
    ensures Distinct(ids + Minted(name, first, n))
  {
    if n == 0 {
      assert ids + Minted(name, first, n) == ids;
    } else {
      var minted, last := Minted(name, first, n - 1), name(first + n - 1);
      MintingKeepsDistinct(name, ids, first, n - 1);
      MintedBelow(name, first, n - 1, first + n - 1);
      DistinctSnoc(ids + minted, last);
      assert ids + Minted(name, first, n) == (ids + minted) + [last];
    }
  }

  /** The naming scheme "T-NNN" is injective and the next number is free. */
  lemma NextIsFree(d: Digits, ids: seq<string>)
    requires DigitTable(d)
    ensures Injective(DisplayId) && FreeFrom(DisplayId, ids, NextNumber(d, ids))
  {
    forall a: int, b: int | DisplayId(a) == DisplayId(b) ensures a == b {
      DisplayIdInjective(d, a, b);
    }
    forall m: int | NextNumber(d, ids) <= m ensures DisplayId(m) !in ids {
      AboveIsNew(d, ids, m);
    }
  }

  lemma {:induction false} MintedAt(name: int -> string, first: int, n: nat, k: nat)
    requires k < n
    ensures Minted(name, first, n)[k] == name(first + k)
  {
    if k < n - 1 { MintedAt(name, first, n - 1, k); }
  }

  lemma MintedIs(name: int -> string, first: int, ids: seq<string>)
    requires forall k: nat | k < |ids| :: ids[k] == name(first + k)
    ensures ids == Minted(name, first, |ids|)
  {
    forall k: nat | k < |ids| ensures ids[k] == Minted(name, first, |ids|)[k] {
      MintedAt(name, first, |ids|, k);
    }
  }

  lemma SuffixIdAt(x: Text, g: Diagram, kept: seq<AIThreat>, first: int, k: nat)
    requires k < |kept|
    ensures Suffix(x, g, kept, first)[k].displayId == DisplayId(first + k)
  {
    assert Suffix(x, g, kept, first)[k] == BuiltThreat(x, g, kept[k], k + 1, first + k);
  }

  lemma SuffixIds(x: Text, g: Diagram, kept: seq<AIThreat>, first: int)
    ensures IdsOf(Suffix(x, g, kept, first)) == Minted(DisplayId, first, |kept|)
  {
    var ids, name := IdsOf(Suffix(x, g, kept, first)), DisplayId;
    forall k: nat | k < |ids| ensures ids[k] == name(first + k) {
      SuffixIdAt(x, g, kept, first, k);
    }
    MintedIs(name, first, ids);
  }

  lemma EnrichedIds(ts: seq<RuleThreat>, ts': seq<RuleThreat>)
    requires SameThreats(ts, ts')
    ensures IdsOf(ts') == IdsOf(ts)
  {
    forall i | 0 <= i < |ts| ensures ts'[i].displayId == ts[i].displayId {
      assert SameThreat(ts[i], ts'[i]);
    }
  }

  lemma IdsOfConcat(a: seq<RuleThreat>, b: seq<RuleThreat>)
    ensures IdsOf(a + b) == IdsOf(a) + IdsOf(b)
  {}

  /** Display ids stay distinct: the new ones lie above every number a rule threat uses. */
  lemma MergedIdsDistinct(x: Text, g: Diagram, rules: seq<RuleThreat>, ais: seq<AIThreat>)
    requires DigitTable(x.digits) && Distinct(IdsOf(rules))
    ensures Distinct(IdsOf(Merged(x, g, rules, ais)))
  {
    var kept, first := Kept(x, g, rules, ais), NextNumber(x.digits, IdsOf(rules));
    var prefix, suffix := EnrichAll(x, g, rules, Enrichments(ais)), Suffix(x, g, kept, first);
    EnrichAllSame(x, g, rules, Enrichments(ais));
    EnrichedIds(rules, prefix);
    SuffixIds(x, g, kept, first);
    NextIsFree(x.digits, IdsOf(rules));
    MintingKeepsDistinct(DisplayId, IdsOf(rules), first, |kept|);
    IdsOfConcat(prefix, suffix);
  }
}
