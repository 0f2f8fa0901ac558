/** What the merge does with each AI threat, read off the texts and the diagram: which rule threat an enrichment
    reaches, what it appends, which threats are new, and what their rows hold. */
module MergeEffects {
  import opened Wrappers
  import opened PyText
  import opened DisplayIds
  import opened Insights
  import opened ThreatMerger

  // ---- Enrichments ----

  /** The enrichment names the threat by its display id - of several the last - and neither its description nor its
      reasoning mentions a node the threat is not about, or a boundary unless exactly the threat's own. */
  ghost predicate MeantFor(x: Text, g: Diagram, rules: seq<RuleThreat>, i: nat, e: AIThreat)
    requires i < |rules|
  {
    var text, own := x.lower(e.description + " " + e.reasoning), x.lower(rules[i].description);
    && e.enhances == Some(rules[i].displayId)
    && (forall k | i < k < |rules| :: rules[k].displayId != rules[i].displayId)
    && (forall p <- g.names | Contains(text, p.0) :: p.1 in rules[i].nodeIds)
    && ((forall b <- g.boundaries :: !Contains(text, x.lower(b)))
        || (forall b <- g.boundaries :: Contains(text, x.lower(b)) <==> Contains(own, x.lower(b))))
  }

  lemma {:induction false} IndexOfIdLast(ts: seq<RuleThreat>, id: string, i: nat)
    requires i < |ts|
    ensures IndexOfId(ts, id) == Some(i) <==>
              ts[i].displayId == id && forall k | i < k < |ts| :: ts[k].displayId != id
  {
    var n := |ts| - 1;
    if ts[n].displayId != id && i < n {
      IndexOfIdLast(ts[..n], id, i);
      assert forall k | 0 <= k < n :: ts[..n][k] == ts[k];
    }
  }

  lemma SpokenMeans(x: Text, text: string, own: string, boundaries: set<string>)
    ensures var spoken := ReferencedBoundaries(x, text, boundaries);
            spoken == {} || spoken == ReferencedBoundaries(x, own, boundaries)
            <==> (forall b <- boundaries :: !Contains(x.lower(text), x.lower(b)))
                 || (forall b <- boundaries ::
                       Contains(x.lower(text), x.lower(b)) <==> Contains(x.lower(own), x.lower(b)))
  {
    var spoken, known := ReferencedBoundaries(x, text, boundaries), ReferencedBoundaries(x, own, boundaries);
    forall b | b in boundaries
      ensures b in spoken <==> Contains(x.lower(text), x.lower(b))
      ensures b in known <==> Contains(x.lower(own), x.lower(b))
    {}
    if forall b <- boundaries :: !Contains(x.lower(text), x.lower(b)) {
      assert spoken == {};
    }
    if forall b <- boundaries :: Contains(x.lower(text), x.lower(b)) <==> Contains(x.lower(own), x.lower(b)) {
      assert spoken == known;
    }
  }

  lemma NodesMean(x: Text, text: string, names: seq<(string, string)>, nodeIds: seq<string>)
    ensures (forall id <- ReferencedNodes(x, text, names) :: id in nodeIds)
            <==> forall p <- names | Contains(x.lower(text), p.0) :: p.1 in nodeIds
  {
    forall p <- names | Contains(x.lower(text), p.0) ensures p.1 in ReferencedNodes(x, text, names) {}
  }

  lemma HitsMeans(x: Text, g: Diagram, rules: seq<RuleThreat>, i: nat, e: AIThreat)
    requires i < |rules|
    ensures Hits(x, g, rules, e, i) <==> MeantFor(x, g, rules, i, e)
  {
    var text := e.description + " " + e.reasoning;
    SpokenMeans(x, text, rules[i].description, g.boundaries);
    NodesMean(x, text, g.names, rules[i].nodeIds);
    if e.enhances.Some? {
      IndexOfIdLast(rules, e.enhances.value, i);
    }
  }

  /** The cleaned description, then the cleaned reasoning, each only if it is not blank. */
  ghost function InsightText(x: Text, e: AIThreat): string {
    if AllSpace(e.description) && AllSpace(e.reasoning) then ""
    else if AllSpace(e.reasoning) then x.clean(e.description)
    else if AllSpace(e.description) then x.clean(e.reasoning)
    else x.clean(e.description) + " " + x.clean(e.reasoning)
  }

  lemma InsightMeans(x: Text, e: AIThreat)
    ensures InsightOf(x, e) == InsightText(x, e)
  {
    BlankIffSpace(e.description);
    BlankIffSpace(e.reasoning);
    if !AllSpace(e.description) && !AllSpace(e.reasoning) {
      var parts := [x.clean(e.description)] + [x.clean(e.reasoning)];
      assert parts[1..] == [x.clean(e.reasoning)];
      assert Join(parts, ' ') == x.clean(e.description) + [' '] + Join(parts[1..], ' ');
    }
  }

  /** The insights of the AI threats meant for threat `i`, in order. */
  ghost function InsightsMeant(x: Text, g: Diagram, rules: seq<RuleThreat>, i: nat, ais: seq<AIThreat>): seq<string>
    requires i < |rules|
  {
    if ais == [] then []
    else
      var last := ais[|ais| - 1];
      InsightsMeant(x, g, rules, i, ais[..|ais| - 1])
      + if MeantFor(x, g, rules, i, last) then [InsightText(x, last)] else []
  }

  lemma {:induction false} InsightsAgree(x: Text, g: Diagram, rules: seq<RuleThreat>, i: nat, ais: seq<AIThreat>)
    requires i < |rules|
    ensures InsightsFor(x, g, rules, Enrichments(ais), i) == InsightsMeant(x, g, rules, i, ais)
  {
    if ais != [] {
      var init, last := ais[..|ais| - 1], ais[|ais| - 1];
      InsightsAgree(x, g, rules, i, init);
      HitsMeans(x, g, rules, i, last);
      InsightMeans(x, last);
      if last.enhances.Some? {
        var all := Enrichments(init) + [last];
        InsightsSnoc(x, g, rules, all, i);
        assert all[..|all| - 1] == Enrichments(init);
      } else {
        assert Enrichments(ais) == Enrichments(init);
      }
    }
  }

  lemma {:induction false} NoneMeant(x: Text, g: Diagram, rules: seq<RuleThreat>, i: nat, ais: seq<AIThreat>)
    requires i < |rules|
    ensures InsightsMeant(x, g, rules, i, ais) == [] <==> forall e <- ais :: !MeantFor(x, g, rules, i, e)
  {
    if ais != [] {
      assert ais == ais[..|ais| - 1] + [ais[|ais| - 1]];
      NoneMeant(x, g, rules, i, ais[..|ais| - 1]);
    }
  }

  /** A rule threat comes out of the merge as it went in unless some AI threat is meant for it; then its source is
      "AI+Rules" and the insights meant for it, and no others, are appended to its rationale in order. */
  lemma EnrichedIffMeant(x: Text, g: Diagram, rules: seq<RuleThreat>, ais: seq<AIThreat>, i: nat)
    requires i < |rules|
    ensures i < |Merged(x, g, rules, ais)|
    ensures var t, t' := rules[i], Merged(x, g, rules, ais)[i];
            if forall e <- ais :: !MeantFor(x, g, rules, i, e) then t' == t
            else t' == t.(source := "AI+Rules",
                          rationale := AppendAll(x.fold, t.rationale, InsightsMeant(x, g, rules, i, ais)))
  {
    PassAt(x, g, rules, Enrichments(ais), i);
    InsightsAgree(x, g, rules, i, ais);
    NoneMeant(x, g, rules, i, ais);
  }

  // ---- New threats ----

  /** The dictionary's value for the key: later entries overwrite earlier ones. */
  ghost predicate LastEntry(names: seq<(string, string)>, key: string, id: string) {
    exists k | 0 <= k < |names| :: names[k] == (key, id) && forall j | k < j < |names| :: names[j].0 != key
  }

  lemma {:induction false} IdOfLast(names: seq<(string, string)>, key: string, id: string)
    ensures IdOf(names, key) == Some(id) <==> LastEntry(names, key, id)
  {
    if names != [] {
      var n := |names| - 1;
      var init := names[..n];
      IdOfLast(init, key, id);
      if names[n].0 == key {
        if LastEntry(names, key, id) {
          var k :| 0 <= k < |names| && names[k] == (key, id) && forall j | k < j < |names| :: names[j].0 != key;
          assert k == n;
        }
        if names[n].1 == id { assert names[n] == (key, id); }
      } else {
        EntryInPrefix(names, key, id);
      }
    }
  }

  lemma EntryInPrefix(names: seq<(string, string)>, key: string, id: string)
    requires names != [] && names[|names| - 1].0 != key
    ensures LastEntry(names, key, id) <==> LastEntry(names[..|names| - 1], key, id)
  {
    var n := |names| - 1;
    var init := names[..n];
    assert forall k | 0 <= k < n :: init[k] == names[k];
    if LastEntry(names, key, id) {
      var k :| 0 <= k < |names| && names[k] == (key, id) && forall j | k < j < |names| :: names[j].0 != key;
      assert k < n && init[k] == (key, id);
    }
    if LastEntry(init, key, id) {
      var k :| 0 <= k < |init| && init[k] == (key, id) && forall j | k < j < |init| :: init[j].0 != key;
      assert names[k] == (key, id) && forall j | k < j < |names| :: j < n ==> names[j] == init[j];
    }
  }

  /** The threat is about the node: it lists the node's name, or its description mentions it. */
  ghost predicate About(x: Text, g: Diagram, ai: AIThreat, id: string) {
    || (id != "" && exists name <- ai.nodeNames :: LastEntry(g.names, Strip(x.lower(name)), id))
    || exists p <- g.names :: p.1 == id && Contains(x.lower(ai.description), p.0)
  }

  lemma ResolvedMeans(x: Text, g: Diagram, ai: AIThreat, id: string)
    ensures id in ResolvedIds(x, g.names, ai) <==> About(x, g, ai, id)
  {
    ResolvedIdsExact(x, g.names, ai);
    forall name | name in ai.nodeNames
      ensures IdOf(g.names, Strip(x.lower(name))) == Some(id) <==> LastEntry(g.names, Strip(x.lower(name)), id)
    {
      IdOfLast(g.names, Strip(x.lower(name)), id);
    }
  }

  /** It enriches nothing, and no rule threat of its category is about one of its nodes. */
  ghost predicate AddsSomething(x: Text, g: Diagram, rules: seq<RuleThreat>, ai: AIThreat) {
    ai.enhances == None && forall t <- rules, id <- t.nodeIds | t.stride == ai.stride :: !About(x, g, ai, id)
  }

  lemma NewMeans(x: Text, g: Diagram, rules: seq<RuleThreat>, ai: AIThreat)
    ensures IsNew(x, g, rules, ai) <==> AddsSomething(x, g, rules, ai)
  {
    forall id ensures id in ResolvedIds(x, g.names, ai) <==> About(x, g, ai, id) {
      ResolvedMeans(x, g, ai, id);
    }
    var ids := ResolvedIds(x, g.names, ai);
    if Duplicate(rules, ai.stride, ids) {
      var t :| t in rules && Overlaps(t, ai.stride, ids);
      var id :| id in ids && id in t.nodeIds;
      assert About(x, g, ai, id);
    } else if ai.enhances == None {
      forall t <- rules, id <- t.nodeIds | t.stride == ai.stride ensures !About(x, g, ai, id) {
        assert !Overlaps(t, ai.stride, ids);
      }
    }
  }

  // ---- The title of a new threat ----

  /** The separator first occurs at position `i`. */
  ghost predicate FirstAt(s: string, sep: string, i: nat) {
    i <= |s| && StartsWith(s[i..], sep) && forall k | 0 <= k < i :: !StartsWith(s[k..], sep)
  }

  lemma {:induction false} FirstPart(s: string, sep: string, i: nat)
    requires sep != [] && FirstAt(s, sep, i)
    ensures SplitOn(s, sep)[0] == s[..i]
  {
    assert s[0..] == s;
    if i > 0 {
      assert !StartsWith(s, sep);
      assert s[1..][i - 1..] == s[i..];
      forall k | 0 <= k < i - 1 ensures !StartsWith(s[1..][k..], sep) {
        assert s[1..][k..] == s[k + 1..];
      }
      FirstPart(s[1..], sep, i - 1);
      assert s[..i] == [s[0]] + s[1..][..i - 1];
    }
  }

  lemma {:induction false} FirstOccurrence(s: string, sep: string, bound: nat) returns (i: nat)
    requires bound <= |s| && StartsWith(s[bound..], sep)
    ensures FirstAt(s, sep, i)
  {
    if j :| 0 <= j < bound && StartsWith(s[j..], sep) {
      i := FirstOccurrence(s, sep, j);
    } else {
      i := bound;
    }
  }

  /** The text before the first ": "; without one, the first eighty characters. */
  ghost predicate TitleOf(title: string, description: string) {
    if Contains(description, ": ") then FirstAt(description, ": ", |title|) && title == description[..|title|]
    else title <= description && |title| == if |description| < 80 then |description| else 80
  }

  lemma TitleMeans(description: string)
    ensures TitleOf(Title(description), description)
  {
    if Contains(description, ": ") {
      var bound :| 0 <= bound <= |description| && StartsWith(description[bound..], ": ");
      var i := FirstOccurrence(description, ": ", bound);
      FirstPart(description, ": ", i);
    }
  }

  // ---- Their rows ----

  /** The row of the `k`-th new threat. */
  ghost predicate RowAsAnnounced(x: Text, g: Diagram, t: RuleThreat, ai: AIThreat, k: nat, first: int) {
    && t.ruleId == "AI-" + Pad3(k + 1) && t.displayId == "T-" + Pad3(first + k) && t.source == "AI"
    && t.description == ai.description && t.stride == ai.stride && t.severity == ai.severity
    && t.rationale == Some(ai.rationale) && t.edgeIds == [] && TitleOf(t.subtype, ai.description)
    && Distinct(t.nodeIds) && (forall id :: id in t.nodeIds <==> About(x, g, ai, id))
    && (t.providerManaged <==> exists id <- t.nodeIds :: id in g.managed && g.managed[id])
  }

  /** The kept threats are those that add something, in order, each as often as the AI pass returned it. */
  lemma KeptAddsSomething(x: Text, g: Diagram, rules: seq<RuleThreat>, ais: seq<AIThreat>, ai: AIThreat)
    ensures ai in Kept(x, g, rules, ais) <==> ai in ais && AddsSomething(x, g, rules, ai)
    ensures AddsSomething(x, g, rules, ai) ==> multiset(Kept(x, g, rules, ais))[ai] == multiset(ais)[ai]
  {
    KeptExact(x, g, rules, ais);
    NewMeans(x, g, rules, ai);
  }

  lemma SuffixAt(x: Text, g: Diagram, kept: seq<AIThreat>, first: int, k: nat)
    requires k < |kept|
    ensures Suffix(x, g, kept, first)[k] == BuiltThreat(x, g, kept[k], k + 1, first + k)
  {}

  lemma MergedSuffix(prefix: seq<RuleThreat>, suffix: seq<RuleThreat>, k: nat)
    requires k < |suffix|
    ensures (prefix + suffix)[|prefix| + k] == suffix[k]
  {}

  /** One row per kept threat, numbered from above the rule threats' largest number. */
  lemma NewRowsAnnounced(x: Text, g: Diagram, rules: seq<RuleThreat>, ais: seq<AIThreat>, k: nat)
    requires k < |Kept(x, g, rules, ais)|
    ensures |Merged(x, g, rules, ais)| == |rules| + |Kept(x, g, rules, ais)|
    ensures RowAsAnnounced(x, g, Merged(x, g, rules, ais)[|rules| + k], Kept(x, g, rules, ais)[k], k,
                           NextNumber(x.digits, IdsOf(rules)))
  {
    var kept, first := Kept(x, g, rules, ais), NextNumber(x.digits, IdsOf(rules));
    var prefix, suffix := EnrichAll(x, g, rules, Enrichments(ais)), Suffix(x, g, kept, first);
    MergedSuffix(prefix, suffix, k);
    SuffixAt(x, g, kept, first, k);
    BuiltAsAnnounced(x, g, kept[k], k, first);
  }

  lemma BuiltAsAnnounced(x: Text, g: Diagram, ai: AIThreat, k: nat, first: int)
    ensures RowAsAnnounced(x, g, BuiltThreat(x, g, ai, k + 1, first + k), ai, k, first)
  {
    TitleMeans(ai.description);
    ResolvedIdsExact(x, g.names, ai);
    forall id ensures id in ResolvedIds(x, g.names, ai) <==> About(x, g, ai, id) {
      ResolvedMeans(x, g, ai, id);
    }
  }
}
