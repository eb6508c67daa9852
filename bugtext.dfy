/** The text- and query-building parts of the bug RAG store: the typed
    embedding texts of a bug, the tier-level column lookup and the
    hybrid-search condition and parameter lists. */
module BugText {
  import opened Wrappers
  import Text

  /** `BugData`: a bug report with its optional resolution fields. */
  datatype BugData = BugData(
    incidentNumber: string, product: string, description: string,
    closingNotes: Option<string>,
    tier1: Option<string>, tier2: Option<string>, tier3: Option<string>,
    problemId: Option<string>)

  /** Python truthiness of an optional string: present and non-empty. */
  predicate Truthy(o: Option<string>) {
    o.Some? && o.value != ""
  }

  // ---------------------------------------------------------------------
  // Embedding texts (`_store_embeddings`)
  // ---------------------------------------------------------------------

  datatype ContentType = Description | Resolution | Combined

  /** The `content_type` value stored with an embedding. */
  function ContentTypeName(c: ContentType): string {
    match c
    case Description => "description"
    case Resolution => "resolution"
    case Combined => "combined"
  }

  datatype EmbeddingConfig = EmbeddingConfig(contentType: ContentType, text: string)

  /** The tier field at level 1, 2 or 3. */
  function TierField(bug: BugData, level: int): Option<string>
    requires 1 <= level <= 3
  {
    if level == 1 then bug.tier1 else if level == 2 then bug.tier2 else bug.tier3
  }

  /** `" | Tier k: v"` when tier k is truthy, nothing otherwise. */
  function TierPart(bug: BugData, level: int): (r: string)
    requires 1 <= level <= 3
    ensures !Truthy(TierField(bug, level)) <==> r == ""
  {
    if Truthy(TierField(bug, level))
    then " | Tier " + Text.DecimalText(level) + ": " + TierField(bug, level).value
    else ""
  }

  /** The resolution text: "Resolution: " and the notes, then one
      `" | Tier k: v"` part per truthy tier, in the order 1, 2, 3. */
  function ResolutionText(notes: string, bug: BugData): string {
    var text := "Resolution: " + notes;
    var text := if Truthy(bug.tier1) then text + (" | Tier 1: " + bug.tier1.value) else text;
    var text := if Truthy(bug.tier2) then text + (" | Tier 2: " + bug.tier2.value) else text;
    if Truthy(bug.tier3) then text + (" | Tier 3: " + bug.tier3.value) else text
  }

  lemma SmallDecimals()
    ensures Text.DecimalText(1) == "1" && Text.DecimalText(2) == "2" && Text.DecimalText(3) == "3"
  {
  }

  /** The label of each tier's part, with k written out. */
  lemma TierLabels()
    ensures " | Tier " + Text.DecimalText(1) + ": " == " | Tier 1: "
    ensures " | Tier " + Text.DecimalText(2) + ": " == " | Tier 2: "
    ensures " | Tier " + Text.DecimalText(3) + ": " == " | Tier 3: "
  {
    SmallDecimals();
  }

  /** The resolution text is the notes followed by the part of each tier in
      turn. */
  lemma ResolutionTextParts(notes: string, bug: BugData)
    ensures ResolutionText(notes, bug) == "Resolution: " + notes + TierPart(bug, 1) + TierPart(bug, 2) + TierPart(bug, 3)
  {
    TierLabels();
    var t0 := "Resolution: " + notes;
    var t1 := if Truthy(bug.tier1) then t0 + (" | Tier 1: " + bug.tier1.value) else t0;
    assert t1 == t0 + TierPart(bug, 1) by {
      assert t0 + "" == t0;
    }
    var t2 := if Truthy(bug.tier2) then t1 + (" | Tier 2: " + bug.tier2.value) else t1;
    assert t2 == t1 + TierPart(bug, 2) by {
      assert t1 + "" == t1;
    }
    var t3 := if Truthy(bug.tier3) then t2 + (" | Tier 3: " + bug.tier3.value) else t2;
    assert t3 == t2 + TierPart(bug, 3) by {
      assert t2 + "" == t2;
    }
  }

  /** The length of the resolution text counts the notes and exactly the
      truthy tiers: a tier that is missing or empty adds nothing. */
  lemma ResolutionTextLength(notes: string, bug: BugData)
    ensures |ResolutionText(notes, bug)| ==
              12 + |notes|
              + (if Truthy(bug.tier1) then 11 + |bug.tier1.value| else 0)
              + (if Truthy(bug.tier2) then 11 + |bug.tier2.value| else 0)
              + (if Truthy(bug.tier3) then 11 + |bug.tier3.value| else 0)
  {
  }

  /** The combined text: product and description, and the notes when they
      are truthy. */
  function CombinedText(bug: BugData): string {
    var text := "Product: " + bug.product + " | Description: " + bug.description;
    if Truthy(bug.closingNotes) then text + " | Resolution: " + bug.closingNotes.value else text
  }

  /** The combined text starts with the product and the description and
      goes on with the notes exactly when they are truthy. */
  lemma CombinedTextParts(bug: BugData)
    ensures var r := CombinedText(bug);
            var head := "Product: " + bug.product + " | Description: " + bug.description;
            && |head| <= |r| && r[..|head|] == head
            && (Truthy(bug.closingNotes) ==> r[|head|..] == " | Resolution: " + bug.closingNotes.value)
            && (!Truthy(bug.closingNotes) ==> r == head)
  {
    var text := "Product: " + bug.product + " | Description: " + bug.description;
    if Truthy(bug.closingNotes) {
      var r := text + " | Resolution: " + bug.closingNotes.value;
      assert r[..|text|] == text && r[|text|..] == " | Resolution: " + bug.closingNotes.value;
    }
  }

  /** `embedding_configs`: the description first, the resolution text
      exactly when the closing notes are truthy, the combined text last. */
  function EmbeddingConfigs(bug: BugData): seq<EmbeddingConfig> {
    var configs := [EmbeddingConfig(Description, bug.description)];
    var configs := if Truthy(bug.closingNotes)
                   then configs + [EmbeddingConfig(Resolution, ResolutionText(bug.closingNotes.value, bug))]
                   else configs;
    configs + [EmbeddingConfig(Combined, CombinedText(bug))]
  }

  /** Two or three configs, the resolution one exactly when the notes are
      truthy, each content type at most once. */
  lemma EmbeddingConfigsShape(bug: BugData)
    ensures var r := EmbeddingConfigs(bug);
            && |r| == (if Truthy(bug.closingNotes) then 3 else 2)
            && r[0] == EmbeddingConfig(Description, bug.description)
            && r[|r| - 1] == EmbeddingConfig(Combined, CombinedText(bug))
            && (|r| == 3 ==> r[1] == EmbeddingConfig(Resolution, ResolutionText(bug.closingNotes.value, bug)))
            && (forall i, j :: 0 <= i < j < |r| ==> r[i].contentType != r[j].contentType)
  {
  }

  // ---------------------------------------------------------------------
  // Tier level to column (`get_bugs_by_resolution_tier`)
  // ---------------------------------------------------------------------

  const BAD_TIER_LEVEL := "tier_level must be 1, 2, or 3"

  /** `column_map[tier_level]`, or the `ValueError` for any other level. */
  function TierColumn(level: int): (r: Result<string, string>)
    ensures r.Failure? <==> level !in {1, 2, 3}
    ensures r.Failure? ==> r.error == BAD_TIER_LEVEL
  {
    if level == 1 then Success("resolution_tier_1")
    else if level == 2 then Success("resolution_tier_2")
    else if level == 3 then Success("resolution_tier_3")
    else Failure(BAD_TIER_LEVEL)
  }

  /** The `bugs` columns and the field of `BugData` each one stores, as the
      INSERT statement lists them. */
  function ColumnValue(bug: BugData, column: string): Option<Option<string>> {
    if column == "incident_number" then Some(Some(bug.incidentNumber))
    else if column == "product" then Some(Some(bug.product))
    else if column == "description" then Some(Some(bug.description))
    else if column == "closing_notes" then Some(bug.closingNotes)
    else if column == "resolution_tier_1" then Some(bug.tier1)
    else if column == "resolution_tier_2" then Some(bug.tier2)
    else if column == "resolution_tier_3" then Some(bug.tier3)
    else if column == "problem_id" then Some(bug.problemId)
    else None
  }

  /** The column chosen for a level is the column holding that level's
      tier, and its name ends in the level's digit. */
  lemma TierColumnHoldsTier(bug: BugData, level: int)
    requires 1 <= level <= 3
    ensures TierColumn(level).Success?
    ensures ColumnValue(bug, TierColumn(level).value) == Some(TierField(bug, level))
    ensures TierColumn(level).value == "resolution_tier_" + Text.DecimalText(level)
  {
    assert Text.DecimalText(1) == "1" && Text.DecimalText(2) == "2" && Text.DecimalText(3) == "3";
  }

  /** `WHERE <column> = %s` on a tier: SQL equality is never true on a NULL
      column, so a bug matches only when the tier is present and equal. */
  predicate MatchesTier(bug: BugData, level: int, value: string)
    requires 1 <= level <= 3
  {
    TierField(bug, level) == Some(value)
  }

  /** `get_bugs_by_resolution_tier` filters on the column chosen for the
      level: a bug is returned exactly when that column holds the value. */
  lemma TierFilterMatches(bug: BugData, level: int, value: string)
    requires 1 <= level <= 3
    ensures MatchesTier(bug, level, value) <==> ColumnValue(bug, TierColumn(level).value) == Some(Some(value))
  {
    TierColumnHoldsTier(bug, level);
  }

  // ---------------------------------------------------------------------
  // Hybrid search conditions and parameters (`hybrid_search`)
  // ---------------------------------------------------------------------

  /** A WHERE condition of the hybrid search, with the value it binds. */
  datatype Condition = Similarity | ProductEq(product: string) | TierEq(level: int, value: string)

  /** A psycopg2 query placeholder. */
  const PH := "%s"

  /** The SQL text of a condition, as the f-strings of `hybrid_search`
      render it. */
  function ConditionText(c: Condition): string {
    match c
    case Similarity => "(1 - (be.embedding <=> " + PH + ")) >= " + PH
    case ProductEq(_) => "b.product = " + PH
    case TierEq(level, _) => "b.resolution_tier_" + Text.IntText(level) + " = " + PH
  }

  /** A bound query parameter; the threshold is carried as a real number
      (its float behaviour is not modelled). */
  datatype Param<V> = PVector(v: V) | PReal(r: real) | PText(s: string) | PInt(n: int)

  /** The kind of value a `%s` placeholder of the query expects. */
  datatype Slot = VectorSlot | RealSlot | TextSlot | IntSlot

  predicate Fits<V>(p: Param<V>, s: Slot) {
    match s
    case VectorSlot => p.PVector?
    case RealSlot => p.PReal?
    case TextSlot => p.PText?
    case IntSlot => p.PInt?
  }

  function ConditionSlots(c: Condition): seq<Slot> {
    match c
    case Similarity => [VectorSlot, RealSlot]
    case ProductEq(_) => [TextSlot]
    case TierEq(_, _) => [TextSlot]
  }

  function WhereSlots(cs: seq<Condition>): seq<Slot> {
    if cs == [] then [] else WhereSlots(cs[..|cs| - 1]) + ConditionSlots(cs[|cs| - 1])
  }

  /** The placeholders of the whole query in text order: the similarity in
      the SELECT list, the WHERE conditions, the ORDER BY and the LIMIT. */
  function QuerySlots(cs: seq<Condition>): seq<Slot> {
    [VectorSlot] + WhereSlots(cs) + [VectorSlot, IntSlot]
  }

  /** The tier conditions: one per entry with a level in {1, 2, 3}, in
      entry order; other levels are skipped. */
  function TierConditions(tiers: seq<(int, string)>): (r: seq<Condition>)
    ensures |r| <= |tiers|
  {
    if tiers == [] then []
    else
      var init := TierConditions(tiers[..|tiers| - 1]);
      var (level, value) := tiers[|tiers| - 1];
      if level in {1, 2, 3} then init + [TierEq(level, value)] else init
  }

  /** Every condition is a tier condition for an entry whose level is 1, 2
      or 3. */
  lemma {:induction false} TierConditionsSound(tiers: seq<(int, string)>)
    ensures forall c :: c in TierConditions(tiers) ==> c.TierEq? && c.level in {1, 2, 3} && (c.level, c.value) in tiers
  {
    if tiers != [] {
      var init := tiers[..|tiers| - 1];
      TierConditionsSound(init);
      var last := tiers[|tiers| - 1];
      assert forall e :: e in init ==> e in tiers;
      assert TierConditions(tiers) ==
               TierConditions(init) + (if last.0 in {1, 2, 3} then [TierEq(last.0, last.1)] else []);
    }
  }

  /** Entries with a level in {1, 2, 3} all yield a condition. */
  lemma {:induction false} TierConditionsComplete(tiers: seq<(int, string)>, k: nat)
    requires k < |tiers| && tiers[k].0 in {1, 2, 3}
    ensures TierEq(tiers[k].0, tiers[k].1) in TierConditions(tiers)
  {
    var init := tiers[..|tiers| - 1];
    if k < |tiers| - 1 {
      assert init[k] == tiers[k];
      TierConditionsComplete(init, k);
    }
  }

  /** The conditions of one entry: a condition exactly when its level is
      1, 2 or 3. */
  lemma TierConditionsSingle(entry: (int, string))
    ensures TierConditions([entry]) == (if entry.0 in {1, 2, 3} then [TierEq(entry.0, entry.1)] else [])
  {
    assert [entry][..0] == [];
  }

  /** The conditions of consecutive entries are the conditions of the first
      entries followed by those of the rest: with `TierConditionsSingle`,
      the conditions are the valid entries in entry order. */
  lemma {:induction false} TierConditionsAppend(a: seq<(int, string)>, b: seq<(int, string)>)
    ensures TierConditions(a + b) == TierConditions(a) + TierConditions(b)
    decreases |b|
  {
    if b == [] {
      assert a + b == a;
    } else {
      var b' := b[..|b| - 1];
      assert (a + b)[..|a + b| - 1] == a + b';
      assert (a + b)[|a + b| - 1] == b[|b| - 1];
      TierConditionsAppend(a, b');
    }
  }

  /** One more entry adds its condition, if any, after the earlier ones. */
  lemma TierConditionsStep(tiers: seq<(int, string)>, k: nat)
    requires k < |tiers|
    ensures TierConditions(tiers[..k + 1]) ==
              TierConditions(tiers[..k]) + (if tiers[k].0 in {1, 2, 3} then [TierEq(tiers[k].0, tiers[k].1)] else [])
  {
    assert tiers[..k + 1][..k] == tiers[..k];
  }

  /** The WHERE conditions: the similarity first, the product when truthy,
      then the tier conditions. */
  function Conditions(product: Option<string>, tiers: seq<(int, string)>): seq<Condition> {
    [Similarity] + (if Truthy(product) then [ProductEq(product.value)] else []) + TierConditions(tiers)
  }

  /** The values one WHERE condition binds. */
  function ConditionParams<V>(c: Condition, embedding: V, threshold: real): (r: seq<Param<V>>)
    ensures |r| == |ConditionSlots(c)|
    ensures forall i :: 0 <= i < |r| ==> Fits(r[i], ConditionSlots(c)[i])
  {
    match c
    case Similarity => [PVector(embedding), PReal(threshold)]
    case ProductEq(p) => [PText(p)]
    case TierEq(_, v) => [PText(v)]
  }

  /** The values bound by the WHERE conditions, in order. */
  function WhereParams<V>(cs: seq<Condition>, embedding: V, threshold: real): (r: seq<Param<V>>)
    ensures |r| == |WhereSlots(cs)|
  {
    if cs == [] then []
    else WhereParams(cs[..|cs| - 1], embedding, threshold) + ConditionParams(cs[|cs| - 1], embedding, threshold)
  }

  /** Each WHERE value is of the kind its placeholder expects. */
  lemma {:induction false} WhereParamsFit<V>(cs: seq<Condition>, embedding: V, threshold: real)
    ensures var r := WhereParams(cs, embedding, threshold);
            forall i :: 0 <= i < |r| ==> Fits(r[i], WhereSlots(cs)[i])
  {
    if cs != [] {
      var init := cs[..|cs| - 1];
      WhereParamsFit(init, embedding, threshold);
      var w := WhereParams(init, embedding, threshold);
      var last := ConditionParams(cs[|cs| - 1], embedding, threshold);
      var r := w + last;
      assert forall i :: |w| <= i < |r| ==> r[i] == last[i - |w|];
      assert forall i :: 0 <= i < |w| ==> r[i] == w[i];
    }
  }

  /** One more condition binds its own values after the earlier ones. */
  lemma WhereParamsSnoc<V>(cs: seq<Condition>, c: Condition, embedding: V, threshold: real)
    ensures WhereParams(cs + [c], embedding, threshold) == WhereParams(cs, embedding, threshold) + ConditionParams(c, embedding, threshold)
  {
    assert (cs + [c])[..|cs|] == cs;
  }

  /** The parameters of consecutive condition lists are those of the first
      list followed by those of the second. */
  lemma {:induction false} WhereParamsAppend<V>(a: seq<Condition>, b: seq<Condition>, embedding: V, threshold: real)
    ensures WhereParams(a + b, embedding, threshold) == WhereParams(a, embedding, threshold) + WhereParams(b, embedding, threshold)
    decreases |b|
  {
    if b == [] {
      assert a + b == a;
    } else {
      var b' := b[..|b| - 1];
      assert (a + b)[..|a + b| - 1] == a + b';
      assert (a + b)[|a + b| - 1] == b[|b| - 1];
      WhereParamsAppend(a, b', embedding, threshold);
    }
  }

  /** The value a filter condition binds: the product or the tier value. */
  function BoundValue(c: Condition): string
    requires !c.Similarity?
  {
    if c.ProductEq? then c.product else c.value
  }

  /** A list of filter conditions binds one text per condition: its own
      value, at its own position. */
  lemma {:induction false} WhereParamsOfFilters<V>(cs: seq<Condition>, embedding: V, threshold: real)
    requires forall i :: 0 <= i < |cs| ==> !cs[i].Similarity?
    ensures var w := WhereParams(cs, embedding, threshold);
            && |w| == |cs|
            && forall i :: 0 <= i < |cs| ==> w[i] == PText(BoundValue(cs[i]))
  {
    if cs != [] {
      var init := cs[..|cs| - 1];
      WhereParamsOfFilters(init, embedding, threshold);
    }
  }

  /** The WHERE values of the hybrid search: the embedding and the
      threshold, then the value of each filter condition at the position of
      its condition. */
  lemma WhereParamsValues<V>(product: Option<string>, tiers: seq<(int, string)>, embedding: V, threshold: real)
    ensures var cs := Conditions(product, tiers);
            var w := WhereParams(cs, embedding, threshold);
            && |w| == |cs| + 1
            && w[0] == PVector(embedding) && w[1] == PReal(threshold)
            && forall i :: 1 <= i < |cs| ==> !cs[i].Similarity? && w[i + 1] == PText(BoundValue(cs[i]))
  {
    var cs := Conditions(product, tiers);
    var t := TierConditions(tiers);
    var p := if Truthy(product) then [ProductEq(product.value)] else [];
    var filters := p + t;
    assert cs == [Similarity] + filters;
    forall i | 0 <= i < |filters| ensures !filters[i].Similarity? {
      if i >= |p| {
        TierConditionsSound(tiers);
        assert filters[i] == t[i - |p|] && t[i - |p|] in t;
      }
    }
    WhereParamsOfSearch(filters, embedding, threshold);
    forall i | 1 <= i < |cs| ensures !cs[i].Similarity? && cs[i] == filters[i - 1] {
    }
  }

  /** The similarity followed by filter conditions binds the embedding and
      the threshold, then one text per filter. */
  lemma WhereParamsOfSearch<V>(filters: seq<Condition>, embedding: V, threshold: real)
    requires forall i :: 0 <= i < |filters| ==> !filters[i].Similarity?
    ensures var w := WhereParams([Similarity] + filters, embedding, threshold);
            && |w| == |filters| + 2
            && w[0] == PVector(embedding) && w[1] == PReal(threshold)
            && forall i :: 0 <= i < |filters| ==> w[i + 2] == PText(BoundValue(filters[i]))
  {
    var head := WhereParams([Similarity], embedding, threshold);
    assert head == [PVector(embedding), PReal(threshold)] by {
      WhereParamsSnoc([], Similarity, embedding, threshold);
      assert [] + [Similarity] == [Similarity];
    }
    var wf := WhereParams(filters, embedding, threshold);
    WhereParamsOfFilters(filters, embedding, threshold);
    var w := WhereParams([Similarity] + filters, embedding, threshold);
    assert w == head + wf by {
      WhereParamsAppend([Similarity], filters, embedding, threshold);
    }
    forall i | 0 <= i < |filters| ensures w[i + 2] == PText(BoundValue(filters[i])) {
      assert w[i + 2] == wf[i];
    }
  }

  /** The parameter list as `hybrid_search` builds it: the similarity pair,
      the filter values, the limit, and the embedding inserted before the
      limit. */
  function AsWrittenParams<V>(cs: seq<Condition>, embedding: V, threshold: real, limit: int): seq<Param<V>> {
    WhereParams(cs, embedding, threshold) + [PVector(embedding), PInt(limit)]
  }

  /** As written, the list is one short of the placeholders: the `%s` in the
      SELECT list has no value, so every later value is bound one slot too
      early. */
  lemma AsWrittenParamsShort<V>(cs: seq<Condition>, embedding: V, threshold: real, limit: int)
    requires cs != [] && cs[0] == Similarity
    ensures |AsWrittenParams(cs, embedding, threshold, limit)| + 1 == |QuerySlots(cs)|
    ensures !Fits(AsWrittenParams(cs, embedding, threshold, limit)[1], QuerySlots(cs)[1])
    ensures |AsWrittenParams(cs, embedding, threshold, limit)| + 1 == Placeholders(QueryText(cs))
  {
    QueryPlaceholders(cs);
    WhereSlotsHead(cs);
    WhereParamsFit(cs, embedding, threshold);
    var w := WhereParams(cs, embedding, threshold);
    assert AsWrittenParams(cs, embedding, threshold, limit)[1] == w[1];
  }

  /** The slots of a condition list that starts with the similarity begin
      with the vector and the threshold. */
  lemma {:induction false} WhereSlotsHead(cs: seq<Condition>)
    requires cs != [] && cs[0] == Similarity
    ensures |WhereSlots(cs)| >= 2 && WhereSlots(cs)[..2] == [VectorSlot, RealSlot]
  {
    if |cs| > 1 {
      var init := cs[..|cs| - 1];
      WhereSlotsHead(init);
      assert WhereSlots(cs)[..2] == WhereSlots(init)[..2];
    }
  }

  /** The parameter list with the embedding for the SELECT list in front:
      one value per placeholder, each of the kind its placeholder expects. */
  function Params<V>(cs: seq<Condition>, embedding: V, threshold: real, limit: int): (r: seq<Param<V>>)
    ensures |r| == |QuerySlots(cs)|
    ensures forall i :: 0 <= i < |r| ==> Fits(r[i], QuerySlots(cs)[i])
  {
    var w := WhereParams(cs, embedding, threshold);
    WhereParamsFit(cs, embedding, threshold);
    var r := [PVector(embedding)] + w + [PVector(embedding), PInt(limit)];
    var q := QuerySlots(cs);
    assert forall i :: 1 <= i <= |w| ==> r[i] == w[i - 1];
    assert forall i :: 1 <= i <= |w| ==> q[i] == WhereSlots(cs)[i - 1];
    r
  }

  /** The as-written list of the hybrid search: the embedding, the
      threshold, one text per filter, the embedding and the limit. */
  lemma AsWrittenParamsValues<V>(product: Option<string>, tiers: seq<(int, string)>, embedding: V, threshold: real, limit: int)
    ensures var cs := Conditions(product, tiers);
            var a := AsWrittenParams(cs, embedding, threshold, limit);
            && |a| == |cs| + 3
            && a[0] == PVector(embedding) && a[1] == PReal(threshold)
            && (forall i :: 1 <= i < |cs| ==> !cs[i].Similarity? && a[i + 1] == PText(BoundValue(cs[i])))
            && a[|cs| + 1] == PVector(embedding) && a[|cs| + 2] == PInt(limit)
  {
    WhereParamsValues(product, tiers, embedding, threshold);
  }

  /** The corrected list of the hybrid search: the embedding for the SELECT
      list, the embedding and the threshold, one text per filter, the
      embedding and the limit. */
  lemma ParamsValues<V>(product: Option<string>, tiers: seq<(int, string)>, embedding: V, threshold: real, limit: int)
    ensures var cs := Conditions(product, tiers);
            var q := Params(cs, embedding, threshold, limit);
            && |q| == |cs| + 4
            && q[0] == PVector(embedding) && q[1] == PVector(embedding) && q[2] == PReal(threshold)
            && (forall i :: 1 <= i < |cs| ==> !cs[i].Similarity? && q[i + 2] == PText(BoundValue(cs[i])))
            && q[|cs| + 2] == PVector(embedding) && q[|cs| + 3] == PInt(limit)
  {
    WhereParamsValues(product, tiers, embedding, threshold);
  }

  /** The query `hybrid_search` would execute: its conditions, its WHERE
      clause, its full SQL text and the values bound to it. */
  datatype HybridQuery<V> = HybridQuery(conditions: seq<Condition>, whereClause: string, text: string,
                                        params: seq<Param<V>>)

  /** The WHERE clause of a condition list. */
  function WhereClause(cs: seq<Condition>): string {
    Text.Join(seq(|cs|, i requires 0 <= i < |cs| => ConditionText(cs[i])), " AND ")
  }

  /** A list of SQL words without any `%`. */
  predicate Plain(words: seq<string>) {
    forall i :: 0 <= i < |words| ==> '%' !in words[i]
  }

  /** Words joined by a separator without `%` contain no `%`. */
  lemma {:induction false} JoinPlain(words: seq<string>, sep: string)
    requires Plain(words) && '%' !in sep
    ensures '%' !in Text.Join(words, sep)
  {
    if |words| > 1 {
      var init := words[..|words| - 1];
      JoinPlain(init, sep);
      assert '%' !in words[|words| - 1];
    } else if |words| == 1 {
      assert '%' !in words[0];
    }
  }

  /** The SELECT list before its placeholder, word by word (the query's
      line breaks and indentation are written as single spaces). */
  const SELECT_WORDS := ["SELECT", "b.incident_number,", "b.product,", "b.description,", "b.closing_notes,",
                         "b.resolution_tier_1,", "b.resolution_tier_2,", "b.resolution_tier_3,", "b.problem_id,",
                         "1", "-", "(be.embedding", "<=>"]

  /** The rest of the SELECT list and the FROM clause, up to WHERE. */
  const FROM_WORDS := ["as", "similarity_score,", "be.content_type", "FROM", "bugs", "b", "JOIN", "bug_embeddings",
                       "be", "ON", "b.id", "=", "be.bug_id", "WHERE"]

  const SELECT_HEAD := Text.Join(SELECT_WORDS, " ") + " "
  const SELECT_TAIL := ") " + Text.Join(FROM_WORDS, " ") + " "

  /** The query text before and after the WHERE conditions. */
  const QUERY_HEAD := SELECT_HEAD + PH + SELECT_TAIL
  const QUERY_TAIL := " ORDER BY be.embedding <=> " + PH + " LIMIT " + PH

  /** The full SQL text of `hybrid_search`. */
  function QueryText(cs: seq<Condition>): string {
    QUERY_HEAD + WhereClause(cs) + QUERY_TAIL
  }

  /** The number of `%s` placeholders in a query text, read left to
      right. */
  function Placeholders(s: string): nat {
    if |s| < 2 then 0
    else (if s[0] == '%' && s[1] == 's' then 1 else 0) + Placeholders(s[1..])
  }

  /** A text without `%` has no placeholder. */
  lemma {:induction false} PlaceholdersFree(s: string)
    requires '%' !in s
    ensures Placeholders(s) == 0
  {
    if |s| >= 2 {
      assert s[0] in s;
      assert forall x :: x in s[1..] ==> x in s;
      PlaceholdersFree(s[1..]);
    }
  }

  /** Placeholders add up over a concatenation whose left part does not
      end in `%` (no placeholder straddles the seam). */
  lemma {:induction false} PlaceholdersAppend(a: string, b: string)
    requires a == [] || a[|a| - 1] != '%'
    ensures Placeholders(a + b) == Placeholders(a) + Placeholders(b)
  {
    if a == [] {
      assert a + b == b;
    } else if |a| == 1 {
      if b == [] {
        assert a + b == a;
      } else {
        assert (a + b)[1..] == b;
      }
    } else {
      assert (a + b)[1..] == a[1..] + b;
      PlaceholdersAppend(a[1..], b);
    }
  }

  /** A text without `%` followed by one placeholder holds one
      placeholder and ends with it. */
  lemma ThenPlaceholder(a: string)
    requires '%' !in a
    ensures Placeholders(a + PH) == 1
    ensures (a + PH)[|a + PH| - 1] == 's'
  {
    PlaceholdersFree(a);
    assert Placeholders(PH) == 1;
    if a != [] {
      assert a[|a| - 1] in a;
    }
    PlaceholdersAppend(a, PH);
  }

  /** The similarity condition binds two placeholders. */
  lemma SimilarityPlaceholders()
    ensures Placeholders(ConditionText(Similarity)) == 2
    ensures ConditionText(Similarity)[|ConditionText(Similarity)| - 1] == 's'
  {
    var x := "(1 - (be.embedding <=> " + PH;
    var b := ")) >= ";
    ThenPlaceholder("(1 - (be.embedding <=> ");
    PlaceholdersFree(b);
    PlaceholdersAppend(x, b);
    ThenPlaceholder(b);
    PlaceholdersAppend(x + b, PH);
    assert ConditionText(Similarity) == x + b + PH;
  }

  /** A tier condition binds one placeholder, whatever its level. */
  lemma TierPlaceholders(level: int, value: string)
    ensures Placeholders(ConditionText(TierEq(level, value))) == 1
    ensures ConditionText(TierEq(level, value))[|ConditionText(TierEq(level, value))| - 1] == 's'
  {
    var t := Text.IntText(level);
    Text.IntTextShape(level);
    assert '%' !in t by {
      forall k | 0 <= k < |t| ensures t[k] != '%' {
        assert k == 0 || Text.IsDigit(t[k]);
      }
    }
    ThenPlaceholder("b.resolution_tier_" + t + " = ");
  }

  /** Each condition's text holds one placeholder per value it binds, and
      ends with the last of them. */
  lemma ConditionPlaceholders(c: Condition)
    ensures Placeholders(ConditionText(c)) == |ConditionSlots(c)|
    ensures ConditionText(c) != [] && ConditionText(c)[|ConditionText(c)| - 1] == 's'
  {
    match c
    case Similarity => SimilarityPlaceholders();
    case ProductEq(_) => ThenPlaceholder("b.product = ");
    case TierEq(level, value) => TierPlaceholders(level, value);
  }

  /** The WHERE clause of one more condition joins it with " AND ". */
  lemma WhereClauseSnoc(cs: seq<Condition>)
    requires |cs| >= 2
    ensures WhereClause(cs) == WhereClause(cs[..|cs| - 1]) + " AND " + ConditionText(cs[|cs| - 1])
  {
    var n := |cs|;
    var parts := seq(n, i requires 0 <= i < n => ConditionText(cs[i]));
    assert parts[..n - 1] == seq(n - 1, i requires 0 <= i < n - 1 => ConditionText(cs[..n - 1][i]));
  }

  /** " AND " adds no placeholder between two texts. */
  lemma AndPlaceholders(x: string, y: string)
    requires x != [] && x[|x| - 1] != '%'
    ensures Placeholders(x + " AND " + y) == Placeholders(x) + Placeholders(y)
    ensures y != [] ==> (x + " AND " + y)[|x + " AND " + y| - 1] == y[|y| - 1]
  {
    PlaceholdersFree(" AND ");
    PlaceholdersAppend(x, " AND ");
    PlaceholdersAppend(x + " AND ", y);
  }

  /** The WHERE clause holds exactly one placeholder per slot of its
      conditions. */
  lemma {:induction false} WherePlaceholders(cs: seq<Condition>)
    ensures Placeholders(WhereClause(cs)) == |WhereSlots(cs)|
    ensures cs != [] ==> WhereClause(cs) != [] && WhereClause(cs)[|WhereClause(cs)| - 1] == 's'
  {
    if cs != [] {
      var n := |cs|;
      var init := cs[..n - 1];
      var last := cs[n - 1];
      WherePlaceholders(init);
      ConditionPlaceholders(last);
      assert WhereSlots(cs) == WhereSlots(init) + ConditionSlots(last);
      if n == 1 {
        assert WhereClause(cs) == ConditionText(last);
      } else {
        WhereClauseSnoc(cs);
        AndPlaceholders(WhereClause(init), ConditionText(last));
      }
    }
  }

  /** The SELECT list before its placeholder holds no `%`. */
  lemma SelectHeadPlain()
    ensures '%' !in SELECT_HEAD && SELECT_HEAD != [] && SELECT_HEAD[|SELECT_HEAD| - 1] == ' '
  {
    assert Plain(SELECT_WORDS);
    JoinPlain(SELECT_WORDS, " ");
  }

  /** The SELECT list after its placeholder, and the FROM clause, hold no
      `%`. */
  lemma SelectTailPlain()
    ensures '%' !in SELECT_TAIL && SELECT_TAIL != [] && SELECT_TAIL[|SELECT_TAIL| - 1] == ' '
  {
    assert Plain(FROM_WORDS);
    JoinPlain(FROM_WORDS, " ");
  }

  /** The query text before the WHERE conditions holds the SELECT list's
      placeholder. */
  lemma QueryHeadPlaceholders()
    ensures Placeholders(QUERY_HEAD) == 1
    ensures QUERY_HEAD != [] && QUERY_HEAD[|QUERY_HEAD| - 1] == ' '
  {
    SelectHeadPlain();
    SelectTailPlain();
    ThenPlaceholder(SELECT_HEAD);
    PlaceholdersFree(SELECT_TAIL);
    PlaceholdersAppend(SELECT_HEAD + PH, SELECT_TAIL);
  }

  /** The ORDER BY and LIMIT clauses hold two placeholders. */
  lemma QueryTailPlaceholders()
    ensures Placeholders(QUERY_TAIL) == 2
  {
    var x := " ORDER BY be.embedding <=> " + PH;
    var b := " LIMIT ";
    ThenPlaceholder(" ORDER BY be.embedding <=> ");
    PlaceholdersFree(b);
    PlaceholdersAppend(x, b);
    ThenPlaceholder(b);
    PlaceholdersAppend(x + b, PH);
    assert QUERY_TAIL == x + b + PH;
  }

  /** The rendered query has exactly one placeholder per slot: the SELECT
      embedding, the WHERE values, the ORDER BY embedding and the limit. */
  lemma QueryPlaceholders(cs: seq<Condition>)
    ensures Placeholders(QueryText(cs)) == |QuerySlots(cs)|
  {
    var w := WhereClause(cs);
    QueryHeadPlaceholders();
    QueryTailPlaceholders();
    WherePlaceholders(cs);
    PlaceholdersAppend(QUERY_HEAD, w);
    assert (QUERY_HEAD + w)[|QUERY_HEAD + w| - 1] != '%' by {
      if w == [] {
        assert QUERY_HEAD + w == QUERY_HEAD;
      }
    }
    PlaceholdersAppend(QUERY_HEAD + w, QUERY_TAIL);
  }

  /** One pass of the tier loop keeps the conditions and the values in
      step. */
  lemma HybridStep<V>(head: seq<Condition>, tiers: seq<(int, string)>, k: nat, conditions: seq<Condition>,
                      embedding: V, threshold: real)
    requires k < |tiers|
    requires conditions == head + TierConditions(tiers[..k])
    ensures tiers[k].0 in {1, 2, 3} ==>
              && conditions + [TierEq(tiers[k].0, tiers[k].1)] == head + TierConditions(tiers[..k + 1])
              && WhereParams(conditions + [TierEq(tiers[k].0, tiers[k].1)], embedding, threshold)
                 == WhereParams(conditions, embedding, threshold) + [PText(tiers[k].1)]
    ensures tiers[k].0 !in {1, 2, 3} ==> conditions == head + TierConditions(tiers[..k + 1])
  {
    TierConditionsStep(tiers, k);
    WhereParamsSnoc(conditions, TierEq(tiers[k].0, tiers[k].1), embedding, threshold);
  }

  /** The first part of `hybrid_search`: the WHERE conditions and their
      values, built side by side by the loop over the tier entries. */
  method BuildWhere<V>(e: V, product: Option<string>, tiers: seq<(int, string)>, threshold: real)
    returns (conditions: seq<Condition>, params: seq<Param<V>>)
    ensures conditions == Conditions(product, tiers)
    ensures params == WhereParams(conditions, e, threshold)
  {
    conditions := [Similarity];
    params := [PVector(e), PReal(threshold)];
    assert params == WhereParams(conditions, e, threshold) by {
      WhereParamsSnoc([], Similarity, e, threshold);
      assert [] + [Similarity] == conditions;
    }
    if Truthy(product) {
      assert params + [PText(product.value)] == WhereParams(conditions + [ProductEq(product.value)], e, threshold) by {
        WhereParamsSnoc(conditions, ProductEq(product.value), e, threshold);
      }
      conditions := conditions + [ProductEq(product.value)];
      params := params + [PText(product.value)];
    }
    ghost var head := conditions;
    assert head == [Similarity] + (if Truthy(product) then [ProductEq(product.value)] else []);
    conditions, params := AddTierFilters(conditions, params, tiers, e, threshold);
  }

  /** The loop over the tier entries: a condition and its value for each
      entry whose level is 1, 2 or 3. */
  method AddTierFilters<V>(head: seq<Condition>, headParams: seq<Param<V>>, tiers: seq<(int, string)>, e: V, threshold: real)
    returns (conditions: seq<Condition>, params: seq<Param<V>>)
    requires headParams == WhereParams(head, e, threshold)
    ensures conditions == head + TierConditions(tiers)
    ensures params == WhereParams(conditions, e, threshold)
  {
    conditions, params := head, headParams;
    assert tiers[..0] == [];
    var k := 0;
    while k < |tiers|
      invariant 0 <= k <= |tiers|
      invariant conditions == head + TierConditions(tiers[..k])
      invariant params == WhereParams(conditions, e, threshold)
    {
      var level := tiers[k].0;
      var value := tiers[k].1;
      HybridStep(head, tiers, k, conditions, e, threshold);
      if level in {1, 2, 3} {
        conditions := conditions + [TierEq(level, value)];
        params := params + [PText(value)];
      }
      k := k + 1;
    }
    assert tiers[..k] == tiers;
  }

  /** `hybrid_search` up to the query execution, as written: `None` when
      the query's embedding call raises; otherwise the WHERE conditions and
      their values, the limit appended and the embedding inserted before
      it. */
  method HybridSearch<V>(query: string, product: Option<string>, tiers: seq<(int, string)>,
                         threshold: real, limit: int, embed: string -> Option<V>)
    returns (r: Option<HybridQuery<V>>)
    ensures embed(query).None? <==> r.None?
    ensures r.Some? ==> var e := embed(query).value;
                        && r.value.conditions == Conditions(product, tiers)
                        && r.value.whereClause == WhereClause(Conditions(product, tiers))
                        && r.value.text == QueryText(Conditions(product, tiers))
                        && r.value.params == AsWrittenParams(r.value.conditions, e, threshold, limit)
  {
    var queryEmbedding := embed(query);
    if queryEmbedding.None? {
      return None;
    }
    var e := queryEmbedding.value;
    var conditions, params := BuildWhere(e, product, tiers, threshold);
    params := params + [PInt(limit)];
    params := params[..|params| - 1] + [PVector(e)] + [params[|params| - 1]];
    r := Some(HybridQuery(conditions, WhereClause(conditions), QueryText(conditions), params));
  }

  /** Every filter the caller asked for is in the query: the product when
      truthy and each tier entry with a valid level, and nothing else. */
  lemma ConditionsSpec(product: Option<string>, tiers: seq<(int, string)>)
    ensures var cs := Conditions(product, tiers);
            && cs[0] == Similarity
            && (forall c :: c in cs[1..] ==> c.ProductEq? || c.TierEq?)
            && (Truthy(product) <==> ProductEq(if product.Some? then product.value else "") in cs)
            && (forall c :: c in cs && c.ProductEq? ==> Truthy(product) && c.product == product.value)
            && (forall k :: 0 <= k < |tiers| && tiers[k].0 in {1, 2, 3} ==> TierEq(tiers[k].0, tiers[k].1) in cs)
            && (forall c :: c in cs && c.TierEq? ==> c.level in {1, 2, 3} && (c.level, c.value) in tiers)
  {
    var cs := Conditions(product, tiers);
    var p := if Truthy(product) then [ProductEq(product.value)] else [];
    var t := TierConditions(tiers);
    TierConditionsSound(tiers);
    assert cs == [Similarity] + (p + t);
    assert cs[1..] == p + t;
    forall k | 0 <= k < |tiers| && tiers[k].0 in {1, 2, 3}
      ensures TierEq(tiers[k].0, tiers[k].1) in cs
    {
      TierConditionsComplete(tiers, k);
    }
  }

  /** Where each condition sits: the similarity at index 0, the product at
      index 1 when truthy, and the tier conditions after them in entry
      order. */
  lemma ConditionsLayout(product: Option<string>, tiers: seq<(int, string)>)
    ensures var cs := Conditions(product, tiers);
            && cs[0] == Similarity
            && (Truthy(product) ==> cs[1] == ProductEq(product.value) && cs[2..] == TierConditions(tiers))
            && (!Truthy(product) ==> cs[1..] == TierConditions(tiers))
  {
    var cs := Conditions(product, tiers);
    var p := if Truthy(product) then [ProductEq(product.value)] else [];
    assert cs == [Similarity] + p + TierConditions(tiers);
  }

}
