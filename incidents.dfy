/** The incident pipeline: cleaning the incident table, summarising and
    embedding each incident, reloading the `problem_table` store, and
    assembling the final categorised answer. The chat model and the embedding
    model are oracles passed in as functions; vector values are never
    inspected (they have the type parameter `V`). */
module IncidentRag {
  import opened Wrappers
  import Text

  // ---------------------------------------------------------------------
  // Data
  // ---------------------------------------------------------------------

  /** One cell of the pandas frame: missing (NaN/None) or a string. */
  datatype Cell = Null | Str(s: string)

  /** A row of the incident file: the three columns that are read. */
  datatype RawIncident = RawIncident(closeNotes: Cell, description: Cell, tier: Cell)

  /** A row after cleaning: every column holds a string. */
  datatype Incident = Incident(closeNotes: string, description: string, tier: string)

  const UNKNOWN := "Unknown"
  const PREPROCESS_FAILED := "Preprocessing failed: Unable to process DataFrame"

  // ---------------------------------------------------------------------
  // The mode of a column (pandas `Series.mode()[0]`)
  // ---------------------------------------------------------------------

  function Occurrences(xs: seq<string>, v: string): nat {
    if xs == [] then 0 else (if xs[0] == v then 1 else 0) + Occurrences(xs[1..], v)
  }

  lemma {:induction false} OccurrencesPositive(xs: seq<string>, v: string)
    requires v in xs
    ensures Occurrences(xs, v) > 0
  {
    if xs[0] != v {
      OccurrencesPositive(xs[1..], v);
    }
  }

  /** `v` is a most frequent value of `xs` and, among those, the least
      string: the first entry of `mode()`, which lists the most frequent
      values in sorted order. */
  ghost predicate IsFirstMode(xs: seq<string>, v: string) {
    && v in xs
    && (forall w :: w in xs ==> Occurrences(xs, w) <= Occurrences(xs, v))
    && (forall w :: w in xs && Occurrences(xs, w) == Occurrences(xs, v) ==> Text.StrLe(v, w))
  }

  /** The best of `cands` by (count in `xs` descending, string ascending). */
  function Best(xs: seq<string>, cands: seq<string>): (r: string)
    requires cands != []
    ensures r in cands
    ensures forall w :: w in cands ==>
              Occurrences(xs, w) <= Occurrences(xs, r)
              && (Occurrences(xs, w) == Occurrences(xs, r) ==> Text.StrLe(r, w))
    decreases |cands|
  {
    if |cands| == 1 then
      Text.StrLeTotal(cands[0], cands[0]);
      cands[0]
    else
      var c := cands[0];
      var b := Best(xs, cands[1..]);
      assert forall w :: w in cands ==> w == c || w in cands[1..];
      if Occurrences(xs, c) > Occurrences(xs, b)
         || (Occurrences(xs, c) == Occurrences(xs, b) && Text.StrLe(c, b))
      then
        assert forall w :: w in cands[1..] && Occurrences(xs, w) == Occurrences(xs, c) ==> Text.StrLe(c, w) by {
          forall w | w in cands[1..] && Occurrences(xs, w) == Occurrences(xs, c) ensures Text.StrLe(c, w) {
            Text.StrLeTransitive(c, b, w);
          }
        }
        Text.StrLeTotal(c, c);
        c
      else
        Text.StrLeTotal(c, b);
        b
  }

  /** pandas `mode()[0]`, or `None` when `mode()` is empty. */
  function Mode(xs: seq<string>): (r: Option<string>)
    ensures r.None? <==> xs == []
    ensures r.Some? ==> IsFirstMode(xs, r.value)
  {
    if xs == [] then None else Some(Best(xs, xs))
  }

  /** The first mode is unique, so `Mode` is the only function meeting its
      contract. */
  lemma FirstModeUnique(xs: seq<string>, v: string, w: string)
    requires IsFirstMode(xs, v) && IsFirstMode(xs, w)
    ensures v == w
  {
    Text.StrLeAntisymmetric(v, w);
  }

  /** The values `mode()` counts in the as-written code: every non-missing
      cell, the empty string included. */
  function NonNull(col: seq<Cell>): (r: seq<string>)
    ensures forall v :: v in r <==> Str(v) in col
  {
    if col == [] then []
    else (if col[0].Str? then [col[0].s] else []) + NonNull(col[1..])
  }

  /** The values the corrected code counts: non-missing, non-empty cells. */
  function NonEmpty(col: seq<Cell>): (r: seq<string>)
    ensures forall v :: v in r <==> Str(v) in col && v != ""
  {
    if col == [] then []
    else (if col[0].Str? && col[0].s != "" then [col[0].s] else []) + NonEmpty(col[1..])
  }

  function Tiers(rows: seq<RawIncident>): (r: seq<Cell>)
    ensures |r| == |rows| && forall k :: 0 <= k < |rows| ==> r[k] == rows[k].tier
  {
    seq(|rows|, k requires 0 <= k < |rows| => rows[k].tier)
  }

  // ---------------------------------------------------------------------
  // Cleaning and de-duplication (`preprocess_data`)
  // ---------------------------------------------------------------------

  /** `fillna(mode).replace('', mode)` on one tier cell. */
  function FillTier(c: Cell, mode: string): (r: string)
    ensures c.Str? && c.s != "" ==> r == c.s
    ensures c.Null? || c == Str("") ==> r == mode
  {
    match c
    case Null => mode
    case Str(s) => if s == "" then mode else s
  }

  /** `fillna("Unknown").replace('', "Unknown")` on one text cell. */
  function FillText(c: Cell): (r: string)
    ensures r != ""
    ensures c.Str? && c.s != "" ==> r == c.s
    ensures c.Null? || c == Str("") ==> r == UNKNOWN
  {
    match c
    case Null => UNKNOWN
    case Str(s) => if s == "" then UNKNOWN else s
  }

  function Clean(rows: seq<RawIncident>, mode: string): (r: seq<Incident>)
    ensures |r| == |rows|
    ensures forall k :: 0 <= k < |rows| ==>
              r[k] == Incident(FillText(rows[k].closeNotes), FillText(rows[k].description), FillTier(rows[k].tier, mode))
  {
    seq(|rows|, k requires 0 <= k < |rows| =>
      Incident(FillText(rows[k].closeNotes), FillText(rows[k].description), FillTier(rows[k].tier, mode)))
  }

  /** The de-duplication key `subset=['close_notes', 'description']`. */
  function Key(r: Incident): (string, string) {
    (r.closeNotes, r.description)
  }

  function KeySet(s: seq<Incident>): set<(string, string)> {
    set k | 0 <= k < |s| :: Key(s[k])
  }

  predicate UniqueKeys(s: seq<Incident>) {
    forall i, j :: 0 <= i < j < |s| ==> Key(s[i]) != Key(s[j])
  }

  lemma KeySetSnoc(s: seq<Incident>, x: Incident)
    ensures KeySet(s + [x]) == KeySet(s) + {Key(x)}
  {
    var t := s + [x];
    forall key | key in KeySet(t) ensures key in KeySet(s) + {Key(x)} {
      var k :| 0 <= k < |t| && Key(t[k]) == key;
      if k < |s| { assert t[k] == s[k]; }
    }
    forall key | key in KeySet(s) ensures key in KeySet(t) {
      var k :| 0 <= k < |s| && Key(s[k]) == key;
      assert t[k] == s[k];
    }
    assert Key(t[|s|]) == Key(x);
  }

  /** `drop_duplicates(subset=[...], keep='first')`: later rows whose key
      already occurred are dropped. The result has unique keys and the same
      keys as the input. */
  function DropDuplicates(s: seq<Incident>): (r: seq<Incident>)
    ensures UniqueKeys(r)
    ensures KeySet(r) == KeySet(s)
    ensures |r| <= |s|
  {
    if s == [] then []
    else
      var init := s[..|s| - 1];
      var x := s[|s| - 1];
      var p := DropDuplicates(init);
      assert s == init + [x];
      KeySetSnoc(init, x);
      if Key(x) in KeySet(p) then p
      else
        KeySetSnoc(p, x);
        assert forall i :: 0 <= i < |p| ==> Key(p[i]) in KeySet(p);
        p + [x]
  }

  /** `r` is made of the rows of `s` at the increasing positions `idx`,
      each the first row of `s` with its key. */
  ghost predicate KeepsFirst(s: seq<Incident>, r: seq<Incident>, idx: seq<nat>) {
    && |idx| == |r|
    && (forall k :: 0 <= k < |idx| ==> idx[k] < |s| && r[k] == s[idx[k]])
    && (forall k, j :: 0 <= k < |idx| && 0 <= j < idx[k] ==> Key(s[j]) != Key(s[idx[k]]))
    && (forall a, b :: 0 <= a < b < |idx| ==> idx[a] < idx[b])
  }

  /** Each kept row is the first row of the input with its key, and kept
      rows appear in input order: `idx` gives their input positions. */
  lemma {:induction false} DropDuplicatesKeepsFirst(s: seq<Incident>) returns (idx: seq<nat>)
    ensures KeepsFirst(s, DropDuplicates(s), idx)
  {
    if s == [] {
      idx := [];
    } else {
      var init := s[..|s| - 1];
      var x := s[|s| - 1];
      var p := DropDuplicates(init);
      var pre := DropDuplicatesKeepsFirst(init);
      assert s == init + [x];
      if Key(x) in KeySet(p) {
        idx := pre;
        KeepsFirstSkip(init, x, p, pre);
      } else {
        idx := pre + [|init|];
        assert forall j :: 0 <= j < |init| ==> Key(init[j]) != Key(x) by {
          forall j | 0 <= j < |init| ensures Key(init[j]) != Key(x) {
            assert Key(init[j]) in KeySet(init);
          }
        }
        KeepsFirstKeep(init, x, p, pre);
      }
    }
  }

  /** A duplicate appended to the input keeps what was kept. */
  lemma KeepsFirstSkip(init: seq<Incident>, x: Incident, p: seq<Incident>, pre: seq<nat>)
    requires KeepsFirst(init, p, pre)
    ensures KeepsFirst(init + [x], p, pre)
  {
    var s := init + [x];
    assert forall j :: 0 <= j < |init| ==> s[j] == init[j];
  }

  /** A new key appended to the input is kept, at its position. */
  lemma KeepsFirstKeep(init: seq<Incident>, x: Incident, p: seq<Incident>, pre: seq<nat>)
    requires KeepsFirst(init, p, pre)
    requires forall j :: 0 <= j < |init| ==> Key(init[j]) != Key(x)
    ensures KeepsFirst(init + [x], p + [x], pre + [|init|])
  {
    var s := init + [x];
    assert forall j :: 0 <= j < |init| ==> s[j] == init[j];
    assert s[|init|] == x;
  }

  /** A table whose keys are already unique is left as it is. */
  lemma {:induction false} DropDuplicatesOfUnique(s: seq<Incident>)
    requires UniqueKeys(s)
    ensures DropDuplicates(s) == s
  {
    if s != [] {
      var init := s[..|s| - 1];
      var x := s[|s| - 1];
      DropDuplicatesOfUnique(init);
      assert Key(x) !in KeySet(init) by {
        forall k | 0 <= k < |init| ensures Key(init[k]) != Key(x) {
          assert init[k] == s[k];
        }
      }
      assert s == init + [x];
    }
  }

  /** De-duplication is idempotent. */
  lemma DropDuplicatesIdempotent(s: seq<Incident>)
    ensures DropDuplicates(DropDuplicates(s)) == DropDuplicates(s)
  {
    DropDuplicatesOfUnique(DropDuplicates(s));
  }

  /** The cleaning steps once a mode has been chosen (or not). */
  function PreprocessWith(rows: seq<RawIncident>, mode: Option<string>): (r: Result<seq<Incident>, string>)
  {
    match mode
    case None => Failure(PREPROCESS_FAILED)
    case Some(m) => Success(DropDuplicates(Clean(rows, m)))
  }

  /** `preprocess_data` as written: the mode is taken over every non-missing
      tier, so the empty string takes part and can be the mode. */
  function PreprocessAsWritten(rows: seq<RawIncident>): Result<seq<Incident>, string> {
    PreprocessWith(rows, Mode(NonNull(Tiers(rows))))
  }

  /** `preprocess_data` with the mode taken over the non-empty tiers, as its
      comment and its error message describe. */
  function Preprocess(rows: seq<RawIncident>): Result<seq<Incident>, string> {
    PreprocessWith(rows, Mode(NonEmpty(Tiers(rows))))
  }

  /** Preprocessing fails exactly when no tier holds a non-empty value;
      otherwise no cleaned row has an empty tier, close notes or
      description, and no two rows share a key. (Which value each cell
      gets is `Clean`'s contract; which rows remain is
      `DropDuplicatesKeepsFirst`'s.) */
  lemma PreprocessSpec(rows: seq<RawIncident>)
    ensures Preprocess(rows).Failure? <==> forall k :: 0 <= k < |rows| ==> rows[k].tier in {Null, Str("")}
    ensures Preprocess(rows).Failure? ==> Preprocess(rows).error == PREPROCESS_FAILED
    ensures Preprocess(rows).Success? ==>
              var out := Preprocess(rows).value;
              && UniqueKeys(out)
              && |out| <= |rows|
              && forall k :: 0 <= k < |out| ==>
                   out[k].tier != "" && out[k].closeNotes != "" && out[k].description != ""
  {
    var tiers := Tiers(rows);
    var values := NonEmpty(tiers);
    if values == [] {
      forall k | 0 <= k < |rows| ensures rows[k].tier in {Null, Str("")} {
        assert tiers[k] == rows[k].tier;
        assert tiers[k] in tiers;
      }
    } else {
      var m := Mode(values).value;
      assert m in values;
      var cleaned := Clean(rows, m);
      assert forall k :: 0 <= k < |cleaned| ==> cleaned[k].tier != "";
      var out := DropDuplicates(cleaned);
      var idx := DropDuplicatesKeepsFirst(cleaned);
      var v0 :| v0 in values;
      assert Str(v0) in tiers;
    }
  }

  /** `preprocess_data` as written fails exactly when every tier is missing
      (an empty string still counts); otherwise no cleaned row has an empty
      close notes or description, no two rows share a key, and every tier is
      a value the column already held (possibly the empty string). */
  lemma PreprocessAsWrittenSpec(rows: seq<RawIncident>)
    ensures PreprocessAsWritten(rows).Failure? <==> forall k :: 0 <= k < |rows| ==> rows[k].tier.Null?
    ensures PreprocessAsWritten(rows).Failure? ==> PreprocessAsWritten(rows).error == PREPROCESS_FAILED
    ensures PreprocessAsWritten(rows).Success? ==>
              var out := PreprocessAsWritten(rows).value;
              && UniqueKeys(out)
              && |out| <= |rows|
              && forall k :: 0 <= k < |out| ==>
                   Str(out[k].tier) in Tiers(rows) && out[k].closeNotes != "" && out[k].description != ""
  {
    var tiers := Tiers(rows);
    var values := NonNull(tiers);
    if values == [] {
      forall k | 0 <= k < |rows| ensures rows[k].tier.Null? {
        assert tiers[k] == rows[k].tier;
        assert tiers[k] in tiers;
      }
    } else {
      var m := Mode(values).value;
      assert m in values;
      var cleaned := Clean(rows, m);
      assert forall j :: 0 <= j < |cleaned| ==> Str(cleaned[j].tier) in tiers by {
        forall j | 0 <= j < |cleaned| ensures Str(cleaned[j].tier) in tiers {
          assert tiers[j] == rows[j].tier;
        }
      }
      var idx := DropDuplicatesKeepsFirst(cleaned);
      var v0 :| v0 in values;
      assert Str(v0) in tiers;
    }
  }

  /** With the mode over non-empty tiers, every cleaned tier is a non-empty
      value the column already held. */
  lemma PreprocessTiersFromColumn(rows: seq<RawIncident>)
    ensures Preprocess(rows).Success? ==>
              var out := Preprocess(rows).value;
              forall k :: 0 <= k < |out| ==> Str(out[k].tier) in Tiers(rows) && out[k].tier != ""
  {
    var tiers := Tiers(rows);
    var values := NonEmpty(tiers);
    if values != [] {
      var m := Mode(values).value;
      assert m in values;
      var cleaned := Clean(rows, m);
      assert forall j :: 0 <= j < |cleaned| ==> Str(cleaned[j].tier) in tiers && cleaned[j].tier != "" by {
        forall j | 0 <= j < |cleaned| ensures Str(cleaned[j].tier) in tiers && cleaned[j].tier != "" {
          assert tiers[j] == rows[j].tier;
        }
      }
      var idx := DropDuplicatesKeepsFirst(cleaned);
    }
  }

  /** Three incidents, two of them with an empty tier. */
  const EMPTY_HEAVY := [RawIncident(Str("a"), Str("b"), Str("")),
                        RawIncident(Str("c"), Str("d"), Str("")),
                        RawIncident(Str("e"), Str("f"), Str("x"))]

  lemma EmptyHeavyModes()
    ensures Mode(NonNull(Tiers(EMPTY_HEAVY))) == Some("")
    ensures Mode(NonEmpty(Tiers(EMPTY_HEAVY))) == Some("x")
  {
    EmptyHeavyTiers();
    TwoEmptiesOneX();
    assert Mode(["x"]) == Some("x");
  }

  lemma EmptyHeavyTiers()
    ensures NonNull(Tiers(EMPTY_HEAVY)) == ["", "", "x"]
    ensures NonEmpty(Tiers(EMPTY_HEAVY)) == ["x"]
  {
    var tiers := Tiers(EMPTY_HEAVY);
    assert tiers == [Str(""), Str(""), Str("x")] by {
      assert tiers[0] == Str("") && tiers[1] == Str("") && tiers[2] == Str("x");
    }
    EmptyHeavyValues();
  }

  /** The values counted from the tiers `''`, `''`, `'x'`. */
  lemma EmptyHeavyValues()
    ensures NonNull([Str(""), Str(""), Str("x")]) == ["", "", "x"]
    ensures NonEmpty([Str(""), Str(""), Str("x")]) == ["x"]
  {
    var tiers := [Str(""), Str(""), Str("x")];
    assert tiers[1..] == [Str(""), Str("x")] && tiers[2..] == [Str("x")];
    assert tiers[1..][1..] == tiers[2..] && tiers[2..][1..] == [];
    assert NonNull(tiers[2..]) == ["x"];
    assert NonNull(tiers[1..]) == ["", "x"];
    assert NonEmpty(tiers[2..]) == ["x"];
    assert NonEmpty(tiers[1..]) == ["x"];
  }

  /** Two empty strings outnumber one `"x"`. */
  lemma TwoEmptiesOneX()
    ensures Mode(["", "", "x"]) == Some("")
  {
    var all: seq<string> := ["", "", "x"];
    assert all[1..] == ["", "x"] && all[2..] == ["x"];
    assert all[1..][1..] == all[2..] && all[2..][1..] == [];
    assert Occurrences(all[2..], "") == 0 && Occurrences(all[2..], "x") == 1;
    assert Occurrences(all, "") == 2;
    assert Occurrences(all, "x") == 1;
    var m := Mode(all).value;
    assert m in all && Occurrences(all, "") <= Occurrences(all, m);
  }

  lemma CleanEmptyHeavyRows(mode: string)
    ensures Clean(EMPTY_HEAVY, mode) == CleanEmptyHeavy(mode)
  {
    var c := Clean(EMPTY_HEAVY, mode);
    assert c[0] == Incident("a", "b", FillTier(Str(""), mode));
    assert c[1] == Incident("c", "d", FillTier(Str(""), mode));
    assert c[2] == Incident("e", "f", "x");
  }

  function CleanEmptyHeavy(mode: string): seq<Incident> {
    [Incident("a", "b", mode), Incident("c", "d", mode), Incident("e", "f", "x")]
  }

  /** As written, an empty-string tier still counts toward the mode: with
      two empty tiers and one `"x"`, the mode is `""`, the empty tiers are
      "replaced" by `""`, and the cleaned table keeps empty categories. */
  lemma PreprocessAsWrittenKeepsEmptyTier()
    ensures PreprocessAsWritten(EMPTY_HEAVY).Success?
    ensures |PreprocessAsWritten(EMPTY_HEAVY).value| == 3
    ensures PreprocessAsWritten(EMPTY_HEAVY).value[0].tier == ""
  {
    CleanEmptyHeavyRows("");
    var cleaned := CleanEmptyHeavy("");
    assert UniqueKeys(cleaned);
    DropDuplicatesOfUnique(cleaned);
    EmptyHeavyModes();
  }

  /** With the mode over non-empty tiers, the same table gets `"x"` in
      place of the empty tiers. */
  lemma PreprocessFillsEmptyHeavy()
    ensures Preprocess(EMPTY_HEAVY).Success?
    ensures Preprocess(EMPTY_HEAVY).value ==
              [Incident("a", "b", "x"), Incident("c", "d", "x"), Incident("e", "f", "x")]
  {
    CleanEmptyHeavyRows("x");
    var cleaned := CleanEmptyHeavy("x");
    assert UniqueKeys(cleaned);
    DropDuplicatesOfUnique(cleaned);
    EmptyHeavyModes();
  }

  // ---------------------------------------------------------------------
  // Oracle calls with input guards
  // ---------------------------------------------------------------------

  /** What the chat model gives back: an exception, or the message content
      (`''` when the response has none). */
  datatype ChatReply = ChatFailed | ChatContent(text: string)

  const NO_KEY_PHRASE := "close_notes Key Phrase: None"

  /** `isinstance(text, str) and text.strip()`: the guard before any model
      call. */
  predicate Usable(c: Cell) {
    c.Str? && Text.Strip(c.s) != ""
  }

  /** `oneline_solution_summary`: the key-phrase line, together with the
      texts sent to the chat model (the prompt wording around the text is
      not modelled). */
  function OnelineSolutionSummary(text: Cell, llm: string -> ChatReply): (r: (string, seq<string>))
    ensures !Text.Blank(r.0)
    ensures !Usable(text) <==> r.1 == []
    ensures Usable(text) ==> r.1 == [text.s]
    ensures r.0 == NO_KEY_PHRASE <== !Usable(text) || llm(text.s).ChatFailed? || Text.Blank(llm(text.s).text)
    ensures r.0 != NO_KEY_PHRASE ==> Usable(text) && llm(text.s).ChatContent?
                                     && r.0 == Text.Strip(llm(text.s).text)
    ensures Usable(text) && llm(text.s).ChatContent? && !Text.Blank(llm(text.s).text) ==>
              r.0 == Text.Strip(llm(text.s).text)
  {
    assert !Text.IsSpace(NO_KEY_PHRASE[0]);
    if !Usable(text) then (NO_KEY_PHRASE, [])
    else
      match llm(text.s)
      case ChatFailed => (NO_KEY_PHRASE, [text.s])
      case ChatContent(c) =>
        var content := Text.Strip(c);
        if content == "" then (NO_KEY_PHRASE, [text.s])
        else
          assert !Text.IsSpace(content[0]);
          (content, [text.s])
  }

  /** `generate_vector`: the embedding of a usable text, `None` when the
      guard refuses the text or the embedding call raises; with the texts
      sent to the embedding model. */
  function GenerateVector<V>(text: Cell, embed: string -> Option<V>): (r: (Option<V>, seq<string>))
    ensures !Usable(text) <==> r.1 == []
    ensures Usable(text) ==> r.1 == [text.s] && r.0 == embed(text.s)
    ensures !Usable(text) ==> r.0.None?
  {
    if !Usable(text) then (None, []) else (embed(text.s), [text.s])
  }

  // ---------------------------------------------------------------------
  // Building the rows to store (`store_csvfile_into_database`)
  // ---------------------------------------------------------------------

  /** One tuple of `data_to_store`. */
  datatype Record<V> = Record(description: string, summary: string, descriptionVector: V, summaryVector: V, tier: string)

  /** The body of the row loop for one cleaned incident: a record when both
      embeddings exist, nothing otherwise. */
  function IngestRow<V>(row: Incident, llm: string -> ChatReply, embed: string -> Option<V>): Option<Record<V>> {
    RecordFor(row, OnelineSolutionSummary(Str(row.closeNotes), llm).0, embed)
  }

  /** The rest of the row loop once the key phrase is known. */
  function RecordFor<V>(row: Incident, phrase: string, embed: string -> Option<V>): Option<Record<V>> {
    var summary := phrase + " " + row.description;
    var descriptionVector := GenerateVector(Str(row.description), embed).0;
    var summaryVector := GenerateVector(Str(summary), embed).0;
    if descriptionVector.None? || summaryVector.None? then None
    else Some(Record(row.description, summary, descriptionVector.value, summaryVector.value, row.tier))
  }

  /** The records of all rows, in row order, skipping rows with a missing
      embedding. */
  function IngestAll<V>(rows: seq<Incident>, llm: string -> ChatReply, embed: string -> Option<V>): seq<Record<V>> {
    if rows == [] then []
    else AppendSome(IngestAll(rows[..|rows| - 1], llm, embed), IngestRow(rows[|rows| - 1], llm, embed))
  }

  function AppendSome<T>(xs: seq<T>, o: Option<T>): seq<T> {
    match o
    case None => xs
    case Some(x) => xs + [x]
  }

  /** A row yields a record exactly when the description and the summary
      both embed; the summary is the key phrase, a space and the
      description; the description and tier are the row's. */
  lemma IngestRowSpec<V>(row: Incident, llm: string -> ChatReply, embed: string -> Option<V>)
    ensures var phrase := OnelineSolutionSummary(Str(row.closeNotes), llm).0;
            var summary := phrase + " " + row.description;
            && (IngestRow(row, llm, embed).Some? <==>
                  Usable(Str(row.description)) && embed(row.description).Some? && embed(summary).Some?)
            && (IngestRow(row, llm, embed).Some? ==>
                  IngestRow(row, llm, embed).value ==
                    Record(row.description, summary, embed(row.description).value, embed(summary).value, row.tier))
  {
    RecordForSpec(row, OnelineSolutionSummary(Str(row.closeNotes), llm).0, embed);
  }

  /** The same, for any key phrase that is not blank. */
  lemma RecordForSpec<V>(row: Incident, phrase: string, embed: string -> Option<V>)
    requires !Text.Blank(phrase)
    ensures var summary := phrase + " " + row.description;
            && (RecordFor(row, phrase, embed).Some? <==>
                  Usable(Str(row.description)) && embed(row.description).Some? && embed(summary).Some?)
            && (RecordFor(row, phrase, embed).Some? ==>
                  RecordFor(row, phrase, embed).value ==
                    Record(row.description, summary, embed(row.description).value, embed(summary).value, row.tier))
  {
    var summary := phrase + " " + row.description;
    SummaryUsable(phrase, row.description);
    assert GenerateVector(Str(summary), embed).0 == embed(summary);
  }

  /** A summary led by a non-blank phrase passes the guard. */
  lemma SummaryUsable(phrase: string, description: string)
    requires !Text.Blank(phrase)
    ensures Usable(Str(phrase + " " + description))
  {
    var k :| 0 <= k < |phrase| && !Text.IsSpace(phrase[k]);
    assert (phrase + " " + description)[k] == phrase[k];
  }

  /** Ingesting a table piecewise is ingesting it whole: records keep the
      order of their rows. */
  lemma {:induction false} IngestAllAppend<V>(a: seq<Incident>, b: seq<Incident>, llm: string -> ChatReply, embed: string -> Option<V>)
    ensures IngestAll(a + b, llm, embed) == IngestAll(a, llm, embed) + IngestAll(b, llm, embed)
    decreases |b|
  {
    if b == [] {
      assert a + b == a;
    } else {
      var b' := b[..|b| - 1];
      var last := b[|b| - 1];
      assert (a + b)[..|a + b| - 1] == a + b';
      assert (a + b)[|a + b| - 1] == last;
      IngestAllAppend(a, b', llm, embed);
      var o := IngestRow(last, llm, embed);
      assert IngestAll(a + b, llm, embed) == AppendSome(IngestAll(a + b', llm, embed), o);
      assert IngestAll(b, llm, embed) == AppendSome(IngestAll(b', llm, embed), o);
      AppendSomeAssoc(IngestAll(a, llm, embed), IngestAll(b', llm, embed), o);
    }
  }

  lemma AppendSomeAssoc<T>(x: seq<T>, y: seq<T>, o: Option<T>)
    ensures AppendSome(x + y, o) == x + AppendSome(y, o)
  {
    if o.Some? {
      assert x + y + [o.value] == x + (y + [o.value]);
    }
  }

  /** The row loop of `store_csvfile_into_database`. */
  method BuildRecords<V>(rows: seq<Incident>, llm: string -> ChatReply, embed: string -> Option<V>)
    returns (data: seq<Record<V>>)
    ensures data == IngestAll(rows, llm, embed)
    ensures |data| <= |rows|
  {
    data := [];
    var k := 0;
    while k < |rows|
      invariant 0 <= k <= |rows|
      invariant data == IngestAll(rows[..k], llm, embed)
      invariant |data| <= k
    {
      assert rows[..k + 1][..k] == rows[..k];
      var rec := IngestRow(rows[k], llm, embed);
      if rec.Some? {
        data := data + [rec.value];
      }
      assert data == AppendSome(IngestAll(rows[..k], llm, embed), rec);
      k := k + 1;
    }
    assert rows[..k] == rows;
  }

  // ---------------------------------------------------------------------
  // The `problem_table` store (`store_in_supabase`)
  // ---------------------------------------------------------------------

  datatype ProblemRow<V> = ProblemRow(
    id: int, descriptionContent: string, summaryContent: string,
    descriptionVector: V, solutionVector: V, tier: string, isValid: bool)

  /** The row stored for the record at position `idx` (0-based). */
  function RowFor<V>(rec: Record<V>, idx: nat): ProblemRow<V> {
    ProblemRow(idx + 1, rec.description, rec.summary, rec.descriptionVector, rec.summaryVector, rec.tier, true)
  }

  /** Where `store_in_supabase` raises, if anywhere: the exception is
      caught and printed, so what was done before it stays done. */
  datatype StoreFault = NoFault | DeleteFails | InsertFails(at: nat)

  /** How many records are inserted, given the fault and `n` records. */
  function Inserted(fault: StoreFault, n: nat): (r: nat)
    ensures r <= n
    ensures fault.DeleteFails? ==> r == 0
    ensures fault.NoFault? ==> r == n
    ensures fault.InsertFails? ==> r == (if fault.at < n then fault.at else n)
  {
    match fault
    case NoFault => n
    case DeleteFails => 0
    case InsertFails(at) => if at < n then at else n
  }

  class ProblemTable<V> {
    var rows: map<int, ProblemRow<V>>

    constructor ()
      ensures rows == map[]
    {
      rows := map[];
    }

    /** `store_in_supabase`: delete every row with `id >= 0`, then insert
        record i under id i+1. When the delete raises, the table is left as
        it was and nothing is inserted; when insert i raises, the rows
        inserted before it stay and no later insert is tried. */
    method StoreInSupabase(data: seq<Record<V>>, fault: StoreFault)
      modifies this
      ensures fault.DeleteFails? ==> rows == old(rows)
      ensures !fault.DeleteFails? ==>
                var stored := Inserted(fault, |data|);
                && (forall id :: id in rows <==> (id in old(rows) && id < 0) || 1 <= id <= stored)
                && (forall id :: id in rows && id < 0 ==> rows[id] == old(rows)[id])
                && (forall k :: 0 <= k < stored ==> rows[k + 1] == RowFor(data[k], k))
    {
      if fault.DeleteFails? {
        return;
      }
      rows := map id | id in rows && id < 0 :: rows[id];
      var stop := Inserted(fault, |data|);
      var k := 0;
      while k < stop
        invariant 0 <= k <= stop
        invariant forall id :: id in rows <==> (id in old(rows) && id < 0) || 1 <= id <= k
        invariant forall id :: id in rows && id < 0 ==> rows[id] == old(rows)[id]
        invariant forall j :: 0 <= j < k ==> rows[j + 1] == RowFor(data[j], j)
      {
        rows := rows[k + 1 := RowFor(data[k], k)];
        k := k + 1;
      }
    }

    /** `store_csvfile_into_database` after the file is read: clean the
        table as `preprocess_data` is written (a failure raises before
        anything is stored), build the records, reload the store. */
    method StoreCsvFile(raw: seq<RawIncident>, llm: string -> ChatReply, embed: string -> Option<V>, fault: StoreFault)
      returns (outcome: Result<seq<Record<V>>, string>)
      modifies this
      ensures PreprocessAsWritten(raw).Failure? ==>
                outcome == Failure(PreprocessAsWritten(raw).error) && rows == old(rows)
      ensures PreprocessAsWritten(raw).Success? ==>
                outcome == Success(IngestAll(PreprocessAsWritten(raw).value, llm, embed))
      ensures outcome.Success? && fault.DeleteFails? ==> rows == old(rows)
      ensures outcome.Success? && !fault.DeleteFails? ==>
                var stored := Inserted(fault, |outcome.value|);
                && (forall id :: id in rows <==> (id in old(rows) && id < 0) || 1 <= id <= stored)
                && (forall id :: id in rows && id < 0 ==> rows[id] == old(rows)[id])
                && (forall k :: 0 <= k < stored ==> rows[k + 1] == RowFor(outcome.value[k], k))
    {
      var cleaned := PreprocessAsWritten(raw);
      if cleaned.Failure? {
        return Failure(cleaned.error);
      }
      var data := BuildRecords(cleaned.value, llm, embed);
      StoreInSupabase(data, fault);
      outcome := Success(data);
    }
  }

  // ---------------------------------------------------------------------
  // The final answer (`generate_final_response`)
  // ---------------------------------------------------------------------

  /** One search result row: id, description, summary, tier (possibly
      missing) and the similarity already rendered with three decimals.
      The id is any integer of `problem_table`: rows with a negative id
      survive `StoreInSupabase`. */
  datatype SearchHit = SearchHit(id: int, descriptionContent: string, summaryContent: string,
                                 tier: Option<string>, similarity: string)

  /** Python truthiness of an optional string. */
  predicate Truthy(o: Option<string>) {
    o.Some? && o.value != ""
  }

  /** `mode_category`: the first mode of the file's tier column, counted
      the way pandas counts it (every non-missing value), or "Unknown" when
      every tier is missing. */
  function ModeCategory(file: seq<RawIncident>): (c: string)
    ensures (forall k :: 0 <= k < |file| ==> file[k].tier.Null?) ==> c == UNKNOWN
    ensures (exists k :: 0 <= k < |file| && file[k].tier.Str?) ==> IsFirstMode(NonNull(Tiers(file)), c)
  {
    var values := NonNull(Tiers(file));
    assert (exists k :: 0 <= k < |file| && file[k].tier.Str?) <==> values != [] by {
      if exists k :: 0 <= k < |file| && file[k].tier.Str? {
        var k :| 0 <= k < |file| && file[k].tier.Str?;
        assert Tiers(file)[k] in Tiers(file);
      }
      if values != [] {
        assert values[0] in values;
        var v := values[0];
        var k :| 0 <= k < |file| && Tiers(file)[k] == Str(v);
      }
    }
    Mode(values).GetOr(UNKNOWN)
  }

  /** The answer's category: the top result's tier when truthy, else the
      fallback category. */
  function Category(results: seq<SearchHit>, fallback: string): (c: string)
    ensures results != [] && Truthy(results[0].tier) ==> c == results[0].tier.value
    ensures results == [] || !Truthy(results[0].tier) ==> c == fallback
  {
    if results != [] && Truthy(results[0].tier) then results[0].tier.value else fallback
  }

  /** The seven context lines of the result at 1-based rank `rank`. */
  function ResultBlock(hit: SearchHit, rank: nat, fallback: string): seq<string> {
    var category := if Truthy(hit.tier) then hit.tier.value else fallback;
    [ "Result " + Text.DecimalText(rank) + ":",
      "  ID: " + Text.IntText(hit.id),
      "  Description: " + hit.descriptionContent,
      "  Summary: " + hit.summaryContent,
      "  Category: " + category,
      "  Similarity: " + hit.similarity,
      "" ]
  }

  /** The blocks of all results, ranked 1, 2, ... in order. */
  function Blocks(results: seq<SearchHit>, fallback: string): seq<string> {
    if results == [] then []
    else Blocks(results[..|results| - 1], fallback) + ResultBlock(results[|results| - 1], |results|, fallback)
  }

  lemma BlocksGrow(results: seq<SearchHit>, k: nat, fallback: string)
    requires 0 < k <= |results|
    ensures Blocks(results[..k], fallback) == Blocks(results[..k - 1], fallback) + ResultBlock(results[k - 1], k, fallback)
  {
    var r := results[..k];
    assert |r| == k && r[..k - 1] == results[..k - 1] && r[k - 1] == results[k - 1];
  }

  function ContextLines(results: seq<SearchHit>, fallback: string): seq<string> {
    ["Search Results:"] + (if results == [] then ["No relevant results found."] else Blocks(results, fallback))
  }

  /** The blocks are seven lines per result, in rank order, each naming its
      rank, the result's id and its category. */
  lemma {:induction false} BlocksLayout(results: seq<SearchHit>, fallback: string)
    ensures |Blocks(results, fallback)| == 7 * |results|
    ensures forall k :: 0 <= k < |results| ==>
              Blocks(results, fallback)[7 * k .. 7 * k + 7] == ResultBlock(results[k], k + 1, fallback)
  {
    if results != [] {
      var init := results[..|results| - 1];
      BlocksLayout(init, fallback);
      var b := Blocks(results, fallback);
      var bi := Blocks(init, fallback);
      assert b == bi + ResultBlock(results[|results| - 1], |results|, fallback);
      forall k | 0 <= k < |results|
        ensures b[7 * k .. 7 * k + 7] == ResultBlock(results[k], k + 1, fallback)
      {
        if k < |init| {
          assert b[7 * k .. 7 * k + 7] == bi[7 * k .. 7 * k + 7];
          assert init[k] == results[k];
        } else {
          assert b[7 * k .. 7 * k + 7] == b[|bi|..];
        }
      }
    }
  }

  /** The context opens with "Search Results:" and then holds either the
      single no-results line or seven lines per result in rank order. */
  lemma ContextLinesLayout(results: seq<SearchHit>, fallback: string)
    ensures var lines := ContextLines(results, fallback);
            && lines[0] == "Search Results:"
            && (results == [] ==> lines == ["Search Results:", "No relevant results found."])
            && (results != [] ==>
                  && |lines| == 1 + 7 * |results|
                  && forall k :: 0 <= k < |results| ==>
                       lines[1 + 7 * k .. 8 + 7 * k] == ResultBlock(results[k], k + 1, fallback))
  {
    if results != [] {
      var blocks := Blocks(results, fallback);
      BlocksLayout(results, fallback);
      var lines := ContextLines(results, fallback);
      assert lines == ["Search Results:"] + blocks;
      forall k | 0 <= k < |results|
        ensures lines[1 + 7 * k .. 8 + 7 * k] == ResultBlock(results[k], k + 1, fallback)
      {
        assert lines[1 + 7 * k .. 8 + 7 * k] == blocks[7 * k .. 7 * k + 7];
      }
    }
  }

  /** What the chat model is given: the user's query and the assembled
      context (the fixed system message and prompt wording are not
      modelled). */
  datatype ChatRequest = ChatRequest(query: string, context: string)

  const FALLBACK_GUIDANCE := "Please provide more details or check the system documentation for guidance."
  const ERROR_TEXT := "Error generating response. Please try again or check the system logs."

  /** The answer text for a category and the chat model's reply. */
  function Answer(category: string, reply: ChatReply): string {
    var prefix := "Resolution Category: " + category + "\n";
    match reply
    case ChatFailed => prefix + ERROR_TEXT
    case ChatContent(c) =>
      var content := Text.Strip(c);
      prefix + (if content == "" then FALLBACK_GUIDANCE else content)
  }

  /** Every answer starts with the category line and goes on with a
      non-empty text: the model's stripped reply, the fixed guidance when
      the reply is blank, or the fixed error text when the call raises. */
  lemma AnswerShape(category: string, reply: ChatReply)
    ensures var prefix := "Resolution Category: " + category + "\n";
            var a := Answer(category, reply);
            && |prefix| < |a| && a[..|prefix|] == prefix
            && (reply.ChatFailed? ==> a[|prefix|..] == ERROR_TEXT)
            && (reply.ChatContent? && Text.Blank(reply.text) ==> a[|prefix|..] == FALLBACK_GUIDANCE)
            && (reply.ChatContent? && !Text.Blank(reply.text) ==> a[|prefix|..] == Text.Strip(reply.text))
  {
    var prefix := "Resolution Category: " + category + "\n";
    var a := Answer(category, reply);
    assert a == prefix + a[|prefix|..];
  }

  /** `generate_final_response`, given the rows of the incident file it
      reads for the fallback category: choose the category, build the
      context lines, ask the chat model, and prefix the category. */
  method GenerateFinalResponse(userPrompt: string, results: seq<SearchHit>, file: seq<RawIncident>,
                               llm: ChatRequest -> ChatReply)
    returns (answer: string, request: ChatRequest)
    ensures request == ChatRequest(userPrompt, Text.Join(ContextLines(results, ModeCategory(file)), "\n"))
    ensures answer == Answer(Category(results, ModeCategory(file)), llm(request))
    ensures |"Search Results:"| <= |request.context| && request.context[..|"Search Results:"|] == "Search Results:"
  {
    var modeCategory := ModeCategory(file);
    var category := modeCategory;
    if |results| > 0 {
      var top := results[0].tier;
      category := if Truthy(top) then top.value else modeCategory;
    }
    var contextLines := ["Search Results:"];
    if |results| == 0 {
      contextLines := contextLines + ["No relevant results found."];
    } else {
      var k := 0;
      while k < |results|
        invariant 0 <= k <= |results|
        invariant contextLines == ["Search Results:"] + Blocks(results[..k], modeCategory)
      {
        contextLines := contextLines + ResultBlock(results[k], k + 1, modeCategory);
        k := k + 1;
        BlocksGrow(results, k, modeCategory);
      }
      assert results[..k] == results;
    }
    Text.JoinStartsWithFirst(contextLines, "\n");
    request := ChatRequest(userPrompt, Text.Join(contextLines, "\n"));
    answer := Answer(category, llm(request));
  }
}
