/** The bug RAG store: the `bugs` and `bug_embeddings` tables, `store_bug`,
    `_store_embeddings` and `bulk_insert_bugs`. Each database transaction is
    modelled as work on local copies that are written back on commit; the
    id sequence, like a Postgres sequence, is not rolled back. The
    embedding service is an oracle returning `None` where it raises. */
module BugStore {
  import opened Wrappers
  import opened BugText

  /** A `bug_embeddings` row. */
  datatype EmbeddingRow<V> = EmbeddingRow(bugId: nat, contentType: ContentType, text: string, embedding: V)

  /** Why a transaction was aborted: a unique-key violation on
      `incident_number`, an embedding call that raised, or `range()` called
      with a zero step. */
  datatype StoreError = DuplicateIncident(incidentNumber: string) | EmbeddingFailed | ZeroBatchSize

  // ---------------------------------------------------------------------
  // The embedding rows of one bug (`_store_embeddings`)
  // ---------------------------------------------------------------------

  /** Every config's text embeds. */
  predicate AllEmbed<V>(configs: seq<EmbeddingConfig>, embed: string -> Option<V>) {
    forall k :: 0 <= k < |configs| ==> embed(configs[k].text).Some?
  }

  /** `rows` are the embedding rows of `configs` under `bugId`, in order. */
  ghost predicate RowsFor<V>(bugId: nat, configs: seq<EmbeddingConfig>, embed: string -> Option<V>, rows: seq<EmbeddingRow<V>>) {
    && |rows| == |configs|
    && forall k :: 0 <= k < |configs| ==>
         embed(configs[k].text).Some?
         && rows[k] == EmbeddingRow(bugId, configs[k].contentType, configs[k].text, embed(configs[k].text).value)
  }

  /** The rows inserted for the configs of one bug, or `None` when one of
      the embedding calls raises. */
  function EmbedAll<V>(bugId: nat, configs: seq<EmbeddingConfig>, embed: string -> Option<V>)
    : Option<seq<EmbeddingRow<V>>>
  {
    if configs == [] then Some([])
    else
      var n := |configs|;
      var prev := EmbedAll(bugId, configs[..n - 1], embed);
      var e := embed(configs[n - 1].text);
      if prev.None? || e.None? then None
      else Some(prev.value + [EmbeddingRow(bugId, configs[n - 1].contentType, configs[n - 1].text, e.value)])
  }

  /** The rows of one bug exist exactly when every config's text embeds,
      and are then one row per config, in order, under the bug's id. */
  lemma {:induction false} EmbedAllSpec<V>(bugId: nat, configs: seq<EmbeddingConfig>, embed: string -> Option<V>)
    ensures var r := EmbedAll(bugId, configs, embed);
            && (r.Some? <==> AllEmbed(configs, embed))
            && (r.Some? ==> RowsFor(bugId, configs, embed, r.value))
    decreases |configs|
  {
    if configs != [] {
      var n := |configs|;
      var init := configs[..n - 1];
      EmbedAllSpec(bugId, init, embed);
      assert forall k :: 0 <= k < n - 1 ==> init[k] == configs[k];
    }
  }

  /** One more config: the rows so far and the new config's row. */
  lemma EmbedAllGrow<V>(bugId: nat, configs: seq<EmbeddingConfig>, k: nat, embed: string -> Option<V>,
                        done0: seq<EmbeddingRow<V>>, done: seq<EmbeddingRow<V>>)
    requires 0 < k <= |configs| && EmbedAll(bugId, configs[..k - 1], embed) == Some(done0)
    requires embed(configs[k - 1].text).Some?
    requires done == done0 + [EmbeddingRow(bugId, configs[k - 1].contentType, configs[k - 1].text, embed(configs[k - 1].text).value)]
    ensures EmbedAll(bugId, configs[..k], embed) == Some(done)
  {
    var c := configs[..k];
    assert c != [] && |c| - 1 == k - 1;
    assert c[..k - 1] == configs[..k - 1];
    assert c[k - 1] == configs[k - 1];
  }

  /** `_store_embeddings`: one row per config, in config order, each with
      the bug's id, its content type and its text; the loop stops at the
      first embedding call that raises. */
  method StoreEmbeddings<V>(bugId: nat, bug: BugData, embed: string -> Option<V>)
    returns (rows: Option<seq<EmbeddingRow<V>>>)
    ensures rows == EmbedAll(bugId, EmbeddingConfigs(bug), embed)
  {
    var configs := EmbeddingConfigs(bug);
    var done: seq<EmbeddingRow<V>> := [];
    var k := 0;
    while k < |configs|
      invariant 0 <= k <= |configs|
      invariant EmbedAll(bugId, configs[..k], embed) == Some(done)
    {
      var e := embed(configs[k].text);
      if e.None? {
        EmbedAllSpec(bugId, configs, embed);
        return None;
      }
      ghost var done0 := done;
      done := done + [EmbeddingRow(bugId, configs[k].contentType, configs[k].text, e.value)];
      k := k + 1;
      EmbedAllGrow(bugId, configs, k, embed, done0, done);
    }
    assert configs[..k] == configs;
    rows := Some(done);
  }

  // ---------------------------------------------------------------------
  // Store state and one transaction
  // ---------------------------------------------------------------------

  datatype StoreState<V> = StoreState(bugs: map<nat, BugData>, embeddings: seq<EmbeddingRow<V>>, nextId: nat)

  /** The incident numbers stored in a `bugs` table. */
  function IncidentSet(bugs: map<nat, BugData>): set<string> {
    set id | id in bugs :: bugs[id].incidentNumber
  }

  predicate UniqueIncidents(bugs: map<nat, BugData>) {
    forall a, b :: a in bugs && b in bugs && a != b ==> bugs[a].incidentNumber != bugs[b].incidentNumber
  }

  function BatchIncidents(batch: seq<BugData>): set<string> {
    set j | 0 <= j < |batch| :: batch[j].incidentNumber
  }

  /** Ids come from the sequence and are below the next value; every
      embedding row refers to a stored bug; incident numbers are unique. */
  ghost predicate ValidState<V>(s: StoreState<V>) {
    && 1 <= s.nextId
    && (forall id :: id in s.bugs ==> 1 <= id < s.nextId)
    && (forall k :: 0 <= k < |s.embeddings| ==> s.embeddings[k].bugId in s.bugs)
    && UniqueIncidents(s.bugs)
  }

  predicate IdsBelow(bugs: map<nat, BugData>, start: nat) {
    forall id :: id in bugs ==> id < start
  }

  /** The bugs of a batch can be inserted one after the other into a table
      holding the incident numbers `taken`: no bug's number is taken, either
      by the table or by an earlier bug of the batch. */
  predicate Insertable(taken: set<string>, batch: seq<BugData>)
    decreases |batch|
  {
    batch == [] || (batch[0].incidentNumber !in taken && Insertable(taken + {batch[0].incidentNumber}, batch[1..]))
  }

  /** Insertable means: no number of the batch is taken and no number occurs
      twice in the batch. */
  lemma {:induction false} InsertableSpec(taken: set<string>, batch: seq<BugData>)
    ensures Insertable(taken, batch) <==>
              && (forall j :: 0 <= j < |batch| ==> batch[j].incidentNumber !in taken)
              && (forall i, j :: 0 <= i < j < |batch| ==> batch[i].incidentNumber != batch[j].incidentNumber)
    decreases |batch|
  {
    if batch != [] {
      var x := batch[0].incidentNumber;
      var rest := batch[1..];
      InsertableSpec(taken + {x}, rest);
      assert forall j :: 1 <= j < |batch| ==> batch[j] == rest[j - 1];
    }
  }

  /** The `INSERT INTO bugs` statements of a transaction, bug `j` of the
      batch under id `start + j`: the staged table, or the position of the
      first bug whose incident number is already in the table. */
  function InsertBugs(bugs: map<nat, BugData>, start: nat, batch: seq<BugData>): (r: Result<map<nat, BugData>, nat>)
    ensures r.Failure? ==> r.error < |batch|
    decreases |batch|
  {
    if batch == [] then Success(bugs)
    else if batch[0].incidentNumber in IncidentSet(bugs) then Failure(0)
    else
      match InsertBugs(bugs[start := batch[0]], start + 1, batch[1..])
      case Success(m) => Success(m)
      case Failure(j) => Failure(j + 1)
  }

  /** The inserts succeed exactly when the batch is insertable; a failure at
      `j` is the first bug that is not. */
  lemma {:induction false} InsertBugsFails(bugs: map<nat, BugData>, start: nat, batch: seq<BugData>)
    requires IdsBelow(bugs, start)
    ensures var r := InsertBugs(bugs, start, batch);
            && (r.Success? <==> Insertable(IncidentSet(bugs), batch))
            && (r.Failure? ==>
                  Insertable(IncidentSet(bugs), batch[..r.error]) && !Insertable(IncidentSet(bugs), batch[..r.error + 1]))
    decreases |batch|
  {
    if batch != [] {
      var x := batch[0];
      var m := bugs[start := x];
      if x.incidentNumber !in IncidentSet(bugs) {
        IncidentSetAdd(bugs, start, x);
        InsertBugsFails(m, start + 1, batch[1..]);
        var r := InsertBugs(m, start + 1, batch[1..]);
        if r.Failure? {
          var j := r.error;
          assert batch[..j + 1][1..] == batch[1..][..j];
          assert batch[..j + 2][1..] == batch[1..][..j + 1];
        }
      } else {
        assert batch[..1][0] == x;
      }
    }
  }

  /** A successful insert keeps the table's rows and puts bug `j` under id
      `start + j`, and adds no other id. */
  lemma {:induction false} InsertBugsRows(bugs: map<nat, BugData>, start: nat, batch: seq<BugData>)
    requires IdsBelow(bugs, start) && InsertBugs(bugs, start, batch).Success?
    ensures var m := InsertBugs(bugs, start, batch).value;
            && (forall id :: id in m <==> id in bugs || start <= id < start + |batch|)
            && (forall id :: id in bugs ==> m[id] == bugs[id])
            && (forall j :: 0 <= j < |batch| ==> m[start + j] == batch[j])
    decreases |batch|
  {
    if batch != [] {
      var rest := batch[1..];
      InsertBugsRows(bugs[start := batch[0]], start + 1, rest);
      assert forall j :: 1 <= j < |batch| ==> batch[j] == rest[j - 1] && start + j == (start + 1) + (j - 1);
    }
  }

  /** A successful insert keeps incident numbers unique and adds exactly the
      batch's numbers. */
  lemma {:induction false} InsertBugsUnique(bugs: map<nat, BugData>, start: nat, batch: seq<BugData>)
    requires IdsBelow(bugs, start) && UniqueIncidents(bugs) && InsertBugs(bugs, start, batch).Success?
    ensures UniqueIncidents(InsertBugs(bugs, start, batch).value)
    ensures IncidentSet(InsertBugs(bugs, start, batch).value) == IncidentSet(bugs) + BatchIncidents(batch)
    decreases |batch|
  {
    if batch != [] {
      var x := batch[0];
      var m := bugs[start := x];
      assert UniqueIncidents(m) && IncidentSet(m) == IncidentSet(bugs) + {x.incidentNumber} by {
        UniqueAdd(bugs, start, x);
        IncidentSetAdd(bugs, start, x);
      }
      InsertBugsUnique(m, start + 1, batch[1..]);
      BatchIncidentsCons(batch);
    }
  }

  lemma BatchIncidentsCons(batch: seq<BugData>)
    requires batch != []
    ensures BatchIncidents(batch) == {batch[0].incidentNumber} + BatchIncidents(batch[1..])
  {
    assert batch == [batch[0]] + batch[1..];
    BatchIncidentsAppend([batch[0]], batch[1..]);
    assert BatchIncidents([batch[0]]) == {batch[0].incidentNumber} by {
      assert [batch[0]][0] == batch[0];
    }
  }

  lemma UniqueAdd(m: map<nat, BugData>, id: nat, x: BugData)
    requires id !in m && UniqueIncidents(m) && x.incidentNumber !in IncidentSet(m)
    ensures UniqueIncidents(m[id := x])
  {
    var m' := m[id := x];
    forall a, b | a in m' && b in m' && a != b
      ensures m'[a].incidentNumber != m'[b].incidentNumber
    {
      if a == id {
        assert m[b].incidentNumber in IncidentSet(m);
      } else if b == id {
        assert m[a].incidentNumber in IncidentSet(m);
      }
    }
  }

  lemma IncidentSetAdd(m: map<nat, BugData>, id: nat, x: BugData)
    requires id !in m
    ensures IncidentSet(m[id := x]) == IncidentSet(m) + {x.incidentNumber}
  {
    var m' := m[id := x];
    forall v | v in IncidentSet(m') ensures v in IncidentSet(m) + {x.incidentNumber} {
      var i :| i in m' && m'[i].incidentNumber == v;
      if i != id { assert m'[i] == m[i]; }
    }
    forall v | v in IncidentSet(m) ensures v in IncidentSet(m') {
      var i :| i in m && m[i].incidentNumber == v;
      assert m'[i] == m[i];
    }
    assert m'[id] == x;
  }

  /** Every embedding call of every bug in the batch succeeds. */
  predicate BatchEmbeds<V>(batch: seq<BugData>, embed: string -> Option<V>) {
    forall j :: 0 <= j < |batch| ==> AllEmbed(EmbeddingConfigs(batch[j]), embed)
  }

  predicate IdsWithin<V>(rows: seq<EmbeddingRow<V>>, lo: nat, hi: nat) {
    forall k :: 0 <= k < |rows| ==> lo <= rows[k].bugId < hi
  }

  /** The embedding rows of a whole batch, bug `j` under id `start + j`, or
      `None` when an embedding call raises. */
  function EmbedBatch<V>(start: nat, batch: seq<BugData>, embed: string -> Option<V>): Option<seq<EmbeddingRow<V>>>
    decreases |batch|
  {
    if batch == [] then Some([])
    else
      var first := EmbedAll(start, EmbeddingConfigs(batch[0]), embed);
      if first.None? then None
      else Prepend(first.value, EmbedBatch(start + 1, batch[1..], embed))
  }

  function Prepend<V>(rows: seq<EmbeddingRow<V>>, r: Option<seq<EmbeddingRow<V>>>): Option<seq<EmbeddingRow<V>>> {
    if r.None? then None else Some(rows + r.value)
  }

  /** The rows of a batch exist exactly when every embedding call succeeds,
      and they all belong to the batch's ids. */
  lemma EmbedBatchSpec<V>(start: nat, batch: seq<BugData>, embed: string -> Option<V>)
    ensures var r := EmbedBatch(start, batch, embed);
            && (r.Some? <==> BatchEmbeds(batch, embed))
            && (r.Some? ==> IdsWithin(r.value, start, start + |batch|))
  {
    EmbedBatchSome(start, batch, embed);
    EmbedBatchIds(start, batch, embed);
  }

  lemma {:induction false} EmbedBatchSome<V>(start: nat, batch: seq<BugData>, embed: string -> Option<V>)
    ensures EmbedBatch(start, batch, embed).Some? <==> BatchEmbeds(batch, embed)
    decreases |batch|
  {
    if batch != [] {
      var rest := batch[1..];
      EmbedBatchSome(start + 1, rest, embed);
      EmbedAllSpec(start, EmbeddingConfigs(batch[0]), embed);
      assert BatchEmbeds(batch, embed) <==> AllEmbed(EmbeddingConfigs(batch[0]), embed) && BatchEmbeds(rest, embed) by {
        assert forall j :: 1 <= j < |batch| ==> batch[j] == rest[j - 1];
      }
    }
  }

  lemma {:induction false} EmbedBatchIds<V>(start: nat, batch: seq<BugData>, embed: string -> Option<V>)
    ensures var r := EmbedBatch(start, batch, embed);
            r.Some? ==> IdsWithin(r.value, start, start + |batch|)
    decreases |batch|
  {
    if batch != [] {
      var first := EmbedAll(start, EmbeddingConfigs(batch[0]), embed);
      var rest := EmbedBatch(start + 1, batch[1..], embed);
      EmbedBatchIds(start + 1, batch[1..], embed);
      if first.Some? && rest.Some? {
        assert IdsWithin(first.value, start, start + 1) by {
          EmbedAllSpec(start, EmbeddingConfigs(batch[0]), embed);
        }
        IdsWithinAppend(first.value, rest.value, start, start + 1, start + |batch|);
      }
    }
  }

  /** A batch of one bug gives that bug's rows, under the batch's first id. */
  lemma EmbedBatchSingle<V>(start: nat, bug: BugData, embed: string -> Option<V>)
    ensures EmbedBatch(start, [bug], embed) == EmbedAll(start, EmbeddingConfigs(bug), embed)
  {
    assert [bug][1..] == [];
    var first := EmbedAll(start, EmbeddingConfigs(bug), embed);
    if first.Some? {
      assert first.value + [] == first.value;
    }
  }

  /** The rows of consecutive bugs are the rows of the first bugs followed
      by the rows of the rest, numbered on from where the first bugs end:
      with `EmbedBatchSingle`, bug `j`'s rows come in batch order under id
      `start + j`. */
  lemma {:induction false} EmbedBatchAppend<V>(start: nat, a: seq<BugData>, b: seq<BugData>, embed: string -> Option<V>)
    ensures var x := EmbedBatch(start, a, embed);
            var y := EmbedBatch(start + |a|, b, embed);
            EmbedBatch(start, a + b, embed) == if x.Some? && y.Some? then Some(x.value + y.value) else None
    decreases |a|
  {
    if a == [] {
      assert a + b == b;
      var y := EmbedBatch(start, b, embed);
      if y.Some? {
        assert [] + y.value == y.value;
      }
    } else {
      assert (a + b)[0] == a[0];
      assert (a + b)[1..] == a[1..] + b;
      EmbedBatchAppend(start + 1, a[1..], b, embed);
      var first := EmbedAll(start, EmbeddingConfigs(a[0]), embed);
      var x' := EmbedBatch(start + 1, a[1..], embed);
      var y := EmbedBatch(start + |a|, b, embed);
      if first.Some? && x'.Some? && y.Some? {
        assert first.value + (x'.value + y.value) == (first.value + x'.value) + y.value;
      }
    }
  }

  lemma IdsWithinAppend<V>(a: seq<EmbeddingRow<V>>, b: seq<EmbeddingRow<V>>, lo: nat, mid: nat, hi: nat)
    requires lo <= mid <= hi && IdsWithin(a, lo, mid) && IdsWithin(b, mid, hi)
    ensures IdsWithin(a + b, lo, hi)
  {
    forall k | 0 <= k < |a + b| ensures lo <= (a + b)[k].bugId < hi {
      if k >= |a| { assert (a + b)[k] == b[k - |a|]; }
    }
  }

  /** One transaction: insert the batch's bugs, then their embeddings, then
      commit. On any failure nothing is committed, but the ids already drawn
      from the sequence stay used. */
  function InsertBatchSpec<V>(s: StoreState<V>, batch: seq<BugData>, embed: string -> Option<V>)
    : (r: (Option<StoreError>, StoreState<V>))
  {
    match InsertBugs(s.bugs, s.nextId, batch)
    case Failure(j) => (Some(DuplicateIncident(batch[j].incidentNumber)), s.(nextId := s.nextId + j + 1))
    case Success(m) =>
      match EmbedBatch(s.nextId, batch, embed)
      case None =>
        assert batch != [];
        (Some(EmbeddingFailed), s.(nextId := s.nextId + |batch|))
      case Some(rows) => (None, StoreState(m, s.embeddings + rows, s.nextId + |batch|))
  }

  /** A transaction commits exactly when the batch is insertable and every
      embedding call succeeds; it reports a duplicate exactly when the batch
      is not insertable, naming the first bug that is not. */
  lemma InsertBatchOutcome<V>(s: StoreState<V>, batch: seq<BugData>, embed: string -> Option<V>)
    requires ValidState(s)
    ensures var err := InsertBatchSpec(s, batch, embed).0;
            && (err.None? <==> Insertable(IncidentSet(s.bugs), batch) && BatchEmbeds(batch, embed))
            && (err == Some(EmbeddingFailed) <==> Insertable(IncidentSet(s.bugs), batch) && !BatchEmbeds(batch, embed))
            && (err.Some? && err.value.DuplicateIncident? <==> !Insertable(IncidentSet(s.bugs), batch))
            && (err.Some? && err.value.DuplicateIncident? ==>
                  exists j :: 0 <= j < |batch| && err.value.incidentNumber == batch[j].incidentNumber
                    && Insertable(IncidentSet(s.bugs), batch[..j]) && !Insertable(IncidentSet(s.bugs), batch[..j + 1]))
  {
    InsertBugsFails(s.bugs, s.nextId, batch);
    EmbedBatchSpec(s.nextId, batch, embed);
  }

  /** A transaction keeps the store valid; a committed one adds exactly the
      batch's incident numbers and only appends embedding rows. */
  lemma InsertBatchValid<V>(s: StoreState<V>, batch: seq<BugData>, embed: string -> Option<V>)
    requires ValidState(s)
    ensures ValidState(InsertBatchSpec(s, batch, embed).1)
    ensures var (err, s') := InsertBatchSpec(s, batch, embed);
            && (err.Some? ==> s'.bugs == s.bugs && s'.embeddings == s.embeddings && s'.nextId > s.nextId)
            && (err.None? ==> s'.nextId == s.nextId + |batch|)
    ensures var (err, s') := InsertBatchSpec(s, batch, embed);
            err.None? ==>
              && IncidentSet(s'.bugs) == IncidentSet(s.bugs) + BatchIncidents(batch)
              && |s.embeddings| <= |s'.embeddings| && s'.embeddings[..|s.embeddings|] == s.embeddings
  {
    var (err, s') := InsertBatchSpec(s, batch, embed);
    if err.None? {
      var rows := EmbedBatch(s.nextId, batch, embed).value;
      var m := InsertBugs(s.bugs, s.nextId, batch).value;
      assert s' == StoreState(m, s.embeddings + rows, s.nextId + |batch|);
      InsertBugsRows(s.bugs, s.nextId, batch);
      InsertBugsUnique(s.bugs, s.nextId, batch);
      EmbedBatchSpec(s.nextId, batch, embed);
      RowsIn(s.embeddings, rows, s.bugs, m, s.nextId, s.nextId + |batch|);
      assert s'.embeddings[..|s.embeddings|] == s.embeddings;
    }
  }

  /** Appending rows whose ids lie in `[lo, hi)` to rows of stored bugs
      gives rows of the grown table. */
  lemma RowsIn<V>(olds: seq<EmbeddingRow<V>>, rows: seq<EmbeddingRow<V>>, bugs: map<nat, BugData>,
                  m: map<nat, BugData>, lo: nat, hi: nat)
    requires forall k :: 0 <= k < |olds| ==> olds[k].bugId in bugs
    requires IdsWithin(rows, lo, hi)
    requires forall id :: id in m <==> id in bugs || lo <= id < hi
    ensures forall k :: 0 <= k < |olds + rows| ==> (olds + rows)[k].bugId in m
  {
    forall k | 0 <= k < |olds + rows| ensures (olds + rows)[k].bugId in m {
      if k >= |olds| {
        assert (olds + rows)[k] == rows[k - |olds|];
      }
    }
  }

  /** A single bug (`store_bug`) is stored exactly when its incident number
      is new and every one of its embedding calls succeeds; it then gets the
      next id and its 2 or 3 embedding rows, and nothing else is added. */
  lemma StoreOneSpec<V>(s: StoreState<V>, bug: BugData, embed: string -> Option<V>)
    requires ValidState(s)
    ensures var (err, s') := InsertBatchSpec(s, [bug], embed);
            && (err.None? <==> bug.incidentNumber !in IncidentSet(s.bugs) && AllEmbed(EmbeddingConfigs(bug), embed))
            && (err.None? ==>
                  && s'.bugs == s.bugs[s.nextId := bug]
                  && s'.embeddings == s.embeddings + EmbedAll(s.nextId, EmbeddingConfigs(bug), embed).value)
            && (err == Some(DuplicateIncident(bug.incidentNumber)) <==> bug.incidentNumber in IncidentSet(s.bugs))
  {
    var batch := [bug];
    assert batch[0] == bug && batch[1..] == [];
    assert InsertBugs(s.bugs, s.nextId, batch)
           == if bug.incidentNumber in IncidentSet(s.bugs) then Failure(0) else Success(s.bugs[s.nextId := bug]);
    assert BatchEmbeds(batch, embed) <==> AllEmbed(EmbeddingConfigs(bug), embed);
    var one := EmbedAll(s.nextId, EmbeddingConfigs(bug), embed);
    EmbedAllSpec(s.nextId, EmbeddingConfigs(bug), embed);
    if one.Some? {
      assert EmbedBatch(s.nextId, batch, embed) == Some(one.value + []);
      assert one.value + [] == one.value;
    }
  }

  /** A failure position moved `j` bugs further into the batch. */
  function Shifted(r: Result<map<nat, BugData>, nat>, j: nat): Result<map<nat, BugData>, nat> {
    match r
    case Success(_) => r
    case Failure(i) => Failure(i + j)
  }

  /** The `INSERT INTO bugs` loop of a transaction (`executemany`, or the
      single insert of `store_bug`) on a staged copy of the table: the
      staged table, or the position of the bug whose insert raises. */
  method StageBugs(bugs: map<nat, BugData>, start: nat, batch: seq<BugData>)
    returns (r: Result<map<nat, BugData>, nat>)
    ensures r == InsertBugs(bugs, start, batch)
  {
    var pending: map<nat, BugData> := bugs;
    var j := 0;
    while j < |batch|
      invariant 0 <= j <= |batch|
      invariant InsertBugs(bugs, start, batch) == Shifted(InsertBugs(pending, start + j, batch[j..]), j)
    {
      assert batch[j..][0] == batch[j] && batch[j..][1..] == batch[j + 1..];
      if batch[j].incidentNumber in IncidentSet(pending) {
        return Failure(j);
      }
      pending := pending[start + j := batch[j]];
      j := j + 1;
    }
    r := Success(pending);
  }

  /** The embedding loop of a transaction: the rows of every bug in order,
      or `None` at the first embedding call that raises. */
  method StageEmbeddings<V>(start: nat, batch: seq<BugData>, embed: string -> Option<V>)
    returns (rows: Option<seq<EmbeddingRow<V>>>)
    ensures rows == EmbedBatch(start, batch, embed)
  {
    var done: seq<EmbeddingRow<V>> := [];
    var j := 0;
    assert batch[..0] == [];
    while j < |batch|
      invariant 0 <= j <= |batch|
      invariant EmbedBatch(start, batch[..j], embed) == Some(done)
    {
      var more := StoreEmbeddings(start + j, batch[j], embed);
      if more.None? {
        EmbedBatchStops(start, batch, j, embed, done);
        return None;
      }
      EmbedBatchGrows(start, batch, j, embed, done, more.value);
      done := done + more.value;
      j := j + 1;
    }
    assert batch[..j] == batch;
    rows := Some(done);
  }

  /** One more bug's rows follow the rows of the bugs before it. */
  lemma EmbedBatchGrows<V>(start: nat, batch: seq<BugData>, k: nat, embed: string -> Option<V>,
                           done: seq<EmbeddingRow<V>>, more: seq<EmbeddingRow<V>>)
    requires k < |batch| && EmbedBatch(start, batch[..k], embed) == Some(done)
    requires EmbedAll(start + k, EmbeddingConfigs(batch[k]), embed) == Some(more)
    ensures EmbedBatch(start, batch[..k + 1], embed) == Some(done + more)
  {
    assert EmbedBatch(start + k, [batch[k]], embed) == Some(more) by {
      EmbedBatchSingle(start + k, batch[k], embed);
    }
    assert EmbedBatch(start, batch[..k] + [batch[k]], embed) == Some(done + more) by {
      EmbedBatchAppend(start, batch[..k], [batch[k]], embed);
    }
    assert batch[..k + 1] == batch[..k] + [batch[k]];
  }

  /** A bug whose rows fail fails the whole batch. */
  lemma EmbedBatchStops<V>(start: nat, batch: seq<BugData>, k: nat, embed: string -> Option<V>,
                           done: seq<EmbeddingRow<V>>)
    requires k < |batch| && EmbedBatch(start, batch[..k], embed) == Some(done)
    requires EmbedAll(start + k, EmbeddingConfigs(batch[k]), embed).None?
    ensures EmbedBatch(start, batch, embed).None?
  {
    assert batch == batch[..k] + batch[k..];
    EmbedBatchAppend(start, batch[..k], batch[k..], embed);
    assert batch[k..][0] == batch[k];
  }

  method Transact<V>(s: StoreState<V>, batch: seq<BugData>, embed: string -> Option<V>)
    returns (r: (Option<StoreError>, StoreState<V>))
    ensures r == InsertBatchSpec(s, batch, embed)
  {
    var staged := StageBugs(s.bugs, s.nextId, batch);
    match staged
    case Failure(j) =>
      r := (Some(DuplicateIncident(batch[j].incidentNumber)), s.(nextId := s.nextId + j + 1));
    case Success(m) =>
      var rows := StageEmbeddings(s.nextId, batch, embed);
      match rows
      case None =>
        r := (Some(EmbeddingFailed), s.(nextId := s.nextId + |batch|));
      case Some(added) =>
        r := (None, StoreState(m, s.embeddings + added, s.nextId + |batch|));
  }

  // ---------------------------------------------------------------------
  // Batches (`range(0, len(bugs), batch_size)` and `bugs[i:i + batch_size]`)
  // ---------------------------------------------------------------------

  function Min(a: int, b: int): int {
    if a < b then a else b
  }

  /** The consecutive slices of at most `size` elements. */
  function Batches<T>(xs: seq<T>, size: nat): seq<seq<T>>
    requires size > 0
    decreases |xs|
  {
    if xs == [] then []
    else
      var m := Min(size, |xs|);
      [xs[..m]] + Batches(xs[m..], size)
  }

  function Flatten<T>(bs: seq<seq<T>>): seq<T> {
    if bs == [] then [] else bs[0] + Flatten(bs[1..])
  }

  /** The slices put back together are the input. */
  lemma {:induction false} BatchesFlatten<T>(xs: seq<T>, size: nat)
    requires size > 0
    ensures Flatten(Batches(xs, size)) == xs
    decreases |xs|
  {
    if xs != [] {
      var m := Min(size, |xs|);
      BatchesFlatten(xs[m..], size);
      assert Batches(xs, size)[1..] == Batches(xs[m..], size);
      assert xs == xs[..m] + xs[m..];
    }
  }

  lemma MulSucc(k: nat, size: nat)
    ensures (k + 1) * size == k * size + size
  {
  }

  /** There are ceil(n / size) slices: the fewest slices of `size` that
      cover the input. */
  lemma {:induction false} BatchesCount<T>(xs: seq<T>, size: nat)
    requires size > 0
    ensures |xs| <= |Batches(xs, size)| * size
    ensures |Batches(xs, size)| > 0 ==> (|Batches(xs, size)| - 1) * size < |xs|
    decreases |xs|
  {
    var n := |Batches(xs, size)|;
    if xs != [] {
      var m := Min(size, |xs|);
      BatchesCount(xs[m..], size);
      MulSucc(n - 1, size);
      BatchesSlice(xs, size, n - 1);
    }
  }

  /** Slice k starts at offset k * size, as `range(0, n, size)` gives it,
      and is cut at the end of the input. */
  lemma {:induction false} BatchesSlice<T>(xs: seq<T>, size: nat, k: nat)
    requires size > 0 && k < |Batches(xs, size)|
    ensures k * size < |xs|
    ensures Batches(xs, size)[k] == xs[k * size .. Min(k * size + size, |xs|)]
    decreases k
  {
    var m := Min(size, |xs|);
    var rest := xs[m..];
    BatchesCons(xs, size);
    if k > 0 {
      assert Batches(xs, size)[k] == Batches(rest, size)[k - 1];
      assert rest != [];
      BatchesSlice(rest, size, k - 1);
      var lo := (k - 1) * size;
      MulSucc(k - 1, size);
      assert rest[lo .. Min(lo + size, |rest|)] == xs[lo + size .. Min(lo + size + size, |xs|)];
    }
  }

  /** Every slice but the last is full. */
  lemma BatchesFull<T>(xs: seq<T>, size: nat, k: nat)
    requires size > 0 && k + 1 < |Batches(xs, size)|
    ensures |Batches(xs, size)[k]| == size
  {
    BatchesSlice(xs, size, k);
    BatchesSlice(xs, size, k + 1);
    assert (k + 1) * size == k * size + size;
  }

  // ---------------------------------------------------------------------
  // Bulk insertion (`bulk_insert_bugs`)
  // ---------------------------------------------------------------------

  /** The logged counts, the error that stopped the run (if any) and the
      final state. */
  datatype Run<V> = Run(logged: seq<nat>, err: Option<StoreError>, state: StoreState<V>)

  /** A transaction over one batch, as `InsertBatchSpec` is for a fixed
      embedding service. */
  type Txn<!V> = (StoreState<V>, seq<BugData>) -> (Option<StoreError>, StoreState<V>)

  function Transaction<V>(embed: string -> Option<V>): Txn<V> {
    (s, batch) => InsertBatchSpec(s, batch, embed)
  }

  /** Runs the batches one transaction each, logging the running total
      after each commit; the first failing batch ends the run. */
  function RunBatches<V>(s: StoreState<V>, bs: seq<seq<BugData>>, done: nat, txn: Txn<V>): (r: Run<V>)
    ensures r.err.None? ==> |r.logged| == |bs|
    ensures r.err.Some? ==> |r.logged| < |bs|
    decreases |bs|
  {
    if bs == [] then Run([], None, s)
    else
      var (err, s') := txn(s, bs[0]);
      if err.Some? then Run([], err, s')
      else
        var rest := RunBatches(s', bs[1..], done + |bs[0]|, txn);
        Run([done + |bs[0]|] + rest.logged, rest.err, rest.state)
  }

  /** `bulk_insert_bugs`: a zero batch size makes `range` raise before
      anything happens, a negative one gives no batches. */
  function BulkSpec<V>(s: StoreState<V>, bugs: seq<BugData>, batchSize: int, embed: string -> Option<V>): (r: Run<V>)
    ensures batchSize == 0 ==> r == Run([], Some(ZeroBatchSize), s)
    ensures batchSize < 0 ==> r == Run([], None, s)
  {
    if batchSize == 0 then Run([], Some(ZeroBatchSize), s)
    else if batchSize < 0 then Run([], None, s)
    else RunBatches(s, Batches(bugs, batchSize), 0, Transaction(embed))
  }

  function Prefixed<V>(logged: seq<nat>, r: Run<V>): Run<V> {
    Run(logged + r.logged, r.err, r.state)
  }

  /** The first slice, then the slices of the rest. */
  lemma BatchesCons<T>(xs: seq<T>, size: nat)
    requires size > 0 && xs != []
    ensures Batches(xs, size) == [xs[..Min(size, |xs|)]] + Batches(xs[Min(size, |xs|)..], size)
  {
  }

  /** One step of a run: the first transaction, then the run of the rest. */
  lemma RunBatchesCons<V>(s: StoreState<V>, b: seq<BugData>, rest: seq<seq<BugData>>, done: nat, txn: Txn<V>)
    ensures var st := txn(s, b);
            RunBatches(s, [b] + rest, done, txn)
            == if st.0.Some? then Run([], st.0, st.1)
               else Prefixed([done + |b|], RunBatches(st.1, rest, done + |b|, txn))
  {
    var bs := [b] + rest;
    assert bs[0] == b && bs[1..] == rest;
  }

  /** After the k-th committed batch the log shows how many bugs have been
      processed: min((k+1) * size, n). */
  lemma {:induction false} RunBatchesLogged<V>(s: StoreState<V>, xs: seq<BugData>, size: nat, done: nat,
                                               txn: Txn<V>, k: nat)
    requires size > 0 && k < |RunBatches(s, Batches(xs, size), done, txn).logged|
    ensures RunBatches(s, Batches(xs, size), done, txn).logged[k] == done + Min((k + 1) * size, |xs|)
    decreases k
  {
    var m := Min(size, |xs|);
    var b := xs[..m];
    var rest := xs[m..];
    BatchesCons(xs, size);
    RunBatchesCons(s, b, Batches(rest, size), done, txn);
    var st := txn(s, b);
    var tail := RunBatches(st.1, Batches(rest, size), done + m, txn);
    assert st.0.None?;
    assert RunBatches(s, Batches(xs, size), done, txn).logged == [done + m] + tail.logged;
    MulSucc(k, size);
    if k > 0 {
      RunBatchesLogged(st.1, rest, size, done + m, txn, k - 1);
      assert rest != [];
      MulSucc(k - 1, size);
    }
  }

  /** One turn of the loop of `bulk_insert_bugs`: the run still to come
      after the transaction of the first slice, of `m` bugs. */
  lemma BulkStep<V>(spec: Run<V>, logged: seq<nat>, before: StoreState<V>, todo: seq<BugData>, size: nat, m: nat,
                    done: nat, txn: Txn<V>, e: Option<StoreError>, after: StoreState<V>)
    requires size > 0 && todo != [] && m == Min(size, |todo|)
    requires spec == Prefixed(logged, RunBatches(before, Batches(todo, size), done, txn))
    requires (e, after) == txn(before, todo[..m])
    ensures e.Some? ==> spec == Run(logged, e, after)
    ensures e.None? ==> spec == Prefixed(logged + [done + m], RunBatches(after, Batches(todo[m..], size), done + m, txn))
  {
    BatchesCons(todo, size);
    RunBatchesCons(before, todo[..m], Batches(todo[m..], size), done, txn);
  }

  lemma BulkStepOk<V>(spec: Run<V>, logged: seq<nat>, before: StoreState<V>, todo: seq<BugData>, size: nat, m: nat,
                      done: nat, txn: Txn<V>, after: StoreState<V>, logged': seq<nat>, todo': seq<BugData>, done': nat)
    requires size > 0 && todo != [] && m == Min(size, |todo|)
    requires spec == Prefixed(logged, RunBatches(before, Batches(todo, size), done, txn))
    requires (None, after) == txn(before, todo[..m])
    requires logged' == logged + [done + m] && todo' == todo[m..] && done' == done + m
    ensures spec == Prefixed(logged', RunBatches(after, Batches(todo', size), done', txn))
  {
    BulkStep(spec, logged, before, todo, size, m, done, txn, None, after);
  }

  lemma TransactionApply<V>(embed: string -> Option<V>, s: StoreState<V>, batch: seq<BugData>)
    ensures Transaction(embed)(s, batch) == InsertBatchSpec(s, batch, embed)
  {
  }

  /** What a transaction must keep: validity; on failure both tables as
      they were; on commit exactly the batch's incident numbers added and
      embedding rows only appended. */
  ghost predicate TxnKeeps<V>(s: StoreState<V>, batch: seq<BugData>, r: (Option<StoreError>, StoreState<V>))
  {
    ValidState(s) ==>
      && ValidState(r.1)
      && (r.0.Some? ==> r.1.bugs == s.bugs && r.1.embeddings == s.embeddings)
      && (r.0.None? ==>
            && IncidentSet(r.1.bugs) == IncidentSet(s.bugs) + BatchIncidents(batch)
            && |s.embeddings| <= |r.1.embeddings| && r.1.embeddings[..|s.embeddings|] == s.embeddings)
  }

  ghost predicate Transactional<V(!new)>(txn: Txn<V>) {
    forall s, batch :: TxnKeeps(s, batch, txn(s, batch))
  }

  /** The transaction of the store keeps that contract. */
  lemma TransactionIsTransactional<V(!new)>(embed: string -> Option<V>)
    ensures Transactional(Transaction(embed))
  {
    var t := Transaction(embed);
    forall s, batch ensures TxnKeeps(s, batch, t(s, batch)) {
      if ValidState(s) {
        InsertBatchValid(s, batch, embed);
      }
    }
  }

  /** After a run from `s` over `bs`: the store is valid, the stored
      incident numbers are the old ones plus those of the logged batches,
      and the embedding table only grew. */
  ghost predicate Committed<V>(s: StoreState<V>, bs: seq<seq<BugData>>, r: Run<V>) {
    && |r.logged| <= |bs|
    && ValidState(r.state)
    && IncidentSet(r.state.bugs) == IncidentSet(s.bugs) + BatchIncidents(Flatten(bs[..|r.logged|]))
    && |s.embeddings| <= |r.state.embeddings| && r.state.embeddings[..|s.embeddings|] == s.embeddings
  }

  /** A run keeps the store valid and commits exactly the batches it
      logged. */
  lemma {:induction false} RunBatchesCommitted<V(!new)>(s: StoreState<V>, bs: seq<seq<BugData>>, done: nat, txn: Txn<V>)
    requires ValidState(s) && Transactional(txn)
    ensures Committed(s, bs, RunBatches(s, bs, done, txn))
    decreases |bs|
  {
    if bs == [] {
      assert BatchIncidents([]) == {};
    } else {
      var b := bs[0];
      assert bs == [b] + bs[1..];
      RunBatchesCons(s, b, bs[1..], done, txn);
      var st := txn(s, b);
      assert TxnKeeps(s, b, st);
      if st.0.Some? {
        assert bs[..0] == [];
        assert BatchIncidents([]) == {};
      } else {
        RunBatchesCommitted(st.1, bs[1..], done + |b|, txn);
        CommittedStep(s, st.1, bs, RunBatches(st.1, bs[1..], done + |b|, txn), done + |b|);
      }
    }
  }

  /** A committed first batch followed by a run of the rest. */
  lemma CommittedStep<V>(s: StoreState<V>, s': StoreState<V>, bs: seq<seq<BugData>>, rest: Run<V>, d: nat)
    requires bs != [] && ValidState(s) && TxnKeeps(s, bs[0], (None, s'))
    requires Committed(s', bs[1..], rest)
    ensures Committed(s, bs, Prefixed([d], rest))
  {
    var b := bs[0];
    var n := |rest.logged|;
    assert bs[..n + 1] == [b] + bs[1..][..n];
    assert Flatten(bs[..n + 1]) == b + Flatten(bs[1..][..n]);
    BatchIncidentsAppend(b, Flatten(bs[1..][..n]));
    assert rest.state.embeddings[..|s.embeddings|] == rest.state.embeddings[..|s'.embeddings|][..|s.embeddings|];
  }

  lemma BatchIncidentsAppend(a: seq<BugData>, b: seq<BugData>)
    ensures BatchIncidents(a + b) == BatchIncidents(a) + BatchIncidents(b)
  {
    var ab := a + b;
    forall v | v in BatchIncidents(ab) ensures v in BatchIncidents(a) + BatchIncidents(b) {
      var j :| 0 <= j < |ab| && ab[j].incidentNumber == v;
      if j < |a| { assert ab[j] == a[j]; } else { assert ab[j] == b[j - |a|]; }
    }
    forall v | v in BatchIncidents(a) ensures v in BatchIncidents(ab) {
      var j :| 0 <= j < |a| && a[j].incidentNumber == v;
      assert ab[j] == a[j];
    }
    forall v | v in BatchIncidents(b) ensures v in BatchIncidents(ab) {
      var j :| 0 <= j < |b| && b[j].incidentNumber == v;
      assert ab[|a| + j] == b[j];
    }
  }

  // ---------------------------------------------------------------------
  // The store
  // ---------------------------------------------------------------------

  class BugRagStore<V> {
    var bugs: map<nat, BugData>
    var embeddings: seq<EmbeddingRow<V>>
    var nextId: nat

    function State(): StoreState<V>
      reads this
    {
      StoreState(bugs, embeddings, nextId)
    }

    ghost predicate Valid()
      reads this
    {
      ValidState(State())
    }

    constructor ()
      ensures bugs == map[] && embeddings == [] && nextId == 1
      ensures Valid()
    {
      bugs := map[];
      embeddings := [];
      nextId := 1;
    }

    /** One transaction over a batch of bugs, as `store_bug` and each
        iteration of `bulk_insert_bugs` run it: stage the bug rows, stage
        the embedding rows, commit. */
    method InsertBatch(batch: seq<BugData>, embed: string -> Option<V>) returns (err: Option<StoreError>)
      requires Valid()
      modifies this
      ensures Valid()
      ensures (err, State()) == InsertBatchSpec(old(State()), batch, embed)
    {
      ghost var s0 := State();
      var r := Transact(State(), batch, embed);
      InsertBatchValid(s0, batch, embed);
      err := r.0;
      bugs, embeddings, nextId := r.1.bugs, r.1.embeddings, r.1.nextId;
    }

    /** `store_bug`: the new bug's id, or the error that aborted the
        transaction. */
    method StoreBug(bug: BugData, embed: string -> Option<V>) returns (r: Result<nat, StoreError>)
      requires Valid()
      modifies this
      ensures Valid()
      ensures var (err, s) := InsertBatchSpec(old(State()), [bug], embed);
              && State() == s
              && (err.Some? ==> r == Failure(err.value))
              && (err.None? ==> r == Success(old(nextId)) && r.value in bugs && bugs[r.value] == bug)
    {
      var id := nextId;
      var err := InsertBatch([bug], embed);
      if err.Some? {
        return Failure(err.value);
      }
      StoreOneSpec(old(State()), bug, embed);
      r := Success(id);
    }

    /** `bulk_insert_bugs`: one committed transaction per slice, logging the
        running count; the first failure propagates and leaves the earlier
        slices committed. */
    method BulkInsertBugs(bugList: seq<BugData>, batchSize: int, embed: string -> Option<V>)
      returns (logged: seq<nat>, err: Option<StoreError>)
      requires Valid()
      modifies this
      ensures Valid()
      ensures Run(logged, err, State()) == BulkSpec(old(State()), bugList, batchSize, embed)
    {
      ghost var txn := Transaction(embed);
      logged := [];
      err := None;
      if batchSize == 0 {
        return [], Some(ZeroBatchSize);
      }
      if batchSize < 0 {
        return;
      }
      ghost var spec := RunBatches(State(), Batches(bugList, batchSize), 0, txn);
      var todo: seq<BugData>, done: nat := bugList, 0;
      while todo != []
        invariant Valid()
        invariant spec == Prefixed(logged, RunBatches(State(), Batches(todo, batchSize), done, txn))
        decreases |todo|
      {
        var m := Min(batchSize, |todo|);
        var batch := todo[..m];
        ghost var before := State();
        var e := InsertBatch(batch, embed);
        TransactionApply(embed, before, batch);
        if e.Some? {
          BulkStep(spec, logged, before, todo, batchSize, m, done, txn, e, State());
          return logged, e;
        }
        ghost var logged0, todo0, done0 := logged, todo, done;
        logged := logged + [done + m];
        todo, done := todo[m..], done + m;
        BulkStepOk(spec, logged0, before, todo0, batchSize, m, done0, txn, State(), logged, todo, done);
      }
    }
  }

}
