/**
  The reconciler (IntegrationService.processIngestedData) and the adapter
  sweep (IntegrationService.runAllIntegrations) of
  server/src/services/integrationService.ts.

  The lookup is modelled exactly as written: `findAll({source, limit: 1})`
  returns only the most recently created issue of the source, and only that
  issue's `source_id` is compared with the observation's. So an observation
  merges only into the newest issue of its source, and interleaved
  observations of one source create duplicates (see `InterleavingDuplicates`).
*/
module IntegrationService {
  import opened Wrappers
  import opened IssueModel

  /** One observation handed over by an adapter (`metadata` is never read). */
  datatype RawIssueData = RawIssueData(
    id: string,
    title: string,
    description: Option<string>,
    source: string,
    sourceId: string,
    severity: Option<int>,
    frequency: Option<int>,
    tags: Option<seq<string>>)

  /** The arguments of the existence check: `{source: data.source, limit: 1}`. */
  function SourceLookup(source: string): Filter {
    NoFilter.(source := Some(source), limit := Some(1))
  }

  /** `existingIssues.find(issue => issue.source_id === data.source_id)`. */
  function FindBySourceId(issues: seq<Issue>, sourceId: string): (r: Option<Issue>)
    ensures r.Some? ==> r.value in issues && r.value.sourceId == Some(sourceId)
    ensures r.None? <==> forall x :: x in issues ==> x.sourceId != Some(sourceId)
    ensures r.Some? ==> (exists k :: 0 <= k < |issues| && issues[k] == r.value &&
                          forall j :: 0 <= j < k ==> issues[j].sourceId != Some(sourceId))
  {
    if issues == [] then None
    else if issues[0].sourceId == Some(sourceId) then Some(issues[0])
    else
      var r := FindBySourceId(issues[1..], sourceId);
      if r.Some? then
        var k :| 0 <= k < |issues[1..]| && issues[1..][k] == r.value &&
          forall j :: 0 <= j < k ==> issues[1..][j].sourceId != Some(sourceId);
        assert issues[k + 1] == r.value;
        assert forall j :: 0 <= j < k + 1 ==> issues[j].sourceId != Some(sourceId) by {
          forall j | 0 <= j < k + 1 ensures issues[j].sourceId != Some(sourceId) {
            if j > 0 { assert issues[j] == issues[1..][j - 1]; }
          }
        }
        r
      else r
  }

  /** The update of a merge: the summed frequency, plus `updated_at` (overwritten by the store's stamp). */
  function MergePatch(existing: Issue, data: RawIssueData, now: nat): Patch {
    EmptyPatch.(frequency := Some(existing.frequency + OrOne(data.frequency)), updatedAt := Some(now))
  }

  /** The fields of a new issue: no `type` is passed, so it is stored as NULL. */
  function NewIssueFrom(data: RawIssueData): NewIssue {
    NewIssue(data.title, data.description, data.source, Some(data.sourceId),
             OrOne(data.severity), OrOne(data.frequency), "open", None,
             ValueOr(data.tags, []), None, None)
  }

  /** What happened to one observation; `Rejected` is the caught and logged exception. */
  datatype ItemOutcome =
    | Merged(id: nat)
    | Created(id: nat)
    | Rejected(error: StoreError)

  /** The table after one observation, and its outcome. */
  datatype Step = Step(table: Table, outcome: ItemOutcome)

  /** The table after a batch, and the outcome of each observation. */
  datatype Run = Run(table: Table, outcomes: seq<ItemOutcome>)

  /** The body of the loop of processIngestedData, for one observation. */
  function ReconcileOne(t: Table, data: RawIssueData): (s: Step)
    ensures TableValid(t) ==> TableValid(s.table)
  {
    match Query(t, SourceLookup(data.source))
    case Failure(e) => Step(t, Rejected(e))
    case Success(existingIssues) =>
      match FindBySourceId(existingIssues, data.sourceId)
      case Some(existing) =>
        var updated := UpdateOp(t, existing.id, MergePatch(existing, data, t.clock));
        Step(updated.0, if updated.1.Failure? then Rejected(updated.1.error) else Merged(existing.id))
      case None =>
        var created := CreateOp(t, NewIssueFrom(data));
        Step(created.0, if created.1.Failure? then Rejected(created.1.error) else Created(created.1.value.id))
  }

  /** Applies `step` to the observations one after another, in input order. */
  function RunSteps(t: Table, rawData: seq<RawIssueData>, step: (Table, RawIssueData) -> Step): (run: Run)
    ensures |run.outcomes| == |rawData|
    decreases |rawData|
  {
    if rawData == [] then Run(t, [])
    else
      var before := RunSteps(t, rawData[..|rawData| - 1], step);
      var s := step(before.table, rawData[|rawData| - 1]);
      Run(s.table, before.outcomes + [s.outcome])
  }

  /** processIngestedData: every observation reconciled in turn. */
  function Reconcile(t: Table, rawData: seq<RawIssueData>): (run: Run)
    ensures |run.outcomes| == |rawData|
    ensures TableValid(t) ==> TableValid(run.table)
  {
    ReconcileKeepsValid(t, rawData);
    RunSteps(t, rawData, ReconcileOne)
  }

  lemma {:induction false} ReconcileKeepsValid(t: Table, rawData: seq<RawIssueData>)
    ensures TableValid(t) ==> TableValid(RunSteps(t, rawData, ReconcileOne).table)
    decreases |rawData|
  {
    if rawData != [] {
      ReconcileKeepsValid(t, rawData[..|rawData| - 1]);
    }
  }

  /** A run is its first part followed by its second, started on the table the first part left. */
  lemma {:induction false} RunStepsSplit(t: Table, first: seq<RawIssueData>, second: seq<RawIssueData>,
                                         step: (Table, RawIssueData) -> Step)
    ensures var one := RunSteps(t, first, step);
      var two := RunSteps(one.table, second, step);
      RunSteps(t, first + second, step) == Run(two.table, one.outcomes + two.outcomes)
    decreases |second|
  {
    if second == [] {
      assert first + second == first;
    } else {
      var init := second[..|second| - 1];
      var last := second[|second| - 1];
      RunStepsSplit(t, first, init, step);
      var whole := first + second;
      assert whole[..|whole| - 1] == first + init;
      assert whole[|whole| - 1] == last;
      var one := RunSteps(t, first, step);
      var mid := RunSteps(one.table, init, step);
      var s := step(mid.table, last);
      assert one.outcomes + (mid.outcomes + [s.outcome]) == (one.outcomes + mid.outcomes) + [s.outcome];
    }
  }

  // ---------------------------------------------------------------------------
  // The lookup
  // ---------------------------------------------------------------------------

  /** An empty source filter is falsy, so the lookup then ranges over every source. */
  predicate OfSource(r: Issue, source: string) {
    source == "" || r.source == source
  }

  /** Reference definition: the last inserted row of the source. */
  function LatestIn(rows: seq<Issue>, source: string): (r: Option<Issue>)
    ensures r.Some? ==> r.value in rows && OfSource(r.value, source)
  {
    if rows == [] then None
    else if OfSource(rows[|rows| - 1], source) then Some(rows[|rows| - 1])
    else LatestIn(rows[..|rows| - 1], source)
  }

  /** There is a latest row iff the source has a row. */
  lemma {:induction false} LatestInExists(rows: seq<Issue>, source: string)
    ensures LatestIn(rows, source).None? <==> forall x :: x in rows ==> !OfSource(x, source)
    decreases |rows|
  {
    if rows != [] && !OfSource(rows[|rows| - 1], source) {
      var init := rows[..|rows| - 1];
      LatestInExists(init, source);
      assert forall x :: x in rows <==> x in init || x == rows[|rows| - 1];
    }
  }

  /** In a chronological table no row of the source is newer than the latest one. */
  lemma {:induction false} LatestInNewest(rows: seq<Issue>, source: string)
    requires Chronological(rows)
    ensures LatestIn(rows, source).Some? ==>
      forall x :: x in rows && OfSource(x, source) ==> x.createdAt <= LatestIn(rows, source).value.createdAt
    decreases |rows|
  {
    if rows != [] {
      var last := rows[|rows| - 1];
      if OfSource(last, source) {
        forall x | x in rows ensures x.createdAt <= last.createdAt {
          var i :| 0 <= i < |rows| && rows[i] == x;
          assert i == |rows| - 1 || rows[i].createdAt < last.createdAt;
        }
      } else {
        var init := rows[..|rows| - 1];
        assert Chronological(init) by {
          forall i, j | 0 <= i < j < |init|
            ensures init[i].id < init[j].id && init[i].createdAt < init[j].createdAt
          {
            assert init[i] == rows[i] && init[j] == rows[j];
          }
        }
        LatestInNewest(init, source);
        assert forall x :: x in rows <==> x in init || x == last;
      }
    }
  }

  /** In a valid table, a creation time identifies a row. */
  lemma SameTimeSameRow(rows: seq<Issue>, x: Issue, y: Issue)
    requires Chronological(rows) && x in rows && y in rows && x.createdAt == y.createdAt
    ensures x == y
  {
    var i :| 0 <= i < |rows| && rows[i] == x;
    var j :| 0 <= j < |rows| && rows[j] == y;
    assert !(i < j) && !(j < i);
  }

  /**
    The existence check sees exactly one issue: the most recently created one
    of the observation's source (of any source when the source is empty).
  */
  lemma LookupSeesOnlyLatest(t: Table, source: string)
    requires TableValid(t)
    ensures Query(t, SourceLookup(source))
         == Success(if LatestIn(t.rows, source).Some? then [LatestIn(t.rows, source).value] else [])
  {
    var f := SourceLookup(source);
    var fr := FilterRows(t.rows, MatchesFilter(f));
    FilterRowsMembers(t.rows, MatchesFilter(f));
    FilterRowsChronological(t.rows, MatchesFilter(f));
    var m := Matching(t, f);
    var latest := LatestIn(t.rows, source);
    LatestInExists(t.rows, source);
    LatestInNewest(t.rows, source);
    assert Query(t, f).value == if |m| > 1 then m[..1] else m;
    forall x | x in t.rows ensures Passes(MatchesFilter(f), x) <==> OfSource(x, source) {}
    if |fr| > 0 {
      var last := fr[|fr| - 1];
      assert m[0] == last;
      assert last in fr;
      assert latest.Some?;
      forall x | x in fr ensures x.createdAt <= last.createdAt {
        var i :| 0 <= i < |fr| && fr[i] == x;
        assert i == |fr| - 1 || fr[i].createdAt < last.createdAt;
      }
      assert latest.value in fr;
      SameTimeSameRow(t.rows, last, latest.value);
      assert Query(t, f).value == [last];
    } else {
      assert latest.None? by {
        forall x | x in t.rows ensures !OfSource(x, source) {
          assert x !in fr;
        }
      }
    }
  }

  // ---------------------------------------------------------------------------
  // One observation
  // ---------------------------------------------------------------------------

  /** The row a merge leaves behind: the frequency summed and the stamp set to `now`, nothing else. */
  predicate MergedInto(before: Issue, after: Issue, data: RawIssueData, now: nat) {
    after == before.(frequency := before.frequency + OrOne(data.frequency), updatedAt := now)
  }

  /** The row a creation appends. */
  predicate CreatedFrom(r: Issue, data: RawIssueData) {
    && r.title == data.title && r.description == data.description
    && r.source == data.source && r.sourceId == Some(data.sourceId)
    && r.severity == OrOne(data.severity) && r.frequency == OrOne(data.frequency)
    && r.status == "open" && r.issueType.None? && r.tags == ValueOr(data.tags, [])
    && r.jiraExists.None? && r.jiraIssueKey.None? && r.jiraStatus.None?
  }


  /**
    When the newest issue of the source carries the observation's source_id,
    the observation merges into it: the frequency is summed and the stamp
    renewed, while every other column (title, severity, tags, status,
    source_id) and every other row stay as they were.
  */
  lemma MergesIntoLatest(t: Table, data: RawIssueData)
    requires TableValid(t)
    requires LatestIn(t.rows, data.source).Some?
    requires LatestIn(t.rows, data.source).value.sourceId == Some(data.sourceId)
    ensures var x := LatestIn(t.rows, data.source).value;
      var s := ReconcileOne(t, data);
      && s.outcome == Merged(x.id)
      && |s.table.rows| == |t.rows| && s.table.clock == t.clock + 1 && s.table.nextId == t.nextId
      && forall k :: 0 <= k < |t.rows| ==>
           if t.rows[k].id == x.id then MergedInto(t.rows[k], s.table.rows[k], data, t.clock)
           else s.table.rows[k] == t.rows[k]
  {
    var x := LatestIn(t.rows, data.source).value;
    MergeStep(t, data);
    MergeUpdate(t, x, data);
  }

  /** The lookup finds the newest issue of the source, so the step is the merge update of it. */
  lemma MergeStep(t: Table, data: RawIssueData)
    requires TableValid(t)
    requires LatestIn(t.rows, data.source).Some?
    requires LatestIn(t.rows, data.source).value.sourceId == Some(data.sourceId)
    ensures var x := LatestIn(t.rows, data.source).value;
      var u := UpdateOp(t, x.id, MergePatch(x, data, t.clock));
      ReconcileOne(t, data) == Step(u.0, if u.1.Failure? then Rejected(u.1.error) else Merged(x.id))
  {
    LookupSeesOnlyLatest(t, data.source);
  }

  /** The merge update of a row of a valid table succeeds and changes only that row's frequency and stamp. */
  lemma MergeUpdate(t: Table, x: Issue, data: RawIssueData)
    requires TableValid(t) && x in t.rows
    ensures var u := UpdateOp(t, x.id, MergePatch(x, data, t.clock));
      && u.1.Success?
      && |u.0.rows| == |t.rows| && u.0.clock == t.clock + 1 && u.0.nextId == t.nextId
      && forall k :: 0 <= k < |t.rows| ==>
           if t.rows[k].id == x.id then MergedInto(t.rows[k], u.0.rows[k], data, t.clock)
           else u.0.rows[k] == t.rows[k]
  {
    var p := MergePatch(x, data, t.clock);
    UpdateSetsSuppliedFields(t, x.id, p);
    var k0 :| 0 <= k0 < |t.rows| && t.rows[k0] == x;
    assert IndexOfId(t.rows, x.id).Some?;
    forall k | 0 <= k < |t.rows| && t.rows[k].id == x.id ensures t.rows[k] == x {
      IdsDistinct(t.rows, k, k0);
    }
  }

  /**
    Otherwise the observation creates an issue from its own fields and the
    defaults, appended after every existing row; when the defaulted severity
    breaks the CHECK constraint the exception is swallowed and no row changes.
  */
  lemma CreatesOtherwise(t: Table, data: RawIssueData)
    requires TableValid(t)
    requires LatestIn(t.rows, data.source).None? || LatestIn(t.rows, data.source).value.sourceId != Some(data.sourceId)
    ensures var s := ReconcileOne(t, data);
      && (s.outcome.Created? <==> ValidSeverity(OrOne(data.severity)))
      && (s.outcome.Created? ==>
            && |s.table.rows| == |t.rows| + 1 && s.table.rows[..|t.rows|] == t.rows
            && s.table.rows[|t.rows|].id == s.outcome.id
            && CreatedFrom(s.table.rows[|t.rows|], data)
            && (forall r :: r in t.rows ==> r.id != s.outcome.id)
            && s.table.clock == t.clock + 1)
      && (!s.outcome.Created? ==>
            s.outcome == Rejected(CheckViolation) && s.table.rows == t.rows && s.table.clock == t.clock)
      && s.table.nextId == t.nextId + 1
  {
    LookupSeesOnlyLatest(t, data.source);
    var n := NewIssueFrom(data);
    if ValidSeverity(n.severity) {
      CreateStoresOnlyNamedColumns(t, n);
      var t' := CreateOp(t, n).0;
      assert t'.rows[..|t.rows|] == t.rows;
    }
  }

  /**
    An observation merges iff the newest issue of its source carries its
    source_id; a merge always succeeds on a valid table.
  */
  lemma MergeIffLatestMatches(t: Table, data: RawIssueData)
    requires TableValid(t)
    ensures var latest := LatestIn(t.rows, data.source);
      ReconcileOne(t, data).outcome.Merged? <==> latest.Some? && latest.value.sourceId == Some(data.sourceId)
  {
    var latest := LatestIn(t.rows, data.source);
    if latest.Some? && latest.value.sourceId == Some(data.sourceId) {
      MergesIntoLatest(t, data);
    } else {
      CreatesOtherwise(t, data);
    }
  }

  /**
    Each observation that is not rejected makes exactly one store write; a
    rejected one changes no row and no stamp. Only a merge leaves the SERIAL
    sequence alone: a create draws an id even when the CHECK refuses it.
  */
  lemma OneWritePerObservation(t: Table, data: RawIssueData)
    requires TableValid(t)
    ensures var s := ReconcileOne(t, data);
      if s.outcome.Rejected? then s.table.rows == t.rows && s.table.clock == t.clock
      else s.table.clock == t.clock + 1
    ensures var s := ReconcileOne(t, data);
      s.table.nextId == t.nextId + (if s.outcome.Merged? then 0 else 1)
  {
    var latest := LatestIn(t.rows, data.source);
    if latest.Some? && latest.value.sourceId == Some(data.sourceId) {
      MergesIntoLatest(t, data);
    } else {
      CreatesOtherwise(t, data);
    }
  }

  /** Each observation grows the store by one row when it creates an issue and by none otherwise. */
  lemma RowsGrowOnlyByCreation(t: Table, data: RawIssueData)
    requires TableValid(t)
    ensures var s := ReconcileOne(t, data);
      |s.table.rows| == |t.rows| + (if s.outcome.Created? then 1 else 0)
  {
    var latest := LatestIn(t.rows, data.source);
    if latest.Some? && latest.value.sourceId == Some(data.sourceId) {
      MergesIntoLatest(t, data);
    } else {
      CreatesOtherwise(t, data);
    }
  }

  // ---------------------------------------------------------------------------
  // Batches
  // ---------------------------------------------------------------------------

  function CountCreated(outcomes: seq<ItemOutcome>): (n: nat)
    ensures n <= |outcomes|
  {
    if outcomes == [] then 0
    else CountCreated(outcomes[..|outcomes| - 1]) + (if outcomes[|outcomes| - 1].Created? then 1 else 0)
  }

  function CountWrites(outcomes: seq<ItemOutcome>): (n: nat)
    ensures n <= |outcomes|
  {
    if outcomes == [] then 0
    else CountWrites(outcomes[..|outcomes| - 1]) + (if outcomes[|outcomes| - 1].Rejected? then 0 else 1)
  }

  /**
    A batch grows the store by exactly the number of observations that created
    an issue, and makes exactly one write per observation that was not rejected.
  */
  lemma {:induction false} BatchGrowth(t: Table, rawData: seq<RawIssueData>)
    requires TableValid(t)
    ensures var run := Reconcile(t, rawData);
      && |run.table.rows| == |t.rows| + CountCreated(run.outcomes)
      && run.table.clock == t.clock + CountWrites(run.outcomes)
    decreases |rawData|
  {
    if rawData != [] {
      var init := rawData[..|rawData| - 1];
      BatchGrowth(t, init);
      var before := Reconcile(t, init);
      OneWritePerObservation(before.table, rawData[|rawData| - 1]);
      RowsGrowOnlyByCreation(before.table, rawData[|rawData| - 1]);
      var all := Reconcile(t, rawData).outcomes;
      assert all[..|all| - 1] == before.outcomes;
    }
  }

  /**
    Observations are handled in input order and a rejected one does not abort
    the rest: a batch is its first part followed by its second, run on the
    table the first part left.
  */
  lemma ReconcileSplit(t: Table, first: seq<RawIssueData>, second: seq<RawIssueData>)
    ensures var one := Reconcile(t, first);
      var two := Reconcile(one.table, second);
      Reconcile(t, first + second) == Run(two.table, one.outcomes + two.outcomes)
  {
    RunStepsSplit(t, first, second, ReconcileOne);
  }

  /** A run over one observation is that observation's step. */
  lemma RunStepsSingle(t: Table, data: RawIssueData, step: (Table, RawIssueData) -> Step)
    ensures RunSteps(t, [data], step) == Run(step(t, data).table, [step(t, data).outcome])
  {
    assert [data][..0] == [];
  }

  /** A batch of one observation is that observation's step. */
  lemma ReconcileSingle(t: Table, data: RawIssueData)
    ensures Reconcile(t, [data]) == Run(ReconcileOne(t, data).table, [ReconcileOne(t, data).outcome])
  {
    RunStepsSingle(t, data, ReconcileOne);
  }

  /** The i-th outcome is the i-th observation applied to the table the earlier ones left. */
  lemma ReconcileStep(t: Table, rawData: seq<RawIssueData>, i: nat)
    requires i < |rawData|
    ensures Reconcile(t, rawData).outcomes[i] == ReconcileOne(Reconcile(t, rawData[..i]).table, rawData[i]).outcome
  {
    assert rawData[..i + 1][..i] == rawData[..i];
    assert rawData == rawData[..i + 1] + rawData[i + 1..];
    ReconcileSplit(t, rawData[..i + 1], rawData[i + 1..]);
  }

  /** A run over two observations is the second's step on the table the first's step left. */
  lemma RunStepsPair(t: Table, a: RawIssueData, b: RawIssueData, step: (Table, RawIssueData) -> Step)
    ensures var s1 := step(t, a);
      var s2 := step(s1.table, b);
      RunSteps(t, [a, b], step) == Run(s2.table, [s1.outcome, s2.outcome])
  {
    assert [a, b][..1] == [a];
    RunStepsSingle(t, a, step);
  }

  /** A run over three observations is their three steps in turn. */
  lemma RunStepsTriple(t: Table, a: RawIssueData, b: RawIssueData, c: RawIssueData, step: (Table, RawIssueData) -> Step)
    ensures var s1 := step(t, a);
      var s2 := step(s1.table, b);
      var s3 := step(s2.table, c);
      RunSteps(t, [a, b, c], step) == Run(s3.table, [s1.outcome, s2.outcome, s3.outcome])
  {
    assert [a, b, c][..2] == [a, b];
    RunStepsPair(t, a, b, step);
  }

  /** After a creation, the created issue is the newest of its source. */
  lemma CreatedIsLatest(t: Table, data: RawIssueData)
    requires TableValid(t)
    requires LatestIn(t.rows, data.source).None? || LatestIn(t.rows, data.source).value.sourceId != Some(data.sourceId)
    requires ValidSeverity(OrOne(data.severity))
    ensures var t' := ReconcileOne(t, data).table;
      && |t'.rows| == |t.rows| + 1
      && LatestIn(t'.rows, data.source) == Some(t'.rows[|t.rows|])
  {
    CreatesOtherwise(t, data);
    var t' := ReconcileOne(t, data).table;
    assert t'.rows == t.rows + [t'.rows[|t.rows|]];
  }

  /**
    Ingesting two observations of one identity into a store holding no issue
    of that source yields one new issue whose frequency is the sum of both and
    whose other columns are those of the first observation.
  */
  lemma RepeatedObservationMerges(t: Table, first: RawIssueData, second: RawIssueData)
    requires TableValid(t)
    requires first.source != "" && second.source == first.source && second.sourceId == first.sourceId
    requires forall r :: r in t.rows ==> r.source != first.source
    requires ValidSeverity(OrOne(first.severity))
    ensures var run := Reconcile(t, [first, second]);
      && |run.table.rows| == |t.rows| + 1 && run.table.rows[..|t.rows|] == t.rows
      && run.outcomes[0].Created? && run.outcomes[1] == Merged(run.outcomes[0].id)
      && var r := run.table.rows[|t.rows|];
         && CreatedFrom(r.(frequency := OrOne(first.frequency)), first)
         && r.frequency == OrOne(first.frequency) + OrOne(second.frequency)
  {
    RunStepsPair(t, first, second, ReconcileOne);
    CreateThenMerge(t, first, second);
  }

  /** The two steps of RepeatedObservationMerges: the first creates, the second merges into what it created. */
  lemma CreateThenMerge(t: Table, first: RawIssueData, second: RawIssueData)
    requires TableValid(t)
    requires first.source != "" && second.source == first.source && second.sourceId == first.sourceId
    requires forall r :: r in t.rows ==> r.source != first.source
    requires ValidSeverity(OrOne(first.severity))
    ensures var s1 := ReconcileOne(t, first);
      var s2 := ReconcileOne(s1.table, second);
      && |s2.table.rows| == |t.rows| + 1 && s2.table.rows[..|t.rows|] == t.rows
      && s1.outcome.Created? && s2.outcome == Merged(s1.outcome.id)
      && var r := s2.table.rows[|t.rows|];
         && CreatedFrom(r.(frequency := OrOne(first.frequency)), first)
         && r.frequency == OrOne(first.frequency) + OrOne(second.frequency)
  {
    var s1 := ReconcileOne(t, first);
    CreatesOtherwise(t, first);
    CreatedIsLatest(t, first);
    MergesIntoLatest(s1.table, second);
    var t2 := ReconcileOne(s1.table, second).table;
    forall k | 0 <= k < |t.rows| ensures t2.rows[k] == t.rows[k] {
      assert s1.table.rows[k] == t.rows[k] && t.rows[k] in t.rows;
    }
    assert t2.rows[..|t.rows|] == t.rows;
  }

  /** Two observations of a new source with different source_ids create two issues. */
  lemma TwoCreations(t: Table, a: RawIssueData, b: RawIssueData)
    requires TableValid(t)
    requires a.source != "" && b.source == a.source && b.sourceId != a.sourceId
    requires forall r :: r in t.rows ==> r.source != a.source
    requires ValidSeverity(OrOne(a.severity)) && ValidSeverity(OrOne(b.severity))
    ensures var s1 := ReconcileOne(t, a);
      var s2 := ReconcileOne(s1.table, b);
      && s1.outcome.Created? && s2.outcome.Created?
      && TableValid(s2.table)
      && |s2.table.rows| == |t.rows| + 2
      && CreatedFrom(s2.table.rows[|t.rows|], a)
      && LatestIn(s2.table.rows, a.source) == Some(s2.table.rows[|t.rows| + 1])
      && s2.table.rows[|t.rows| + 1].sourceId == Some(b.sourceId)
  {
    var t1 := ReconcileOne(t, a).table;
    CreatesOtherwise(t, a);
    CreatedIsLatest(t, a);
    CreateAfterOther(t.rows, t1, a, b);
  }

  /**
    The second of two creations: after the newest issue of the source was
    created from `a`, an observation `b` with another source_id creates one
    more issue, which keeps `a`'s row in place and becomes the newest.
  */
  lemma CreateAfterOther(rows: seq<Issue>, t1: Table, a: RawIssueData, b: RawIssueData)
    requires TableValid(t1) && |t1.rows| == |rows| + 1
    requires CreatedFrom(t1.rows[|rows|], a)
    requires LatestIn(t1.rows, a.source) == Some(t1.rows[|rows|])
    requires b.source == a.source && b.sourceId != a.sourceId
    requires ValidSeverity(OrOne(b.severity))
    ensures var t2 := ReconcileOne(t1, b).table;
      && ReconcileOne(t1, b).outcome.Created?
      && TableValid(t2)
      && |t2.rows| == |rows| + 2
      && CreatedFrom(t2.rows[|rows|], a)
      && LatestIn(t2.rows, a.source) == Some(t2.rows[|rows| + 1])
      && t2.rows[|rows| + 1].sourceId == Some(b.sourceId)
  {
    CreatesOtherwise(t1, b);
    CreatedIsLatest(t1, b);
    var t2 := ReconcileOne(t1, b).table;
    assert t2.rows[|rows|] == t1.rows[|rows|];
  }

  /**
    The lookup does not keep `(source, source_id)` unique: observations A, B, A
    of one source with different source_ids leave two issues with A's identity,
    because the second A is compared with B only.
  */
  lemma InterleavingDuplicates(t: Table, a: RawIssueData, b: RawIssueData)
    requires TableValid(t)
    requires a.source != "" && b.source == a.source && b.sourceId != a.sourceId
    requires forall r :: r in t.rows ==> r.source != a.source
    requires ValidSeverity(OrOne(a.severity)) && ValidSeverity(OrOne(b.severity))
    ensures var run := Reconcile(t, [a, b, a]);
      && run.outcomes[0].Created? && run.outcomes[1].Created? && run.outcomes[2].Created?
      && |run.table.rows| == |t.rows| + 3
      && run.table.rows[|t.rows|].source == a.source
      && run.table.rows[|t.rows|].sourceId == Some(a.sourceId)
      && run.table.rows[|t.rows| + 2].source == a.source
      && run.table.rows[|t.rows| + 2].sourceId == Some(a.sourceId)
      && run.table.rows[|t.rows|].id != run.table.rows[|t.rows| + 2].id
  {
    RunStepsTriple(t, a, b, a, ReconcileOne);
    TwoCreations(t, a, b);
    var t2 := ReconcileOne(ReconcileOne(t, a).table, b).table;
    CreatesOtherwise(t2, a);
    var t3 := ReconcileOne(t2, a).table;
    assert t3.rows[|t.rows|] == t2.rows[|t.rows|];
    assert Chronological(t3.rows);
    assert t3.rows[|t.rows|].id < t3.rows[|t.rows| + 2].id;
  }

  // ---------------------------------------------------------------------------
  // The reconciler as the source runs it
  // ---------------------------------------------------------------------------

  /** One pass of the loop of processIngestedData: look up, then merge or create. */
  method ProcessOne(store: Store, data: RawIssueData) returns (outcome: ItemOutcome)
    requires store.Valid()
    modifies store
    ensures store.Valid()
    ensures Step(store.State(), outcome) == ReconcileOne(old(store.State()), data)
  {
    var lookup := store.FindAll(SourceLookup(data.source));
    match lookup {
      case Failure(e) =>
        outcome := Rejected(e);
      case Success(existingIssues) =>
        var existingIssue := FindBySourceId(existingIssues, data.sourceId);
        if existingIssue.Some? {
          var updated := store.Update(existingIssue.value.id, MergePatch(existingIssue.value, data, store.clock));
          outcome := match updated case Failure(e) => Rejected(e) case Success(_) => Merged(existingIssue.value.id);
        } else {
          var created := store.Create(NewIssueFrom(data));
          outcome := match created case Failure(e) => Rejected(e) case Success(row) => Created(row.id);
        }
    }
  }

  /** processIngestedData, returning what it logs for each observation. */
  method ProcessIngestedData(store: Store, rawData: seq<RawIssueData>) returns (outcomes: seq<ItemOutcome>)
    requires store.Valid()
    modifies store
    ensures store.Valid()
    ensures Run(store.State(), outcomes) == Reconcile(old(store.State()), rawData)
  {
    outcomes := [];
    var i := 0;
    while i < |rawData|
      invariant 0 <= i <= |rawData|
      invariant store.Valid()
      invariant Run(store.State(), outcomes) == Reconcile(old(store.State()), rawData[..i])
    {
      var outcome := ProcessOne(store, rawData[i]);
      outcomes := outcomes + [outcome];
      assert rawData[..i + 1][..i] == rawData[..i];
      i := i + 1;
    }
    assert rawData[..|rawData|] == rawData;
  }

  // ---------------------------------------------------------------------------
  // runAllIntegrations
  // ---------------------------------------------------------------------------

  datatype IntegrationType = Slack | HubSpot | Jira | GoogleDocs

  datatype IntegrationConfig = IntegrationConfig(name: string, integrationType: IntegrationType, isActive: bool)

  /** What the adapter chosen by the config's type returns, or the exception it throws. */
  datatype AdapterOutput =
    | Fetched(rawData: seq<RawIssueData>)
    | AdapterFailed(message: string)

  /** What the sweep logs for one config. */
  datatype SweepOutcome =
    | Inactive
    | AdapterError(message: string)
    | NothingFetched
    | Processed(outcomes: seq<ItemOutcome>)

  datatype SweepStep = SweepStep(table: Table, entry: SweepOutcome)

  datatype SweepRun = SweepRun(table: Table, log: seq<SweepOutcome>)

  /** One pass of the config loop; `fetch` stands for the switch over the adapters. */
  function SweepOne(t: Table, config: IntegrationConfig, fetch: IntegrationConfig -> AdapterOutput): (s: SweepStep)
    ensures TableValid(t) ==> TableValid(s.table)
  {
    if !config.isActive then SweepStep(t, Inactive)
    else match fetch(config)
      case AdapterFailed(message) => SweepStep(t, AdapterError(message))
      case Fetched(rawData) =>
        if |rawData| > 0 then
          var run := Reconcile(t, rawData);
          SweepStep(run.table, Processed(run.outcomes))
        else SweepStep(t, NothingFetched)
  }

  /** runAllIntegrations: the configs one after another. */
  function Sweep(t: Table, configs: seq<IntegrationConfig>, fetch: IntegrationConfig -> AdapterOutput): (run: SweepRun)
    ensures |run.log| == |configs|
    ensures TableValid(t) ==> TableValid(run.table)
    decreases |configs|
  {
    if configs == [] then SweepRun(t, [])
    else
      var before := Sweep(t, configs[..|configs| - 1], fetch);
      var step := SweepOne(before.table, configs[|configs| - 1], fetch);
      SweepRun(step.table, before.log + [step.entry])
  }

  /** The observations one config contributes: none when it is inactive or its adapter throws. */
  function Contribution(config: IntegrationConfig, fetch: IntegrationConfig -> AdapterOutput): seq<RawIssueData> {
    if config.isActive && fetch(config).Fetched? then fetch(config).rawData else []
  }

  /** Everything the sweep ingests, in config order. */
  function Collected(configs: seq<IntegrationConfig>, fetch: IntegrationConfig -> AdapterOutput): seq<RawIssueData>
    decreases |configs|
  {
    if configs == [] then []
    else Collected(configs[..|configs| - 1], fetch) + Contribution(configs[|configs| - 1], fetch)
  }

  /**
    Inactive configs are skipped and a failing adapter only loses its own
    observations: the whole sweep leaves the store exactly as one
    reconciliation of everything the other adapters fetched, in config order.
  */
  lemma {:induction false} SweepIsOneReconciliation(t: Table, configs: seq<IntegrationConfig>, fetch: IntegrationConfig -> AdapterOutput)
    ensures Sweep(t, configs, fetch).table == Reconcile(t, Collected(configs, fetch)).table
    decreases |configs|
  {
    if configs != [] {
      var init := configs[..|configs| - 1];
      var last := configs[|configs| - 1];
      SweepIsOneReconciliation(t, init, fetch);
      ReconcileSplit(t, Collected(init, fetch), Contribution(last, fetch));
    }
  }

  /** runAllIntegrations over the given configs, returning what it logs per config. */
  method RunAllIntegrations(store: Store, configs: seq<IntegrationConfig>, fetch: IntegrationConfig -> AdapterOutput)
    returns (log: seq<SweepOutcome>)
    requires store.Valid()
    modifies store
    ensures store.Valid()
    ensures SweepRun(store.State(), log) == Sweep(old(store.State()), configs, fetch)
  {
    log := [];
    var i := 0;
    while i < |configs|
      invariant 0 <= i <= |configs|
      invariant store.Valid()
      invariant SweepRun(store.State(), log) == Sweep(old(store.State()), configs[..i], fetch)
    {
      var config := configs[i];
      var entry: SweepOutcome;
      if !config.isActive {
        entry := Inactive;
      } else {
        match fetch(config) {
          case AdapterFailed(message) =>
            entry := AdapterError(message);
          case Fetched(rawData) =>
            if |rawData| > 0 {
              var outcomes := ProcessIngestedData(store, rawData);
              entry := Processed(outcomes);
            } else {
              entry := NothingFetched;
            }
        }
      }
      log := log + [entry];
      assert configs[..i + 1][..i] == configs[..i];
      i := i + 1;
    }
    assert configs[..|configs|] == configs;
  }

  // ---------------------------------------------------------------------------
  // The mock adapters, as test vectors
  // ---------------------------------------------------------------------------

  const JiraMock: seq<RawIssueData> := [
    RawIssueData("jira_1", "Database connection timeout",
                 Some("Database queries timing out under high load"), "jira", "PROJ-123",
                 Some(4), Some(12), Some(["database", "performance", "backend"]))
  ]

  const SlackMock: seq<RawIssueData> := [
    RawIssueData("slack_1", "App crashes on iOS 17",
                 Some("Multiple users reporting app crashes on iOS 17 devices"), "slack", "C1234567890",
                 Some(4), Some(15), Some(["ios", "crash", "urgent"])),
    RawIssueData("slack_2", "Login button not working",
                 Some("Users cannot log in through the main login button"), "slack", "C1234567891",
                 Some(3), Some(8), Some(["login", "authentication"]))
  ]

  /** Running the Jira adapter twice on a store without Jira issues leaves one issue of frequency 12 + 12. */
  lemma JiraMockTwice(t: Table)
    requires TableValid(t)
    requires forall r :: r in t.rows ==> r.source != "jira"
    ensures var t' := Reconcile(Reconcile(t, JiraMock).table, JiraMock).table;
      && |t'.rows| == |t.rows| + 1
      && t'.rows[|t.rows|].frequency == 24
      && t'.rows[|t.rows|].severity == 4
  {
    var d := JiraMock[0];
    ReconcileSplit(t, JiraMock, JiraMock);
    assert JiraMock + JiraMock == [d, d];
    RepeatedObservationMerges(t, d, d);
  }

  /**
    Running the Slack adapter twice on a store without Slack issues creates
    four issues, not two: each observation meets the other's issue in the lookup.
  */
  lemma SlackMockTwiceDuplicates(t: Table)
    requires TableValid(t)
    requires forall r :: r in t.rows ==> r.source != "slack"
    ensures var run := Reconcile(Reconcile(t, SlackMock).table, SlackMock);
      && run.outcomes[0].Created? && run.outcomes[1].Created?
      && |run.table.rows| == |t.rows| + 4
  {
    var a, b := SlackMock[0], SlackMock[1];
    assert SlackMock == [a, b];
    PairTwiceDuplicates(t, a, b);
  }

  /**
    A batch of two observations of one source with different source_ids,
    ingested twice into a store without that source, creates four issues.
  */
  lemma PairTwiceDuplicates(t: Table, a: RawIssueData, b: RawIssueData)
    requires TableValid(t)
    requires a.source != "" && b.source == a.source && b.sourceId != a.sourceId
    requires forall r :: r in t.rows ==> r.source != a.source
    requires ValidSeverity(OrOne(a.severity)) && ValidSeverity(OrOne(b.severity))
    ensures var run := Reconcile(Reconcile(t, [a, b]).table, [a, b]);
      && run.outcomes[0].Created? && run.outcomes[1].Created?
      && |run.table.rows| == |t.rows| + 4
  {
    var t1 := Reconcile(t, [a, b]).table;
    var three := Reconcile(t, [a, b, a]);
    SecondRunStartsInterleaving(t, a, b);
    InterleavingDuplicates(t, a, b);
    var t3 := three.table;
    assert ReconcileOne(t1, a) == Step(t3, three.outcomes[2]);
    LatestIsLast(t3.rows, a.source);
    CreatesOtherwise(t3, b);
    RunStepsPair(t1, a, b, ReconcileOne);
  }

  /** The first step of the second run is the third step of the run over A, B, A. */
  lemma SecondRunStartsInterleaving(t: Table, a: RawIssueData, b: RawIssueData)
    ensures var three := Reconcile(t, [a, b, a]);
      ReconcileOne(Reconcile(t, [a, b]).table, a) == Step(three.table, three.outcomes[2])
  {
    var t1 := Reconcile(t, [a, b]).table;
    RunStepsSplit(t, [a, b], [a], ReconcileOne);
    assert [a, b] + [a] == [a, b, a];
    RunStepsSingle(t1, a, ReconcileOne);
  }

  /** When the last row is of the source, it is the latest. */
  lemma LatestIsLast(rows: seq<Issue>, source: string)
    requires rows != [] && OfSource(rows[|rows| - 1], source)
    ensures LatestIn(rows, source) == Some(rows[|rows| - 1])
  {
  }
}
