/**
  The issue store (server/src/models/Issue.ts over the `issues` table of
  server/src/db.ts), modelled as an in-memory table.

  A `Table` is the whole state of the store as a value: the rows in the order
  they were inserted, the next value of the SERIAL id sequence, and a logical
  clock that stands in for CURRENT_TIMESTAMP. Every successful write stamps the
  row with the clock and advances it, so `created_at` grows strictly along the
  rows and `ORDER BY created_at DESC` is the reverse insertion order.

  The pure functions on `Table` (Query, CreateOp, UpdateOp, DeleteOp, TopOp)
  give the meaning of each store call; the class `Store` holds the table in
  fields and its methods change those fields exactly as the functions say.
*/
module IssueModel {
  import opened Wrappers

  // ---------------------------------------------------------------------------
  // Rows
  // ---------------------------------------------------------------------------

  const MinSeverity: int := 1
  const MaxSeverity: int := 5

  /** The CHECK constraint on the severity column. */
  predicate ValidSeverity(n: int) {
    MinSeverity <= n <= MaxSeverity
  }

  // The severity column as server/src/db.ts:44 declares it: an INTEGER with a
  // range CHECK but no NOT NULL. SQL comparisons with NULL give NULL, and a
  // CHECK rejects a row only when its expression is false.

  /** `v >= bound` in SQL: NULL when `v` is NULL. */
  function SqlAtLeast(v: Option<int>, bound: int): (r: Option<bool>)
    ensures r.None? <==> v.None?
    ensures r == Some(true) <==> v.Some? && v.value >= bound
  {
    if v.None? then None else Some(v.value >= bound)
  }

  /** `v <= bound` in SQL: NULL when `v` is NULL. */
  function SqlAtMost(v: Option<int>, bound: int): (r: Option<bool>)
    ensures r.None? <==> v.None?
    ensures r == Some(true) <==> v.Some? && v.value <= bound
  {
    if v.None? then None else Some(v.value <= bound)
  }

  /** SQL's three-valued AND: false beats NULL, and NULL beats true. */
  function SqlAnd(a: Option<bool>, b: Option<bool>): (r: Option<bool>)
    ensures r == Some(false) <==> a == Some(false) || b == Some(false)
    ensures r == Some(true) <==> a == Some(true) && b == Some(true)
  {
    if a == Some(false) || b == Some(false) then Some(false)
    else if a == Some(true) && b == Some(true) then Some(true)
    else None
  }

  /** The values the declared column accepts: those whose CHECK is not false. */
  predicate SeverityAcceptedAsDeclared(v: Option<int>) {
    SqlAnd(SqlAtLeast(v, MinSeverity), SqlAtMost(v, MaxSeverity)) != Some(false)
  }

  /** As declared, the column accepts NULL, so it does not keep every severity in [1,5]. */
  lemma DeclaredSeverityAcceptsNull()
    ensures SeverityAcceptedAsDeclared(None)
    ensures exists v :: SeverityAcceptedAsDeclared(v) && !(v.Some? && ValidSeverity(v.value))
  {
    var nullValue: Option<int> := None;
    assert SeverityAcceptedAsDeclared(nullValue);
  }

  /** The column with NOT NULL added, as every writer of the table assumes. */
  predicate SeverityAcceptedNotNull(v: Option<int>) {
    v.Some? && SeverityAcceptedAsDeclared(v)
  }

  /**
    With NOT NULL the column accepts exactly a value in [1,5]; that is the
    non-null `severity` column with the `ValidSeverity` check that the rest of
    this model uses.
  */
  lemma NotNullSeverityInRange(v: Option<int>)
    ensures SeverityAcceptedNotNull(v) <==> v.Some? && ValidSeverity(v.value)
  {
  }

  /** One row of the issues table. Nullable columns are `Option`s; `severity`, `frequency`, `status` and `tags` are modelled as never NULL. */
  datatype Issue = Issue(
    id: nat,
    title: string,
    description: Option<string>,
    source: string,
    sourceId: Option<string>,
    severity: int,
    frequency: int,
    status: string,
    issueType: Option<string>,
    tags: seq<string>,
    jiraExists: Option<bool>,
    jiraIssueKey: Option<string>,
    jiraStatus: Option<string>,
    createdAt: nat,
    updatedAt: nat)

  /**
    What callers hand to `create`. Besides the nine columns the INSERT names,
    callers also pass `jira_exists` and `created_at`; `create` drops both.
  */
  datatype NewIssue = NewIssue(
    title: string,
    description: Option<string>,
    source: string,
    sourceId: Option<string>,
    severity: int,
    frequency: int,
    status: string,
    issueType: Option<string>,
    tags: seq<string>,
    jiraExists: Option<bool>,
    createdAt: Option<nat>)

  /**
    A partial update, one entry per key of the update object: `None` means the
    key is absent; for a nullable column `Some(None)` means the key is present
    with the value `undefined`, which is written as NULL.
  */
  datatype Patch = Patch(
    id: Option<int>,
    title: Option<string>,
    description: Option<Option<string>>,
    source: Option<string>,
    sourceId: Option<Option<string>>,
    severity: Option<int>,
    frequency: Option<int>,
    status: Option<string>,
    issueType: Option<Option<string>>,
    tags: Option<seq<string>>,
    jiraExists: Option<Option<bool>>,
    jiraIssueKey: Option<Option<string>>,
    jiraStatus: Option<Option<string>>,
    createdAt: Option<nat>,
    updatedAt: Option<nat>)

  const EmptyPatch: Patch :=
    Patch(None, None, None, None, None, None, None, None, None, None, None, None, None, None, None)

  /** Errors the database raises for the statements this model issues. */
  datatype StoreError =
    | CheckViolation   // severity outside [1,5]
    | InvalidRowCount  // a negative LIMIT or OFFSET

  // ---------------------------------------------------------------------------
  // The table and its invariant
  // ---------------------------------------------------------------------------

  datatype Table = Table(rows: seq<Issue>, nextId: nat, clock: nat)

  /** A fresh database: no rows, the SERIAL sequence starts at 1. */
  const EmptyTable: Table := Table([], 1, 0)

  /** Rows in insertion order: ids and creation times both strictly increase. */
  predicate Chronological(rows: seq<Issue>) {
    forall i, j :: 0 <= i < j < |rows| ==>
      rows[i].id < rows[j].id && rows[i].createdAt < rows[j].createdAt
  }

  predicate RowValid(r: Issue, nextId: nat, clock: nat) {
    && r.id < nextId
    && r.createdAt <= r.updatedAt < clock
    && ValidSeverity(r.severity)
  }

  /** Every reachable table has distinct ids, bounded severities and updated_at >= created_at. */
  predicate TableValid(t: Table) {
    && Chronological(t.rows)
    && forall r :: r in t.rows ==> RowValid(r, t.nextId, t.clock)
  }

  lemma IdsDistinct(rows: seq<Issue>, i: int, j: int)
    requires Chronological(rows)
    requires 0 <= i < |rows| && 0 <= j < |rows| && rows[i].id == rows[j].id
    ensures i == j
  {
  }

  // ---------------------------------------------------------------------------
  // Filtering rows
  // ---------------------------------------------------------------------------

  /** The tests a statement applies to each row (its WHERE clause). */
  datatype RowTest =
    | SatisfiesAll(conditions: seq<Condition>)
    | MatchesFilter(filter: Filter)
    | IdOtherThan(id: int)
    | SourceOtherThan(source: string)

  predicate Passes(test: RowTest, r: Issue) {
    match test
    case SatisfiesAll(cs) => forall c :: c in cs ==> Satisfies(r, c)
    case MatchesFilter(f) => Matches(f, r)
    case IdOtherThan(id) => r.id != id
    case SourceOtherThan(s) => r.source != s
  }

  /** The rows that pass `test`, in their original order. */
  function FilterRows(rows: seq<Issue>, test: RowTest): (r: seq<Issue>)
    ensures |r| <= |rows|
  {
    if rows == [] then []
    else if Passes(test, rows[0]) then [rows[0]] + FilterRows(rows[1..], test)
    else FilterRows(rows[1..], test)
  }

  /** A row is kept iff it is in the input and passes the test. */
  lemma {:induction false} FilterRowsMembers(rows: seq<Issue>, test: RowTest)
    ensures forall x :: x in FilterRows(rows, test) <==> x in rows && Passes(test, x)
  {
    if rows != [] {
      FilterRowsMembers(rows[1..], test);
      assert forall x :: x in rows <==> x == rows[0] || x in rows[1..];
    }
  }

  lemma {:induction false} FilterRowsChronological(rows: seq<Issue>, test: RowTest)
    requires Chronological(rows)
    ensures Chronological(FilterRows(rows, test))
  {
    if rows != [] {
      var tail := FilterRows(rows[1..], test);
      FilterRowsChronological(rows[1..], test);
      if Passes(test, rows[0]) {
        FilterRowsMembers(rows[1..], test);
        var r := [rows[0]] + tail;
        forall i, j | 0 <= i < j < |r|
          ensures r[i].id < r[j].id && r[i].createdAt < r[j].createdAt
        {
          if i == 0 {
            assert r[j] in rows[1..];
            var k :| 0 <= k < |rows[1..]| && rows[1..][k] == r[j];
            assert rows[k + 1] == r[j];
          } else {
            assert r[i] == tail[i - 1] && r[j] == tail[j - 1];
          }
        }
      }
    }
  }

  /** Two tests that agree on every row select the same rows. */
  lemma {:induction false} FilterRowsAgree(rows: seq<Issue>, a: RowTest, b: RowTest)
    requires forall x :: x in rows ==> (Passes(a, x) <==> Passes(b, x))
    ensures FilterRows(rows, a) == FilterRows(rows, b)
  {
    if rows != [] {
      FilterRowsAgree(rows[1..], a, b);
    }
  }

  /** Filtering distributes over concatenation. */
  lemma {:induction false} FilterRowsAppend(a: seq<Issue>, b: seq<Issue>, test: RowTest)
    ensures FilterRows(a + b, test) == FilterRows(a, test) + FilterRows(b, test)
    decreases |a|
  {
    if a == [] {
      assert a + b == b;
    } else {
      assert (a + b)[0] == a[0] && (a + b)[1..] == a[1..] + b;
      FilterRowsAppend(a[1..], b, test);
    }
  }

  /** Filtering keeps a sequence whose every row passes, and empties one whose every row fails. */
  lemma {:induction false} FilterRowsUniform(rows: seq<Issue>, test: RowTest)
    ensures (forall x :: x in rows ==> Passes(test, x)) ==> FilterRows(rows, test) == rows
    ensures (forall x :: x in rows ==> !Passes(test, x)) ==> FilterRows(rows, test) == []
  {
    if rows != [] {
      assert forall x :: x in rows[1..] ==> x in rows;
      FilterRowsUniform(rows[1..], test);
    }
  }

  function Reverse(s: seq<Issue>): (r: seq<Issue>)
    ensures |r| == |s|
    ensures forall k :: 0 <= k < |s| ==> r[k] == s[|s| - 1 - k]
  {
    seq(|s|, k requires 0 <= k < |s| => s[|s| - 1 - k])
  }

  // ---------------------------------------------------------------------------
  // findAll
  // ---------------------------------------------------------------------------

  /** The optional arguments of `findAll`; `None` is an absent key. */
  datatype Filter = Filter(
    source: Option<string>,
    status: Option<string>,
    severity: Option<int>,
    issueType: Option<string>,
    limit: Option<int>,
    offset: Option<int>)

  const NoFilter: Filter := Filter(None, None, None, None, None, None)

  /** JavaScript truthiness of an optional string: absent and "" are falsy. */
  predicate Truthy(o: Option<string>) {
    o.Some? && o.value != ""
  }

  /** JavaScript truthiness of an optional number: absent and 0 are falsy (NaN is modelled as absent). */
  predicate TruthyInt(o: Option<int>) {
    o.Some? && o.value != 0
  }

  /** `x || 1` on an optional number: absent and 0 both become 1. */
  function OrOne(o: Option<int>): (n: int)
    ensures n != 0
    ensures TruthyInt(o) ==> n == o.value
    ensures !TruthyInt(o) ==> n == 1
  {
    if TruthyInt(o) then o.value else 1
  }

  /** `x || d` on an optional string: absent and "" both become `d`. */
  function StringOr(o: Option<string>, d: string): (s: string)
    ensures Truthy(o) ==> s == o.value
    ensures !Truthy(o) ==> s == d
  {
    if Truthy(o) then o.value else d
  }

  /** One term of the WHERE conjunction that `findAll` builds. */
  datatype Condition =
    | SourceIs(source: string)
    | StatusIs(status: string)
    | SeverityIs(severity: int)
    | TypeIs(issueType: string)

  predicate Satisfies(r: Issue, c: Condition) {
    match c
    case SourceIs(s) => r.source == s
    case StatusIs(s) => r.status == s
    case SeverityIs(n) => r.severity == n
    case TypeIs(s) => r.issueType == Some(s)
  }

  /** Reference meaning of a filter: every truthy filter constrains its column; falsy ones are ignored. */
  predicate Matches(f: Filter, r: Issue) {
    && (Truthy(f.source) ==> r.source == f.source.value)
    && (Truthy(f.status) ==> r.status == f.status.value)
    && (TruthyInt(f.severity) ==> r.severity == f.severity.value)
    && (Truthy(f.issueType) ==> r.issueType == Some(f.issueType.value))
  }

  /** LIMIT and OFFSET are only emitted when truthy; a negative one is a database error. */
  predicate RowCountsOk(f: Filter) {
    && (TruthyInt(f.limit) ==> f.limit.value > 0)
    && (TruthyInt(f.offset) ==> f.offset.value > 0)
  }

  /** The rows matching `f`, most recently created first. */
  function Matching(t: Table, f: Filter): seq<Issue> {
    Reverse(FilterRows(t.rows, MatchesFilter(f)))
  }

  function Skipped(n: nat, offset: Option<int>): (k: nat)
    requires TruthyInt(offset) ==> offset.value > 0
    ensures k <= n
  {
    if TruthyInt(offset) then (if offset.value < n then offset.value else n) else 0
  }

  /** OFFSET, then LIMIT. */
  function Page(s: seq<Issue>, limit: Option<int>, offset: Option<int>): (r: seq<Issue>)
    requires TruthyInt(limit) ==> limit.value > 0
    requires TruthyInt(offset) ==> offset.value > 0
    ensures Skipped(|s|, offset) + |r| <= |s|
    ensures r == s[Skipped(|s|, offset)..Skipped(|s|, offset) + |r|]
    ensures TruthyInt(limit) ==> |r| <= limit.value
    ensures !TruthyInt(limit) ==> |r| == |s| - Skipped(|s|, offset)
    ensures TruthyInt(limit) && Skipped(|s|, offset) + limit.value <= |s| ==> |r| == limit.value
  {
    var rest := s[Skipped(|s|, offset)..];
    if TruthyInt(limit) && limit.value < |rest| then rest[..limit.value] else rest
  }

  /** The result of `findAll(f)` on table `t`. */
  function Query(t: Table, f: Filter): Result<seq<Issue>, StoreError> {
    if !RowCountsOk(f) then Failure(InvalidRowCount)
    else Success(Page(Matching(t, f), f.limit, f.offset))
  }

  predicate NewestFirst(s: seq<Issue>) {
    forall i, j :: 0 <= i < j < |s| ==> s[i].createdAt > s[j].createdAt
  }

  /** Reversing rows in insertion order puts the newest first. */
  lemma ReverseIsNewestFirst(s: seq<Issue>)
    requires Chronological(s)
    ensures NewestFirst(Reverse(s))
  {
    var r := Reverse(s);
    forall i, j | 0 <= i < j < |r| ensures r[i].createdAt > r[j].createdAt {
      assert r[i] == s[|s| - 1 - i] && r[j] == s[|s| - 1 - j];
    }
  }

  /** findAll returns only rows matching every truthy filter, newest first, at most `limit` of them. */
  lemma FindAllSound(t: Table, f: Filter)
    requires TableValid(t)
    ensures Query(t, f).Success? <==> RowCountsOk(f)
    ensures Query(t, f).Success? ==>
      && (forall x :: x in Query(t, f).value ==> x in t.rows && Matches(f, x))
      && NewestFirst(Query(t, f).value)
      && (TruthyInt(f.limit) ==> |Query(t, f).value| <= f.limit.value)
  {
    if RowCountsOk(f) {
      QueryRowsMatch(t, f);
      QueryNewestFirst(t, f);
    }
  }

  lemma QueryRowsMatch(t: Table, f: Filter)
    requires RowCountsOk(f)
    ensures forall x :: x in Query(t, f).value ==> x in t.rows && Matches(f, x)
  {
    var fr := FilterRows(t.rows, MatchesFilter(f));
    FilterRowsMembers(t.rows, MatchesFilter(f));
    ReverseMembers(fr);
    var m := Matching(t, f);
    var p := Page(m, f.limit, f.offset);
    var k := Skipped(|m|, f.offset);
    assert p == m[k..k + |p|];
    assert forall x :: x in p ==> x in m;
  }

  lemma QueryNewestFirst(t: Table, f: Filter)
    requires TableValid(t) && RowCountsOk(f)
    ensures NewestFirst(Query(t, f).value)
  {
    var fr := FilterRows(t.rows, MatchesFilter(f));
    FilterRowsChronological(t.rows, MatchesFilter(f));
    ReverseIsNewestFirst(fr);
    var m := Matching(t, f);
    var p := Page(m, f.limit, f.offset);
    var k := Skipped(|m|, f.offset);
    assert p == m[k..k + |p|];
    SliceNewestFirst(m, k, k + |p|);
  }

  /** Reversing keeps exactly the same rows. */
  lemma ReverseMembers(s: seq<Issue>)
    ensures forall x :: x in Reverse(s) <==> x in s
  {
    var r := Reverse(s);
    forall x ensures x in r <==> x in s {
      if x in r {
        var i :| 0 <= i < |r| && r[i] == x;
        assert s[|s| - 1 - i] == x;
      }
      if x in s {
        var i :| 0 <= i < |s| && s[i] == x;
        assert r[|s| - 1 - i] == x;
      }
    }
  }

  /** A contiguous part of a newest-first list is newest first. */
  lemma SliceNewestFirst(s: seq<Issue>, a: nat, b: nat)
    requires a <= b <= |s| && NewestFirst(s)
    ensures NewestFirst(s[a..b])
  {
    var p := s[a..b];
    forall i, j | 0 <= i < j < |p| ensures p[i].createdAt > p[j].createdAt {
      assert p[i] == s[a + i] && p[j] == s[a + j];
    }
  }

  /** Without LIMIT and OFFSET, findAll returns every matching row, each exactly once. */
  lemma FindAllComplete(t: Table, f: Filter)
    requires TableValid(t)
    requires !TruthyInt(f.limit) && !TruthyInt(f.offset)
    ensures Query(t, f).Success?
    ensures forall x :: x in Query(t, f).value <==> x in t.rows && Matches(f, x)
    ensures |Query(t, f).value| == |FilterRows(t.rows, MatchesFilter(f))|
  {
    var fr := FilterRows(t.rows, MatchesFilter(f));
    FilterRowsMembers(t.rows, MatchesFilter(f));
    var m := Matching(t, f);
    assert Page(m, f.limit, f.offset) == m;
    forall x ensures x in m <==> x in fr {
      if x in m {
        var i :| 0 <= i < |m| && m[i] == x;
        assert x == fr[|fr| - 1 - i];
      }
      if x in fr {
        var i :| 0 <= i < |fr| && fr[i] == x;
        assert m[|fr| - 1 - i] == x;
      }
    }
  }

  /** Falsy filters (absent, "", or severity 0) impose no constraint. */
  lemma FalsyFiltersIgnored(t: Table, f: Filter)
    ensures Query(t, f.(source := if Truthy(f.source) then f.source else None,
                        status := if Truthy(f.status) then f.status else None,
                        severity := if TruthyInt(f.severity) then f.severity else None,
                        issueType := if Truthy(f.issueType) then f.issueType else None))
         == Query(t, f)
  {
    var g := f.(source := if Truthy(f.source) then f.source else None,
                status := if Truthy(f.status) then f.status else None,
                severity := if TruthyInt(f.severity) then f.severity else None,
                issueType := if Truthy(f.issueType) then f.issueType else None);
    FilterRowsAgree(t.rows, MatchesFilter(g), MatchesFilter(f));
  }

  // ---------------------------------------------------------------------------
  // findById, create, update, delete
  // ---------------------------------------------------------------------------

  /** The position of the first row with this id (`WHERE id = $1`). */
  function IndexOfId(rows: seq<Issue>, id: int): (k: Option<nat>)
    ensures k.Some? ==> k.value < |rows| && rows[k.value].id == id
    ensures k.None? <==> forall r :: r in rows ==> r.id != id
  {
    if rows == [] then None
    else if rows[0].id == id then Some(0)
    else match IndexOfId(rows[1..], id)
      case None => None
      case Some(j) => Some(j + 1)
  }

  /** The row `create` inserts: the nine named columns; id, timestamps and NULL jira columns from the table. */
  function NewRow(t: Table, n: NewIssue): Issue {
    Issue(t.nextId, n.title, n.description, n.source, n.sourceId, n.severity, n.frequency,
          n.status, n.issueType, n.tags, None, None, None, t.clock, t.clock)
  }

  /**
    `create(n)`. The id sequence advances even when the CHECK constraint
    rejects the row, as a SERIAL column does.
  */
  function CreateOp(t: Table, n: NewIssue): (res: (Table, Result<Issue, StoreError>))
    ensures TableValid(t) ==> TableValid(res.0)
    ensures res.1.Success? <==> ValidSeverity(n.severity)
    ensures res.1.Failure? ==> res.0.rows == t.rows && res.0.clock == t.clock
    ensures res.1.Success? ==>
      && res.0.rows == t.rows + [res.1.value]
      && res.0.clock == t.clock + 1
      && (TableValid(t) ==> forall r :: r in t.rows ==> r.id != res.1.value.id)
  {
    if !ValidSeverity(n.severity) then
      (t.(nextId := t.nextId + 1), Failure(CheckViolation))
    else
      var row := NewRow(t, n);
      var t' := Table(t.rows + [row], t.nextId + 1, t.clock + 1);
      assert TableValid(t) ==> TableValid(t') by {
        if TableValid(t) {
          forall i, j | 0 <= i < j < |t'.rows|
            ensures t'.rows[i].id < t'.rows[j].id && t'.rows[i].createdAt < t'.rows[j].createdAt
          {
            assert t'.rows[i] == t.rows[i] && t.rows[i] in t.rows;
          }
        }
      }
      (t', Success(row))
  }

  /** `create` stores the nine columns it names and nothing else the caller supplies. */
  lemma CreateStoresOnlyNamedColumns(t: Table, n: NewIssue)
    requires ValidSeverity(n.severity)
    ensures var r := CreateOp(t, n).1.value;
      && r.title == n.title && r.description == n.description
      && r.source == n.source && r.sourceId == n.sourceId
      && r.severity == n.severity && r.frequency == n.frequency
      && r.status == n.status && r.issueType == n.issueType && r.tags == n.tags
      && r.jiraExists.None? && r.jiraIssueKey.None? && r.jiraStatus.None?
      && r.createdAt == t.clock && r.updatedAt == t.clock && r.id == t.nextId
  {
  }

  /** The keys of the update object other than `id` and `created_at`. */
  predicate HasFields(p: Patch) {
    || p.title.Some? || p.description.Some? || p.source.Some? || p.sourceId.Some?
    || p.severity.Some? || p.frequency.Some? || p.status.Some? || p.issueType.Some?
    || p.tags.Some? || p.jiraExists.Some? || p.jiraIssueKey.Some? || p.jiraStatus.Some?
    || p.updatedAt.Some?
  }

  function ValueOr<T>(o: Option<T>, default: T): T {
    if o.Some? then o.value else default
  }

  /**
    The SET clause: each supplied column takes its new value. `id` and
    `created_at` are never written; a supplied `updated_at` is overwritten
    by the stamp that follows, so it is not applied here.
  */
  function Apply(r: Issue, p: Patch): Issue {
    r.(title := ValueOr(p.title, r.title),
       description := ValueOr(p.description, r.description),
       source := ValueOr(p.source, r.source),
       sourceId := ValueOr(p.sourceId, r.sourceId),
       severity := ValueOr(p.severity, r.severity),
       frequency := ValueOr(p.frequency, r.frequency),
       status := ValueOr(p.status, r.status),
       issueType := ValueOr(p.issueType, r.issueType),
       tags := ValueOr(p.tags, r.tags),
       jiraExists := ValueOr(p.jiraExists, r.jiraExists),
       jiraIssueKey := ValueOr(p.jiraIssueKey, r.jiraIssueKey),
       jiraStatus := ValueOr(p.jiraStatus, r.jiraStatus))
  }

  /** `update(id, p)`: `Success(None)` is the source's `null`. */
  function UpdateOp(t: Table, id: int, p: Patch): (res: (Table, Result<Option<Issue>, StoreError>))
    ensures TableValid(t) ==> TableValid(res.0)
    ensures res.1 != Success(None) ==> HasFields(p) && IndexOfId(t.rows, id).Some?
  {
    if !HasFields(p) then (t, Success(None))
    else match IndexOfId(t.rows, id)
      case None => (t, Success(None))
      case Some(k) =>
        var u := Apply(t.rows[k], p).(updatedAt := t.clock);
        if !ValidSeverity(u.severity) then (t, Failure(CheckViolation))
        else
          ReplaceKeepsValid(t, k, u);
          (t.(rows := t.rows[k := u], clock := t.clock + 1), Success(Some(u)))
  }

  /** Replacing a row by one with the same id and creation time, a valid severity and the current stamp keeps the table valid. */
  lemma ReplaceKeepsValid(t: Table, k: nat, u: Issue)
    requires k < |t.rows|
    requires u.id == t.rows[k].id && u.createdAt == t.rows[k].createdAt
    requires u.updatedAt == t.clock && ValidSeverity(u.severity)
    ensures TableValid(t) ==> TableValid(t.(rows := t.rows[k := u], clock := t.clock + 1))
  {
    if TableValid(t) {
      var t' := t.(rows := t.rows[k := u], clock := t.clock + 1);
      assert t.rows[k] in t.rows;
      forall r | r in t'.rows ensures RowValid(r, t'.nextId, t'.clock) {
        var i :| 0 <= i < |t'.rows| && t'.rows[i] == r;
        assert t.rows[i] in t.rows;
      }
      forall i, j | 0 <= i < j < |t'.rows|
        ensures t'.rows[i].id < t'.rows[j].id && t'.rows[i].createdAt < t'.rows[j].createdAt
      {
        assert t.rows[i].id < t.rows[j].id && t.rows[i].createdAt < t.rows[j].createdAt;
      }
    }
  }

  /**
    `update` sets exactly the supplied columns and stamps `updated_at`; it never
    writes `id` or `created_at` and leaves every other row as it was. It yields
    `null` when nothing but `id`/`created_at` is supplied or the id is unknown,
    and fails when the new severity breaks the CHECK constraint.
  */
  lemma UpdateSetsSuppliedFields(t: Table, id: int, p: Patch)
    requires TableValid(t)
    ensures var (t', r) := UpdateOp(t, id, p);
      && (r == Success(None) <==> !HasFields(p) || forall x :: x in t.rows ==> x.id != id)
      && (r.Success? && r.value.None? ==> t' == t)
      && (r.Failure? ==> t' == t && r.error == CheckViolation)
      && (r.Success? && r.value.Some? ==>
            && t'.nextId == t.nextId && t'.clock == t.clock + 1
            && |t'.rows| == |t.rows|
            && forall k :: 0 <= k < |t.rows| ==>
                 if t.rows[k].id == id then
                   && t'.rows[k] == r.value.value
                   && r.value.value == Apply(t.rows[k], p).(updatedAt := t.clock)
                   && r.value.value.id == t.rows[k].id
                   && r.value.value.createdAt == t.rows[k].createdAt
                   && r.value.value.updatedAt > t.rows[k].updatedAt
                 else t'.rows[k] == t.rows[k])
  {
    var (t', r) := UpdateOp(t, id, p);
    if r.Success? && r.value.Some? {
      var k0 := IndexOfId(t.rows, id).value;
      forall k | 0 <= k < |t.rows| && t.rows[k].id == id ensures k == k0 {
        IdsDistinct(t.rows, k, k0);
      }
    }
  }

  /** `delete(id)`: removes the row with that id and reports whether there was one. */
  function DeleteOp(t: Table, id: int): (res: (Table, bool))
    ensures TableValid(t) ==> TableValid(res.0)
    ensures res.1 <==> exists x :: x in t.rows && x.id == id
    ensures forall x :: x in res.0.rows <==> x in t.rows && x.id != id
    ensures res.0.nextId == t.nextId && res.0.clock == t.clock
  {
    FilterRowsMembers(t.rows, IdOtherThan(id));
    var t' := t.(rows := FilterRows(t.rows, IdOtherThan(id)));
    assert TableValid(t) ==> TableValid(t') by {
      if TableValid(t) { FilterRowsChronological(t.rows, IdOtherThan(id)); }
    }
    (t.(rows := FilterRows(t.rows, IdOtherThan(id))), IndexOfId(t.rows, id).Some?)
  }

  /** `DELETE FROM issues WHERE source = $1`: every row of that source goes, the rest keep their order. */
  function DeleteSourceOp(t: Table, source: string): (res: Table)
    ensures TableValid(t) ==> TableValid(res)
    ensures forall x :: x in res.rows <==> x in t.rows && x.source != source
    ensures res.nextId == t.nextId && res.clock == t.clock
  {
    FilterRowsMembers(t.rows, SourceOtherThan(source));
    var t' := t.(rows := FilterRows(t.rows, SourceOtherThan(source)));
    assert TableValid(t) ==> TableValid(t') by {
      if TableValid(t) { FilterRowsChronological(t.rows, SourceOtherThan(source)); }
    }
    t.(rows := FilterRows(t.rows, SourceOtherThan(source)))
  }

  // ---------------------------------------------------------------------------
  // getTopIssues: ORDER BY (frequency * severity) DESC, created_at DESC LIMIT n
  // ---------------------------------------------------------------------------

  function RankKey(r: Issue): int {
    r.frequency * r.severity
  }

  /** `a` may come before `b` in the ranking. */
  predicate RanksBefore(a: Issue, b: Issue) {
    RankKey(a) > RankKey(b) || (RankKey(a) == RankKey(b) && a.createdAt >= b.createdAt)
  }

  predicate RankSorted(s: seq<Issue>) {
    forall i, j :: 0 <= i < j < |s| ==> RanksBefore(s[i], s[j])
  }

  function Insert(x: Issue, s: seq<Issue>): (r: seq<Issue>)
    requires RankSorted(s)
    ensures RankSorted(r)
    ensures multiset(r) == multiset(s) + multiset{x}
  {
    if s == [] || RanksBefore(x, s[0]) then
      ConsSorted(x, s);
      [x] + s
    else
      var tail := Insert(x, s[1..]);
      assert s == [s[0]] + s[1..];
      HeadRanksFirst(x, s, tail);
      ConsSorted(s[0], tail);
      [s[0]] + tail
  }

  /** A sorted sequence stays sorted under a head that ranks before its first element. */
  lemma ConsSorted(h: Issue, s: seq<Issue>)
    requires RankSorted(s)
    requires s == [] || RanksBefore(h, s[0])
    ensures RankSorted([h] + s)
  {
    var r := [h] + s;
    forall i, j | 0 <= i < j < |r| ensures RanksBefore(r[i], r[j]) {
      if i == 0 {
        assert r[j] == s[j - 1];
        assert RanksBefore(h, s[0]) && (j - 1 == 0 || RanksBefore(s[0], s[j - 1]));
      } else {
        assert r[i] == s[i - 1] && r[j] == s[j - 1];
      }
    }
  }

  /** When `x` does not go first, the old head ranks before everything of the rest with `x` inserted. */
  lemma HeadRanksFirst(x: Issue, s: seq<Issue>, tail: seq<Issue>)
    requires RankSorted(s) && s != [] && !RanksBefore(x, s[0])
    requires multiset(tail) == multiset(s[1..]) + multiset{x}
    ensures tail == [] || RanksBefore(s[0], tail[0])
  {
    if tail != [] {
      var y := tail[0];
      assert y in multiset(tail);
      if y != x {
        assert y in s[1..];
        var j :| 0 <= j < |s[1..]| && s[1..][j] == y;
        assert s[j + 1] == y;
      }
    }
  }

  /** The table's rows in ranking order (an insertion sort). */
  function Ranked(s: seq<Issue>): (r: seq<Issue>)
    ensures RankSorted(r)
    ensures multiset(r) == multiset(s)
  {
    if s == [] then []
    else
      assert s == [s[0]] + s[1..];
      Insert(s[0], Ranked(s[1..]))
  }

  /** `getTopIssues(limit)`. */
  function TopOp(t: Table, limit: int): Result<seq<Issue>, StoreError> {
    if limit < 0 then Failure(InvalidRowCount)
    else
      var ranked := Ranked(t.rows);
      Success(if limit < |ranked| then ranked[..limit] else ranked)
  }

  /** In a ranking-sorted sequence, everything in a prefix ranks before everything after it. */
  lemma PrefixRanksFirst(s: seq<Issue>, k: nat)
    requires RankSorted(s) && k <= |s|
    ensures forall x, y :: x in s[..k] && y in s && y !in s[..k] ==> RanksBefore(x, y)
  {
    forall x, y | x in s[..k] && y in s && y !in s[..k] ensures RanksBefore(x, y) {
      var i :| 0 <= i < k && s[..k][i] == x;
      var j :| 0 <= j < |s| && s[j] == y;
      forall m | 0 <= m < k ensures s[..k][m] == s[m] {}
      assert j >= k;
      assert s[i] == x;
    }
  }

  /**
    The top issues are at most `limit` rows of the table in ranking order,
    and every row left out ranks no higher than every row returned.
  */
  lemma TopIssuesAreTop(t: Table, limit: int)
    requires limit >= 0
    ensures TopOp(t, limit).Success?
    ensures var r := TopOp(t, limit).value;
      && |r| == (if limit < |t.rows| then limit else |t.rows|)
      && RankSorted(r)
      && multiset(r) <= multiset(t.rows)
      && forall x, y :: x in r && y in t.rows && y !in r ==> RanksBefore(x, y)
  {
    var ranked := Ranked(t.rows);
    assert |ranked| == |multiset(ranked)| == |multiset(t.rows)| == |t.rows|;
    var k := if limit < |ranked| then limit else |ranked|;
    assert TopOp(t, limit).value == ranked[..k];
    PrefixOfRanking(ranked, k);
    TopDominates(t, k);
  }

  /** A prefix of a ranking-sorted sequence is sorted and takes rows from it. */
  lemma PrefixOfRanking(s: seq<Issue>, k: nat)
    requires RankSorted(s) && k <= |s|
    ensures RankSorted(s[..k]) && multiset(s[..k]) <= multiset(s)
  {
    assert s == s[..k] + s[k..];
    assert multiset(s) == multiset(s[..k]) + multiset(s[k..]);
  }

  /** Every row outside the first `k` of the ranking ranks no higher than every row inside. */
  lemma TopDominates(t: Table, k: nat)
    requires k <= |Ranked(t.rows)|
    ensures var ranked := Ranked(t.rows);
      forall x, y :: x in ranked[..k] && y in t.rows && y !in ranked[..k] ==> RanksBefore(x, y)
  {
    var ranked := Ranked(t.rows);
    PrefixRanksFirst(ranked, k);
    forall y | y in t.rows ensures y in ranked {
      assert y in multiset(t.rows);
    }
  }

  /** Two positions of a sequence hold different values when the first value occurs once. */
  lemma DistinctPositions(s: seq<Issue>, i: nat, j: nat)
    requires i < j < |s| && multiset(s)[s[i]] == 1
    ensures s[i] != s[j]
  {
    assert s == s[..j] + s[j..];
    assert s[i] == s[..j][i];
    assert s[j] == s[j..][0];
    assert multiset(s) == multiset(s[..j]) + multiset(s[j..]);
  }

  /** A row of a chronological table occurs in it exactly once. */
  lemma CountOfDistinctRows(rows: seq<Issue>, a: nat)
    requires Chronological(rows) && a < |rows|
    ensures multiset(rows)[rows[a]] == 1
  {
    var x := rows[a];
    assert rows == rows[..a] + [x] + rows[a + 1..];
    forall i | 0 <= i < a ensures rows[i] != x {}
    forall i | a < i < |rows| ensures rows[i] != x {}
    assert x !in rows[..a];
    assert x !in rows[a + 1..];
    assert multiset(rows) == multiset(rows[..a]) + multiset{x} + multiset(rows[a + 1..]);
  }

  /** With distinct creation times (every valid table), the ranking order is strict. */
  lemma RankingStrict(t: Table)
    requires TableValid(t)
    ensures forall i, j :: 0 <= i < j < |Ranked(t.rows)| ==>
      || RankKey(Ranked(t.rows)[i]) > RankKey(Ranked(t.rows)[j])
      || (&& RankKey(Ranked(t.rows)[i]) == RankKey(Ranked(t.rows)[j])
          && Ranked(t.rows)[i].createdAt > Ranked(t.rows)[j].createdAt)
  {
    var ranked := Ranked(t.rows);
    forall i, j | 0 <= i < j < |ranked|
      ensures || RankKey(ranked[i]) > RankKey(ranked[j])
              || (RankKey(ranked[i]) == RankKey(ranked[j]) && ranked[i].createdAt > ranked[j].createdAt)
    {
      RankedTimesDiffer(t, i, j);
    }
  }

  /** Two positions of the ranking of a valid table hold rows with different creation times. */
  lemma RankedTimesDiffer(t: Table, i: nat, j: nat)
    requires TableValid(t) && i < j < |Ranked(t.rows)|
    ensures Ranked(t.rows)[i].createdAt != Ranked(t.rows)[j].createdAt
  {
    var ranked := Ranked(t.rows);
    PermutedRowsDistinct(t.rows, ranked, i, j);
    assert ranked[i] in multiset(t.rows) && ranked[j] in multiset(t.rows);
    TimesIdentifyRows(t.rows, ranked[i], ranked[j]);
  }

  /** A permutation of a chronological table holds different rows at different positions. */
  lemma PermutedRowsDistinct(rows: seq<Issue>, s: seq<Issue>, i: nat, j: nat)
    requires Chronological(rows) && multiset(s) == multiset(rows) && i < j < |s|
    ensures s[i] != s[j]
  {
    assert s[i] in multiset(rows);
    var a :| 0 <= a < |rows| && rows[a] == s[i];
    CountOfDistinctRows(rows, a);
    DistinctPositions(s, i, j);
  }

  /** Different rows of a chronological table have different creation times. */
  lemma TimesIdentifyRows(rows: seq<Issue>, x: Issue, y: Issue)
    requires Chronological(rows) && x in rows && y in rows && x != y
    ensures x.createdAt != y.createdAt
  {
    var a :| 0 <= a < |rows| && rows[a] == x;
    var b :| 0 <= b < |rows| && rows[b] == y;
    assert a != b;
  }

  // ---------------------------------------------------------------------------
  // The store object
  // ---------------------------------------------------------------------------

  /** IssueModel: the table lives in fields that the write methods update in place. */
  class Store {
    var rows: seq<Issue>
    var nextId: nat
    var clock: nat

    function State(): Table
      reads this
    {
      Table(rows, nextId, clock)
    }

    predicate Valid()
      reads this
    {
      TableValid(State())
    }

    constructor ()
      ensures Valid()
      ensures State() == EmptyTable
    {
      rows, nextId, clock := [], 1, 0;
    }

    /** findAll: pushes one condition per truthy filter, then runs the query. */
    method FindAll(f: Filter) returns (r: Result<seq<Issue>, StoreError>)
      requires Valid()
      ensures r == Query(State(), f)
    {
      var conditions: seq<Condition> := [];
      if Truthy(f.source) {
        conditions := conditions + [SourceIs(f.source.value)];
      }
      if Truthy(f.status) {
        conditions := conditions + [StatusIs(f.status.value)];
      }
      if TruthyInt(f.severity) {
        conditions := conditions + [SeverityIs(f.severity.value)];
      }
      if Truthy(f.issueType) {
        conditions := conditions + [TypeIs(f.issueType.value)];
      }
      if !RowCountsOk(f) {
        return Failure(InvalidRowCount);
      }
      forall x | x in rows ensures Passes(SatisfiesAll(conditions), x) <==> Passes(MatchesFilter(f), x) {
        if Truthy(f.source) { assert SourceIs(f.source.value) in conditions; }
        if Truthy(f.status) { assert StatusIs(f.status.value) in conditions; }
        if TruthyInt(f.severity) { assert SeverityIs(f.severity.value) in conditions; }
        if Truthy(f.issueType) { assert TypeIs(f.issueType.value) in conditions; }
      }
      FilterRowsAgree(rows, SatisfiesAll(conditions), MatchesFilter(f));
      var matching := Reverse(FilterRows(rows, SatisfiesAll(conditions)));
      r := Success(Page(matching, f.limit, f.offset));
    }

    method FindById(id: int) returns (r: Option<Issue>)
      requires Valid()
      ensures r.Some? <==> exists x :: x in rows && x.id == id
      ensures r.Some? ==> r.value in rows && r.value.id == id
    {
      match IndexOfId(rows, id)
      case None => r := None;
      case Some(k) => r := Some(rows[k]);
    }

    method Create(n: NewIssue) returns (r: Result<Issue, StoreError>)
      requires Valid()
      modifies this
      ensures Valid()
      ensures (State(), r) == CreateOp(old(State()), n)
    {
      var res := CreateOp(State(), n);
      rows, nextId, clock := res.0.rows, res.0.nextId, res.0.clock;
      r := res.1;
    }

    method Update(id: int, p: Patch) returns (r: Result<Option<Issue>, StoreError>)
      requires Valid()
      modifies this
      ensures Valid()
      ensures (State(), r) == UpdateOp(old(State()), id, p)
    {
      var res := UpdateOp(State(), id, p);
      rows, nextId, clock := res.0.rows, res.0.nextId, res.0.clock;
      r := res.1;
    }

    method Delete(id: int) returns (deleted: bool)
      requires Valid()
      modifies this
      ensures Valid()
      ensures (State(), deleted) == DeleteOp(old(State()), id)
    {
      var res := DeleteOp(State(), id);
      rows := res.0.rows;
      deleted := res.1;
    }

    /** The raw `DELETE ... WHERE source = $1` statement the HubSpot sync issues. */
    method DeleteWhereSource(source: string)
      requires Valid()
      modifies this
      ensures Valid()
      ensures State() == DeleteSourceOp(old(State()), source)
    {
      rows := DeleteSourceOp(State(), source).rows;
    }

    method GetTopIssues(limit: int) returns (r: Result<seq<Issue>, StoreError>)
      requires Valid()
      ensures r == TopOp(State(), limit)
    {
      r := TopOp(State(), limit);
    }
  }
}
