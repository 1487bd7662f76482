/**
  The summary cards of client/src/pages/Dashboard.tsx, computed from the list
  that `GET /api/issues/top?limit=10` returns. The average is kept as an
  exact `real`; its rounding to one decimal is display formatting.
*/
module Dashboard {
  import opened Wrappers
  import opened IssueModel

  /** `severity >= 4`. */
  predicate Critical(r: Issue) {
    r.severity >= 4
  }

  /** `issues.filter(issue => issue.severity >= 4).length`. */
  function CountCritical(issues: seq<Issue>): (n: nat)
    ensures n <= |issues|
  {
    if issues == [] then 0
    else (if Critical(issues[0]) then 1 else 0) + CountCritical(issues[1..])
  }

  /** `issues.filter(issue => issue.status === 'open').length`. */
  function CountOpen(issues: seq<Issue>): (n: nat)
    ensures n <= |issues|
  {
    if issues == [] then 0
    else (if issues[0].status == "open" then 1 else 0) + CountOpen(issues[1..])
  }

  /** `issues.reduce((sum, issue) => sum + issue.severity, 0)`. */
  function SeveritySum(issues: seq<Issue>): int {
    if issues == [] then 0 else issues[0].severity + SeveritySum(issues[1..])
  }

  datatype Stats = Stats(totalIssues: nat, criticalIssues: nat, openIssues: nat, avgSeverity: real)

  /** The stats object, before the average is rounded for display. */
  function ComputeStats(issues: seq<Issue>): (s: Stats)
    ensures s.totalIssues == |issues|
    ensures s.criticalIssues <= s.totalIssues && s.openIssues <= s.totalIssues
    ensures issues == [] ==> s.avgSeverity == 0.0
  {
    var total := |issues|;
    Stats(total, CountCritical(issues), CountOpen(issues),
          if total > 0 then SeveritySum(issues) as real / total as real else 0.0)
  }

  /** Counting a concatenation counts each part. */
  lemma {:induction false} CountsAppend(a: seq<Issue>, b: seq<Issue>)
    ensures CountCritical(a + b) == CountCritical(a) + CountCritical(b)
    ensures CountOpen(a + b) == CountOpen(a) + CountOpen(b)
    ensures SeveritySum(a + b) == SeveritySum(a) + SeveritySum(b)
    decreases |a|
  {
    if a == [] {
      assert a + b == b;
    } else {
      assert (a + b)[0] == a[0] && (a + b)[1..] == a[1..] + b;
      CountsAppend(a[1..], b);
    }
  }

  /** The critical count is the list length exactly when every issue is critical, and 0 exactly when none is. */
  lemma {:induction false} CriticalCountExtremes(issues: seq<Issue>)
    ensures CountCritical(issues) == |issues| <==> forall x :: x in issues ==> Critical(x)
    ensures CountCritical(issues) == 0 <==> forall x :: x in issues ==> !Critical(x)
  {
    if issues != [] {
      CriticalCountExtremes(issues[1..]);
      assert forall x :: x in issues <==> x == issues[0] || x in issues[1..];
    }
  }

  /** The open count is the list length exactly when every issue is open, and 0 exactly when none is. */
  lemma {:induction false} OpenCountExtremes(issues: seq<Issue>)
    ensures CountOpen(issues) == |issues| <==> forall x :: x in issues ==> x.status == "open"
    ensures CountOpen(issues) == 0 <==> forall x :: x in issues ==> x.status != "open"
  {
    if issues != [] {
      OpenCountExtremes(issues[1..]);
      assert forall x :: x in issues <==> x == issues[0] || x in issues[1..];
    }
  }

  /** With every severity in [1,5], the sum lies between once and five times the count. */
  lemma {:induction false} SeveritySumBounds(issues: seq<Issue>)
    requires forall x :: x in issues ==> ValidSeverity(x.severity)
    ensures |issues| <= SeveritySum(issues) <= 5 * |issues|
  {
    if issues != [] {
      assert issues[0] in issues;
      assert forall x :: x in issues[1..] ==> x in issues;
      SeveritySumBounds(issues[1..]);
    }
  }

  /** The average of a non-empty list of valid issues lies in [1,5]. */
  lemma AverageInRange(issues: seq<Issue>)
    requires issues != []
    requires forall x :: x in issues ==> ValidSeverity(x.severity)
    ensures 1.0 <= ComputeStats(issues).avgSeverity <= 5.0
  {
    SeveritySumBounds(issues);
    MeanBounds(SeveritySum(issues), |issues|);
  }

  /** A total between once and five times a positive count has a mean in [1,5]. */
  lemma MeanBounds(sum: int, n: int)
    requires 0 < n <= sum <= 5 * n
    ensures 1.0 <= sum as real / n as real <= 5.0
  {
    var q := sum as real / n as real;
    var nr := n as real;
    assert q * nr == sum as real;
    assert (5 * n) as real == 5.0 * nr;
    ScaleOrder(1.0, q, nr);
    ScaleOrder(q, 5.0, nr);
  }

  /** Scaling by a positive factor keeps the order. */
  lemma ScaleOrder(a: real, b: real, c: real)
    requires c > 0.0
    ensures a <= b <==> a * c <= b * c
  {
  }

  /**
    On the dashboard's own request (limit 10) over a valid store: at most ten
    issues are counted, the counts are bounded by that total, and the
    average is 0 on an empty store and within [1,5] otherwise.
  */
  lemma DashboardOfTopTen(t: Table)
    requires TableValid(t)
    ensures TopOp(t, 10).Success?
    ensures var s := ComputeStats(TopOp(t, 10).value);
      && s.totalIssues == (if 10 < |t.rows| then 10 else |t.rows|)
      && s.criticalIssues <= s.totalIssues && s.openIssues <= s.totalIssues
      && (t.rows == [] ==> s.avgSeverity == 0.0)
      && (t.rows != [] ==> 1.0 <= s.avgSeverity <= 5.0)
  {
    TopIssuesAreTop(t, 10);
    var r := TopOp(t, 10).value;
    forall x | x in r ensures ValidSeverity(x.severity) {
      assert x in multiset(r);
      assert x in t.rows;
    }
    if t.rows != [] {
      AverageInRange(r);
    }
  }
}
