/**
  The linkage enricher of server/src/services/jiraService.ts. The resolver is
  a fixed table from issue titles to Jira keys and statuses; the batch pass
  overwrites the three Jira columns of every issue it is given, whether or
  not a match is found.
*/
module JiraService {
  import opened Wrappers
  import opened IssueModel

  /** A Jira issue as the match table names it. */
  datatype JiraRef = JiraRef(key: string, status: string)

  /** The title table of findMatchingJiraIssue. */
  const MockMatches: map<string, JiraRef> := map[
    "App crashes on iOS 17" := JiraRef("PROJ-123", "In Progress"),
    "Payment processing errors" := JiraRef("PROJ-456", "To Do"),
    "Login button not working" := JiraRef("PROJ-789", "Done"),
    "Database connection timeout" := JiraRef("PROJ-101", "In Progress"),
    "Dark mode support requested" := JiraRef("PROJ-202", "Backlog"),
    "Mobile app push notifications" := JiraRef("PROJ-303", "To Do"),
    "Integration with CRM systems" := JiraRef("PROJ-404", "Backlog"),
    "Advanced search filters" := JiraRef("PROJ-505", "To Do")
  ]

  /** The key table of getJiraIssueStatus. */
  const MockStatuses: map<string, string> := map[
    "PROJ-123" := "In Progress",
    "PROJ-456" := "To Do",
    "PROJ-789" := "Done",
    "PROJ-101" := "In Progress",
    "PROJ-202" := "Backlog",
    "PROJ-303" := "To Do",
    "PROJ-404" := "Backlog",
    "PROJ-505" := "To Do"
  ]

  /**
    The names every JavaScript object inherits from `Object.prototype`.
    Indexing either table with one of them yields the inherited member,
    which is truthy, instead of `undefined`.
  */
  const InheritedNames: set<string> := {
    "constructor", "hasOwnProperty", "isPrototypeOf", "propertyIsEnumerable",
    "toLocaleString", "toString", "valueOf", "__proto__",
    "__defineGetter__", "__defineSetter__", "__lookupGetter__", "__lookupSetter__"
  }

  /** The result of findMatchingJiraIssue: `{exists, issueKey?, status?}`. */
  datatype JiraMatch = JiraMatch(found: bool, issueKey: Option<string>, status: Option<string>)

  /**
    findMatchingJiraIssue: a lookup of the title in an object literal. An own
    entry gives its key and status; an inherited member is truthy too, and
    gives `exists: true` with neither a key nor a status.
  */
  function FindMatchingJiraIssue(issue: Issue): (m: JiraMatch)
    ensures m.found <==> issue.title in MockMatches || issue.title in InheritedNames
    ensures issue.title in MockMatches ==>
      m.issueKey == Some(MockMatches[issue.title].key) && m.status == Some(MockMatches[issue.title].status)
    ensures issue.title !in MockMatches ==> m.issueKey.None? && m.status.None?
  {
    if issue.title in MockMatches then
      JiraMatch(true, Some(MockMatches[issue.title].key), Some(MockMatches[issue.title].status))
    else if issue.title in InheritedNames then JiraMatch(true, None, None)
    else JiraMatch(false, None, None)
  }

  /** The value getJiraIssueStatus returns: a string, or an inherited member of the table. */
  datatype StatusValue = Text(text: string) | InheritedMember(name: string)

  /** getJiraIssueStatus: `mockStatuses[issueKey] || 'Unknown'`. */
  function GetJiraIssueStatus(issueKey: string): (status: StatusValue)
    ensures status.Text? ==> status.text != ""
    ensures issueKey in MockStatuses ==> status == Text(MockStatuses[issueKey])
    ensures issueKey in InheritedNames ==> status == InheritedMember(issueKey)
    ensures issueKey !in MockStatuses && issueKey !in InheritedNames ==> status == Text("Unknown")
  {
    if issueKey in MockStatuses && MockStatuses[issueKey] != "" then Text(MockStatuses[issueKey])
    else if issueKey in InheritedNames then InheritedMember(issueKey)
    else Text("Unknown")
  }

  /** The two tables agree: the status a title match carries is the status its key reports. */
  lemma TablesAgree(title: string)
    requires title in MockMatches
    ensures MockMatches[title].key in MockStatuses
    ensures GetJiraIssueStatus(MockMatches[title].key) == Text(MockMatches[title].status)
  {
  }

  /**
    The update the pass issues: on a match with a key, the key and the status
    (or 'Unknown'); otherwise `jira_exists = false` with the key and status
    passed as `undefined`, which the driver writes as NULL.
  */
  function JiraPatch(m: JiraMatch): Patch {
    if m.found && Truthy(m.issueKey) then
      EmptyPatch.(jiraExists := Some(Some(true)),
                  jiraIssueKey := Some(m.issueKey),
                  jiraStatus := Some(Some(if Truthy(m.status) then m.status.value else "Unknown")))
    else
      EmptyPatch.(jiraExists := Some(Some(false)), jiraIssueKey := Some(None), jiraStatus := Some(None))
  }

  /** Applying the update writes the three Jira columns and nothing else. */
  lemma JiraPatchColumns(r: Issue, m: JiraMatch)
    ensures HasFields(JiraPatch(m))
    ensures var u := Apply(r, JiraPatch(m));
      && u == r.(jiraExists := u.jiraExists, jiraIssueKey := u.jiraIssueKey, jiraStatus := u.jiraStatus)
      && (m.found && Truthy(m.issueKey) ==>
            && u.jiraExists == Some(true) && u.jiraIssueKey == m.issueKey
            && u.jiraStatus == Some(if Truthy(m.status) then m.status.value else "Unknown"))
      && (!(m.found && Truthy(m.issueKey)) ==>
            u.jiraExists == Some(false) && u.jiraIssueKey.None? && u.jiraStatus.None?)
  {
  }

  /** The Jira columns the pass leaves on an issue whose snapshot had this title. */
  predicate LinkedAsTitle(r: Issue, title: string) {
    if title in MockMatches then
      && r.jiraExists == Some(true)
      && r.jiraIssueKey == Some(MockMatches[title].key)
      && r.jiraStatus == Some(MockMatches[title].status)
    else
      r.jiraExists == Some(false) && r.jiraIssueKey.None? && r.jiraStatus.None?
  }

  /** `after` differs from `before` at most in the Jira columns and the stamp. */
  predicate SameButJira(before: Issue, after: Issue) {
    after == before.(jiraExists := after.jiraExists, jiraIssueKey := after.jiraIssueKey,
                     jiraStatus := after.jiraStatus, updatedAt := after.updatedAt)
  }

  /** One iteration of processIssuesForJiraMatches; a failed update is caught and ignored. */
  function LinkOne(t: Table, issue: Issue): Table {
    UpdateOp(t, issue.id, JiraPatch(FindMatchingJiraIssue(issue))).0
  }

  /** processIssuesForJiraMatches over a batch of issue snapshots, in order. */
  function Link(t: Table, issues: seq<Issue>): (t': Table)
    ensures TableValid(t) ==> TableValid(t')
    decreases |issues|
  {
    if issues == [] then t
    else LinkOne(Link(t, issues[..|issues| - 1]), issues[|issues| - 1])
  }

  /** The title of the last snapshot in the batch with this id: the one whose update wins. */
  function LastTitleFor(issues: seq<Issue>, id: int): (title: Option<string>)
    ensures title.None? <==> forall x :: x in issues ==> x.id != id
    ensures title.Some? ==> (exists k :: 0 <= k < |issues| && issues[k].id == id && issues[k].title == title.value &&
                              forall j :: k < j < |issues| ==> issues[j].id != id)
    decreases |issues|
  {
    if issues == [] then None
    else if issues[|issues| - 1].id == id then Some(issues[|issues| - 1].title)
    else
      var init := issues[..|issues| - 1];
      assert issues == init + [issues[|issues| - 1]];
      var title := LastTitleFor(init, id);
      if title.Some? then
        var k :| 0 <= k < |init| && init[k].id == id && init[k].title == title.value &&
          forall j :: k < j < |init| ==> init[j].id != id;
        assert issues[k] == init[k];
        assert forall j :: k < j < |issues| ==> issues[j].id != id by {
          forall j | k < j < |issues| ensures issues[j].id != id {
            if j < |init| { assert issues[j] == init[j]; }
          }
        }
        title
      else title
  }

  /** One snapshot: the row with its id gets the Jira columns of its title; nothing else changes. */
  lemma LinkOneEffect(t: Table, issue: Issue)
    requires TableValid(t)
    ensures var t' := LinkOne(t, issue);
      && |t'.rows| == |t.rows| && t'.nextId == t.nextId
      && forall k :: 0 <= k < |t.rows| ==>
           if t.rows[k].id == issue.id then SameButJira(t.rows[k], t'.rows[k]) && LinkedAsTitle(t'.rows[k], issue.title)
           else t'.rows[k] == t.rows[k]
  {
    var p := JiraPatch(FindMatchingJiraIssue(issue));
    UpdateSetsSuppliedFields(t, issue.id, p);
    forall k | 0 <= k < |t.rows| && t.rows[k].id == issue.id
      ensures var u := Apply(t.rows[k], p).(updatedAt := t.clock);
        SameButJira(t.rows[k], u) && LinkedAsTitle(u, issue.title) && u.severity == t.rows[k].severity
    {
      LinkedColumns(t.rows[k], issue, t.clock);
    }
    if IndexOfId(t.rows, issue.id).Some? {
      var k := IndexOfId(t.rows, issue.id).value;
      assert t.rows[k] in t.rows;
    }
  }

  /** The pass's update of one row: only the Jira columns and the stamp change, to the values of the title. */
  lemma LinkedColumns(r: Issue, issue: Issue, stamp: nat)
    ensures var u := Apply(r, JiraPatch(FindMatchingJiraIssue(issue))).(updatedAt := stamp);
      SameButJira(r, u) && LinkedAsTitle(u, issue.title) && u.severity == r.severity
  {
    var m := FindMatchingJiraIssue(issue);
    JiraPatchColumns(r, m);
    if issue.title in MockMatches {
      MatchKeysNonEmpty(issue.title);
    }
  }

  /**
    A title naming an inherited member counts as found, yet brings no key, so
    the pass unlinks its row like any title without a match.
  */
  lemma InheritedTitleUnlinks(r: Issue, issue: Issue, stamp: nat)
    requires issue.title in InheritedNames
    ensures FindMatchingJiraIssue(issue).found
    ensures var u := Apply(r, JiraPatch(FindMatchingJiraIssue(issue))).(updatedAt := stamp);
      SameButJira(r, u) && u.jiraExists == Some(false) && u.jiraIssueKey.None? && u.jiraStatus.None?
  {
    InheritedNamesUnmatched(issue.title);
    LinkedColumns(r, issue, stamp);
  }

  /** No inherited name is a title of the match table: every title there is longer than 20 characters. */
  lemma InheritedNamesUnmatched(title: string)
    requires title in InheritedNames
    ensures title !in MockMatches
  {
    assert |title| <= 20;
    forall key | key in MockMatches ensures |key| > 20 {
    }
  }

  /** Every key and status in the match table is a non-empty string. */
  lemma MatchKeysNonEmpty(title: string)
    requires title in MockMatches
    ensures MockMatches[title].key != "" && MockMatches[title].status != ""
  {
  }

  /**
    After the pass, the Jira columns of each row are decided by the last
    snapshot of the batch with its id: linked to the table's key and status
    when that title is in the match table, `false` with key and status cleared
    otherwise, whatever they were before. A row no snapshot names is untouched,
    and no other column changes.
  */
  lemma {:induction false} LinkEffect(t: Table, issues: seq<Issue>)
    requires TableValid(t)
    ensures var t' := Link(t, issues);
      && |t'.rows| == |t.rows| && t'.nextId == t.nextId
      && forall k :: 0 <= k < |t.rows| ==>
           match LastTitleFor(issues, t.rows[k].id)
           case None => t'.rows[k] == t.rows[k]
           case Some(title) => SameButJira(t.rows[k], t'.rows[k]) && LinkedAsTitle(t'.rows[k], title)
    decreases |issues|
  {
    if issues != [] {
      var init := issues[..|issues| - 1];
      var last := issues[|issues| - 1];
      LinkEffect(t, init);
      var mid := Link(t, init);
      LinkOneEffect(mid, last);
    }
  }

  /**
    Running the pass twice over the same batch leaves every row as running it
    once does, apart from `updated_at`.
  */
  lemma LinkTwiceIsLinkOnce(t: Table, issues: seq<Issue>)
    requires TableValid(t)
    ensures var once := Link(t, issues);
      var twice := Link(once, issues);
      && |twice.rows| == |once.rows| && twice.nextId == once.nextId
      && forall k :: 0 <= k < |once.rows| ==> twice.rows[k] == once.rows[k].(updatedAt := twice.rows[k].updatedAt)
  {
    var once := Link(t, issues);
    LinkEffect(t, issues);
    LinkEffect(once, issues);
    var twice := Link(once, issues);
    forall k | 0 <= k < |once.rows|
      ensures twice.rows[k] == once.rows[k].(updatedAt := twice.rows[k].updatedAt)
    {
      assert once.rows[k].id == t.rows[k].id;
    }
  }

  /**
    The pass can unlink: an issue linked earlier whose title is not in the
    match table ends with `jira_exists = false` and no key or status.
  */
  lemma PassCanUnlink(t: Table, issue: Issue)
    requires TableValid(t) && issue in t.rows
    requires issue.jiraExists == Some(true) && issue.title !in MockMatches
    ensures var t' := Link(t, [issue]);
      |t'.rows| == |t.rows| && forall k :: 0 <= k < |t.rows| && t.rows[k] == issue ==>
        t'.rows[k].jiraExists == Some(false) && t'.rows[k].jiraIssueKey.None? && t'.rows[k].jiraStatus.None?
  {
    LinkEffect(t, [issue]);
  }

  /** processIssuesForJiraMatches. */
  method ProcessIssuesForJiraMatches(store: Store, issues: seq<Issue>)
    requires store.Valid()
    modifies store
    ensures store.Valid()
    ensures store.State() == Link(old(store.State()), issues)
  {
    var i := 0;
    while i < |issues|
      invariant 0 <= i <= |issues|
      invariant store.Valid()
      invariant store.State() == Link(old(store.State()), issues[..i])
    {
      var issue := issues[i];
      var m := FindMatchingJiraIssue(issue);
      var _ := store.Update(issue.id, JiraPatch(m));
      assert issues[..i + 1][..i] == issues[..i];
      i := i + 1;
    }
    assert issues[..|issues|] == issues;
  }

  /** The query of processAllExistingIssues: `findAll({limit: 1000})`. */
  const AllIssues: Filter := NoFilter.(limit := Some(1000))

  /** processAllExistingIssues passes at most 1000 stored issues, and all of them when there are no more. */
  lemma AllIssuesCoverage(t: Table)
    requires TableValid(t)
    ensures Query(t, AllIssues).Success?
    ensures |Query(t, AllIssues).value| <= 1000
    ensures forall x :: x in Query(t, AllIssues).value ==> x in t.rows
    ensures |t.rows| <= 1000 ==> forall x :: x in t.rows ==> x in Query(t, AllIssues).value
  {
    FindAllSound(t, AllIssues);
    FindAllComplete(t, NoFilter);
    FilterRowsAgree(t.rows, MatchesFilter(AllIssues), MatchesFilter(NoFilter));
    var m := Matching(t, AllIssues);
    assert m == Matching(t, NoFilter);
    assert Query(t, NoFilter).value == m;
    if |t.rows| <= 1000 {
      assert Query(t, AllIssues).value == m;
    }
  }

  /** processAllExistingIssues. */
  method ProcessAllExistingIssues(store: Store)
    requires store.Valid()
    modifies store
    ensures store.Valid()
    ensures store.State() == Link(old(store.State()), Query(old(store.State()), AllIssues).value)
  {
    var allIssues := store.FindAll(AllIssues);
    match allIssues {
      case Success(issues) =>
        ProcessIssuesForJiraMatches(store, issues);
      case Failure(_) =>
    }
  }
}
