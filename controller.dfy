/**
  The request handling of server/src/controllers/issueController.ts: the id
  parsing, the validation and defaults of a manual create, the stripping of
  protected fields before an update, and the default limit of the top-issues
  route. Express's `req`/`res` become a request value and a `Reply`.
*/
module IssueController {
  import opened Wrappers
  import opened IssueModel
  import opened JsText

  /** What a handler sends back: the success payloads and the error statuses. */
  datatype Reply =
    | Listed(issues: seq<Issue>)
    | Found(issue: Issue)
    | CreatedIssue(issue: Issue)
    | UpdatedIssue(issue: Issue)
    | DeletedIssue
    | Failed(status: nat, message: string)

  const InvalidId: Reply := Failed(400, "Invalid issue ID")
  const NotFound: Reply := Failed(404, "Issue not found")
  const InternalError: Reply := Failed(500, "Internal server error")

  // ---------------------------------------------------------------------------
  // createIssue
  // ---------------------------------------------------------------------------

  /** A JSON value where only "is it a boolean" matters (`jira_exists`). */
  datatype JsonValue = JsonBool(b: bool) | JsonOther

  /** The fields createIssue reads from the request body; a missing key is `None`. */
  datatype CreateBody = CreateBody(
    title: Option<string>,
    description: Option<string>,
    source: Option<string>,
    sourceId: Option<string>,
    severity: Option<int>,
    frequency: Option<int>,
    status: Option<string>,
    tags: Option<seq<string>>,
    issueType: Option<string>,
    jiraExists: Option<JsonValue>)

  const TitleAndSourceRequired := "Title and source are required"
  const SeverityOutOfRange := "Severity must be between 1 and 5"

  /** `typeof jira_exists === 'boolean' ? jira_exists : false`. */
  function JiraFlag(v: Option<JsonValue>): (b: bool)
    ensures b <==> v == Some(JsonBool(true))
  {
    if v.Some? && v.value.JsonBool? then v.value.b else false
  }

  /**
    The validation and default filling of createIssue: the issue record to
    create, or the 400 message. A missing or empty title or source is
    refused first; then a truthy severity outside [1,5].
  */
  function ValidateCreate(body: CreateBody): (r: Result<NewIssue, string>)
    ensures r == Failure(TitleAndSourceRequired) <==> !Truthy(body.title) || !Truthy(body.source)
    ensures r == Failure(SeverityOutOfRange) <==>
      && Truthy(body.title) && Truthy(body.source)
      && TruthyInt(body.severity) && (body.severity.value < 1 || body.severity.value > 5)
    ensures r.Failure? ==> r.error == TitleAndSourceRequired || r.error == SeverityOutOfRange
  {
    if !Truthy(body.title) || !Truthy(body.source) then Failure(TitleAndSourceRequired)
    else if TruthyInt(body.severity) && (body.severity.value < 1 || body.severity.value > 5) then
      Failure(SeverityOutOfRange)
    else
      Success(NewIssue(
        body.title.value,
        body.description,
        body.source.value,
        body.sourceId,
        OrOne(body.severity),
        OrOne(body.frequency),
        StringOr(body.status, "open"),
        Some(StringOr(body.issueType, "bug")),
        ValueOr(body.tags, []),
        Some(JiraFlag(body.jiraExists)),
        None))
  }

  /** Every accepted create request carries a severity in [1,5]; 0 or none becomes 1. */
  lemma AcceptedSeverityInRange(body: CreateBody)
    requires ValidateCreate(body).Success?
    ensures ValidSeverity(ValidateCreate(body).value.severity)
    ensures !TruthyInt(body.severity) ==> ValidateCreate(body).value.severity == 1
    ensures TruthyInt(body.severity) ==> ValidateCreate(body).value.severity == body.severity.value
  {
  }

  /**
    The defaults: frequency 1, status 'open', tags [], type 'bug'; `jira_exists`
    is the supplied boolean or false; the title, source, description and
    source id are passed on as given.
  */
  lemma CreateDefaults(body: CreateBody)
    requires ValidateCreate(body).Success?
    ensures var n := ValidateCreate(body).value;
      && n.title == body.title.value && n.source == body.source.value
      && n.description == body.description && n.sourceId == body.sourceId
      && n.frequency == (if TruthyInt(body.frequency) then body.frequency.value else 1)
      && n.status == (if Truthy(body.status) then body.status.value else "open")
      && n.tags == (if body.tags.Some? then body.tags.value else [])
      && n.issueType == Some(if Truthy(body.issueType) then body.issueType.value else "bug")
      && n.jiraExists == Some(body.jiraExists == Some(JsonBool(true)))
      && n.createdAt.None?
  {
  }

  /** An accepted create request is always stored: the severity check of the table cannot fail it. */
  lemma AcceptedCreateSucceeds(t: Table, body: CreateBody)
    requires ValidateCreate(body).Success?
    ensures CreateOp(t, ValidateCreate(body).value).1.Success?
  {
    AcceptedSeverityInRange(body);
  }

  /** createIssue: a refused request is a 400 and stores nothing; otherwise the record is created. */
  method CreateIssue(store: Store, body: CreateBody) returns (reply: Reply)
    requires store.Valid()
    modifies store
    ensures store.Valid()
    ensures ValidateCreate(body).Failure? ==>
      reply == Failed(400, ValidateCreate(body).error) && store.State() == old(store.State())
    ensures ValidateCreate(body).Success? ==>
      var (t', r) := CreateOp(old(store.State()), ValidateCreate(body).value);
      store.State() == t' && r.Success? && reply == CreatedIssue(r.value)
  {
    var issueData := ValidateCreate(body);
    match issueData {
      case Failure(message) =>
        return Failed(400, message);
      case Success(n) =>
        AcceptedCreateSucceeds(store.State(), body);
        var created := store.Create(n);
        match created {
          case Success(issue) => reply := CreatedIssue(issue);
          case Failure(_) => reply := InternalError;
        }
    }
  }

  // ---------------------------------------------------------------------------
  // getIssueById, updateIssue, deleteIssue
  // ---------------------------------------------------------------------------

  /** getIssueById: a non-numeric id is a 400, an unknown one a 404. */
  method GetIssueById(store: Store, idParam: string) returns (reply: Reply)
    requires store.Valid()
    ensures ParseInt(idParam).None? <==> reply == InvalidId
    ensures reply == NotFound <==>
      ParseInt(idParam).Some? && forall x :: x in store.rows ==> x.id != ParseInt(idParam).value
    ensures reply.Found? <==> ParseInt(idParam).Some? && exists x :: x in store.rows && x.id == ParseInt(idParam).value
    ensures reply.Found? ==> reply.issue in store.rows && reply.issue.id == ParseInt(idParam).value
    ensures reply == InvalidId || reply == NotFound || reply.Found?
  {
    var id := ParseInt(idParam);
    if id.None? {
      return InvalidId;
    }
    var issue := store.FindById(id.value);
    if issue.None? {
      return NotFound;
    }
    reply := Found(issue.value);
  }

  /** The update object with `id`, `created_at` and `updated_at` deleted. */
  function Unprotected(p: Patch): (q: Patch)
    ensures q.id.None? && q.createdAt.None? && q.updatedAt.None?
    ensures q.(id := p.id, createdAt := p.createdAt, updatedAt := p.updatedAt) == p
  {
    p.(id := None, createdAt := None, updatedAt := None)
  }

  /** A body holding nothing but `id`, `created_at` and `updated_at` updates nothing. */
  predicate OnlyProtected(p: Patch) {
    p.(id := None, createdAt := None, updatedAt := None) == EmptyPatch
  }

  /**
    Stripping matters: a body holding only an `updated_at` would make the
    store re-stamp an existing issue, but after stripping it is a 404 that
    changes nothing.
  */
  lemma StrippedTimestampIsNotFound(t: Table, id: int, p: Patch)
    requires TableValid(t) && OnlyProtected(p)
    ensures UpdateOp(t, id, Unprotected(p)) == (t, Success(None))
    ensures p.updatedAt.Some? && (exists x :: x in t.rows && x.id == id) ==>
      UpdateOp(t, id, p).1 != Success(None)
  {
    UpdateSetsSuppliedFields(t, id, p);
  }

  /** A successful update keeps the issue's id and creation time and stamps the store's clock, whatever the body says. */
  lemma UpdateKeepsIdentity(t: Table, id: int, p: Patch)
    requires TableValid(t)
    ensures var (t', r) := UpdateOp(t, id, Unprotected(p));
      r.Success? && r.value.Some? ==>
        && r.value.value.id == id
        && (exists x :: x in t.rows && x.id == id && r.value.value.createdAt == x.createdAt)
        && r.value.value.updatedAt == t.clock
  {
    var (t', r) := UpdateOp(t, id, Unprotected(p));
    UpdateSetsSuppliedFields(t, id, Unprotected(p));
    if r.Success? && r.value.Some? {
      var k := IndexOfId(t.rows, id).value;
      assert t.rows[k] in t.rows;
    }
  }

  /** The reply for the store's answer to an update. */
  function UpdateReply(r: Result<Option<Issue>, StoreError>): Reply {
    match r
    case Failure(_) => InternalError
    case Success(None) => NotFound
    case Success(Some(issue)) => UpdatedIssue(issue)
  }

  /** updateIssue: a non-numeric id is a 400; then the stripped body goes to the store. */
  method UpdateIssue(store: Store, idParam: string, body: Patch) returns (reply: Reply)
    requires store.Valid()
    modifies store
    ensures store.Valid()
    ensures ParseInt(idParam).None? ==> reply == InvalidId && store.State() == old(store.State())
    ensures ParseInt(idParam).Some? ==>
      var (t', r) := UpdateOp(old(store.State()), ParseInt(idParam).value, Unprotected(body));
      store.State() == t' && reply == UpdateReply(r)
  {
    var id := ParseInt(idParam);
    if id.None? {
      return InvalidId;
    }
    var updateData := body;
    updateData := updateData.(id := None);
    updateData := updateData.(createdAt := None);
    updateData := updateData.(updatedAt := None);
    var updated := store.Update(id.value, updateData);
    reply := UpdateReply(updated);
  }

  /** deleteIssue: a non-numeric id is a 400, an unknown one a 404; otherwise the issue is removed. */
  method DeleteIssue(store: Store, idParam: string) returns (reply: Reply)
    requires store.Valid()
    modifies store
    ensures store.Valid()
    ensures ParseInt(idParam).None? ==> reply == InvalidId && store.State() == old(store.State())
    ensures ParseInt(idParam).Some? ==>
      var (t', deleted) := DeleteOp(old(store.State()), ParseInt(idParam).value);
      store.State() == t' && reply == (if deleted then DeletedIssue else NotFound)
  {
    var id := ParseInt(idParam);
    if id.None? {
      return InvalidId;
    }
    var deleted := store.Delete(id.value);
    if !deleted {
      return NotFound;
    }
    reply := DeletedIssue;
  }

  /** The three id-taking routes agree: invalid id, unknown id and removed id behave alike. */
  lemma IdOutcomesAgree(t: Table, idParam: string, p: Patch)
    requires TableValid(t)
    ensures ParseInt(idParam).Some? && (forall x :: x in t.rows ==> x.id != ParseInt(idParam).value) ==>
      && UpdateReply(UpdateOp(t, ParseInt(idParam).value, Unprotected(p)).1) == NotFound
      && !DeleteOp(t, ParseInt(idParam).value).1
    ensures ParseInt(idParam).Some? ==>
      forall x :: x in DeleteOp(t, ParseInt(idParam).value).0.rows ==> x.id != ParseInt(idParam).value
  {
    if ParseInt(idParam).Some? {
      UpdateSetsSuppliedFields(t, ParseInt(idParam).value, Unprotected(p));
    }
  }

  // ---------------------------------------------------------------------------
  // getAllIssues and getTopIssues
  // ---------------------------------------------------------------------------

  /** The query string of getAllIssues; each parameter is a string when present. */
  datatype ListQuery = ListQuery(
    source: Option<string>,
    status: Option<string>,
    severity: Option<string>,
    limit: Option<string>,
    offset: Option<string>)

  /** `x ? parseInt(x) : undefined`; a `NaN` is as falsy as an absent value. */
  function NumberParam(q: Option<string>): (n: Option<int>)
    ensures !Truthy(q) ==> n.None?
  {
    if Truthy(q) then ParseInt(q.value) else None
  }

  /** The filters getAllIssues passes to findAll (it never filters by type). */
  function ListFilter(q: ListQuery): Filter {
    Filter(q.source, q.status, NumberParam(q.severity), None, NumberParam(q.limit), NumberParam(q.offset))
  }

  /** getAllIssues: the page findAll answers, or a 500 when the database refuses the query. */
  method GetAllIssues(store: Store, q: ListQuery) returns (reply: Reply)
    requires store.Valid()
    ensures reply.Listed? <==> Query(store.State(), ListFilter(q)).Success?
    ensures reply.Listed? ==> reply.issues == Query(store.State(), ListFilter(q)).value
    ensures !reply.Listed? ==> reply == InternalError
  {
    var issues := store.FindAll(ListFilter(q));
    match issues {
      case Success(rows) => reply := Listed(rows);
      case Failure(_) => reply := InternalError;
    }
  }

  /**
    A severity parameter that is absent, empty, non-numeric or `"0"` filters
    nothing: the listing is the one without it.
  */
  lemma FalsySeverityParamIgnored(t: Table, q: ListQuery)
    requires TableValid(t)
    requires !TruthyInt(NumberParam(q.severity))
    ensures Query(t, ListFilter(q)) == Query(t, ListFilter(q.(severity := None)))
  {
    FalsyFiltersIgnored(t, ListFilter(q));
    FalsyFiltersIgnored(t, ListFilter(q.(severity := None)));
  }

  /** The listing returns only issues matching every filter supplied, newest first, at most `limit` of them. */
  lemma ListedIssuesMatch(t: Table, q: ListQuery)
    requires TableValid(t)
    requires Query(t, ListFilter(q)).Success?
    ensures var r := Query(t, ListFilter(q)).value;
      && NewestFirst(r)
      && (forall x :: x in r ==> x in t.rows && Matches(ListFilter(q), x))
      && (TruthyInt(NumberParam(q.limit)) ==> |r| <= NumberParam(q.limit).value)
  {
    FindAllSound(t, ListFilter(q));
  }

  /** `req.query.limit ? parseInt(req.query.limit) : 10`; `None` is `NaN`. */
  function TopLimit(q: Option<string>): (limit: Option<int>)
    ensures !Truthy(q) ==> limit == Some(10)
  {
    if Truthy(q) then ParseInt(q.value) else Some(10)
  }

  /**
    getTopIssues: without a limit the ten highest-ranked issues (or all of them
    when there are fewer). A `NaN` or negative limit is refused by the
    database.
  */
  method GetTopIssues(store: Store, limitParam: Option<string>) returns (reply: Reply)
    requires store.Valid()
    ensures reply.Listed? <==> TopLimit(limitParam).Some? && TopLimit(limitParam).value >= 0
    ensures !reply.Listed? ==> reply == InternalError
    ensures reply.Listed? ==>
      var limit := TopLimit(limitParam).value;
      && |reply.issues| == (if limit < |store.rows| then limit else |store.rows|)
      && RankSorted(reply.issues)
      && multiset(reply.issues) <= multiset(store.rows)
      && forall x, y :: x in reply.issues && y in store.rows && y !in reply.issues ==> RanksBefore(x, y)
    ensures !Truthy(limitParam) ==> reply.Listed? && |reply.issues| == (if 10 < |store.rows| then 10 else |store.rows|)
  {
    var limit := TopLimit(limitParam);
    if limit.None? {
      return InternalError;
    }
    var issues := store.GetTopIssues(limit.value);
    match issues {
      case Success(rows) =>
        TopIssuesAreTop(store.State(), limit.value);
        reply := Listed(rows);
      case Failure(_) =>
        reply := InternalError;
    }
  }
}
