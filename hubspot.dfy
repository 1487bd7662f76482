/**
  The HubSpot sync of server/src/services/hubspotService.ts: the token-reuse
  rule of getAccessToken and the replace-by-source import of fetchTickets.
  The token request and the ticket request are network calls; their answers
  are parameters.
*/
module HubSpotService {
  import opened Wrappers
  import opened IssueModel
  import opened JsText

  // ---------------------------------------------------------------------------
  // getAccessToken
  // ---------------------------------------------------------------------------

  /** The latest row of `hubspot_tokens`; times are milliseconds. */
  datatype Token = Token(id: nat, accessToken: string, refreshToken: string, expiresAt: int)

  /** The answer of the OAuth refresh request; `expiresIn` is in seconds. */
  datatype RefreshResponse = RefreshResponse(accessToken: string, refreshToken: string, expiresIn: int)

  /** The two-minute buffer before expiry. */
  const BufferMs: int := 2 * 60 * 1000

  /** The stored token is used as it is while it expires more than two minutes from now. */
  predicate Reusable(token: Token, now: int) {
    token.expiresAt - now > BufferMs
  }

  /** The access token or the error thrown, and the token row afterwards. */
  datatype TokenOutcome = TokenOutcome(accessToken: Result<string, string>, stored: Option<Token>)

  /** getAccessToken at time `now`, with `refresh` the answer a refresh request would get. */
  function GetAccessToken(latest: Option<Token>, now: int, refresh: Result<RefreshResponse, string>): (r: TokenOutcome)
    ensures r.stored.None? <==> latest.None?
  {
    if latest.None? then TokenOutcome(Failure("No HubSpot token found"), None)
    else if Reusable(latest.value, now) then TokenOutcome(Success(latest.value.accessToken), latest)
    else match refresh
      case Failure(e) => TokenOutcome(Failure(e), latest)
      case Success(resp) =>
        TokenOutcome(Success(resp.accessToken),
                     Some(latest.value.(accessToken := resp.accessToken,
                                        refreshToken := resp.refreshToken,
                                        expiresAt := now + resp.expiresIn * 1000)))
  }

  /**
    Without a stored token the call fails; a token expiring more than 120000 ms
    from now is returned with no refresh and no write; otherwise the refreshed
    access token is returned and stored with its new expiry, in the same row.
  */
  lemma TokenReuseRule(latest: Option<Token>, now: int, refresh: Result<RefreshResponse, string>)
    ensures var r := GetAccessToken(latest, now, refresh);
      && (latest.None? ==> r.accessToken == Failure("No HubSpot token found"))
      && (latest.Some? && latest.value.expiresAt - now > 120000 ==>
            r.accessToken == Success(latest.value.accessToken) && r.stored == latest)
      && (latest.Some? && latest.value.expiresAt - now <= 120000 ==>
            match refresh
            case Failure(e) => r.accessToken == Failure(e) && r.stored == latest
            case Success(resp) =>
              && r.accessToken == Success(resp.accessToken)
              && r.stored.value.id == latest.value.id
              && r.stored.value.accessToken == resp.accessToken
              && r.stored.value.refreshToken == resp.refreshToken
              && r.stored.value.expiresAt == now + resp.expiresIn * 1000)
  {
  }

  /**
    A refreshed token stays reusable until two minutes before its new expiry:
    a later call at `later < now + expiresIn*1000 - 120000` returns it without
    a write, whatever a second refresh would have answered.
  */
  lemma RefreshedTokenReused(latest: Token, now: int, resp: RefreshResponse, later: int, again: Result<RefreshResponse, string>)
    requires !Reusable(latest, now)
    ensures var first := GetAccessToken(Some(latest), now, Success(resp));
      var second := GetAccessToken(first.stored, later, again);
      (second.accessToken == Success(resp.accessToken) && second.stored == first.stored)
        <== later < now + resp.expiresIn * 1000 - BufferMs
  {
  }

  // ---------------------------------------------------------------------------
  // fetchTickets
  // ---------------------------------------------------------------------------

  /** The ticket properties fetchTickets reads; `createdate` is a time in milliseconds. */
  datatype TicketProperties = TicketProperties(
    subject: Option<string>,
    content: Option<string>,
    createdate: Option<nat>,
    priority: Option<string>)

  datatype Ticket = Ticket(id: string, properties: TicketProperties)

  /** The severity of a ticket priority, compared case-insensitively. */
  function PrioritySeverity(priority: Option<string>): (severity: int)
    ensures ValidSeverity(severity)
  {
    var p := ToLower(StringOr(priority, ""));
    if p == "high" then 5
    else if p == "medium" then 3
    else if p == "low" then 1
    else 2
  }

  /** Priorities that lower-case alike map alike: `HIGH`, `High` and `high` are all 5. */
  lemma PriorityIgnoresCase(p: string, q: string)
    requires ToLower(p) == ToLower(q)
    ensures PrioritySeverity(Some(p)) == PrioritySeverity(Some(q))
  {
  }

  /** The four bands: high 5, medium 3, low 1, anything else, a missing priority included, 2. */
  lemma PriorityBands(priority: Option<string>)
    ensures PrioritySeverity(priority) == 5 <==> ToLower(StringOr(priority, "")) == "high"
    ensures PrioritySeverity(priority) == 3 <==> ToLower(StringOr(priority, "")) == "medium"
    ensures PrioritySeverity(priority) == 1 <==> ToLower(StringOr(priority, "")) == "low"
    ensures priority.None? ==> PrioritySeverity(priority) == 2
    ensures var p := ToLower(StringOr(priority, ""));
      p != "high" && p != "medium" && p != "low" ==> PrioritySeverity(priority) == 2
    ensures PrioritySeverity(Some("HIGH")) == 5 && PrioritySeverity(Some("Medium")) == 3
  {
    assert ToLower("HIGH") == "high";
    assert ToLower("Medium") == "medium";
  }

  /** The issue record fetchTickets builds for a ticket. */
  function TicketToIssue(ticket: Ticket, now: nat): NewIssue {
    var props := ticket.properties;
    NewIssue(
      StringOr(props.subject, "Ticket"),
      Some(StringOr(props.content, "")),
      "hubspot",
      Some(ticket.id),
      PrioritySeverity(props.priority),
      1,
      "open",
      Some("bug"),
      ["hubspot"],
      Some(false),
      Some(if props.createdate.Some? && props.createdate.value != 0 then props.createdate.value else now))
  }

  /** Each issue for a ticket, in ticket order. */
  function TicketIssues(tickets: seq<Ticket>, now: nat): (issues: seq<NewIssue>)
    ensures |issues| == |tickets|
    ensures forall i :: 0 <= i < |tickets| ==> issues[i] == TicketToIssue(tickets[i], now)
  {
    seq(|tickets|, i requires 0 <= i < |tickets| => TicketToIssue(tickets[i], now))
  }

  /** `create` applied to each record in turn. */
  function CreateAll(t: Table, issues: seq<NewIssue>): (t': Table)
    ensures TableValid(t) ==> TableValid(t')
    decreases |issues|
  {
    if issues == [] then t
    else CreateOp(CreateAll(t, issues[..|issues| - 1]), issues[|issues| - 1]).0
  }

  /** The store after a sync that fetched `tickets`: every hubspot issue deleted, then one created per ticket. */
  function SyncOp(t: Table, tickets: seq<Ticket>, now: nat): Table {
    CreateAll(DeleteSourceOp(t, "hubspot"), TicketIssues(tickets, now))
  }

  /** The columns a ticket's issue is stored with (`jira_exists` is dropped by `create`). */
  predicate StoredFromTicket(r: Issue, ticket: Ticket) {
    var props := ticket.properties;
    && r.title == (if Truthy(props.subject) then props.subject.value else "Ticket")
    && r.description == Some(if Truthy(props.content) then props.content.value else "")
    && r.source == "hubspot" && r.sourceId == Some(ticket.id)
    && r.severity == PrioritySeverity(props.priority)
    && r.frequency == 1 && r.status == "open" && r.issueType == Some("bug") && r.tags == ["hubspot"]
    && r.jiraExists.None? && r.jiraIssueKey.None? && r.jiraStatus.None?
  }

  /** `r` holds the columns `create` stores from `n`. */
  predicate StoredAs(r: Issue, n: NewIssue) {
    && r.title == n.title && r.description == n.description
    && r.source == n.source && r.sourceId == n.sourceId
    && r.severity == n.severity && r.frequency == n.frequency
    && r.status == n.status && r.issueType == n.issueType && r.tags == n.tags
    && r.jiraExists.None? && r.jiraIssueKey.None? && r.jiraStatus.None?
  }

  /** The row stored for a ticket's record has the ticket's columns and the fixed ones. */
  lemma TicketColumns(r: Issue, ticket: Ticket, now: nat)
    requires StoredAs(r, TicketToIssue(ticket, now))
    ensures StoredFromTicket(r, ticket)
  {
  }

  /** Creating records with valid severities appends one row per record, in order, with the records' columns. */
  lemma {:induction false} CreateAllAppends(t: Table, issues: seq<NewIssue>)
    requires forall i :: 0 <= i < |issues| ==> ValidSeverity(issues[i].severity)
    ensures var t' := CreateAll(t, issues);
      && |t'.rows| == |t.rows| + |issues| && t'.rows[..|t.rows|] == t.rows
      && forall i :: 0 <= i < |issues| ==> StoredAs(t'.rows[|t.rows| + i], issues[i])
    decreases |issues|
  {
    if issues != [] {
      var init := issues[..|issues| - 1];
      CreateAllAppends(t, init);
      var mid := CreateAll(t, init);
      var n := issues[|issues| - 1];
      assert ValidSeverity(n.severity);
      var step := CreateOp(mid, n);
      assert CreateAll(t, issues) == step.0;
      CreateStoresOnlyNamedColumns(mid, n);
      assert issues == init + [n];
      ExtendStored(t.rows, mid.rows, step.1.value, init, n);
    }
  }

  /** Appending a row stored as the next record extends "rows after `base` are stored as the records". */
  lemma ExtendStored(base: seq<Issue>, rows: seq<Issue>, row: Issue, init: seq<NewIssue>, n: NewIssue)
    requires |rows| == |base| + |init| && rows[..|base|] == base
    requires forall i :: 0 <= i < |init| ==> StoredAs(rows[|base| + i], init[i])
    requires StoredAs(row, n)
    ensures var rows' := rows + [row];
      var issues := init + [n];
      && |rows'| == |base| + |issues| && rows'[..|base|] == base
      && forall i :: 0 <= i < |issues| ==> StoredAs(rows'[|base| + i], issues[i])
  {
    var rows' := rows + [row];
    var issues := init + [n];
    forall i | 0 <= i < |issues| ensures StoredAs(rows'[|base| + i], issues[i]) {
      if i < |init| {
        assert rows'[|base| + i] == rows[|base| + i] && issues[i] == init[i];
      }
    }
    assert rows'[..|base|] == rows[..|base|];
  }

  /** After a sync the rows are the other sources' rows, in order, then one row per ticket. */
  lemma SyncShape(t: Table, tickets: seq<Ticket>, now: nat)
    requires TableValid(t)
    ensures var t' := SyncOp(t, tickets, now);
      var others := FilterRows(t.rows, SourceOtherThan("hubspot"));
      && TableValid(t')
      && |t'.rows| == |others| + |tickets|
      && t'.rows[..|others|] == others
      && forall i :: 0 <= i < |tickets| ==> StoredAs(t'.rows[|others| + i], TicketToIssue(tickets[i], now))
  {
    var d := DeleteSourceOp(t, "hubspot");
    CreateAllAppends(d, TicketIssues(tickets, now));
  }

  /** Rows of other sources followed by rows of `source`: each source filter picks out its own part. */
  lemma SourceSplit(others: seq<Issue>, added: seq<Issue>, source: string)
    requires forall x :: x in others ==> x.source != source
    requires forall x :: x in added ==> x.source == source
    ensures FilterRows(others + added, SourceOtherThan(source)) == others
    ensures FilterRows(others + added, SatisfiesAll([SourceIs(source)])) == added
  {
    var test := SatisfiesAll([SourceIs(source)]);
    forall x | x in others ensures !Passes(test, x) {
      assert SourceIs(source) in [SourceIs(source)] && !Satisfies(x, SourceIs(source));
    }
    FilterRowsAppend(others, added, test);
    FilterRowsUniform(others, test);
    FilterRowsUniform(added, test);
    FilterRowsAppend(others, added, SourceOtherThan(source));
    FilterRowsUniform(others, SourceOtherThan(source));
    FilterRowsUniform(added, SourceOtherThan(source));
  }

  /** After a sync the table is the rows of other sources followed by rows of source `hubspot` only. */
  lemma SyncSplits(t: Table, tickets: seq<Ticket>, now: nat)
    requires TableValid(t)
    ensures var t' := SyncOp(t, tickets, now);
      var others := FilterRows(t.rows, SourceOtherThan("hubspot"));
      && |t'.rows| >= |others|
      && t'.rows == others + t'.rows[|others|..]
      && (forall x :: x in others ==> x.source != "hubspot")
      && (forall x :: x in t'.rows[|others|..] ==> x.source == "hubspot")
  {
    SyncShape(t, tickets, now);
    var t' := SyncOp(t, tickets, now);
    var others := FilterRows(t.rows, SourceOtherThan("hubspot"));
    var added := t'.rows[|others|..];
    assert t'.rows == others + added;
    forall x | x in added ensures x.source == "hubspot" {
      var i :| 0 <= i < |added| && added[i] == x;
      assert added[i] == t'.rows[|others| + i];
      assert StoredAs(x, TicketToIssue(tickets[i], now));
    }
  }

  /** A sync removes every hubspot issue and leaves the issues of every other source as they were, in order. */
  lemma SyncKeepsOtherSources(t: Table, tickets: seq<Ticket>, now: nat)
    requires TableValid(t)
    ensures var t' := SyncOp(t, tickets, now);
      FilterRows(t'.rows, SourceOtherThan("hubspot")) == FilterRows(t.rows, SourceOtherThan("hubspot"))
  {
    SyncSplits(t, tickets, now);
    var t' := SyncOp(t, tickets, now);
    var others := FilterRows(t.rows, SourceOtherThan("hubspot"));
    SourceSplit(others, t'.rows[|others|..], "hubspot");
  }

  /** The hubspot rows after a sync are exactly the rows created for the tickets. */
  lemma SyncedAreAdded(t: Table, tickets: seq<Ticket>, now: nat)
    requires TableValid(t)
    ensures var t' := SyncOp(t, tickets, now);
      var others := FilterRows(t.rows, SourceOtherThan("hubspot"));
      |t'.rows| >= |others| &&
      FilterRows(t'.rows, SatisfiesAll([SourceIs("hubspot")])) == t'.rows[|others|..]
  {
    SyncSplits(t, tickets, now);
    var t' := SyncOp(t, tickets, now);
    var others := FilterRows(t.rows, SourceOtherThan("hubspot"));
    SourceSplit(others, t'.rows[|others|..], "hubspot");
  }

  /** After a sync the hubspot issues correspond one to one, in order, to the fetched tickets. */
  lemma SyncMirrorsTickets(t: Table, tickets: seq<Ticket>, now: nat)
    requires TableValid(t)
    ensures var synced := FilterRows(SyncOp(t, tickets, now).rows, SatisfiesAll([SourceIs("hubspot")]));
      && |synced| == |tickets|
      && forall i :: 0 <= i < |tickets| ==> StoredFromTicket(synced[i], tickets[i])
  {
    SyncShape(t, tickets, now);
    SyncedAreAdded(t, tickets, now);
    var t' := SyncOp(t, tickets, now);
    var others := FilterRows(t.rows, SourceOtherThan("hubspot"));
    var added := t'.rows[|others|..];
    forall i | 0 <= i < |tickets| ensures StoredFromTicket(added[i], tickets[i]) {
      assert added[i] == t'.rows[|others| + i];
      TicketColumns(added[i], tickets[i], now);
    }
  }

  /** The ticket request (made with the token of getAccessToken): `results`, or the error either call throws. */
  datatype TicketResponse =
    | Tickets(results: Option<seq<Ticket>>)
    | RequestFailed(message: string)

  /** `res.data.results || []`. */
  function ResultsOrEmpty(results: Option<seq<Ticket>>): seq<Ticket> {
    if results.Some? then results.value else []
  }

  /** One pass of the loop of fetchTickets: map the priority, then create the issue. */
  method CreateFromTicket(store: Store, ticket: Ticket, now: nat)
    requires store.Valid()
    modifies store
    ensures store.Valid()
    ensures store.State() == CreateOp(old(store.State()), TicketToIssue(ticket, now)).0
  {
    var priority := ToLower(StringOr(ticket.properties.priority, ""));
    var severity := 2;
    if priority == "high" {
      severity := 5;
    } else if priority == "medium" {
      severity := 3;
    } else if priority == "low" {
      severity := 1;
    }
    var issueData := TicketToIssue(ticket, now).(severity := severity);
    assert issueData == TicketToIssue(ticket, now);
    var _ := store.Create(issueData);
  }

  /** The loop of fetchTickets: one issue created per ticket, in order. */
  method CreateFromTickets(store: Store, tickets: seq<Ticket>, now: nat)
    requires store.Valid()
    modifies store
    ensures store.Valid()
    ensures store.State() == CreateAll(old(store.State()), TicketIssues(tickets, now))
  {
    var i := 0;
    while i < |tickets|
      invariant 0 <= i <= |tickets|
      invariant store.Valid()
      invariant store.State() == CreateAll(old(store.State()), TicketIssues(tickets[..i], now))
    {
      CreateFromTicket(store, tickets[i], now);
      assert TicketIssues(tickets[..i + 1], now)[..i] == TicketIssues(tickets[..i], now);
      i := i + 1;
    }
    assert tickets[..|tickets|] == tickets;
  }

  /**
    fetchTickets: when a request throws nothing is deleted; otherwise every
    hubspot issue is deleted and one issue is created per ticket, at `now`
    standing for `Date.now()`.
  */
  method FetchTickets(store: Store, response: TicketResponse, now: nat) returns (r: Result<nat, string>)
    requires store.Valid()
    modifies store
    ensures store.Valid()
    ensures response.RequestFailed? ==> store.State() == old(store.State()) && r == Failure(response.message)
    ensures response.Tickets? ==>
      && store.State() == SyncOp(old(store.State()), ResultsOrEmpty(response.results), now)
      && r == Success(|ResultsOrEmpty(response.results)|)
  {
    match response {
      case RequestFailed(message) =>
        return Failure(message);
      case Tickets(results) =>
        var tickets := ResultsOrEmpty(results);
        store.DeleteWhereSource("hubspot");
        CreateFromTickets(store, tickets, now);
        return Success(|tickets|);
    }
  }
}
