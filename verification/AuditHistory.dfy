/** What each audit row says, column by column: which click, opening, authentication and close it shows. */
module AuditHistory {
  import opened Common
  import opened Audit
  import opened AuditRuns

  // ---------------------------------------------------------------------------------------------
  // Which row an event concerns

  /** Row w is the newest open row of the event's tenant, device, connection and session, the last of equal ones. */
  ghost predicate NewestOpen(rows: seq<Row>, e: Event, w: nat) {
    && w < |rows| && IsOpenRow(rows[w], e)
    && forall v :: 0 <= v < |rows| && IsOpenRow(rows[v], e) ==>
         rows[v].createdAt < rows[w].createdAt || (rows[v].createdAt == rows[w].createdAt && v <= w)
  }

  predicate IsOpenRow(row: Row, e: Event) {
    && row.tenant == e.tenant && row.uuid == e.uuid
    && row.connId == Some(e.connId) && row.sessionId == Some(e.sessionId) && row.endedAt == None
  }

  /** Row w is the latest click on the event's device within two minutes; of equally late ones the last. */
  ghost predicate LatestClick(rows: seq<Row>, e: Event, now: Time, w: nat) {
    && w < |rows| && IsRecentClick(rows[w], e, now)
    && forall v :: 0 <= v < |rows| && IsRecentClick(rows[v], e, now) ==>
         rows[v].launchedAt.value < rows[w].launchedAt.value ||
         (rows[v].launchedAt.value == rows[w].launchedAt.value && v <= w)
  }

  predicate IsRecentClick(row: Row, e: Event, now: Time) {
    && row.tenant == e.tenant && row.rustdeskId == e.rustdeskId && row.status == Launched
    && row.launchedAt.Some? && row.launchedAt.value > now - 120_000_000
  }

  lemma {:induction false} FindOpenExactly(rows: seq<Row>, e: Event)
    ensures forall w: nat :: FindOpen(rows, KeyOf(e)) == Some(w) <==> NewestOpen(rows, e, w)
    ensures FindOpen(rows, KeyOf(e)) == None <==> forall v :: 0 <= v < |rows| ==> !IsOpenRow(rows[v], e)
  {
    if rows != [] {
      var n := |rows| - 1;
      FindOpenExactly(rows[..n], e);
      assert IsOpenFor(rows[n], KeyOf(e)) <==> IsOpenRow(rows[n], e);
    }
  }

  lemma {:induction false} FindLaunchExactly(rows: seq<Row>, e: Event, now: Time)
    ensures forall w: nat ::
      FindLaunch(rows, e.tenant, e.rustdeskId, now) == Some(w) <==> LatestClick(rows, e, now, w)
    ensures FindLaunch(rows, e.tenant, e.rustdeskId, now) == None <==>
            forall v :: 0 <= v < |rows| ==> !IsRecentClick(rows[v], e, now)
  {
    if rows != [] {
      var n := |rows| - 1;
      FindLaunchExactly(rows[..n], e, now);
      assert Claimable(rows[n], e.tenant, e.rustdeskId, now) <==> IsRecentClick(rows[n], e, now);
    }
  }

  // ---------------------------------------------------------------------------------------------
  // What one input writes

  /** The input is a click that gets row w. */
  predicate Clicks(t: Table, tenants: set<Tenant>, x: Input, w: nat) {
    x.Launch? && x.tenant in tenants && w == |t.rows|
  }

  /** The input is a fresh new event; it gets row w, a click's or the next one. */
  ghost predicate Opens(t: Table, tenants: set<Tenant>, x: Input, w: nat) {
    && Fresh(t, tenants, x) && x.event.action == NewAction
    && (LatestClick(t.rows, x.event, x.at, w) ||
        (w == |t.rows| && forall v :: 0 <= v < |t.rows| ==> !IsRecentClick(t.rows[v], x.event, x.at)))
  }

  /** The input is a fresh authentication, an event with a peer that neither opens nor closes; it gets row w. */
  ghost predicate Authenticates(t: Table, tenants: set<Tenant>, x: Input, w: nat) {
    Fresh(t, tenants, x) && x.event.action == OtherAction && x.event.peer.Some? && NewestOpen(t.rows, x.event, w)
  }

  /** The input is a fresh close; it gets row w. */
  ghost predicate Ends(t: Table, tenants: set<Tenant>, x: Input, w: nat) {
    Fresh(t, tenants, x) && x.event.action == CloseAction && NewestOpen(t.rows, x.event, w)
  }

  /** The input writes row w. */
  ghost predicate Writes(t: Table, tenants: set<Tenant>, x: Input, w: nat) {
    Clicks(t, tenants, x, w) || Opens(t, tenants, x, w) || Authenticates(t, tenants, x, w) || Ends(t, tenants, x, w)
  }

  /** Every column of the row an input writes. */
  ghost predicate Written(t: Table, tenants: set<Tenant>, x: Input, w: nat, row: Row)
    requires w <= |t.rows|
  {
    if Clicks(t, tenants, x, w) then
      row == Row(x.tenant, Some(x.device), x.rustdeskId, x.uuid, None, None, None, NoIp, None, Some(x.user),
                 Launched, Some(x.at), None, None, x.at, x.at)
    else if Opens(t, tenants, x, w) then
      if w == |t.rows| then
        row == Row(x.event.tenant, x.found, x.event.rustdeskId, x.event.uuid, Some(x.event.connId),
                   Some(x.event.sessionId), None, x.event.ip, None, None,
                   Connecting, None, Some(x.at), None, x.at, x.at)
      else
        row == t.rows[w].(device := if x.found.Some? then x.found else t.rows[w].device, uuid := x.event.uuid,
                          connId := Some(x.event.connId), sessionId := Some(x.event.sessionId), ip := x.event.ip,
                          status := Connecting, startedAt := Some(x.at), updatedAt := x.at)
    else if Authenticates(t, tenants, x, w) then
      row == t.rows[w].(peer := x.event.peer, connectionType := x.event.connectionType, status := Active,
                        updatedAt := x.at)
    else if Ends(t, tenants, x, w) then
      row == t.rows[w].(status := Closed, endedAt := Some(x.at), updatedAt := x.at)
    else w < |t.rows| && row == t.rows[w]
  }

  /** One input, exactly: the rows grow by one if it writes the next row, the row it writes gets its columns, and every
      other row stays as it is. */
  lemma StepExactly(t: Table, tenants: set<Tenant>, x: Input)
    ensures var rows := Step(t, tenants, x).rows;
      && |rows| == |t.rows| + (if Writes(t, tenants, x, |t.rows|) then 1 else 0)
      && forall w :: 0 <= w < |rows| ==> Written(t, tenants, x, w, rows[w])
  {
    if x.Deliver? {
      match x.event.action
      case NewAction => NewExactly(t, tenants, x);
      case CloseAction => CloseExactly(t, tenants, x);
      case OtherAction => OtherExactly(t, tenants, x);
    }
  }

  lemma CloseExactly(t: Table, tenants: set<Tenant>, x: Input)
    requires x.Deliver? && x.event.action == CloseAction
    ensures var rows := Step(t, tenants, x).rows;
      && |rows| == |t.rows| + (if Writes(t, tenants, x, |t.rows|) then 1 else 0)
      && forall w :: 0 <= w < |rows| ==> Written(t, tenants, x, w, rows[w])
  {
    FindOpenExactly(t.rows, x.event);
    hide FindOpen, FindLaunch, IsOpenRow, IsRecentClick;
  }

  lemma OtherExactly(t: Table, tenants: set<Tenant>, x: Input)
    requires x.Deliver? && x.event.action == OtherAction
    ensures var rows := Step(t, tenants, x).rows;
      && |rows| == |t.rows| + (if Writes(t, tenants, x, |t.rows|) then 1 else 0)
      && forall w :: 0 <= w < |rows| ==> Written(t, tenants, x, w, rows[w])
  {
    FindOpenExactly(t.rows, x.event);
    hide FindOpen, FindLaunch, IsOpenRow, IsRecentClick;
  }

  lemma NewExactly(t: Table, tenants: set<Tenant>, x: Input)
    requires x.Deliver? && x.event.action == NewAction
    ensures var rows := Step(t, tenants, x).rows;
      && |rows| == |t.rows| + (if Writes(t, tenants, x, |t.rows|) then 1 else 0)
      && forall w :: 0 <= w < |rows| ==> Written(t, tenants, x, w, rows[w])
  {
    FindLaunchExactly(t.rows, x.event, x.at);
    hide FindOpen, FindLaunch, IsOpenRow, IsRecentClick;
  }

  // ---------------------------------------------------------------------------------------------
  // What a row shows after any run

  /** The inputs that made a row: its click, opening, last authentication and close, and the last of them all. */
  datatype Story = Story(
    click: Option<nat>, open: Option<nat>, authentication: Option<nat>, end: Option<nat>, last: Option<nat>)

  /** The table before input i. */
  function Before(tenants: set<Tenant>, inputs: seq<Input>, i: nat): Table
    requires i <= |inputs|
  {
    Run(tenants, inputs[..i])
  }

  /** The story names, of the first n inputs, exactly the click, the opening and the close of row w, its last
      authentication and the last input that wrote it. */
  ghost predicate IsStory(tenants: set<Tenant>, inputs: seq<Input>, n: nat, w: nat, s: Story)
    requires n <= |inputs|
  {
    && (forall k: nat :: k < n && Clicks(Before(tenants, inputs, k), tenants, inputs[k], w) <==> s.click == Some(k))
    && (forall k: nat :: k < n && Opens(Before(tenants, inputs, k), tenants, inputs[k], w) <==> s.open == Some(k))
    && (forall k: nat :: k < n && Ends(Before(tenants, inputs, k), tenants, inputs[k], w) <==> s.end == Some(k))
    && (s.authentication.Some? ==>
          s.authentication.value < n &&
          Authenticates(Before(tenants, inputs, s.authentication.value), tenants, inputs[s.authentication.value], w))
    && (forall k: nat :: k < n && Authenticates(Before(tenants, inputs, k), tenants, inputs[k], w) ==>
          s.authentication.Some? && k <= s.authentication.value)
    && (s.last.Some? ==>
          s.last.value < n && Writes(Before(tenants, inputs, s.last.value), tenants, inputs[s.last.value], w))
    && (forall k: nat :: k < n && Writes(Before(tenants, inputs, k), tenants, inputs[k], w) ==>
          s.last.Some? && k <= s.last.value)
  }

  /** Every column of the row, from the inputs of its story. */
  predicate Tells(inputs: seq<Input>, s: Story, row: Row)
    requires s.click.Some? ==> s.click.value < |inputs| && inputs[s.click.value].Launch?
    requires s.open.Some? ==> s.open.value < |inputs| && inputs[s.open.value].Deliver?
    requires s.authentication.Some? ==> s.authentication.value < |inputs| && inputs[s.authentication.value].Deliver?
    requires s.end.Some? ==> s.end.value < |inputs|
    requires s.last.Some? ==> s.last.value < |inputs|
  {
    && (s.click.Some? || s.open.Some?) && s.last.Some?
    && row.status == (if s.end.Some? then Closed else if s.authentication.Some? then Active
                      else if s.open.Some? then Connecting else Launched)
    && (s.click.Some? ==> ShowsClick(row, inputs[s.click.value], s.open.Some?))
    && (s.click.None? ==> row.launchedAt == None && row.initiatedBy == None)
    && (s.open.Some? ==> ShowsOpening(row, inputs[s.open.value], s.click.Some?))
    && (s.open.None? ==> row.startedAt == None && row.connId == None && row.sessionId == None && row.ip == NoIp)
    && row.device == (if s.open.Some? && inputs[s.open.value].found.Some? then inputs[s.open.value].found
                      else if s.click.Some? then Some(inputs[s.click.value].device) else None)
    && row.peer == (if s.authentication.Some? then inputs[s.authentication.value].event.peer else None)
    && row.connectionType ==
         (if s.authentication.Some? then inputs[s.authentication.value].event.connectionType else None)
    && row.endedAt == (if s.end.Some? then Some(inputs[s.end.value].at) else None)
    && row.updatedAt == inputs[s.last.value].at
  }

  predicate ShowsClick(row: Row, x: Input, claimed: bool)
    requires x.Launch?
  {
    && row.tenant == x.tenant && row.rustdeskId == x.rustdeskId && row.launchedAt == Some(x.at)
    && row.initiatedBy == Some(x.user) && row.createdAt == x.at && (!claimed ==> row.uuid == x.uuid)
  }

  predicate ShowsOpening(row: Row, x: Input, clicked: bool)
    requires x.Deliver?
  {
    && row.tenant == x.event.tenant && row.rustdeskId == x.event.rustdeskId && row.uuid == x.event.uuid
    && row.connId == Some(x.event.connId) && row.sessionId == Some(x.event.sessionId) && row.ip == x.event.ip
    && row.startedAt == Some(x.at) && (!clicked ==> row.createdAt == x.at)
  }

  /** The story after input n. */
  ghost function Continued(t: Table, tenants: set<Tenant>, x: Input, w: nat, n: nat, s: Story): Story {
    Story(if Clicks(t, tenants, x, w) then Some(n) else s.click,
          if Opens(t, tenants, x, w) then Some(n) else s.open,
          if Authenticates(t, tenants, x, w) then Some(n) else s.authentication,
          if Ends(t, tenants, x, w) then Some(n) else s.end,
          if Writes(t, tenants, x, w) then Some(n) else s.last)
  }

  lemma StoryContinues(tenants: set<Tenant>, inputs: seq<Input>, n: nat, w: nat, s: Story)
    requires n < |inputs| && IsStory(tenants, inputs, n, w, s)
    requires Clicks(Before(tenants, inputs, n), tenants, inputs[n], w) ==> s.click == None
    requires Opens(Before(tenants, inputs, n), tenants, inputs[n], w) ==> s.open == None
    requires Ends(Before(tenants, inputs, n), tenants, inputs[n], w) ==> s.end == None
    ensures IsStory(tenants, inputs, n + 1, w, Continued(Before(tenants, inputs, n), tenants, inputs[n], w, n, s))
  {
    hide Before, Clicks, Opens, Authenticates, Ends, Writes;
  }

  /** Nothing has happened to a row that is not there yet. */
  lemma {:induction false} NothingYet(tenants: set<Tenant>, inputs: seq<Input>, n: nat, w: nat)
    requires n <= |inputs| && w >= |Before(tenants, inputs, n).rows|
    ensures IsStory(tenants, inputs, n, w, Story(None, None, None, None, None))
  {
    if n > 0 {
      RunSnoc(tenants, inputs, n - 1);
      var t := Before(tenants, inputs, n - 1);
      StepExactly(t, tenants, inputs[n - 1]);
      hide Step, IsStory, LatestClick, NewestOpen;
      NothingYet(tenants, inputs, n - 1, w);
      StoryContinues(tenants, inputs, n - 1, w, Story(None, None, None, None, None));
    }
  }

  /** The ranges that make a story readable, and the row it tells. */
  predicate TellsSoFar(inputs: seq<Input>, n: nat, s: Story, row: Row) {
    && n <= |inputs|
    && (s.click.Some? ==> s.click.value < n && inputs[s.click.value].Launch?)
    && (s.open.Some? ==> s.open.value < n && inputs[s.open.value].Deliver?)
    && (s.authentication.Some? ==> s.authentication.value < n && inputs[s.authentication.value].Deliver?)
    && (s.end.Some? ==> s.end.value < n)
    && (s.last.Some? ==> s.last.value < n)
    && Tells(inputs, s, row)
  }

  /** An old row keeps telling its story. */
  lemma OldRowContinues(inputs: seq<Input>, t: Table, tenants: set<Tenant>, n: nat, w: nat, s: Story, row: Row)
    requires n < |inputs| && w < |t.rows| && TellsSoFar(inputs, n, s, t.rows[w])
    requires Written(t, tenants, inputs[n], w, row)
    ensures !Clicks(t, tenants, inputs[n], w)
    ensures Opens(t, tenants, inputs[n], w) ==> s.open == None
    ensures Ends(t, tenants, inputs[n], w) ==> s.end == None
    ensures TellsSoFar(inputs, n + 1, Continued(t, tenants, inputs[n], w, n, s), row)
  {
  }

  /** A new row begins with its click or its opening. */
  lemma NewRowBegins(inputs: seq<Input>, t: Table, tenants: set<Tenant>, n: nat, w: nat, row: Row)
    requires n < |inputs| && w == |t.rows| && Written(t, tenants, inputs[n], w, row)
    ensures TellsSoFar(inputs, n + 1, Continued(t, tenants, inputs[n], w, n, Story(None, None, None, None, None)), row)
  {
  }

  /** After any run, every row tells exactly its story: who clicked, which event opened it, whom the last authentication
      named and which close ended it, each column from that input, and its status says how far it got. */
  lemma {:induction false} RowTellsItsStory(tenants: set<Tenant>, inputs: seq<Input>, n: nat, w: nat)
    returns (s: Story)
    requires n <= |inputs| && w < |Before(tenants, inputs, n).rows|
    ensures IsStory(tenants, inputs, n, w, s) && TellsSoFar(inputs, n, s, Before(tenants, inputs, n).rows[w])
  {
    hide *;
    StartsEmpty(tenants, inputs, n, w);
    var t, x := Before(tenants, inputs, n - 1), inputs[n - 1];
    BeforeNext(tenants, inputs, n - 1);
    StepExactly(t, tenants, x);
    var before := Story(None, None, None, None, None);
    if w < |t.rows| {
      before := RowTellsItsStory(tenants, inputs, n - 1, w);
      OldRowContinues(inputs, t, tenants, n - 1, w, before, Before(tenants, inputs, n).rows[w]);
    } else {
      NothingYet(tenants, inputs, n - 1, w);
      NewRowBegins(inputs, t, tenants, n - 1, w, Before(tenants, inputs, n).rows[w]);
    }
    StoryContinues(tenants, inputs, n - 1, w, before);
    s := Continued(t, tenants, x, w, n - 1, before);
  }

  lemma StartsEmpty(tenants: set<Tenant>, inputs: seq<Input>, n: nat, w: nat)
    requires n <= |inputs| && w < |Before(tenants, inputs, n).rows|
    ensures n > 0
  {
  }

  lemma BeforeNext(tenants: set<Tenant>, inputs: seq<Input>, n: nat)
    requires n < |inputs|
    ensures Before(tenants, inputs, n + 1) == Step(Before(tenants, inputs, n), tenants, inputs[n])
  {
    RunSnoc(tenants, inputs, n);
  }
}
