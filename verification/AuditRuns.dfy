/** What every run of the audit keeps: row life cycles, correlation of opens and closes, invisible redelivery. */
module AuditRuns {
  import opened Common
  import opened Audit

  // ---------------------------------------------------------------------------------------------
  // Rows

  /** What each row of a reachable table is at time now. */
  predicate RowOk(row: Row, tenants: set<Tenant>, now: Time) {
    && row.tenant in tenants
    && (row.status == Closed <==> row.endedAt.Some?)
    && (row.status == Launched ==>
          row.launchedAt.Some? && row.connId.None? && row.sessionId.None? && row.startedAt.None?)
    && (row.status != Launched ==> row.connId.Some? && row.sessionId.Some? && row.startedAt.Some?)
    && row.createdAt <= now
    && (row.launchedAt.Some? ==> row.launchedAt.value <= now)
    && (row.startedAt.Some? ==> row.startedAt.value <= now)
    && (row.endedAt.Some? ==> row.startedAt.Some? && row.startedAt.value <= row.endedAt.value <= now)
    && (row.launchedAt.Some? && row.startedAt.Some? ==>
          row.launchedAt.value <= row.startedAt.value < row.launchedAt.value + 120_000_000)
  }

  ghost predicate RowsOk(rows: seq<Row>, tenants: set<Tenant>, now: Time) {
    forall i :: 0 <= i < |rows| ==> RowOk(rows[i], tenants, now)
  }

  function Rank(status: Status): nat {
    match status
    case Launched => 0
    case Connecting => 1
    case Active => 2
    case Closed => 3
  }

  /** One row earlier and later: it never moves backwards, is claimed and closed at most once, and keeps what
      identifies it. */
  predicate Forward(before: Row, after: Row) {
    && Rank(before.status) <= Rank(after.status)
    && after.tenant == before.tenant && after.rustdeskId == before.rustdeskId
    && after.launchedAt == before.launchedAt && after.createdAt == before.createdAt
    && after.initiatedBy == before.initiatedBy
    && (before.startedAt.Some? ==> after.startedAt == before.startedAt && after.uuid == before.uuid &&
                                   after.connId == before.connId && after.sessionId == before.sessionId)
    && (before.endedAt.Some? ==> after == before)
  }

  ghost predicate RowsForward(before: seq<Row>, after: seq<Row>) {
    && |before| <= |after|
    && forall i :: 0 <= i < |before| ==> Forward(before[i], after[i])
  }

  /** One row before and after a single step: only a fresh new event takes it out of launched, to connecting. */
  ghost predicate ClaimedProperly(t: Table, tenants: set<Tenant>, x: Input, before: Row, after: Row) {
    before.status == Launched && after.status != Launched ==>
      && Fresh(t, tenants, x) && x.event.action == NewAction
      && after.status == Connecting && after.startedAt == Some(x.at)
  }

  /** Every step keeps the row invariant and moves rows forward. */
  lemma StepKeepsRows(t: Table, tenants: set<Tenant>, x: Input, before: Time)
    requires RowsOk(t.rows, tenants, before) && before <= x.at
    ensures RowsOk(Step(t, tenants, x).rows, tenants, x.at)
    ensures RowsForward(t.rows, Step(t, tenants, x).rows)
    ensures forall i :: 0 <= i < |t.rows| ==> ClaimedProperly(t, tenants, x, t.rows[i], Step(t, tenants, x).rows[i])
  {
    hide *;
    if Fresh(t, tenants, x) {
      FreshIsDelivered(t, tenants, x);
      match x.event.action
      case NewAction => NewKeepsRows(t, tenants, x, before);
      case _ => UpdateKeepsRows(t, tenants, x, before);
    } else {
      IdleKeepsRows(t, tenants, x, before);
    }
  }

  lemma FreshIsDelivered(t: Table, tenants: set<Tenant>, x: Input)
    requires Fresh(t, tenants, x)
    ensures x.Deliver?
  {
  }

  lemma IdleKeepsRows(t: Table, tenants: set<Tenant>, x: Input, before: Time)
    requires RowsOk(t.rows, tenants, before) && before <= x.at && !Fresh(t, tenants, x)
    ensures RowsOk(Step(t, tenants, x).rows, tenants, x.at)
    ensures RowsForward(t.rows, Step(t, tenants, x).rows)
    ensures forall i :: 0 <= i < |t.rows| ==> ClaimedProperly(t, tenants, x, t.rows[i], Step(t, tenants, x).rows[i])
  {
    hide FindOpen, FindLaunch, Forward;
    forall i | 0 <= i < |t.rows| ensures RowOk(t.rows[i], tenants, x.at) && Forward(t.rows[i], t.rows[i]) {
      RowLater(t.rows[i], tenants, before, x.at);
    }
  }

  lemma NewKeepsRows(t: Table, tenants: set<Tenant>, x: Input, before: Time)
    requires RowsOk(t.rows, tenants, before) && before <= x.at
    requires Fresh(t, tenants, x) && x.event.action == NewAction
    ensures RowsOk(Step(t, tenants, x).rows, tenants, x.at)
    ensures RowsForward(t.rows, Step(t, tenants, x).rows)
    ensures forall i :: 0 <= i < |t.rows| ==> ClaimedProperly(t, tenants, x, t.rows[i], Step(t, tenants, x).rows[i])
  {
    hide FindLaunch, RowOk, Forward;
    forall i | 0 <= i < |t.rows| ensures RowOk(t.rows[i], tenants, x.at) && Forward(t.rows[i], t.rows[i]) {
      RowLater(t.rows[i], tenants, before, x.at);
    }
    NewRowOk(x.event, tenants, x.found, x.at);
    var launch := FindLaunch(t.rows, x.event.tenant, x.event.rustdeskId, x.at);
    if launch.Some? {
      ClaimedRowOk(t.rows[launch.value], tenants, x.event, x.found, x.at);
    }
  }

  lemma RowLater(row: Row, tenants: set<Tenant>, before: Time, now: Time)
    requires RowOk(row, tenants, before) && before <= now
    ensures RowOk(row, tenants, now) && Forward(row, row)
  {
  }

  lemma NewRowOk(e: Event, tenants: set<Tenant>, found: Option<DeviceId>, now: Time)
    ensures e.tenant in tenants ==> RowOk(InsertedRow(e, found, now), tenants, now)
  {
  }

  lemma ClaimedRowOk(row: Row, tenants: set<Tenant>, e: Event, found: Option<DeviceId>, now: Time)
    requires RowOk(row, tenants, now) && Claimable(row, e.tenant, e.rustdeskId, now)
    ensures RowOk(ClaimedRow(row, e, found, now), tenants, now) && Forward(row, ClaimedRow(row, e, found, now))
  {
  }

  lemma OpenRowUpdates(row: Row, tenants: set<Tenant>, e: Event, key: Key, now: Time)
    requires RowOk(row, tenants, now) && IsOpenFor(row, key)
    ensures RowOk(ClosedRow(row, now), tenants, now) && Forward(row, ClosedRow(row, now))
    ensures RowOk(AuthenticatedRow(row, e, now), tenants, now) && Forward(row, AuthenticatedRow(row, e, now))
    ensures row.status != Launched
  {
  }

  lemma UpdateKeepsRows(t: Table, tenants: set<Tenant>, x: Input, before: Time)
    requires RowsOk(t.rows, tenants, before) && before <= x.at
    requires Fresh(t, tenants, x) && x.event.action != NewAction
    ensures RowsOk(Step(t, tenants, x).rows, tenants, x.at)
    ensures RowsForward(t.rows, Step(t, tenants, x).rows)
    ensures forall i :: 0 <= i < |t.rows| ==> ClaimedProperly(t, tenants, x, t.rows[i], Step(t, tenants, x).rows[i])
  {
    hide IsOpenFor, FindOpen, RowOk, Forward, ClosedRow, AuthenticatedRow;
    forall i | 0 <= i < |t.rows| ensures RowOk(t.rows[i], tenants, x.at) && Forward(t.rows[i], t.rows[i]) {
      RowLater(t.rows[i], tenants, before, x.at);
    }
    var open := FindOpen(t.rows, KeyOf(x.event));
    if open.Some? {
      OpenRowUpdates(t.rows[open.value], tenants, x.event, KeyOf(x.event), x.at);
    }
  }

  /** Every reachable table satisfies the row invariant. */
  lemma {:induction false} RunKeepsRows(tenants: set<Tenant>, inputs: seq<Input>, now: Time)
    requires Ordered(inputs) && (inputs != [] ==> inputs[|inputs| - 1].at <= now)
    ensures RowsOk(Run(tenants, inputs).rows, tenants, now)
  {
    if inputs != [] {
      var n := |inputs| - 1;
      RunKeepsRows(tenants, inputs[..n], inputs[n].at);
      StepKeepsRows(Run(tenants, inputs[..n]), tenants, inputs[n], inputs[n].at);
    }
  }

  /** Over any stretch of a run, every row only moves forward. */
  lemma {:induction false} RunMovesForward(tenants: set<Tenant>, inputs: seq<Input>, n: nat)
    requires Ordered(inputs) && n <= |inputs|
    ensures RowsForward(Run(tenants, inputs[..n]).rows, Run(tenants, inputs).rows)
  {
    hide RowOk, Forward, Step;
    if n == |inputs| {
      assert inputs[..n] == inputs;
      ForwardSelf(Run(tenants, inputs).rows);
    } else {
      var m := |inputs| - 1;
      RunMovesForward(tenants, inputs[..m], n);
      assert inputs[..m][..n] == inputs[..n];
      RunKeepsRows(tenants, inputs[..m], inputs[m].at);
      StepKeepsRows(Run(tenants, inputs[..m]), tenants, inputs[m], inputs[m].at);
      ForwardChains(Run(tenants, inputs[..n]).rows, Run(tenants, inputs[..m]).rows, Run(tenants, inputs).rows);
    }
  }

  lemma ForwardSelf(rows: seq<Row>)
    ensures RowsForward(rows, rows)
  {
  }

  lemma ForwardChains(a: seq<Row>, b: seq<Row>, c: seq<Row>)
    requires RowsForward(a, b) && RowsForward(b, c)
    ensures RowsForward(a, c)
  {
    forall i | 0 <= i < |a| ensures Forward(a[i], c[i]) {
      assert Forward(a[i], b[i]) && Forward(b[i], c[i]);
    }
  }

  // ---------------------------------------------------------------------------------------------
  // Row count

  /** The launches of a run that entered the table. */
  function Launches(tenants: set<Tenant>, inputs: seq<Input>): nat {
    if inputs == [] then 0
    else
      var last := inputs[|inputs| - 1];
      Launches(tenants, inputs[..|inputs| - 1]) + if last.Launch? && last.tenant in tenants then 1 else 0
  }

  /** The new events of a run that were neither repeated nor refused. */
  function FreshNews(tenants: set<Tenant>, inputs: seq<Input>): nat {
    if inputs == [] then 0
    else
      var init, last := inputs[..|inputs| - 1], inputs[|inputs| - 1];
      FreshNews(tenants, init) +
      if Fresh(Run(tenants, init), tenants, last) && last.event.action == NewAction then 1 else 0
  }

  /** The launched rows that an event has claimed. */
  function Claims(rows: seq<Row>): nat {
    if rows == [] then 0
    else Claims(rows[..|rows| - 1]) + if IsClaimed(rows[|rows| - 1]) then 1 else 0
  }

  predicate IsClaimed(row: Row) {
    row.launchedAt.Some? && row.startedAt.Some?
  }

  lemma {:induction false} ClaimsUpdate(rows: seq<Row>, i: nat, row: Row)
    requires i < |rows|
    ensures Claims(rows[i := row]) - Claims(rows) ==
            (if IsClaimed(row) then 1 else 0) - (if IsClaimed(rows[i]) then 1 else 0)
  {
    var n := |rows| - 1;
    if i < n {
      ClaimsUpdate(rows[..n], i, row);
      assert rows[i := row][..n] == rows[..n][i := row];
    } else {
      assert rows[i := row][..n] == rows[..n];
    }
  }

  lemma ClaimsAppend(rows: seq<Row>, row: Row)
    ensures Claims(rows + [row]) == Claims(rows) + if IsClaimed(row) then 1 else 0
  {
    assert (rows + [row])[..|rows|] == rows;
  }

  /** Rows are launches plus fresh new events, less the launches that such events claimed. */
  lemma {:induction false} RowCount(tenants: set<Tenant>, inputs: seq<Input>)
    requires Ordered(inputs)
    ensures var rows := Run(tenants, inputs).rows;
      |rows| == Launches(tenants, inputs) + FreshNews(tenants, inputs) - Claims(rows)
  {
    if inputs != [] {
      var n := |inputs| - 1;
      RowCount(tenants, inputs[..n]);
      RunKeepsRows(tenants, inputs[..n], inputs[n].at);
      StepCount(Run(tenants, inputs[..n]), tenants, inputs[n]);
    }
  }

  lemma StepCount(t: Table, tenants: set<Tenant>, x: Input)
    requires RowsOk(t.rows, tenants, x.at)
    ensures var rows := Step(t, tenants, x).rows;
      |rows| + Claims(rows) - |t.rows| - Claims(t.rows) ==
      (if x.Launch? && x.tenant in tenants then 1 else 0) +
      (if Fresh(t, tenants, x) && x.event.action == NewAction then 1 else 0)
  {
    match x
    case Launch(tenant, device, rustdeskId, uuid, user, at) =>
      ClaimsAppend(t.rows, LaunchedRow(tenant, device, rustdeskId, uuid, user, at));
    case Deliver(e, found, at) =>
      hide IsOpenFor, Claims;
      if e.action == NewAction {
        NewCount(t.rows, tenants, e, found, at);
      } else {
        UpdateCount(t.rows, tenants, e, found, at);
      }
  }

  lemma NewCount(rows: seq<Row>, tenants: set<Tenant>, e: Event, found: Option<DeviceId>, at: Time)
    requires RowsOk(rows, tenants, at) && e.action == NewAction
    ensures var applied := Applied(rows, tenants, e, found, at);
      applied.Some? ==> |applied.value| + Claims(applied.value) == |rows| + Claims(rows) + 1
  {
    hide IsOpenFor, Claims;
    ClaimsAppend(rows, InsertedRow(e, found, at));
    var launch := FindLaunch(rows, e.tenant, e.rustdeskId, at);
    if launch.Some? {
      ClaimsUpdate(rows, launch.value, ClaimedRow(rows[launch.value], e, found, at));
    }
  }

  lemma UpdateCount(rows: seq<Row>, tenants: set<Tenant>, e: Event, found: Option<DeviceId>, at: Time)
    requires e.action != NewAction
    ensures var applied := Applied(rows, tenants, e, found, at);
      applied.Some? && |applied.value| == |rows| && Claims(applied.value) == Claims(rows)
  {
    hide IsOpenFor, Claims;
    var open := FindOpen(rows, KeyOf(e));
    if open.Some? {
      ClaimsUpdate(rows, open.value, ClosedRow(rows[open.value], at));
      ClaimsUpdate(rows, open.value, AuthenticatedRow(rows[open.value], e, at));
    }
  }

  // ---------------------------------------------------------------------------------------------
  // Correlation

  /** The positions of the open rows of a key. */
  function OpenFor(rows: seq<Row>, key: Key): set<nat> {
    set i: nat | i < |rows| && IsOpenFor(rows[i], key)
  }

  predicate Opens(t: Table, tenants: set<Tenant>, x: Input, key: Key) {
    Fresh(t, tenants, x) && x.event.action == NewAction && KeyOf(x.event) == key
  }

  predicate Closes(t: Table, tenants: set<Tenant>, x: Input, key: Key) {
    Fresh(t, tenants, x) && x.event.action == CloseAction && KeyOf(x.event) == key
  }

  /** The row a fresh event of the key writes to. */
  function Target(t: Table, e: Event, now: Time): nat {
    match e.action
    case NewAction =>
      var launch := FindLaunch(t.rows, e.tenant, e.rustdeskId, now);
      if launch.Some? then launch.value else |t.rows|
    case _ =>
      var open := FindOpen(t.rows, KeyOf(e));
      if open.Some? then open.value else |t.rows|
  }

  /** A fresh new event adds exactly its row to the open rows of its key, a fresh close removes exactly its row if
      there is one, and nothing else changes the open rows of a key. */
  lemma OpenRowsStep(t: Table, tenants: set<Tenant>, x: Input, key: Key)
    requires RowsOk(t.rows, tenants, x.at)
    ensures var before, after := OpenFor(t.rows, key), OpenFor(Step(t, tenants, x).rows, key);
      if Opens(t, tenants, x, key) then
        Target(t, x.event, x.at) !in before && after == before + {Target(t, x.event, x.at)}
      else if Closes(t, tenants, x, key) && before != {} then
        Target(t, x.event, x.at) in before && after == before - {Target(t, x.event, x.at)}
      else after == before
  {
    var rows, rows' := t.rows, Step(t, tenants, x).rows;
    if x.Launch? || !Fresh(t, tenants, x) {
    } else {
      var i := Target(t, x.event, x.at);
      match x.event.action
      case NewAction =>
        OpenAfterWrite(rows, rows', i, key);
      case CloseAction =>
        if i < |rows| {
          OpenAfterWrite(rows, rows', i, key);
        }
        if Closes(t, tenants, x, key) && OpenFor(rows, key) != {} {
          var j :| j in OpenFor(rows, key);
          assert i < |rows|;
        }
      case OtherAction =>
        if x.event.peer.Some? && i < |rows| {
          OpenAfterWrite(rows, rows', i, key);
        }
    }
  }

  /** Writing one row, old or new, changes the open rows at most there. */
  lemma OpenAfterWrite(rows: seq<Row>, rows': seq<Row>, i: nat, key: Key)
    requires i <= |rows| && |rows'| == (if i == |rows| then i + 1 else |rows|)
    requires forall j :: 0 <= j < |rows| && j != i ==> rows'[j] == rows[j]
    ensures OpenFor(rows', key) == OpenFor(rows, key) - {i} + if IsOpenFor(rows'[i], key) then {i} else {}
  {
  }

  /** Plus one per fresh new event of the key, minus one, but not below zero, per fresh close. */
  function OpenCount(tenants: set<Tenant>, inputs: seq<Input>, key: Key): nat {
    if inputs == [] then 0
    else
      var init, last := inputs[..|inputs| - 1], inputs[|inputs| - 1];
      var count, t := OpenCount(tenants, init, key), Run(tenants, init);
      if Opens(t, tenants, last, key) then count + 1
      else if Closes(t, tenants, last, key) && count > 0 then count - 1
      else count
  }

  /** The open rows of every key number exactly what its events say. */
  lemma {:induction false} OpenRowsAreCounted(tenants: set<Tenant>, inputs: seq<Input>, key: Key)
    requires Ordered(inputs)
    ensures |OpenFor(Run(tenants, inputs).rows, key)| == OpenCount(tenants, inputs, key)
  {
    if inputs != [] {
      hide Opens, Closes, OpenFor, Step;
      var n := |inputs| - 1;
      OpenRowsAreCounted(tenants, inputs[..n], key);
      RunKeepsRows(tenants, inputs[..n], inputs[n].at);
      OpenRowsStep(Run(tenants, inputs[..n]), tenants, inputs[n], key);
    }
  }

  /** Between inputs a and b no fresh event opens or closes the key. */
  ghost predicate QuietBetween(tenants: set<Tenant>, inputs: seq<Input>, a: nat, b: nat, key: Key) {
    b <= |inputs| && forall k :: a < k < b ==>
      !Opens(Run(tenants, inputs[..k]), tenants, inputs[k], key) &&
      !Closes(Run(tenants, inputs[..k]), tenants, inputs[k], key)
  }

  /** The row opened by input a is the only open row of its key until the next fresh new or close of the key. */
  lemma {:induction false} OpenedRowStays(tenants: set<Tenant>, inputs: seq<Input>, a: nat, b: nat, key: Key)
    requires Ordered(inputs) && a < b <= |inputs| && QuietBetween(tenants, inputs, a, b, key)
    requires var t := Run(tenants, inputs[..a]); Opens(t, tenants, inputs[a], key) && OpenFor(t.rows, key) == {}
    ensures var i := Target(Run(tenants, inputs[..a]), inputs[a].event, inputs[a].at);
      var rows := Run(tenants, inputs[..b]).rows;
      OpenFor(rows, key) == {i} && i < |rows| && rows[i].startedAt == Some(inputs[a].at)
    decreases b
  {
    hide *;
    OpeningIsDelivered(Run(tenants, inputs[..a]), tenants, inputs[a], key);
    var t := Run(tenants, inputs[..b - 1]);
    RunSnoc(tenants, inputs, b - 1);
    PrefixKeepsRows(tenants, inputs, b - 1);
    QuietStep(tenants, inputs, a, b, key);
    if b == a + 1 {
      OpeningStep(t, tenants, inputs[a], key);
    } else {
      OpenedRowStays(tenants, inputs, a, b - 1, key);
      var i := Target(Run(tenants, inputs[..a]), inputs[a].event, inputs[a].at);
      QuietKeepsOpen(t, tenants, inputs[b - 1], key, i);
    }
  }

  lemma OpeningIsDelivered(t: Table, tenants: set<Tenant>, x: Input, key: Key)
    requires Opens(t, tenants, x, key)
    ensures x.Deliver?
  {
  }

  lemma RunSnoc(tenants: set<Tenant>, inputs: seq<Input>, n: nat)
    requires n < |inputs|
    ensures Run(tenants, inputs[..n + 1]) == Step(Run(tenants, inputs[..n]), tenants, inputs[n])
  {
    assert inputs[..n + 1][..n] == inputs[..n];
  }

  lemma PrefixKeepsRows(tenants: set<Tenant>, inputs: seq<Input>, n: nat)
    requires Ordered(inputs) && n < |inputs|
    ensures RowsOk(Run(tenants, inputs[..n]).rows, tenants, inputs[n].at)
  {
    RunKeepsRows(tenants, inputs[..n], inputs[n].at);
  }

  /** A first opening of the key. */
  lemma OpeningStep(t: Table, tenants: set<Tenant>, x: Input, key: Key)
    requires RowsOk(t.rows, tenants, x.at) && OpenFor(t.rows, key) == {} && Opens(t, tenants, x, key)
    ensures var i, rows := Target(t, x.event, x.at), Step(t, tenants, x).rows;
      OpenFor(rows, key) == {i} && i < |rows| && rows[i].startedAt == Some(x.at)
  {
    OpenRowsStep(t, tenants, x, key);
  }

  /** A step that neither opens nor closes the key leaves its only open row open, started when it was. */
  lemma QuietKeepsOpen(t: Table, tenants: set<Tenant>, x: Input, key: Key, i: nat)
    requires RowsOk(t.rows, tenants, x.at) && OpenFor(t.rows, key) == {i} && i < |t.rows|
    requires !Opens(t, tenants, x, key) && !Closes(t, tenants, x, key)
    requires t.rows[i].startedAt.Some?
    ensures var rows := Step(t, tenants, x).rows;
      OpenFor(rows, key) == {i} && i < |rows| && rows[i].startedAt == t.rows[i].startedAt
  {
    OpenRowsStep(t, tenants, x, key);
    hide Step, OpenFor, RowOk;
    StepKeepsRows(t, tenants, x, x.at);
    assert Forward(t.rows[i], Step(t, tenants, x).rows[i]);
  }

  lemma QuietStep(tenants: set<Tenant>, inputs: seq<Input>, a: nat, b: nat, key: Key)
    requires a < b && QuietBetween(tenants, inputs, a, b, key)
    ensures QuietBetween(tenants, inputs, a, b - 1, key)
    ensures a < b - 1 ==> !Opens(Run(tenants, inputs[..b - 1]), tenants, inputs[b - 1], key) &&
                          !Closes(Run(tenants, inputs[..b - 1]), tenants, inputs[b - 1], key)
  {
    hide Run;
  }

  /** When new and close alternate, the close ends the very row that its new opened or claimed, no earlier than it
      started: by the events alone, the key has nothing open before input a, input a opens it, and input b is the next
      event that opens or closes it. */
  lemma CloseEndsItsNew(tenants: set<Tenant>, inputs: seq<Input>, a: nat, b: nat, key: Key)
    requires Ordered(inputs) && a < b < |inputs| && QuietBetween(tenants, inputs, a, b, key)
    requires OpenCount(tenants, inputs[..a], key) == 0 && Opens(Run(tenants, inputs[..a]), tenants, inputs[a], key)
    requires Closes(Run(tenants, inputs[..b]), tenants, inputs[b], key)
    ensures var i := Target(Run(tenants, inputs[..a]), inputs[a].event, inputs[a].at);
      var rows := Run(tenants, inputs[..b + 1]).rows;
      && Target(Run(tenants, inputs[..b]), inputs[b].event, inputs[b].at) == i
      && i < |rows| && rows[i].status == Closed
      && rows[i].startedAt == Some(inputs[a].at) && rows[i].endedAt == Some(inputs[b].at)
      && inputs[a].at <= inputs[b].at
      && OpenFor(rows, key) == {}
  {
    OpenRowsAreCounted(tenants, inputs[..a], key);
    OpenedRowStays(tenants, inputs, a, b, key);
    RunSnoc(tenants, inputs, b);
    PrefixKeepsRows(tenants, inputs, b);
    ClosingStep(Run(tenants, inputs[..b]), tenants, inputs[b], key,
                Target(Run(tenants, inputs[..a]), inputs[a].event, inputs[a].at));
  }

  /** Closing the only open row of the key. */
  lemma ClosingStep(t: Table, tenants: set<Tenant>, x: Input, key: Key, i: nat)
    requires RowsOk(t.rows, tenants, x.at) && OpenFor(t.rows, key) == {i} && Closes(t, tenants, x, key)
    ensures var rows := Step(t, tenants, x).rows;
      && Target(t, x.event, x.at) == i && i < |t.rows| == |rows|
      && rows[i] == ClosedRow(t.rows[i], x.at) && OpenFor(rows, key) == {}
  {
    assert i in OpenFor(t.rows, key);
    OpenRowsStep(t, tenants, x, key);
  }
}
