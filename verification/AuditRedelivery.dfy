/** Redelivered events: copies that arrive within a day of the first receipt leave no trace, purge or no purge; later
    ones act exactly when a purge has forgotten the event and they find something to write. */
module AuditRedelivery {
  import opened Common
  import opened Audit
  import opened AuditRuns

  /** Input j is the first delivery carrying its nonce. */
  ghost predicate FirstReceipt(inputs: seq<Input>, j: nat) {
    && j < |inputs| && inputs[j].Deliver?
    && forall k :: 0 <= k < j && inputs[k].Deliver? ==> inputs[k].event.nonce != inputs[j].event.nonce
  }

  /** Input i repeats the event that was first received as input j, at most a day later. */
  ghost predicate CopyOf(inputs: seq<Input>, i: nat, j: nat) {
    && j < i < |inputs| && FirstReceipt(inputs, j) && inputs[i].Deliver?
    && inputs[i].event == inputs[j].event
    && inputs[i].at <= inputs[j].at + 86_400_000_000
  }

  ghost predicate IsCopy(inputs: seq<Input>, i: nat) {
    exists j: nat :: CopyOf(inputs, i, j)
  }

  /** The inputs without those at the dropped positions. */
  function Without(inputs: seq<Input>, drop: set<nat>): seq<Input> {
    if inputs == [] then []
    else
      var n := |inputs| - 1;
      Without(inputs[..n], drop) + if n in drop then [] else [inputs[n]]
  }

  /** The event fails on every reachable table: its address does not parse, or it is new in an unknown tenant. */
  predicate AlwaysRefused(tenants: set<Tenant>, e: Event) {
    e.action == NewAction && (e.ip.Malformed? || e.tenant !in tenants)
  }

  /** Refusal depends on the event alone. */
  lemma RefusedExactly(rows: seq<Row>, tenants: set<Tenant>, e: Event, found: Option<DeviceId>, now: Time, at: Time)
    requires RowsOk(rows, tenants, at)
    ensures Applied(rows, tenants, e, found, now).None? <==> AlwaysRefused(tenants, e)
  {
    var launch := FindLaunch(rows, e.tenant, e.rustdeskId, now);
    if launch.Some? {
      assert RowOk(rows[launch.value], tenants, at);
    }
  }

  // ---------------------------------------------------------------------------------------------
  // Nonces

  lemma {:induction false} NoncesWereDelivered(tenants: set<Tenant>, inputs: seq<Input>, nonce: Nonce)
    requires nonce in Run(tenants, inputs).nonces
    ensures exists k :: 0 <= k < |inputs| && inputs[k].Deliver? && inputs[k].event.nonce == nonce
  {
    if inputs != [] {
      var n := |inputs| - 1;
      if nonce in Run(tenants, inputs[..n]).nonces {
        NoncesWereDelivered(tenants, inputs[..n], nonce);
        var k :| 0 <= k < n && inputs[..n][k].Deliver? && inputs[..n][k].event.nonce == nonce;
        assert inputs[k].event.nonce == nonce;
      } else {
        assert inputs[n].Deliver? && inputs[n].event.nonce == nonce;
      }
    }
  }

  /** A nonce stays through every step that is no more than a day after its receipt. */
  lemma NonceKept(t: Table, tenants: set<Tenant>, x: Input, nonce: Nonce)
    requires nonce in t.nonces && x.at <= t.nonces[nonce] + 86_400_000_000
    ensures var t' := Step(t, tenants, x); nonce in t'.nonces && t'.nonces[nonce] == t.nonces[nonce]
  {
  }

  /** From its first receipt until a day later, an event is either recorded or refused for good. */
  lemma {:induction false} Remembered(tenants: set<Tenant>, inputs: seq<Input>, j: nat, n: nat)
    requires Ordered(inputs) && FirstReceipt(inputs, j) && j < n <= |inputs|
    requires inputs[n - 1].at <= inputs[j].at + 86_400_000_000
    ensures var nonces, nonce := Run(tenants, inputs[..n]).nonces, inputs[j].event.nonce;
      AlwaysRefused(tenants, inputs[j].event) || (nonce in nonces && nonces[nonce] == inputs[j].at)
    decreases n
  {
    hide *;
    var t := Run(tenants, inputs[..n - 1]);
    RunSnoc(tenants, inputs, n - 1);
    FirstIsDelivered(inputs, j);
    PrefixKeepsRows(tenants, inputs, n - 1);
    if n == j + 1 {
      NotYetSeen(tenants, inputs, j);
      FirstStep(t, tenants, inputs[j]);
    } else {
      InOrder(inputs, n - 2, n - 1);
      Remembered(tenants, inputs, j, n - 1);
      if !AlwaysRefused(tenants, inputs[j].event) {
        NonceKept(t, tenants, inputs[n - 1], inputs[j].event.nonce);
      }
    }
  }

  lemma FirstIsDelivered(inputs: seq<Input>, j: nat)
    requires FirstReceipt(inputs, j)
    ensures j < |inputs| && inputs[j].Deliver?
  {
  }

  lemma InOrder(inputs: seq<Input>, i: nat, j: nat)
    requires Ordered(inputs) && i < j < |inputs|
    ensures inputs[i].at <= inputs[j].at
  {
  }

  lemma NotYetSeen(tenants: set<Tenant>, inputs: seq<Input>, j: nat)
    requires FirstReceipt(inputs, j)
    ensures inputs[j].event.nonce !in Run(tenants, inputs[..j]).nonces
  {
    var nonce := inputs[j].event.nonce;
    if nonce in Run(tenants, inputs[..j]).nonces {
      NoncesWereDelivered(tenants, inputs[..j], nonce);
    }
  }

  lemma FirstStep(t: Table, tenants: set<Tenant>, x: Input)
    requires x.Deliver? && x.event.nonce !in t.nonces && RowsOk(t.rows, tenants, x.at)
    ensures var nonces := Step(t, tenants, x).nonces;
      AlwaysRefused(tenants, x.event) || (x.event.nonce in nonces && nonces[x.event.nonce] == x.at)
  {
    RefusedExactly(t.rows, tenants, x.event, x.found, x.at, x.at);
  }

  /** A copy changes nothing, neither rows nor nonces. */
  lemma CopyIsIdle(tenants: set<Tenant>, inputs: seq<Input>, i: nat)
    requires Ordered(inputs) && i < |inputs| && IsCopy(inputs, i)
    ensures Step(Run(tenants, inputs[..i]), tenants, inputs[i]) == Run(tenants, inputs[..i])
  {
    var j: nat :| CopyOf(inputs, i, j);
    if j < i - 1 {
      InOrder(inputs, i - 1, i);
    }
    Remembered(tenants, inputs, j, i);
    PrefixKeepsRows(tenants, inputs, i);
    var t := Run(tenants, inputs[..i]);
    hide Run;
    RefusedExactly(t.rows, tenants, inputs[i].event, inputs[i].found, inputs[i].at, inputs[i].at);
  }

  /** Removing any set of copies from a run leaves exactly the same tables. */
  lemma {:induction false} RedeliveryInvisible(tenants: set<Tenant>, inputs: seq<Input>, drop: set<nat>, n: nat)
    requires Ordered(inputs) && n <= |inputs|
    requires forall i :: i in drop && i < |inputs| ==> IsCopy(inputs, i)
    ensures Run(tenants, Without(inputs[..n], drop)) == Run(tenants, inputs[..n])
  {
    if n > 0 {
      RedeliveryInvisible(tenants, inputs, drop, n - 1);
      OneMoreInput(tenants, inputs, drop, n - 1);
    }
  }

  lemma OneMoreInput(tenants: set<Tenant>, inputs: seq<Input>, drop: set<nat>, n: nat)
    requires Ordered(inputs) && n < |inputs| && (n in drop ==> IsCopy(inputs, n))
    requires Run(tenants, Without(inputs[..n], drop)) == Run(tenants, inputs[..n])
    ensures Run(tenants, Without(inputs[..n + 1], drop)) == Run(tenants, inputs[..n + 1])
  {
    hide *;
    assert inputs[..n + 1] == inputs[..n] + [inputs[n]];
    WithoutSnoc(inputs[..n], inputs[n], drop);
    RunAppend(tenants, inputs[..n], inputs[n]);
    if n in drop {
      CopyIsIdle(tenants, inputs, n);
    } else {
      RunAppend(tenants, Without(inputs[..n], drop), inputs[n]);
    }
  }

  lemma WithoutSnoc(inputs: seq<Input>, x: Input, drop: set<nat>)
    ensures Without(inputs + [x], drop) ==
            if |inputs| in drop then Without(inputs, drop) else Without(inputs, drop) + [x]
  {
    assert (inputs + [x])[..|inputs|] == inputs;
  }

  lemma RunAppend(tenants: set<Tenant>, inputs: seq<Input>, x: Input)
    ensures Run(tenants, inputs + [x]) == Step(Run(tenants, inputs), tenants, x)
  {
    assert (inputs + [x])[..|inputs|] == inputs;
  }

  // ---------------------------------------------------------------------------------------------
  // Copies that come later

  /** Between inputs j and i an event commits more than a day after input j. */
  ghost predicate PurgedBetween(tenants: set<Tenant>, inputs: seq<Input>, j: nat, i: nat)
    requires j < i <= |inputs|
  {
    exists k :: j < k < i && Fresh(Run(tenants, inputs[..k]), tenants, inputs[k]) &&
                inputs[k].at > inputs[j].at + 86_400_000_000
  }

  /** Every delivery between j and i that repeats the nonce of input j comes within a day of it. */
  predicate RepeatsAreEarly(inputs: seq<Input>, j: nat, i: nat)
    requires j < i <= |inputs| && inputs[j].Deliver?
  {
    forall k :: j < k < i && inputs[k].Deliver? && inputs[k].event.nonce == inputs[j].event.nonce ==>
      inputs[k].at <= inputs[j].at + 86_400_000_000
  }

  /** A recorded nonce is forgotten by exactly the commits that are more than a day younger. */
  lemma NonceStep(t: Table, tenants: set<Tenant>, x: Input, nonce: Nonce)
    requires nonce in t.nonces
    ensures var nonces := Step(t, tenants, x).nonces;
      if Fresh(t, tenants, x) && x.at > t.nonces[nonce] + 86_400_000_000 then nonce !in nonces
      else nonce in nonces && nonces[nonce] == t.nonces[nonce]
  {
  }

  lemma UnknownNonceStep(t: Table, tenants: set<Tenant>, x: Input, nonce: Nonce)
    requires nonce !in t.nonces && (x.Deliver? ==> x.event.nonce != nonce)
    ensures nonce !in Step(t, tenants, x).nonces
  {
  }

  lemma PurgedOneMore(tenants: set<Tenant>, inputs: seq<Input>, j: nat, i: nat)
    requires j < i < |inputs|
    ensures PurgedBetween(tenants, inputs, j, i + 1) <==>
            PurgedBetween(tenants, inputs, j, i) ||
            (Fresh(Run(tenants, inputs[..i]), tenants, inputs[i]) && inputs[i].at > inputs[j].at + 86_400_000_000)
  {
    hide Run, Fresh;
  }

  lemma NoPurgeWithinADay(tenants: set<Tenant>, inputs: seq<Input>, j: nat, i: nat)
    requires Ordered(inputs) && j < i < |inputs| && inputs[i].at <= inputs[j].at + 86_400_000_000
    ensures !PurgedBetween(tenants, inputs, j, i)
  {
    hide Run, Fresh;
    forall k | j < k < i ensures inputs[k].at <= inputs[i].at {
      InOrder(inputs, k, i);
    }
  }

  lemma RepeatsOneLess(inputs: seq<Input>, j: nat, i: nat)
    requires j < i < |inputs| && inputs[j].Deliver? && RepeatsAreEarly(inputs, j, i + 1)
    ensures RepeatsAreEarly(inputs, j, i)
    ensures inputs[i].Deliver? && inputs[i].event.nonce == inputs[j].event.nonce ==>
            inputs[i].at <= inputs[j].at + 86_400_000_000
  {
  }

  /** When an event is forgotten: not a day after its first receipt, but at the first commit after that day. */
  lemma {:induction false} ForgottenExactly(tenants: set<Tenant>, inputs: seq<Input>, j: nat, i: nat)
    requires Ordered(inputs) && FirstReceipt(inputs, j) && !AlwaysRefused(tenants, inputs[j].event)
    requires j < i <= |inputs| && RepeatsAreEarly(inputs, j, i)
    ensures var nonces, nonce := Run(tenants, inputs[..i]).nonces, inputs[j].event.nonce;
      && (nonce !in nonces <==> PurgedBetween(tenants, inputs, j, i))
      && (nonce in nonces ==> nonces[nonce] == inputs[j].at)
    decreases i
  {
    FirstIsDelivered(inputs, j);
    if i == j + 1 {
      hide *;
      RunSnoc(tenants, inputs, j);
      PrefixKeepsRows(tenants, inputs, j);
      NotYetSeen(tenants, inputs, j);
      FirstStep(Run(tenants, inputs[..j]), tenants, inputs[j]);
      NothingBetween(tenants, inputs, j);
    } else {
      var nonce := inputs[j].event.nonce;
      RepeatsOneLess(inputs, j, i - 1);
      hide *;
      ForgottenExactly(tenants, inputs, j, i - 1);
      RunSnoc(tenants, inputs, i - 1);
      PurgedOneMore(tenants, inputs, j, i - 1);
      var t := Run(tenants, inputs[..i - 1]);
      if inputs[i - 1].Deliver? && inputs[i - 1].event.nonce == nonce {
        NoPurgeWithinADay(tenants, inputs, j, i - 1);
      }
      if nonce in t.nonces {
        NonceStep(t, tenants, inputs[i - 1], nonce);
      } else {
        UnknownNonceStep(t, tenants, inputs[i - 1], nonce);
      }
    }
  }

  lemma NothingBetween(tenants: set<Tenant>, inputs: seq<Input>, j: nat)
    requires j < |inputs|
    ensures !PurgedBetween(tenants, inputs, j, j + 1)
  {
  }

  /** An event that is not refused finds something to write: a new always does, a close when a row of its key is open,
      an authentication when such a row does not hold its values and time already. */
  predicate FindsWork(rows: seq<Row>, e: Event, now: Time) {
    match e.action
    case NewAction => true
    case CloseAction => FindOpen(rows, KeyOf(e)).Some?
    case OtherAction =>
      var open := FindOpen(rows, KeyOf(e));
      e.peer.Some? && open.Some? && rows[open.value] != AuthenticatedRow(rows[open.value], e, now)
  }

  lemma WorkIsDone(t: Table, tenants: set<Tenant>, x: Input)
    requires x.Deliver? && RowsOk(t.rows, tenants, x.at) && !AlwaysRefused(tenants, x.event)
    ensures Step(t, tenants, x).rows != t.rows <==> x.event.nonce !in t.nonces && FindsWork(t.rows, x.event, x.at)
  {
    RefusedExactly(t.rows, tenants, x.event, x.found, x.at, x.at);
    var rows, e := t.rows, x.event;
    match e.action
    case NewAction =>
      var launch := FindLaunch(rows, e.tenant, e.rustdeskId, x.at);
      if launch.Some? {
        assert ClaimedRow(rows[launch.value], e, x.found, x.at) != rows[launch.value];
      }
    case CloseAction =>
      var open := FindOpen(rows, KeyOf(e));
      if open.Some? {
        assert ClosedRow(rows[open.value], x.at) != rows[open.value];
      }
    case OtherAction =>
  }

  /** Exactly when a redelivered event changes a row: a commit more than a day after its first receipt has come before
      it, and it finds something to write. */
  lemma CopyActsExactly(tenants: set<Tenant>, inputs: seq<Input>, j: nat, i: nat)
    requires Ordered(inputs) && FirstReceipt(inputs, j) && !AlwaysRefused(tenants, inputs[j].event)
    requires j < i < |inputs| && RepeatsAreEarly(inputs, j, i)
    requires inputs[i].Deliver? && inputs[i].event == inputs[j].event
    ensures var rows := Run(tenants, inputs[..i]).rows;
      Run(tenants, inputs[..i + 1]).rows != rows <==>
      PurgedBetween(tenants, inputs, j, i) && FindsWork(rows, inputs[i].event, inputs[i].at)
  {
    hide *;
    ForgottenExactly(tenants, inputs, j, i);
    RunSnoc(tenants, inputs, i);
    PrefixKeepsRows(tenants, inputs, i);
    WorkIsDone(Run(tenants, inputs[..i]), tenants, inputs[i]);
  }

  /** A run in which a copy acts: a session opens and closes; more than a day later a session with the same key opens;
      the first session's close, delivered again, ends it. */
  lemma LateCopyActs(tenants: set<Tenant>, e: Event, found: Option<DeviceId>, nonces: seq<Nonce>, at: seq<Time>,
                     inputs: seq<Input>)
    requires e.action == NewAction && !AlwaysRefused(tenants, e)
    requires |nonces| == 3 && NoRepeats(nonces)
    requires |at| == 4 && at[0] <= at[1] && at[1] + 86_400_000_000 < at[2] <= at[3]
    requires inputs == [Deliver(e.(nonce := nonces[0]), found, at[0]),
                        Deliver(e.(nonce := nonces[1], action := CloseAction), found, at[1]),
                        Deliver(e.(nonce := nonces[2]), found, at[2]),
                        Deliver(e.(nonce := nonces[1], action := CloseAction), found, at[3])]
    ensures FirstReceipt(inputs, 1) && inputs[3].event == inputs[1].event
    ensures var open, closed := Run(tenants, inputs[..3]).rows, Run(tenants, inputs).rows;
      |open| == |closed| == 2 && open[1].endedAt == None && closed[1].endedAt == Some(at[3])
  {
    var second := inputs[2].event;
    FourSteps(tenants, inputs);
    var t1 := Step(Table([], map[]), tenants, inputs[0]);
    var t2 := Step(t1, tenants, inputs[1]);
    var t3 := Step(t2, tenants, inputs[2]);
    hide *;
    InsertsRow(Table([], map[]), tenants, inputs[0]);
    var row := InsertedRow(inputs[0].event, found, at[0]);
    assert t1.rows == [] + [row];
    EndsLastRow(t1, tenants, inputs[1], [], row);
    InsertsRow(t2, tenants, inputs[2]);
    EndsLastRow(t3, tenants, inputs[3], [ClosedRow(row, at[1])], InsertedRow(second, found, at[2]));
  }

  lemma FourSteps(tenants: set<Tenant>, inputs: seq<Input>)
    requires |inputs| == 4
    ensures Run(tenants, inputs[..3]) ==
            Step(Step(Step(Table([], map[]), tenants, inputs[0]), tenants, inputs[1]), tenants, inputs[2])
    ensures Run(tenants, inputs) == Step(Run(tenants, inputs[..3]), tenants, inputs[3])
  {
    hide Step;
    assert inputs[..0] == [] && inputs[..4] == inputs;
    RunSnoc(tenants, inputs, 0);
    RunSnoc(tenants, inputs, 1);
    RunSnoc(tenants, inputs, 2);
  }

  /** A new event with no click to claim adds its open row. */
  lemma InsertsRow(t: Table, tenants: set<Tenant>, x: Input)
    requires x.Deliver? && x.event.action == NewAction && !AlwaysRefused(tenants, x.event)
    requires x.event.nonce !in t.nonces && forall row :: row in t.rows ==> row.status != Launched
    ensures var row := InsertedRow(x.event, x.found, x.at);
      && Step(t, tenants, x) == Table(t.rows + [row], Purge(t.nonces[x.event.nonce := x.at], x.at))
      && IsOpenFor(row, KeyOf(x.event)) && row.endedAt == None && row.status != Launched
  {
    assert FindLaunch(t.rows, x.event.tenant, x.event.rustdeskId, x.at).None?;
  }

  /** A close ends the last row if that is the only open one of its key. */
  lemma EndsLastRow(t: Table, tenants: set<Tenant>, x: Input, before: seq<Row>, last: Row)
    requires x.Deliver? && x.event.action == CloseAction && x.event.nonce !in t.nonces
    requires t.rows == before + [last] && IsOpenFor(last, KeyOf(x.event))
    requires forall row :: row in before ==> row.endedAt.Some?
    ensures Step(t, tenants, x) ==
            Table(before + [ClosedRow(last, x.at)], Purge(t.nonces[x.event.nonce := x.at], x.at))
    ensures ClosedRow(last, x.at).endedAt == Some(x.at) && ClosedRow(last, x.at).status != Launched
  {
    assert t.rows[|before|] == last;
    assert FindOpen(t.rows, KeyOf(x.event)) == Some(|before|);
    assert t.rows[|before| := ClosedRow(last, x.at)] == before + [ClosedRow(last, x.at)];
  }
}
