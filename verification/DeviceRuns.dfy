/** What every run of the device table keeps: unique ids, the trash, and truthful presence. */
module DeviceRuns {
  import opened Common
  import opened Devices

  /** A statement and the time at which it executes. */
  datatype Event = Event(statement: Statement, at: Time)

  ghost function Run(events: seq<Event>): Table {
    if events == [] then map[]
    else Execute(Run(events[..|events| - 1]), events[|events| - 1].statement, events[|events| - 1].at)
  }

  predicate Ordered(events: seq<Event>) {
    forall i, j :: 0 <= i < j < |events| ==> events[i].at <= events[j].at
  }

  lemma RunSnoc(events: seq<Event>, n: nat)
    requires n < |events|
    ensures Run(events[..n + 1]) == Execute(Run(events[..n]), events[n].statement, events[n].at)
  {
    assert events[..n + 1][..n] == events[..n];
  }

  // ---------------------------------------------------------------------------------------------
  // Unique RustDesk ids

  predicate SameId(rows: Table, k: Key, l: Key) {
    k in rows && l in rows && k.tenant == l.tenant && rows[k].rustdeskId == rows[l].rustdeskId
  }

  ghost predicate Unique(rows: Table) {
    forall k, l :: SameId(rows, k, l) ==> k == l
  }

  lemma ExecuteKeepsUnique(rows: Table, s: Statement, now: Time)
    requires Unique(rows)
    ensures Unique(Execute(rows, s, now))
  {
    var rows' := Execute(rows, s, now);
    forall k, l | SameId(rows', k, l) ensures k == l {
      if k in rows && l in rows &&
         rows'[k].rustdeskId == rows[k].rustdeskId && rows'[l].rustdeskId == rows[l].rustdeskId {
        assert SameId(rows, k, l);
      }
    }
  }

  lemma {:induction false} RunKeepsUnique(events: seq<Event>)
    ensures Unique(Run(events))
  {
    if events != [] {
      var n := |events| - 1;
      RunKeepsUnique(events[..n]);
      ExecuteKeepsUnique(Run(events[..n]), events[n].statement, events[n].at);
    }
  }

  // ---------------------------------------------------------------------------------------------
  // The trash

  /** The two administrator's statements that take k out of the trash. */
  predicate Releases(s: Statement, k: Key) {
    s == Restore(k) || s == Purge(k)
  }

  /** k is in the trash as before: same deletion time, same RustDesk id. */
  predicate StaysInTrash(rows: Table, rows': Table, k: Key) {
    && InTrash(rows', k) && k in rows
    && rows'[k].deletedAt == rows[k].deletedAt && rows'[k].rustdeskId == rows[k].rustdeskId
  }

  /** Apart from restore and purge, exactly one statement takes a device out of the trash: the placeholder delete of
      the client that took over its RustDesk id. */
  lemma TrashStepExactly(rows: Table, s: Statement, now: Time, k: Key)
    requires InTrash(rows, k) && !Releases(s, k)
    ensures StaysInTrash(rows, Execute(rows, s, now), k) <==> !Displaces(rows, s, k)
  {
  }

  /** A device in the trash that is not a placeholder stays there, and no other row of its tenant, live or not, gets
      its RustDesk id, whatever clients, agents, hbbs and the sweeper do. */
  lemma {:induction false} TrashIsKept(events: seq<Event>, n: nat, k: Key)
    requires n <= |events| && InTrash(Run(events[..n]), k) && !IsPlaceholder(k.uuid)
    requires forall i :: n <= i < |events| ==> !Releases(events[i].statement, k)
    ensures StaysInTrash(Run(events[..n]), Run(events), k)
    ensures forall l :: SameId(Run(events), k, l) ==> l == k
  {
    if n == |events| {
      assert events[..n] == events;
    } else {
      var m := |events| - 1;
      assert events[..m][..n] == events[..n];
      TrashIsKept(events[..m], n, k);
      TrashStepExactly(Run(events[..m]), events[m].statement, events[m].at, k);
    }
    RunKeepsUnique(events);
  }

  /** Why placeholders are excluded: a heartbeat of another uuid with the placeholder's RustDesk id removes it from
      the trash, and the same heartbeat then creates a live row with that id. */
  lemma PlaceholderLeavesTrash(rows: Table, k: Key, key: Key, ip: string, now: Time)
    requires Unique(rows) && InTrash(rows, k) && IsPlaceholder(k.uuid)
    requires key.tenant == k.tenant && key != k && key !in rows
    ensures var id := rows[k].rustdeskId;
      var rows1 := Execute(rows, DeletePlaceholders(key.tenant, id, key.uuid), now);
      var rows2 := Execute(rows1, Upsert(key, id, Heartbeat(ip)), now);
      k !in rows2 && key in rows2 && rows2[key].deletedAt.None? && rows2[key].rustdeskId == id
  {
    var id := rows[k].rustdeskId;
    var s := DeletePlaceholders(key.tenant, id, key.uuid);
    assert Displaces(rows, s, k);
    var rows1 := Execute(rows, s, now);
    if IdTaken(rows1, key, id) {
      var l :| l in rows1 && l != key && l.tenant == key.tenant && rows1[l].rustdeskId == id;
      assert SameId(rows, k, l);
    }
  }

  /** Being in the trash does not keep a device offline: exactly an agent's presence update brings it online. */
  lemma TrashedOnlineExactly(rows: Table, s: Statement, now: Time, k: Key)
    requires InTrash(rows, k) && !rows[k].online && k in Execute(rows, s, now)
    ensures Execute(rows, s, now)[k].online <==> s == SetPresence(k, true)
  {
  }

  // ---------------------------------------------------------------------------------------------
  // Presence

  /** Online devices have been seen, since a time no later than they were last seen. */
  predicate PresenceOk(d: Device, now: Time) {
    && d.lastSeen.Some? && d.onlineSince.Some?
    && d.onlineSince.value <= d.lastSeen.value <= now
  }

  ghost predicate AllPresent(rows: Table, now: Time) {
    forall k :: k in rows ==> PresenceOk(rows[k], now)
  }

  /** The statement marks k as seen now. */
  ghost predicate Contacts(rows: Table, s: Statement, k: Key) {
    match s
    case Upsert(key, rustdeskId, _) =>
      k == key && !InTrash(rows, k) && !Refuses(rows, key, rustdeskId)
    case TouchById(tenant, rustdeskId, _, _) => Matches(rows, k, tenant, rustdeskId)
    case SetPresence(key, online) => k == key && online && k in rows
    case ConfirmOnline(ids) => k in rows && rows[k].deletedAt.None? && rows[k].rustdeskId in ids
    case _ => false
  }

  /** What one statement does to the presence of one device. */
  lemma PresenceStep(rows: Table, s: Statement, now: Time, k: Key)
    requires k in Execute(rows, s, now)
    ensures var d := Execute(rows, s, now)[k];
      if Contacts(rows, s, k) then
        && d.online && d.lastSeen == Some(now)
        && d.onlineSince == (if k in rows && rows[k].online then rows[k].onlineSince else Some(now))
      else
        && k in rows && d.lastSeen == rows[k].lastSeen && d.onlineSince == rows[k].onlineSince
        && (d.online ==> rows[k].online)
        && (s == Sweep ==> (d.online <==> rows[k].online && !Stale(rows[k], now)))
  {
  }

  /** In every reachable table, every device was last seen no earlier than it came online and no later than now. */
  lemma {:induction false} RunKeepsPresence(events: seq<Event>, now: Time)
    requires Ordered(events) && (events != [] ==> events[|events| - 1].at <= now)
    ensures AllPresent(Run(events), now)
  {
    if events != [] {
      hide Execute, Contacts, Stale;
      var n := |events| - 1;
      RunKeepsPresence(events[..n], events[n].at);
      forall k | k in Run(events) ensures PresenceOk(Run(events)[k], now) {
        PresenceStep(Run(events[..n]), events[n].statement, events[n].at, k);
      }
    }
  }

  /** Event i of the run contacts k. */
  ghost predicate ContactAt(events: seq<Event>, i: nat, k: Key) {
    i < |events| && Contacts(Run(events[..i]), events[i].statement, k)
  }

  ghost predicate OnlineAt(events: seq<Event>, n: nat, k: Key) {
    n <= |events| && k in Run(events[..n]) && Run(events[..n])[k].online
  }

  /** A device was last seen by the last event that contacted it. */
  lemma {:induction false} LastSeenIsLastContact(events: seq<Event>, n: nat, k: Key) returns (i: nat)
    requires n <= |events| && k in Run(events[..n])
    ensures i < n && ContactAt(events, i, k) && Run(events[..n])[k].lastSeen == Some(events[i].at)
    ensures forall j :: i < j < n ==> !ContactAt(events, j, k)
  {
    hide Execute, Contacts, Stale;
    var m := n - 1;
    RunSnoc(events, m);
    PresenceStep(Run(events[..m]), events[m].statement, events[m].at, k);
    if ContactAt(events, m, k) {
      i := m;
    } else {
      i := LastSeenIsLastContact(events, m, k);
    }
  }

  /** Event i of the run is an upsert of k that takes effect: k is not in the trash, and no other device of its tenant
      has the RustDesk id. */
  ghost predicate UpsertsAt(events: seq<Event>, i: nat, k: Key) {
    && i < |events| && events[i].statement.Upsert? && events[i].statement.key == k
    && !(k in Run(events[..i]) && Run(events[..i])[k].deletedAt.Some?)
    && !HasOther(Run(events[..i]), k, events[i].statement.rustdeskId)
  }

  /** What one statement does to the RustDesk id of one device. */
  lemma IdStep(rows: Table, s: Statement, now: Time, k: Key)
    requires k in Execute(rows, s, now)
    ensures var id := Execute(rows, s, now)[k].rustdeskId;
      if s.Upsert? && s.key == k && !(k in rows && rows[k].deletedAt.Some?) && !HasOther(rows, k, s.rustdeskId)
      then id == s.rustdeskId
      else k in rows && id == rows[k].rustdeskId
  {
    if s.Upsert? {
      UpsertExactly(rows, s.key, s.rustdeskId, s.source, now);
    }
  }

  /** A device has the RustDesk id of the last upsert of it that took effect. */
  lemma {:induction false} IdIsLastUpsert(events: seq<Event>, n: nat, k: Key) returns (i: nat)
    requires n <= |events| && k in Run(events[..n])
    ensures i < n && UpsertsAt(events, i, k) && Run(events[..n])[k].rustdeskId == events[i].statement.rustdeskId
    ensures forall j :: i < j < n ==> !UpsertsAt(events, j, k)
  {
    hide Execute, HasOther;
    var m := n - 1;
    RunSnoc(events, m);
    IdStep(Run(events[..m]), events[m].statement, events[m].at, k);
    if UpsertsAt(events, m, k) {
      i := m;
    } else {
      i := IdIsLastUpsert(events, m, k);
    }
  }

  /** online_since is when the current online stretch began: at a contact before which the device was not online and
      since which it has been. */
  lemma {:induction false} OnlineSinceIsStretchStart(events: seq<Event>, n: nat, k: Key) returns (i: nat)
    requires OnlineAt(events, n, k)
    ensures i < n && ContactAt(events, i, k) && Run(events[..n])[k].onlineSince == Some(events[i].at)
    ensures !OnlineAt(events, i, k) && forall j :: i < j <= n ==> OnlineAt(events, j, k)
  {
    hide Execute, Contacts, Stale;
    var m := n - 1;
    RunSnoc(events, m);
    PresenceStep(Run(events[..m]), events[m].statement, events[m].at, k);
    if OnlineAt(events, m, k) {
      i := OnlineSinceIsStretchStart(events, m, k);
    } else {
      i := m;
    }
  }

  /** A sweep keeps an online device online exactly when some event contacted it within the last sixty seconds; in
      particular a device contacted at least every sixty seconds is never swept. */
  lemma SweptExactly(events: seq<Event>, n: nat, k: Key)
    requires Ordered(events) && n < |events| && events[n].statement == Sweep && OnlineAt(events, n, k)
    ensures OnlineAt(events, n + 1, k) <==>
            exists i :: 0 <= i < n && ContactAt(events, i, k) && events[i].at >= events[n].at - 60_000_000
    ensures OnlineAt(events, n + 1, k) ==>
            var d := Run(events[..n + 1])[k]; d.lastSeen.Some? && d.lastSeen.value >= events[n].at - SIXTY_SECONDS
  {
    var rows := Run(events[..n]);
    RunSnoc(events, n);
    var last := LastSeenIsLastContact(events, n, k);
    assert k in Execute(rows, Sweep, events[n].at);
    PresenceStep(rows, Sweep, events[n].at, k);
    hide *;
    forall i | 0 <= i < n && ContactAt(events, i, k) ensures events[i].at <= events[last].at {
      OrderedAt(events, i, last);
    }
    StaleMeaning(rows[k], events[n].at);
    OnlineMeaning(events, n + 1, k);
    OnlineMeaning(events, n, k);
  }

  lemma OrderedAt(events: seq<Event>, i: nat, j: nat)
    requires Ordered(events) && i <= j < |events|
    ensures events[i].at <= events[j].at
  {
  }

  lemma StaleMeaning(d: Device, now: Time)
    requires d.online && d.lastSeen.Some?
    ensures Stale(d, now) <==> d.lastSeen.value < now - SIXTY_SECONDS
  {
  }

  lemma OnlineMeaning(events: seq<Event>, n: nat, k: Key)
    requires n <= |events|
    ensures OnlineAt(events, n, k) <==> k in Run(events[..n]) && Run(events[..n])[k].online
  {
  }
}
