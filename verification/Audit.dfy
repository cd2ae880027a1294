/** The connection audit: events from RustDesk clients and launches from the dashboard, correlated into rows. */
module Audit {
  import opened Common

  type Nonce = int
  type DeviceId = int
  type UserId = int

  const TWO_MINUTES: Time := 120_000_000
  const ONE_DAY: Time := 86_400_000_000

  datatype Status = Launched | Connecting | Active | Closed

  /** The address text of an event; Malformed is a text that the ::inet cast refuses. */
  datatype Ip = NoIp | Inet(address: string) | Malformed(text: string)

  /** The action text; OtherAction is any other text, or none. */
  datatype Action = NewAction | CloseAction | OtherAction

  datatype Peer = Peer(id: string, name: string)

  datatype Event = Event(
    tenant: Tenant,
    rustdeskId: string,
    uuid: string,
    connId: int,
    sessionId: int,
    nonce: Nonce,
    action: Action,
    ip: Ip,
    peer: Option<Peer>,
    connectionType: Option<int>)

  datatype Row = Row(
    tenant: Tenant,
    device: Option<DeviceId>,
    rustdeskId: string,
    uuid: string,
    connId: Option<int>,
    sessionId: Option<int>,
    peer: Option<Peer>,
    ip: Ip,
    connectionType: Option<int>,
    initiatedBy: Option<UserId>,
    status: Status,
    launchedAt: Option<Time>,
    startedAt: Option<Time>,
    endedAt: Option<Time>,
    createdAt: Time,
    updatedAt: Time)

  /** connection_audit in insertion order, and connection_audit_nonces. */
  datatype Table = Table(rows: seq<Row>, nonces: map<Nonce, Time>)

  // ---------------------------------------------------------------------------------------------
  // The queries

  /** A dashboard click that a new event may claim. */
  predicate Claimable(row: Row, tenant: Tenant, rustdeskId: string, now: Time) {
    && row.tenant == tenant && row.rustdeskId == rustdeskId && row.status == Launched
    && row.launchedAt.Some? && row.launchedAt.value > now - TWO_MINUTES
  }

  /** The claimable row launched last; of equally late ones the last inserted. */
  function FindLaunch(rows: seq<Row>, tenant: Tenant, rustdeskId: string, now: Time): (r: Option<nat>)
    ensures r.Some? ==> r.value < |rows| && Claimable(rows[r.value], tenant, rustdeskId, now)
    ensures r.Some? ==> forall i :: 0 <= i < |rows| && Claimable(rows[i], tenant, rustdeskId, now) ==>
      rows[i].launchedAt.value <= rows[r.value].launchedAt.value
    ensures r.None? ==> forall i :: 0 <= i < |rows| ==> !Claimable(rows[i], tenant, rustdeskId, now)
  {
    if rows == [] then None
    else
      var n := |rows| - 1;
      var best := FindLaunch(rows[..n], tenant, rustdeskId, now);
      if !Claimable(rows[n], tenant, rustdeskId, now) then best
      else if best.Some? && rows[best.value].launchedAt.value > rows[n].launchedAt.value then best
      else Some(n)
  }

  /** What correlates events: tenant, device uuid, connection and session. */
  datatype Key = Key(tenant: Tenant, uuid: string, connId: int, sessionId: int)

  function KeyOf(e: Event): Key {
    Key(e.tenant, e.uuid, e.connId, e.sessionId)
  }

  predicate IsOpenFor(row: Row, key: Key) {
    && row.tenant == key.tenant && row.uuid == key.uuid
    && row.connId == Some(key.connId) && row.sessionId == Some(key.sessionId)
    && row.endedAt == None
  }

  /** The open row of the key created last; of equally late ones the last inserted. */
  function FindOpen(rows: seq<Row>, key: Key): (r: Option<nat>)
    ensures r.Some? ==> r.value < |rows| && IsOpenFor(rows[r.value], key)
    ensures r.Some? ==> forall i :: 0 <= i < |rows| && IsOpenFor(rows[i], key) ==>
      rows[i].createdAt <= rows[r.value].createdAt
    ensures r.None? ==> forall i :: 0 <= i < |rows| ==> !IsOpenFor(rows[i], key)
  {
    if rows == [] then None
    else
      var n := |rows| - 1;
      var best := FindOpen(rows[..n], key);
      if !IsOpenFor(rows[n], key) then best
      else if best.Some? && rows[best.value].createdAt > rows[n].createdAt then best
      else Some(n)
  }

  // ---------------------------------------------------------------------------------------------
  // The statements

  function ClaimedRow(row: Row, e: Event, device: Option<DeviceId>, now: Time): Row {
    row.(device := if device.Some? then device else row.device,
         uuid := e.uuid, connId := Some(e.connId), sessionId := Some(e.sessionId), ip := e.ip,
         status := Connecting, startedAt := Some(now), updatedAt := now)
  }

  function InsertedRow(e: Event, device: Option<DeviceId>, now: Time): Row {
    Row(e.tenant, device, e.rustdeskId, e.uuid, Some(e.connId), Some(e.sessionId), None, e.ip, None, None,
        Connecting, None, Some(now), None, now, now)
  }

  function ClosedRow(row: Row, now: Time): Row {
    row.(status := Closed, endedAt := Some(now), updatedAt := now)
  }

  function AuthenticatedRow(row: Row, e: Event, now: Time): Row {
    row.(peer := e.peer, connectionType := e.connectionType, status := Active, updatedAt := now)
  }

  function LaunchedRow(tenant: Tenant, device: DeviceId, rustdeskId: string, uuid: string, user: UserId, now: Time)
    : Row
  {
    Row(tenant, Some(device), rustdeskId, uuid, None, None, None, NoIp, None, Some(user),
        Launched, Some(now), None, None, now, now)
  }

  function Purge(nonces: map<Nonce, Time>, now: Time): map<Nonce, Time> {
    map n | n in nonces && nonces[n] >= now - ONE_DAY :: nonces[n]
  }

  /** The rows after a fresh event, or the error that rolls the transaction back. */
  function Applied(rows: seq<Row>, tenants: set<Tenant>, e: Event, device: Option<DeviceId>, now: Time)
    : Option<seq<Row>>
  {
    match e.action
    case NewAction =>
      if e.ip.Malformed? then None
      else
        (match FindLaunch(rows, e.tenant, e.rustdeskId, now)
         case Some(i) => Some(rows[i := ClaimedRow(rows[i], e, device, now)])
         case None => if e.tenant in tenants then Some(rows + [InsertedRow(e, device, now)]) else None)
    case CloseAction =>
      (match FindOpen(rows, KeyOf(e))
       case Some(i) => Some(rows[i := ClosedRow(rows[i], now)])
       case None => Some(rows))
    case OtherAction =>
      if e.peer.None? then Some(rows)
      else
        match FindOpen(rows, KeyOf(e))
        case Some(i) => Some(rows[i := AuthenticatedRow(rows[i], e, now)])
        case None => Some(rows)
  }

  /** One event: a known nonce changes nothing; a failing statement changes nothing. */
  function Received(t: Table, tenants: set<Tenant>, e: Event, device: Option<DeviceId>, now: Time): Table {
    if e.nonce in t.nonces then t
    else
      match Applied(t.rows, tenants, e, device, now)
      case None => t
      case Some(rows) => Table(rows, Purge(t.nonces[e.nonce := now], now))
  }

  datatype Reply = Accepted | Duplicate | DbError | NotFound

  class Server {
    var rows: seq<Row>
    var nonces: map<Nonce, Time>
    const tenants: set<Tenant>

    constructor (tenants: set<Tenant>)
      ensures View() == Table([], map[]) && this.tenants == tenants
    {
      this.tenants := tenants;
      rows, nonces := [], map[];
    }

    function View(): Table
      reads this
    {
      Table(rows, nonces)
    }

    /** One transaction: rows and nonces are written back only when it commits. */
    method ReceiveConnectionAudit(e: Event, device: Option<DeviceId>, now: Time) returns (reply: Reply)
      modifies this
      ensures View() == Received(old(View()), tenants, e, device, now)
      ensures reply == Duplicate <==> e.nonce in old(nonces)
      ensures reply == DbError <==> e.nonce !in old(nonces) && Applied(old(rows), tenants, e, device, now).None?
      ensures reply != NotFound
    {
      var rows', nonces' := rows, nonces;
      if e.nonce in nonces' {
        return Duplicate;
      }
      nonces' := nonces'[e.nonce := now];
      if e.action == NewAction {
        if e.ip.Malformed? {
          return DbError;
        }
        var launch := FindLaunch(rows', e.tenant, e.rustdeskId, now);
        if launch.Some? {
          rows' := rows'[launch.value := ClaimedRow(rows'[launch.value], e, device, now)];
        } else if e.tenant in tenants {
          rows' := rows' + [InsertedRow(e, device, now)];
        } else {
          return DbError;
        }
      } else if e.action == CloseAction {
        var open := FindOpen(rows', KeyOf(e));
        if open.Some? {
          rows' := rows'[open.value := ClosedRow(rows'[open.value], now)];
        }
      } else if e.peer.Some? {
        var open := FindOpen(rows', KeyOf(e));
        if open.Some? {
          rows' := rows'[open.value := AuthenticatedRow(rows'[open.value], e, now)];
        }
      }
      nonces' := Purge(nonces', now);
      rows, nonces := rows', nonces';
      return Accepted;
    }

    /** A click on connect: found is the device's RustDesk id and uuid if the tenant has it. */
    method RegisterLaunch(tenant: Tenant, device: DeviceId, found: Option<(string, string)>, user: UserId, now: Time)
      returns (reply: Reply)
      modifies `rows
      ensures found.None? ==> reply == NotFound && rows == old(rows)
      ensures found.Some? ==> reply == Accepted
      ensures found.Some? ==>
        rows == old(rows) + [LaunchedRow(tenant, device, found.value.0, found.value.1, user, now)]
      ensures found.Some? ==>
        var row := rows[|rows| - 1];
        && row.tenant == tenant && row.device == Some(device) && row.initiatedBy == Some(user)
        && row.rustdeskId == found.value.0 && row.uuid == found.value.1
        && row.status == Launched && row.launchedAt == Some(now) && row.createdAt == now && row.updatedAt == now
        && row.connId == None && row.sessionId == None && row.peer == None && row.ip == NoIp
        && row.connectionType == None && row.startedAt == None && row.endedAt == None
    {
      if found.None? {
        return NotFound;
      }
      rows := rows + [LaunchedRow(tenant, device, found.value.0, found.value.1, user, now)];
      return Accepted;
    }
  }

  // ---------------------------------------------------------------------------------------------
  // Runs

  /** An input of the audit. The device id of a delivery is what the lookup found; a launch of a device that the
      tenant does not have is refused before it reaches the table and does not appear here. */
  datatype Input =
    | Deliver(event: Event, found: Option<DeviceId>, at: Time)
    | Launch(tenant: Tenant, device: DeviceId, rustdeskId: string, uuid: string, user: UserId, at: Time)

  function Step(t: Table, tenants: set<Tenant>, x: Input): Table {
    match x
    case Deliver(e, found, at) => Received(t, tenants, e, found, at)
    case Launch(tenant, device, rustdeskId, uuid, user, at) =>
      if tenant in tenants then t.(rows := t.rows + [LaunchedRow(tenant, device, rustdeskId, uuid, user, at)]) else t
  }

  function Run(tenants: set<Tenant>, inputs: seq<Input>): Table {
    if inputs == [] then Table([], map[])
    else Step(Run(tenants, inputs[..|inputs| - 1]), tenants, inputs[|inputs| - 1])
  }

  /** The clock never goes back. */
  predicate Ordered(inputs: seq<Input>) {
    forall i, j :: 0 <= i < j < |inputs| ==> inputs[i].at <= inputs[j].at
  }

  /** x is an event that is new to the table and commits. */
  predicate Fresh(t: Table, tenants: set<Tenant>, x: Input) {
    x.Deliver? && x.event.nonce !in t.nonces && Applied(t.rows, tenants, x.event, x.found, x.at).Some?
  }
}
