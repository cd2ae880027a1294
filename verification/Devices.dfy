/** The device table: self-registration, presence, the trash. Each operation below is one SQL statement. */
module Devices {
  import opened Common

  const SIXTY_SECONDS: Time := 60_000_000

  /** A device is unique by tenant and uuid, and again by tenant and RustDesk id. */
  datatype Key = Key(tenant: Tenant, uuid: string)

  datatype Device = Device(
    rustdeskId: string,
    hostname: Option<string>,
    os: Option<string>,
    ip: Option<string>,
    lastSeen: Option<Time>,
    online: bool,
    onlineSince: Option<Time>,
    deletedAt: Option<Time>)

  type Table = map<Key, Device>

  datatype DbError = UniqueViolation

  /** Who registers a device, and what it says about it. */
  datatype Source =
    | Heartbeat(ip: string)
    | Sysinfo(hostname: Option<string>, os: Option<string>, ip: string)
    | AgentHello(hostname: Option<string>, os: Option<string>)

  datatype Statement =
    | DeletePlaceholders(tenant: Tenant, rustdeskId: string, uuid: string)
    | Upsert(key: Key, rustdeskId: string, source: Source)
    | TouchById(tenant: Tenant, rustdeskId: string, hostname: Option<string>, os: Option<string>)
    | SetPresence(key: Key, online: bool)
    | ConfirmOnline(ids: set<string>)
    | Sweep
    | SoftDelete(key: Key)
    | Restore(key: Key)
    | Purge(key: Key)

  /** uuid LIKE 'host-%': the uuid an agent derives from a host name. */
  predicate IsPlaceholder(uuid: string) {
    "host-" <= uuid
  }

  /** Another device of the tenant already has the RustDesk id. */
  ghost predicate IdTaken(rows: Table, key: Key, rustdeskId: string) {
    exists k :: k in rows && k != key && k.tenant == key.tenant && rows[k].rustdeskId == rustdeskId
  }

  /** The device is soft-deleted: an upsert of its key does nothing. */
  predicate InTrash(rows: Table, key: Key) {
    key in rows && rows[key].deletedAt.Some?
  }

  /** An upsert of the key would give two devices of the tenant the same RustDesk id, and fails. */
  ghost predicate Refuses(rows: Table, key: Key, rustdeskId: string) {
    !InTrash(rows, key) && IdTaken(rows, key, rustdeskId)
  }

  function Coalesce<T>(a: Option<T>, b: Option<T>): Option<T> {
    if a.Some? then a else b
  }

  /** Seen now: online, and online since now if it was offline. */
  function Touched(d: Device, now: Time): Device {
    d.(lastSeen := Some(now), online := true, onlineSince := if d.online then d.onlineSince else Some(now))
  }

  function Registered(rustdeskId: string, source: Source, now: Time): Device {
    var blank := Device(rustdeskId, None, None, None, Some(now), true, Some(now), None);
    match source
    case Heartbeat(ip) => blank.(ip := Some(ip))
    case Sysinfo(hostname, os, ip) => blank.(hostname := hostname, os := os, ip := Some(ip))
    case AgentHello(hostname, os) => blank.(hostname := hostname, os := os)
  }

  function Reregistered(d: Device, rustdeskId: string, source: Source, now: Time): Device {
    var seen := Touched(d, now).(rustdeskId := rustdeskId);
    match source
    case Heartbeat(ip) => seen.(ip := Some(ip))
    case Sysinfo(hostname, os, ip) => seen.(hostname := hostname, os := os, ip := Some(ip))
    case AgentHello(hostname, os) => seen.(hostname := Coalesce(hostname, d.hostname), os := Coalesce(os, d.os))
  }

  /** The rows a touch by RustDesk id reaches. */
  predicate Matches(rows: Table, k: Key, tenant: Tenant, rustdeskId: string) {
    k in rows && k.tenant == tenant && rows[k].rustdeskId == rustdeskId && rows[k].deletedAt.None?
  }

  predicate Stale(d: Device, now: Time) {
    d.online && d.lastSeen.Some? && d.lastSeen.value < now - SIXTY_SECONDS
  }

  /** The table after a statement; a statement that violates a constraint changes nothing. */
  ghost function Execute(rows: Table, s: Statement, now: Time): Table {
    match s
    case DeletePlaceholders(tenant, rustdeskId, uuid) =>
      map k | k in rows && !Displaces(rows, s, k) :: rows[k]
    case Upsert(key, rustdeskId, source) =>
      if InTrash(rows, key) || Refuses(rows, key, rustdeskId) then rows
      else rows[key := if key in rows then Reregistered(rows[key], rustdeskId, source, now)
                       else Registered(rustdeskId, source, now)]
    case TouchById(tenant, rustdeskId, hostname, os) =>
      map k | k in rows ::
        if Matches(rows, k, tenant, rustdeskId)
        then Touched(rows[k], now).(hostname := Coalesce(hostname, rows[k].hostname), os := Coalesce(os, rows[k].os))
        else rows[k]
    case SetPresence(key, online) =>
      if key !in rows then rows
      else rows[key := if online then Touched(rows[key], now) else rows[key].(online := false)]
    case ConfirmOnline(ids) =>
      map k | k in rows ::
        if rows[k].deletedAt.None? && rows[k].rustdeskId in ids then Touched(rows[k], now) else rows[k]
    case Sweep =>
      map k | k in rows :: if Stale(rows[k], now) then rows[k].(online := false) else rows[k]
    case SoftDelete(key) =>
      if key in rows && rows[key].deletedAt.None? then rows[key := rows[key].(deletedAt := Some(now), online := false)]
      else rows
    case Restore(key) =>
      if key in rows then rows[key := rows[key].(deletedAt := None)] else rows
    case Purge(key) =>
      if key in rows && rows[key].deletedAt.Some? then rows - {key} else rows
  }

  /** s deletes k as a placeholder that the real client has made superfluous. */
  predicate Displaces(rows: Table, s: Statement, k: Key) {
    && s.DeletePlaceholders? && k in rows
    && k.tenant == s.tenant && rows[k].rustdeskId == s.rustdeskId && k.uuid != s.uuid && IsPlaceholder(k.uuid)
  }

  // ---------------------------------------------------------------------------------------------
  // What a registration leaves, column by column

  /** The placeholder delete of (tenant, uuid) with the RustDesk id removes the device. */
  predicate IsReplaced(rows: Table, k: Key, tenant: Tenant, rustdeskId: string, uuid: string) {
    && k in rows && k.tenant == tenant && rows[k].rustdeskId == rustdeskId
    && k.uuid != uuid && |k.uuid| >= 5 && k.uuid[..5] == "host-"
  }

  /** The tenant has another device with the RustDesk id. */
  ghost predicate HasOther(rows: Table, key: Key, rustdeskId: string) {
    exists k :: k in rows && k != key && k.tenant == key.tenant && rows[k].rustdeskId == rustdeskId
  }

  /** Every column of a device that has registered at time now: its new RustDesk id, seen now, online since now or
      earlier, live, and what the source says about it. */
  predicate RegisteredAs(before: Option<Device>, after: Device, rustdeskId: string, source: Source, now: Time) {
    var hostname := if before.Some? then before.value.hostname else None;
    var os := if before.Some? then before.value.os else None;
    var ip := if before.Some? then before.value.ip else None;
    && after.rustdeskId == rustdeskId && after.online && after.lastSeen == Some(now) && after.deletedAt == None
    && after.onlineSince ==
         (if before.Some? && before.value.online then before.value.onlineSince else Some(now))
    && match source
       case Heartbeat(from) => after.ip == Some(from) && after.hostname == hostname && after.os == os
       case Sysinfo(h, o, from) => after.ip == Some(from) && after.hostname == h && after.os == o
       case AgentHello(h, o) =>
         && after.ip == ip
         && after.hostname == (if h.Some? then h else hostname) && after.os == (if o.Some? then o else os)
  }

  function Found(rows: Table, key: Key): Option<Device> {
    if key in rows then Some(rows[key]) else None
  }

  /** An upsert changes nothing if its device is in the trash or the tenant has another device with the RustDesk id;
      otherwise it registers its device and leaves every other one alone. */
  lemma UpsertExactly(rows: Table, key: Key, rustdeskId: string, source: Source, now: Time)
    ensures var after := Execute(rows, Upsert(key, rustdeskId, source), now);
      if (key in rows && rows[key].deletedAt.Some?) || HasOther(rows, key, rustdeskId) then after == rows
      else
        && after.Keys == rows.Keys + {key} && (forall k :: k in rows && k != key ==> after[k] == rows[k])
        && RegisteredAs(Found(rows, key), after[key], rustdeskId, source, now)
  {
  }

  lemma DeleteExactly(rows: Table, tenant: Tenant, rustdeskId: string, uuid: string, now: Time)
    ensures var after := Execute(rows, DeletePlaceholders(tenant, rustdeskId, uuid), now);
      && (forall k :: k in after <==> k in rows && !IsReplaced(rows, k, tenant, rustdeskId, uuid))
      && (forall k :: k in after ==> after[k] == rows[k])
  {
  }

  /** A touch by RustDesk id reaches exactly the live devices of the tenant with that id: seen now, online since now or
      earlier, and what it knows of their host name and system. */
  lemma TouchExactly(rows: Table, tenant: Tenant, rustdeskId: string, hostname: Option<string>, os: Option<string>,
                     now: Time)
    ensures var after := Execute(rows, TouchById(tenant, rustdeskId, hostname, os), now);
      && after.Keys == rows.Keys
      && forall k :: k in rows ==>
           var d := rows[k];
           after[k] == if k.tenant == tenant && d.rustdeskId == rustdeskId && d.deletedAt == None
                       then Device(rustdeskId, if hostname.Some? then hostname else d.hostname,
                                   if os.Some? then os else d.os, d.ip, Some(now), true,
                                   if d.online then d.onlineSince else Some(now), None)
                       else d
  {
  }

  // ---------------------------------------------------------------------------------------------
  // The handlers

  /** The host name an agent reports, or the one its placeholder uuid was made from. */
  function AgentHostname(key: Key, reported: Option<string>): Option<string> {
    if reported.Some? then reported
    else if IsPlaceholder(key.uuid) then Some(key.uuid[|"host-"|..])
    else None
  }

  predicate HasRealId(rustdeskId: Option<string>) {
    rustdeskId.Some? && rustdeskId.value != ""
  }

  function AgentId(key: Key, rustdeskId: Option<string>, hostname: Option<string>): string {
    if HasRealId(rustdeskId) then rustdeskId.value
    else "agent:" + if hostname.Some? then hostname.value else key.uuid
  }

  class Server {
    var rows: Table

    method ExecDeletePlaceholders(tenant: Tenant, rustdeskId: string, uuid: string, ghost now: Time)
      modifies this
      ensures rows == Execute(old(rows), DeletePlaceholders(tenant, rustdeskId, uuid), now)
    {
      rows := map k | k in rows &&
        !(k.tenant == tenant && rows[k].rustdeskId == rustdeskId && k.uuid != uuid && IsPlaceholder(k.uuid)) :: rows[k];
    }

    /** returned tells whether RETURNING had a row. */
    method ExecUpsert(key: Key, rustdeskId: string, source: Source, now: Time) returns (r: Result<bool, DbError>)
      modifies this
      ensures rows == Execute(old(rows), Upsert(key, rustdeskId, source), now)
      ensures r == if InTrash(old(rows), key) then Ok(false)
                   else if Refuses(old(rows), key, rustdeskId) then Err(UniqueViolation)
                   else Ok(true)
    {
      if key in rows && rows[key].deletedAt.Some? {
        return Ok(false);
      }
      var holders := set k | k in rows && k != key && k.tenant == key.tenant && rows[k].rustdeskId == rustdeskId;
      assert holders != {} <==> IdTaken(rows, key, rustdeskId) by {
        if IdTaken(rows, key, rustdeskId) {
          var k :| k in rows && k != key && k.tenant == key.tenant && rows[k].rustdeskId == rustdeskId;
          assert k in holders;
        }
      }
      if holders != {} {
        return Err(UniqueViolation);
      }
      rows := rows[key := if key in rows then Reregistered(rows[key], rustdeskId, source, now)
                          else Registered(rustdeskId, source, now)];
      return Ok(true);
    }

    /** heartbeat_inner and sysinfo_inner once the tenant is known: the placeholder delete, then the upsert. */
    method Register(key: Key, rustdeskId: string, source: Source, deletedAt: Time, now: Time)
      returns (r: Result<(), DbError>)
      modifies this
      ensures var cleared := Execute(old(rows), DeletePlaceholders(key.tenant, rustdeskId, key.uuid), deletedAt);
        && rows == Execute(cleared, Upsert(key, rustdeskId, source), now)
        && (r.Err? <==> Refuses(cleared, key, rustdeskId))
      ensures forall k :: k != key ==>
        (k in rows <==> k in old(rows) && !IsReplaced(old(rows), k, key.tenant, rustdeskId, key.uuid))
      ensures forall k :: k in rows && k != key ==> rows[k] == old(rows)[k]
      ensures r.Err? ==> Found(rows, key) == Found(old(rows), key) && HasOther(rows, key, rustdeskId)
      ensures r.Ok? && key in old(rows) && old(rows)[key].deletedAt.Some? ==> Found(rows, key) == Found(old(rows), key)
      ensures r.Ok? && !(key in old(rows) && old(rows)[key].deletedAt.Some?) ==>
        && key in rows && RegisteredAs(Found(old(rows), key), rows[key], rustdeskId, source, now)
        && !HasOther(rows, key, rustdeskId)
    {
      ghost var cleared := Execute(rows, DeletePlaceholders(key.tenant, rustdeskId, key.uuid), deletedAt);
      DeleteExactly(rows, key.tenant, rustdeskId, key.uuid, deletedAt);
      UpsertExactly(cleared, key, rustdeskId, source, now);
      ExecDeletePlaceholders(key.tenant, rustdeskId, key.uuid, deletedAt);
      var upserted := ExecUpsert(key, rustdeskId, source, now);
      return match upserted case Ok(_) => Ok(()) case Err(e) => Err(e);
    }

    /** The agent's registration: touch the live device with its RustDesk id, else insert or update its own row. */
    method EnsureAgentDevice(key: Key, rustdeskId: Option<string>, reportedHost: Option<string>, os: Option<string>,
                             touched: Time, now: Time) returns (registered: Option<string>)
      modifies this
      ensures var hostname := if reportedHost.Some? then reportedHost
                              else if |key.uuid| >= 5 && key.uuid[..5] == "host-" then Some(key.uuid[5..]) else None;
        var hasId := rustdeskId.Some? && rustdeskId.value != "";
        var id := if hasId then rustdeskId.value
                  else "agent:" + if hostname.Some? then hostname.value else key.uuid;
        if hasId && (exists k :: Matches(old(rows), k, key.tenant, id)) then
          && rows == Execute(old(rows), TouchById(key.tenant, id, hostname, os), touched)
          && registered.Some? && Matches(old(rows), Key(key.tenant, registered.value), key.tenant, id)
        else
          && rows == Execute(old(rows), Upsert(key, id, AgentHello(hostname, os)), now)
          && registered == if InTrash(old(rows), key) || Refuses(old(rows), key, id) then None else Some(key.uuid)
    {
      hide Touched, Coalesce, Registered, Reregistered, Refuses, InTrash;
      var hostname := AgentHostname(key, reportedHost);
      var id := AgentId(key, rustdeskId, hostname);
      if HasRealId(rustdeskId) {
        var live := set k | k in rows && Matches(rows, k, key.tenant, id);
        if live != {} {
          var k :| k in live;
          assert k == Key(key.tenant, k.uuid);
          rows := map j | j in rows ::
            var d := rows[j];
            if Matches(rows, j, key.tenant, id)
            then Touched(d, touched).(hostname := Coalesce(hostname, d.hostname), os := Coalesce(os, d.os))
            else d;
          return Some(k.uuid);
        }
        assert forall k :: Matches(rows, k, key.tenant, id) ==> k in live;
      }
      var upserted := ExecUpsert(key, id, AgentHello(hostname, os), now);
      return if upserted == Ok(true) then Some(key.uuid) else None;
    }

    method UpdateAgentPresence(key: Key, online: bool, now: Time)
      modifies this
      ensures rows == Execute(old(rows), SetPresence(key, online), now)
      ensures rows.Keys == old(rows).Keys && forall k :: k in rows && k != key ==> rows[k] == old(rows)[k]
      ensures key in rows && online ==>
        rows[key] == old(rows)[key].(online := true, lastSeen := Some(now),
          onlineSince := if old(rows)[key].online then old(rows)[key].onlineSince else Some(now))
      ensures key in rows && !online ==> rows[key] == old(rows)[key].(online := false)
    {
      if key in rows {
        rows := rows[key := if online then Touched(rows[key], now) else rows[key].(online := false)];
      }
    }

    method SweepOffline(now: Time)
      modifies this
      ensures rows == Execute(old(rows), Sweep, now)
      ensures rows.Keys == old(rows).Keys
      ensures forall k :: k in rows ==> rows[k] == old(rows)[k].(online := rows[k].online)
      ensures forall k :: k in rows && old(rows)[k].lastSeen.Some? ==>
        (rows[k].online <==> old(rows)[k].online && old(rows)[k].lastSeen.value >= now - 60_000_000)
      ensures forall k :: k in rows && old(rows)[k].lastSeen.None? ==> rows[k] == old(rows)[k]
    {
      rows := map k | k in rows :: if Stale(rows[k], now) then rows[k].(online := false) else rows[k];
    }

    method DeleteDevice(key: Key, now: Time)
      modifies this
      ensures rows == Execute(old(rows), SoftDelete(key), now)
      ensures rows.Keys == old(rows).Keys && forall k :: k in rows && k != key ==> rows[k] == old(rows)[k]
      ensures key in rows && InTrash(old(rows), key) ==> rows[key] == old(rows)[key]
      ensures key in rows && !InTrash(old(rows), key) ==>
        rows[key] == old(rows)[key].(deletedAt := Some(now), online := false)
    {
      if key in rows && rows[key].deletedAt.None? {
        rows := rows[key := rows[key].(deletedAt := Some(now), online := false)];
      }
    }

    method RestoreDevice(key: Key, ghost now: Time)
      modifies this
      ensures rows == Execute(old(rows), Restore(key), now)
      ensures rows.Keys == old(rows).Keys && forall k :: k in rows && k != key ==> rows[k] == old(rows)[k]
      ensures key in rows ==>
        !InTrash(rows, key) && rows[key].(deletedAt := None) == old(rows)[key].(deletedAt := None)
    {
      if key in rows {
        rows := rows[key := rows[key].(deletedAt := None)];
      }
    }

    method PurgeDevice(key: Key, ghost now: Time)
      modifies this
      ensures rows == Execute(old(rows), Purge(key), now)
      ensures key in rows <==> key in old(rows) && !InTrash(old(rows), key)
      ensures forall k :: k != key ==> (k in rows <==> k in old(rows))
      ensures forall k :: k in rows ==> rows[k] == old(rows)[k]
    {
      if key in rows && rows[key].deletedAt.Some? {
        rows := rows - {key};
      }
    }

    method MarkOnline(ids: set<string>, now: Time)
      modifies this
      ensures rows == Execute(old(rows), ConfirmOnline(ids), now)
      ensures rows.Keys == old(rows).Keys
      ensures forall k :: k in rows ==>
        var d := old(rows)[k];
        rows[k] == if d.deletedAt == None && d.rustdeskId in ids
                   then d.(online := true, lastSeen := Some(now),
                           onlineSince := if d.online then d.onlineSince else Some(now))
                   else d
    {
      rows := map k | k in rows ::
        if rows[k].deletedAt.None? && rows[k].rustdeskId in ids then Touched(rows[k], now) else rows[k];
    }
  }
}
