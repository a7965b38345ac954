/** Host status as a cached view of the last heartbeat. */
module Hosts {
  import opened Wrappers

  type HostId = int
  type Time = int

  const THRESHOLD: int := 5 * 60 * 1_000_000   // five minutes in microseconds

  datatype Status = Active | Stale | Offline | Unknown

  datatype Host = Host(status: Status, lastHeartbeat: Option<Time>)

  type Hosts = map<HostId, Host>

  /** Upsert: a new host is unknown and has no heartbeat; re-registering keeps both. */
  function Upsert(hosts: Hosts, id: HostId): Hosts {
    if id in hosts then hosts else hosts[id := Host(Unknown, None)]
  }

  /** UpdateHeartbeat: no row, no change. */
  function Heartbeat(hosts: Hosts, id: HostId, now: Time): Hosts {
    if id in hosts then hosts[id := Host(Active, Some(now))] else hosts
  }

  predicate Overdue(h: Host, now: Time) {
    h.status == Active && (h.lastHeartbeat.None? || h.lastHeartbeat.value < now - THRESHOLD)
  }

  /** MarkStaleHosts */
  function MarkStale(hosts: Hosts, now: Time): (r: Hosts)
    ensures r.Keys == hosts.Keys
  {
    map id | id in hosts :: if Overdue(hosts[id], now) then hosts[id].(status := Stale) else hosts[id]
  }

  /** The condition the evaluator samples. */
  predicate IsStale(h: Host, t: Time) {
    h.status == Stale || (h.lastHeartbeat.Some? && t - h.lastHeartbeat.value > THRESHOLD)
  }

  /** The condition it stands for. */
  predicate Silent(h: Host, t: Time) {
    h.lastHeartbeat.Some? && t - h.lastHeartbeat.value > THRESHOLD
  }

  ghost predicate HostOk(h: Host, now: Time) {
    && h.status != Offline
    && (h.status == Unknown <==> h.lastHeartbeat.None?)
    && (h.lastHeartbeat.Some? ==> h.lastHeartbeat.value <= now)
    && (h.status == Stale ==> Silent(h, now))
  }

  ghost predicate HostsOk(hosts: Hosts, now: Time) {
    forall id :: id in hosts ==> HostOk(hosts[id], now)
  }
}
