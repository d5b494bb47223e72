/**
 The records of types.hpp and the part of config.hpp that drives the state machine.
 Times are integer nanoseconds since the epoch; 0 means "unset", as in the source.
 */
module Telemetry {

  const SECOND: int := 1_000_000_000

  /** std::uint64_t */
  type Counter = x: int | 0 <= x < 0x1_0000_0000_0000_0000

  /** Selects one of the two counters: received or transmitted. */
  datatype Direction = Rx | Tx

  datatype Status = Online | Idle | Offline | Unknown

  datatype Severity = Info | Warning | Critical

  datatype Device = Device(
    mac: string, ip: string, hostname: string, interfaceName: string, source: string, neighState: string,
    status: Status,
    firstSeen: int, lastSeen: int, lastDhcp: int, lastTraffic: int, lastRate: int,
    rxBytes: Counter, txBytes: Counter, rxRate: real, txRate: real,
    tags: seq<string>)

  /** A value-initialised DeviceState. */
  const BLANK := Device("", "", "", "", "", "", Unknown, 0, 0, 0, 0, 0, 0, 0, 0.0, 0.0, [])

  /** TrafficSnapshot */
  datatype Sample = Sample(mac: string, ip: string, ts: int, rx: Counter, tx: Counter)

  datatype Event = Event(id: string, ts: int, kind: string, severity: Severity, source: string, message: string,
                         fields: map<string, string>)

  datatype Attack = Attack(ts: int, inIf: string, srcIp: string, dstIp: string, srcPort: string, dstPort: string,
                           proto: string, length: string, raw: string)

  datatype Config = Config(onlineTtl: int, idleTtl: int, keepTtl: int, maxEvents: nat, maxAttackEvents: nat,
                           maxPoints: nat, rateHold: int)

  /** Whole Unix seconds, truncated toward zero. */
  function UnixSeconds(t: int): int {
    if t >= 0 then t / SECOND else -(-t / SECOND)
  }

  /** The seconds lie within one second of the time, toward the epoch. */
  lemma UnixSecondsTowardEpoch(t: int)
    ensures var n := UnixSeconds(t);
            if t >= 0 then n * 1_000_000_000 <= t < (n + 1) * 1_000_000_000
            else (n - 1) * 1_000_000_000 < t <= n * 1_000_000_000
  {
  }

  /** A stored time; anything not after the epoch reads as unset. */
  function FromUnixSeconds(seconds: int): int {
    if seconds <= 0 then 0 else seconds * SECOND
  }

  /** Seconds between two time points. */
  function Elapsed(from: int, to: int): real {
    (to - from) as real / SECOND as real
  }
}
