/** The timeline records harness/telemetry.py works on: what one sample of the router says. */
module Telemetry {
  import opened Wrappers

  /** One address family of `show bgp summary`. */
  datatype Family = Family(
    readFailed: bool, tableVersion: Option<int>, prefixes: Option<int>,
    established: int, failed: int, ribCount: int)

  datatype Process = Process(name: string, pid: Option<int>, rssMb: real, cpuPct: Option<real>)

  datatype Logs = Logs(
    unresponsive: bool, sendqProper: bool, sendqWarn: bool, netlinkOverrun: bool, crash: bool, optmem: bool)

  datatype Dplane = Dplane(
    queueDepth: Option<int>, updateErrors: int, queueLimit: Option<int>, queueMax: Option<int>, skipped: int)

  /**
    A record: a sample, or (`isSample` false) a harness event on the same timeline. `bgp` is IPv4 then IPv6;
    `installs` is zebra's cumulative install count, carried by slow samples only.
   */
  datatype Rec = Rec(
    isSample: bool, t: Option<real>, dutDown: bool, bgp: Option<(Family, Family)>,
    processes: seq<Process>, logs: Logs, dplane: Option<Dplane>, installs: Option<int>)

  /** Either family's summary read did not succeed: the sample carries no information. */
  predicate ReadFailed(rec: Rec) {
    rec.bgp.Some? && (rec.bgp.value.0.readFailed || rec.bgp.value.1.readFailed)
  }

  function ProcessNamed(ps: seq<Process>, name: string): Option<Process> {
    if ps == [] then None
    else if ps[0].name == name then Some(ps[0])
    else ProcessNamed(ps[1..], name)
  }
}
