// The configuration objects that the admin operations change in place, and their values. Lists of
// backends can hold null entries: decoding accepts them.
module Config {
  import opened Options
  import opened Routing

  class BackendConfig {
    const Addr: string
    var Weight: int

    constructor (addr: string, weight: int)
      ensures Addr == addr && Weight == weight
    {
      Addr, Weight := addr, weight;
    }
  }

  class RouteConfig {
    const rule: Rule  // Host, Path and Headers
    const Strategy: string
    var Backends: seq<BackendConfig?>

    constructor (rule: Rule, strategy: string, backends: seq<BackendConfig?>)
      ensures this.rule == rule && Strategy == strategy && Backends == backends
    {
      this.rule, Strategy, Backends := rule, strategy, backends;
    }
  }

  class ListenerConfig {
    const Name: string
    const Protocol: string
    const RateLimit: Option<real>         // L7: requests per second, if enabled
    const Strategy: string                // L4
    const Backends: seq<BackendConfig?>   // L4
    var Routes: seq<RouteConfig>          // L7

    constructor (name: string, protocol: string, rateLimit: Option<real>, strategy: string,
                 backends: seq<BackendConfig?>, routes: seq<RouteConfig>)
      ensures Name == name && Protocol == protocol && RateLimit == rateLimit
      ensures Strategy == strategy && Backends == backends && Routes == routes
    {
      Name, Protocol, RateLimit, Strategy, Backends, Routes := name, protocol, rateLimit, strategy, backends, routes;
    }
  }

  predicate IsL7(protocol: string) { protocol == "http" || protocol == "https" }

  predicate IsL4(protocol: string) { protocol == "tcp" || protocol == "udp" }

  function FirstL7(ls: seq<ListenerConfig>): (m: Option<ListenerConfig>)
    ensures m.Some? ==> m.value in ls && IsL7(m.value.Protocol)
  {
    if ls == [] then None else if IsL7(ls[0].Protocol) then Some(ls[0]) else FirstL7(ls[1..])
  }

  // The rate limit that applies to the whole program: that of the first http or https listener.
  function GlobalRate(ls: seq<ListenerConfig>): Option<real> {
    match FirstL7(ls)
    case None => None
    case Some(l) => l.RateLimit
  }

  // ----- Values -----

  datatype BackendV = Null | BackendV(Addr: string, Weight: int)

  datatype RouteV = RouteV(rule: Rule, Strategy: string, Backends: seq<BackendV>)

  ghost function BackendValues(bs: seq<BackendConfig?>): (r: seq<BackendV>)
    reads bs
    ensures |r| == |bs|
  {
    seq(|bs|, i requires 0 <= i < |bs| reads bs => if bs[i] == null then Null else BackendV(bs[i].Addr, bs[i].Weight))
  }

  ghost function RouteValue(rt: RouteConfig): RouteV
    reads rt, rt.Backends
  {
    RouteV(rt.rule, rt.Strategy, BackendValues(rt.Backends))
  }

  ghost function RouteValues(rs: seq<RouteConfig>): (r: seq<RouteV>)
    reads rs, BackendsOf(rs)
    ensures |r| == |rs|
  {
    seq(|rs|, i requires 0 <= i < |rs| reads rs, BackendsOf(rs) =>
      assert forall b | b in rs[i].Backends :: b in BackendsOf(rs);
      RouteValue(rs[i]))
  }

  ghost function BackendsOf(rs: seq<RouteConfig>): set<BackendConfig?>
    reads rs
  {
    set rt, b | rt in rs && b in rt.Backends :: b
  }
}
