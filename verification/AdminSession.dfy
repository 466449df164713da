// Reloads and admin requests one after another: a reload decodes a whole configuration, a request
// fetches the first http or https listener, decodes its body and calls one operation.
module AdminSession {
  import opened Options
  import opened Config
  import opened ConfigEdits
  import opened Tables
  import opened LoadBalancing
  import Admin
  import RateLimit

  // ----- On values -----

  datatype ListenerV = ListenerV(
    Name: string, Protocol: string, RateLimit: Option<real>, Strategy: string,
    Backends: seq<BackendV>, Routes: seq<RouteV>)

  datatype Command = Reload(listeners: seq<ListenerV>) | Edit(op: Admin.Op)

  // The routes of the first http or https listener, the one the admin requests manage.
  function FirstL7Routes(ls: seq<ListenerV>): Option<seq<RouteV>> {
    if ls == [] then None else if IsL7(ls[0].Protocol) then Some(ls[0].Routes) else FirstL7Routes(ls[1..])
  }

  // The rate limit of that listener.
  function FirstRate(ls: seq<ListenerV>): Option<real> {
    if ls == [] then None else if IsL7(ls[0].Protocol) then ls[0].RateLimit else FirstRate(ls[1..])
  }

  predicate NullFreeListener(l: ListenerV) {
    (IsL7(l.Protocol) ==> Admin.Clean(l.Routes)) && (IsL4(l.Protocol) ==> Admin.NoNull(l.Backends))
  }

  predicate Buildable(ls: seq<ListenerV>) {
    forall l | l in ls :: NullFreeListener(l)
  }

  // What a handler refuses before it calls the load balancer.
  predicate BadRequest(op: Admin.Op) {
    (op.AddRoute? && op.route.rule.Path == "") || (op.AddBackend? && op.addr == "")
  }

  // The managed routes after a command. A configuration with a null entry panics and changes nothing.
  function Next(c: Command, managed: Option<seq<RouteV>>): Option<seq<RouteV>> {
    match c
    case Reload(ls) => if Buildable(ls) then FirstL7Routes(ls) else managed
    case Edit(op) =>
      match managed
      case None => None
      case Some(rs) => if BadRequest(op) then managed else Some(Admin.After(op, rs))
  }

  function NextAll(cs: seq<Command>, managed: Option<seq<RouteV>>): Option<seq<RouteV>> {
    if cs == [] then managed else Next(cs[|cs| - 1], NextAll(cs[..|cs| - 1], managed))
  }

  // ----- In plain terms -----

  // The managed routes and the rate limit are those of the first http or https listener.
  lemma {:induction false} FirstPlainly(ls: seq<ListenerV>, i: nat)
    requires i <= |ls| && forall j | 0 <= j < i :: ls[j].Protocol !in {"http", "https"}
    requires i < |ls| ==> ls[i].Protocol in {"http", "https"}
    ensures FirstL7Routes(ls) == if i < |ls| then Some(ls[i].Routes) else None
    ensures FirstRate(ls) == if i < |ls| then ls[i].RateLimit else None
  {
    if i > 0 { FirstPlainly(ls[1..], i - 1); }
  }

  // A file can be loaded exactly when no route of an http or https listener and no tcp or udp listener has
  // a null entry.
  lemma BuildablePlainly(ls: seq<ListenerV>)
    ensures Buildable(ls) <==> forall l | l in ls ::
      && (l.Protocol in {"http", "https"} ==> forall rt | rt in l.Routes :: Null !in rt.Backends)
      && (l.Protocol in {"tcp", "udp"} ==> Null !in l.Backends)
  {
    forall l | l in ls
      ensures NullFreeListener(l) <==>
        && (l.Protocol in {"http", "https"} ==> forall rt | rt in l.Routes :: Null !in rt.Backends)
        && (l.Protocol in {"tcp", "udp"} ==> Null !in l.Backends)
    {
      if Admin.Clean(l.Routes) {
        forall rt | rt in l.Routes ensures Null !in rt.Backends {
          var i :| 0 <= i < |l.Routes| && l.Routes[i] == rt;
          assert Admin.NoNull(l.Routes[i].Backends);
        }
      }
    }
  }

  function Edits(ops: seq<Admin.Op>): seq<Command> {
    seq(|ops|, i requires 0 <= i < |ops| => Edit(ops[i]))
  }

  // The last file that could be loaded decides, and then the requests after it, in their order.
  lemma {:induction false} FromLastReload(cs: seq<Command>, ls: seq<ListenerV>, ops: seq<Admin.Op>,
                                          managed: Option<seq<RouteV>>)
    requires Buildable(ls) && FirstL7Routes(ls).Some?
    requires forall op | op in ops ::
      !(op.AddRoute? && op.route.rule.Path == "") && !(op.AddBackend? && op.addr == "")
    ensures NextAll(cs + [Reload(ls)] + Edits(ops), managed) == Some(Admin.ApplyAll(ops, FirstL7Routes(ls).value))
  {
    var all := cs + [Reload(ls)] + Edits(ops);
    if ops == [] {
      assert all == cs + [Reload(ls)] && all[..|cs|] == cs;
    } else {
      var front := ops[..|ops| - 1];
      FromLastReload(cs, ls, front, managed);
      assert all[..|all| - 1] == cs + [Reload(ls)] + Edits(front);
      assert all[|all| - 1] == Edit(ops[|ops| - 1]);
    }
  }

  // A file with a null entry, a route without a path and a backend without an address change nothing.
  lemma NothingChanges(cs: seq<Command>, c: Command, managed: Option<seq<RouteV>>)
    requires match c
      case Reload(ls) => !Buildable(ls)
      case Edit(op) => (op.AddRoute? && op.route.rule.Path == "") || (op.AddBackend? && op.addr == "")
    ensures NextAll(cs + [c], managed) == NextAll(cs, managed)
  {
    assert (cs + [c])[..|cs|] == cs;
  }

  // ----- Decoding -----

  method DecodeBackends(vs: seq<BackendV>) returns (backends: seq<BackendConfig?>)
    ensures NoAlias(backends) && forall b | b in backends && b != null :: fresh(b)
    ensures BackendValues(backends) == vs
  {
    backends := [];
    var i := 0;
    while i < |vs|
      invariant 0 <= i <= |vs|
      invariant NoAlias(backends) && forall b | b in backends && b != null :: fresh(b)
      invariant BackendValues(backends) == vs[..i]
    {
      var bc: BackendConfig? := null;
      if vs[i].BackendV? {
        bc := new BackendConfig(vs[i].Addr, vs[i].Weight);
      }
      backends := backends + [bc];
      i := i + 1;
    }
    assert vs[..i] == vs;
  }

  method DecodeRoute(v: RouteV) returns (rt: RouteConfig)
    ensures fresh(rt) && NoAlias(rt.Backends) && forall b | b in rt.Backends && b != null :: fresh(b)
    ensures RouteValue(rt) == v
  {
    var backends := DecodeBackends(v.Backends);
    rt := new RouteConfig(v.rule, v.Strategy, backends);
  }

  // Routes that share no object, as decoding makes them.
  ghost predicate SeparateRoutes(rs: seq<RouteConfig>)
    reads rs
  {
    && (forall i, j | 0 <= i < j < |rs| ::
          rs[i] != rs[j] && forall b | b in rs[i].Backends && b != null :: b !in rs[j].Backends)
    && forall rt | rt in rs :: NoAlias(rt.Backends)
  }

  // One more route shares nothing with those decoded before it.
  method DecodeAnother(rs: seq<RouteConfig>, vs: seq<RouteV>, v: RouteV) returns (rt: RouteConfig)
    requires SeparateRoutes(rs) && RouteValues(rs) == vs
    ensures SeparateRoutes(rs + [rt]) && RouteValues(rs + [rt]) == vs + [v]
    ensures fresh(rt) && forall b | b in rt.Backends && b != null :: fresh(b)
  {
    rt := DecodeRoute(v);
    assert RouteValues(rs) == vs;
    assert RouteValues(rs + [rt]) == RouteValues(rs) + [RouteValue(rt)];
    assert forall r, b | r in rs && b in r.Backends && b != null :: b !in rt.Backends;
  }

  method DecodeRoutes(vs: seq<RouteV>) returns (rs: seq<RouteConfig>)
    ensures SeparateRoutes(rs) && RouteValues(rs) == vs
    ensures forall rt | rt in rs :: fresh(rt) && forall b | b in rt.Backends && b != null :: fresh(b)
  {
    rs := [];
    var i := 0;
    while i < |vs|
      invariant 0 <= i <= |vs|
      invariant SeparateRoutes(rs) && RouteValues(rs) == vs[..i]
      invariant forall rt | rt in rs :: fresh(rt) && forall b | b in rt.Backends && b != null :: fresh(b)
    {
      var rt := DecodeAnother(rs, vs[..i], vs[i]);
      assert vs[..i] + [vs[i]] == vs[..i + 1];
      rs := rs + [rt];
      i := i + 1;
    }
    assert vs[..i] == vs;
  }

  // The listener holds what v says.
  ghost predicate Holds(l: ListenerConfig, v: ListenerV)
    reads l, l.Backends, l.Routes, BackendsOf(l.Routes)
  {
    && l.Name == v.Name && l.Protocol == v.Protocol && l.RateLimit == v.RateLimit && l.Strategy == v.Strategy
    && BackendValues(l.Backends) == v.Backends && RouteValues(l.Routes) == v.Routes
  }

  method DecodeListener(v: ListenerV) returns (l: ListenerConfig)
    ensures fresh(l) && Separate(l) && Holds(l, v)
    ensures forall rt | rt in l.Routes :: fresh(rt) && forall b | b in rt.Backends && b != null :: fresh(b)
  {
    var routes := DecodeRoutes(v.Routes);
    var backends := DecodeBackends(v.Backends);
    l := new ListenerConfig(v.Name, v.Protocol, v.RateLimit, v.Strategy, backends, routes);
  }

  // Different listeners of a configuration share no route.
  ghost predicate NoSharedRoutes(ls: seq<ListenerConfig>)
    reads ls
  {
    forall i, j | 0 <= i < |ls| && 0 <= j < |ls| && i != j ::
      ls[i] != ls[j] && forall rt | rt in ls[i].Routes :: rt !in ls[j].Routes
  }

  // One more listener leaves those decoded before it as they are.
  method DecodeNext(ls: seq<ListenerConfig>, vs: seq<ListenerV>, v: ListenerV) returns (l: ListenerConfig)
    requires |ls| == |vs| && NoSharedRoutes(ls)
    requires forall j | 0 <= j < |ls| :: Holds(ls[j], vs[j]) && Separate(ls[j])
    ensures NoSharedRoutes(ls + [l])
    ensures forall j | 0 <= j <= |ls| :: Holds((ls + [l])[j], (vs + [v])[j]) && Separate((ls + [l])[j])
    ensures fresh(l)
    ensures forall rt | rt in l.Routes :: fresh(rt) && forall b | b in rt.Backends && b != null :: fresh(b)
  {
    l := DecodeListener(v);
    assert forall l', rt | l' in ls && rt in l'.Routes :: rt !in l.Routes;
  }

  method DecodeConfig(vs: seq<ListenerV>) returns (c: Configuration)
    ensures |c.Listeners| == |vs| && NoSharedRoutes(c.Listeners)
    ensures forall i | 0 <= i < |vs| :: Holds(c.Listeners[i], vs[i]) && Separate(c.Listeners[i])
    ensures forall l | l in c.Listeners :: fresh(l)
    ensures forall l, rt | l in c.Listeners && rt in l.Routes ::
      fresh(rt) && forall b | b in rt.Backends && b != null :: fresh(b)
  {
    var ls: seq<ListenerConfig> := [];
    var i := 0;
    while i < |vs|
      invariant 0 <= i <= |vs| && |ls| == i && NoSharedRoutes(ls)
      invariant forall j | 0 <= j < i :: Holds(ls[j], vs[..i][j]) && Separate(ls[j])
      invariant forall l | l in ls :: fresh(l)
      invariant forall l, rt | l in ls && rt in l.Routes ::
        fresh(rt) && forall b | b in rt.Backends && b != null :: fresh(b)
    {
      var l := DecodeNext(ls, vs[..i], vs[i]);
      assert vs[..i] + [vs[i]] == vs[..i + 1];
      ls := ls + [l];
      i := i + 1;
    }
    c := Configuration(ls);
  }

  // ----- The managed listener -----

  // The other http and https listeners hold none of m's routes and no null entry.
  ghost predicate OthersFine(ls: seq<ListenerConfig>, m: ListenerConfig)
    reads ls, m, RoutesIn(ls)
  {
    forall l, rt | l in ls && l != m && IsL7(l.Protocol) && rt in l.Routes :: rt !in m.Routes && null !in rt.Backends
  }

  ghost function RoutesIn(ls: seq<ListenerConfig>): set<RouteConfig>
    reads ls
  {
    set l, rt | l in ls && rt in l.Routes :: rt
  }

  // With the others in order, the configuration can be built exactly when the managed listener is clean.
  lemma CleanIff(ls: seq<ListenerConfig>, m: ListenerConfig)
    requires m in ls && IsL7(m.Protocol) && OthersFine(ls, m)
    ensures NullFree(L7Configs(ls, |ls|)) <==> Admin.Clean(RouteValues(m.Routes))
  {
    assert ls[..|ls|] == ls;
    if NullFree(L7Configs(ls, |ls|)) {
      forall i | 0 <= i < |m.Routes| ensures Admin.NoNull(RouteValues(m.Routes)[i].Backends) {
        L7Plainly(ls, |ls|, m.Routes[i]);
        NullInValue(m.Routes[i].Backends);
      }
    }
    if Admin.Clean(RouteValues(m.Routes)) {
      forall rt | rt in L7Configs(ls, |ls|) ensures null !in rt.Backends {
        L7Plainly(ls, |ls|, rt);
        if rt in m.Routes {
          var i :| 0 <= i < |m.Routes| && m.Routes[i] == rt;
          assert RouteValue(rt) == RouteValues(m.Routes)[i];
          NullInValue(rt.Backends);
        }
      }
    }
  }

  // The managed listener of a load balancer whose tables are current whenever they can be built.
  ghost predicate Manages(lb: LoadBalancer, m: ListenerConfig)
    reads lb, lb.cfg.Listeners, lb.L7(), BackendsOf(lb.L7()), L4Backends(lb.cfg.Listeners)
    reads m, m.Routes, RoutesIn(lb.cfg.Listeners)
  {
    FirstL7(lb.cfg.Listeners) == Some(m) && lb.Settled() && Separate(m) && OthersFine(lb.cfg.Listeners, m)
  }

  // ----- Requests -----

  method PostRoute(lb: LoadBalancer, m: ListenerConfig, rt: RouteConfig) returns (reply: Reply)
    requires Manages(lb, m) && Apart(m, rt) && rt !in RoutesIn(lb.cfg.Listeners)
    modifies lb, m
    ensures lb.cfg == old(lb.cfg) && Manages(lb, m)
    ensures Answers(reply, Admin.Apply(Admin.AddRoute(RouteValue(rt)), old(RouteValues(m.Routes))), CanBuild(lb.cfg))
    ensures RouteValues(m.Routes) == Admin.After(Admin.AddRoute(RouteValue(rt)), old(RouteValues(m.Routes)))
    ensures Grown(m, {rt}, BackendsOf([rt]))
  {
    reply := lb.AddRoute(m, rt);
  }

  method RemoveRouteAt(lb: LoadBalancer, m: ListenerConfig, index: int) returns (reply: Reply)
    requires Manages(lb, m)
    modifies lb, m
    ensures lb.cfg == old(lb.cfg) && Manages(lb, m)
    ensures Answers(reply, Admin.Apply(Admin.DeleteRoute(index), old(RouteValues(m.Routes))), CanBuild(lb.cfg))
    ensures RouteValues(m.Routes) == Admin.After(Admin.DeleteRoute(index), old(RouteValues(m.Routes)))
    ensures Grown(m, {}, {})
  {
    reply := lb.DeleteRoute(m, index);
  }

  method PostBackend(lb: LoadBalancer, m: ListenerConfig, index: int, bc: BackendConfig) returns (reply: Reply)
    requires Manages(lb, m) && bc !in BackendsOf(m.Routes)
    modifies lb, (set rt | rt in m.Routes), bc
    ensures lb.cfg == old(lb.cfg) && Manages(lb, m)
    ensures var op, before := Admin.AddBackend(index, bc.Addr, old(bc.Weight)), old(RouteValues(m.Routes));
      && Answers(reply, Admin.Apply(op, before), CanBuild(lb.cfg))
      && RouteValues(m.Routes) == Admin.After(op, before)
    ensures Grown(m, {}, {bc})
  {
    reply := lb.AddBackendToRoute(m, index, bc);
  }

  method RemoveBackendAt(lb: LoadBalancer, m: ListenerConfig, index: int, host: string) returns (reply: Reply)
    requires Manages(lb, m)
    modifies lb, (set rt | rt in m.Routes)
    ensures lb.cfg == old(lb.cfg) && Manages(lb, m)
    ensures Answers(reply, Admin.Apply(Admin.DeleteBackend(index, host), old(RouteValues(m.Routes))), CanBuild(lb.cfg))
    ensures RouteValues(m.Routes) == Admin.After(Admin.DeleteBackend(index, host), old(RouteValues(m.Routes)))
    ensures Grown(m, {}, {})
  {
    reply := lb.DeleteBackendFromRoute(m, index, host);
  }

  method PutWeight(lb: LoadBalancer, m: ListenerConfig, index: int, host: string, weight: int) returns (reply: Reply)
    requires Manages(lb, m)
    modifies lb, BackendsOf(m.Routes)
    ensures lb.cfg == old(lb.cfg) && Manages(lb, m)
    ensures var op, before := Admin.UpdateWeight(index, host, weight), old(RouteValues(m.Routes));
      && Answers(reply, Admin.Apply(op, before), CanBuild(lb.cfg))
      && RouteValues(m.Routes) == Admin.After(op, before)
    ensures Grown(m, {}, {})
  {
    reply := lb.UpdateBackendWeightInRoute(m, index, host, weight);
  }

  // What the listener holds now and did not hold before is newly allocated.
  twostate predicate OnlyNew(m: ListenerConfig)
    reads m, m.Routes
  {
    && (forall rt | rt in m.Routes :: rt in old(m.Routes) || fresh(rt))
    && forall b | b in BackendsOf(m.Routes) && b != null :: b in old(BackendsOf(m.Routes)) || fresh(b)
  }

  // Decoding a body allocates and changes nothing.
  method RouteBody(lb: LoadBalancer, m: ListenerConfig, v: RouteV) returns (rt: RouteConfig)
    requires Manages(lb, m)
    ensures fresh(rt) && (forall b | b in rt.Backends && b != null :: fresh(b)) && RouteValue(rt) == v
    ensures Manages(lb, m) && Apart(m, rt) && rt !in RoutesIn(lb.cfg.Listeners)
    ensures RouteValues(m.Routes) == old(RouteValues(m.Routes)) && BackendsOf(m.Routes) == old(BackendsOf(m.Routes))
  {
    ghost var before := lb.Take();
    assert lb.SettledOn(before);
    rt := DecodeRoute(v);
    lb.StaysSettled(before);
  }

  method BackendBody(lb: LoadBalancer, m: ListenerConfig, addr: string, weight: int) returns (bc: BackendConfig)
    requires Manages(lb, m)
    ensures fresh(bc) && bc.Addr == addr && bc.Weight == weight
    ensures Manages(lb, m)
    ensures RouteValues(m.Routes) == old(RouteValues(m.Routes)) && BackendsOf(m.Routes) == old(BackendsOf(m.Routes))
  {
    ghost var before := lb.Take();
    assert lb.SettledOn(before);
    bc := new BackendConfig(addr, weight);
    lb.StaysSettled(before);
  }

  method HandleOn(lb: LoadBalancer, m: ListenerConfig, op: Admin.Op) returns (reply: Reply)
    requires Manages(lb, m)
    modifies lb, m, (set rt | rt in m.Routes), BackendsOf(m.Routes)
    ensures lb.cfg == old(lb.cfg) && Manages(lb, m) && OnlyNew(m)
    ensures Answers(reply, Admin.Apply(op, old(RouteValues(m.Routes))), CanBuild(lb.cfg))
    ensures RouteValues(m.Routes) == Admin.After(op, old(RouteValues(m.Routes)))
  {
    match op
    case AddRoute(v) =>
      var rt := RouteBody(lb, m, v);
      reply := PostRoute(lb, m, rt);
    case DeleteRoute(index) =>
      reply := RemoveRouteAt(lb, m, index);
    case AddBackend(index, addr, weight) =>
      var bc := BackendBody(lb, m, addr, weight);
      reply := PostBackend(lb, m, index, bc);
    case DeleteBackend(index, host) =>
      reply := RemoveBackendAt(lb, m, index, host);
    case UpdateWeight(index, host, weight) =>
      reply := PutWeight(lb, m, index, host, weight);
  }

  // ----- Reloads -----

  lemma {:induction false} FirstOfDecoded(ls: seq<ListenerConfig>, vs: seq<ListenerV>)
    requires |ls| == |vs| && forall i | 0 <= i < |vs| :: Holds(ls[i], vs[i])
    ensures FirstL7(ls).Some? <==> FirstL7Routes(vs).Some?
    ensures FirstL7(ls).Some? ==> RouteValues(FirstL7(ls).value.Routes) == FirstL7Routes(vs).value
    ensures GlobalRate(ls) == FirstRate(vs)
  {
    if ls != [] && !IsL7(ls[0].Protocol) {
      forall i | 0 <= i < |vs[1..]| ensures Holds(ls[1..][i], vs[1..][i]) { assert Holds(ls[i + 1], vs[i + 1]); }
      FirstOfDecoded(ls[1..], vs[1..]);
    }
  }

  // The decoded configuration can be built exactly when no entry in the file is null.
  lemma BuildableIff(c: Configuration, vs: seq<ListenerV>)
    requires |c.Listeners| == |vs| && forall i | 0 <= i < |vs| :: Holds(c.Listeners[i], vs[i])
    ensures CanBuild(c) <==> Buildable(vs)
  {
    var ls := c.Listeners;
    assert ls[..|ls|] == ls;
    if CanBuild(c) {
      forall v | v in vs ensures NullFreeListener(v) {
        var i :| 0 <= i < |vs| && vs[i] == v;
        assert ls[i] in ls && Holds(ls[i], v);
        NullInValue(ls[i].Backends);
        if IsL7(v.Protocol) { ListenerClean(ls, i, v); }
      }
    }
    if Buildable(vs) {
      forall rt | rt in L7Configs(ls, |ls|) ensures null !in rt.Backends {
        L7Plainly(ls, |ls|, rt);
        var l :| l in ls && IsL7(l.Protocol) && rt in l.Routes;
        var i :| 0 <= i < |ls| && ls[i] == l;
        var j :| 0 <= j < |l.Routes| && l.Routes[j] == rt;
        assert Holds(l, vs[i]) && RouteValue(rt) == vs[i].Routes[j] && NullFreeListener(vs[i]);
        NullInValue(rt.Backends);
      }
      forall l | l in ls && IsL4(l.Protocol) ensures null !in l.Backends {
        var i :| 0 <= i < |ls| && ls[i] == l;
        assert Holds(l, vs[i]) && NullFreeListener(vs[i]);
        NullInValue(l.Backends);
      }
    }
  }

  lemma ListenerClean(ls: seq<ListenerConfig>, i: nat, v: ListenerV)
    requires i < |ls| && IsL7(ls[i].Protocol) && Holds(ls[i], v) && NullFree(L7Configs(ls, |ls|))
    ensures Admin.Clean(v.Routes)
  {
    assert ls[..|ls|] == ls && ls[i] in ls;
    forall j | 0 <= j < |v.Routes| ensures Admin.NoNull(v.Routes[j].Backends) {
      var rt := ls[i].Routes[j];
      L7Plainly(ls, |ls|, rt);
      assert RouteValues(ls[i].Routes)[j] == RouteValue(rt);
      NullInValue(rt.Backends);
    }
  }

  // In a configuration that can be built, and whose listeners share no route, all others are fine.
  lemma OthersAreFine(c: Configuration, m: ListenerConfig)
    requires CanBuild(c) && NoSharedRoutes(c.Listeners) && m in c.Listeners
    ensures OthersFine(c.Listeners, m)
  {
    var ls := c.Listeners;
    assert ls[..|ls|] == ls;
    forall l, rt | l in ls && l != m && IsL7(l.Protocol) && rt in l.Routes
      ensures rt !in m.Routes && null !in rt.Backends
    {
      L7Plainly(ls, |ls|, rt);
      var i :| 0 <= i < |ls| && ls[i] == l;
      var j :| 0 <= j < |ls| && ls[j] == m;
    }
  }

  // A decoded configuration whose first http or https listener, if any, has these routes.
  ghost predicate Ready(c: Configuration, m: Option<ListenerConfig>, managed: Option<seq<RouteV>>)
    reads c.Listeners
    reads if m.Some? then {m.value} else {}
    reads if m.Some? then m.value.Routes else []
    reads if m.Some? then BackendsOf(m.value.Routes) else {}
  {
    && NoSharedRoutes(c.Listeners) && m == FirstL7(c.Listeners)
    && match m
       case None => managed == None
       case Some(l) => Separate(l) && managed == Some(RouteValues(l.Routes))
  }

  method ReadFile(vs: seq<ListenerV>) returns (c: Configuration, m: Option<ListenerConfig>)
    ensures CanBuild(c) <==> Buildable(vs)
    ensures Ready(c, m, FirstL7Routes(vs)) && GlobalRate(c.Listeners) == FirstRate(vs)
    ensures (m.Some? ==> fresh(m.value)) && AllNew(m)
  {
    c := DecodeConfig(vs);
    BuildableIff(c, vs);
    FirstOfDecoded(c.Listeners, vs);
    m := FirstL7(c.Listeners);
  }

  // m is the managed listener, if any, and these are its routes.
  ghost predicate Runs(lb: LoadBalancer, m: Option<ListenerConfig>, managed: Option<seq<RouteV>>)
    reads lb, lb.cfg.Listeners, lb.L7(), BackendsOf(lb.L7()), L4Backends(lb.cfg.Listeners), RoutesIn(lb.cfg.Listeners)
    reads if m.Some? then {m.value} else {}
    reads if m.Some? then m.value.Routes else []
    reads if m.Some? then BackendsOf(m.value.Routes) else {}
  {
    && lb.Settled() && m == FirstL7(lb.cfg.Listeners)
    && match m
       case None => managed == None
       case Some(l) => Manages(lb, l) && managed == Some(RouteValues(l.Routes))
  }

  // In plain terms: what the load balancer is configured with is what the commands say.
  lemma RunsPlainly(lb: LoadBalancer, m: Option<ListenerConfig>, managed: Option<seq<RouteV>>)
    requires Runs(lb, m, managed)
    ensures m == FirstL7(lb.cfg.Listeners)
    ensures managed == if m.Some? then Some(RouteValues(m.value.Routes)) else None
    ensures m.Some? ==> forall rt | rt in m.value.Routes :: rt in lb.L7()
  {
    if m.Some? {
      var ls := lb.cfg.Listeners;
      assert ls[..|ls|] == ls;
      forall rt | rt in m.value.Routes ensures rt in lb.L7() { L7Plainly(ls, |ls|, rt); }
    }
  }

  // Reloading changes nothing in the configuration.
  method TryReload(lb: LoadBalancer, c: Configuration) returns (ok: bool)
    modifies lb
    ensures ok <==> old(CanBuild(c))
    ensures !ok ==> unchanged(lb)
    ensures ok ==> lb.cfg == c && CanBuild(c) && lb.Coherent() && lb.NothingShared()
  {
    ghost var configs := L7Configs(c.Listeners, |c.Listeners|);
    ghost var free := NullFree(configs);
    ok := lb.ReloadConfig(c);
    assert L7Configs(c.Listeners, |c.Listeners|) == configs && NullFree(configs) == free;
  }

  // The reload: the new configuration replaces the old one, or panics and changes nothing.
  method Replace(lb: LoadBalancer, c: Configuration) returns (ok: bool)
    requires lb.Settled()
    modifies lb
    ensures ok <==> old(CanBuild(c))
    ensures !ok ==> unchanged(lb)
    ensures ok ==> lb.cfg == c && CanBuild(c)
    ensures lb.Settled()
  {
    ghost var before := lb.Take();
    assert lb.SettledOn(before);
    ok := TryReload(lb, c);
    if !ok {
      lb.StaysSettled(before);
    }
  }

  twostate lemma SameValues(rs: seq<RouteConfig>)
    requires unchanged(rs) && forall b | b in old(BackendsOf(rs)) && b != null :: unchanged(b)
    ensures RouteValues(rs) == old(RouteValues(rs))
  {
  }

  // A reload changes nothing in the configuration it loads either.
  method ReplaceBy(lb: LoadBalancer, c: Configuration, m: Option<ListenerConfig>, ghost managed: Option<seq<RouteV>>)
    returns (ok: bool)
    requires Ready(c, m, managed) && lb.Settled()
    modifies lb
    ensures ok <==> old(CanBuild(c))
    ensures !ok ==> unchanged(lb)
    ensures ok ==> lb.cfg == c && CanBuild(c)
    ensures lb.Settled() && Ready(c, m, managed)
  {
    ok := Replace(lb, c);
    if m.Some? { SameValues(m.value.Routes); }
  }

  method Swap(lb: LoadBalancer, c: Configuration, m: Option<ListenerConfig>, ghost managed: Option<seq<RouteV>>)
    returns (ok: bool)
    requires Ready(c, m, managed) && lb.Settled()
    modifies lb
    ensures ok <==> old(CanBuild(c))
    ensures !ok ==> unchanged(lb)
    ensures lb.Settled()
    ensures ok ==> lb.cfg == c && Runs(lb, m, managed)
  {
    ok := ReplaceBy(lb, c, m, managed);
    if ok { ReadyRuns(lb, c, m, managed); }
  }

  lemma ReadyRuns(lb: LoadBalancer, c: Configuration, m: Option<ListenerConfig>, managed: Option<seq<RouteV>>)
    requires lb.Settled() && lb.cfg == c && CanBuild(c) && Ready(c, m, managed)
    ensures Runs(lb, m, managed)
  {
    if m.Some? { OthersAreFine(c, m.value); }
  }

  method SwapBeside(lb: LoadBalancer, m0: Option<ListenerConfig>, ghost managed0: Option<seq<RouteV>>,
                    c: Configuration, m: Option<ListenerConfig>, ghost managed: Option<seq<RouteV>>)
    returns (ok: bool)
    requires Runs(lb, m0, managed0) && Ready(c, m, managed)
    modifies lb
    ensures ok <==> old(CanBuild(c))
    ensures ok ==> Runs(lb, m, managed)
    ensures !ok ==> Runs(lb, m0, managed0)
  {
    ghost var values := if m0.Some? then RouteValues(m0.value.Routes) else [];
    ok := Swap(lb, c, m, managed);
    if !ok && m0.Some? {
      var l := m0.value;
      assert RouteValues(l.Routes) == values;
      assert Separate(l) && OthersFine(lb.cfg.Listeners, l);
    }
  }

  function Objects(m: Option<ListenerConfig>): set<ListenerConfig> {
    if m.Some? then {m.value} else {}
  }

  ghost function RoutesOf(m: Option<ListenerConfig>): set<RouteConfig>
    reads Objects(m)
  {
    if m.Some? then set rt | rt in m.value.Routes else {}
  }

  ghost function EntriesOf(m: Option<ListenerConfig>): set<BackendConfig?>
    reads Objects(m), RoutesOf(m)
  {
    if m.Some? then BackendsOf(m.value.Routes) else {}
  }

  // Whatever m consists of now belonged to m0 before or is newly allocated.
  twostate predicate Reach(m0: Option<ListenerConfig>, new m: Option<ListenerConfig>)
    reads Objects(m), RoutesOf(m)
  {
    && (forall l | l in Objects(m) :: l in Objects(m0) || fresh(l))
    && (forall rt | rt in RoutesOf(m) :: rt in old(RoutesOf(m0)) || fresh(rt))
    && forall b | b in EntriesOf(m) && b != null :: b in old(EntriesOf(m0)) || fresh(b)
  }

  // All that m holds is newly allocated.
  twostate predicate AllNew(new m: Option<ListenerConfig>)
    reads Objects(m), RoutesOf(m)
  {
    && (forall rt | rt in RoutesOf(m) :: fresh(rt))
    && forall b | b in EntriesOf(m) && b != null :: fresh(b)
  }

  // Reading a file allocates and changes nothing.
  method ReadSettled(lb: LoadBalancer, vs: seq<ListenerV>) returns (c: Configuration, m: Option<ListenerConfig>)
    requires lb.Settled()
    ensures lb.Settled()
    ensures CanBuild(c) <==> Buildable(vs)
    ensures Ready(c, m, FirstL7Routes(vs))
    ensures (m.Some? ==> fresh(m.value)) && AllNew(m)
  {
    ghost var before := lb.Take();
    assert lb.SettledOn(before);
    c, m := ReadFile(vs);
    lb.StaysSettled(before);
  }

  method ReadBeside(lb: LoadBalancer, m0: Option<ListenerConfig>, ghost managed0: Option<seq<RouteV>>,
                    vs: seq<ListenerV>)
    returns (c: Configuration, m: Option<ListenerConfig>)
    requires Runs(lb, m0, managed0)
    ensures Runs(lb, m0, managed0)
    ensures CanBuild(c) <==> Buildable(vs)
    ensures Ready(c, m, FirstL7Routes(vs))
    ensures (m.Some? ==> fresh(m.value)) && AllNew(m)
  {
    ghost var values := if m0.Some? then RouteValues(m0.value.Routes) else [];
    c, m := ReadSettled(lb, vs);
    assert m0.Some? ==> RouteValues(m0.value.Routes) == values;
  }

  // ----- Sessions -----

  // The tables are current exactly when no managed route holds a null entry; without an http or https
  // listener they always are.
  lemma CurrentWhenClean(lb: LoadBalancer, m: Option<ListenerConfig>, managed: Option<seq<RouteV>>)
    requires Runs(lb, m, managed)
    ensures lb.Coherent() <==> (managed.Some? ==> Admin.Clean(managed.value))
  {
    lb.CurrentIff();
    match m
    case Some(l) => CleanIff(lb.cfg.Listeners, l);
    case None => NoneNoRoutes(lb.cfg.Listeners, |lb.cfg.Listeners|);
  }

  lemma {:induction false} NoneNoRoutes(ls: seq<ListenerConfig>, k: nat)
    requires k <= |ls| && FirstL7(ls).None?
    ensures L7Configs(ls, k) == []
  {
    if k > 0 {
      NoneNoRoutes(ls, k - 1);
      NoneIsL7(ls, k - 1);
    }
  }

  lemma {:induction false} NoneIsL7(ls: seq<ListenerConfig>, i: nat)
    requires i < |ls| && FirstL7(ls).None?
    ensures !IsL7(ls[i].Protocol)
  {
    if i > 0 { NoneIsL7(ls[1..], i - 1); }
  }

  // A reload changes none of these objects.
  method Exchange(lb: LoadBalancer, m0: Option<ListenerConfig>, ghost managed0: Option<seq<RouteV>>,
                  c: Configuration, m: Option<ListenerConfig>, ghost managed: Option<seq<RouteV>>)
    returns (ok: bool)
    requires Runs(lb, m0, managed0) && Ready(c, m, managed)
    modifies lb
    ensures ok <==> old(CanBuild(c))
    ensures ok ==> Runs(lb, m, managed)
    ensures !ok ==> Runs(lb, m0, managed0)
    ensures RoutesOf(m0) == old(RoutesOf(m0)) && EntriesOf(m0) == old(EntriesOf(m0))
    ensures RoutesOf(m) == old(RoutesOf(m)) && EntriesOf(m) == old(EntriesOf(m))
  {
    ok := SwapBeside(lb, m0, managed0, c, m, managed);
  }

  // A configuration file is decoded into new objects and loaded. A null entry panics and leaves the
  // load balancer as it was.
  method LoadFile(lb: LoadBalancer, m0: Option<ListenerConfig>, ghost managed0: Option<seq<RouteV>>, vs: seq<ListenerV>)
    returns (ok: bool, m: Option<ListenerConfig>)
    requires Runs(lb, m0, managed0)
    modifies lb
    ensures ok <==> Buildable(vs)
    ensures Runs(lb, m, Next(Reload(vs), managed0)) && Reach(m0, m)
  {
    var c, m1 := ReadBeside(lb, m0, managed0, vs);
    ok := Exchange(lb, m0, managed0, c, m1, FirstL7Routes(vs));
    m := if ok then m1 else m0;
  }

  datatype HttpReply = BadBody | NoListener | Replied(reply: Reply)

  // An admin request: checks of the handler, the first http or https listener, the operation.
  method Handle(lb: LoadBalancer, m: Option<ListenerConfig>, ghost managed: Option<seq<RouteV>>, op: Admin.Op)
    returns (r: HttpReply)
    requires Runs(lb, m, managed)
    modifies lb, Objects(m), RoutesOf(m), EntriesOf(m)
    ensures Runs(lb, m, Next(Edit(op), managed)) && Reach(m, m)
    ensures r == BadBody <==> (op.AddRoute? && op.route.rule.Path == "") || (op.AddBackend? && op.addr == "")
    ensures r == NoListener <==> r != BadBody && managed.None?
    ensures r.Replied? ==> managed.Some? && Answers(r.reply, Admin.Apply(op, managed.value), CanBuild(lb.cfg))
    ensures r.Replied? ==>
      && (r.reply == Done <==> Admin.Apply(op, managed.value).Edited? && CanBuild(lb.cfg))
      && (r.reply == Reply.Refused <==> Admin.Apply(op, managed.value) == Admin.Refused)
  {
    if op.AddRoute? && op.route.rule.Path == "" {
      return BadBody;
    }
    if op.AddBackend? && op.addr == "" {
      return BadBody;
    }
    var listener := FirstL7(lb.cfg.Listeners);
    if listener.None? {
      return NoListener;
    }
    var reply := HandleOn(lb, listener.value, op);
    return Replied(reply);
  }

  // Making a load balancer changes nothing in the configuration.
  method Launch(c: Configuration, parses: string -> bool, window: nat, redis: bool, other: int)
    returns (lb: LoadBalancer?)
    ensures lb != null <==> old(CanBuild(c))
    ensures lb != null ==> fresh(lb) && lb.cfg == c && CanBuild(c) && lb.Coherent() && lb.NothingShared()
    ensures lb != null ==> NewLimiter(lb.rl, RateLimit.LimitOf(GlobalRate(c.Listeners), redis, other), window)
  {
    ghost var configs := L7Configs(c.Listeners, |c.Listeners|);
    ghost var free := NullFree(configs);
    lb := LoadBalancer.New(c, parses, window, redis, other);
    assert L7Configs(c.Listeners, |c.Listeners|) == configs && NullFree(configs) == free;
  }

  method LaunchWith(c: Configuration, m: Option<ListenerConfig>, ghost managed: Option<seq<RouteV>>,
                    parses: string -> bool, window: nat, redis: bool, other: int)
    returns (lb: LoadBalancer?)
    requires Ready(c, m, managed)
    ensures lb != null <==> old(CanBuild(c))
    ensures lb != null ==> fresh(lb) && Runs(lb, m, managed) && lb.Coherent()
    ensures lb != null ==> NewLimiter(lb.rl, RateLimit.LimitOf(GlobalRate(c.Listeners), redis, other), window)
    ensures RoutesOf(m) == old(RoutesOf(m)) && EntriesOf(m) == old(EntriesOf(m))
  {
    ghost var values := if m.Some? then RouteValues(m.value.Routes) else [];
    lb := Launch(c, parses, window, redis, other);
    assert m.Some? ==> RouteValues(m.value.Routes) == values;
    if lb != null { ReadyRuns(lb, c, m, managed); }
  }

  // The start of the program: the file is decoded and a load balancer made of it. A null entry panics.
  method StartUp(vs: seq<ListenerV>, parses: string -> bool, window: nat, redis: bool, other: int)
    returns (lb: LoadBalancer?, m: Option<ListenerConfig>)
    ensures lb != null <==> Buildable(vs)
    ensures lb != null ==> fresh(lb) && Runs(lb, m, FirstL7Routes(vs)) && lb.Coherent()
    ensures lb != null ==> NewLimiter(lb.rl, RateLimit.LimitOf(FirstRate(vs), redis, other), window)
    ensures (m.Some? ==> fresh(m.value)) && AllNew(m)
  {
    var c;
    c, m := ReadFile(vs);
    lb := LaunchWith(c, m, FirstL7Routes(vs), parses, window, redis, other);
  }

  method Perform(lb: LoadBalancer, m0: Option<ListenerConfig>, ghost managed: Option<seq<RouteV>>, c: Command)
    returns (m: Option<ListenerConfig>)
    requires Runs(lb, m0, managed)
    modifies lb, Objects(m0), RoutesOf(m0), EntriesOf(m0)
    ensures Runs(lb, m, Next(c, managed)) && Reach(m0, m)
  {
    m := m0;
    match c
    case Reload(vs) =>
      var ok;
      ok, m := LoadFile(lb, m0, managed, vs);
    case Edit(op) =>
      var r := Handle(lb, m0, managed, op);
  }

  // After any sequence of reloads and admin requests the managed listener holds what the commands say on
  // values, and the tables are current whenever the configuration can be built.
  method Session(lb: LoadBalancer, m0: Option<ListenerConfig>, ghost managed0: Option<seq<RouteV>>, cs: seq<Command>)
    returns (m: Option<ListenerConfig>)
    requires Runs(lb, m0, managed0)
    modifies lb, Objects(m0), RoutesOf(m0), EntriesOf(m0)
    ensures Runs(lb, m, NextAll(cs, managed0))
    ensures lb.Coherent() <==> (NextAll(cs, managed0).Some? ==> Admin.Clean(NextAll(cs, managed0).value))
    decreases |cs|
  {
    if cs == [] {
      CurrentWhenClean(lb, m0, managed0);
      return m0;
    }
    FirstThenRest(cs, managed0);
    var m1 := Perform(lb, m0, managed0, cs[0]);
    m := Session(lb, m1, Next(cs[0], managed0), cs[1..]);
  }

  lemma {:induction false} FirstThenRest(cs: seq<Command>, managed: Option<seq<RouteV>>)
    requires cs != []
    ensures NextAll(cs, managed) == NextAll(cs[1..], Next(cs[0], managed))
  {
    var front := cs[..|cs| - 1];
    if front == [] {
      assert cs[1..] == [];
    } else {
      FirstThenRest(front, managed);
      assert cs[1..][..|cs| - 2] == front[1..];
    }
  }

  // A whole run of the program: it starts exactly if its file holds no null entry, and then goes on as
  // the commands say, under the limiter that the file gave it.
  method Program(vs: seq<ListenerV>, parses: string -> bool, window: nat, redis: bool, other: int, cs: seq<Command>)
    returns (lb: LoadBalancer?, m: Option<ListenerConfig>)
    ensures lb != null <==> Buildable(vs)
    ensures lb != null ==> fresh(lb) && Runs(lb, m, NextAll(cs, FirstL7Routes(vs)))
    ensures lb != null ==>
      var managed := NextAll(cs, FirstL7Routes(vs));
      lb.Coherent() <==> (managed.Some? ==> Admin.Clean(managed.value))
    ensures lb != null ==> NewLimiter(lb.rl, RateLimit.LimitOf(FirstRate(vs), redis, other), window)
  {
    lb, m := StartUp(vs, parses, window, redis, other);
    if lb != null {
      m := Session(lb, m, FirstL7Routes(vs), cs);
    }
  }
}
