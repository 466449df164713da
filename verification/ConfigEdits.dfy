// The admin operations' changes to the listener objects, in place, against their effect on values.
module ConfigEdits {
  import opened Config
  import Admin

  // Panicked: the goroutine dereferenced a null entry; the server recovers and goes on.
  datatype Reply = Done | Refused | Panicked

  // What an edit reports, and the listener's routes after it.
  ghost predicate Agrees(reply: Reply, outcome: Admin.Outcome, now: seq<RouteV>) {
    match outcome
    case Edited(after) => reply == Done && now == after
    case Refused => reply == Reply.Refused
    case Panicked => reply == Reply.Panicked
  }

  // No entry occurs twice; null may.
  ghost predicate NoAlias(bs: seq<BackendConfig?>) {
    forall i, j | 0 <= i < j < |bs| :: bs[i] == null || bs[i] != bs[j]
  }

  // The routes of a listener are distinct objects with distinct backend entries, as decoding makes them.
  ghost predicate Separate(listener: ListenerConfig)
    reads listener, listener.Routes
  {
    && (forall i, j | 0 <= i < j < |listener.Routes| ::
          listener.Routes[i] != listener.Routes[j]
          && forall b | b in listener.Routes[i].Backends && b != null :: b !in listener.Routes[j].Backends)
    && forall rt | rt in listener.Routes :: NoAlias(rt.Backends)
  }

  // The listener holds only objects it held before, or these.
  twostate predicate Grown(listener: ListenerConfig, new routes: set<RouteConfig>, new entries: set<BackendConfig?>)
    reads listener, listener.Routes
  {
    && (forall rt | rt in listener.Routes :: rt in old(listener.Routes) || rt in routes)
    && BackendsOf(listener.Routes) <= old(BackendsOf(listener.Routes)) + entries
  }

  // route shares no object with the listener, and its entries are distinct.
  ghost predicate Apart(listener: ListenerConfig, route: RouteConfig)
    reads listener, listener.Routes, route
  {
    && route !in listener.Routes
    && (forall rt, b | rt in listener.Routes && b in rt.Backends && b != null :: b !in route.Backends)
    && NoAlias(route.Backends)
  }

  // Writing one route's backend list changes that route only.
  method SetBackends(listener: ListenerConfig, index: nat, backends: seq<BackendConfig?>)
    requires Separate(listener) && index < |listener.Routes|
    requires NoAlias(backends)
    requires forall k, b | 0 <= k < |listener.Routes| && k != index && b in listener.Routes[k].Backends && b != null ::
      b !in backends
    modifies listener.Routes[index]
    ensures listener.Routes == old(listener.Routes)
    ensures var rs := old(RouteValues(listener.Routes));
      RouteValues(listener.Routes) == Admin.SetBackends(rs, index, BackendValues(backends))
    ensures Separate(listener)
    ensures Grown(listener, {}, set b | b in backends)
  {
    ghost var rs := RouteValues(listener.Routes);
    listener.Routes[index].Backends := backends;
    forall k | 0 <= k < |rs| && k != index ensures RouteValue(listener.Routes[k]) == rs[k] {
      assert listener.Routes[k] != listener.Routes[index];
    }
    assert RouteValue(listener.Routes[index]) == rs[index].(Backends := BackendValues(backends));
  }

  // Writing one entry's weight changes that entry of that route only.
  method SetEntryWeight(listener: ListenerConfig, index: nat, i: nat, weight: int)
    requires Separate(listener) && index < |listener.Routes| && i < |listener.Routes[index].Backends|
    requires listener.Routes[index].Backends[i] != null
    modifies listener.Routes[index].Backends[i]
    ensures listener.Routes == old(listener.Routes) && unchanged(listener.Routes)
    ensures var rs := old(RouteValues(listener.Routes));
      && rs[index].Backends[i].BackendV?
      && RouteValues(listener.Routes)
           == Admin.SetBackends(rs, index, rs[index].Backends[i := rs[index].Backends[i].(Weight := weight)])
  {
    ghost var rs := RouteValues(listener.Routes);
    var be := listener.Routes[index].Backends[i];
    assert rs[index].Backends[i] == BackendV(be.Addr, be.Weight);
    be.Weight := weight;
    forall k | 0 <= k < |rs| && k != index ensures RouteValue(listener.Routes[k]) == rs[k] {
      assert RouteValue(listener.Routes[k]).Backends == rs[k].Backends by {
        assert be !in listener.Routes[k].Backends;
      }
    }
    assert BackendValues(listener.Routes[index].Backends)
      == rs[index].Backends[i := rs[index].Backends[i].(Weight := weight)];
  }

  // An entry that no route holds yet may be changed without changing the listener.
  method SetNewWeight(listener: ListenerConfig, newBackend: BackendConfig)
    requires Separate(listener) && forall rt | rt in listener.Routes :: newBackend !in rt.Backends
    modifies newBackend
    ensures newBackend.Weight == 1
    ensures RouteValues(listener.Routes) == old(RouteValues(listener.Routes))
  {
    newBackend.Weight := 1;
    assert forall k | 0 <= k < |listener.Routes| ::
      RouteValue(listener.Routes[k]) == old(RouteValue(listener.Routes[k]));
  }

  method Attach(listener: ListenerConfig, index: nat, newBackend: BackendConfig)
    requires Separate(listener) && index < |listener.Routes|
    requires forall rt | rt in listener.Routes :: newBackend !in rt.Backends
    modifies listener.Routes[index]
    ensures listener.Routes == old(listener.Routes)
    ensures var rs := old(RouteValues(listener.Routes));
      RouteValues(listener.Routes) == Admin.SetBackends(rs, index,
        rs[index].Backends + [BackendV(newBackend.Addr, newBackend.Weight)])
    ensures Separate(listener) && Grown(listener, {}, {newBackend})
  {
    var backends := listener.Routes[index].Backends;
    ghost var added := BackendV(newBackend.Addr, newBackend.Weight);
    assert BackendValues(backends + [newBackend]) == BackendValues(backends) + [added];
    SetBackends(listener, index, backends + [newBackend]);
  }

  // The loop over a route's entries that stops at the first one for host; a null entry before it panics.
  method FindBackend(backends: seq<BackendConfig?>, host: string) returns (found: Admin.Found)
    ensures found == Admin.Find(BackendValues(backends), host)
  {
    ghost var values := BackendValues(backends);
    var i := 0;
    while i < |backends|
      invariant 0 <= i <= |backends|
      invariant forall k | 0 <= k < i :: values[k].BackendV? && values[k].Addr != host
    {
      var be := backends[i];
      Admin.FindStops(values, host, i);
      if be == null {
        return Admin.NullFirst;
      }
      if be.Addr == host {
        return Admin.At(i);
      }
      i := i + 1;
    }
    Admin.FindStops(values, host, i);
    return Admin.Absent;
  }

  // The routes themselves are not null, so only the keys are compared.
  method AppendRoute(listener: ListenerConfig, newRoute: RouteConfig) returns (reply: Reply)
    modifies listener`Routes
    ensures Agrees(reply, Admin.Apply(Admin.AddRoute(RouteValue(newRoute)), old(RouteValues(listener.Routes))),
                   RouteValues(listener.Routes))
    ensures reply != Done ==> unchanged(listener)
    ensures old(Separate(listener) && Apart(listener, newRoute)) ==> Separate(listener)
    ensures Grown(listener, {newRoute}, BackendsOf([newRoute]))
  {
    var i := 0;
    while i < |listener.Routes|
      invariant 0 <= i <= |listener.Routes|
      invariant forall k | 0 <= k < i ::
        !(listener.Routes[k].rule.Path == newRoute.rule.Path && listener.Routes[k].rule.Host == newRoute.rule.Host)
    {
      var route := listener.Routes[i];
      if route.rule.Path == newRoute.rule.Path && route.rule.Host == newRoute.rule.Host {
        assert RouteValues(listener.Routes)[i].rule == route.rule;
        return Reply.Refused;
      }
      i := i + 1;
    }
    listener.Routes := listener.Routes + [newRoute];
    return Done;
  }

  method RemoveRoute(listener: ListenerConfig, index: int) returns (reply: Reply)
    modifies listener`Routes
    ensures Agrees(reply, Admin.Apply(Admin.DeleteRoute(index), old(RouteValues(listener.Routes))),
                   RouteValues(listener.Routes))
    ensures reply != Done ==> unchanged(listener)
    ensures old(Separate(listener)) ==> Separate(listener)
    ensures Grown(listener, {}, {})
  {
    if index < 0 || index >= |listener.Routes| {
      return Reply.Refused;
    }
    listener.Routes := listener.Routes[..index] + listener.Routes[index + 1..];
    assert forall rt | rt in listener.Routes :: rt in old(listener.Routes);
    return Done;
  }

  method AppendBackend(listener: ListenerConfig, index: int, newBackend: BackendConfig) returns (reply: Reply)
    requires Separate(listener)
    requires forall rt | rt in listener.Routes :: newBackend !in rt.Backends
    modifies listener.Routes, newBackend
    ensures listener.Routes == old(listener.Routes)
    ensures Agrees(reply, Admin.Apply(Admin.AddBackend(index, newBackend.Addr, old(newBackend.Weight)),
                                      old(RouteValues(listener.Routes))),
                   RouteValues(listener.Routes))
    ensures reply != Done ==> unchanged(listener.Routes) && unchanged(newBackend)
    ensures Separate(listener) && Grown(listener, {}, {newBackend})
  {
    if index < 0 || index >= |listener.Routes| {
      return Reply.Refused;
    }
    ghost var rs := RouteValues(listener.Routes);
    ghost var outcome := Admin.Apply(Admin.AddBackend(index, newBackend.Addr, newBackend.Weight), rs);
    var route := listener.Routes[index];
    assert rs[index].Backends == BackendValues(route.Backends);
    var present := FindBackend(route.Backends, newBackend.Addr);
    if present.NullFirst? {
      return Reply.Panicked;
    }
    if present.At? {
      return Reply.Refused;
    }
    if newBackend.Weight == 0 {
      SetNewWeight(listener, newBackend);
    }
    assert outcome == Admin.Edited(Admin.SetBackends(rs, index,
      rs[index].Backends + [BackendV(newBackend.Addr, newBackend.Weight)]));
    assert RouteValues(listener.Routes) == rs;
    Attach(listener, index, newBackend);
    return Done;
  }

  method RemoveBackend(listener: ListenerConfig, index: int, host: string) returns (reply: Reply)
    requires Separate(listener)
    modifies listener.Routes
    ensures listener.Routes == old(listener.Routes)
    ensures Agrees(reply, Admin.Apply(Admin.DeleteBackend(index, host), old(RouteValues(listener.Routes))),
                   RouteValues(listener.Routes))
    ensures reply != Done ==> unchanged(listener.Routes)
    ensures Separate(listener) && Grown(listener, {}, {})
  {
    if index < 0 || index >= |listener.Routes| {
      return Reply.Refused;
    }
    ghost var rs := RouteValues(listener.Routes);
    ghost var outcome := Admin.Apply(Admin.DeleteBackend(index, host), rs);
    assert rs[index].Backends == BackendValues(listener.Routes[index].Backends);
    var panicked, found, newBackends := KeepOthers(listener.Routes[index].Backends, host);
    if panicked {
      return Reply.Panicked;
    }
    if !found {
      return Reply.Refused;
    }
    assert outcome == Admin.Edited(Admin.SetBackends(rs, index, BackendValues(newBackends)));
    assert RouteValues(listener.Routes) == rs;
    SetBackends(listener, index, newBackends);
    return Done;
  }

  method KeepOthers(backends: seq<BackendConfig?>, host: string)
    returns (panicked: bool, found: bool, newBackends: seq<BackendConfig?>)
    requires NoAlias(backends)
    ensures panicked <==> !Admin.NoNull(BackendValues(backends))
    ensures !panicked ==> (forall b | b in newBackends :: b in backends) && NoAlias(newBackends)
    ensures !panicked ==>
      && found == Admin.HasAddr(BackendValues(backends), host)
      && BackendValues(newBackends) == Admin.Without(BackendValues(backends), host)
  {
    panicked, found, newBackends := false, false, [];
    ghost var values := BackendValues(backends);
    var i := 0;
    while i < |backends|
      invariant 0 <= i <= |backends|
      invariant forall k | 0 <= k < i :: values[k].BackendV?
      invariant found <==> exists k | 0 <= k < i :: Admin.IsFor(values[k], host)
      invariant BackendValues(newBackends) == Admin.Without(values[..i], host)
      invariant forall b | b in newBackends :: b in backends[..i]
      invariant NoAlias(newBackends)
    {
      var be := backends[i];
      if be == null {
        assert values[i] == Null;
        panicked := true;
        return;
      }
      assert values[..i + 1][..i] == values[..i];
      if be.Addr == host {
        found := true;
        assert Admin.IsFor(values[i], host);
      } else {
        assert be !in backends[..i];
        assert BackendValues(newBackends + [be]) == BackendValues(newBackends) + [values[i]];
        newBackends := newBackends + [be];
      }
      i := i + 1;
    }
    assert values[..i] == values;
  }

  method ChangeWeight(listener: ListenerConfig, index: int, host: string, weight: int) returns (reply: Reply)
    requires Separate(listener)
    modifies BackendsOf(listener.Routes)
    ensures listener.Routes == old(listener.Routes) && unchanged(listener.Routes)
    ensures Agrees(reply, Admin.Apply(Admin.UpdateWeight(index, host, weight), old(RouteValues(listener.Routes))),
                   RouteValues(listener.Routes))
    ensures reply != Done ==> unchanged(BackendsOf(listener.Routes) - {null})
    ensures Separate(listener) && Grown(listener, {}, {})
  {
    if index < 0 || index >= |listener.Routes| {
      return Reply.Refused;
    }
    ghost var rs := RouteValues(listener.Routes);
    ghost var outcome := Admin.Apply(Admin.UpdateWeight(index, host, weight), rs);
    var route := listener.Routes[index];
    assert rs[index].Backends == BackendValues(route.Backends);
    if weight <= 0 {
      return Reply.Refused;
    }
    var found := FindBackend(route.Backends, host);
    match found
    case Absent => return Reply.Refused;
    case NullFirst => return Reply.Panicked;
    case At(i) =>
      assert rs[index].Backends[i].(Weight := weight) == BackendV(host, weight);
      assert outcome == Admin.Edited(Admin.SetBackends(rs, index, rs[index].Backends[i := BackendV(host, weight)]));
      assert listener.Routes[index] in listener.Routes && route.Backends[i] in route.Backends;
      assert RouteValues(listener.Routes) == rs;
      SetEntryWeight(listener, index, i, weight);
      return Done;
  }
}
