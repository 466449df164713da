// The admin operations on the managed listener, as functions on configuration values, and what
// sequences of them keep.
module Admin {
  import opened Routing
  import opened Config

  // AddBackend carries the fields of the decoded entry; a posted route can hold null entries.
  datatype Op =
    | AddRoute(route: RouteV)
    | DeleteRoute(index: int)
    | AddBackend(index: int, addr: string, weight: int)
    | DeleteBackend(index: int, host: string)
    | UpdateWeight(index: int, host: string, weight: int)

  // Refused changes nothing and says so. Panicked dereferences a null entry before it changes anything.
  datatype Outcome = Refused | Panicked | Edited(routes: seq<RouteV>)

  predicate HasKey(rs: seq<RouteV>, rule: Rule) {
    exists i | 0 <= i < |rs| :: rs[i].rule.Path == rule.Path && rs[i].rule.Host == rule.Host
  }

  predicate IsFor(b: BackendV, addr: string) {
    b.BackendV? && b.Addr == addr
  }

  predicate HasAddr(bs: seq<BackendV>, addr: string) {
    exists i | 0 <= i < |bs| :: IsFor(bs[i], addr)
  }

  predicate NoNull(bs: seq<BackendV>) {
    Null !in bs
  }

  // What a loop that stops at the first entry for addr comes to: that entry, a null entry before it,
  // or the end of the list.
  datatype Found = Absent | NullFirst | At(i: nat)

  function Find(bs: seq<BackendV>, addr: string): (f: Found)
    ensures f.At? ==>
      f.i < |bs| && IsFor(bs[f.i], addr) && forall j | 0 <= j < f.i :: bs[j].BackendV? && bs[j].Addr != addr
    ensures f.Absent? ==> forall j | 0 <= j < |bs| :: bs[j].BackendV? && bs[j].Addr != addr
    ensures f.NullFirst? ==> Null in bs
  {
    if bs == [] then Absent
    else if bs[0].Null? then NullFirst
    else if bs[0].Addr == addr then At(0)
    else match Find(bs[1..], addr)
      case At(i) => At(i + 1)
      case other => other
  }

  lemma {:induction false} FindStops(bs: seq<BackendV>, addr: string, i: nat)
    requires i <= |bs| && forall j | 0 <= j < i :: bs[j].BackendV? && bs[j].Addr != addr
    ensures i == |bs| ==> Find(bs, addr) == Absent
    ensures i < |bs| && bs[i].Null? ==> Find(bs, addr) == NullFirst
    ensures i < |bs| && IsFor(bs[i], addr) ==> Find(bs, addr) == At(i)
  {
    if i > 0 { FindStops(bs[1..], addr, i - 1); }
  }

  // All entries but those for host.
  function Without(bs: seq<BackendV>, host: string): seq<BackendV> {
    if bs == [] then []
    else Without(bs[..|bs| - 1], host) + if IsFor(bs[|bs| - 1], host) then [] else [bs[|bs| - 1]]
  }

  function SetBackends(rs: seq<RouteV>, k: nat, bs: seq<BackendV>): seq<RouteV>
    requires k < |rs|
  {
    rs[k := rs[k].(Backends := bs)]
  }

  // What the operation makes of the listener's routes.
  function Apply(op: Op, rs: seq<RouteV>): Outcome {
    match op
    case AddRoute(r) => if HasKey(rs, r.rule) then Refused else Edited(rs + [r])
    case DeleteRoute(k) => if 0 <= k < |rs| then Edited(rs[..k] + rs[k + 1..]) else Refused
    case AddBackend(k, addr, w) =>
      if !(0 <= k < |rs|) then Refused
      else
        (match Find(rs[k].Backends, addr)
         case At(_) => Refused
         case NullFirst => Panicked
         case Absent => Edited(SetBackends(rs, k, rs[k].Backends + [BackendV(addr, if w == 0 then 1 else w)])))
    case DeleteBackend(k, host) =>
      if !(0 <= k < |rs|) then Refused
      else if !NoNull(rs[k].Backends) then Panicked
      else if !HasAddr(rs[k].Backends, host) then Refused
      else Edited(SetBackends(rs, k, Without(rs[k].Backends, host)))
    case UpdateWeight(k, host, w) =>
      if !(0 <= k < |rs|) || w <= 0 then Refused
      else
        match Find(rs[k].Backends, host)
        case Absent => Refused
        case NullFirst => Panicked
        case At(i) => Edited(SetBackends(rs, k, rs[k].Backends[i := BackendV(host, w)]))
  }

  // The routes after the operation, accepted or not.
  function After(op: Op, rs: seq<RouteV>): seq<RouteV> {
    match Apply(op, rs)
    case Edited(after) => after
    case _ => rs
  }

  function ApplyAll(ops: seq<Op>, rs: seq<RouteV>): seq<RouteV> {
    if ops == [] then rs else After(ops[|ops| - 1], ApplyAll(ops[..|ops| - 1], rs))
  }

  // ----- In plain terms -----

  // A route is refused exactly when one with its host and path is configured, and otherwise comes last.
  lemma AddRoutePlainly(r: RouteV, rs: seq<RouteV>)
    ensures Apply(AddRoute(r), rs) == Refused || Apply(AddRoute(r), rs) == Edited(rs + [r])
    ensures Apply(AddRoute(r), rs) == Refused <==>
      exists i | 0 <= i < |rs| :: rs[i].rule.Host == r.rule.Host && rs[i].rule.Path == r.rule.Path
  {
  }

  // On a listener with unique keys it is accepted exactly when they stay unique.
  lemma AddRouteAcceptedIff(r: RouteV, rs: seq<RouteV>)
    requires UniqueKeys(rs)
    ensures Apply(AddRoute(r), rs) == Edited(rs + [r]) <==> UniqueKeys(rs + [r])
  {
    if UniqueKeys(rs + [r]) {
      forall i | 0 <= i < |rs| ensures !(rs[i].rule.Path == r.rule.Path && rs[i].rule.Host == r.rule.Host) {
        assert (rs + [r])[i] == rs[i] && (rs + [r])[|rs|] == r;
      }
    } else {
      assert forall i | 0 <= i < |rs| :: (rs + [r])[i] == rs[i];
      assert HasKey(rs, r.rule);
    }
  }

  // The same path on another host is another route.
  lemma OtherHostAccepted()
    ensures var any, api := RouteV(Rule("", "/", map[]), "", []), RouteV(Rule("api.example.com", "/", map[]), "", []);
      Apply(AddRoute(api), [any]) == Edited([any, api])
  {
    assert "" != "api.example.com";
  }

  // The routes before index stay in their places and those behind it move up by one.
  lemma DeleteRoutePlainly(k: int, rs: seq<RouteV>)
    ensures 0 <= k < |rs| ==>
      && Apply(DeleteRoute(k), rs).Edited?
      && var after := Apply(DeleteRoute(k), rs).routes;
      && |after| == |rs| - 1
      && (forall i | 0 <= i < k :: after[i] == rs[i])
      && forall i | k <= i < |after| :: after[i] == rs[i + 1]
    ensures k < 0 || k >= |rs| ==> Apply(DeleteRoute(k), rs) == Refused
  {
  }

  // Route k has after what it had before but for its backends, and the other routes stay as they are.
  ghost predicate OnlyBackends(after: seq<RouteV>, rs: seq<RouteV>, k: nat, bs: seq<BackendV>) {
    && |after| == |rs| && k < |rs|
    && (forall i | 0 <= i < |rs| && i != k :: after[i] == rs[i])
    && after[k].rule == rs[k].rule && after[k].Strategy == rs[k].Strategy && after[k].Backends == bs
  }

  // A backend is accepted exactly by an existing route without null entries that does not have its
  // address; it comes last, with weight one for zero. What comes first of a null entry and an entry of
  // that address decides between a panic and a refusal.
  lemma AddBackendPlainly(k: int, addr: string, w: int, rs: seq<RouteV>)
    ensures k < 0 || k >= |rs| ==> Apply(AddBackend(k, addr, w), rs) == Refused
    ensures 0 <= k < |rs| ==>
      var bs, out := rs[k].Backends, Apply(AddBackend(k, addr, w), rs);
      && ((forall i | 0 <= i < |bs| :: bs[i].BackendV? && bs[i].Addr != addr) <==> out.Edited?)
      && ((exists i | 0 <= i < |bs| :: FirstOf(bs, addr, i) && bs[i].Null?) <==> out == Panicked)
      && ((exists i | 0 <= i < |bs| :: FirstOf(bs, addr, i) && bs[i].BackendV?) <==> out == Refused)
      && (out.Edited? ==>
            OnlyBackends(out.routes, rs, k, bs + [BackendV(addr, if w == 0 then 1 else w)]))
  {
    if 0 <= k < |rs| { Looked(rs[k].Backends, addr); }
  }

  // The first entry that is null or for addr.
  ghost predicate FirstOf(bs: seq<BackendV>, addr: string, i: nat) {
    && i < |bs| && (bs[i].Null? || bs[i].Addr == addr)
    && forall j | 0 <= j < i :: bs[j].BackendV? && bs[j].Addr != addr
  }

  // A search stops at that entry, or at the end.
  lemma Looked(bs: seq<BackendV>, addr: string)
    ensures forall i: nat | FirstOf(bs, addr, i) :: Find(bs, addr) == if bs[i].Null? then NullFirst else At(i)
    ensures Find(bs, addr) != Absent ==> exists i: nat :: FirstOf(bs, addr, i)
    ensures Find(bs, addr) == Absent <==> forall i | 0 <= i < |bs| :: bs[i].BackendV? && bs[i].Addr != addr
  {
    forall i: nat | FirstOf(bs, addr, i) ensures Find(bs, addr) == if bs[i].Null? then NullFirst else At(i) {
      FindStops(bs, addr, i);
    }
    if Find(bs, addr) != Absent {
      var i := FirstStop(bs, addr);
    } else {
      FindStops(bs, addr, |bs|);
    }
    if forall i | 0 <= i < |bs| :: bs[i].BackendV? && bs[i].Addr != addr { FindStops(bs, addr, |bs|); }
  }

  lemma FirstStop(bs: seq<BackendV>, addr: string) returns (i: nat)
    requires Find(bs, addr) != Absent
    ensures FirstOf(bs, addr, i)
  {
    i := 0;
    while i < |bs| && bs[i].BackendV? && bs[i].Addr != addr
      invariant i <= |bs| && forall j | 0 <= j < i :: bs[j].BackendV? && bs[j].Addr != addr
    {
      i := i + 1;
    }
    FindStops(bs, addr, i);
  }

  // Backends are deleted exactly from an existing route without null entries that has that address: all
  // entries for it go, and the others stay in their order.
  lemma DeleteBackendPlainly(k: int, host: string, rs: seq<RouteV>)
    ensures k < 0 || k >= |rs| ==> Apply(DeleteBackend(k, host), rs) == Refused
    ensures 0 <= k < |rs| ==>
      var bs, out := rs[k].Backends, Apply(DeleteBackend(k, host), rs);
      && (Null in bs <==> out == Panicked)
      && (Null !in bs && (exists i | 0 <= i < |bs| :: bs[i].BackendV? && bs[i].Addr == host) <==> out.Edited?)
      && (out.Edited? ==>
            && |out.routes| == |rs| && OnlyBackends(out.routes, rs, k, out.routes[k].Backends)
            && exists places :: Kept(bs, host, out.routes[k].Backends, places))
  {
    if 0 <= k < |rs| { var places := KeptPlaces(rs[k].Backends, host); }
  }

  // left has the entries of bs at these places, which are all those of other addresses, in their order.
  ghost predicate Kept(bs: seq<BackendV>, host: string, left: seq<BackendV>, places: seq<nat>) {
    && |places| == |left|
    && (forall a, b | 0 <= a < b < |places| :: places[a] < places[b])
    && (forall a | 0 <= a < |places| :: places[a] < |bs| && left[a] == bs[places[a]])
    && forall i | 0 <= i < |bs| :: i in places <==> !(bs[i].BackendV? && bs[i].Addr == host)
  }

  lemma {:induction false} KeptPlaces(bs: seq<BackendV>, host: string) returns (places: seq<nat>)
    ensures Kept(bs, host, Without(bs, host), places)
  {
    if bs == [] {
      places := [];
    } else {
      var n := |bs| - 1;
      var front := KeptPlaces(bs[..n], host);
      places := if IsFor(bs[n], host) then front else front + [n];
      KeptNext(bs, host, Without(bs[..n], host), front);
    }
  }

  lemma KeptNext(bs: seq<BackendV>, host: string, left: seq<BackendV>, front: seq<nat>)
    requires bs != [] && Kept(bs[..|bs| - 1], host, left, front)
    ensures var n := |bs| - 1;
      if bs[n].BackendV? && bs[n].Addr == host then Kept(bs, host, left, front)
      else Kept(bs, host, left + [bs[n]], front + [n])
  {
    var n := |bs| - 1;
    assert forall i | 0 <= i < n :: bs[..n][i] == bs[i];
    if !(bs[n].BackendV? && bs[n].Addr == host) {
      assert forall i: nat | i < n :: i in front + [n] <==> i in front;
      assert (front + [n])[|front|] == n;
    }
  }

  // A weight is set exactly if it is positive and an entry for the address comes before any null entry;
  // then in the first such entry.
  lemma UpdateWeightPlainly(k: int, host: string, w: int, rs: seq<RouteV>)
    ensures k < 0 || k >= |rs| || w <= 0 ==> Apply(UpdateWeight(k, host, w), rs) == Refused
    ensures 0 <= k < |rs| && w > 0 ==>
      var bs, out := rs[k].Backends, Apply(UpdateWeight(k, host, w), rs);
      && ((forall i | 0 <= i < |bs| :: bs[i].BackendV? && bs[i].Addr != host) <==> out == Refused)
      && ((exists i | 0 <= i < |bs| :: FirstOf(bs, host, i) && bs[i].Null?) <==> out == Panicked)
      && forall i: nat | FirstOf(bs, host, i) && bs[i].BackendV? ::
           out.Edited? && OnlyBackends(out.routes, rs, k, bs[i := BackendV(host, w)])
  {
    if 0 <= k < |rs| { Looked(rs[k].Backends, host); }
  }

  // ----- (Host, Path) stays unique -----

  ghost predicate UniqueKeys(rs: seq<RouteV>) {
    forall i, j | 0 <= i < j < |rs| :: !(rs[i].rule.Host == rs[j].rule.Host && rs[i].rule.Path == rs[j].rule.Path)
  }

  lemma OpKeepsUniqueKeys(op: Op, rs: seq<RouteV>)
    requires UniqueKeys(rs)
    ensures UniqueKeys(After(op, rs))
  {
    var after := After(op, rs);
    match op
    case AddRoute(r) =>
      forall i, j | 0 <= i < j < |after|
        ensures !(after[i].rule.Host == after[j].rule.Host && after[i].rule.Path == after[j].rule.Path)
      {
        if j == |rs| { assert after[i] == rs[i]; }
      }
    case DeleteRoute(k) =>
      assert 0 <= k < |rs| ==> forall i | 0 <= i < |after| :: after[i] == rs[if i < k then i else i + 1];
    case AddBackend(k, _, _) => assert forall i | 0 <= i < |rs| :: after[i].rule == rs[i].rule;
    case DeleteBackend(k, _) => assert forall i | 0 <= i < |rs| :: after[i].rule == rs[i].rule;
    case UpdateWeight(k, _, _) => assert forall i | 0 <= i < |rs| :: after[i].rule == rs[i].rule;
  }

  lemma {:induction false} UniqueKeysForEver(ops: seq<Op>, rs: seq<RouteV>)
    requires UniqueKeys(rs)
    ensures UniqueKeys(ApplyAll(ops, rs))
  {
    if ops != [] {
      UniqueKeysForEver(ops[..|ops| - 1], rs);
      OpKeepsUniqueKeys(ops[|ops| - 1], ApplyAll(ops[..|ops| - 1], rs));
    }
  }

  // With unique keys the listener's routes are served by the same route whatever their order.
  lemma UniqueKeysServeUniquely(ops: seq<Op>, rs: seq<RouteV>, table: seq<Route<nat>>, order: seq<Route<nat>>,
                                r: Request)
    requires UniqueKeys(rs)
    requires var now := ApplyAll(ops, rs);
      SortedPermutation(table, RulesOf(now)) && SortedPermutation(order, RulesOf(now))
    ensures FirstMatch(table, r) == FirstMatch(order, r)
  {
    UniqueKeysForEver(ops, rs);
    UniqueKeysDeterministic(RulesOf(ApplyAll(ops, rs)), table, order, r);
  }

  function RulesOf(rs: seq<RouteV>): seq<Route<nat>> {
    seq<Route<nat>>(|rs|, i requires 0 <= i < |rs| => Route(i, rs[i].rule))
  }

  // ----- Null entries -----

  // No configured backend entry is null, so the tables can be built.
  predicate Clean(rs: seq<RouteV>) {
    forall i | 0 <= i < |rs| :: NoNull(rs[i].Backends)
  }

  predicate PostsNull(op: Op) {
    op.AddRoute? && !NoNull(op.route.Backends)
  }

  // On a clean listener no operation panics, and only an accepted route with a null entry soils it.
  lemma CleanStepIff(op: Op, rs: seq<RouteV>)
    requires Clean(rs)
    ensures !Apply(op, rs).Panicked?
    ensures Clean(After(op, rs)) <==> !(Apply(op, rs).Edited? && PostsNull(op))
  {
    var after := After(op, rs);
    match op
    case AddRoute(r) =>
      if Apply(op, rs).Edited? { assert after[|rs|] == r; }
    case DeleteRoute(k) =>
      assert 0 <= k < |rs| ==> forall i | 0 <= i < |after| :: after[i] == rs[if i < k then i else i + 1];
    case AddBackend(k, _, _) =>
    case DeleteBackend(k, host) =>
      if 0 <= k < |rs| { WithoutSubset(rs[k].Backends, host); }
    case UpdateWeight(k, _, _) =>
  }

  lemma {:induction false} WithoutSubset(bs: seq<BackendV>, host: string)
    ensures forall b | b in Without(bs, host) :: b in bs
  {
    if bs != [] { WithoutSubset(bs[..|bs| - 1], host); }
  }

  // At step k a route with a null entry was accepted.
  predicate SoiledAt(ops: seq<Op>, rs: seq<RouteV>, k: nat)
    requires k < |ops|
  {
    PostsNull(ops[k]) && Apply(ops[k], ApplyAll(ops[..k], rs)).Edited?
  }

  lemma NextOp(ops: seq<Op>, rs: seq<RouteV>, k: nat)
    requires k < |ops|
    ensures ApplyAll(ops[..k + 1], rs) == After(ops[k], ApplyAll(ops[..k], rs))
  {
    assert ops[..k + 1][..k] == ops[..k];
  }

  lemma {:induction false} CleanSoFar(ops: seq<Op>, rs: seq<RouteV>, n: nat)
    requires Clean(rs) && n <= |ops| && forall k: nat | k < n :: !SoiledAt(ops, rs, k)
    ensures Clean(ApplyAll(ops[..n], rs))
  {
    if n == 0 {
      assert ops[..0] == [];
    } else {
      CleanSoFar(ops, rs, n - 1);
      var k := n - 1;
      NextOp(ops, rs, k);
      assert ops[..k + 1] == ops[..n] && !SoiledAt(ops, rs, k);
      CleanStepIff(ops[n - 1], ApplyAll(ops[..n - 1], rs));
    }
  }

  // Over a whole sequence the listener stays clean throughout exactly when no accepted route holds a
  // null entry.
  lemma CleanThroughoutIff(ops: seq<Op>, rs: seq<RouteV>)
    requires Clean(rs)
    ensures (forall k: nat | k <= |ops| :: Clean(ApplyAll(ops[..k], rs)))
       <==> (forall k: nat | k < |ops| :: !SoiledAt(ops, rs, k))
  {
    if forall k: nat | k < |ops| :: !SoiledAt(ops, rs, k) {
      forall k: nat | k <= |ops| ensures Clean(ApplyAll(ops[..k], rs)) { CleanSoFar(ops, rs, k); }
    } else {
      var k: nat :| k < |ops| && SoiledAt(ops, rs, k);
      NextOp(ops, rs, k);
      if Clean(ApplyAll(ops[..k], rs)) {
        CleanStepIff(ops[k], ApplyAll(ops[..k], rs));
        assert !Clean(ApplyAll(ops[..k + 1], rs));
      }
    }
  }

  // A soiled listener becomes clean exactly when the only route with a null entry is deleted.
  lemma OnlyDeletionCleans(op: Op, rs: seq<RouteV>)
    requires !Clean(rs)
    ensures Clean(After(op, rs)) <==> op.DeleteRoute? && 0 <= op.index < |rs| && CleanBut(rs, op.index)
  {
    if op.DeleteRoute? {
      if 0 <= op.index < |rs| { DeletionCleansIff(rs, op.index); }
    } else {
      var s: nat :| s < |rs| && !NoNull(rs[s].Backends);
      StaysSoiled(op, rs, s);
    }
  }

  predicate CleanBut(rs: seq<RouteV>, k: int) {
    forall i | 0 <= i < |rs| && i != k :: NoNull(rs[i].Backends)
  }

  lemma DeletionCleansIff(rs: seq<RouteV>, k: nat)
    requires k < |rs|
    ensures Clean(rs[..k] + rs[k + 1..]) <==> CleanBut(rs, k)
  {
    var after := rs[..k] + rs[k + 1..];
    assert forall i | 0 <= i < |after| :: after[i] == rs[if i < k then i else i + 1];
    if Clean(after) {
      forall i | 0 <= i < |rs| && i != k ensures NoNull(rs[i].Backends) {
        assert after[if i < k then i else i - 1] == rs[i];
      }
    }
  }

  lemma StaysSoiled(op: Op, rs: seq<RouteV>, s: nat)
    requires !op.DeleteRoute? && s < |rs| && !NoNull(rs[s].Backends)
    ensures !Clean(After(op, rs))
  {
    var after := After(op, rs);
    assert |after| >= |rs|;
    if op.UpdateWeight? {
      KeepsNull(rs, op.index, op.host, op.weight, s);
    } else {
      assert after[s] == rs[s];
    }
  }

  // Writing a weight replaces an entry that is not null.
  lemma KeepsNull(rs: seq<RouteV>, k: int, host: string, w: int, s: nat)
    requires s < |rs| && !NoNull(rs[s].Backends)
    ensures !NoNull(After(UpdateWeight(k, host, w), rs)[s].Backends)
  {
    var i: nat :| i < |rs[s].Backends| && rs[s].Backends[i] == Null;
    var after := After(UpdateWeight(k, host, w), rs);
    assert after[s].Backends[i] == Null;
  }

  // The body {"path":"/x","backends":[null]}: accepted, and the listener can no longer be built.
  lemma NullEntryAccepted(rs: seq<RouteV>)
    requires Clean(rs) && forall i | 0 <= i < |rs| :: !(rs[i].rule.Host == "" && rs[i].rule.Path == "/x")
    ensures var op := AddRoute(RouteV(Rule("", "/x", map[]), "", [Null]));
      Apply(op, rs).Edited? && !Clean(After(op, rs))
  {
    var op := AddRoute(RouteV(Rule("", "/x", map[]), "", [Null]));
    assert op.route.Backends[0] == Null;
    CleanStepIff(op, rs);
  }

  // ----- Operations that undo each other -----

  lemma AddRouteUndone(rs: seq<RouteV>, r: RouteV)
    requires Apply(AddRoute(r), rs).Edited?
    ensures Apply(DeleteRoute(|rs|), After(AddRoute(r), rs)) == Edited(rs)
  {
    assert (rs + [r])[..|rs|] + (rs + [r])[|rs| + 1..] == rs;
  }

  lemma AddBackendUndone(rs: seq<RouteV>, k: int, addr: string, w: int)
    requires Apply(AddBackend(k, addr, w), rs).Edited?
    ensures Apply(DeleteBackend(k, addr), After(AddBackend(k, addr, w), rs)) == Edited(rs)
  {
    var bs := rs[k].Backends;
    var after := After(AddBackend(k, addr, w), rs);
    var bs' := after[k].Backends;
    assert bs'[..|bs'| - 1] == bs && IsFor(bs'[|bs|], addr);
    WithoutAbsent(bs, addr);
    assert Without(bs', addr) == bs;
    assert NoNull(bs');
    assert SetBackends(after, k, bs) == rs;
  }

  lemma {:induction false} WithoutAbsent(bs: seq<BackendV>, host: string)
    requires forall i | 0 <= i < |bs| :: !IsFor(bs[i], host)
    ensures Without(bs, host) == bs
  {
    if bs != [] {
      WithoutAbsent(bs[..|bs| - 1], host);
      assert bs == bs[..|bs| - 1] + [bs[|bs| - 1]];
    }
  }

  // ----- What the rebuilt pool holds -----

  function Normal(weight: int): int { if weight > 0 then weight else 1 }

  // One entry per distinct address; the last entry for an address decides its weight.
  function PoolWeights(bs: seq<BackendV>): map<string, int>
    requires NoNull(bs)
  {
    if bs == [] then map[]
    else PoolWeights(bs[..|bs| - 1])[bs[|bs| - 1].Addr := Normal(bs[|bs| - 1].Weight)]
  }

  lemma {:induction false} PoolWeightsDomain(bs: seq<BackendV>)
    requires NoNull(bs)
    ensures forall a :: a in PoolWeights(bs) <==> HasAddr(bs, a)
    ensures forall a | a in PoolWeights(bs) :: PoolWeights(bs)[a] >= 1
  {
    if bs != [] {
      var front, last := bs[..|bs| - 1], bs[|bs| - 1];
      PoolWeightsDomain(front);
      forall a ensures a in PoolWeights(bs) <==> HasAddr(bs, a) {
        if HasAddr(front, a) {
          var i :| 0 <= i < |front| && IsFor(front[i], a);
          assert IsFor(bs[i], a);
        }
        if HasAddr(bs, a) {
          var i :| 0 <= i < |bs| && IsFor(bs[i], a);
          if i < |front| { assert IsFor(front[i], a); }
        }
        assert IsFor(bs[|bs| - 1], last.Addr);
      }
    }
  }

  // j is the last entry for its address.
  ghost predicate LastFor(bs: seq<BackendV>, j: nat) {
    j < |bs| && bs[j].BackendV? && forall i | j < i < |bs| :: !IsFor(bs[i], bs[j].Addr)
  }

  lemma {:induction false} PoolTakesLast(bs: seq<BackendV>, j: nat)
    requires NoNull(bs) && LastFor(bs, j)
    ensures bs[j].Addr in PoolWeights(bs) && PoolWeights(bs)[bs[j].Addr] == if bs[j].Weight > 0 then bs[j].Weight else 1
  {
    if j < |bs| - 1 {
      var front := bs[..|bs| - 1];
      assert forall i | j < i < |front| :: front[i] == bs[i];
      PoolTakesLast(front, j);
      assert !IsFor(bs[|bs| - 1], bs[j].Addr);
    }
  }

  lemma FindLast(bs: seq<BackendV>, addr: string) returns (j: nat)
    requires HasAddr(bs, addr)
    ensures LastFor(bs, j) && bs[j].Addr == addr
  {
    j := |bs| - 1;
    while !IsFor(bs[j], addr)
      invariant 0 <= j < |bs| && forall i | j < i < |bs| :: !IsFor(bs[i], addr)
      invariant exists i | 0 <= i <= j :: IsFor(bs[i], addr)
      decreases j
    {
      j := j - 1;
    }
  }

  // Adding a backend adds its address to the pool and changes no other.
  lemma AddBackendInPool(rs: seq<RouteV>, k: int, addr: string, w: int)
    requires Apply(AddBackend(k, addr, w), rs).Edited?
    ensures var bs, bs' := rs[k].Backends, After(AddBackend(k, addr, w), rs)[k].Backends;
      && NoNull(bs) && NoNull(bs') && addr !in PoolWeights(bs)
      && PoolWeights(bs') == PoolWeights(bs)[addr := if w > 0 then w else 1]
  {
    var bs, bs' := rs[k].Backends, After(AddBackend(k, addr, w), rs)[k].Backends;
    assert bs'[..|bs'| - 1] == bs;
    PoolWeightsDomain(bs);
  }

  // Deleting by address takes that address, and only it, out of the pool.
  lemma DeleteBackendInPool(rs: seq<RouteV>, k: int, host: string)
    requires Apply(DeleteBackend(k, host), rs).Edited?
    ensures var bs, bs' := rs[k].Backends, After(DeleteBackend(k, host), rs)[k].Backends;
      NoNull(bs) && NoNull(bs') && PoolWeights(bs') == PoolWeights(bs) - {host}
  {
    PoolWithout(rs[k].Backends, host);
  }

  lemma {:induction false} PoolWithout(bs: seq<BackendV>, host: string)
    requires NoNull(bs)
    ensures NoNull(Without(bs, host)) && PoolWeights(Without(bs, host)) == PoolWeights(bs) - {host}
  {
    if bs != [] {
      var front, last := bs[..|bs| - 1], bs[|bs| - 1];
      PoolWithout(front, host);
      UpdateWithout(PoolWeights(front), last.Addr, Normal(last.Weight), host);
      if last.Addr == host {
        assert Without(bs, host) == Without(front, host);
      } else {
        var kept := Without(front, host) + [last];
        assert kept[..|kept| - 1] == Without(front, host);
      }
    }
  }

  lemma UpdateWithout(m: map<string, int>, a: string, w: int, host: string)
    ensures m[a := w] - {host} == if a == host then m - {host} else (m - {host})[a := w]
  {
  }

  // host is configured once.
  ghost predicate Once(bs: seq<BackendV>, host: string) {
    forall i, j | 0 <= i < j < |bs| :: !(IsFor(bs[i], host) && IsFor(bs[j], host))
  }

  // The update sets the first entry for host while the pool takes the last. So an accepted update
  // shows in the rebuilt pool exactly when host is configured once or the last entry already has
  // that weight; with a duplicate it leaves the whole pool as it was.
  lemma UpdateShowsIff(rs: seq<RouteV>, k: int, host: string, w: int)
    requires Apply(UpdateWeight(k, host, w), rs).Edited? && NoNull(rs[k].Backends)
    ensures var bs, bs' := rs[k].Backends, After(UpdateWeight(k, host, w), rs)[k].Backends;
      && NoNull(bs') && host in PoolWeights(bs) && host in PoolWeights(bs')
      && (PoolWeights(bs')[host] == w <==> Once(bs, host) || PoolWeights(bs)[host] == w)
      && (!Once(bs, host) ==> PoolWeights(bs') == PoolWeights(bs))
      && PoolWeights(bs') - {host} == PoolWeights(bs) - {host}
  {
    var bs := rs[k].Backends;
    var first := Find(bs, host).i;
    var bs' := bs[first := BackendV(host, w)];
    var last := UpdatedWeight(bs, host, w, first);
    UpdateKeepsOthers(bs, host, w, first);
    if first != last {
      assert !Once(bs, host);
      SamePool(PoolWeights(bs'), PoolWeights(bs), host);
    }
  }

  lemma SamePool(p: map<string, int>, q: map<string, int>, host: string)
    requires host in p && host in q && p[host] == q[host] && p - {host} == q - {host}
    ensures p == q
  {
    forall a ensures a in p <==> a in q ensures a in p ==> p[a] == q[a] {
      if a != host {
        assert a in p <==> a in p - {host};
        assert a in q <==> a in q - {host};
      }
    }
  }

  // The pool takes the updated weight just when the first entry for host is also the last.
  lemma UpdatedWeight(bs: seq<BackendV>, host: string, w: int, first: nat) returns (last: nat)
    requires NoNull(bs) && w > 0 && Find(bs, host) == At(first)
    ensures var bs' := bs[first := BackendV(host, w)];
      && NoNull(bs') && host in PoolWeights(bs) && host in PoolWeights(bs')
      && PoolWeights(bs')[host] == (if first == last then w else PoolWeights(bs)[host])
    ensures last < |bs| && IsFor(bs[first], host) && IsFor(bs[last], host)
    ensures forall i | 0 <= i < |bs| && IsFor(bs[i], host) :: first <= i <= last
  {
    var bs' := bs[first := BackendV(host, w)];
    last := FindLast(bs, host);
    assert LastFor(bs', last);
    PoolTakesLast(bs, last);
    PoolTakesLast(bs', last);
  }

  lemma UpdateKeepsOthers(bs: seq<BackendV>, host: string, w: int, first: nat)
    requires NoNull(bs) && first < |bs| && IsFor(bs[first], host)
    ensures var bs' := bs[first := BackendV(host, w)];
      NoNull(bs') && PoolWeights(bs') - {host} == PoolWeights(bs) - {host}
  {
    var bs' := bs[first := BackendV(host, w)];
    forall a | a != host ensures a in PoolWeights(bs') <==> a in PoolWeights(bs)
      ensures a in PoolWeights(bs) ==> PoolWeights(bs')[a] == PoolWeights(bs)[a]
    {
      OtherAddressUnchanged(bs, first, w, a);
    }
  }

  lemma {:induction false} OtherAddressUnchanged(bs: seq<BackendV>, f: nat, w: int, a: string)
    requires NoNull(bs) && f < |bs| && !IsFor(bs[f], a)
    ensures var bs' := bs[f := BackendV(bs[f].Addr, w)];
      && NoNull(bs')
      && (a in PoolWeights(bs') <==> a in PoolWeights(bs))
      && (a in PoolWeights(bs) ==> PoolWeights(bs')[a] == PoolWeights(bs)[a])
  {
    var bs' := bs[f := BackendV(bs[f].Addr, w)];
    var front := bs[..|bs| - 1];
    if f < |front| {
      assert bs'[..|bs'| - 1] == front[f := BackendV(front[f].Addr, w)];
      OtherAddressUnchanged(front, f, w, a);
    } else {
      assert bs'[..|bs'| - 1] == front;
    }
  }

  // The duplicate case does arise: two entries for one address, weight 5 asked for, weight 1 kept.
  lemma DuplicateHidesUpdate()
    ensures var bs := [BackendV("a", 1), BackendV("a", 1)];
      var rs := [RouteV(Rule("", "/", map[]), "", bs)];
      var op := UpdateWeight(0, "a", 5);
      && Apply(op, rs).Edited? && NoNull(After(op, rs)[0].Backends)
      && PoolWeights(After(op, rs)[0].Backends) == map["a" := 1]
  {
    var bs := [BackendV("a", 1), BackendV("a", 1)];
    var rs := [RouteV(Rule("", "/", map[]), "", bs)];
    assert IsFor(bs[0], "a") && IsFor(bs[1], "a");
    assert Find(bs, "a") == At(0);
    UpdateShowsIff(rs, 0, "a", 5);
    assert bs[..1] == [BackendV("a", 1)] && bs[..1][..0] == [];
    assert PoolWeights(bs[..1]) == map["a" := 1];
    assert PoolWeights(bs) == map["a" := 1]["a" := 1] == map["a" := 1];
  }
}
