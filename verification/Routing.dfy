// Which route serves a request: the match test, the sort comparator and first-match dispatch.
// Strings are byte sequences, as in the program.
module Routing {
  import opened Options

  // The routing part of a route's configuration.
  datatype Rule = Rule(Host: string, Path: string, Headers: map<string, string>)

  // header answers the first value of a canonical header name, "" when the header is absent.
  datatype Request = Request(host: string, path: string, header: string -> string)

  // ----- Matches -----

  predicate HeaderByte(c: char) {
    'a' <= c <= 'z' || 'A' <= c <= 'Z' || '0' <= c <= '9' || c in "!#$%&'*+-.^_`|~"
  }

  // The name under which a header is stored: the first letter and every letter after a hyphen in
  // upper case, the others in lower case; names with other bytes are left as they are.
  function CanonicalHeaderKey(key: string): string {
    if forall i | 0 <= i < |key| :: HeaderByte(key[i]) then Capitalized(key, true) else key
  }

  function Capitalized(key: string, upper: bool): string {
    if key == "" then ""
    else
      var c := key[0];
      var d := if upper && 'a' <= c <= 'z' then c - 'a' + 'A'
               else if !upper && 'A' <= c <= 'Z' then c - 'A' + 'a'
               else c;
      [d] + Capitalized(key[1..], c == '-')
  }

  // Every visible character but the delimiters of RFC 7230, section 3.2.6.
  lemma HeaderByteIff(c: char)
    ensures HeaderByte(c) <==> '!' <= c <= '~' && c !in "\"(),/:;<=>?@[\\]{}"
  {
  }

  // Position by position, for names a header can have.
  lemma {:induction false} CanonicalByPosition(key: string, upper: bool, i: nat)
    requires i < |key|
    ensures |Capitalized(key, upper)| == |key|
    ensures var c, first := key[i], if i == 0 then upper else key[i - 1] == '-';
      Capitalized(key, upper)[i] ==
        if first && 'a' <= c <= 'z' then c - 'a' + 'A' else if !first && 'A' <= c <= 'Z' then c - 'A' + 'a' else c
  {
    if |key| > 1 {
      CanonicalByPosition(key[1..], key[0] == '-', if i == 0 then 0 else i - 1);
    }
  }

  // Two names are the same header exactly when they differ in the case of letters only.
  lemma SameHeaderIff(a: string, b: string)
    requires forall i | 0 <= i < |a| :: HeaderByte(a[i])
    requires forall i | 0 <= i < |b| :: HeaderByte(b[i])
    ensures CanonicalHeaderKey(a) == CanonicalHeaderKey(b)
       <==> |a| == |b| && forall i | 0 <= i < |a| :: Lower(a[i]) == Lower(b[i])
  {
    SameCapitalizedIff(a, b, true);
  }

  function Lower(c: char): char { if 'A' <= c <= 'Z' then c - 'A' + 'a' else c }

  lemma {:induction false} SameCapitalizedIff(a: string, b: string, upper: bool)
    ensures Capitalized(a, upper) == Capitalized(b, upper)
       <==> |a| == |b| && forall i | 0 <= i < |a| :: Lower(a[i]) == Lower(b[i])
  {
    if a != "" && b != "" {
      var x, y := Capitalized(a, upper), Capitalized(b, upper);
      if Lower(a[0]) == Lower(b[0]) {
        SameCapitalizedIff(a[1..], b[1..], a[0] == '-');
        assert x == [x[0]] + x[1..] && y == [y[0]] + y[1..];
        assert |a| == |b| && (forall i | 0 <= i < |a[1..]| :: Lower(a[1..][i]) == Lower(b[1..][i])) ==>
          forall i | 0 <= i < |a| :: i > 0 ==> a[i] == a[1..][i - 1] && b[i] == b[1..][i - 1];
      } else {
        assert x[0] != y[0];
      }
    }
  }

  // A name with a byte that no header name has stays as it is.
  lemma CanonicalExamples()
    ensures CanonicalHeaderKey("user-agent") == "User-Agent"
    ensures CanonicalHeaderKey("x key") == "x key"
  {
    UserAgent();
    var b := "x key";
    assert !HeaderByte(b[1]);
  }

  lemma UserAgent()
    ensures CanonicalHeaderKey("user-agent") == "User-Agent"
  {
    var a, b := "user-agent", "User-Agent";
    CanonicalByPosition(a, true, 0);
    forall i: nat | i < |a| ensures Capitalized(a, true)[i] == b[i] { CanonicalByPosition(a, true, i); }
  }

  predicate Matches(rt: Rule, r: Request) {
    && (rt.Host != "" ==> rt.Host == r.host)
    && (rt.Path != "" ==> rt.Path <= r.path)
    && forall key | key in rt.Headers :: r.header(CanonicalHeaderKey(key)) == rt.Headers[key]
  }

  // Prefix, host and headers, each by itself.
  lemma ExpectedMatches(role: string)
    ensures Matches(Rule("", "/api/", map[]), Request("example.com", "/api/users", _ => ""))
    ensures !Matches(Rule("", "/api/", map[]), Request("example.com", "/web", _ => ""))
    ensures Matches(Rule("", "/", map[]), Request("example.com", "/web", _ => ""))
    ensures Matches(Rule("api.example.com", "", map[]), Request("api.example.com", "/users", _ => ""))
    ensures !Matches(Rule("api.example.com", "", map[]), Request("web.example.com", "/users", _ => ""))
    ensures Matches(Rule("", "", map["X-Role" := "admin"]), Request("example.com", "/", _ => role)) <==> role == "admin"
  {
    var any := Request("example.com", "/web", _ => "");
    assert "/api/"[1] != any.path[1];
    assert "api.example.com"[0] != "web.example.com"[0];
    assert "X-Role" in map["X-Role" := "admin"];
  }

  // ----- The comparator -----

  predicate Before(r1: Rule, r2: Rule) {
    if r1.Host != "" && r2.Host == "" then true
    else if r1.Host == "" && r2.Host != "" then false
    else if |r1.Path| > |r2.Path| then true
    else if |r1.Path| < |r2.Path| then false
    else |r1.Host| > |r2.Host|
  }

  // What sort.Slice needs of its comparator.
  lemma StrictWeakOrder(a: Rule, b: Rule, c: Rule)
    ensures !Before(a, a)
    ensures Before(a, b) ==> !Before(b, a)
    ensures Before(a, b) && Before(b, c) ==> Before(a, c)
    ensures !Before(a, b) && !Before(b, c) ==> !Before(a, c)
  {
  }

  // Two matches of equal rank have the same host and are equal-length prefixes of one path.
  lemma EqualRankSameKey(a: Rule, b: Rule, r: Request)
    requires Matches(a, r) && Matches(b, r) && !Before(a, b) && !Before(b, a)
    ensures a.Host == b.Host && a.Path == b.Path
  {
    assert |a.Path| == |b.Path|;
    if a.Path != "" {
      assert a.Path == r.path[..|a.Path|] == b.Path;
    }
  }

  // ----- The table -----

  // id stands for what tells the routes of one table apart: their pools and handlers.
  datatype Route<T> = Route(id: T, rule: Rule)

  ghost predicate Sorted<T>(s: seq<Route<T>>) {
    forall i, j | 0 <= i < j < |s| :: !Before(s[j].rule, s[i].rule)
  }

  // What sort.Slice may return: the sort is not stable, so any sorted permutation.
  ghost predicate SortedPermutation<T>(s: seq<Route<T>>, routes: seq<Route<T>>) {
    multiset(s) == multiset(routes) && Sorted(s)
  }

  function FirstMatch<T>(s: seq<Route<T>>, r: Request): Option<Route<T>> {
    if s == [] then None
    else if Matches(s[0].rule, r) then Some(s[0])
    else FirstMatch(s[1..], r)
  }

  // rt is a match that no match precedes in rank.
  ghost predicate MostSpecific<T>(routes: seq<Route<T>>, r: Request, rt: Route<T>) {
    && rt in routes && Matches(rt.rule, r)
    && forall o | o in routes && Matches(o.rule, r) :: !Before(o.rule, rt.rule)
  }

  ghost predicate MayServe(routes: seq<Route<nat>>, r: Request, rt: Route<nat>) {
    exists s: seq<Route<nat>> :: SortedPermutation(s, routes) && FirstMatch(s, r) == Some(rt)
  }

  lemma {:induction false} FirstMatchOfSorted<T>(s: seq<Route<T>>, r: Request)
    requires Sorted(s)
    ensures match FirstMatch(s, r)
      case None => forall o | o in s :: !Matches(o.rule, r)
      case Some(rt) => MostSpecific(s, r, rt)
  {
    if s != [] {
      if Matches(s[0].rule, r) {
        StrictWeakOrder(s[0].rule, s[0].rule, s[0].rule);
      } else {
        FirstMatchOfSorted(s[1..], r);
        assert s == [s[0]] + s[1..];
      }
    }
  }

  lemma SameElements<T>(s: seq<Route<T>>, t: seq<Route<T>>)
    requires multiset(s) == multiset(t)
    ensures forall o | o in s :: o in t
    ensures forall o | o in t :: o in s
  {
    forall o | o in s ensures o in t { assert o in multiset(s); }
    forall o | o in t ensures o in s { assert o in multiset(t); }
  }

  // However the sort places ties, dispatch answers a most specific match, and not-found exactly when
  // no route matches.
  lemma DispatchMostSpecific<T>(s: seq<Route<T>>, routes: seq<Route<T>>, r: Request)
    requires SortedPermutation(s, routes)
    ensures match FirstMatch(s, r)
      case None => forall o | o in routes :: !Matches(o.rule, r)
      case Some(rt) => MostSpecific(routes, r, rt)
  {
    FirstMatchOfSorted(s, r);
    SameElements(s, routes);
  }

  // ----- In plain terms -----

  // A table has the routes with a host first, and each of the two parts by falling length of the path and
  // then of the host.
  lemma SortedIff<T>(s: seq<Route<T>>)
    ensures Sorted(s) <==> forall i, j | 0 <= i < j < |s| ::
      var a, b := s[i].rule, s[j].rule;
      && (b.Host != "" ==> a.Host != "")
      && ((a.Host == "") == (b.Host == "") ==> |a.Path| >= |b.Path|)
      && ((a.Host == "") == (b.Host == "") && |a.Path| == |b.Path| ==> |a.Host| >= |b.Host|)
  {
  }

  // What a request gets: a route of its host or of none, whose path begins the request's and whose headers
  // the request carries; a route of its host if one fits, and of those the one with the longest path. It
  // gets nothing only if no route fits.
  lemma ServedPlainly<T>(s: seq<Route<T>>, routes: seq<Route<T>>, r: Request)
    requires SortedPermutation(s, routes)
    ensures FirstMatch(s, r).Some? ==>
      var rule := FirstMatch(s, r).value.rule;
      && FirstMatch(s, r).value in routes
      && (rule.Host == "" || rule.Host == r.host) && rule.Path <= r.path
      && forall key | key in rule.Headers :: r.header(CanonicalHeaderKey(key)) == rule.Headers[key]
    ensures forall o | o in routes && (o.rule.Host == "" || o.rule.Host == r.host) && o.rule.Path <= r.path
      && (forall key | key in o.rule.Headers :: r.header(CanonicalHeaderKey(key)) == o.rule.Headers[key]) ::
      && FirstMatch(s, r).Some?
      && var rule := FirstMatch(s, r).value.rule;
      && (o.rule.Host != "" ==> rule.Host != "")
      && (o.rule.Host == rule.Host ==> |o.rule.Path| <= |rule.Path|)
  {
    DispatchMostSpecific(s, routes, r);
    forall o | o in routes && (o.rule.Host == "" || o.rule.Host == r.host) && o.rule.Path <= r.path
      && (forall key | key in o.rule.Headers :: r.header(CanonicalHeaderKey(key)) == o.rule.Headers[key])
      ensures Matches(o.rule, r)
    {
    }
  }

  // ----- Every most specific match can be the one served -----

  function Insert<T>(x: Route<T>, s: seq<Route<T>>): seq<Route<T>> {
    if s == [] || !Before(s[0].rule, x.rule) then [x] + s else [s[0]] + Insert(x, s[1..])
  }

  function InsertionSort<T>(s: seq<Route<T>>): seq<Route<T>> {
    if s == [] then [] else Insert(s[0], InsertionSort(s[1..]))
  }

  lemma {:induction false} InsertSorts<T>(x: Route<T>, s: seq<Route<T>>)
    requires Sorted(s)
    ensures Sorted(Insert(x, s)) && multiset(Insert(x, s)) == multiset([x] + s)
  {
    if s == [] || !Before(s[0].rule, x.rule) {
      forall j | 0 <= j < |s| ensures !Before(s[j].rule, x.rule) {
        if j > 0 { StrictWeakOrder(s[j].rule, s[0].rule, x.rule); }
      }
    } else {
      var t := Insert(x, s[1..]);
      InsertSorts(x, s[1..]);
      assert Sorted([s[0]] + t) by { HeadFirst(x, s, t); }
      assert multiset([s[0]] + t) == multiset{s[0]} + multiset(t);
      assert s == [s[0]] + s[1..];
    }
  }

  lemma HeadFirst<T>(x: Route<T>, s: seq<Route<T>>, t: seq<Route<T>>)
    requires s != [] && Sorted(s) && Before(s[0].rule, x.rule)
    requires Sorted(t) && multiset(t) == multiset([x] + s[1..])
    ensures Sorted([s[0]] + t)
  {
    SameElements(t, [x] + s[1..]);
    forall j | 0 <= j < |t| ensures !Before(t[j].rule, s[0].rule) {
      assert t[j] in [x] + s[1..];
      StrictWeakOrder(s[0].rule, x.rule, x.rule);
    }
  }

  lemma {:induction false} InsertionSortSorts<T>(s: seq<Route<T>>)
    ensures SortedPermutation(InsertionSort(s), s)
  {
    if s != [] {
      InsertionSortSorts(s[1..]);
      InsertSorts(s[0], InsertionSort(s[1..]));
      assert s == [s[0]] + s[1..];
    }
  }

  // Inserted in front of its equals, a match preceded by no match is found first.
  lemma {:induction false} InsertedIsFound<T>(x: Route<T>, s: seq<Route<T>>, r: Request)
    requires Matches(x.rule, r)
    requires forall o | o in s && Matches(o.rule, r) :: !Before(o.rule, x.rule)
    ensures FirstMatch(Insert(x, s), r) == Some(x)
  {
    if s == [] || !Before(s[0].rule, x.rule) {
    } else {
      InsertedIsFound(x, s[1..], r);
      assert ([s[0]] + Insert(x, s[1..]))[1..] == Insert(x, s[1..]);
    }
  }

  lemma ServedExactly(routes: seq<Route<nat>>, r: Request, rt: Route<nat>)
    ensures MayServe(routes, r, rt) <==> MostSpecific(routes, r, rt)
  {
    if MayServe(routes, r, rt) {
      var s :| SortedPermutation(s, routes) && FirstMatch(s, r) == Some(rt);
      DispatchMostSpecific(s, routes, r);
    }
    if MostSpecific(routes, r, rt) {
      var i :| 0 <= i < |routes| && routes[i] == rt;
      var rest := routes[..i] + routes[i + 1..];
      assert routes == routes[..i] + [rt] + routes[i + 1..];
      var sorted := InsertionSort(rest);
      InsertionSortSorts(rest);
      InsertSorts(rt, sorted);
      assert FirstMatch(Insert(rt, sorted), r) == Some(rt) by {
        SameElements(sorted, rest);
        InsertedIsFound(rt, sorted, r);
      }
      assert multiset([rt] + sorted) == multiset{rt} + multiset(rest) == multiset(routes);
      assert SortedPermutation(Insert(rt, sorted), routes);
    }
  }

  // ----- When dispatch is a function of the route set -----

  // Whatever the request, only one route can be served.
  ghost predicate Deterministic(routes: seq<Route<nat>>) {
    forall r, a, b | MayServe(routes, r, a) && MayServe(routes, r, b) :: a == b
  }

  ghost predicate SameKey(a: Rule, b: Rule) {
    a.Host == b.Host && a.Path == b.Path
  }

  // Some request carries all the headers that a and b ask for.
  ghost predicate HeadersCompatible(a: Rule, b: Rule) {
    && Agree(a, a) && Agree(a, b) && Agree(b, b)
  }

  ghost predicate Agree(a: Rule, b: Rule) {
    forall k, l | k in a.Headers && l in b.Headers && CanonicalHeaderKey(k) == CanonicalHeaderKey(l) ::
      a.Headers[k] == b.Headers[l]
  }

  ghost predicate Ambiguous(routes: seq<Route<nat>>, a: Route<nat>, b: Route<nat>) {
    a in routes && b in routes && a != b && SameKey(a.rule, b.rule) && HeadersCompatible(a.rule, b.rule)
  }

  // Dispatch depends on the order of the configuration or on the sort exactly when two routes share
  // (Host, Path) and ask for headers that one request can carry.
  lemma DeterministicIff(routes: seq<Route<nat>>)
    ensures Deterministic(routes) <==> forall a, b :: !Ambiguous(routes, a, b)
  {
    if Deterministic(routes) {
      forall a, b ensures !Ambiguous(routes, a, b) {
        if Ambiguous(routes, a, b) {
          var r := RequestFor(routes, a, b);
          ServedExactly(routes, r, a);
          ServedExactly(routes, r, b);
        }
      }
    }
    if forall a, b :: !Ambiguous(routes, a, b) {
      forall r, a, b | MayServe(routes, r, a) && MayServe(routes, r, b) ensures a == b {
        ServedExactly(routes, r, a);
        ServedExactly(routes, r, b);
        EqualRankSameKey(a.rule, b.rule, r);
        BothMatchCompatible(a.rule, b.rule, r);
        assert !Ambiguous(routes, a, b);
      }
    }
  }

  // The routes written in the repository's config.yaml are ambiguous as an http listener's: one for "/"
  // that asks for a User-Agent beside one for "/" that asks for nothing.
  lemma ShippedConfigAmbiguous()
    ensures var mobile := Route(1, Rule("", "/", map["User-Agent" := "MobileApp"]));
      var web := Route(2, Rule("", "/", map[]));
      var api := Route(0, Rule("api.example.com", "/", map[]));
      Ambiguous([api, mobile, web], mobile, web) && !Deterministic([api, mobile, web])
  {
    var mobile := Route(1, Rule("", "/", map["User-Agent" := "MobileApp"]));
    var web := Route(2, Rule("", "/", map[]));
    var api := Route(0, Rule("api.example.com", "/", map[]));
    assert mobile.id != web.id;
    DeterministicIff([api, mobile, web]);
    assert Ambiguous([api, mobile, web], mobile, web);
  }

  // In particular when no two routes share (Host, Path), which AddRoute maintains per listener.
  lemma UniqueKeysDeterministic(routes: seq<Route<nat>>, s: seq<Route<nat>>, t: seq<Route<nat>>, r: Request)
    requires forall a, b | a in routes && b in routes && a != b :: !SameKey(a.rule, b.rule)
    requires SortedPermutation(s, routes) && multiset(t) == multiset(routes) && Sorted(t)
    ensures FirstMatch(s, r) == FirstMatch(t, r)
  {
    DispatchMostSpecific(s, routes, r);
    DispatchMostSpecific(t, routes, r);
    if FirstMatch(s, r).Some? && FirstMatch(t, r).Some? {
      EqualRankSameKey(FirstMatch(s, r).value.rule, FirstMatch(t, r).value.rule, r);
    }
  }

  lemma BothMatchCompatible(a: Rule, b: Rule, r: Request)
    requires Matches(a, r) && Matches(b, r)
    ensures HeadersCompatible(a, b)
  {
  }

  // A host that no route names.
  function LongHost(routes: seq<Route<nat>>): (h: string)
    ensures h != "" && forall o | o in routes :: |o.rule.Host| < |h|
  {
    if routes == [] then "x" else LongHost(routes[1..]) + routes[0].rule.Host + "x"
  }

  ghost function HeaderValue(a: Rule, b: Rule, name: string): string {
    if exists k :: k in a.Headers && CanonicalHeaderKey(k) == name then
      var k :| k in a.Headers && CanonicalHeaderKey(k) == name; a.Headers[k]
    else if exists k :: k in b.Headers && CanonicalHeaderKey(k) == name then
      var k :| k in b.Headers && CanonicalHeaderKey(k) == name; b.Headers[k]
    else ""
  }

  // A request that two ambiguous routes both match, and no route above them.
  lemma RequestFor(routes: seq<Route<nat>>, a: Route<nat>, b: Route<nat>) returns (r: Request)
    requires Ambiguous(routes, a, b)
    ensures MostSpecific(routes, r, a) && MostSpecific(routes, r, b)
  {
    var host := if a.rule.Host == "" then LongHost(routes) else a.rule.Host;
    r := Request(host, a.rule.Path, name => HeaderValue(a.rule, b.rule, name));
    forall key | key in a.rule.Headers ensures r.header(CanonicalHeaderKey(key)) == a.rule.Headers[key] {
      var name := CanonicalHeaderKey(key);
      assert exists k :: k in a.rule.Headers && CanonicalHeaderKey(k) == name;
    }
    forall key | key in b.rule.Headers ensures r.header(CanonicalHeaderKey(key)) == b.rule.Headers[key] {
      var name := CanonicalHeaderKey(key);
      assert exists k :: k in b.rule.Headers && CanonicalHeaderKey(k) == name;
    }
    forall o | o in routes && Matches(o.rule, r) ensures !Before(o.rule, a.rule) && !Before(o.rule, b.rule) {
      assert o.rule.Host != LongHost(routes);
    }
  }

  // ----- The dispatch loop -----

  method Dispatch<T>(routes: seq<Route<T>>, r: Request) returns (served: Option<Route<T>>)
    ensures served == FirstMatch(routes, r)
  {
    var i := 0;
    while i < |routes|
      invariant 0 <= i <= |routes|
      invariant FirstMatch(routes, r) == FirstMatch(routes[i..], r)
    {
      if Matches(routes[i].rule, r) {
        return Some(routes[i]);
      }
      i := i + 1;
    }
    return None;
  }
}
