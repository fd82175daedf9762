/** Starting order of services: Kahn's algorithm over the dependencies they declare.

    The functions follow the code step by step, on any input; a method runs the loops. */
module Services {
  import opened Options

  datatype Service = Service(name: string, deps: seq<string>)

  /** Where the program goes on, or one of its two ways to stop with an error. */
  datatype Result = Unknown(name: string, dep: string) | Cycle(names: set<string>) | Ordered(order: seq<Service>)

  // ----- The graph -----

  /** by_name: the first service of each name. */
  function ByName(services: seq<Service>): map<string, Service>
    decreases |services|
  {
    if |services| == 0 then map[]
    else
      var m, s := ByName(services[..|services| - 1]), services[|services| - 1];
      if s.name in m then m else m[s.name := s]
  }

  function FirstUnknownDep(deps: seq<string>, known: map<string, Service>): Option<string>
    decreases |deps|
  {
    if |deps| == 0 then None else if deps[0] !in known then Some(deps[0]) else FirstUnknownDep(deps[1..], known)
  }

  function FirstUnknown(services: seq<Service>, known: map<string, Service>): Option<(string, string)>
    decreases |services|
  {
    if |services| == 0 then None
    else match FirstUnknownDep(services[0].deps, known)
      case Some(d) => Some((services[0].name, d))
      case None => FirstUnknown(services[1..], known)
  }

  predicate NoDeps(services: seq<Service>) {
    forall i :: 0 <= i < |services| ==> services[i].deps == []
  }

  /** operator[] on the two maps. */
  function Int(m: map<string, int>, k: string): int {
    if k in m then m[k] else 0
  }

  function List(m: map<string, seq<string>>, k: string): seq<string> {
    if k in m then m[k] else []
  }

  datatype Graph = Graph(indegree: map<string, int>, reverse: map<string, seq<string>>)

  function Names(services: seq<Service>): set<string> {
    set i | 0 <= i < |services| :: services[i].name
  }

  function Zeros(services: seq<Service>): map<string, int> {
    map x | x in Names(services) :: 0
  }

  function WithDep(g: Graph, name: string, dep: string): Graph {
    Graph(g.indegree[name := Int(g.indegree, name) + 1], g.reverse[dep := List(g.reverse, dep) + [name]])
  }

  function WithDeps(g: Graph, name: string, deps: seq<string>): Graph
    decreases |deps|
  {
    if |deps| == 0 then g else WithDep(WithDeps(g, name, deps[..|deps| - 1]), name, deps[|deps| - 1])
  }

  function Built(g: Graph, services: seq<Service>): Graph
    decreases |services|
  {
    if |services| == 0 then g
    else
      var s := services[|services| - 1];
      WithDeps(Built(g, services[..|services| - 1]), s.name, s.deps)
  }

  function GraphOf(services: seq<Service>): Graph {
    Built(Graph(Zeros(services), map[]), services)
  }

  // ----- Peeling -----

  datatype Peeling = Peeling(indegree: map<string, int>, ready: seq<string>, ordered: seq<string>)

  function InitialReady(services: seq<Service>, indegree: map<string, int>): seq<string>
    decreases |services|
  {
    if |services| == 0 then []
    else
      var s := services[|services| - 1];
      InitialReady(services[..|services| - 1], indegree) + if Int(indegree, s.name) == 0 then [s.name] else []
  }

  /** One child of a service that was ordered. */
  function Release(p: Peeling, child: string): Peeling {
    var n := Int(p.indegree, child) - 1;
    Peeling(p.indegree[child := n], if n == 0 then p.ready + [child] else p.ready, p.ordered)
  }

  function ReleaseAll(p: Peeling, children: seq<string>): Peeling
    decreases |children|
  {
    if |children| == 0 then p else ReleaseAll(Release(p, children[0]), children[1..])
  }

  ghost function Waiting(indegree: map<string, int>): set<string> {
    set x | x in indegree && indegree[x] > 0
  }

  /** What the loop uses up: each entry of the list, and each service that may still enter it. */
  ghost function Work(p: Peeling): nat {
    |p.ready| + |Waiting(p.indegree)|
  }

  lemma ReleaseWork(p: Peeling, child: string)
    ensures Work(Release(p, child)) <= Work(p)
  {
    var q := Release(p, child);
    var n := Int(p.indegree, child) - 1;
    if n <= 0 && n + 1 > 0 {
      assert Waiting(q.indegree) == Waiting(p.indegree) - {child} && child in Waiting(p.indegree);
    } else {
      assert Waiting(q.indegree) == Waiting(p.indegree);
    }
  }

  lemma {:induction false} ReleaseAllWork(p: Peeling, children: seq<string>)
    ensures Work(ReleaseAll(p, children)) <= Work(p)
    decreases |children|
  {
    hide Work, Release;
    if |children| > 0 {
      ReleaseWork(p, children[0]);
      ReleaseAllWork(Release(p, children[0]), children[1..]);
    }
  }

  /** Take the first ready service and release what depends on it. */
  function PeelOne(p: Peeling, reverse: map<string, seq<string>>): Peeling
    requires |p.ready| > 0
  {
    var name := p.ready[0];
    ReleaseAll(Peeling(p.indegree, p.ready[1..], p.ordered + [name]), List(reverse, name))
  }

  function Peel(p: Peeling, reverse: map<string, seq<string>>): Peeling
    decreases Work(p)
  {
    if |p.ready| == 0 then p
    else
      ReleaseAllWork(Peeling(p.indegree, p.ready[1..], p.ordered + [p.ready[0]]), List(reverse, p.ready[0]));
      Peel(PeelOne(p, reverse), reverse)
  }

  function Kahn(services: seq<Service>): Result {
    var g := GraphOf(services);
    var p := Peel(Peeling(g.indegree, InitialReady(services, g.indegree), []), g.reverse);
    if |p.ordered| != |services| then Cycle(Stuck(p.indegree))
    else Ordered(Found(p.ordered, ByName(services)))
  }

  function Stuck(indegree: map<string, int>): set<string> {
    set x | x in indegree && indegree[x] > 0
  }

  /** by_name of each name; every name in the list is a service's. */
  function Found(names: seq<string>, byName: map<string, Service>): seq<Service>
  {
    seq(|names|, i requires 0 <= i < |names| => if names[i] in byName then byName[names[i]] else Service(names[i], []))
  }

  function Sort(services: seq<Service>): Result {
    match FirstUnknown(services, ByName(services))
    case Some((name, dep)) => Unknown(name, dep)
    case None => if NoDeps(services) then Ordered(services) else Kahn(services)
  }

  // ----- What the two maps count -----

  /** No service of this name has a dependency, and none depends on it. */
  predicate Apart(services: seq<Service>, x: string) {
    forall k :: 0 <= k < |services| ==> (services[k].name == x ==> services[k].deps == []) && x !in services[k].deps
  }

  /** A name may be repeated only apart from all others. */
  predicate RepeatsApart(services: seq<Service>) {
    forall i, j :: 0 <= i < j < |services| && services[i].name == services[j].name ==> Apart(services, services[i].name)
  }

  lemma ApartBefore(services: seq<Service>)
    requires |services| > 0 && RepeatsApart(services)
    ensures RepeatsApart(services[..|services| - 1])
  {
    var init := services[..|services| - 1];
    forall i, j | 0 <= i < j < |init| && init[i].name == init[j].name ensures Apart(init, init[i].name) {
      assert services[i].name == services[j].name;
      assert Apart(services, services[i].name);
    }
  }

  /** How often x depends on d, by all services of that name. */
  function Edges(services: seq<Service>, x: string, d: string): nat
    decreases |services|
  {
    if |services| == 0 then 0
    else
      var s := services[|services| - 1];
      Edges(services[..|services| - 1], x, d) + if s.name == x then multiset(s.deps)[d] else 0
  }

  function Degree(services: seq<Service>, x: string): nat
    decreases |services|
  {
    if |services| == 0 then 0
    else
      var s := services[|services| - 1];
      Degree(services[..|services| - 1], x) + if s.name == x then |s.deps| else 0
  }

  lemma WithDepCounts(g: Graph, name: string, dep: string, x: string, d: string)
    ensures var h := WithDep(g, name, dep);
      && Int(h.indegree, x) == Int(g.indegree, x) + (if x == name then 1 else 0)
      && multiset(List(h.reverse, d))[x] == multiset(List(g.reverse, d))[x] + (if x == name && d == dep then 1 else 0)
      && h.indegree.Keys == g.indegree.Keys + {name}
  {
    var h := WithDep(g, name, dep);
    if d == dep { assert multiset(List(h.reverse, d)) == multiset(List(g.reverse, d)) + multiset{name}; }
  }

  lemma {:induction false} WithDepsCounts(g: Graph, name: string, deps: seq<string>, x: string, d: string)
    ensures var h := WithDeps(g, name, deps);
      && Int(h.indegree, x) == Int(g.indegree, x) + (if x == name then |deps| else 0)
      && multiset(List(h.reverse, d))[x] == multiset(List(g.reverse, d))[x] + (if x == name then multiset(deps)[d] else 0)
      && g.indegree.Keys <= h.indegree.Keys <= g.indegree.Keys + {name}
    decreases |deps|
  {
    hide WithDep, Int, List;
    if |deps| > 0 {
      var init, dep := deps[..|deps| - 1], deps[|deps| - 1];
      WithDepsCounts(g, name, init, x, d);
      WithDepCounts(WithDeps(g, name, init), name, dep, x, d);
      assert deps == init + [dep];
    }
  }

  lemma {:induction false} BuiltCounts(g: Graph, services: seq<Service>, x: string, d: string)
    requires Names(services) <= g.indegree.Keys
    ensures var h := Built(g, services);
      && Int(h.indegree, x) == Int(g.indegree, x) + Degree(services, x)
      && multiset(List(h.reverse, d))[x] == multiset(List(g.reverse, d))[x] + Edges(services, x, d)
      && h.indegree.Keys == g.indegree.Keys
    decreases |services|
  {
    hide WithDeps, Int, List;
    if |services| > 0 {
      var init, s := services[..|services| - 1], services[|services| - 1];
      assert forall i :: 0 <= i < |init| ==> init[i].name in Names(services);
      assert s.name in Names(services);
      BuiltCounts(g, init, x, d);
      WithDepsCounts(Built(g, init), s.name, s.deps, x, d);
    }
  }

  lemma {:induction false} Named(services: seq<Service>, i: nat, d: string)
    requires i < |services| && RepeatsApart(services)
    ensures Degree(services, services[i].name) == |services[i].deps|
    ensures Edges(services, services[i].name, d) == multiset(services[i].deps)[d]
    decreases |services|
  {
    var init, s := services[..|services| - 1], services[|services| - 1];
    if i < |services| - 1 {
      ApartBefore(services);
      Named(init, i, d);
      assert s.name == services[i].name ==> Apart(services, s.name);
      hide RepeatsApart;
    } else {
      forall k | 0 <= k < |init| && init[k].name == s.name ensures init[k].deps == [] {
        assert services[k].name == services[i].name;
        assert Apart(services, services[k].name);
      }
      Unnamed(init, s.name, d);
      hide RepeatsApart;
    }
  }

  lemma {:induction false} Unnamed(services: seq<Service>, x: string, d: string)
    requires forall i :: 0 <= i < |services| && services[i].name == x ==> services[i].deps == []
    ensures Degree(services, x) == 0 && Edges(services, x, d) == 0
    decreases |services|
  {
    if |services| > 0 { Unnamed(services[..|services| - 1], x, d); }
  }

  /** In the graph a service counts its own dependency entries, repeated ones as often as they are
      repeated, and every dependency lists its dependents as often. */
  lemma GraphCounts(services: seq<Service>, i: nat, d: string)
    requires i < |services| && RepeatsApart(services)
    ensures var g, s := GraphOf(services), services[i];
      && g.indegree.Keys == Names(services)
      && Int(g.indegree, s.name) == |s.deps|
      && multiset(List(g.reverse, d))[s.name] == multiset(s.deps)[d]
  {
    hide Built, Degree, Edges;
    BuiltCounts(Graph(Zeros(services), map[]), services, services[i].name, d);
    Named(services, i, d);
  }

  /** Only services' names are listed. */
  lemma OnlyNames(services: seq<Service>, x: string, d: string)
    requires x in List(GraphOf(services).reverse, d)
    ensures x in Names(services)
  {
    hide Built, Degree, Edges;
    BuiltCounts(Graph(Zeros(services), map[]), services, x, d);
    assert multiset(List(GraphOf(services).reverse, d))[x] > 0;
    if x !in Names(services) {
      forall i | 0 <= i < |services| ensures services[i].name != x { assert services[i].name in Names(services); }
      Unnamed(services, x, d);
    }
  }

  // ----- The dependencies by name -----

  lemma {:induction false} ByNameFinds(services: seq<Service>, i: nat)
    requires i < |services| && RepeatsApart(services)
    ensures services[i].name in ByName(services) && ByName(services)[services[i].name] == services[i]
    decreases |services|
  {
    var init, s := services[..|services| - 1], services[|services| - 1];
    ApartBefore(services);
    if i < |init| {
      ByNameFinds(init, i);
    } else {
      ByNameKeys(init);
      if s.name in ByName(init) {
        var k :| 0 <= k < |init| && init[k].name == s.name;
        ByNameFinds(init, k);
        assert services[k].name == services[i].name;
        assert Apart(services, services[k].name);
      }
    }
  }

  lemma {:induction false} ByNameKeys(services: seq<Service>)
    ensures forall x :: x in ByName(services) <==> exists i :: 0 <= i < |services| && services[i].name == x
    decreases |services|
  {
    if |services| > 0 {
      var init, s := services[..|services| - 1], services[|services| - 1];
      ByNameKeys(init);
      forall x ensures x in ByName(services) <==> exists i :: 0 <= i < |services| && services[i].name == x {
        if exists i :: 0 <= i < |init| && init[i].name == x {
          var i :| 0 <= i < |init| && init[i].name == x;
          assert services[i].name == x;
        }
        assert s == services[|services| - 1];
        assert forall i :: 0 <= i < |services| && services[i].name == x ==> i == |init| || init[i].name == x;
      }
    }
  }

  // ----- The loop's invariant -----

  predicate NoDup(s: seq<string>) {
    forall i, j :: 0 <= i < j < |s| ==> s[i] != s[j]
  }

  /** Nothing to do with other names. */
  predicate Free(deps: map<string, seq<string>>, x: string) {
    x in deps && deps[x] == [] && forall y :: y in deps ==> x !in deps[y]
  }

  predicate RepeatsFree(deps: map<string, seq<string>>, s: seq<string>) {
    forall i, j :: 0 <= i < j < |s| && s[i] == s[j] ==> Free(deps, s[i])
  }

  /** Dependency entries not met by the services ordered so far. */
  function Open(deps: seq<string>, done: seq<string>): nat
    decreases |deps|
  {
    if |deps| == 0 then 0 else (if deps[0] in done then 0 else 1) + Open(deps[1..], done)
  }

  /** Every service comes after all it depends on. */
  predicate Early(deps: map<string, seq<string>>, order: seq<string>) {
    forall i, d :: 0 <= i < |order| && order[i] in deps && d in deps[order[i]] ==> d in order[..i]
  }

  /** `children` are still to be released.  A service's count is its open entries and the entries
      to be released; it is in one of the lists exactly when its count is 0. */
  ghost predicate PeelInv(deps: map<string, seq<string>>, p: Peeling, children: multiset<string>) {
    && p.indegree.Keys == deps.Keys
    && (forall x :: x in deps ==> p.indegree[x] == Open(deps[x], p.ordered) + children[x])
    && (forall x :: x in deps ==> (p.indegree[x] == 0 <==> x in p.ordered + p.ready))
    && (forall x :: x in p.ordered + p.ready ==> x in deps)
    && (forall x :: x in children ==> x in deps)
    && RepeatsFree(deps, p.ordered + p.ready)
    && Early(deps, p.ordered)
  }

  ghost predicate ReverseOf(deps: map<string, seq<string>>, reverse: map<string, seq<string>>) {
    forall d, x :: multiset(List(reverse, d))[x] == if x in deps then multiset(deps[x])[d] else 0
  }

  lemma {:induction false} OpenAfter(deps: seq<string>, done: seq<string>, name: string)
    requires name in done ==> name !in deps
    ensures Open(deps, done) == Open(deps, done + [name]) + multiset(deps)[name]
    decreases |deps|
  {
    if |deps| > 0 {
      assert deps == [deps[0]] + deps[1..];
      assert deps[0] in deps;
      OpenAfter(deps[1..], done, name);
    }
  }

  lemma {:induction false} OpenNone(deps: seq<string>, done: seq<string>)
    ensures Open(deps, done) == 0 <==> forall d :: d in deps ==> d in done
    decreases |deps|
  {
    if |deps| > 0 { OpenNone(deps[1..], done); }
  }

  lemma ReleaseInv(deps: map<string, seq<string>>, p: Peeling, children: multiset<string>, child: string)
    requires PeelInv(deps, p, children) && child in children
    ensures PeelInv(deps, Release(p, child), children - multiset{child})
  {
    hide Open, Early, Free;
    assert child in deps && p.indegree[child] > 0;
    var q := Release(p, child);
    if q.indegree[child] == 0 {
      assert q.ordered + q.ready == p.ordered + p.ready + [child];
      assert child !in p.ordered + p.ready;
    }
  }

  lemma {:induction false} ReleaseAllInv(deps: map<string, seq<string>>, p: Peeling, children: seq<string>)
    requires PeelInv(deps, p, multiset(children))
    ensures PeelInv(deps, ReleaseAll(p, children), multiset{})
    decreases |children|
  {
    if |children| > 0 {
      hide PeelInv, Release;
      assert children == [children[0]] + children[1..];
      assert children[0] in multiset(children) && multiset(children[1..]) == multiset(children) - multiset{children[0]};
      ReleaseInv(deps, p, multiset(children), children[0]);
      ReleaseAllInv(deps, Release(p, children[0]), children[1..]);
    } else {
      assert multiset(children) == multiset{};
    }
  }

  lemma PopInv(deps: map<string, seq<string>>, p: Peeling, reverse: map<string, seq<string>>)
    requires PeelInv(deps, p, multiset{}) && ReverseOf(deps, reverse) && |p.ready| > 0
    ensures PeelInv(deps, Peeling(p.indegree, p.ready[1..], p.ordered + [p.ready[0]]), multiset(List(reverse, p.ready[0])))
  {
    hide List;
    var name := p.ready[0];
    var all := p.ordered + p.ready;
    assert all[|p.ordered|] == name && p.ordered + [name] + p.ready[1..] == all;
    assert forall i :: 0 <= i < |p.ordered| && p.ordered[i] == name ==> all[i] == all[|p.ordered|] && Free(deps, all[i]);
    forall x | x in deps
      ensures p.indegree[x] == Open(deps[x], p.ordered + [name]) + multiset(List(reverse, name))[x]
    {
      OpenAfter(deps[x], p.ordered, name);
    }
    OpenNone(deps[name], p.ordered);
    assert name in all;
    EarlyNext(deps, p.ordered, name);
    hide Open, Early;
    forall x | x in multiset(List(reverse, name)) ensures x in deps { }
  }

  lemma EarlyNext(deps: map<string, seq<string>>, order: seq<string>, name: string)
    requires Early(deps, order) && (name in deps ==> forall d :: d in deps[name] ==> d in order)
    ensures Early(deps, order + [name])
  {
    var next := order + [name];
    forall i, d | 0 <= i < |next| && next[i] in deps && d in deps[next[i]] ensures d in next[..i] {
      assert next[..i] == order[..i];
    }
  }

  lemma {:induction false} PeelKeepsInv(deps: map<string, seq<string>>, p: Peeling, reverse: map<string, seq<string>>)
    requires PeelInv(deps, p, multiset{}) && ReverseOf(deps, reverse)
    ensures var q := Peel(p, reverse);
      PeelInv(deps, q, multiset{}) && q.ready == [] && p.ordered + p.ready <= q.ordered
    decreases Work(p)
  {
    hide PeelInv, ReverseOf, Work, Release;
    if |p.ready| > 0 {
      var p1 := Peeling(p.indegree, p.ready[1..], p.ordered + [p.ready[0]]);
      var children := List(reverse, p.ready[0]);
      PopInv(deps, p, reverse);
      ReleaseAllInv(deps, p1, children);
      ReleaseAllAppends(p1, children);
      PeelOneWork(p, reverse);
      PeelKeepsInv(deps, PeelOne(p, reverse), reverse);
      assert p1.ordered + p1.ready == p.ordered + p.ready;
    } else {
      assert p.ordered + p.ready == p.ordered;
    }
  }

  lemma PeelOneWork(p: Peeling, reverse: map<string, seq<string>>)
    requires |p.ready| > 0
    ensures Work(PeelOne(p, reverse)) < Work(p)
  {
    ReleaseAllWork(Peeling(p.indegree, p.ready[1..], p.ordered + [p.ready[0]]), List(reverse, p.ready[0]));
  }

  lemma {:induction false} ReleaseAllAppends(p: Peeling, children: seq<string>)
    ensures var q := ReleaseAll(p, children); q.ordered == p.ordered && p.ready <= q.ready
    decreases |children|
  {
    if |children| > 0 { ReleaseAllAppends(Release(p, children[0]), children[1..]); }
  }

  // ----- Cycles -----

  /** A chain of services, each depending on the next, that comes back to where it began. */
  ghost predicate IsCycle(deps: map<string, seq<string>>, w: seq<string>) {
    |w| >= 2 && w[0] == w[|w| - 1] && Chain(deps, w)
  }

  ghost predicate Chain(deps: map<string, seq<string>>, w: seq<string>) {
    forall i, j :: 0 <= i < |w| && 0 <= j < |w| && j == i + 1 ==> w[i] in deps && w[j] in deps[w[i]]
  }

  /** Along a chain of ordered services the places fall, so it never comes back. */
  lemma {:induction false} ChainFalls(deps: map<string, seq<string>>, order: seq<string>, w: seq<string>, i: nat, n: nat) returns (j: nat)
    requires Early(deps, order) && Chain(deps, w) && n < |w|
    requires i < |order| && order[i] == w[0]
    ensures j < |order| && order[j] == w[n] && if n == 0 then j == i else j < i
    decreases n
  {
    if n == 0 {
      j := i;
    } else {
      var k := ChainFalls(deps, order, w, i, n - 1);
      var x, y := w[n - 1], w[n];
      assert x in deps && y in deps[x];
      assert w[n] in order[..k];
      j :| 0 <= j < k && order[j] == w[n];
    }
  }

  lemma EarlyIsAcyclic(deps: map<string, seq<string>>, order: seq<string>, w: seq<string>)
    requires Early(deps, order) && RepeatsFree(deps, order) && forall x :: x in deps ==> x in order
    ensures !IsCycle(deps, w)
  {
    if IsCycle(deps, w) {
      var first, second := w[0], w[1];
      assert first in deps;
      assert second in deps[first] && !Free(deps, first);
      var i :| 0 <= i < |order| && order[i] == w[0];
      var j := ChainFalls(deps, order, w, i, |w| - 1);
    }
  }

  predicate AllStuck(deps: map<string, seq<string>>, stuck: set<string>) {
    forall y :: y in stuck ==> y in deps && exists d :: d in deps[y] && d in stuck
  }

  /** Among services that each depend on another of them a chain can be followed for ever. */
  lemma {:induction false} LongChain(deps: map<string, seq<string>>, stuck: set<string>, x: string, n: nat) returns (w: seq<string>)
    requires x in stuck && AllStuck(deps, stuck)
    ensures |w| == n + 1 && w[0] == x && Chain(deps, w) && forall i :: 0 <= i < |w| ==> w[i] in stuck
    decreases n
  {
    if n == 0 {
      w := [x];
    } else {
      var d :| d in deps[x] && d in stuck;
      var v := LongChain(deps, stuck, d, n - 1);
      w := [x] + v;
      hide AllStuck;
      forall i, j | 0 <= i < |w| && 0 <= j < |w| && j == i + 1 ensures w[i] in deps && w[j] in deps[w[i]] {
        assert i > 0 ==> w[i] == v[i - 1] && w[j] == v[j - 1];
      }
    }
  }

  lemma {:induction false} Pigeons(w: seq<string>, holes: set<string>)
    requires NoDup(w) && forall i :: 0 <= i < |w| ==> w[i] in holes
    ensures |w| <= |holes|
    decreases |w|
  {
    if |w| > 0 {
      var last := w[|w| - 1];
      Pigeons(w[..|w| - 1], holes - {last});
    }
  }

  lemma StuckHasCycle(deps: map<string, seq<string>>, stuck: set<string>, x: string) returns (w: seq<string>)
    requires x in stuck && AllStuck(deps, stuck)
    ensures IsCycle(deps, w) && forall i :: 0 <= i < |w| ==> w[i] in stuck
  {
    var v := LongChain(deps, stuck, x, |stuck|);
    if NoDup(v) {
      Pigeons(v, stuck);
      assert false;
    }
    var i, j :| 0 <= i < j < |v| && v[i] == v[j];
    hide AllStuck, NoDup;
    w := v[i..j + 1];
    forall a, b | 0 <= a < |w| && 0 <= b < |w| && b == a + 1 ensures w[a] in deps && w[b] in deps[w[a]] {
      assert w[a] == v[i + a] && w[b] == v[i + b];
    }
  }

  // ----- The whole sort -----

  /** Unknown names apart, what each service depends on. */
  function DepsOf(services: seq<Service>): map<string, seq<string>> {
    map x | x in ByName(services) :: ByName(services)[x].deps
  }

  predicate Known(services: seq<Service>) {
    forall i, d :: 0 <= i < |services| && d in services[i].deps ==> exists j :: 0 <= j < |services| && services[j].name == d
  }

  lemma DepsOfFinds(services: seq<Service>)
    requires RepeatsApart(services)
    ensures DepsOf(services).Keys == Names(services)
    ensures forall i :: 0 <= i < |services| ==> services[i].name in DepsOf(services) && DepsOf(services)[services[i].name] == services[i].deps
  {
    forall i | 0 <= i < |services|
      ensures services[i].name in ByName(services) && ByName(services)[services[i].name] == services[i]
    {
      ByNameFinds(services, i);
    }
    ByNameKeys(services);
    hide ByName;
    assert forall x :: x in DepsOf(services).Keys <==> x in Names(services);
  }

  lemma GraphReverses(services: seq<Service>)
    requires RepeatsApart(services)
    ensures ReverseOf(DepsOf(services), GraphOf(services).reverse)
  {
    DepsOfFinds(services);
    var deps, reverse := DepsOf(services), GraphOf(services).reverse;
    hide DepsOf, GraphOf, List;
    forall d, x ensures multiset(List(reverse, d))[x] == if x in deps then multiset(deps[x])[d] else 0 {
      if x in deps {
        assert x in Names(services);
        var i :| 0 <= i < |services| && services[i].name == x;
        GraphCounts(services, i, d);
      } else {
        if x in List(reverse, d) { OnlyNames(services, x, d); }
      }
    }
  }

  /** The services that wait for nobody, in registration order. */
  function Independent(services: seq<Service>): seq<Service>
    decreases |services|
  {
    if |services| == 0 then []
    else
      var s := services[|services| - 1];
      Independent(services[..|services| - 1]) + if s.deps == [] then [s] else []
  }

  function NamesOf(services: seq<Service>): seq<string> {
    seq(|services|, i requires 0 <= i < |services| => services[i].name)
  }

  lemma {:induction false} InitialReadyIs(services: seq<Service>, indegree: map<string, int>)
    requires forall i :: 0 <= i < |services| ==> Int(indegree, services[i].name) == |services[i].deps|
    ensures InitialReady(services, indegree) == NamesOf(Independent(services))
    decreases |services|
  {
    hide Int;
    if |services| > 0 {
      var init, s := services[..|services| - 1], services[|services| - 1];
      InitialReadyIs(init, indegree);
      assert NamesOf(Independent(init) + [s]) == NamesOf(Independent(init)) + [s.name];
    }
  }

  lemma {:induction false} IndependentAre(services: seq<Service>)
    ensures forall s :: s in Independent(services) <==> s in services && s.deps == []
    decreases |services|
  {
    if |services| > 0 {
      var init, s := services[..|services| - 1], services[|services| - 1];
      IndependentAre(init);
      assert services == init + [s];
    }
  }

  /** What the main loop starts with. */
  lemma Initially(services: seq<Service>)
    requires RepeatsApart(services)
    ensures var g := GraphOf(services);
      var p := Peeling(g.indegree, InitialReady(services, g.indegree), []);
      PeelInv(DepsOf(services), p, multiset{}) && p.ready == NamesOf(Independent(services))
  {
    var g := GraphOf(services);
    forall i | 0 <= i < |services| ensures Int(g.indegree, services[i].name) == |services[i].deps| {
      GraphCounts(services, i, "");
    }
    GraphKeys(services);
    DepsOfFinds(services);
    InitialReadyIs(services, g.indegree);
    InitialInv(services, Peeling(g.indegree, InitialReady(services, g.indegree), []));
  }

  /** What the main loop ends with. */
  lemma PeelingResult(services: seq<Service>)
    requires RepeatsApart(services)
    ensures var g := GraphOf(services);
      var p := Peel(Peeling(g.indegree, InitialReady(services, g.indegree), []), g.reverse);
      && PeelInv(DepsOf(services), p, multiset{}) && p.ready == []
      && NamesOf(Independent(services)) <= p.ordered
      && forall x :: multiset(p.ordered)[x] <= multiset(NamesOf(services))[x]
  {
    var g, deps := GraphOf(services), DepsOf(services);
    GraphReverses(services);
    Initially(services);
    var p := Peeling(g.indegree, InitialReady(services, g.indegree), []);
    hide PeelInv, Peel, ReverseOf, InitialReady, GraphOf, DepsOf, NamesOf, Independent;
    PeelKeepsInv(deps, p, g.reverse);
    assert p.ordered + p.ready == p.ready;
    forall x ensures multiset(Peel(p, g.reverse).ordered)[x] <= multiset(NamesOf(services))[x] { OrderedQuota(services, x); }
  }

  lemma GraphKeys(services: seq<Service>)
    ensures GraphOf(services).indegree.Keys == Names(services)
  {
    BuiltCounts(Graph(Zeros(services), map[]), services, "", "");
  }

  lemma {:induction false} OpenAll(deps: seq<string>)
    ensures Open(deps, []) == |deps|
    decreases |deps|
  {
    if |deps| > 0 { OpenAll(deps[1..]); }
  }

  lemma InitialInv(services: seq<Service>, p: Peeling)
    requires RepeatsApart(services) && p.ordered == [] && p.ready == NamesOf(Independent(services))
    requires p.indegree.Keys == Names(services) == DepsOf(services).Keys
    requires forall i :: 0 <= i < |services| ==> Int(p.indegree, services[i].name) == |services[i].deps|
    requires forall i :: 0 <= i < |services| ==> services[i].name in DepsOf(services) && DepsOf(services)[services[i].name] == services[i].deps
    ensures PeelInv(DepsOf(services), p, multiset{})
  {
    var deps, first := DepsOf(services), Independent(services);
    IndependentAre(services);
    IndependentFree(services);
    hide DepsOf, Independent, Open, Names, RepeatsFree, PeelInv;
    forall x | x in deps
      ensures p.indegree[x] == Open(deps[x], p.ordered) && (p.indegree[x] == 0 <==> x in p.ready)
    {
      InitialCount(services, p, x);
    }
    forall x | x in p.ready ensures x in deps {
      var j :| 0 <= j < |p.ready| && p.ready[j] == x;
      assert first[j] in first;
    }
    StartInv(deps, p);
  }

  lemma StartInv(deps: map<string, seq<string>>, p: Peeling)
    requires p.indegree.Keys == deps.Keys && p.ordered == [] && RepeatsFree(deps, p.ready)
    requires forall x :: x in deps ==> p.indegree[x] == Open(deps[x], p.ordered) && (p.indegree[x] == 0 <==> x in p.ready)
    requires forall x :: x in p.ready ==> x in deps
    ensures PeelInv(deps, p, multiset{})
  {
    hide Open, Free;
    assert p.ordered + p.ready == p.ready;
  }

  /** Two independent services of one name are two services of that name. */
  lemma {:induction false} IndependentCount(services: seq<Service>, x: string)
    ensures multiset(NamesOf(Independent(services)))[x] <= multiset(NamesOf(services))[x]
    ensures (forall i :: 0 <= i < |services| && services[i].name == x ==> services[i].deps == []) ==>
              multiset(NamesOf(Independent(services)))[x] == multiset(NamesOf(services))[x]
    decreases |services|
  {
    if |services| > 0 {
      var init, s := services[..|services| - 1], services[|services| - 1];
      hide NamesOf;
      IndependentCount(init, x);
      NamesOfLast(services);
      NamesOfAfter(Independent(init), s);
      assert s.deps != [] ==> Independent(services) == Independent(init);
      assert services[|services| - 1] == s && forall i :: 0 <= i < |init| ==> init[i] == services[i];
    }
  }

  lemma NamesOfAfter(services: seq<Service>, s: Service)
    ensures NamesOf(services + [s]) == NamesOf(services) + [s.name]
  {
  }

  lemma IndependentFree(services: seq<Service>)
    requires RepeatsApart(services) && DepsOf(services).Keys == Names(services)
    requires forall i :: 0 <= i < |services| ==> services[i].name in DepsOf(services) && DepsOf(services)[services[i].name] == services[i].deps
    ensures RepeatsFree(DepsOf(services), NamesOf(Independent(services)))
  {
    hide DepsOf, Independent, NamesOf;
    var names := NamesOf(Independent(services));
    forall i, j | 0 <= i < j < |names| && names[i] == names[j] ensures Free(DepsOf(services), names[i]) {
      CountTwo(names, i, j);
      IndependentCount(services, names[i]);
      RepeatIsFree(services, names[i]);
    }
  }

  /** A name that is registered twice is free. */
  lemma RepeatIsFree(services: seq<Service>, x: string)
    requires RepeatsApart(services) && DepsOf(services).Keys == Names(services) && multiset(NamesOf(services))[x] >= 2
    requires forall i :: 0 <= i < |services| ==> services[i].name in DepsOf(services) && DepsOf(services)[services[i].name] == services[i].deps
    ensures Free(DepsOf(services), x) && Apart(services, x)
  {
    var i, j := FindTwo(NamesOf(services), x);
    assert services[i].name == services[j].name == x;
    assert Apart(services, services[i].name);
    hide DepsOf, RepeatsApart;
    forall y | y in DepsOf(services) ensures x !in DepsOf(services)[y] {
      assert y in Names(services);
      var k :| 0 <= k < |services| && services[k].name == y;
    }
  }

  lemma FindOne(s: seq<string>, x: string) returns (i: nat)
    requires multiset(s)[x] >= 1
    ensures i < |s| && s[i] == x
  {
    assert x in s;
    i :| 0 <= i < |s| && s[i] == x;
  }

  lemma FindTwo(s: seq<string>, x: string) returns (i: nat, j: nat)
    requires multiset(s)[x] >= 2
    ensures i < j < |s| && s[i] == s[j] == x
  {
    var k := FindOne(s, x);
    assert s == s[..k] + [x] + s[k + 1..];
    if multiset(s[..k])[x] >= 1 {
      i := FindOne(s[..k], x);
      j := k;
    } else {
      i := k;
      var l := FindOne(s[k + 1..], x);
      j := k + 1 + l;
    }
  }

  lemma InitialCount(services: seq<Service>, p: Peeling, x: string)
    requires RepeatsApart(services) && x in Names(services) && x in p.indegree && x in DepsOf(services)
    requires forall i :: 0 <= i < |services| ==> Int(p.indegree, services[i].name) == |services[i].deps|
    requires forall i :: 0 <= i < |services| ==> services[i].name in DepsOf(services) && DepsOf(services)[services[i].name] == services[i].deps
    ensures p.indegree[x] == Open(DepsOf(services)[x], [])
    ensures p.indegree[x] == 0 <==> x in NamesOf(Independent(services))
  {
    var i :| 0 <= i < |services| && services[i].name == x;
    OpenAll(services[i].deps);
    IndependentNamed(services, i);
    hide DepsOf, Independent, Open, NamesOf;
  }

  lemma IndependentNamed(services: seq<Service>, i: nat)
    requires RepeatsApart(services) && i < |services|
    ensures services[i].name in NamesOf(Independent(services)) <==> services[i].deps == []
  {
    var first := Independent(services);
    IndependentAre(services);
    hide Independent;
    if services[i].deps == [] {
      assert services[i] in first;
      var j :| 0 <= j < |first| && first[j] == services[i];
      assert NamesOf(first)[j] == services[i].name;
    }
    forall j | 0 <= j < |first| && first[j].name == services[i].name ensures services[i].deps == [] {
      assert first[j] in first;
    }
  }

  // ----- Main results -----

  predicate SameServices(order: seq<Service>, services: seq<Service>) {
    multiset(order) == multiset(services)
  }

  /** Each service comes after every service it depends on. */
  predicate DependenciesFirst(order: seq<Service>) {
    forall i, d :: 0 <= i < |order| && d in order[i].deps ==> exists j :: 0 <= j < i && order[j].name == d
  }

  ghost predicate Cyclic(services: seq<Service>) {
    exists w :: IsCycle(DepsOf(services), w)
  }

  /** An order of all the services, each after its dependencies, the independent ones first and as
      registered; or names among which there is a cycle. */
  ghost predicate Right(services: seq<Service>, r: Result) {
    match r
    case Ordered(order) =>
      !Cyclic(services) && SameServices(order, services) && DependenciesFirst(order) && Independent(services) <= order
    case Cycle(names) => exists w :: IsCycle(DepsOf(services), w) && Within(w, names)
    case Unknown(_, _) => false
  }

  predicate Within(w: seq<string>, names: set<string>) {
    forall i :: 0 <= i < |w| ==> w[i] in names
  }

  /** All names, then, if the loop ordered as many as there are. */
  lemma AllOrdered(services: seq<Service>, p: Peeling)
    requires RepeatsApart(services) && NamesOf(Independent(services)) <= p.ordered
    requires forall x :: multiset(p.ordered)[x] <= multiset(NamesOf(services))[x]
    ensures |p.ordered| == |services| ==> multiset(p.ordered) == multiset(NamesOf(services))
    ensures |p.ordered| != |services| ==> exists x :: x in DepsOf(services) && x !in p.ordered
  {
    hide DepsOf, Independent, RepeatsApart;
    var names := NamesOf(services);
    if |p.ordered| == |names| {
      SameMultiset(p.ordered, names);
    } else if forall x :: x in names ==> x in p.ordered {
      forall x ensures multiset(p.ordered)[x] == multiset(names)[x] { OrderedOften(services, p, x); }
      SameLength(p.ordered, names);
    } else {
      DepsOfFinds(services);
      var x :| x in names && x !in p.ordered;
      var i :| 0 <= i < |names| && names[i] == x;
      assert services[i].name == x;
    }
  }

  lemma SameLength(a: seq<string>, b: seq<string>)
    requires forall x :: multiset(a)[x] == multiset(b)[x]
    ensures |a| == |b|
  {
    assert multiset(a) == multiset(b);
    assert |multiset(a)| == |multiset(b)|;
  }

  lemma OrderedOften(services: seq<Service>, p: Peeling, x: string)
    requires RepeatsApart(services) && NamesOf(Independent(services)) <= p.ordered
    requires multiset(p.ordered)[x] <= multiset(NamesOf(services))[x] && (x in NamesOf(services) ==> x in p.ordered)
    ensures multiset(p.ordered)[x] == multiset(NamesOf(services))[x]
  {
    var names, first := NamesOf(services), NamesOf(Independent(services));
    DepsOfFinds(services);
    hide DepsOf, NamesOf, Independent, RepeatsApart, Free;
    if multiset(names)[x] >= 2 {
      RepeatIsFree(services, x);
      IndependentCount(services, x);
      assert p.ordered == first + p.ordered[|first|..];
      assert multiset(p.ordered) == multiset(first) + multiset(p.ordered[|first|..]);
    } else if multiset(names)[x] == 1 {
      assert x in multiset(names) && x in multiset(p.ordered);
    }
  }

  /** The services of names in another order are the services in another order. */
  lemma {:induction false} FoundSame(a: seq<string>, b: seq<string>, m: map<string, Service>)
    requires multiset(a) == multiset(b)
    ensures multiset(Found(a, m)) == multiset(Found(b, m))
    decreases |a|
  {
    hide Found;
    if |a| > 0 {
      var k := Without(a, b);
      FoundSame(a[1..], b[..k] + b[k + 1..], m);
      FoundParts(b[..k], a[0], b[k + 1..], m);
      FoundParts([], a[0], a[1..], m);
      assert [] + [a[0]] + a[1..] == a && [] + a[1..] == a[1..];
    } else {
      assert |multiset(a)| == |multiset(b)|;
      assert a == b;
    }
  }

  lemma Without(a: seq<string>, b: seq<string>) returns (k: nat)
    requires |a| > 0 && multiset(a) == multiset(b)
    ensures k < |b| && b == b[..k] + [a[0]] + b[k + 1..] && multiset(a[1..]) == multiset(b[..k] + b[k + 1..])
  {
    assert a == [a[0]] + a[1..];
    assert multiset(b)[a[0]] >= 1;
    k := FindOne(b, a[0]);
    assert b == b[..k] + [a[0]] + b[k + 1..];
    assert multiset(b[..k] + b[k + 1..]) == multiset(b) - multiset{a[0]};
  }

  lemma FoundParts(a: seq<string>, x: string, b: seq<string>, m: map<string, Service>)
    ensures multiset(Found(a + [x] + b, m)) == multiset(Found(a + b, m)) + multiset(Found([x], m))
  {
    assert Found(a + [x] + b, m) == Found(a, m) + Found([x], m) + Found(b, m);
    assert Found(a + b, m) == Found(a, m) + Found(b, m);
  }

  /** The services of the ordered names. */
  lemma FoundAre(services: seq<Service>, names: seq<string>)
    requires RepeatsApart(services) && multiset(names) == multiset(NamesOf(services))
    ensures var order := Found(names, ByName(services));
      && |order| == |names| && SameServices(order, services)
      && forall i :: 0 <= i < |order| ==> order[i].name == names[i] && order[i] in services
  {
    var order := Found(names, ByName(services));
    forall i | 0 <= i < |names| ensures order[i].name == names[i] && order[i] in services {
      assert names[i] in multiset(names) && names[i] in multiset(NamesOf(services));
      var k := FindOne(NamesOf(services), names[i]);
      ByNameFinds(services, k);
    }
    FoundSame(names, NamesOf(services), ByName(services));
    FoundNamesOf(services);
  }

  lemma FoundNamesOf(services: seq<Service>)
    requires RepeatsApart(services)
    ensures Found(NamesOf(services), ByName(services)) == services
  {
    forall i | 0 <= i < |services| ensures Found(NamesOf(services), ByName(services))[i] == services[i] {
      ByNameFinds(services, i);
    }
    hide ByName;
  }

  lemma EarlyMeans(services: seq<Service>, names: seq<string>, order: seq<Service>)
    requires RepeatsApart(services) && |order| == |names| && Early(DepsOf(services), names)
    requires forall i :: 0 <= i < |order| ==> order[i].name == names[i] && order[i] in services
    ensures DependenciesFirst(order)
  {
    DepsOfFinds(services);
    hide DepsOf;
    forall i, d | 0 <= i < |order| && d in order[i].deps ensures exists j :: 0 <= j < i && order[j].name == d {
      var k :| 0 <= k < |services| && services[k] == order[i];
      assert d in names[..i];
      var j :| 0 <= j < i && names[j] == d;
      assert order[j].name == d;
    }
  }

  lemma IndependentFirst(services: seq<Service>, names: seq<string>)
    requires RepeatsApart(services) && NamesOf(Independent(services)) <= names
    ensures Independent(services) <= Found(names, ByName(services))
  {
    var first, order := Independent(services), Found(names, ByName(services));
    IndependentAre(services);
    hide Independent;
    forall i | 0 <= i < |first| ensures first[i] == order[i] {
      assert first[i] in first;
      var k :| 0 <= k < |services| && services[k] == first[i];
      ByNameFinds(services, k);
      assert NamesOf(first)[i] == names[i];
    }
  }

  lemma OrderedResult(services: seq<Service>, p: Peeling)
    requires RepeatsApart(services) && PeelInv(DepsOf(services), p, multiset{}) && p.ready == []
    requires |p.ordered| == |services| && NamesOf(Independent(services)) <= p.ordered
    requires forall x :: multiset(p.ordered)[x] <= multiset(NamesOf(services))[x]
    ensures var order := Found(p.ordered, ByName(services));
      !Cyclic(services) && SameServices(order, services) && DependenciesFirst(order) && Independent(services) <= order
  {
    hide DepsOf, Found, ByName, Early, Independent, NamesOf, RepeatsFree, RepeatsApart, IsCycle, DependenciesFirst, PeelInv;
    AllOrdered(services, p);
    PeeledInOrder(services, p);
    FoundAre(services, p.ordered);
    EarlyMeans(services, p.ordered, Found(p.ordered, ByName(services)));
    IndependentFirst(services, p.ordered);
    forall w ensures !IsCycle(DepsOf(services), w) { OrderedAcyclic(services, p.ordered, w); }
  }

  lemma PeeledInOrder(services: seq<Service>, p: Peeling)
    requires PeelInv(DepsOf(services), p, multiset{}) && p.ready == []
    ensures RepeatsFree(DepsOf(services), p.ordered) && Early(DepsOf(services), p.ordered)
  {
    assert p.ordered + p.ready == p.ordered;
  }

  lemma OrderedAcyclic(services: seq<Service>, names: seq<string>, w: seq<string>)
    requires RepeatsApart(services) && multiset(names) == multiset(NamesOf(services))
    requires RepeatsFree(DepsOf(services), names) && Early(DepsOf(services), names)
    ensures !IsCycle(DepsOf(services), w)
  {
    DepsOfFinds(services);
    hide DepsOf, RepeatsFree, Early, RepeatsApart, NamesOf;
    forall x | x in DepsOf(services) ensures x in names { AllThere(services, names, x); }
    EarlyIsAcyclic(DepsOf(services), names, w);
  }

  lemma AllThere(services: seq<Service>, names: seq<string>, x: string)
    requires multiset(names) == multiset(NamesOf(services)) && x in Names(services)
    ensures x in names
  {
    var i :| 0 <= i < |services| && services[i].name == x;
    assert NamesOf(services)[i] in multiset(NamesOf(services));
    assert x in multiset(names);
  }

  lemma CycleResult(services: seq<Service>, p: Peeling) returns (w: seq<string>)
    requires RepeatsApart(services) && Known(services) && PeelInv(DepsOf(services), p, multiset{}) && p.ready == []
    requires |p.ordered| != |services| && NamesOf(Independent(services)) <= p.ordered
    requires forall x :: multiset(p.ordered)[x] <= multiset(NamesOf(services))[x]
    ensures IsCycle(DepsOf(services), w) && Within(w, Stuck(p.indegree))
  {
    hide PeelInv, DepsOf, Stuck, Known, IsCycle, RepeatsApart, NamesOf, Independent;
    AllOrdered(services, p);
    var x :| x in DepsOf(services) && x !in p.ordered;
    UnorderedIsStuck(services, p, x);
    forall y | y in Stuck(p.indegree)
      ensures y in DepsOf(services) && exists d :: d in DepsOf(services)[y] && d in Stuck(p.indegree)
    {
      StuckOn(services, p, y);
    }
    w := StuckHasCycle(DepsOf(services), Stuck(p.indegree), x);
  }

  lemma UnorderedIsStuck(services: seq<Service>, p: Peeling, x: string)
    requires PeelInv(DepsOf(services), p, multiset{}) && p.ready == [] && x in DepsOf(services) && x !in p.ordered
    ensures x in Stuck(p.indegree)
  {
    hide DepsOf, Open;
    assert p.ordered + p.ready == p.ordered;
    assert p.indegree[x] == Open(DepsOf(services)[x], p.ordered);
  }

  /** A service left over waits for another that is left over. */
  lemma StuckOn(services: seq<Service>, p: Peeling, y: string)
    requires RepeatsApart(services) && Known(services) && PeelInv(DepsOf(services), p, multiset{}) && p.ready == []
    requires y in Stuck(p.indegree)
    ensures y in DepsOf(services) && exists d :: d in DepsOf(services)[y] && d in Stuck(p.indegree)
  {
    var deps := DepsOf(services);
    hide DepsOf, Open, Known;
    assert p.ordered + p.ready == p.ordered;
    OpenNone(deps[y], p.ordered);
    var d :| d in deps[y] && d !in p.ordered;
    DepKnown(services, y, d);
    assert p.indegree[d] == Open(deps[d], p.ordered);
    assert d in Stuck(p.indegree);
  }

  lemma DepKnown(services: seq<Service>, y: string, d: string)
    requires RepeatsApart(services) && Known(services) && y in DepsOf(services) && d in DepsOf(services)[y]
    ensures d in DepsOf(services)
  {
    DepsOfFinds(services);
    hide DepsOf;
    assert y in Names(services);
    var i :| 0 <= i < |services| && services[i].name == y;
    var j :| 0 <= j < |services| && services[j].name == d;
  }

  /** Kahn's loop, on names repeated only apart from the others, with known dependencies. */
  lemma KahnSorts(services: seq<Service>)
    requires RepeatsApart(services) && Known(services)
    ensures Right(services, Kahn(services))
  {
    var g := GraphOf(services);
    var p := Peel(Peeling(g.indegree, InitialReady(services, g.indegree), []), g.reverse);
    PeelingResult(services);
    hide GraphOf, Peel, InitialReady;
    if |p.ordered| == |services| {
      OrderedResult(services, p);
    } else {
      var w := CycleResult(services, p);
    }
  }

  lemma {:induction false} UnknownDep(deps: seq<string>, known: map<string, Service>)
    ensures var u := FirstUnknownDep(deps, known);
      if u.Some? then u.value in deps && u.value !in known else forall d :: d in deps ==> d in known
    decreases |deps|
  {
    if |deps| > 0 { UnknownDep(deps[1..], known); }
  }

  lemma {:induction false} UnknownNames(services: seq<Service>, known: map<string, Service>)
    ensures match FirstUnknown(services, known)
      case Some((name, dep)) => dep !in known && exists i :: 0 <= i < |services| && services[i].name == name && dep in services[i].deps
      case None => forall i, d :: 0 <= i < |services| && d in services[i].deps ==> d in known
    decreases |services|
  {
    if |services| > 0 {
      UnknownDep(services[0].deps, known);
      UnknownNames(services[1..], known);
      hide FirstUnknownDep;
      assert forall i :: 0 < i < |services| ==> services[i] == services[1..][i - 1];
      match FirstUnknown(services, known) {
        case Some((name, dep)) =>
          if FirstUnknownDep(services[0].deps, known).None? {
            var i :| 0 <= i < |services[1..]| && services[1..][i].name == name && dep in services[1..][i].deps;
            assert services[i + 1].name == name;
          } else { assert services[0].name == name; }
        case None =>
      }
    }
  }

  /** An unknown dependency is reported exactly when there is one, and it is one. */
  lemma ReportsUnknown(services: seq<Service>)
    ensures Sort(services).Unknown? <==> !Known(services)
    ensures Sort(services).Unknown? ==>
              var r := Sort(services);
              && (exists i :: 0 <= i < |services| && services[i].name == r.name && r.dep in services[i].deps)
              && (forall i :: 0 <= i < |services| ==> services[i].name != r.dep)
  {
    UnknownNames(services, ByName(services));
    ByNameKeys(services);
    KahnNotUnknown(services);
    hide ByName, FirstUnknown, Kahn;
    match FirstUnknown(services, ByName(services)) {
      case Some((name, dep)) =>
        var i :| 0 <= i < |services| && services[i].name == name && dep in services[i].deps;
        assert forall j :: 0 <= j < |services| ==> services[j].name != dep;
      case None =>
        forall i, d | 0 <= i < |services| && d in services[i].deps
          ensures exists j :: 0 <= j < |services| && services[j].name == d
        {
          assert d in ByName(services);
        }
    }
  }

  lemma KahnNotUnknown(services: seq<Service>)
    ensures !Kahn(services).Unknown?
  {
    hide Peel, GraphOf;
  }

  /** With known dependencies, and names repeated only apart from all others, the sort succeeds exactly when no service depends
      on itself through others; then it gives every service as often as it was listed, each after all it depends on,
      those without dependencies first and in registration order.  When it fails, the services it
      names contain a cycle. */
  lemma SortIsRight(services: seq<Service>)
    requires RepeatsApart(services) && Known(services)
    ensures Sort(services).Ordered? <==> !Cyclic(services)
    ensures Right(services, Sort(services))
  {
    KahnSorts(services);
    ReportsUnknown(services);
    hide Kahn;
    if NoDeps(services) { ShortcutIsKahn(services); }
  }

  lemma {:induction false} AllIndependent(services: seq<Service>)
    requires NoDeps(services)
    ensures Independent(services) == services
    decreases |services|
  {
    if |services| > 0 {
      AllIndependent(services[..|services| - 1]);
      assert services == services[..|services| - 1] + [services[|services| - 1]];
    }
  }

  /** The shortcut for services without dependencies gives what the main loop would give. */
  lemma ShortcutIsKahn(services: seq<Service>)
    requires NoDeps(services)
    ensures Kahn(services) == Ordered(services)
  {
    KahnSorts(services);
    AllIndependent(services);
    DepsOfFinds(services);
    hide Kahn, DepsOf, Independent;
    forall w ensures !IsCycle(DepsOf(services), w) { NoStep(services, w); }
    if Kahn(services).Ordered? {
      assert |multiset(Kahn(services).order)| == |multiset(services)|;
      assert services <= Kahn(services).order;
    }
  }

  lemma NoStep(services: seq<Service>, w: seq<string>)
    requires NoDeps(services)
    ensures !IsCycle(DepsOf(services), w)
  {
    DepsOfFinds(services);
    hide DepsOf;
    if |w| >= 2 {
      var first, second := w[0], w[1];
      assert first in DepsOf(services) ==> first in Names(services);
    }
  }

  // ----- Repeated names -----

  /** How often a name is given out at most: with no dependencies as often as it is registered, and
      otherwise once, when its count has come down to nothing. */
  ghost function Quota(services: seq<Service>, x: string, indegree: int): nat {
    if Degree(services, x) == 0 then multiset(NamesOf(services))[x] else if indegree <= 0 then 1 else 0
  }

  ghost predicate WithinQuota(services: seq<Service>, p: Peeling) {
    forall x :: Int(p.indegree, x) <= Degree(services, x)
             && multiset(p.ordered + p.ready)[x] <= Quota(services, x, Int(p.indegree, x))
  }

  lemma NamesOfLast(services: seq<Service>)
    requires |services| > 0
    ensures NamesOf(services) == NamesOf(services[..|services| - 1]) + [services[|services| - 1].name]
  {
  }

  lemma {:induction false} InitialCounts(services: seq<Service>, indegree: map<string, int>, x: string)
    ensures multiset(InitialReady(services, indegree))[x] == if Int(indegree, x) == 0 then multiset(NamesOf(services))[x] else 0
    decreases |services|
  {
    if |services| > 0 {
      InitialCounts(services[..|services| - 1], indegree, x);
      NamesOfLast(services);
    }
    hide NamesOf, Int;
  }

  lemma ReleaseQuota(services: seq<Service>, p: Peeling, child: string)
    requires WithinQuota(services, p)
    ensures WithinQuota(services, Release(p, child))
  {
    hide Degree, NamesOf;
    var q := Release(p, child);
    assert p.ordered + (p.ready + [child]) == p.ordered + p.ready + [child];
    forall x ensures Int(q.indegree, x) <= Degree(services, x)
                  && multiset(q.ordered + q.ready)[x] <= Quota(services, x, Int(q.indegree, x))
    {
      assert Int(p.indegree, x) <= Degree(services, x) && multiset(p.ordered + p.ready)[x] <= Quota(services, x, Int(p.indegree, x));
    }
  }

  lemma {:induction false} ReleaseAllQuota(services: seq<Service>, p: Peeling, children: seq<string>)
    requires WithinQuota(services, p)
    ensures WithinQuota(services, ReleaseAll(p, children))
    decreases |children|
  {
    hide WithinQuota, Release;
    if |children| > 0 {
      ReleaseQuota(services, p, children[0]);
      ReleaseAllQuota(services, Release(p, children[0]), children[1..]);
    }
  }

  lemma PopQuota(services: seq<Service>, p: Peeling)
    requires WithinQuota(services, p) && |p.ready| > 0
    ensures WithinQuota(services, Peeling(p.indegree, p.ready[1..], p.ordered + [p.ready[0]]))
  {
    assert p.ordered + [p.ready[0]] + p.ready[1..] == p.ordered + p.ready;
    hide Degree, Quota, Int;
  }

  lemma {:induction false} PeelQuota(services: seq<Service>, p: Peeling, reverse: map<string, seq<string>>)
    requires WithinQuota(services, p)
    ensures WithinQuota(services, Peel(p, reverse)) && Peel(p, reverse).ready == []
    decreases Work(p)
  {
    hide WithinQuota, Work, ReleaseAll;
    if |p.ready| > 0 {
      PopQuota(services, p);
      ReleaseAllQuota(services, Peeling(p.indegree, p.ready[1..], p.ordered + [p.ready[0]]), List(reverse, p.ready[0]));
      PeelOneWork(p, reverse);
      PeelQuota(services, PeelOne(p, reverse), reverse);
    }
  }

  lemma InitialQuota(services: seq<Service>, p: Peeling)
    requires p == Peeling(GraphOf(services).indegree, InitialReady(services, GraphOf(services).indegree), [])
    ensures WithinQuota(services, p)
  {
    hide Built, InitialReady, Edges, Degree, NamesOf;
    assert [] + p.ready == p.ready;
    forall y ensures Int(p.indegree, y) <= Degree(services, y)
                  && multiset(p.ordered + p.ready)[y] <= Quota(services, y, Int(p.indegree, y))
    {
      BuiltCounts(Graph(Zeros(services), map[]), services, y, "");
      InitialCounts(services, p.indegree, y);
    }
  }

  /** Given out in all: no name more often than it is registered, and a dependent one at most once. */
  lemma OrderedQuota(services: seq<Service>, x: string)
    ensures var g := GraphOf(services);
      var n := multiset(Peel(Peeling(g.indegree, InitialReady(services, g.indegree), []), g.reverse).ordered)[x];
      n <= multiset(NamesOf(services))[x] && (Degree(services, x) > 0 ==> n <= 1)
  {
    hide GraphOf, Peel, InitialReady, Degree, Int;
    var g := GraphOf(services);
    var p := Peeling(g.indegree, InitialReady(services, g.indegree), []);
    InitialQuota(services, p);
    PeelQuota(services, p, g.reverse);
    var q := Peel(p, g.reverse);
    assert q.ordered + q.ready == q.ordered;
    assert multiset(q.ordered)[x] <= Quota(services, x, Int(q.indegree, x));
    if x !in NamesOf(services) {
      forall i | 0 <= i < |services| ensures services[i].name != x { assert NamesOf(services)[i] == services[i].name; }
      Unnamed(services, x, "");
    }
  }

  lemma {:induction false} DegreeAtLeast(services: seq<Service>, i: nat)
    requires i < |services|
    ensures Degree(services, services[i].name) >= |services[i].deps|
    decreases |services|
  {
    if i < |services| - 1 { DegreeAtLeast(services[..|services| - 1], i); }
  }

  lemma SameMultiset(a: seq<string>, b: seq<string>)
    requires |a| == |b| && forall x :: multiset(a)[x] <= multiset(b)[x]
    ensures multiset(a) == multiset(b)
  {
    var rest := multiset(b) - multiset(a);
    assert multiset(b) == multiset(a) + rest;
    assert |multiset(b)| == |multiset(a)| + |rest|;
    assert rest == multiset{};
  }

  lemma CountTwo(s: seq<string>, i: nat, j: nat)
    requires i < j < |s| && s[i] == s[j]
    ensures multiset(s)[s[i]] >= 2
  {
    assert s == s[..j] + s[j..];
    assert s[..j][i] == s[i] && s[j..][0] == s[j];
    assert s[i] in multiset(s[..j]) && s[i] in multiset(s[j..]);
  }

  /** On any list, repeated names or not: a result gives every name as often as it was registered, and
      no name with a dependency was registered twice.  So a second service of a name that depends on
      anything is always reported as a cycle, whether there is one or not. */
  lemma SortedRepeatsAreFree(services: seq<Service>)
    requires Sort(services).Ordered?
    ensures multiset(NamesOf(Sort(services).order)) == multiset(NamesOf(services))
    ensures forall i, j :: 0 <= i < j < |services| && services[i].name == services[j].name ==>
              services[i].deps == [] && services[j].deps == []
  {
    hide GraphOf, Peel, InitialReady;
    if !NoDeps(services) {
      var g := GraphOf(services);
      var p := Peel(Peeling(g.indegree, InitialReady(services, g.indegree), []), g.reverse);
      forall x ensures multiset(p.ordered)[x] <= multiset(NamesOf(services))[x] { OrderedQuota(services, x); }
      SameMultiset(p.ordered, NamesOf(services));
      FoundNames(services, p.ordered);
      forall i, j | 0 <= i < j < |services| && services[i].name == services[j].name
        ensures services[i].deps == [] && services[j].deps == []
      {
        var x := services[i].name;
        CountTwo(NamesOf(services), i, j);
        OrderedQuota(services, x);
        DegreeAtLeast(services, i);
        DegreeAtLeast(services, j);
      }
    }
  }

  lemma FoundNames(services: seq<Service>, names: seq<string>)
    ensures NamesOf(Found(names, ByName(services))) == names
  {
    forall x | x in ByName(services) ensures ByName(services)[x].name == x { ByNameNamed(services, x); }
    hide ByName;
  }

  lemma {:induction false} ByNameNamed(services: seq<Service>, x: string)
    requires x in ByName(services)
    ensures ByName(services)[x].name == x
    decreases |services|
  {
    var init, s := services[..|services| - 1], services[|services| - 1];
    if x in ByName(init) { ByNameNamed(init, x); }
  }

  /** Two services of one name, and two that depend on each other. */
  const TWICE := [Service("X", []), Service("X", []), Service("Y", ["X", "Z"]), Service("Z", ["Y"])]

  lemma TwiceGraph()
    ensures var g := GraphOf(TWICE);
      && g.indegree == map["X" := 0, "Y" := 2, "Z" := 1]
      && g.reverse == map["X" := ["Y"], "Z" := ["Y"], "Y" := ["Z"]]
    ensures InitialReady(TWICE, GraphOf(TWICE).indegree) == ["X", "X"]
  {
    var g := Graph(Zeros(TWICE), map[]);
    var none, yz := TWICE[..2], TWICE[..3];
    assert Built(g, TWICE[..0]) == g && TWICE[..1][..0] == [];
    assert TWICE[..2][..1] == TWICE[..1] && TWICE[..3][..2] == TWICE[..2] && TWICE[..4] == TWICE;
    assert Built(g, TWICE[..1]) == g && Built(g, TWICE[..2]) == g;
    assert Names(TWICE) == {"X", "Y", "Z"} by {
      assert TWICE[0].name in Names(TWICE) && TWICE[2].name in Names(TWICE) && TWICE[3].name in Names(TWICE);
    }
    assert ["X", "Z"][..1] == ["X"] && ["X"][..0] == [] && ["Y"][..0] == [];
    assert g.indegree == map["X" := 0, "Y" := 0, "Z" := 0];
    var y1 := Graph(map["X" := 0, "Y" := 1, "Z" := 0], map["X" := ["Y"]]);
    var y2 := Graph(map["X" := 0, "Y" := 2, "Z" := 0], map["X" := ["Y"], "Z" := ["Y"]]);
    var z := Graph(map["X" := 0, "Y" := 2, "Z" := 1], map["X" := ["Y"], "Z" := ["Y"], "Y" := ["Z"]]);
    assert [] + ["Y"] == ["Y"] && [] + ["Z"] == ["Z"];
    assert WithDep(g, "Y", "X").reverse == y1.reverse;
    assert WithDep(g, "Y", "X").indegree == y1.indegree;
    assert WithDep(y2, "Z", "Y").reverse == z.reverse;
    assert WithDep(y2, "Z", "Y").indegree == z.indegree;
    assert WithDep(g, "Y", "X") == y1;
    assert WithDep(y1, "Y", "Z") == y2;
    assert WithDep(y2, "Z", "Y") == z;
    hide WithDep, Names;
    assert WithDeps(g, "Y", ["X"]) == y1;
    assert Built(g, TWICE[..3]) == y2;
    assert Built(g, TWICE[..4]) == z;
    hide Built;
    var d := GraphOf(TWICE).indegree;
    assert InitialReady(TWICE[..1], d) == ["X"];
    assert InitialReady(TWICE[..2], d) == ["X", "X"];
    assert InitialReady(TWICE[..3], d) == ["X", "X"];
  }

  lemma TwicePeel(reverse: map<string, seq<string>>)
    requires reverse == map["X" := ["Y"], "Z" := ["Y"], "Y" := ["Z"]]
    ensures Peel(Peeling(map["X" := 0, "Y" := 2, "Z" := 1], ["X", "X"], []), reverse) ==
            Peeling(map["X" := 0, "Y" := -1, "Z" := 0], [], ["X", "X", "Y", "Z"])
  {
    hide Peel;
    var p1 := Peeling(map["X" := 0, "Y" := 1, "Z" := 1], ["X"], ["X"]);
    var p2 := Peeling(map["X" := 0, "Y" := 0, "Z" := 1], ["Y"], ["X", "X"]);
    PeelStep(Peeling(map["X" := 0, "Y" := 2, "Z" := 1], ["X", "X"], []), reverse, "Y", p1);
    PeelStep(p1, reverse, "Y", p2);
    TwicePeelRest(reverse);
  }

  lemma TwicePeelRest(reverse: map<string, seq<string>>)
    requires reverse == map["X" := ["Y"], "Z" := ["Y"], "Y" := ["Z"]]
    ensures Peel(Peeling(map["X" := 0, "Y" := 0, "Z" := 1], ["Y"], ["X", "X"]), reverse) ==
            Peeling(map["X" := 0, "Y" := -1, "Z" := 0], [], ["X", "X", "Y", "Z"])
  {
    hide Peel;
    var p3 := Peeling(map["X" := 0, "Y" := 0, "Z" := 0], ["Z"], ["X", "X", "Y"]);
    var p4 := Peeling(map["X" := 0, "Y" := -1, "Z" := 0], [], ["X", "X", "Y", "Z"]);
    PeelStep(Peeling(map["X" := 0, "Y" := 0, "Z" := 1], ["Y"], ["X", "X"]), reverse, "Z", p3);
    PeelStep(p3, reverse, "Y", p4);
    PeelEnd(p4, reverse);
  }

  /** The code logs a repeated name and goes on: a service listed twice is counted off twice, and
      here hides that Y and Z wait for each other. */
  lemma RepeatedNameHidesCycle()
    ensures Known(TWICE) && Cyclic(TWICE) && Sort(TWICE).Ordered?
  {
    hide GraphOf, InitialReady, Peel, Cyclic, Known, Found, ByName, FirstUnknown;
    TwiceGraph();
    TwiceCycle();
    TwicePeel(GraphOf(TWICE).reverse);
    assert TWICE[2].deps != [];
    ReportsUnknown(TWICE);
  }

  /** One round of the loop for a service with one dependent. */
  lemma PeelStep(p: Peeling, reverse: map<string, seq<string>>, child: string, q: Peeling)
    requires |p.ready| > 0 && List(reverse, p.ready[0]) == [child]
    requires q == Release(Peeling(p.indegree, p.ready[1..], p.ordered + [p.ready[0]]), child)
    ensures Peel(p, reverse) == Peel(q, reverse)
  {
    assert [child][1..] == [];
    assert ReleaseAll(q, []) == q && PeelOne(p, reverse) == q;
    PeelOneWork(p, reverse);
  }

  lemma PeelEnd(p: Peeling, reverse: map<string, seq<string>>)
    requires p.ready == []
    ensures Peel(p, reverse) == p
  {
  }

  lemma TwiceNames()
    ensures var m := ByName(TWICE); m.Keys == {"X", "Y", "Z"} && m["Y"] == TWICE[2] && m["Z"] == TWICE[3]
  {
    assert ByName(TWICE[..0]) == map[] && TWICE[..1][..0] == TWICE[..0];
    assert TWICE[..2][..1] == TWICE[..1] && TWICE[..3][..2] == TWICE[..2] && TWICE[..4][..3] == TWICE[..3] && TWICE[..4] == TWICE;
    assert ByName(TWICE[..1]) == map["X" := TWICE[0]];
    assert ByName(TWICE[..2]) == map["X" := TWICE[0]];
    assert ByName(TWICE[..3]) == map["X" := TWICE[0], "Y" := TWICE[2]];
  }

  lemma TwiceCycle()
    ensures Known(TWICE) && Cyclic(TWICE)
  {
    hide ByName;
    TwiceNames();
    assert TWICE[0].name == "X" && TWICE[2].name == "Y" && TWICE[3].name == "Z";
    assert IsCycle(DepsOf(TWICE), ["Y", "Z", "Y"]);
  }

  /** The same with an acyclic list: Y is released by the two services X, before Z. */
  const EAGER := [Service("X", []), Service("X", []), Service("W", []), Service("Y", ["X", "Z"]), Service("Z", ["W"])]

  lemma EagerPrefixes()
    ensures EAGER[..1][..0] == [] && EAGER[..2][..1] == EAGER[..1] && EAGER[..3][..2] == EAGER[..2]
    ensures EAGER[..4][..3] == EAGER[..3] && EAGER[..5][..4] == EAGER[..4] && EAGER[..5] == EAGER
  {
  }

  lemma EagerNames()
    ensures var m := ByName(EAGER);
      m.Keys == Names(EAGER) == {"X", "W", "Y", "Z"}
      && m["X"] == EAGER[0] && m["W"] == EAGER[2] && m["Y"] == EAGER[3] && m["Z"] == EAGER[4]
  {
    EagerPrefixes();
    assert ByName(EAGER[..1]) == map["X" := EAGER[0]];
    assert ByName(EAGER[..2]) == map["X" := EAGER[0]];
    assert ByName(EAGER[..3]) == map["X" := EAGER[0], "W" := EAGER[2]];
    assert ByName(EAGER[..4]) == map["X" := EAGER[0], "W" := EAGER[2], "Y" := EAGER[3]];
    hide ByName;
    assert EAGER[0].name in Names(EAGER) && EAGER[2].name in Names(EAGER) && EAGER[3].name in Names(EAGER) && EAGER[4].name in Names(EAGER);
  }

  lemma EagerGraph()
    ensures var g := GraphOf(EAGER);
      && g.indegree == map["X" := 0, "W" := 0, "Y" := 2, "Z" := 1]
      && g.reverse == map["X" := ["Y"], "Z" := ["Y"], "W" := ["Z"]]
  {
    EagerNames();
    EagerPrefixes();
    hide ByName, Names;
    var g := Graph(Zeros(EAGER), map[]);
    var y1 := Graph(map["X" := 0, "W" := 0, "Y" := 1, "Z" := 0], map["X" := ["Y"]]);
    var y2 := Graph(map["X" := 0, "W" := 0, "Y" := 2, "Z" := 0], map["X" := ["Y"], "Z" := ["Y"]]);
    var z := Graph(map["X" := 0, "W" := 0, "Y" := 2, "Z" := 1], map["X" := ["Y"], "Z" := ["Y"], "W" := ["Z"]]);
    EagerEdges(g, y1, y2, z);
    hide WithDep;
    assert ["X", "Z"][..1] == ["X"] && ["X"][..0] == [] && ["W"][..0] == [];
    assert Built(g, EAGER[..1]) == g && Built(g, EAGER[..2]) == g;
    assert EAGER[..3][2] == Service("W", []) && Built(g, EAGER[..3]) == g;
    assert WithDeps(g, "Y", ["X"]) == y1;
    assert Built(g, EAGER[..4]) == y2;
    assert Built(g, EAGER[..5]) == z;
  }

  lemma EagerEdges(g: Graph, y1: Graph, y2: Graph, z: Graph)
    requires g == Graph(map["X" := 0, "W" := 0, "Y" := 0, "Z" := 0], map[])
    requires y1 == Graph(map["X" := 0, "W" := 0, "Y" := 1, "Z" := 0], map["X" := ["Y"]])
    requires y2 == Graph(map["X" := 0, "W" := 0, "Y" := 2, "Z" := 0], map["X" := ["Y"], "Z" := ["Y"]])
    requires z == Graph(map["X" := 0, "W" := 0, "Y" := 2, "Z" := 1], map["X" := ["Y"], "Z" := ["Y"], "W" := ["Z"]])
    ensures WithDep(g, "Y", "X") == y1 && WithDep(y1, "Y", "Z") == y2 && WithDep(y2, "Z", "W") == z
  {
    assert [] + ["Y"] == ["Y"] && [] + ["Z"] == ["Z"];
  }

  lemma EagerReady(indegree: map<string, int>)
    requires indegree == map["X" := 0, "W" := 0, "Y" := 2, "Z" := 1]
    ensures InitialReady(EAGER, indegree) == ["X", "X", "W"]
  {
    EagerPrefixes();
    assert InitialReady(EAGER[..1], indegree) == ["X"];
    assert InitialReady(EAGER[..2], indegree) == ["X", "X"];
    assert InitialReady(EAGER[..3], indegree) == ["X", "X", "W"];
    assert InitialReady(EAGER[..4], indegree) == ["X", "X", "W"];
  }

  lemma EagerPeel(reverse: map<string, seq<string>>)
    requires reverse == map["X" := ["Y"], "Z" := ["Y"], "W" := ["Z"]]
    ensures Peel(Peeling(map["X" := 0, "W" := 0, "Y" := 2, "Z" := 1], ["X", "X", "W"], []), reverse) ==
            Peeling(map["X" := 0, "W" := 0, "Y" := -1, "Z" := 0], [], ["X", "X", "W", "Y", "Z"])
  {
    hide Peel;
    var p1 := Peeling(map["X" := 0, "W" := 0, "Y" := 1, "Z" := 1], ["X", "W"], ["X"]);
    var p2 := Peeling(map["X" := 0, "W" := 0, "Y" := 0, "Z" := 1], ["W", "Y"], ["X", "X"]);
    PeelStep(Peeling(map["X" := 0, "W" := 0, "Y" := 2, "Z" := 1], ["X", "X", "W"], []), reverse, "Y", p1);
    PeelStep(p1, reverse, "Y", p2);
    EagerPeelRest(reverse);
  }

  lemma EagerPeelRest(reverse: map<string, seq<string>>)
    requires reverse == map["X" := ["Y"], "Z" := ["Y"], "W" := ["Z"]]
    ensures Peel(Peeling(map["X" := 0, "W" := 0, "Y" := 0, "Z" := 1], ["W", "Y"], ["X", "X"]), reverse) ==
            Peeling(map["X" := 0, "W" := 0, "Y" := -1, "Z" := 0], [], ["X", "X", "W", "Y", "Z"])
  {
    hide Peel;
    var p3 := Peeling(map["X" := 0, "W" := 0, "Y" := 0, "Z" := 0], ["Y", "Z"], ["X", "X", "W"]);
    var p4 := Peeling(map["X" := 0, "W" := 0, "Y" := 0, "Z" := 0], ["Z"], ["X", "X", "W", "Y"]);
    var p5 := Peeling(map["X" := 0, "W" := 0, "Y" := -1, "Z" := 0], [], ["X", "X", "W", "Y", "Z"]);
    PeelStep(Peeling(map["X" := 0, "W" := 0, "Y" := 0, "Z" := 1], ["W", "Y"], ["X", "X"]), reverse, "Z", p3);
    assert p3.ready[1..] == p4.ready && p3.ordered + ["Y"] == p4.ordered;
    PeelNone(p3, reverse);
    PeelStep(p4, reverse, "Y", p5);
    PeelEnd(p5, reverse);
  }

  /** One round for a service without dependents. */
  lemma PeelNone(p: Peeling, reverse: map<string, seq<string>>)
    requires |p.ready| > 0 && List(reverse, p.ready[0]) == []
    ensures Peel(p, reverse) == Peel(Peeling(p.indegree, p.ready[1..], p.ordered + [p.ready[0]]), reverse)
  {
    PeelOneWork(p, reverse);
  }

  lemma EagerKnown()
    ensures Known(EAGER)
  {
    forall i, d | 0 <= i < |EAGER| && d in EAGER[i].deps ensures exists j :: 0 <= j < |EAGER| && EAGER[j].name == d {
      assert d == "X" || d == "Z" || d == "W";
      assert EAGER[0].name == "X" && EAGER[2].name == "W" && EAGER[4].name == "Z";
    }
  }

  lemma EagerAcyclic()
    ensures Known(EAGER) && !Cyclic(EAGER)
  {
    hide ByName;
    EagerNames();
    var order := ["X", "W", "Z", "Y"];
    EagerKnown();
    assert order[0] == "X" && order[1] == "W" && order[2] == "Z" && order[3] == "Y";
    assert order[..2] == ["X", "W"] && order[..3] == ["X", "W", "Z"];
    forall w ensures !IsCycle(DepsOf(EAGER), w) { EarlyIsAcyclic(DepsOf(EAGER), order, w); }
  }

  /** A repeated name can also bring a service before one that it depends on, with no cycle anywhere. */
  lemma RepeatedNameBreaksOrder()
    ensures Known(EAGER) && !Cyclic(EAGER) && Sort(EAGER).Ordered? && !DependenciesFirst(Sort(EAGER).order)
  {
    hide GraphOf, InitialReady, Peel, Cyclic, Known, ByName, FirstUnknown;
    EagerGraph();
    EagerReady(GraphOf(EAGER).indegree);
    EagerPeel(GraphOf(EAGER).reverse);
    EagerAcyclic();
    EagerNames();
    ReportsUnknown(EAGER);
    assert EAGER[3].deps != [];
    var names := ["X", "X", "W", "Y", "Z"];
    var order := Found(names, ByName(EAGER));
    assert order[0].name == "X" && order[1].name == "X" && order[2].name == "W" && "Z" in order[3].deps;
  }

  // ----- The code as it runs -----

  method IndexByName(services: seq<Service>) returns (byName: map<string, Service>)
    ensures byName == ByName(services)
  {
    byName := map[];
    for i := 0 to |services|
      invariant byName == ByName(services[..i])
    {
      assert services[..i + 1][..i] == services[..i];
      if services[i].name !in byName { byName := byName[services[i].name := services[i]]; }
    }
    assert services[..|services|] == services;
  }

  /** The validation loop: the first unknown dependency, and whether there is any dependency. */
  method Validate(services: seq<Service>, byName: map<string, Service>) returns (unknown: Option<(string, string)>, anyDep: bool)
    ensures unknown == FirstUnknown(services, byName)
    ensures unknown == None ==> anyDep == !NoDeps(services)
  {
    anyDep := false;
    for i := 0 to |services|
      invariant FirstUnknown(services, byName) == FirstUnknown(services[i..], byName)
      invariant anyDep == exists k :: 0 <= k < i && services[k].deps != []
    {
      var s := services[i];
      assert services[i..][1..] == services[i + 1..];
      for j := 0 to |s.deps|
        invariant FirstUnknownDep(s.deps, byName) == FirstUnknownDep(s.deps[j..], byName)
        invariant anyDep == (j > 0 || exists k :: 0 <= k < i && services[k].deps != [])
      {
        anyDep := true;
        assert s.deps[j..][1..] == s.deps[j + 1..];
        if s.deps[j] !in byName { return Some((s.name, s.deps[j])), anyDep; }
      }
    }
    return None, anyDep;
  }

  method CountDependencies(services: seq<Service>) returns (g: Graph)
    ensures g == GraphOf(services)
  {
    var indegree := map[];
    for i := 0 to |services|
      invariant indegree == map x | x in Names(services[..i]) :: 0
    {
      indegree := indegree[services[i].name := 0];
      NamesNext(services, i);
    }
    assert services[..|services|] == services;
    g := Graph(indegree, map[]);
    for i := 0 to |services|
      invariant g == Built(Graph(Zeros(services), map[]), services[..i])
    {
      var s := services[i];
      ghost var before := g;
      for j := 0 to |s.deps|
        invariant g == WithDeps(before, s.name, s.deps[..j])
      {
        assert s.deps[..j + 1][..j] == s.deps[..j];
        g := WithDep(g, s.name, s.deps[j]);
      }
      assert s.deps[..|s.deps|] == s.deps;
      assert services[..i + 1][..i] == services[..i];
    }
  }

  lemma NamesNext(services: seq<Service>, i: nat)
    requires i < |services|
    ensures Names(services[..i + 1]) == Names(services[..i]) + {services[i].name}
  {
    var s := services[..i + 1];
    assert s[i] == services[i] && forall k :: 0 <= k < i ==> s[k] == services[..i][k];
    forall x ensures x in Names(s) <==> x in Names(services[..i]) + {services[i].name} {
      if x in Names(services[..i]) {
        var k :| 0 <= k < i && services[..i][k].name == x;
        assert s[k].name == x;
      }
    }
  }

  method FindReady(services: seq<Service>, indegree: map<string, int>) returns (ready: seq<string>)
    ensures ready == InitialReady(services, indegree)
  {
    ready := [];
    for i := 0 to |services|
      invariant ready == InitialReady(services[..i], indegree)
    {
      assert services[..i + 1][..i] == services[..i];
      if Int(indegree, services[i].name) == 0 { ready := ready + [services[i].name]; }
    }
    assert services[..|services|] == services;
  }

  /** The main loop. */
  method PeelReady(g: Graph, first: seq<string>) returns (indegree: map<string, int>, ordered: seq<string>)
    ensures var p := Peel(Peeling(g.indegree, first, []), g.reverse); p.indegree == indegree && p.ordered == ordered
  {
    indegree, ordered := g.indegree, [];
    var ready := first;
    while ready != []
      invariant Peel(Peeling(indegree, ready, ordered), g.reverse) == Peel(Peeling(g.indegree, first, []), g.reverse)
      decreases Work(Peeling(indegree, ready, ordered))
    {
      ghost var p := Peeling(indegree, ready, ordered);
      PeelOneWork(p, g.reverse);
      var name := ready[0];
      ready := ready[1..];
      ordered := ordered + [name];
      var children := List(g.reverse, name);
      for i := 0 to |children|
        invariant ReleaseAll(Peeling(indegree, ready, ordered), children[i..]) == PeelOne(p, g.reverse)
      {
        assert children[i..][1..] == children[i + 1..];
        var child := children[i];
        indegree := indegree[child := Int(indegree, child) - 1];
        if indegree[child] == 0 { ready := ready + [child]; }
      }
      assert children[|children|..] == [];
    }
  }

  method TopoSortServices(services: seq<Service>) returns (r: Result)
    ensures r == Sort(services)
  {
    hide ByName, FirstUnknown, GraphOf, InitialReady, Peel;
    var byName := IndexByName(services);
    var unknown, anyDep := Validate(services, byName);
    match unknown {
      case Some((name, dep)) => return Unknown(name, dep);
      case None =>
    }
    if !anyDep { return Ordered(services); }
    var g := CountDependencies(services);
    var ready := FindReady(services, g.indegree);
    var indegree, ordered := PeelReady(g, ready);
    if |ordered| != |services| { return Cycle(Stuck(indegree)); }
    r := Ordered(Found(ordered, byName));
  }
}
