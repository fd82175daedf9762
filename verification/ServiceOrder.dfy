/** Which order of the services it is: the one that starts whatever is ready first, and among services that
    become ready together the one registered first.  And which services are named when there is none. */
module ServiceOrder {
  import opened Options
  import opened Services

  // ----- Unknown dependencies -----

  /** The j-th dependency of the i-th service is the first that no service is named. */
  ghost predicate FirstMissing(services: seq<Service>, i: nat, j: nat) {
    && i < |services| && j < |services[i].deps|
    && services[i].deps[j] !in Names(services)
    && (forall b: nat :: b < j ==> services[i].deps[b] in Names(services))
    && (forall a: nat :: a < i ==> AllNamed(services, services[a].deps))
  }

  ghost predicate AllNamed(services: seq<Service>, deps: seq<string>) {
    forall d :: d in deps ==> d in Names(services)
  }

  lemma {:induction false} MissingDep(deps: seq<string>, known: map<string, Service>) returns (j: nat)
    ensures FirstUnknownDep(deps, known).None? <==> forall d :: d in deps ==> d in known
    ensures FirstUnknownDep(deps, known).Some? ==>
      && j < |deps| && deps[j] == FirstUnknownDep(deps, known).value && deps[j] !in known
      && forall b: nat :: b < j ==> deps[b] in known
    decreases |deps|
  {
    j := 0;
    if |deps| > 0 && deps[0] in known {
      var k := MissingDep(deps[1..], known);
      j := k + 1;
      assert forall b: nat :: 0 < b < |deps| ==> deps[b] == deps[1..][b - 1];
    }
  }

  lemma {:induction false} Missing(services: seq<Service>, known: map<string, Service>) returns (i: nat, j: nat)
    ensures FirstUnknown(services, known).Some? ==>
      && i < |services| && j < |services[i].deps|
      && FirstUnknown(services, known) == Some((services[i].name, services[i].deps[j])) && services[i].deps[j] !in known
      && (forall b: nat :: b < j ==> services[i].deps[b] in known)
      && (forall a: nat :: a < i ==> forall d :: d in services[a].deps ==> d in known)
    decreases |services|
  {
    i, j := 0, 0;
    if |services| > 0 {
      j := MissingDep(services[0].deps, known);
      if FirstUnknownDep(services[0].deps, known).None? {
        var k, l := Missing(services[1..], known);
        i, j := k + 1, l;
        assert forall a: nat :: 0 < a < |services| ==> services[a] == services[1..][a - 1];
      }
    }
  }

  /** The dependency reported is the first in registration order that no service is named. */
  lemma FirstIsReported(services: seq<Service>)
    requires Sort(services).Unknown?
    ensures exists i: nat, j: nat ::
      FirstMissing(services, i, j) && Sort(services) == Unknown(services[i].name, services[i].deps[j])
  {
    hide FirstUnknown, Kahn, ByName;
    KahnNotUnknown(services);
    ByNameKeys(services);
    var i, j := Missing(services, ByName(services));
    assert ByName(services).Keys == Names(services);
    assert FirstMissing(services, i, j);
  }

  // ----- Cycles -----

  /** Each of these names is a service's that depends on one of them. */
  ghost predicate AllWait(services: seq<Service>, names: set<string>) {
    forall x :: x in names ==> Waits(services, x, names)
  }

  ghost predicate Waits(services: seq<Service>, x: string, names: set<string>) {
    exists i, d :: 0 <= i < |services| && services[i].name == x && d in services[i].deps && d in names
  }

  /** No service that waits in a set of waiting services is ordered. */
  lemma {:induction false} NeverOrdered(services: seq<Service>, order: seq<string>, names: set<string>, i: nat)
    requires RepeatsApart(services) && Early(DepsOf(services), order) && AllWait(services, names) && i < |order|
    ensures order[i] !in names
    decreases i
  {
    hide *;
    if order[i] in names {
      var j := WaitsFor(services, order, names, i);
      NeverOrdered(services, order, names, j);
    }
  }

  lemma WaitsFor(services: seq<Service>, order: seq<string>, names: set<string>, i: nat) returns (j: nat)
    requires RepeatsApart(services) && Early(DepsOf(services), order) && AllWait(services, names)
    requires i < |order| && order[i] in names
    ensures j < i && order[j] in names
  {
    hide DepsOf, RepeatsApart, AllWait;
    var d := WaitsOn(services, names, order[i]);
    assert d in order[..i];
    j :| 0 <= j < i && order[j] == d;
  }

  lemma WaitsOn(services: seq<Service>, names: set<string>, x: string) returns (d: string)
    requires RepeatsApart(services) && AllWait(services, names) && x in names
    ensures d in names && x in DepsOf(services) && d in DepsOf(services)[x]
  {
    hide DepsOf, RepeatsApart;
    DepsOfFinds(services);
    assert Waits(services, x, names);
    var k;
    k, d :| 0 <= k < |services| && services[k].name == x && d in services[k].deps && d in names;
  }

  lemma SortOfKahn(services: seq<Service>)
    requires Known(services) && RepeatsApart(services)
    ensures Sort(services) == Kahn(services)
  {
    ReportsUnknown(services);
    hide Kahn, FirstUnknown, ByName, Known, RepeatsApart;
    if NoDeps(services) { ShortcutIsKahn(services); }
  }

  lemma NamedBy(services: seq<Service>, x: string, names: set<string>)
    requires RepeatsApart(services) && x in DepsOf(services) && exists d :: d in DepsOf(services)[x] && d in names
    ensures Waits(services, x, names)
  {
    DepsOfFinds(services);
    var d :| d in DepsOf(services)[x] && d in names;
    hide DepsOf, RepeatsApart;
    assert x in Names(services);
    var i :| 0 <= i < |services| && services[i].name == x;
  }

  lemma LeftOver(services: seq<Service>, p: Peeling, others: set<string>, x: string)
    requires RepeatsApart(services) && AllWait(services, others) && x in others
    requires PeelInv(DepsOf(services), p, multiset{}) && p.ready == [] && Early(DepsOf(services), p.ordered)
    ensures x in Stuck(p.indegree)
  {
    hide PeelInv, Early, Stuck, RepeatsApart;
    DepsOfFinds(services);
    hide DepsOf;
    assert Waits(services, x, others);
    if x in p.ordered {
      var i :| 0 <= i < |p.ordered| && p.ordered[i] == x;
      NeverOrdered(services, p.ordered, others, i);
    } else {
      UnorderedIsStuck(services, p, x);
    }
  }

  lemma KahnCycle(services: seq<Service>) returns (p: Peeling)
    requires RepeatsApart(services) && Kahn(services).Cycle?
    ensures PeelInv(DepsOf(services), p, multiset{}) && p.ready == [] && Kahn(services).names == Stuck(p.indegree)
  {
    var g := GraphOf(services);
    p := Peel(Peeling(g.indegree, InitialReady(services, g.indegree), []), g.reverse);
    PeelingResult(services);
    hide GraphOf, Peel, InitialReady, PeelInv, DepsOf, Stuck, NamesOf, Independent;
  }

  /** The services named on a cycle are the largest set of services each of which waits for one of the set: those
      on a cycle and those that wait for them. */
  lemma CycleNames(services: seq<Service>, others: set<string>)
    requires RepeatsApart(services) && Known(services) && Sort(services).Cycle?
    ensures AllWait(services, Sort(services).names)
    ensures AllWait(services, others) ==> others <= Sort(services).names
  {
    hide *;
    SortOfKahn(services);
    var p := KahnCycle(services);
    var stuck := Sort(services).names;
    forall x | x in stuck ensures Waits(services, x, stuck) {
      StuckOn(services, p, x);
      NamedBy(services, x, stuck);
    }
    AllWaitIs(services, stuck);
    if AllWait(services, others) {
      PeeledInOrder(services, p);
      forall x | x in others ensures x in stuck { LeftOver(services, p, others, x); }
    }
  }

  lemma AllWaitIs(services: seq<Service>, names: set<string>)
    requires forall x :: x in names ==> Waits(services, x, names)
    ensures AllWait(services, names)
  {
  }

  // ----- First ready, first started -----

  /** The last of what x depends on has place k. */
  ghost predicate LastAt(deps: map<string, seq<string>>, ordered: seq<string>, x: string, k: nat) {
    && x in deps && k < |ordered| && ordered[k] in deps[x]
    && forall d :: d in deps[x] ==> d in ordered[..k + 1]
  }

  ghost predicate Sooner(rank: map<string, nat>, k: nat, x: string, l: nat, y: string) {
    k < l || (k == l && x in rank && y in rank && rank[x] < rank[y])
  }

  /** Ready in the order of these places, and then of the ranks. */
  ghost predicate Fifo(deps: map<string, seq<string>>, rank: map<string, nat>, ordered: seq<string>, all: seq<string>) {
    forall i: nat, j: nat, k: nat, l: nat ::
      i < j < |all| && LastAt(deps, ordered, all[i], k) && LastAt(deps, ordered, all[j], l) ==> Sooner(rank, k, all[i], l, all[j])
  }

  /** What the service ordered last made ready has no higher rank than what it may still make ready. */
  ghost predicate Due(deps: map<string, seq<string>>, rank: map<string, nat>, ordered: seq<string>, all: seq<string>, children: seq<string>) {
    forall i: nat, b: nat ::
      i < |all| && b < |children| && |ordered| > 0 && LastAt(deps, ordered, all[i], |ordered| - 1) ==>
        NotHigher(rank, all[i], children[b])
  }

  ghost predicate NotHigher(rank: map<string, nat>, x: string, y: string) {
    x in rank && y in rank && rank[x] <= rank[y]
  }

  ghost predicate Ranked(rank: map<string, nat>, names: seq<string>) {
    forall a: nat, b: nat :: a <= b < |names| ==> NotHigher(rank, names[a], names[b])
  }

  ghost predicate Ranks(deps: map<string, seq<string>>, rank: map<string, nat>) {
    deps.Keys <= rank.Keys && forall x, y :: x in rank && y in rank && rank[x] == rank[y] ==> x == y
  }

  ghost predicate AllDependOn(deps: map<string, seq<string>>, children: seq<string>, name: string) {
    forall b: nat :: b < |children| ==> children[b] in deps && name in deps[children[b]]
  }

  /** What is still to be released is in neither list. */
  lemma NotYet(deps: map<string, seq<string>>, p: Peeling, children: seq<string>)
    requires |children| > 0 && PeelInv(deps, p, multiset(children))
    ensures children[0] !in p.ordered + p.ready
  {
    hide Open, RepeatsFree, Early;
    assert children[0] in multiset(children);
  }

  /** A name something depends on is ordered once. */
  lemma OrderedOnce(deps: map<string, seq<string>>, p: Peeling, children: multiset<string>, x: string, i: nat, j: nat)
    requires PeelInv(deps, p, children) && x in deps && i < |p.ordered| && j < |p.ordered + p.ready|
    requires p.ordered[i] == (p.ordered + p.ready)[j] && p.ordered[i] in deps[x]
    ensures i == j
  {
    hide Open, Early;
    var all := p.ordered + p.ready;
    assert all[i] == p.ordered[i] && !Free(deps, all[i]);
  }

  lemma LastPlace(deps: map<string, seq<string>>, p: Peeling, children: multiset<string>, x: string, l: nat)
    requires PeelInv(deps, p, children) && |p.ordered| > 0 && x in deps && p.ordered[|p.ordered| - 1] in deps[x]
    requires LastAt(deps, p.ordered, x, l)
    ensures l == |p.ordered| - 1
  {
    hide PeelInv;
    var name := p.ordered[|p.ordered| - 1];
    var j :| 0 <= j < l + 1 && p.ordered[j] == name;
    assert (p.ordered + p.ready)[j] == name;
    OrderedOnce(deps, p, children, x, |p.ordered| - 1, j);
  }

  lemma ReleaseFifo(deps: map<string, seq<string>>, rank: map<string, nat>, p: Peeling, children: seq<string>)
    requires |children| > 0 && |p.ordered| > 0 && PeelInv(deps, p, multiset(children)) && Ranks(deps, rank) && Ranked(rank, children)
    requires AllDependOn(deps, children, p.ordered[|p.ordered| - 1])
    requires Fifo(deps, rank, p.ordered, p.ordered + p.ready) && Due(deps, rank, p.ordered, p.ordered + p.ready, children)
    ensures var q := Release(p, children[0]); q.ordered == p.ordered && Fifo(deps, rank, q.ordered, q.ordered + q.ready)
  {
    hide PeelInv, LastAt, Ranked;
    var q, child, K := Release(p, children[0]), children[0], |p.ordered| - 1;
    var all, next := p.ordered + p.ready, q.ordered + q.ready;
    if q.ready != p.ready {
      assert next == all + [child];
      NotYet(deps, p, children);
      forall i: nat, j: nat, k: nat, l: nat
        | i < j < |next| && LastAt(deps, p.ordered, next[i], k) && LastAt(deps, p.ordered, next[j], l)
        ensures Sooner(rank, k, next[i], l, next[j])
      {
        assert next[i] == all[i];
        if j < |all| {
          assert next[j] == all[j];
        } else {
          LastPlace(deps, p, multiset(children), child, l);
          LastBefore(deps, p.ordered, all[i], k);
        }
      }
    }
  }

  lemma LastBefore(deps: map<string, seq<string>>, ordered: seq<string>, x: string, k: nat)
    requires LastAt(deps, ordered, x, k)
    ensures k < |ordered|
  {
  }

  lemma DueRest(deps: map<string, seq<string>>, rank: map<string, nat>, ordered: seq<string>, all: seq<string>, next: seq<string>, children: seq<string>)
    requires |children| > 0 && Ranked(rank, children) && Due(deps, rank, ordered, all, children)
    requires next == all || next == all + [children[0]]
    ensures Due(deps, rank, ordered, next, children[1..])
  {
    hide LastAt, NotHigher;
    var rest := children[1..];
    forall i: nat, b: nat | i < |next| && b < |rest| && |ordered| > 0 && LastAt(deps, ordered, next[i], |ordered| - 1)
      ensures NotHigher(rank, next[i], rest[b])
    {
      assert rest[b] == children[b + 1];
      if i < |all| { assert next[i] == all[i]; } else { assert next[i] == children[0]; }
    }
  }

  lemma ReleaseDue(deps: map<string, seq<string>>, rank: map<string, nat>, p: Peeling, children: seq<string>)
    requires |children| > 0 && |p.ordered| > 0 && Ranked(rank, children) && Due(deps, rank, p.ordered, p.ordered + p.ready, children)
    ensures var q := Release(p, children[0]); Due(deps, rank, q.ordered, q.ordered + q.ready, children[1..])
  {
    hide Due, Ranked;
    var q := Release(p, children[0]);
    assert q.ready == p.ready || q.ordered + q.ready == p.ordered + p.ready + [children[0]];
    DueRest(deps, rank, p.ordered, p.ordered + p.ready, q.ordered + q.ready, children);
  }

  lemma RestRanked(deps: map<string, seq<string>>, rank: map<string, nat>, children: seq<string>, name: string)
    requires |children| > 0 && Ranked(rank, children) && AllDependOn(deps, children, name)
    ensures Ranked(rank, children[1..]) && AllDependOn(deps, children[1..], name)
  {
    assert forall b: nat :: b < |children[1..]| ==> children[1..][b] == children[b + 1];
  }

  lemma {:induction false} ReleaseAllFifo(deps: map<string, seq<string>>, rank: map<string, nat>, p: Peeling, children: seq<string>)
    requires |p.ordered| > 0 && PeelInv(deps, p, multiset(children)) && Ranks(deps, rank) && Ranked(rank, children)
    requires AllDependOn(deps, children, p.ordered[|p.ordered| - 1])
    requires Fifo(deps, rank, p.ordered, p.ordered + p.ready) && Due(deps, rank, p.ordered, p.ordered + p.ready, children)
    ensures var q := ReleaseAll(p, children); Fifo(deps, rank, q.ordered, q.ordered + q.ready)
    decreases |children|
  {
    hide PeelInv, Release, Ranks, Ranked, AllDependOn, Fifo, Due;
    if |children| > 0 {
      var q, rest := Release(p, children[0]), children[1..];
      RestRanked(deps, rank, children, p.ordered[|p.ordered| - 1]);
      assert children == [children[0]] + rest;
      assert children[0] in multiset(children) && multiset(rest) == multiset(children) - multiset{children[0]};
      ReleaseInv(deps, p, multiset(children), children[0]);
      ReleaseFifo(deps, rank, p, children);
      ReleaseDue(deps, rank, p, children);
      ReleaseAllFifo(deps, rank, q, rest);
    }
  }

  /** What was ready before has all it depends on ordered before. */
  lemma PopLast(deps: map<string, seq<string>>, p: Peeling, i: nat, k: nat)
    requires PeelInv(deps, p, multiset{}) && |p.ready| > 0 && i < |p.ordered + p.ready|
    requires LastAt(deps, p.ordered + [p.ready[0]], (p.ordered + p.ready)[i], k)
    ensures k < |p.ordered| && LastAt(deps, p.ordered, (p.ordered + p.ready)[i], k)
  {
    var x, ordered := (p.ordered + p.ready)[i], p.ordered + [p.ready[0]];
    assert x in p.ordered + p.ready;
    OpenNone(deps[x], p.ordered);
    assert forall d :: d in deps[x] ==> d in p.ordered;
    hide Open, Early, Free, RepeatsFree;
    if k == |p.ordered| {
      var j :| 0 <= j < |p.ordered| && p.ordered[j] == p.ready[0];
      assert (p.ordered + p.ready)[|p.ordered|] == p.ready[0];
      OrderedOnce(deps, p, multiset{}, x, j, |p.ordered|);
    } else {
      assert ordered[..k + 1] == p.ordered[..k + 1];
    }
  }

  lemma PopFifo(deps: map<string, seq<string>>, rank: map<string, nat>, p: Peeling, children: seq<string>)
    requires PeelInv(deps, p, multiset{}) && |p.ready| > 0 && Fifo(deps, rank, p.ordered, p.ordered + p.ready)
    ensures var q := Peeling(p.indegree, p.ready[1..], p.ordered + [p.ready[0]]);
      Fifo(deps, rank, q.ordered, q.ordered + q.ready) && Due(deps, rank, q.ordered, q.ordered + q.ready, children)
  {
    hide PeelInv, LastAt;
    var q := Peeling(p.indegree, p.ready[1..], p.ordered + [p.ready[0]]);
    var all := p.ordered + p.ready;
    assert q.ordered + q.ready == all;
    forall i: nat, j: nat, k: nat, l: nat
      | i < j < |all| && LastAt(deps, q.ordered, all[i], k) && LastAt(deps, q.ordered, all[j], l)
      ensures Sooner(rank, k, all[i], l, all[j])
    {
      PopLast(deps, p, i, k);
      PopLast(deps, p, j, l);
    }
    forall i: nat | i < |all| ensures !LastAt(deps, q.ordered, all[i], |q.ordered| - 1) {
      if LastAt(deps, q.ordered, all[i], |q.ordered| - 1) { PopLast(deps, p, i, |q.ordered| - 1); }
    }
  }

  lemma Dependents(deps: map<string, seq<string>>, reverse: map<string, seq<string>>, name: string)
    requires ReverseOf(deps, reverse)
    ensures AllDependOn(deps, List(reverse, name), name)
  {
    var children := List(reverse, name);
    forall b: nat | b < |children| ensures children[b] in deps && name in deps[children[b]] {
      assert multiset(children)[children[b]] > 0;
    }
  }

  lemma {:induction false} PeelFifo(deps: map<string, seq<string>>, rank: map<string, nat>, p: Peeling, reverse: map<string, seq<string>>)
    requires PeelInv(deps, p, multiset{}) && ReverseOf(deps, reverse) && Ranks(deps, rank)
    requires forall d :: Ranked(rank, List(reverse, d))
    requires Fifo(deps, rank, p.ordered, p.ordered + p.ready)
    ensures var q := Peel(p, reverse); Fifo(deps, rank, q.ordered, q.ordered + q.ready)
    decreases Work(p)
  {
    hide PeelInv, ReverseOf, Ranks, Ranked, Fifo, Due, Work, Release, AllDependOn;
    if |p.ready| > 0 {
      var p1 := Peeling(p.indegree, p.ready[1..], p.ordered + [p.ready[0]]);
      var children := List(reverse, p.ready[0]);
      PopInv(deps, p, reverse);
      PopFifo(deps, rank, p, children);
      Dependents(deps, reverse, p.ready[0]);
      assert Ranked(rank, children);
      ReleaseAllFifo(deps, rank, p1, children);
      ReleaseAllInv(deps, p1, children);
      PeelOneWork(p, reverse);
      PeelFifo(deps, rank, PeelOne(p, reverse), reverse);
    }
  }

  // ----- Registration order -----

  /** The place of the first service of that name. */
  function Place(services: seq<Service>, x: string): nat
    decreases |services|
  {
    if |services| == 0 || services[0].name == x then 0 else 1 + Place(services[1..], x)
  }

  lemma {:induction false} PlaceNamed(services: seq<Service>, x: string)
    requires x in Names(services)
    ensures Place(services, x) < |services| && services[Place(services, x)].name == x
    decreases |services|
  {
    if services[0].name != x {
      assert x in Names(services[1..]) by {
        var i :| 0 <= i < |services| && services[i].name == x;
        assert services[1..][i - 1].name == x;
      }
      PlaceNamed(services[1..], x);
    }
  }

  lemma {:induction false} PlaceFirst(services: seq<Service>, i: nat)
    requires i < |services| && forall j :: 0 <= j < i ==> services[j].name != services[i].name
    ensures Place(services, services[i].name) == i
    decreases i
  {
    if i > 0 {
      assert services[1..][i - 1] == services[i];
      assert forall j :: 0 <= j < i - 1 ==> services[1..][j] == services[j + 1];
      PlaceFirst(services[1..], i - 1);
    }
  }

  /** A service with a dependency is the only one of its name. */
  lemma PlaceOf(services: seq<Service>, i: nat)
    requires RepeatsApart(services) && i < |services| && services[i].deps != []
    ensures Place(services, services[i].name) == i
  {
    assert !Apart(services, services[i].name);
    hide Apart;
    PlaceFirst(services, i);
  }

  function Places(services: seq<Service>): map<string, nat> {
    map x | x in Names(services) :: Place(services, x)
  }

  lemma PlacesRank(services: seq<Service>)
    requires RepeatsApart(services)
    ensures Ranks(DepsOf(services), Places(services))
  {
    DepsOfFinds(services);
    hide DepsOf, Place, RepeatsApart;
    var rank := Places(services);
    forall x, y | x in rank && y in rank && rank[x] == rank[y] ensures x == y {
      PlaceNamed(services, x);
      PlaceNamed(services, y);
    }
  }

  /** No list holds a rank above n. */
  ghost predicate Sorted(rank: map<string, nat>, reverse: map<string, seq<string>>, n: nat) {
    forall d :: Ranked(rank, List(reverse, d)) && forall b: nat :: b < |List(reverse, d)| ==> rank[List(reverse, d)[b]] <= n
  }

  lemma DepSorted(rank: map<string, nat>, g: Graph, name: string, dep: string, n: nat)
    requires Sorted(rank, g.reverse, n) && name in rank && rank[name] == n
    ensures Sorted(rank, WithDep(g, name, dep).reverse, n)
  {
    var h := WithDep(g, name, dep);
    forall d
      ensures Ranked(rank, List(h.reverse, d)) && forall b: nat :: b < |List(h.reverse, d)| ==> rank[List(h.reverse, d)[b]] <= n
    {
      assert Ranked(rank, List(g.reverse, d));
      assert List(h.reverse, d) == List(g.reverse, d) + if d == dep then [name] else [];
    }
  }

  lemma {:induction false} DepsSorted(rank: map<string, nat>, g: Graph, name: string, deps: seq<string>, n: nat)
    requires Sorted(rank, g.reverse, n) && (deps != [] ==> name in rank && rank[name] == n)
    ensures Sorted(rank, WithDeps(g, name, deps).reverse, n)
    decreases |deps|
  {
    hide Sorted, WithDep;
    if |deps| > 0 {
      var init, dep := deps[..|deps| - 1], deps[|deps| - 1];
      DepsSorted(rank, g, name, init, n);
      DepSorted(rank, WithDeps(g, name, init), name, dep, n);
    }
  }

  lemma HigherSorted(rank: map<string, nat>, reverse: map<string, seq<string>>, n: nat, m: nat)
    requires Sorted(rank, reverse, n) && n <= m
    ensures Sorted(rank, reverse, m)
  {
    hide List;
    forall d
      ensures Ranked(rank, List(reverse, d)) && forall b: nat :: b < |List(reverse, d)| ==> rank[List(reverse, d)[b]] <= m
    {
      assert Ranked(rank, List(reverse, d));
    }
  }

  lemma {:induction false} BuiltSorted(rank: map<string, nat>, services: seq<Service>, g: Graph)
    requires g.reverse == map[] && forall i: nat :: i < |services| && services[i].deps != [] ==> services[i].name in rank && rank[services[i].name] == i
    ensures Sorted(rank, Built(g, services).reverse, |services|)
    decreases |services|
  {
    hide Sorted, WithDeps;
    if |services| > 0 {
      var n := |services| - 1;
      BuiltSorted(rank, services[..n], g);
      var s := services[n];
      DepsSorted(rank, Built(g, services[..n]), s.name, s.deps, n);
      HigherSorted(rank, Built(g, services).reverse, n, |services|);
    } else {
      NothingSorted(rank);
    }
  }

  lemma NothingSorted(rank: map<string, nat>)
    ensures Sorted(rank, map[], 0)
  {
  }

  lemma GraphSorted(services: seq<Service>)
    requires RepeatsApart(services)
    ensures forall d :: Ranked(Places(services), List(GraphOf(services).reverse, d))
  {
    hide RepeatsApart, Place;
    var rank := Places(services);
    forall i: nat | i < |services| && services[i].deps != [] ensures services[i].name in rank && rank[services[i].name] == i {
      PlaceOf(services, i);
    }
    BuiltSorted(rank, services, Graph(Zeros(services), map[]));
  }

  // ----- The order -----

  /** The last of what s depends on has place k. */
  ghost predicate LastOf(order: seq<Service>, s: Service, k: nat) {
    && k < |order| && order[k].name in s.deps
    && forall d :: d in s.deps ==> exists j :: 0 <= j <= k && order[j].name == d
  }

  ghost predicate Before(services: seq<Service>, s: Service, t: Service) {
    exists a, b :: 0 <= a < b < |services| && services[a] == s && services[b] == t
  }

  /** Of two services that depend on others, the one whose last dependency comes first comes first; and if they
      wait for the same one, the one registered first. */
  ghost predicate FirstReadyFirst(services: seq<Service>, order: seq<Service>) {
    forall i: nat, j: nat, k: nat, l: nat ::
      i < j < |order| && LastOf(order, order[i], k) && LastOf(order, order[j], l) ==>
        k < l || (k == l && Before(services, order[i], order[j]))
  }

  /** What is promised of the order: all services, as often as registered; those without dependencies first, as
      registered; each after what it depends on; and of the rest, the first ready first. */
  ghost predicate Proper(services: seq<Service>, order: seq<Service>) {
    SameServices(order, services) && Independent(services) <= order && DependenciesFirst(order) && FirstReadyFirst(services, order)
  }

  lemma StartFifo(deps: map<string, seq<string>>, rank: map<string, nat>, all: seq<string>)
    ensures Fifo(deps, rank, [], [] + all)
  {
  }

  lemma KahnIs(services: seq<Service>)
    ensures var g := GraphOf(services);
      var p := Peel(Peeling(g.indegree, InitialReady(services, g.indegree), []), g.reverse);
      Kahn(services).Ordered? ==> |p.ordered| == |services| && Kahn(services).order == Found(p.ordered, ByName(services))
  {
    hide GraphOf, InitialReady, Peel, Found, ByName;
  }

  lemma KahnOrder(services: seq<Service>) returns (names: seq<string>)
    requires RepeatsApart(services) && Kahn(services).Ordered?
    ensures Kahn(services).order == Found(names, ByName(services)) && multiset(names) == multiset(NamesOf(services))
    ensures Fifo(DepsOf(services), Places(services), names, names)
  {
    hide *;
    var g, deps, rank := GraphOf(services), DepsOf(services), Places(services);
    var p0 := Peeling(g.indegree, InitialReady(services, g.indegree), []);
    var p := Peel(p0, g.reverse);
    names := p.ordered;
    KahnIs(services);
    Initially(services);
    PeelingResult(services);
    StartFifo(deps, rank, p0.ready);
    GraphReverses(services);
    PlacesRank(services);
    GraphSorted(services);
    PeelFifo(deps, rank, p0, g.reverse);
    AllOrdered(services, p);
    assert p.ordered + p.ready == p.ordered;
  }

  /** A service of the order that depends on others, seen by its name. */
  lemma LastNamed(services: seq<Service>, names: seq<string>, order: seq<Service>, i: nat, k: nat)
    requires RepeatsApart(services) && |order| == |names| && i < |order| && LastOf(order, order[i], k)
    requires forall i :: 0 <= i < |order| ==> order[i].name == names[i] && order[i] in services
    ensures LastAt(DepsOf(services), names, names[i], k)
    ensures names[i] in Places(services) && Places(services)[names[i]] < |services| && services[Places(services)[names[i]]] == order[i]
  {
    hide RepeatsApart, DepsOf, Place;
    DepsOfFinds(services);
    var a :| 0 <= a < |services| && services[a] == order[i];
    PlaceOf(services, a);
    forall d | d in order[i].deps ensures d in names[..k + 1] {
      var j :| 0 <= j <= k && order[j].name == d;
      assert names[..k + 1][j] == d;
    }
  }

  lemma OrderIsFifo(services: seq<Service>)
    requires RepeatsApart(services) && Kahn(services).Ordered?
    ensures FirstReadyFirst(services, Kahn(services).order)
  {
    hide RepeatsApart, DepsOf, Places, LastOf, LastAt, Kahn, Found, ByName, NamesOf, SameServices, Before;
    var order := Kahn(services).order;
    var names := KahnOrder(services);
    FoundAre(services, names);
    forall i: nat, j: nat, k: nat, l: nat | i < j < |order| && LastOf(order, order[i], k) && LastOf(order, order[j], l)
      ensures k < l || (k == l && Before(services, order[i], order[j]))
    {
      LastNamed(services, names, order, i, k);
      LastNamed(services, names, order, j, l);
      assert Sooner(Places(services), k, names[i], l, names[j]);
      if k == l { IsBefore(services, Places(services)[names[i]], Places(services)[names[j]]); }
    }
  }

  lemma IsBefore(services: seq<Service>, a: nat, b: nat)
    requires a < b < |services|
    ensures Before(services, services[a], services[b])
  {
  }

  // ----- There is one such order -----

  lemma NotBoth(services: seq<Service>, s: Service, t: Service)
    requires RepeatsApart(services) && s.deps != [] && t.deps != []
    ensures !(Before(services, s, t) && Before(services, t, s))
  {
    if Before(services, s, t) && Before(services, t, s) {
      var a, b :| 0 <= a < b < |services| && services[a] == s && services[b] == t;
      var c, d :| 0 <= c < d < |services| && services[c] == t && services[d] == s;
      PlaceOf(services, a);
      PlaceOf(services, b);
      PlaceOf(services, c);
      assert false;
    }
  }

  lemma OneMore(services: seq<Service>, last: Service, s: Service)
    ensures multiset(services + [last])[s] == multiset(services)[s] + if s == last then 1 else 0
  {
  }

  lemma IndependentMore(services: seq<Service>, last: Service)
    ensures Independent(services + [last]) == if last.deps == [] then Independent(services) + [last] else Independent(services)
  {
    assert (services + [last])[..|services|] == services;
  }

  lemma {:induction false} IndependentAll(services: seq<Service>, s: Service)
    ensures s.deps == [] ==> multiset(Independent(services))[s] == multiset(services)[s]
    decreases |services|
  {
    if |services| > 0 {
      var init, last := services[..|services| - 1], services[|services| - 1];
      hide Independent;
      IndependentAll(init, s);
      IndependentMore(init, last);
      assert services == init + [last];
      OneMore(init, last, s);
      OneMore(Independent(init), last, s);
    }
  }

  /** Behind the independent services all depend on others. */
  lemma RestDepend(services: seq<Service>, order: seq<Service>, i: nat)
    requires Proper(services, order) && |Independent(services)| <= i < |order|
    ensures order[i].deps != []
  {
    hide Independent, FirstReadyFirst, DependenciesFirst;
    var first := Independent(services);
    IndependentAll(services, order[i]);
    assert order == first + order[|first|..] && order[i] == order[|first|..][i - |first|];
    assert multiset(order) == multiset(first) + multiset(order[|first|..]);
    assert order[i] in multiset(order[|first|..]);
  }

  lemma {:induction false} LastExists(order: seq<Service>, s: Service, n: nat) returns (k: nat)
    requires n <= |order| && s.deps != [] && forall d :: d in s.deps ==> exists j :: 0 <= j < n && order[j].name == d
    ensures k < n && LastOf(order, s, k)
    decreases n
  {
    assert s.deps[0] in s.deps;
    assert n > 0;
    if order[n - 1].name in s.deps {
      k := n - 1;
    } else {
      forall d | d in s.deps ensures exists j :: 0 <= j < n - 1 && order[j].name == d {
        var j :| 0 <= j < n && order[j].name == d;
      }
      k := LastExists(order, s, n - 1);
    }
  }

  lemma LastShared(o: seq<Service>, p: seq<Service>, s: Service, n: nat, k: nat)
    requires n <= |o| && n <= |p| && o[..n] == p[..n] && k < n && LastOf(o, s, k)
    ensures LastOf(p, s, k)
  {
    assert forall j :: 0 <= j < n ==> o[j] == o[..n][j] == p[j];
  }

  /** What one order has at n, another that agrees so far has there or later. */
  lemma Later(o: seq<Service>, p: seq<Service>, n: nat) returns (m: nat)
    requires multiset(o) == multiset(p) && n < |o| && n <= |p| && o[..n] == p[..n]
    ensures n <= m < |p| && p[m] == o[n]
  {
    assert o == o[..n] + o[n..] && p == p[..n] + p[n..];
    assert multiset(o) == multiset(o[..n]) + multiset(o[n..]) && multiset(p) == multiset(p[..n]) + multiset(p[n..]);
    assert o[n] == o[n..][0] && o[n] in multiset(o[n..]);
    assert multiset(o[n..]) == multiset(o) - multiset(o[..n]);
    assert multiset(p[n..]) == multiset(p) - multiset(p[..n]);
    var j :| 0 <= j < |p[n..]| && p[n..][j] == o[n];
    m := n + j;
  }

  lemma LastBoth(services: seq<Service>, o: seq<Service>, p: seq<Service>, n: nat) returns (k: nat)
    requires Proper(services, o) && n < |o| && n <= |p| && o[..n] == p[..n] && |Independent(services)| <= n
    ensures k < n && LastOf(o, o[n], k) && LastOf(p, o[n], k)
  {
    RestDepend(services, o, n);
    k := LastExists(o, o[n], n);
    LastShared(o, p, o[n], n, k);
  }

  lemma SameNext(services: seq<Service>, o: seq<Service>, p: seq<Service>, n: nat)
    requires RepeatsApart(services) && Proper(services, o) && Proper(services, p) && n < |o| && n < |p| && o[..n] == p[..n]
    ensures o[n] == p[n]
  {
    hide LastOf, Before, RepeatsApart, Independent, SameServices, DependenciesFirst;
    var first := Independent(services);
    if n < |first| {
      assert o[n] == first[n] == p[n];
    } else if o[n] != p[n] {
      assert multiset(o) == multiset(p) by { SameBoth(services, o, p); }
      var m := Later(o, p, n);
      var l := Later(p, o, n);
      var x := LastBoth(services, o, p, n);
      var y := LastBoth(services, p, o, n);
      RestDepend(services, o, n);
      RestDepend(services, p, n);
      NotBoth(services, o[n], p[n]);
      assert false;
    }
  }

  lemma SameBoth(services: seq<Service>, o: seq<Service>, p: seq<Service>)
    requires SameServices(o, services) && SameServices(p, services)
    ensures multiset(o) == multiset(p) && |o| == |p|
  {
    assert |multiset(o)| == |multiset(p)|;
  }

  /** There is at most one proper order. */
  lemma {:induction false} OneOrder(services: seq<Service>, o: seq<Service>, p: seq<Service>, n: nat)
    requires RepeatsApart(services) && Proper(services, o) && Proper(services, p) && n <= |o|
    ensures |o| == |p| && o[..n] == p[..n]
    decreases n
  {
    assert |o| == |p| by { SameBoth(services, o, p); }
    hide Proper, RepeatsApart;
    if n > 0 {
      OneOrder(services, o, p, n - 1);
      SameNext(services, o, p, n - 1);
      assert o[..n] == o[..n - 1] + [o[n - 1]] && p[..n] == p[..n - 1] + [p[n - 1]];
    }
  }

  /** In a proper order nothing waits for ever. */
  lemma {:induction false} NoneWaits(services: seq<Service>, order: seq<Service>, names: set<string>, i: nat)
    requires RepeatsApart(services) && Proper(services, order) && AllWait(services, names) && i < |order|
    ensures order[i].name !in names
    decreases i
  {
    hide *;
    if order[i].name in names {
      var d := WaitingDep(services, order, names, i);
      var j := EarlierDep(services, order, i, d);
      NoneWaits(services, order, names, j);
    }
  }

  lemma WaitingDep(services: seq<Service>, order: seq<Service>, names: set<string>, i: nat) returns (d: string)
    requires RepeatsApart(services) && Proper(services, order) && AllWait(services, names)
    requires i < |order| && order[i].name in names
    ensures d in names && d in order[i].deps
  {
    hide RepeatsApart, AllWait, Independent, DependenciesFirst, FirstReadyFirst;
    assert Waits(services, order[i].name, names) by { OneWaits(services, names, order[i].name); }
    var k;
    k, d :| 0 <= k < |services| && services[k].name == order[i].name && d in services[k].deps && d in names;
    assert order[i] in multiset(order) && order[i] in multiset(services);
    var a :| 0 <= a < |services| && services[a] == order[i];
    SameName(services, k, a);
  }

  lemma OneWaits(services: seq<Service>, names: set<string>, x: string)
    requires AllWait(services, names) && x in names
    ensures Waits(services, x, names)
  {
  }

  /** A service that depends on others and one of its name are the same. */
  lemma SameName(services: seq<Service>, k: nat, a: nat)
    requires RepeatsApart(services) && k < |services| && a < |services| && services[k].deps != [] && services[a].name == services[k].name
    ensures k == a
  {
    hide Apart;
    assert !Apart(services, services[k].name) by { NotApart(services, k); }
  }

  lemma NotApart(services: seq<Service>, k: nat)
    requires k < |services| && services[k].deps != []
    ensures !Apart(services, services[k].name)
  {
  }

  lemma EarlierDep(services: seq<Service>, order: seq<Service>, i: nat, d: string) returns (j: nat)
    requires Proper(services, order) && i < |order| && d in order[i].deps
    ensures j < i && order[j].name == d
  {
    hide FirstReadyFirst;
    j :| 0 <= j < i && order[j].name == d;
  }

  lemma ProperIsFound(services: seq<Service>, order: seq<Service>)
    requires RepeatsApart(services) && Known(services) && Proper(services, order)
    ensures Sort(services).Ordered?
  {
    hide *;
    SortIsRight(services);
    KahnOnly(services);
    if Sort(services).Cycle? {
      var names := Sort(services).names;
      CycleNames(services, names);
      var x := SomeName(services);
      var i := InOrder(services, order, names, x);
      NoneWaits(services, order, names, i);
      assert false;
    }
  }

  lemma KahnOnly(services: seq<Service>)
    requires Known(services)
    ensures !Sort(services).Unknown?
  {
    ReportsUnknown(services);
  }

  lemma SomeName(services: seq<Service>) returns (x: string)
    requires RepeatsApart(services) && Known(services) && Sort(services).Cycle?
    ensures x in Sort(services).names
  {
    hide RepeatsApart, Known, Sort, DepsOf;
    SortIsRight(services);
    var w :| IsCycle(DepsOf(services), w) && Within(w, Sort(services).names);
    x := w[0];
  }

  lemma InOrder(services: seq<Service>, order: seq<Service>, names: set<string>, x: string) returns (i: nat)
    requires Proper(services, order) && AllWait(services, names) && x in names
    ensures i < |order| && order[i].name == x
  {
    hide AllWait, Independent, DependenciesFirst, FirstReadyFirst;
    OneWaits(services, names, x);
    var k, d :| 0 <= k < |services| && services[k].name == x && d in services[k].deps && d in names;
    assert services[k] in multiset(services) && services[k] in multiset(order);
    i :| 0 <= i < |order| && order[i] == services[k];
  }

  /** What the sort gives, for known dependencies and names repeated only apart from all others: an order if
      and only if it is the proper one.  There is never more than one, and none exactly when there is a cycle. */
  lemma SortGives(services: seq<Service>, order: seq<Service>)
    requires RepeatsApart(services) && Known(services)
    ensures Sort(services) == Ordered(order) <==> Proper(services, order)
  {
    hide *;
    SortOfKahn(services);
    if Sort(services).Ordered? { SortedIsProper(services); }
    if Proper(services, order) {
      ProperIsFound(services, order);
      var found := Sort(services).order;
      OneOrder(services, order, found, |order|);
      assert order[..|order|] == order && found[..|order|] == found;
    }
  }

  lemma SortedIsProper(services: seq<Service>)
    requires RepeatsApart(services) && Known(services) && Kahn(services).Ordered?
    ensures Proper(services, Kahn(services).order)
  {
    hide RepeatsApart, Known, Kahn, Independent, SameServices, DependenciesFirst, FirstReadyFirst, Cyclic;
    KahnSorts(services);
    OrderIsFifo(services);
  }
}
