/**
 * A directed graph over service ids. An edge runs from a dependency to the service that
 * depends on it. Nodes keep their insertion order, which makes every query deterministic.
 *
 * Topological order is computed by repeatedly taking out the first node (in insertion order)
 * that has no incoming edge from the nodes still left; the graph is acyclic exactly when this
 * takes out every node, which is proved equivalent to the existence of a topological order.
 */
module DirectedGraph {
  import opened Types

  /** `from` is a dependency of `to`. */
  datatype Edge = Edge(from: ServiceId, to: ServiceId)

  datatype Graph = Graph(nodes: seq<ServiceId>, edges: set<Edge>)

  predicate Distinct(s: seq<ServiceId>)
  {
    forall i, j :: 0 <= i < j < |s| ==> s[i] != s[j]
  }

  /** Nodes are unique and every edge joins two registered nodes. */
  predicate Valid(g: Graph)
  {
    && Distinct(g.nodes)
    && forall e :: e in g.edges ==> e.from in g.nodes && e.to in g.nodes
  }

  function Empty(): (g: Graph)
    ensures Valid(g) && g.nodes == [] && g.edges == {}
  {
    Graph([], {})
  }

  /** The dependencies of n. */
  function Preds(g: Graph, n: ServiceId): set<ServiceId>
  {
    set e | e in g.edges && e.to == n :: e.from
  }

  /** The dependents of n. */
  function Dependents(g: Graph, n: ServiceId): set<ServiceId>
  {
    set e | e in g.edges && e.from == n :: e.to
  }

  predicate IsRoot(g: Graph, n: ServiceId)
  {
    n in g.nodes && forall e :: e in g.edges ==> e.to != n
  }

  /** Registers n; a node already present is left as it is. */
  function AddNode(g: Graph, n: ServiceId): (r: Graph)
    ensures r.edges == g.edges
    ensures forall m :: m in r.nodes <==> m in g.nodes || m == n
    ensures Valid(g) ==> Valid(r)
  {
    if n in g.nodes then g else Graph(g.nodes + [n], g.edges)
  }

  /** Adding a node never closes a cycle. */
  lemma AddNodeKeepsAcyclic(g: Graph, n: ServiceId)
    requires Valid(g) && IsAcyclic(g)
    ensures IsAcyclic(AddNode(g, n))
  {
    if n !in g.nodes {
      var r := AddNode(g, n);
      AcyclicHasOrder(g);
      var o := TopologicalSort(g).value + [n];
      assert forall m :: m in o <==> m in r.nodes;
      assert IsTopologicalOrder(r, o);
      OrderMeansAcyclic(r, o);
    }
  }

  /** Records that `to` depends on `from`, registering either endpoint that is new. */
  function AddEdge(g: Graph, from: ServiceId, to: ServiceId): (r: Graph)
    ensures r.edges == g.edges + {Edge(from, to)}
    ensures forall m :: m in r.nodes <==> m in g.nodes || m == from || m == to
    ensures Valid(g) ==> Valid(r)
    ensures forall n :: Preds(r, n) == if n == to then Preds(g, n) + {from} else Preds(g, n)
    ensures forall n :: Dependents(r, n) == if n == from then Dependents(g, n) + {to} else Dependents(g, n)
  {
    var g' := AddNode(AddNode(g, from), to);
    Graph(g'.nodes, g'.edges + {Edge(from, to)})
  }

  // ---------------------------------------------------------------------------------------
  // Orders

  /** Every edge of g goes forward in o; in particular no node depends on itself. */
  ghost predicate RespectsEdges(g: Graph, o: seq<ServiceId>)
  {
    forall i, j :: 0 <= i < |o| && 0 <= j < |o| && Edge(o[i], o[j]) in g.edges ==> i < j
  }

  /** o lists every node of g once, each dependency before its dependents. */
  ghost predicate IsTopologicalOrder(g: Graph, o: seq<ServiceId>)
  {
    && Distinct(o)
    && (forall n :: n in o <==> n in g.nodes)
    && RespectsEdges(g, o)
  }

  /** o lists every node of g once, each dependent before its dependencies. */
  ghost predicate IsShutdownOrder(g: Graph, o: seq<ServiceId>)
  {
    && Distinct(o)
    && (forall n :: n in o <==> n in g.nodes)
    && forall i, j :: 0 <= i < |o| && 0 <= j < |o| && Edge(o[i], o[j]) in g.edges ==> j < i
  }

  /** Some edge into n starts at a node of rest. */
  predicate HasPredIn(g: Graph, n: ServiceId, rest: seq<ServiceId>)
  {
    exists e :: e in g.edges && e.to == n && e.from in rest
  }

  /** The first position at or after k of a node of rest without a dependency in rest. */
  function FirstSource(g: Graph, rest: seq<ServiceId>, k: nat): (r: Option<nat>)
    requires k <= |rest|
    ensures r.Some? ==> k <= r.value < |rest| && !HasPredIn(g, rest[r.value], rest)
    ensures r.None? ==> forall i {:trigger HasPredIn(g, rest[i], rest)} :: k <= i < |rest| ==> HasPredIn(g, rest[i], rest)
    decreases |rest| - k
  {
    if k == |rest| then None
    else if !HasPredIn(g, rest[k], rest) then Some(k)
    else FirstSource(g, rest, k + 1)
  }

  function RemoveAt(s: seq<ServiceId>, i: nat): (r: seq<ServiceId>)
    requires i < |s|
    ensures |r| == |s| - 1
    ensures forall k :: 0 <= k < i ==> r[k] == s[k]
    ensures forall k :: i <= k < |r| ==> r[k] == s[k + 1]
  {
    s[..i] + s[i + 1..]
  }

  /** Taking out one position of a list without repetitions takes out exactly that node. */
  lemma RemoveAtDistinct(s: seq<ServiceId>, i: nat)
    requires i < |s| && Distinct(s)
    ensures Distinct(RemoveAt(s, i))
    ensures forall n :: n in RemoveAt(s, i) <==> n in s && n != s[i]
  {
    var r := RemoveAt(s, i);
    forall a, b | 0 <= a < b < |r| ensures r[a] != r[b] {
      var a' := if a < i then a else a + 1;
      var b' := if b < i then b else b + 1;
      assert r[a] == s[a'] && r[b] == s[b'];
    }
    forall n | n in s && n != s[i] ensures n in r {
      var k :| 0 <= k < |s| && s[k] == n;
      if k < i { assert r[k] == n; } else { assert r[k - 1] == n; }
    }
    forall n | n in r ensures n in s && n != s[i] {
      var k :| 0 <= k < |r| && r[k] == n;
      if k < i { assert s[k] == n; } else { assert s[k + 1] == n; }
    }
  }

  /** Takes out, one at a time, the first remaining node without a remaining dependency. */
  function Peel(g: Graph, rest: seq<ServiceId>): Option<seq<ServiceId>>
    decreases |rest|
  {
    if rest == [] then Some([])
    else
      var first := FirstSource(g, rest, 0);
      if first.None? then None
      else
        var tail := Peel(g, RemoveAt(rest, first.value));
        if tail.None? then None else Some([rest[first.value]] + tail.value)
  }

  function TopologicalSort(g: Graph): Option<seq<ServiceId>>
  {
    Peel(g, g.nodes)
  }

  predicate IsAcyclic(g: Graph)
  {
    TopologicalSort(g).Some?
  }

  function Reverse(s: seq<ServiceId>): (r: seq<ServiceId>)
  {
    seq(|s|, i requires 0 <= i < |s| => s[|s| - 1 - i])
  }

  /** The order in which services are stopped: every dependent before its dependencies. */
  function ReverseTopologicalSort(g: Graph): (r: seq<ServiceId>)
    requires Valid(g) && IsAcyclic(g)
    ensures IsShutdownOrder(g, r)
  {
    var o := TopologicalSort(g).value;
    AcyclicHasOrder(g);
    var r := Reverse(o);
    assert forall k :: 0 <= k < |r| ==> r[k] == o[|o| - 1 - k];
    assert forall n :: n in r <==> n in o by {
      forall n | n in o ensures n in r {
        var k :| 0 <= k < |o| && o[k] == n;
        assert r[|o| - 1 - k] == n;
      }
    }
    r
  }

  /** The nodes of ns without a dependency, in their order in ns. */
  function RootsOf(g: Graph, ns: seq<ServiceId>): (r: seq<ServiceId>)
    ensures forall n :: n in r <==> n in ns && forall e :: e in g.edges ==> e.to != n
    ensures Distinct(ns) ==> Distinct(r)
  {
    if ns == [] then []
    else
      var rest := RootsOf(g, ns[1..]);
      assert forall n :: n in ns <==> n == ns[0] || n in ns[1..];
      assert Distinct(ns) ==> ns[0] !in ns[1..] && Distinct(ns[1..]) by {
        if Distinct(ns) {
          forall k | 0 <= k < |ns[1..]| ensures ns[1..][k] != ns[0] { assert ns[1..][k] == ns[k + 1]; }
          forall a, b | 0 <= a < b < |ns[1..]| ensures ns[1..][a] != ns[1..][b] {
            assert ns[1..][a] == ns[a + 1] && ns[1..][b] == ns[b + 1];
          }
        }
      }
      if forall e :: e in g.edges ==> e.to != ns[0] then [ns[0]] + rest else rest
  }

  /** The services that can be started at once: those without a declared dependency. */
  function Roots(g: Graph): (r: seq<ServiceId>)
    ensures forall n :: n in r <==> IsRoot(g, n)
    ensures Valid(g) ==> Distinct(r)
  {
    RootsOf(g, g.nodes)
  }

  // ---------------------------------------------------------------------------------------
  // Soundness and completeness of the topological sort

  lemma {:induction false} PeelSound(g: Graph, rest: seq<ServiceId>)
    requires Distinct(rest)
    requires Peel(g, rest).Some?
    ensures var o := Peel(g, rest).value;
      Distinct(o) && (forall n :: n in o <==> n in rest) && RespectsEdges(g, o)
    decreases |rest|
  {
    if rest != [] {
      var i := FirstSource(g, rest, 0).value;
      var smaller := RemoveAt(rest, i);
      RemoveAtDistinct(rest, i);
      PeelSound(g, smaller);
      var tail := Peel(g, smaller).value;
      assert Peel(g, rest).value == [rest[i]] + tail;
      PrependSource(g, rest, rest[i], tail);
    }
  }

  /** A node without a dependency among `rest` may go in front of an order of the others. */
  lemma PrependSource(g: Graph, rest: seq<ServiceId>, x: ServiceId, tail: seq<ServiceId>)
    requires x in rest && !HasPredIn(g, x, rest)
    requires Distinct(tail) && RespectsEdges(g, tail)
    requires forall n :: n in tail <==> n in rest && n != x
    ensures var o := [x] + tail;
      Distinct(o) && (forall n :: n in o <==> n in rest) && RespectsEdges(g, o)
  {
    var o := [x] + tail;
    forall a, b | 0 <= a < |o| && 0 <= b < |o| && Edge(o[a], o[b]) in g.edges
      ensures a < b
    {
      if b == 0 {
        assert false;
      } else if a > 0 {
        assert Edge(tail[a - 1], tail[b - 1]) in g.edges;
      }
    }
    forall a, b | 0 <= a < b < |o| ensures o[a] != o[b] {
      if a == 0 { assert o[b] in tail; } else { assert o[a] == tail[a - 1] && o[b] == tail[b - 1]; }
    }
  }

  /** Every node of s has a dependency inside s. */
  ghost predicate Closed(g: Graph, s: set<ServiceId>)
  {
    forall n {:trigger Preds(g, n)} :: n in s ==> !(Preds(g, n) !! s)
  }

  /** Where Peel gets stuck: the nodes left over, each with a dependency among them. */
  lemma {:induction false} StuckSet(g: Graph, rest: seq<ServiceId>) returns (s: set<ServiceId>)
    requires Peel(g, rest).None?
    ensures s != {} && Closed(g, s)
    ensures forall n :: n in s ==> n in rest
    decreases |rest|
  {
    var first := FirstSource(g, rest, 0);
    if first.None? {
      s := set n | n in rest;
      assert rest[0] in s;
      forall n | n in s ensures !(Preds(g, n) !! s) {
        var k :| 0 <= k < |rest| && rest[k] == n;
        assert HasPredIn(g, rest[k], rest);
        var e :| e in g.edges && e.to == n && e.from in rest;
        assert e.from in Preds(g, n) && e.from in s;
      }
    } else {
      var i := first.value;
      var smaller := RemoveAt(rest, i);
      s := StuckSet(g, smaller);
      forall n | n in s ensures n in rest {
        var k :| 0 <= k < |smaller| && smaller[k] == n;
        if k < i { assert rest[k] == n; } else { assert rest[k + 1] == n; }
      }
    }
  }

  /** No order of a superset of a closed set can put every dependency first. */
  lemma {:induction false} ClosedBlocksOrder(g: Graph, s: set<ServiceId>, o: seq<ServiceId>)
    requires s != {} && Closed(g, s)
    requires forall n :: n in s ==> n in o
    ensures !RespectsEdges(g, o)
    decreases |o|
  {
    var n :| n in s;
    assert o != [];
    if o[0] in s {
      var p :| p in Preds(g, o[0]) && p in s;
      var j :| 0 <= j < |o| && o[j] == p;
      var e :| e in g.edges && e.to == o[0] && e.from == p;
      assert Edge(o[j], o[0]) == e;
    } else {
      forall m | m in s ensures m in o[1..] {
        var k :| 0 <= k < |o| && o[k] == m;
        assert o[1..][k - 1] == m;
      }
      ClosedBlocksOrder(g, s, o[1..]);
      var a, b :| 0 <= a < |o[1..]| && 0 <= b < |o[1..]| && Edge(o[1..][a], o[1..][b]) in g.edges && !(a < b);
      assert Edge(o[a + 1], o[b + 1]) in g.edges;
    }
  }

  /** The sort succeeds on an acyclic graph and its result is a topological order. */
  lemma AcyclicHasOrder(g: Graph)
    requires Valid(g) && IsAcyclic(g)
    ensures IsTopologicalOrder(g, TopologicalSort(g).value)
  {
    PeelSound(g, g.nodes);
  }

  /** A graph that has a topological order is acyclic. */
  lemma OrderMeansAcyclic(g: Graph, o: seq<ServiceId>)
    requires IsTopologicalOrder(g, o)
    ensures IsAcyclic(g)
  {
    if !IsAcyclic(g) {
      var s := StuckSet(g, g.nodes);
      ClosedBlocksOrder(g, s, o);
    }
  }

  /** Two services that depend on each other (or one that depends on itself) form a cycle. */
  lemma MutualDependencyIsCycle(g: Graph, a: ServiceId, b: ServiceId)
    requires Valid(g)
    requires Edge(a, b) in g.edges && Edge(b, a) in g.edges
    ensures !IsAcyclic(g)
  {
    if IsAcyclic(g) {
      AcyclicHasOrder(g);
      assert false;
    }
  }

  /**
   * Every non-empty set of nodes of an acyclic graph has a member none of whose dependencies
   * is in the set: there is always something that can go next.
   */
  lemma MinimalMember(g: Graph, s: set<ServiceId>) returns (x: ServiceId)
    requires Valid(g) && IsAcyclic(g)
    requires s != {} && forall n :: n in s ==> n in g.nodes
    ensures x in s && Preds(g, x) !! s
  {
    if Closed(g, s) {
      AcyclicHasOrder(g);
      ClosedBlocksOrder(g, s, TopologicalSort(g).value);
      assert false;
    }
    x :| x in s && Preds(g, x) !! s;
  }

  /** A non-empty acyclic graph has a root. */
  lemma AcyclicHasRoot(g: Graph)
    requires Valid(g) && IsAcyclic(g) && g.nodes != []
    ensures Roots(g) != []
  {
    var all := set n | n in g.nodes;
    assert g.nodes[0] in all;
    var x := MinimalMember(g, all);
    assert IsRoot(g, x) by {
      forall e | e in g.edges ensures e.to != x {
        assert e.to == x ==> e.from in Preds(g, x);
      }
    }
  }
}
