/** Prerequisites between challenges: load_prerequisites of backend/src/alpha/services.py, the edits
    that use it, and what acyclicity buys a player. */
module PrerequisiteGraph {
  import opened Basics

  type Id = nat

  /** Each challenge of the event with its prerequisites, in the order they were given. */
  type Graph = map<Id, seq<Id>>

  predicate Closed(g: Graph) {
    forall x, y :: x in g && y in g[x] ==> y in g
  }

  predicate IsPath(g: Graph, p: seq<Id>) {
    && p != []
    && (forall i :: 0 <= i < |p| ==> p[i] in g)
    && (forall i :: 0 <= i < |p| - 1 ==> p[i + 1] in g[p[i]])
  }

  ghost predicate Reaches(g: Graph, x: Id, y: Id) {
    exists p :: IsPath(g, p) && p[0] == x && p[|p| - 1] == y
  }

  ghost predicate Acyclic(g: Graph) {
    forall p :: IsPath(g, p) && |p| >= 2 ==> p[0] != p[|p| - 1]
  }

  // ---------- load_prerequisites ----------

  datatype LoadError = DuplicatePrerequisite | SelfPrerequisite | InvalidPrerequisite | PrerequisiteCycle

  predicate Distinct(ids: seq<Id>) {
    forall i, j :: 0 <= i < j < |ids| ==> ids[i] != ids[j]
  }

  /** What load_prerequisites answers; `target` is the challenge being edited, absent on creation. */
  ghost function LoadPrerequisites(g: Graph, ids: seq<Id>, target: Option<Id>): Result<seq<Id>, LoadError> {
    if !Distinct(ids) then Failure(DuplicatePrerequisite)
    else if target.Some? && target.value in ids then Failure(SelfPrerequisite)
    else if ids == [] then Success([])
    else if exists i :: i in ids && i !in g then Failure(InvalidPrerequisite)
    else if target.Some? && exists i :: i in ids && Reaches(g, i, target.value) then Failure(PrerequisiteCycle)
    else Success(ids)
  }

  /** One run of the recursive reaches_target with the `seen` set its calls share and mutate. */
  class Search {
    const g: Graph
    const target: Id
    var seen: set<Id>

    constructor (g: Graph, target: Id)
      ensures this.g == g && this.target == target && seen == {}
    {
      this.g := g;
      this.target := target;
      seen := {};
    }

    /** Every node of `finished` has been left behind: it is not the target, and its prerequisites were all seen. */
    ghost predicate Explored(finished: set<Id>)
      reads this
      requires finished <= g.Keys
    {
      forall x :: x in finished ==> x != target && forall y :: y in g[x] ==> y in seen
    }

    method ReachesTarget(node: Id) returns (found: bool)
      requires Closed(g) && node in g && seen <= g.Keys
      modifies this
      ensures old(seen) <= seen <= g.Keys
      ensures found ==> Reaches(g, node, target)
      ensures !found ==> node in seen && node != target && Explored(seen - old(seen))
      decreases g.Keys - seen
    {
      if node == target {
        assert IsPath(g, [node]);
        return true;
      }
      if node in seen {
        return false;
      }
      ghost var before := seen;
      seen := seen + {node};
      var i := 0;
      while i < |g[node]|
        invariant 0 <= i <= |g[node]|
        invariant before + {node} <= seen <= g.Keys
        invariant Explored(seen - before - {node})
        invariant forall j :: 0 <= j < i ==> g[node][j] in seen
        decreases |g[node]| - i
      {
        ghost var entry := seen;
        var item := g[node][i];
        var sub := ReachesTarget(item);
        if sub {
          ReachesByEdge(g, node, item, target);
          return true;
        }
        assert seen - before - {node} == (seen - entry) + (entry - before - {node});
        i := i + 1;
      }
      return false;
    }
  }

  method LoadPrerequisitesFor(g: Graph, ids: seq<Id>, target: Option<Id>) returns (r: Result<seq<Id>, LoadError>)
    requires Closed(g)
    ensures r == LoadPrerequisites(g, ids, target)
  {
    if !Distinct(ids) {
      return Failure(DuplicatePrerequisite);
    }
    if target.Some? && target.value in ids {
      return Failure(SelfPrerequisite);
    }
    if ids == [] {
      return Success([]);
    }
    if exists i :: i in ids && i !in g {
      return Failure(InvalidPrerequisite);
    }
    if target.Some? {
      var k := 0;
      while k < |ids|
        invariant 0 <= k <= |ids|
        invariant forall j :: 0 <= j < k ==> !Reaches(g, ids[j], target.value)
      {
        var search := new Search(g, target.value);
        var found := search.ReachesTarget(ids[k]);
        if found {
          return Failure(PrerequisiteCycle);
        }
        ExploredBlocks(g, search.seen, ids[k], target.value);
        k := k + 1;
      }
    }
    return Success(ids);
  }

  lemma ReachesByEdge(g: Graph, x: Id, y: Id, z: Id)
    requires x in g && y in g[x] && Reaches(g, y, z)
    ensures Reaches(g, x, z)
  {
    var p :| IsPath(g, p) && p[0] == y && p[|p| - 1] == z;
    var q := [x] + p;
    assert forall i :: 0 < i < |q| ==> q[i] == p[i - 1];
    assert IsPath(g, q) && q[0] == x && q[|q| - 1] == z;
  }

  /** A set closed under prerequisites cannot be left. */
  lemma ExploredBlocks(g: Graph, seen: set<Id>, node: Id, target: Id)
    requires seen <= g.Keys && node in seen && target !in seen
    requires forall x, y :: x in seen && y in g[x] ==> y in seen
    ensures !Reaches(g, node, target)
  {
    forall p | IsPath(g, p) && p[0] == node ensures p[|p| - 1] in seen {
      PathStays(g, seen, p);
    }
  }

  lemma {:induction false} PathStays(g: Graph, seen: set<Id>, p: seq<Id>)
    requires seen <= g.Keys && IsPath(g, p) && p[0] in seen
    requires forall x, y :: x in seen && y in g[x] ==> y in seen
    ensures p[|p| - 1] in seen
    decreases |p|
  {
    if |p| > 1 {
      assert p[1] in g[p[0]];
      PathTail(g, p);
      PathStays(g, seen, p[1..]);
    }
  }

  lemma PathTail(g: Graph, p: seq<Id>)
    requires IsPath(g, p) && |p| > 1
    ensures IsPath(g, p[1..])
  {
    var q := p[1..];
    assert forall i :: 0 <= i < |q| ==> q[i] == p[i + 1];
  }

  // ---------- the edits keep the graph acyclic, and the refusal is exact ----------

  /** Two graphs that differ only in the prerequisites of c. */
  predicate AgreeOff(g: Graph, h: Graph, c: Id) {
    g.Keys == h.Keys && forall x :: x in g && x != c ==> g[x] == h[x]
  }

  /** Reaching c never uses the prerequisites of c. */
  lemma {:induction false} ReachIgnoresTarget(g: Graph, h: Graph, c: Id, p: seq<Id>)
    requires AgreeOff(g, h, c) && IsPath(g, p) && p[|p| - 1] == c
    ensures Reaches(h, p[0], c)
    decreases |p|
  {
    if p[0] == c {
      assert IsPath(h, [c]);
    } else {
      assert p[1] in g[p[0]];
      PathTail(g, p);
      ReachIgnoresTarget(g, h, c, p[1..]);
      ReachesByEdge(h, p[0], p[1], c);
    }
  }

  /** A cycle through p[i], read from there on. */
  lemma RotateCycle(g: Graph, p: seq<Id>, i: nat)
    requires IsPath(g, p) && |p| >= 2 && p[0] == p[|p| - 1] && i < |p| - 1
    ensures IsPath(g, p[i..] + p[1..i + 1])
  {
    var q := p[i..] + p[1..i + 1];
    forall k | 0 <= k < |q| - 1 ensures q[k + 1] in g[q[k]] {
      if k < |p| - i - 1 {
        assert q[k] == p[i + k] && q[k + 1] == p[i + k + 1];
      } else {
        assert q[k + 1] == p[1 + k - (|p| - i - 1)];
      }
    }
  }

  /** Replacing the prerequisites of c closes a cycle exactly when one of the new ones already reaches c. */
  lemma EditClosesCycle(g: Graph, c: Id, ids: seq<Id>)
    requires Acyclic(g) && Closed(g) && c in g && forall i :: i in ids ==> i in g
    ensures Acyclic(g[c := ids]) <==> !exists i :: i in ids && Reaches(g, i, c)
  {
    var h := g[c := ids];
    if i :| i in ids && Reaches(g, i, c) {
      var p :| IsPath(g, p) && p[0] == i && p[|p| - 1] == c;
      ReachIgnoresTarget(g, h, c, p);
      ReachesByEdge(h, c, i, c);
      var q :| IsPath(h, q) && q[0] == i && q[|q| - 1] == c;
      var r := [c] + q;
      assert forall k :: 0 < k < |r| ==> r[k] == q[k - 1];
      assert IsPath(h, r) && |r| >= 2 && r[0] == r[|r| - 1];
    } else {
      forall p | IsPath(h, p) && |p| >= 2 ensures p[0] != p[|p| - 1] {
        if p[0] == p[|p| - 1] {
          if c in p {
            CycleThrough(g, c, ids, p);
          } else {
            assert forall k :: 0 <= k < |p| ==> p[k] in p;
            assert IsPath(g, p);
          }
        }
      }
    }
  }

  lemma CycleThrough(g: Graph, c: Id, ids: seq<Id>, p: seq<Id>)
    requires c in g && IsPath(g[c := ids], p) && |p| >= 2 && p[0] == p[|p| - 1] && c in p
    ensures exists i :: i in ids && Reaches(g, i, c)
  {
    var h := g[c := ids];
    var k :| 0 <= k < |p| && p[k] == c;
    var i := if k == |p| - 1 then 0 else k;
    RotateCycle(h, p, i);
    var q := p[i..] + p[1..i + 1];
    assert q[0] == c && q[|q| - 1] == c && q[1] in h[q[0]];
    PathTail(h, q);
    ReachIgnoresTarget(h, g, c, q[1..]);
  }

  /** Creating a challenge cannot close a cycle: nothing points at it yet. */
  lemma CreateKeepsAcyclic(g: Graph, c: Id, ids: seq<Id>)
    requires Acyclic(g) && Closed(g) && c !in g && forall i :: i in ids ==> i in g
    ensures Acyclic(g[c := ids]) && Closed(g[c := ids])
  {
    var h := g[c := ids];
    forall p | IsPath(h, p) && |p| >= 2 ensures p[0] != p[|p| - 1] {
      forall k | 1 <= k < |p| ensures p[k] in g {
        assert p[k - 1 + 1] in h[p[k - 1]];
      }
      if p[0] == p[|p| - 1] {
        assert IsPath(g, p);
      }
    }
  }

  function Without(ids: seq<Id>, c: Id): (r: seq<Id>)
    ensures forall x :: x in r <==> x in ids && x != c
  {
    if ids == [] then []
    else if ids[0] == c then Without(ids[1..], c)
    else [ids[0]] + Without(ids[1..], c)
  }

  /** Deleting a challenge takes its links with it, in both directions. */
  function RemoveNode(g: Graph, c: Id): Graph {
    map x | x in g && x != c :: Without(g[x], c)
  }

  lemma DeleteKeepsAcyclic(g: Graph, c: Id)
    requires Acyclic(g) && Closed(g)
    ensures Acyclic(RemoveNode(g, c)) && Closed(RemoveNode(g, c))
  {
    var h := RemoveNode(g, c);
    forall p | IsPath(h, p) && |p| >= 2 ensures p[0] != p[|p| - 1] {
      assert forall k :: 0 <= k < |p| - 1 ==> p[k + 1] in h[p[k]];
      assert IsPath(g, p);
    }
  }

  /** load_prerequisites accepts or reports a cycle exactly as the edited graph would be acyclic or not. */
  lemma LoadIsExact(g: Graph, ids: seq<Id>, c: Id)
    requires Acyclic(g) && Closed(g) && c in g
    requires Distinct(ids) && c !in ids && forall i :: i in ids ==> i in g
    ensures LoadPrerequisites(g, ids, Some(c)) == Failure(PrerequisiteCycle) <==> !Acyclic(g[c := ids])
    ensures LoadPrerequisites(g, ids, Some(c)) == Success(ids) <==> Acyclic(g[c := ids])
  {
    EditClosesCycle(g, c, ids);
  }

  // ---------- no challenge is ever locked out ----------

  /** Every challenge once, each after all of its prerequisites. */
  ghost predicate IsSolvingOrder(g: Graph, order: seq<Id>) {
    && Distinct(order)
    && (forall x :: x in order <==> x in g)
    && (forall k :: 0 <= k < |order| ==> forall y :: y in g[order[k]] ==> y in order[..k])
  }

  lemma {:induction false} Pigeonhole(p: seq<Id>, s: set<Id>)
    requires |p| > |s| && forall i :: 0 <= i < |p| ==> p[i] in s
    ensures exists i, j :: 0 <= i < j < |p| && p[i] == p[j]
    decreases |p|
  {
    var n := |p| - 1;
    if i :| 0 <= i < n && p[i] == p[n] {
    } else {
      Pigeonhole(p[..n], s - {p[n]});
      var i, j :| 0 <= i < j < n && p[..n][i] == p[..n][j];
      assert p[i] == p[j];
    }
  }

  /** A node that still waits for a prerequisite in u. */
  predicate Waits(g: Graph, u: set<Id>, x: Id)
    requires x in g
  {
    exists z :: z in g[x] && z in u
  }

  predicate WalkIn(g: Graph, u: set<Id>, p: seq<Id>) {
    IsPath(g, p) && forall i :: 0 <= i < |p| ==> p[i] in u
  }

  /** Where every node of u waits for another one, walks inside u go on forever. */
  lemma {:induction false} LongWalk(g: Graph, u: set<Id>, x: Id, n: nat) returns (p: seq<Id>)
    requires u <= g.Keys && x in u && forall y :: y in u ==> Waits(g, u, y)
    ensures |p| == n + 1 && WalkIn(g, u, p) && p[0] == x
    decreases n
  {
    if n == 0 {
      p := [x];
    } else {
      assert Waits(g, u, x);
      var z :| z in g[x] && z in u;
      var tail := LongWalk(g, u, z, n - 1);
      p := [x] + tail;
      assert forall i :: 0 < i < |p| ==> p[i] == tail[i - 1];
    }
  }

  lemma SubPath(g: Graph, p: seq<Id>, i: nat, j: nat)
    requires IsPath(g, p) && i < j < |p|
    ensures IsPath(g, p[i..j + 1])
  {
    var q := p[i..j + 1];
    assert forall k :: 0 <= k < |q| ==> q[k] == p[i + k];
  }

  lemma RepeatIsCycle(g: Graph, p: seq<Id>, i: nat, j: nat)
    requires IsPath(g, p) && i < j < |p| && p[i] == p[j]
    ensures !Acyclic(g)
  {
    SubPath(g, p, i, j);
    var q := p[i..j + 1];
    assert IsPath(g, q) && |q| >= 2 && q[0] == q[|q| - 1];
  }

  lemma AllWaitingIsCyclic(g: Graph, u: set<Id>, x: Id)
    requires u <= g.Keys && x in u && forall y :: y in u ==> Waits(g, u, y)
    ensures !Acyclic(g)
  {
    var p := LongWalk(g, u, x, |u|);
    Pigeonhole(p, u);
    var i, j :| 0 <= i < j < |p| && p[i] == p[j];
    RepeatIsCycle(g, p, i, j);
  }

  lemma ReadyExists(g: Graph, u: set<Id>)
    requires Acyclic(g) && Closed(g) && u <= g.Keys && u != {}
    ensures exists x :: x in u && !Waits(g, u, x)
  {
    var x :| x in u;
    if forall y :: y in u ==> Waits(g, u, y) {
      AllWaitingIsCyclic(g, u, x);
    }
  }

  lemma {:induction false} ExtendOrder(g: Graph, done: seq<Id>)
    requires Acyclic(g) && Closed(g) && Distinct(done)
    requires forall x :: x in done ==> x in g
    requires forall k :: 0 <= k < |done| ==> forall y :: y in g[done[k]] ==> y in done[..k]
    ensures exists order :: IsSolvingOrder(g, order)
    decreases g.Keys - set x | x in done
  {
    var placed := set x | x in done;
    var u := g.Keys - placed;
    if u == {} {
      assert forall x :: x in g ==> x !in u;
      assert IsSolvingOrder(g, done);
    } else {
      ReadyExists(g, u);
      var x :| x in u && !Waits(g, u, x);
      assert forall y :: y in g[x] ==> y in g && y !in u;
      var next := done + [x];
      assert x in next;
      assert forall k :: 0 <= k < |done| ==> next[..k] == done[..k];
      assert next[..|done|] == done;
      ExtendOrder(g, next);
    }
  }

  lemma {:induction false} OrderDescends(g: Graph, order: seq<Id>, p: seq<Id>, a: nat, b: nat)
    requires IsSolvingOrder(g, order) && IsPath(g, p)
    requires a < |order| && order[a] == p[0] && b < |order| && order[b] == p[|p| - 1]
    ensures if |p| == 1 then a == b else b < a
    decreases |p|
  {
    if |p| > 1 {
      assert p[1] in g[p[0]] && p[1] in order[..a];
      var k :| 0 <= k < a && order[k] == p[1];
      PathTail(g, p);
      OrderDescends(g, order, p[1..], k, b);
    }
  }

  /** The graph is acyclic exactly when the challenges can be worked through one after another. */
  lemma AcyclicIffSolvable(g: Graph)
    requires Closed(g)
    ensures Acyclic(g) <==> exists order :: IsSolvingOrder(g, order)
  {
    if Acyclic(g) {
      ExtendOrder(g, []);
    }
    if order :| IsSolvingOrder(g, order) {
      forall p | IsPath(g, p) && |p| >= 2 ensures p[0] != p[|p| - 1] {
        assert p[0] in order && p[|p| - 1] in order;
        var a :| 0 <= a < |order| && order[a] == p[0];
        var b :| 0 <= b < |order| && order[b] == p[|p| - 1];
        OrderDescends(g, order, p, a, b);
      }
    }
  }
}
