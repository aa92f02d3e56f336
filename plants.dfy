/**
 * Plant types and plants (plants/models.py): the plant-type graph, in which each type may
 * have a parent type, the `is_above` test that form validation uses to keep that graph
 * free of cycles, and how plant types and plants are written out.
 *
 * The graph is the table of plant types: a type's id is its position in the table, and
 * a type's children are the types whose parent it is, in id order.
 */
module Plants {
  import opened Wrappers
  import opened Decimal

  datatype PlantType = PlantType(commonName: string, latinName: string, parent: Option<nat>)

  datatype Plant = Plant(index: nat, plantType: nat)

  type Graph = seq<PlantType>

  // ---------------------------------------------------------------------------
  // Ancestry
  // ---------------------------------------------------------------------------

  /** One step up: the parent of the type at `o`, if there is such a type and it has one. */
  function Up(g: Graph, o: Option<nat>): Option<nat> {
    if o.Some? && o.value < |g| then g[o.value].parent else None
  }

  /** The `k`-th ancestor of `x`: `x` itself for `k == 0`, then its parent, and so on. */
  function KthParent(g: Graph, x: nat, k: nat): Option<nat> {
    if k == 0 then Some(x) else Up(g, KthParent(g, x, k - 1))
  }

  /** `t` is a strict ancestor of `target`. */
  ghost predicate Above(g: Graph, t: nat, target: nat) {
    exists k :: 1 <= k && KthParent(g, target, k) == Some(t)
  }

  /** `t` is an ancestor of `target` at most `depth` generations up. */
  ghost predicate AboveWithin(g: Graph, t: nat, target: nat, depth: nat) {
    exists k :: 1 <= k <= depth && KthParent(g, target, k) == Some(t)
  }

  /** No type is its own strict ancestor. */
  ghost predicate Acyclic(g: Graph) {
    forall x, k :: 0 <= x < |g| && 1 <= k ==> KthParent(g, x, k) != Some(x)
  }

  /** The ids of the types whose parent is `t`, among the first `n`, in id order. */
  function ChildrenUpTo(g: Graph, t: nat, n: nat): (cs: seq<nat>)
    requires n <= |g|
    ensures forall c :: c in cs <==> 0 <= c < n && g[c].parent == Some(t)
  {
    if n == 0 then []
    else ChildrenUpTo(g, t, n - 1) + (if g[n - 1].parent == Some(t) then [n - 1] else [])
  }

  /** `self.children.all()`: the types whose parent is `t`. */
  function Children(g: Graph, t: nat): (cs: seq<nat>)
    ensures forall c :: c in cs <==> 0 <= c < |g| && g[c].parent == Some(t)
  {
    ChildrenUpTo(g, t, |g|)
  }

  /**
   * Ancestry within `depth` generations, one generation at a time: `t` is above `target`
   * exactly when some child of `t` is `target` or is above it within one generation less.
   */
  lemma AboveWithinStep(g: Graph, t: nat, target: nat, depth: nat)
    requires depth > 0
    ensures AboveWithin(g, t, target, depth) <==>
      exists c :: c in Children(g, t) && (c == target || AboveWithin(g, c, target, depth - 1))
  {
    if AboveWithin(g, t, target, depth) {
      var k :| 1 <= k <= depth && KthParent(g, target, k) == Some(t);
      var c := KthParent(g, target, k - 1);
      assert c.Some? && c.value < |g| && g[c.value].parent == Some(t);
      assert c.value in Children(g, t);
      if k > 1 {
        assert AboveWithin(g, c.value, target, depth - 1);
      }
    }
    if exists c :: c in Children(g, t) && (c == target || AboveWithin(g, c, target, depth - 1)) {
      var c :| c in Children(g, t) && (c == target || AboveWithin(g, c, target, depth - 1));
      if c == target {
        assert KthParent(g, target, 1) == Some(t);
      } else {
        var k :| 1 <= k <= depth - 1 && KthParent(g, target, k) == Some(c);
        assert KthParent(g, target, k + 1) == Some(t);
      }
    }
  }

  /**
   * `is_above` as it evidently means to work: `t` is above `target` when one of its
   * children is `target` or is above it. `depth` bounds the recursion, as Python's
   * recursion limit does; the answer is exact for every ancestor within that many
   * generations.
   */
  method IsAbove(g: Graph, t: nat, target: nat, depth: nat) returns (above: bool)
    ensures above <==> AboveWithin(g, t, target, depth)
    decreases depth
  {
    if depth == 0 {
      return false;
    }
    AboveWithinStep(g, t, target, depth);
    var children := Children(g, t);
    var i := 0;
    while i < |children|
      invariant 0 <= i <= |children|
      invariant forall j :: 0 <= j < i ==> children[j] != target && !AboveWithin(g, children[j], target, depth - 1)
    {
      var child := children[i];
      assert child in children;
      if child == target {
        return true;
      }
      var below := IsAbove(g, child, target, depth - 1);
      if below {
        return true;
      }
      i := i + 1;
    }
    return false;
  }

  /** A type without children is above nothing. */
  lemma NoChildrenAboveNothing(g: Graph, t: nat, target: nat, depth: nat)
    requires Children(g, t) == []
    ensures !AboveWithin(g, t, target, depth)
  {
    if depth > 0 {
      AboveWithinStep(g, t, target, depth);
    }
  }

  /** A type is above each of its children. */
  lemma AboveChild(g: Graph, t: nat, c: nat, depth: nat)
    requires c < |g| && g[c].parent == Some(t) && depth >= 1
    ensures AboveWithin(g, t, c, depth)
  {
    assert KthParent(g, c, 1) == Some(t);
  }

  // ---------------------------------------------------------------------------
  // Chains of ancestors
  // ---------------------------------------------------------------------------

  /** Going up `i` generations and then `m` more is going up `i + m`. */
  lemma {:induction false} KthParentAdd(g: Graph, x: nat, i: nat, m: nat)
    ensures KthParent(g, x, i + m) == (if KthParent(g, x, i).Some? then KthParent(g, KthParent(g, x, i).value, m) else None)
    decreases m
  {
    if m > 0 {
      KthParentAdd(g, x, i, m - 1);
      assert i + m - 1 == i + (m - 1);
    }
  }

  /** Every generation below an existing ancestor is a type of the table. */
  lemma {:induction false} EarlierInTable(g: Graph, x: nat, j: nat, k: nat)
    requires j < k && KthParent(g, x, k).Some?
    ensures KthParent(g, x, j).Some? && KthParent(g, x, j).value < |g|
    decreases k
  {
    if j < k - 1 {
      EarlierInTable(g, x, j, k - 1);
    }
  }

  /** Distinct ids below `n` number at most `n`. */
  lemma {:induction false} DistinctBelow(s: seq<nat>, n: nat)
    requires forall i :: 0 <= i < |s| ==> s[i] < n
    requires forall i, j :: 0 <= i < j < |s| ==> s[i] != s[j]
    ensures |s| <= n
    decreases n
  {
    if s != [] {
      var rest := s[1..];
      if s[0] == n - 1 {
        assert forall i :: 0 <= i < |rest| ==> rest[i] != n - 1 by {
          forall i | 0 <= i < |rest| ensures rest[i] != n - 1 {
            assert rest[i] == s[i + 1];
          }
        }
        DistinctBelow(rest, n - 1);
      } else {
        var moved := seq(|rest|, i requires 0 <= i < |rest| => if rest[i] == n - 1 then s[0] else rest[i]);
        forall i, j | 0 <= i < j < |moved| ensures moved[i] != moved[j] {
          assert rest[i] == s[i + 1] && rest[j] == s[j + 1];
        }
        forall i | 0 <= i < |moved| ensures moved[i] < n - 1 {
          assert rest[i] == s[i + 1];
        }
        DistinctBelow(moved, n - 1);
      }
    }
  }

  /** In an acyclic table, a chain of ancestors never comes back to a type it passed. */
  lemma NoRepeat(g: Graph, x: nat, i: nat, j: nat)
    requires Acyclic(g) && i < j && KthParent(g, x, i).Some? && KthParent(g, x, i).value < |g|
    ensures KthParent(g, x, j) != KthParent(g, x, i)
  {
    KthParentAdd(g, x, i, j - i);
  }

  /** In an acyclic table, no chain of ancestors is longer than the table. */
  lemma ChainBound(g: Graph, x: nat, k: nat)
    requires Acyclic(g) && KthParent(g, x, k).Some?
    ensures k <= |g|
  {
    forall j | 0 <= j < k ensures KthParent(g, x, j).Some? && KthParent(g, x, j).value < |g| {
      EarlierInTable(g, x, j, k);
    }
    var chain := seq(k, j requires 0 <= j < k && KthParent(g, x, j).Some? => KthParent(g, x, j).value);
    forall i, j | 0 <= i < j < k ensures chain[i] != chain[j] {
      NoRepeat(g, x, i, j);
    }
    DistinctBelow(chain, |g|);
  }

  /** In an acyclic table, looking `|g|` generations up finds every ancestor. */
  lemma DepthSuffices(g: Graph, t: nat, target: nat, depth: nat)
    requires Acyclic(g) && depth >= |g|
    ensures AboveWithin(g, t, target, depth) <==> Above(g, t, target)
  {
    if Above(g, t, target) {
      var k :| 1 <= k && KthParent(g, target, k) == Some(t);
      ChainBound(g, target, k);
    }
  }

  /** Being above is transitive. */
  lemma AboveTransitive(g: Graph, a: nat, b: nat, c: nat)
    requires Above(g, a, b) && Above(g, b, c)
    ensures Above(g, a, c)
  {
    var k1 :| 1 <= k1 && KthParent(g, b, k1) == Some(a);
    var k2 :| 1 <= k2 && KthParent(g, c, k2) == Some(b);
    KthParentAdd(g, c, k2, k1);
  }

  /** Ancestry within a bound is ancestry. */
  lemma AboveWithinIsAbove(g: Graph, t: nat, target: nat, depth: nat)
    ensures AboveWithin(g, t, target, depth) ==> Above(g, t, target)
  {
    if AboveWithin(g, t, target, depth) {
      var k :| 1 <= k <= depth && KthParent(g, target, k) == Some(t);
      assert 1 <= k && KthParent(g, target, k) == Some(t);
    }
  }

  /**
   * In an acyclic table the child scan never finds a type above itself, whatever the
   * bound, so `IsAbove(g, t, t, depth)` answers false.
   */
  lemma NotAboveSelf(g: Graph, t: nat, depth: nat)
    requires Acyclic(g) && t < |g|
    ensures !AboveWithin(g, t, t, depth)
  {
    AboveWithinIsAbove(g, t, t, depth);
  }

  // ---------------------------------------------------------------------------
  // The cycle guard
  // ---------------------------------------------------------------------------

  /** The table after `t`'s parent is set to `p`. */
  function Reparent(g: Graph, t: nat, p: nat): (g': Graph)
    requires t < |g|
    ensures |g'| == |g| && g'[t].parent == Some(p)
    ensures forall y :: 0 <= y < |g| && y != t ==> g'[y] == g[y]
  {
    g[t := g[t].(parent := Some(p))]
  }

  /** A chain that does not pass through `t` is the same after `t` is reparented. */
  lemma {:induction false} AvoidingChain(g: Graph, t: nat, p: nat, x: nat, k: nat)
    requires t < |g|
    requires forall j :: 0 <= j < k ==> KthParent(Reparent(g, t, p), x, j) != Some(t)
    ensures KthParent(Reparent(g, t, p), x, k) == KthParent(g, x, k)
    decreases k
  {
    if k > 0 {
      AvoidingChain(g, t, p, x, k - 1);
    }
  }

  /** The first generation at which a chain reaches `t`. */
  lemma {:induction false} FirstHit(g: Graph, x: nat, t: nat, k: nat) returns (i: nat)
    requires KthParent(g, x, k) == Some(t)
    ensures i <= k && KthParent(g, x, i) == Some(t)
    ensures forall j :: 0 <= j < i ==> KthParent(g, x, j) != Some(t)
    decreases k
  {
    if exists j :: 0 <= j < k && KthParent(g, x, j) == Some(t) {
      var j :| 0 <= j < k && KthParent(g, x, j) == Some(t);
      i := FirstHit(g, x, t, j);
    } else {
      i := k;
    }
  }

  /** After the reparenting, no chain from `p` comes back to `t` unless `t` was above `p`. */
  lemma NotBackToT(g: Graph, t: nat, p: nat, m: nat)
    requires t < |g| && p != t && !Above(g, t, p)
    ensures KthParent(Reparent(g, t, p), p, m) != Some(t)
  {
    if KthParent(Reparent(g, t, p), p, m) == Some(t) {
      var i := FirstHit(Reparent(g, t, p), p, t, m);
      AvoidingChain(g, t, p, p, i);
    }
  }

  /**
   * A chain of the reparented table that passes through `t` does not close a cycle: going
   * round it from `t` would lead through `p` back to `t`.
   */
  lemma NoCycleThroughT(g: Graph, t: nat, p: nat, x: nat, j: nat, k: nat)
    requires t < |g| && p != t && !Above(g, t, p)
    requires 1 <= k && j < k && KthParent(Reparent(g, t, p), x, j) == Some(t)
    ensures KthParent(Reparent(g, t, p), x, k) != Some(x)
  {
    var g' := Reparent(g, t, p);
    KthParentAdd(g', x, j, k);
    KthParentAdd(g', x, k, j);
    KthParentAdd(g', t, 1, k - 1);
    NotBackToT(g, t, p, k - 1);
  }

  /**
   * The purpose of `is_above`: in an acyclic table, giving `t` the parent `p` keeps the
   * table acyclic whenever `p` is another type and `t` is not above `p`.
   */
  lemma CycleGuard(g: Graph, t: nat, p: nat)
    requires Acyclic(g) && t < |g| && p != t && !Above(g, t, p)
    ensures Acyclic(Reparent(g, t, p))
  {
    var g' := Reparent(g, t, p);
    forall x, k | 0 <= x < |g'| && 1 <= k
      ensures KthParent(g', x, k) != Some(x)
    {
      if exists j :: 0 <= j < k && KthParent(g', x, j) == Some(t) {
        var j :| 0 <= j < k && KthParent(g', x, j) == Some(t);
        NoCycleThroughT(g, t, p, x, j, k);
      } else {
        AvoidingChain(g, t, p, x, k);
      }
    }
  }

  /** Before the chain from `x` reaches `t`, giving `t` a new parent does not change it. */
  lemma {:induction false} ChainAgrees(g: Graph, t: nat, p: nat, x: nat, i: nat)
    requires t < |g|
    requires forall j :: 0 <= j < i ==> KthParent(g, x, j) != Some(t)
    ensures KthParent(Reparent(g, t, p), x, i) == KthParent(g, x, i)
    decreases i
  {
    if i > 0 {
      ChainAgrees(g, t, p, x, i - 1);
    }
  }

  /**
   * The converse of `CycleGuard`: giving `t` itself or one of its descendants as parent
   * always closes a cycle, so the guard refuses exactly the parents that must be refused.
   */
  lemma CycleGuardNecessary(g: Graph, t: nat, p: nat)
    requires t < |g|
    requires p == t || Above(g, t, p)
    ensures !Acyclic(Reparent(g, t, p))
  {
    var g' := Reparent(g, t, p);
    if p == t {
      assert KthParent(g', t, 1) == Some(t);
    } else {
      var k :| 1 <= k && KthParent(g, p, k) == Some(t);
      var i := FirstHit(g, p, t, k);
      ChainAgrees(g, t, p, p, i);
      KthParentAdd(g', t, 1, i);
      assert KthParent(g', t, 1 + i) == Some(t);
    }
  }

  // ---------------------------------------------------------------------------
  // How `is_above` is written
  // ---------------------------------------------------------------------------

  /**
   * `is_above` as written iterates `self.children`, which is the related manager rather
   * than its query set; iterating a manager raises `TypeError` whatever the graph.
   */
  function IsAboveAsWritten(g: Graph, t: nat, target: nat): (r: Result<bool, string>)
    ensures r == Failure("TypeError")
  {
    Failure("TypeError")
  }

  /** A parent and its child: the parent is above the child, but the as-written test raises. */
  lemma IsAboveAsWrittenRaises(parent: PlantType, child: PlantType)
    requires child.parent == Some(0)
    ensures AboveWithin([parent, child], 0, 1, 1)
    ensures IsAboveAsWritten([parent, child], 0, 1).Failure?
  {
    assert KthParent([parent, child], 1, 1) == Some(0);
  }

  // ---------------------------------------------------------------------------
  // Names
  // ---------------------------------------------------------------------------

  /** `PlantType.__str__` is the common name. */
  function PlantTypeStr(pt: PlantType): string {
    pt.commonName
  }

  /**
   * `Plant.__str__`: the common name of the plant's type, a space, and the plant's index
   * in decimal, from which the index reads back.
   */
  function PlantStr(g: Graph, p: Plant): (r: string)
    requires p.plantType < |g|
    ensures |r| > |PlantTypeStr(g[p.plantType])| && r[..|PlantTypeStr(g[p.plantType])|] == PlantTypeStr(g[p.plantType])
    ensures r[|PlantTypeStr(g[p.plantType])|] == ' '
    ensures forall i :: |PlantTypeStr(g[p.plantType])| < i < |r| ==> IsDigit(r[i])
    ensures ParseDecimal(r[|PlantTypeStr(g[p.plantType])| + 1..]) == p.index
  {
    var name := PlantTypeStr(g[p.plantType]);
    var r := name + " " + DecimalString(p.index);
    assert r[|name| + 1..] == DecimalString(p.index);
    ParseDecimalString(p.index);
    r
  }

  /**
   * Among plants whose types are written the same (`PlantType.__str__`), the written
   * plants are the same exactly when their indices are.
   */
  lemma PlantStrIdentifies(g: Graph, p: Plant, q: Plant)
    requires p.plantType < |g| && q.plantType < |g|
    requires PlantTypeStr(g[p.plantType]) == PlantTypeStr(g[q.plantType])
    ensures PlantStr(g, p) == PlantStr(g, q) <==> p.index == q.index
  {
    var n := |PlantTypeStr(g[p.plantType])|;
    if PlantStr(g, p) == PlantStr(g, q) {
      assert PlantStr(g, p)[n + 1..] == PlantStr(g, q)[n + 1..];
    }
  }
}
