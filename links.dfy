/**
 * The account hierarchy as parent links. An account table is a forest
 * when walking up the parent links from any account reaches a root after
 * finitely many steps; the walk is what `isDescendantOf` does, and the
 * set of accounts below an account is what the recursive operations on
 * the tree descend through.
 */
module Links {
  import opened Wrappers
  import opened Uuid

  /** The parent link of every account. */
  type Parents = map<Id, Option<Id>>

  /** One step up: the parent of `x`, or `None` above a root or an unknown id. */
  function Step(p: Parents, x: Option<Id>): Option<Id> {
    if x.Some? && x.value in p then p[x.value] else None
  }

  /** Where `k` steps up from `x` lead. */
  function Up(p: Parents, x: Option<Id>, k: nat): Option<Id>
    decreases k
  {
    if k == 0 then x else Up(p, Step(p, x), k - 1)
  }

  /** Every walk up reaches the top: no account is its own ancestor. */
  ghost predicate Acyclic(p: Parents) {
    forall x :: x in p ==> exists k: nat :: Up(p, Some(x), k) == None
  }

  /** `anc` is `x` or one of its ancestors. */
  ghost predicate Reaches(p: Parents, x: Id, anc: Id) {
    exists k: nat :: Up(p, Some(x), k) == Some(anc)
  }

  /** The accounts strictly below `x`. */
  ghost function Below(p: Parents, x: Id): set<Id> {
    set y | y in p && y != x && Reaches(p, y, x)
  }

  lemma {:induction false} UpAdd(p: Parents, x: Option<Id>, a: nat, b: nat)
    ensures Up(p, x, a + b) == Up(p, Up(p, x, a), b)
    decreases a
  {
    if a > 0 {
      UpAdd(p, Step(p, x), a - 1, b);
    }
  }

  lemma {:induction false} UpNone(p: Parents, k: nat)
    ensures Up(p, None, k) == None
  {
    if k > 0 {
      UpNone(p, k - 1);
    }
  }

  /** Once a walk has reached the top it stays there. */
  lemma UpPastNone(p: Parents, x: Option<Id>, a: nat, b: nat)
    requires a <= b && Up(p, x, a) == None
    ensures Up(p, x, b) == None
  {
    UpAdd(p, x, a, b - a);
    UpNone(p, b - a);
  }

  /** A walk that comes back to its start never reaches the top. */
  lemma {:induction false} CycleNeverEnds(p: Parents, x: Id, n: nat, k: nat)
    requires n > 0 && Up(p, Some(x), n) == Some(x)
    ensures Up(p, Some(x), k) != None
    decreases k
  {
    if k < n {
      if Up(p, Some(x), k) == None {
        UpPastNone(p, Some(x), k, n);
      }
    } else {
      UpAdd(p, Some(x), n, k - n);
      CycleNeverEnds(p, x, n, k - n);
    }
  }

  /** In a forest, nothing is strictly below itself. */
  lemma NoCycle(p: Parents, x: Id, n: nat)
    requires Acyclic(p) && x in p && n > 0
    ensures Up(p, Some(x), n) != Some(x)
  {
    if Up(p, Some(x), n) == Some(x) {
      var k: nat :| Up(p, Some(x), k) == None;
      CycleNeverEnds(p, x, n, k);
    }
  }

  /** A child's descendants are among its parent's, and the child itself is not among its own. */
  lemma BelowChild(p: Parents, x: Id, c: Id)
    requires Acyclic(p) && c in p && p[c] == Some(x)
    ensures Below(p, c) < Below(p, x)
    ensures |Below(p, c)| < |Below(p, x)|
    ensures c in Below(p, x)
  {
    assert Up(p, Some(c), 1) == Some(x);
    if c == x {
      NoCycle(p, c, 1);
    }
    assert c in Below(p, x);
    forall y | y in Below(p, c)
      ensures y in Below(p, x)
    {
      var k: nat :| Up(p, Some(y), k) == Some(c);
      UpAdd(p, Some(y), k, 1);
      assert Up(p, Some(y), k + 1) == Some(x);
      if y == x {
        NoCycle(p, x, k + 1);
      }
    }
    var rest := Below(p, x) - Below(p, c);
    assert c in rest;
    assert Below(p, x) == Below(p, c) + rest;
  }

  /** `Reaches` follows the walk: it holds at the start or one step up. */
  lemma ReachesStep(p: Parents, x: Id, anc: Id)
    ensures Reaches(p, x, anc) <==> x == anc || (Step(p, Some(x)).Some? && Reaches(p, Step(p, Some(x)).value, anc))
  {
    if Reaches(p, x, anc) && x != anc {
      var k: nat :| Up(p, Some(x), k) == Some(anc);
      assert k > 0;
      assert Up(p, Step(p, Some(x)), k - 1) == Some(anc);
      if Step(p, Some(x)).None? {
        UpNone(p, k - 1);
      }
    }
    if x != anc && Step(p, Some(x)).Some? && Reaches(p, Step(p, Some(x)).value, anc) {
      var k: nat :| Up(p, Step(p, Some(x)), k) == Some(anc);
      assert Up(p, Some(x), k + 1) == Some(anc);
    }
    if x == anc {
      assert Up(p, Some(x), 0) == Some(anc);
    }
  }

  // ------------------------------------------------------------ updates

  /** Every parent link points at an account of the table. */
  ghost predicate Closed(p: Parents) {
    forall z :: z in p && p[z].Some? ==> p[z].value in p
  }

  /**
   * Two link maps that agree everywhere except at `diff` walk alike from
   * `x` for as long as the walk stays away from `diff`.
   */
  lemma {:induction false} AgreeWalk(p: Parents, q: Parents, diff: Id, x: Option<Id>, j: nat)
    requires forall z :: z != diff ==> (z in p <==> z in q) && (z in p ==> p[z] == q[z])
    requires forall i: nat :: i < j ==> Up(p, x, i) != Some(diff)
    ensures Up(q, x, j) == Up(p, x, j)
    decreases j
  {
    if j > 0 {
      assert Up(p, x, 0) != Some(diff);
      assert Step(q, x) == Step(p, x);
      forall i: nat | i < j - 1
        ensures Up(p, Step(p, x), i) != Some(diff)
      {
        assert Up(p, x, i + 1) == Up(p, Step(p, x), i);
      }
      AgreeWalk(p, q, diff, Step(p, x), j - 1);
    }
  }

  /** In a closed table a walk from one of its ids only visits its ids. */
  lemma {:induction false} WalkStaysIn(p: Parents, x: Id, i: nat)
    requires Closed(p) && x in p
    ensures Up(p, Some(x), i).None? || Up(p, Some(x), i).value in p
    decreases i
  {
    if i > 0 {
      if Step(p, Some(x)).None? {
        UpNone(p, i - 1);
      } else {
        WalkStaysIn(p, Step(p, Some(x)).value, i - 1);
      }
    }
  }

  /** A walk that ends in a forest ends in any table with fewer ids and the same links. */
  lemma {:induction false} SubWalk(p: Parents, q: Parents, x: Option<Id>, k: nat)
    requires forall z :: z in q ==> z in p && q[z] == p[z]
    requires Up(p, x, k) == None
    ensures Up(q, x, k) == None
    decreases k
  {
    if k > 0 {
      if x.Some? && x.value in q {
        SubWalk(p, q, Step(p, x), k - 1);
      } else {
        UpNone(q, k - 1);
      }
    }
  }

  /** A new leaf under an existing account, or a new root, keeps the forest. */
  lemma InsertLeaf(p: Parents, x: Id, parent: Option<Id>)
    requires Acyclic(p) && Closed(p) && x !in p
    requires parent.Some? ==> parent.value in p
    ensures Acyclic(p[x := parent])
  {
    var q := p[x := parent];
    forall y | y in q
      ensures exists k: nat :: Up(q, Some(y), k) == None
    {
      if y == x {
        if parent.None? {
          assert Up(q, Some(y), 1) == None;
        } else {
          var k := OldWalkEnds(p, q, x, parent.value);
          UpAdd(q, Some(y), 1, k);
          assert Up(q, Some(y), 1 + k) == None;
        }
      } else {
        var k := OldWalkEnds(p, q, x, y);
      }
    }
  }

  lemma OldWalkEnds(p: Parents, q: Parents, x: Id, y: Id) returns (k: nat)
    requires Acyclic(p) && Closed(p) && x !in p && y in p
    requires x in q && q == p[x := q[x]]
    ensures Up(q, Some(y), k) == None
  {
    k :| Up(p, Some(y), k) == None;
    forall i: nat | i < k
      ensures Up(p, Some(y), i) != Some(x)
    {
      WalkStaysIn(p, y, i);
    }
    AgreeWalk(p, q, x, Some(y), k);
  }

  /** Removing accounts keeps the forest. */
  lemma Remove(p: Parents, q: Parents)
    requires Acyclic(p)
    requires forall z :: z in q ==> z in p && q[z] == p[z]
    ensures Acyclic(q)
  {
    forall y | y in q
      ensures exists k: nat :: Up(q, Some(y), k) == None
    {
      var k: nat :| Up(p, Some(y), k) == None;
      SubWalk(p, q, Some(y), k);
    }
  }

  /** The first time a walk from `y` meets `x`. */
  lemma {:induction false} FirstHit(p: Parents, y: Id, x: Id, i: nat) returns (m: nat)
    requires Up(p, Some(y), i) == Some(x)
    ensures m <= i && Up(p, Some(y), m) == Some(x)
    ensures forall l: nat :: l < m ==> Up(p, Some(y), l) != Some(x)
    decreases i
  {
    if l: nat :| l < i && Up(p, Some(y), l) == Some(x) {
      m := FirstHit(p, y, x, l);
    } else {
      m := i;
    }
  }

  /**
   * Moving `x` under `np`, an account that is neither `x` nor below it,
   * keeps the forest.
   */
  lemma Reparent(p: Parents, x: Id, np: Id)
    requires Acyclic(p) && x in p && np in p
    requires !Reaches(p, np, x)
    ensures Acyclic(p[x := Some(np)])
  {
    var q := p[x := Some(np)];
    var knp: nat :| Up(p, Some(np), knp) == None;
    AgreeWalk(p, q, x, Some(np), knp);
    assert Up(q, Some(x), 1 + knp) == None by {
      UpAdd(q, Some(x), 1, knp);
    }
    forall y | y in q
      ensures exists k: nat :: Up(q, Some(y), k) == None
    {
      var k: nat :| Up(p, Some(y), k) == None;
      if i: nat :| Up(p, Some(y), i) == Some(x) {
        var m := FirstHit(p, y, x, i);
        AgreeWalk(p, q, x, Some(y), m);
        UpAdd(q, Some(y), m, 1 + knp);
        assert Up(q, Some(y), m + (1 + knp)) == None;
      } else {
        AgreeWalk(p, q, x, Some(y), k);
      }
    }
  }

  // ------------------------------------------------------------- subtrees

  /** The parent of an account below `x` is `x` itself or is also below `x`. */
  lemma ParentInside(p: Parents, x: Id, y: Id)
    requires y in Below(p, x)
    ensures y in p && p[y].Some?
    ensures p[y].value == x || p[y].value in Below(p, x)
  {
    var k: nat :| Up(p, Some(y), k) == Some(x);
    assert k > 0;
    UpAdd(p, Some(y), 1, k - 1);
    if p[y].None? {
      UpNone(p, k - 1);
    }
    var z := p[y].value;
    assert Up(p, Some(z), k - 1) == Some(x);
    if z != x {
      assert k - 1 > 0;
      if Step(p, Some(z)).None? {
        UpNone(p, k - 2);
      }
    }
  }

  /** An account below `x` that is not a child of `x` is below one of its children. */
  lemma ThroughChild(p: Parents, x: Id, y: Id) returns (c: Id)
    requires y in Below(p, x) && p[y] != Some(x)
    ensures c in p && p[c] == Some(x) && y in Below(p, c)
  {
    var k: nat :| Up(p, Some(y), k) == Some(x);
    assert k > 1 by {
      assert k != 0;
      assert Up(p, Some(y), 1) == p[y];
    }
    UpAdd(p, Some(y), k - 1, 1);
    var u := Up(p, Some(y), k - 1);
    if u.None? {
      UpNone(p, 1);
    }
    c := u.value;
    assert Step(p, Some(c)) == Some(x);
  }

  /** `x` together with everything below it. */
  ghost function Subtree(p: Parents, x: Id): set<Id> {
    Below(p, x) + {x}
  }

  /** Walks from a common account to two children of `x` cannot both exist unless the children agree. */
  lemma OrderedMeet(p: Parents, x: Id, c1: Id, c2: Id, y: Id, k1: nat, k2: nat)
    requires Acyclic(p) && x in p
    requires c1 in p && p[c1] == Some(x) && c2 in p && p[c2] == Some(x)
    requires k1 <= k2 && Up(p, Some(y), k1) == Some(c1) && Up(p, Some(y), k2) == Some(c2)
    ensures c1 == c2
  {
    UpAdd(p, Some(y), k1, k2 - k1);
    if k2 > k1 {
      UpAdd(p, Some(c1), 1, k2 - k1 - 1);
      assert Up(p, Some(x), k2 - k1 - 1) == Some(c2);
      UpAdd(p, Some(x), k2 - k1 - 1, 1);
      assert Up(p, Some(x), k2 - k1) == Some(x);
      NoCycle(p, x, k2 - k1);
    }
  }

  /** The subtrees of two different children of one account do not overlap. */
  lemma ChildrenDisjoint(p: Parents, x: Id, c1: Id, c2: Id)
    requires Acyclic(p) && x in p && c1 != c2
    requires c1 in p && p[c1] == Some(x) && c2 in p && p[c2] == Some(x)
    ensures Subtree(p, c1) !! Subtree(p, c2)
  {
    forall y | y in Subtree(p, c1) && y in Subtree(p, c2)
      ensures false
    {
      var k1: nat, k2: nat;
      if y == c1 {
        k1 := 0;
      } else {
        k1 :| Up(p, Some(y), k1) == Some(c1);
      }
      if y == c2 {
        k2 := 0;
      } else {
        k2 :| Up(p, Some(y), k2) == Some(c2);
      }
      if k1 <= k2 {
        OrderedMeet(p, x, c1, c2, y, k1, k2);
      } else {
        OrderedMeet(p, x, c2, c1, y, k2, k1);
      }
    }
  }
}
