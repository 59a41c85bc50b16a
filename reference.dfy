/**
  The order of callbacks a transition is meant to produce, defined from the
  two parent chains alone (independently of the engine's one-step loop), and
  the facts about parent chains the proofs need.
*/
module HsmReference {
  import opened HsmTree
  import opened HsmEngine

  function Exits(xs: seq<int>): (r: seq<Call>)
    ensures |r| == |xs| && forall k :: 0 <= k < |xs| ==> r[k] == Exit(xs[k])
  {
    seq(|xs|, k requires 0 <= k < |xs| => Exit(xs[k]))
  }

  function Entries(xs: seq<int>): (r: seq<Call>)
    ensures |r| == |xs| && forall k :: 0 <= k < |xs| ==> r[k] == Entry(xs[k])
  {
    seq(|xs|, k requires 0 <= k < |xs| => Entry(xs[k]))
  }

  function Events(xs: seq<int>): (r: seq<Call>)
    ensures |r| == |xs| && forall k :: 0 <= k < |xs| ==> r[k] == Event(xs[k])
  {
    seq(|xs|, k requires 0 <= k < |xs| => Event(xs[k]))
  }

  /** The callbacks a transition from `c` to `d` makes when no callback
      interferes: to the current state itself, exit it and enter it again;
      otherwise exit every state of the old chain below the common ancestor,
      innermost first, then enter every state of the new chain below it,
      outermost first. */
  function ReferenceCalls<E>(tree: seq<State<E>>, c: int, d: int): seq<Call>
    requires WellFormed(tree) && IsRef(tree, c) && 0 <= d < |tree|
  {
    if c == d then [Exit(d), Entry(d)]
    else
      var l := CommonAncestor(tree, c, d);
      Exits(Below(tree, c, l)) + Entries(Reverse(Below(tree, d, l)))
  }

  // ----- parent chains -----

  /** The state `k` parent links above `s` (Null once a root is passed). */
  function Up<E>(tree: seq<State<E>>, s: int, k: nat): (r: int)
    requires WellFormed(tree) && IsRef(tree, s)
    ensures IsRef(tree, r) && r <= s
    decreases k
  {
    if k == 0 || s == Null then s else Up(tree, tree[s].parent, k - 1)
  }

  /** The parent chain holds exactly the states reached from `s` by
      following parent links zero or more times: `s` itself and each of its
      ancestors, and nothing else. */
  lemma {:induction false} ChainIsAncestry<E>(tree: seq<State<E>>, s: int, x: int)
    requires WellFormed(tree) && IsRef(tree, s) && x != Null
    ensures x in Chain(tree, s) <==> exists k: nat :: Up(tree, s, k) == x
    decreases s + 1
  {
    if s != Null {
      var p := tree[s].parent;
      ChainIsAncestry(tree, p, x);
      if x in Chain(tree, s) {
        if x == s {
          assert Up(tree, s, 0) == x;
        } else {
          var k: nat :| Up(tree, p, k) == x;
          assert Up(tree, s, k + 1) == x;
        }
      }
      if exists k: nat :: Up(tree, s, k) == x {
        var k: nat :| Up(tree, s, k) == x;
        if k > 0 {
          var j: nat := k - 1;
          assert Up(tree, p, j) == x;
          assert x in Chain(tree, p);
          assert Chain(tree, s) == [s] + Chain(tree, p);
        }
      }
    }
  }

  /** A parent chain is a chain: each element after the first is the parent
      of the one before it, and the last one is a root. */
  lemma {:induction false} ChainLinks<E>(tree: seq<State<E>>, s: int)
    requires WellFormed(tree) && IsRef(tree, s)
    ensures forall k :: 0 <= k < |Chain(tree, s)| - 1 ==>
      Chain(tree, s)[k + 1] == tree[Chain(tree, s)[k]].parent
    ensures s != Null ==> tree[Chain(tree, s)[|Chain(tree, s)| - 1]].parent == Null
    decreases s + 1
  {
    if s != Null {
      ChainLinks(tree, tree[s].parent);
    }
  }

  /** The chain of any state on a chain is the rest of that chain. */
  lemma {:induction false} ChainSuffix<E>(tree: seq<State<E>>, s: int, k: nat)
    requires WellFormed(tree) && IsRef(tree, s) && k < |Chain(tree, s)|
    ensures Chain(tree, s)[k..] == Chain(tree, Chain(tree, s)[k])
    decreases s + 1
  {
    if k > 0 {
      ChainSuffix(tree, tree[s].parent, k - 1);
      assert Chain(tree, s)[k..] == Chain(tree, tree[s].parent)[k - 1..];
    }
  }

  /** Indices fall strictly along a chain, so no state occurs twice. */
  lemma {:induction false} ChainDescends<E>(tree: seq<State<E>>, s: int)
    requires WellFormed(tree) && IsRef(tree, s)
    ensures forall i, j :: 0 <= i < j < |Chain(tree, s)| ==> Chain(tree, s)[i] > Chain(tree, s)[j]
    decreases s + 1
  {
    if s != Null {
      ChainDescends(tree, tree[s].parent);
      assert forall j :: 0 < j < |Chain(tree, s)| ==> Chain(tree, s)[j] == Chain(tree, tree[s].parent)[j - 1];
    }
  }

  /** A state on the chain of `s` has its whole chain within that of `s`. */
  lemma {:induction false} ChainWithin<E>(tree: seq<State<E>>, x: int, s: int)
    requires WellFormed(tree) && IsRef(tree, s) && x in Chain(tree, s)
    ensures forall y :: y in Chain(tree, x) ==> y in Chain(tree, s)
    decreases s + 1
  {
    if x != s {
      ChainWithin(tree, x, tree[s].parent);
    }
  }

  /** The parent of a state on the chain of `d` is on it too, or Null. */
  lemma ParentOnPath<E>(tree: seq<State<E>>, x: int, d: int)
    requires WellFormed(tree) && IsRef(tree, d) && x in Chain(tree, d)
    ensures OnPath(tree, tree[x].parent, d)
  {
    ChainWithin(tree, x, d);
    assert x != Null;
    assert tree[x].parent != Null ==> tree[x].parent in Chain(tree, x);
  }

  /** When `cur` is on the way down to `d`, the search of the loop finds the
      next state to enter. */
  lemma FoundWhenOnPath<E>(tree: seq<State<E>>, d: int, cur: int)
    requires WellFormed(tree) && 0 <= d < |tree| && IsRef(tree, cur)
    requires OnPath(tree, cur, d) && cur != d
    ensures BranchChild(tree, d, cur).Some?
  {
    if BranchChild(tree, d, cur).None? {
      OffPathWhenNotFound(tree, d, cur);
    }
  }

  /** When `cur` is off the destination's chain, the search finds nothing. */
  lemma NotFoundWhenOffPath<E>(tree: seq<State<E>>, d: int, cur: int)
    requires WellFormed(tree) && 0 <= d < |tree| && IsRef(tree, cur)
    requires !OnPath(tree, cur, d)
    ensures BranchChild(tree, d, cur).None?
  {
    var r := BranchChild(tree, d, cur);
    if r.Some? {
      ParentOnPath(tree, r.value, d);
    }
  }

  // ----- the states below an ancestor -----

  /** A chain splits at any state on it (or at Null) into the part below it
      and that state's own chain. */
  lemma {:induction false} BelowThenChain<E>(tree: seq<State<E>>, lo: int, top: int)
    requires WellFormed(tree) && IsRef(tree, lo) && OnPath(tree, top, lo)
    ensures Chain(tree, lo) == Below(tree, lo, top) + Chain(tree, top)
    decreases lo + 1
  {
    if lo != top {
      BelowThenChain(tree, tree[lo].parent, top);
    }
  }

  /** Below Null lies the whole chain. */
  lemma BelowNullIsChain<E>(tree: seq<State<E>>, lo: int)
    requires WellFormed(tree) && IsRef(tree, lo)
    ensures Below(tree, lo, Null) == Chain(tree, lo)
  {
    BelowThenChain(tree, lo, Null);
  }

  /** Entering the child `x` of `top` on `d`'s chain leaves exactly the states
      below `x` to enter. */
  lemma {:induction false} BelowSplit<E>(tree: seq<State<E>>, d: int, top: int, x: int)
    requires WellFormed(tree) && 0 <= d < |tree| && OnPath(tree, top, d)
    requires x in Chain(tree, d) && tree[x].parent == top
    ensures OnPath(tree, x, d)
    ensures Below(tree, d, top) == Below(tree, d, x) + [x]
    decreases d + 1
  {
    if d != x {
      var p := tree[d].parent;
      assert x in Chain(tree, p);
      assert top != d by {
        ChainDescends(tree, d);
      }
      BelowSplit(tree, p, top, x);
    }
  }

  // ----- the common ancestor -----

  /** The common ancestor is the lowest state on both chains. */
  lemma {:induction false} CommonAncestorIsLowest<E>(tree: seq<State<E>>, c: int, d: int)
    requires WellFormed(tree) && IsRef(tree, c) && IsRef(tree, d)
    ensures forall x :: x in Chain(tree, c) && x in Chain(tree, d) ==> x <= CommonAncestor(tree, c, d)
    decreases c + 1
  {
    if c != Null && c !in Chain(tree, d) {
      CommonAncestorIsLowest(tree, tree[c].parent, d);
    }
  }

  /** The old states below the common ancestor are those of the old chain
      that are not on the new one. */
  lemma {:induction false} ExitSetOfBelow<E>(tree: seq<State<E>>, c: int, d: int)
    requires WellFormed(tree) && IsRef(tree, c) && IsRef(tree, d)
    ensures forall x :: x in Below(tree, c, CommonAncestor(tree, c, d)) <==>
      x in Chain(tree, c) && x !in Chain(tree, d)
    decreases c + 1
  {
    if c != Null {
      if c in Chain(tree, d) {
        ChainWithin(tree, c, d);
      } else {
        ExitSetOfBelow(tree, tree[c].parent, d);
      }
    }
  }

  /** The new states below the common ancestor are those of the new chain
      that are not on the old one. */
  lemma EntrySetOfBelow<E>(tree: seq<State<E>>, c: int, d: int)
    requires WellFormed(tree) && IsRef(tree, c) && IsRef(tree, d)
    ensures forall x :: x in Below(tree, d, CommonAncestor(tree, c, d)) <==>
      x in Chain(tree, d) && x !in Chain(tree, c)
  {
    var l := CommonAncestor(tree, c, d);
    BelowThenChain(tree, d, l);
    CommonAncestorIsLowest(tree, c, d);
    if l != Null {
      ChainWithin(tree, l, c);
    }
    ChainDescends(tree, d);
    forall x | x in Chain(tree, d) && x !in Chain(tree, c)
      ensures x in Below(tree, d, l)
    {
      assert x !in Chain(tree, l);
    }
  }

  /** Along `Below(lo, top)` each state is followed by its ancestors: later
      elements lie on the chains of earlier ones and differ from them. */
  lemma BelowAscends<E>(tree: seq<State<E>>, lo: int, top: int)
    requires WellFormed(tree) && IsRef(tree, lo) && OnPath(tree, top, lo)
    ensures forall i, j :: 0 <= i < j < |Below(tree, lo, top)| ==>
      Below(tree, lo, top)[j] in Chain(tree, Below(tree, lo, top)[i]) &&
      Below(tree, lo, top)[j] != Below(tree, lo, top)[i]
  {
    var b := Below(tree, lo, top);
    BelowThenChain(tree, lo, top);
    ChainDescends(tree, lo);
    forall i, j | 0 <= i < j < |b|
      ensures b[j] in Chain(tree, b[i]) && b[j] != b[i]
    {
      ChainSuffix(tree, lo, i);
      assert b[i] == Chain(tree, lo)[i] && b[j] == Chain(tree, lo)[j];
      assert b[j] == Chain(tree, lo)[i..][j - i];
    }
  }

  /** Exactly the states of the old chain that are not on the new one are
      exited; the common ancestor, on both chains, is not. */
  lemma ReferenceExitSet<E>(tree: seq<State<E>>, c: int, d: int)
    requires WellFormed(tree) && IsRef(tree, c) && 0 <= d < |tree| && c != d
    ensures forall x :: Exit(x) in ReferenceCalls(tree, c, d) <==>
      x in Chain(tree, c) && x !in Chain(tree, d)
  {
    var l := CommonAncestor(tree, c, d);
    var xs := Below(tree, c, l);
    var r := ReferenceCalls(tree, c, d);
    assert r == Exits(xs) + Entries(Reverse(Below(tree, d, l)));
    ExitSetOfBelow(tree, c, d);
    forall x ensures Exit(x) in r <==> x in xs {
      if Exit(x) in r {
        var k :| 0 <= k < |r| && r[k] == Exit(x);
        assert k < |xs| && xs[k] == x;
      }
      if x in xs {
        var k :| 0 <= k < |xs| && xs[k] == x;
        assert r[k] == Exit(x);
      }
    }
  }

  lemma InEntries(ys: seq<int>, x: int)
    ensures Entry(x) in Entries(ys) <==> x in ys
  {
    if Entry(x) in Entries(ys) {
      var k :| 0 <= k < |ys| && Entries(ys)[k] == Entry(x);
      assert ys[k] == x;
    }
    if x in ys {
      var k :| 0 <= k < |ys| && ys[k] == x;
      assert Entries(ys)[k] == Entry(x);
    }
  }

  lemma InReverse(b: seq<int>, x: int)
    ensures x in Reverse(b) <==> x in b
  {
    if x in Reverse(b) {
      var k :| 0 <= k < |b| && Reverse(b)[k] == x;
      assert b[|b| - 1 - k] == x;
    }
    if x in b {
      var k :| 0 <= k < |b| && b[k] == x;
      assert Reverse(b)[|b| - 1 - k] == x;
    }
  }

  /** Exactly the states of the new chain that are not on the old one are
      entered; the common ancestor is not. */
  lemma ReferenceEntrySet<E>(tree: seq<State<E>>, c: int, d: int)
    requires WellFormed(tree) && IsRef(tree, c) && 0 <= d < |tree| && c != d
    ensures forall x :: Entry(x) in ReferenceCalls(tree, c, d) <==>
      x in Chain(tree, d) && x !in Chain(tree, c)
  {
    var l := CommonAncestor(tree, c, d);
    var xs := Below(tree, c, l);
    var b := Below(tree, d, l);
    var r := ReferenceCalls(tree, c, d);
    assert r == Exits(xs) + Entries(Reverse(b));
    EntrySetOfBelow(tree, c, d);
    forall x ensures Entry(x) in r <==> x in b {
      assert Entry(x) !in Exits(xs);
      InEntries(Reverse(b), x);
      InReverse(b, x);
    }
  }

  /** A run of exits followed by a run of entries holds no event call, and
      after its first entry only entries. */
  lemma ExitsThenEntries(xs: seq<int>, ys: seq<int>)
    ensures var r := Exits(xs) + Entries(ys);
      && (forall k :: 0 <= k < |r| ==> !r[k].Event?)
      && (forall i, j :: 0 <= i < j < |r| && r[i].Entry? ==> r[j].Entry?)
  {
    var r := Exits(xs) + Entries(ys);
    forall i, j | 0 <= i < j < |r| && r[i].Entry?
      ensures r[j].Entry?
    {
      assert r[i] != Exit(r[i].state);
      assert |xs| <= i;
    }
  }

  /** The exits of the reference calls go outward: each later one is a
      proper ancestor of each earlier one. */
  lemma ReferenceExitOrder<E>(tree: seq<State<E>>, c: int, d: int)
    requires WellFormed(tree) && IsRef(tree, c) && 0 <= d < |tree| && c != d
    ensures var r := ReferenceCalls(tree, c, d);
      forall i, j :: 0 <= i < j < |r| && r[i].Exit? && r[j].Exit? ==>
        r[j].state in Chain(tree, r[i].state) && r[j].state != r[i].state
  {
    var l := CommonAncestor(tree, c, d);
    var xs := Below(tree, c, l);
    var b := Below(tree, d, l);
    var r := ReferenceCalls(tree, c, d);
    assert r == Exits(xs) + Entries(Reverse(b));
    BelowAscends(tree, c, l);
    forall i, j | 0 <= i < j < |r| && r[i].Exit? && r[j].Exit?
      ensures r[j].state in Chain(tree, r[i].state) && r[j].state != r[i].state
    {
      assert j < |xs|;
      assert r[i] == Exit(xs[i]) && r[j] == Exit(xs[j]);
    }
  }

  lemma BelowPair<E>(tree: seq<State<E>>, lo: int, top: int, i: int, j: int)
    requires WellFormed(tree) && IsRef(tree, lo) && OnPath(tree, top, lo)
    requires 0 <= i < j < |Below(tree, lo, top)|
    ensures var b := Below(tree, lo, top);
      b[j] in Chain(tree, b[i]) && b[j] != b[i]
  {
    BelowAscends(tree, lo, top);
  }

  /** `Below(lo, top)` reversed runs outermost first: an earlier state is a
      proper ancestor of a later one. */
  lemma ReverseBelowDescends<E>(tree: seq<State<E>>, lo: int, top: int, i: int, j: int)
    requires WellFormed(tree) && IsRef(tree, lo) && OnPath(tree, top, lo)
    requires 0 <= i < j < |Below(tree, lo, top)|
    ensures var ys := Reverse(Below(tree, lo, top));
      ys[i] in Chain(tree, ys[j]) && ys[i] != ys[j]
  {
    var b := Below(tree, lo, top);
    var p, q := |b| - 1 - i, |b| - 1 - j;
    BelowPair(tree, lo, top, q, p);
    assert Reverse(b)[i] == b[p] && Reverse(b)[j] == b[q];
  }

  lemma CallAt(xs: seq<int>, ys: seq<int>, i: int)
    requires 0 <= i < |xs| + |ys|
    ensures (Exits(xs) + Entries(ys))[i] == if i < |xs| then Exit(xs[i]) else Entry(ys[i - |xs|])
  {
  }

  /** An entry in a run of exits followed by a run of entries lies in the
      second run. */
  lemma EntryAt(xs: seq<int>, ys: seq<int>, i: int)
    requires 0 <= i < |xs| + |ys| && (Exits(xs) + Entries(ys))[i].Entry?
    ensures |xs| <= i && (Exits(xs) + Entries(ys))[i] == Entry(ys[i - |xs|])
  {
    CallAt(xs, ys, i);
  }

  /** The reference calls of a transition to another state, spelt out. */
  lemma ReferenceCallsSplit<E>(tree: seq<State<E>>, c: int, d: int)
    requires WellFormed(tree) && IsRef(tree, c) && 0 <= d < |tree| && c != d
    ensures var l := CommonAncestor(tree, c, d);
      ReferenceCalls(tree, c, d) == Exits(Below(tree, c, l)) + Entries(Reverse(Below(tree, d, l)))
  {
  }

  /** A transition from the parent of `d` (Null for a root) to `d` enters
      `d` and nothing else. */
  lemma ChildReference<E>(tree: seq<State<E>>, d: int)
    requires WellFormed(tree) && 0 <= d < |tree|
    ensures CommonAncestor(tree, tree[d].parent, d) == tree[d].parent
    ensures Below(tree, d, tree[d].parent) == [d]
    ensures ReferenceCalls(tree, tree[d].parent, d) == [Entry(d)]
  {
    var c := tree[d].parent;
    assert Chain(tree, d) == [d] + Chain(tree, c);
    if c != Null {
      assert c in Chain(tree, c);
    }
    assert Below(tree, c, c) == [];
    assert Reverse([d]) == [d];
  }

  /** The entry at position `i` of the reference calls enters the state at
      the matching position of the new chain's states, outermost first. */
  lemma ReferenceEntryAt<E>(tree: seq<State<E>>, c: int, d: int, i: int)
    requires WellFormed(tree) && IsRef(tree, c) && 0 <= d < |tree| && c != d
    requires 0 <= i < |ReferenceCalls(tree, c, d)| && ReferenceCalls(tree, c, d)[i].Entry?
    ensures var l := CommonAncestor(tree, c, d);
      var k := i - |Below(tree, c, l)|;
      && 0 <= k < |Below(tree, d, l)|
      && ReferenceCalls(tree, c, d)[i].state == Reverse(Below(tree, d, l))[k]
  {
    var l := CommonAncestor(tree, c, d);
    EntryAt(Below(tree, c, l), Reverse(Below(tree, d, l)), i);
  }

  /** Two entries of the reference calls: the earlier one is a proper
      ancestor of the later one. */
  lemma ReferenceEntryPair<E>(tree: seq<State<E>>, c: int, d: int, i: int, j: int)
    requires WellFormed(tree) && IsRef(tree, c) && 0 <= d < |tree| && c != d
    requires 0 <= i < j < |ReferenceCalls(tree, c, d)|
    requires ReferenceCalls(tree, c, d)[i].Entry? && ReferenceCalls(tree, c, d)[j].Entry?
    ensures var r := ReferenceCalls(tree, c, d);
      r[i].state in Chain(tree, r[j].state) && r[i].state != r[j].state
  {
    var l := CommonAncestor(tree, c, d);
    var n := |Below(tree, c, l)|;
    ReferenceEntryAt(tree, c, d, i);
    ReferenceEntryAt(tree, c, d, j);
    ReverseBelowDescends(tree, d, l, i - n, j - n);
  }

  /** The entries of the reference calls go inward: each earlier one is a
      proper ancestor of each later one. */
  lemma ReferenceEntryOrder<E>(tree: seq<State<E>>, c: int, d: int)
    requires WellFormed(tree) && IsRef(tree, c) && 0 <= d < |tree| && c != d
    ensures var r := ReferenceCalls(tree, c, d);
      forall i, j :: 0 <= i < j < |r| && r[i].Entry? && r[j].Entry? ==>
        r[i].state in Chain(tree, r[j].state) && r[i].state != r[j].state
  {
    var r := ReferenceCalls(tree, c, d);
    forall i, j | 0 <= i < j < |r| && r[i].Entry? && r[j].Entry?
      ensures r[i].state in Chain(tree, r[j].state) && r[i].state != r[j].state
    {
      ReferenceEntryPair(tree, c, d, i, j);
    }
  }

  /** The reference order: exits come first, innermost first (each later
      exit is a proper ancestor of the earlier ones); entries come after,
      outermost first (each earlier entry is a proper ancestor of the later
      ones); no event callback runs. */
  lemma ReferenceOrder<E>(tree: seq<State<E>>, c: int, d: int)
    requires WellFormed(tree) && IsRef(tree, c) && 0 <= d < |tree| && c != d
    ensures var r := ReferenceCalls(tree, c, d);
      && (forall k :: 0 <= k < |r| ==> !r[k].Event?)
      && (forall i, j :: 0 <= i < j < |r| && r[i].Entry? ==> r[j].Entry?)
      && (forall i, j :: 0 <= i < j < |r| && r[i].Exit? && r[j].Exit? ==>
            r[j].state in Chain(tree, r[i].state) && r[j].state != r[i].state)
      && (forall i, j :: 0 <= i < j < |r| && r[i].Entry? && r[j].Entry? ==>
            r[i].state in Chain(tree, r[j].state) && r[i].state != r[j].state)
  {
    var l := CommonAncestor(tree, c, d);
    ExitsThenEntries(Below(tree, c, l), Reverse(Below(tree, d, l)));
    ReferenceExitOrder(tree, c, d);
    ReferenceEntryOrder(tree, c, d);
  }
}
