/**
  The state tree of NinjaHSM: `State` records that are linked only by a
  `parent` reference (there is no list of children).  A state is named by its
  index in the forest `tree: seq<State<E>>`; the index `Null` (-1) plays the
  role of `nullptr`, which marks a root.

  The callbacks a state is built with are foreign code.  Here they are data:
  a no-argument callback (entry, exit) is a `Script` of what it does on its
  successive invocations, and the event callback is a table of reactions, one
  per event value.  A callback can influence the machine only by calling back
  into it, so everything a callback does is one `Action`.
*/
module HsmTree {

  /** The index that stands for `nullptr`, the missing parent of a root. */
  const Null: int := -1

  /** The only ways a callback can affect the machine: nothing, a call of
      `transitionTo(target)`, or a call of `eventHandled()`. */
  datatype Action = Nop | TransitionTo(target: int) | MarkHandled

  /** A callback without arguments: its k-th invocation (counting from 0)
      performs `first[k]`; every invocation after those performs `after`. */
  datatype Script = Script(first: seq<Action>, after: Action)

  /** What the k-th invocation of a scripted callback does. */
  function ActionAt(s: Script, k: nat): (a: Action)
    ensures a in s.first || a == s.after
    ensures k < |s.first| ==> a == s.first[k]
  {
    if k < |s.first| then s.first[k] else s.after
  }

  /** What the event callback `reactions` does when it is handed event `e`;
      an event it has no entry for is ignored. */
  function ReactionTo<E>(reactions: map<E, Action>, e: E): (a: Action)
    ensures e in reactions ==> a == reactions[e]
    ensures e !in reactions ==> a == Nop
  {
    if e in reactions then reactions[e] else Nop
  }

  /** A node of the tree: a diagnostic name, the entry, event and exit
      callbacks, and the parent link (Null for a root). */
  datatype State<E> = State(
    name: string,
    entry: Script,
    event: map<E, Action>,
    exit: Script,
    parent: int)

  /** The State constructor: it only stores what it is given. */
  function NewState<E>(name: string, entry: Script, event: map<E, Action>, exit: Script, parent: int): (s: State<E>)
    ensures s.name == name && s.entry == entry && s.event == event
    ensures s.exit == exit && s.parent == parent
  {
    State(name, entry, event, exit, parent)
  }

  predicate ValidAction(n: int, a: Action) {
    a.TransitionTo? ==> 0 <= a.target < n
  }

  predicate ValidScript(n: int, s: Script) {
    (forall k :: 0 <= k < |s.first| ==> ValidAction(n, s.first[k])) && ValidAction(n, s.after)
  }

  predicate ValidReactions<E>(n: int, r: map<E, Action>) {
    forall e :: e in r ==> ValidAction(n, r[e])
  }

  /** A well-formed forest: every parent link is Null or names a state with a
      smaller index (so the links are acyclic, and every forest can be numbered
      this way), and every callback transitions only to states of the forest. */
  predicate WellFormed<E>(tree: seq<State<E>>) {
    forall i :: 0 <= i < |tree| ==>
      && Null <= tree[i].parent < i
      && ValidScript(|tree|, tree[i].entry)
      && ValidScript(|tree|, tree[i].exit)
      && ValidReactions(|tree|, tree[i].event)
  }

  /** A state index or Null. */
  predicate IsRef<E>(tree: seq<State<E>>, s: int) {
    Null <= s < |tree|
  }

  /** The parent chain of `s`, starting with `s` itself and ending with its
      root; empty for Null. */
  function Chain<E>(tree: seq<State<E>>, s: int): (c: seq<int>)
    requires WellFormed(tree) && IsRef(tree, s)
    ensures forall k :: 0 <= k < |c| ==> 0 <= c[k] <= s
    ensures s != Null ==> |c| > 0 && c[0] == s
    decreases s + 1
  {
    if s == Null then [] else [s] + Chain(tree, tree[s].parent)
  }

  /** `s` is Null or lies on the parent chain of `d`: a state from which the
      transition loop walks down towards `d`. */
  predicate OnPath<E>(tree: seq<State<E>>, s: int, d: int)
    requires WellFormed(tree) && IsRef(tree, d)
  {
    s == Null || s in Chain(tree, d)
  }

  /** The search of the transition loop: the state on `d`'s parent chain whose
      parent is `cur`, if there is one. */
  function BranchChild<E>(tree: seq<State<E>>, d: int, cur: int): (r: Option<int>)
    requires WellFormed(tree) && IsRef(tree, d)
    ensures r.Some? ==> r.value in Chain(tree, d) && tree[r.value].parent == cur
    ensures r.None? ==> forall x :: x in Chain(tree, d) ==> tree[x].parent != cur
    decreases d + 1
  {
    if d == Null then None
    else if tree[d].parent == cur then Some(d)
    else BranchChild(tree, tree[d].parent, cur)
  }

  /** The states on `lo`'s parent chain strictly below `top`, innermost first;
      `top` is a state on that chain, or Null for the whole chain. */
  function Below<E>(tree: seq<State<E>>, lo: int, top: int): (b: seq<int>)
    requires WellFormed(tree) && IsRef(tree, lo) && OnPath(tree, top, lo)
    ensures forall k :: 0 <= k < |b| ==> top < b[k] <= lo
    decreases lo + 1
  {
    if lo == top then [] else [lo] + Below(tree, tree[lo].parent, top)
  }

  /** The least common ancestor on the two reflexive chains: the first state
      on `a`'s chain that also lies on `d`'s chain, or Null if there is none. */
  function CommonAncestor<E>(tree: seq<State<E>>, a: int, d: int): (r: int)
    requires WellFormed(tree) && IsRef(tree, a) && IsRef(tree, d)
    ensures r == Null || (r in Chain(tree, a) && r in Chain(tree, d))
    decreases a + 1
  {
    if a == Null then Null
    else if a in Chain(tree, d) then a
    else CommonAncestor(tree, tree[a].parent, d)
  }

  datatype Option<T> = None | Some(value: T)

  function Reverse(s: seq<int>): (r: seq<int>)
    ensures |r| == |s|
    ensures forall k :: 0 <= k < |s| ==> r[k] == s[|s| - 1 - k]
  {
    seq(|s|, k requires 0 <= k < |s| => s[|s| - 1 - k])
  }
}
