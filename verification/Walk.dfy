/** The bounded walk over an accessibility tree, which the bus may present as any graph of references. */
module Walk {
  import opened Wrappers

  /** A reference handed out by the bus; a null one names no object. */
  datatype Ref = Null | Object(path: string)

  /** What the bus answers about a node: its own attributes and its child references, in document order. */
  datatype Node = Node(name: string, children: seq<Ref>)

  /** The bus, frozen for the length of a walk. A path that is not in the map is one whose proxy cannot be built. */
  type Bus = map<string, Node>

  datatype Element = Element(name: string, path: string, depth: nat)

  datatype WalkOpts = WalkOpts(maxNodes: nat, maxDepth: nat)

  predicate Visible(bus: Bus, r: Ref, depth: nat, maxDepth: nat) {
    depth <= maxDepth && r.Object? && r.path in bus
  }

  /** The tree the graph unfolds to below `r`, cut at `maxDepth`, in document order. */
  function Preorder(bus: Bus, r: Ref, depth: nat, maxDepth: nat): seq<Element>
    decreases maxDepth + 1 - depth, 0
  {
    if !Visible(bus, r, depth, maxDepth) then []
    else
      [Element(bus[r.path].name, r.path, depth)] + Forest(bus, bus[r.path].children, depth + 1, maxDepth)
  }

  function Forest(bus: Bus, rs: seq<Ref>, depth: nat, maxDepth: nat): seq<Element>
    decreases maxDepth + 1 - depth, 1, |rs|
  {
    if rs == [] || depth > maxDepth then []
    else Preorder(bus, rs[0], depth, maxDepth) + Forest(bus, rs[1..], depth, maxDepth)
  }

  /** A stacked reference and its depth below the root. */
  datatype Frame = Frame(r: Ref, depth: nat)

  /** What is still to come when the walk stops with this stack; the top is the last entry. */
  function Remaining(bus: Bus, stack: seq<Frame>, maxDepth: nat): seq<Element> {
    if stack == [] then []
    else
      var top := stack[|stack| - 1];
      Preorder(bus, top.r, top.depth, maxDepth) + Remaining(bus, stack[..|stack| - 1], maxDepth)
  }

  /** The frames that pushing the children in reverse leaves on the stack. */
  function Reversed(rs: seq<Ref>, depth: nat): seq<Frame> {
    if rs == [] then [] else Reversed(rs[1..], depth) + [Frame(rs[0], depth)]
  }

  lemma RemainingTop(bus: Bus, below: seq<Frame>, top: Frame, maxDepth: nat)
    ensures Remaining(bus, below + [top], maxDepth)
         == Preorder(bus, top.r, top.depth, maxDepth) + Remaining(bus, below, maxDepth)
  {
    hide Preorder;
    var stack := below + [top];
    assert stack[..|stack| - 1] == below;
  }

  lemma {:induction false} PushedChildren(bus: Bus, stack: seq<Frame>, rs: seq<Ref>, depth: nat, maxDepth: nat)
    ensures Remaining(bus, stack + Reversed(rs, depth), maxDepth)
         == Forest(bus, rs, depth, maxDepth) + Remaining(bus, stack, maxDepth)
  {
    hide Remaining, Preorder;
    if rs == [] {
      assert stack + Reversed(rs, depth) == stack;
    } else {
      var below := stack + Reversed(rs[1..], depth);
      assert stack + Reversed(rs, depth) == below + [Frame(rs[0], depth)];
      RemainingTop(bus, below, Frame(rs[0], depth), maxDepth);
      PushedChildren(bus, stack, rs[1..], depth, maxDepth);
      if depth > maxDepth { TooDeep(bus, rs[0], depth, maxDepth); }
    }
  }

  lemma TooDeep(bus: Bus, r: Ref, depth: nat, maxDepth: nat)
    requires depth > maxDepth
    ensures Preorder(bus, r, depth, maxDepth) == []
  {
  }

  /** Popping a frame that shows nothing loses nothing; popping any other trades it for its element and children. */
  lemma PoppedFrame(bus: Bus, below: seq<Frame>, top: Frame, maxDepth: nat)
    ensures !Visible(bus, top.r, top.depth, maxDepth) ==>
      Remaining(bus, below + [top], maxDepth) == Remaining(bus, below, maxDepth)
    ensures Visible(bus, top.r, top.depth, maxDepth) ==>
      Remaining(bus, below + [top], maxDepth)
      == [Element(bus[top.r.path].name, top.r.path, top.depth)]
         + Remaining(bus, below + Reversed(bus[top.r.path].children, top.depth + 1), maxDepth)
  {
    var stack := below + [top];
    assert stack[..|stack| - 1] == below;
    if Visible(bus, top.r, top.depth, maxDepth) {
      PushedChildren(bus, below, bus[top.r.path].children, top.depth + 1, maxDepth);
    }
  }

  /** Children are pushed last first, so that they pop in document order. */
  method PushChildren(stack: seq<Frame>, children: seq<Ref>, depth: nat) returns (taller: seq<Frame>)
    ensures taller == stack + Reversed(children, depth)
  {
    taller := stack;
    for k := |children| downto 0
      invariant taller == stack + Reversed(children[k..], depth)
    {
      assert children[k..] == [children[k]] + children[k + 1..];
      taller := taller + [Frame(children[k], depth)];
    }
    assert children[0..] == children;
  }

  lemma NothingLeft(bus: Bus, maxDepth: nat)
    ensures Remaining(bus, [], maxDepth) == []
  {
  }

  /**
   * The walk returns the first `maxNodes` entries of the unfolding, on any graph, cyclic ones included, and
   * stops. Without the truncation flag the list is the whole unfolding.
   */
  method Collect(bus: Bus, root: Ref, opts: WalkOpts) returns (out: seq<Element>, truncated: bool)
    ensures var all := Preorder(bus, root, 0, opts.maxDepth);
      && out == all[..if |all| < opts.maxNodes then |all| else opts.maxNodes]
      && (!truncated ==> out == all)
      && (truncated ==> |out| == opts.maxNodes)
  {
    ghost var all := Preorder(bus, root, 0, opts.maxDepth);
    out := [];
    var stack := [Frame(root, 0)];
    truncated := false;
    assert stack[..0] == [] && Remaining(bus, [], opts.maxDepth) == [];
    hide Preorder, Forest, Remaining, Reversed;
    while stack != []
      invariant |out| <= opts.maxNodes
      invariant out + Remaining(bus, stack, opts.maxDepth) == all
      invariant !truncated
      decreases opts.maxNodes - |out|, |stack|
    {
      var top := stack[|stack| - 1];
      assert stack == stack[..|stack| - 1] + [top];
      stack := stack[..|stack| - 1];
      ghost var before := Remaining(bus, stack + [top], opts.maxDepth);
      PoppedFrame(bus, stack, top, opts.maxDepth);
      if |out| >= opts.maxNodes {
        truncated := true;
        break;
      }
      if top.depth > opts.maxDepth || top.r.Null? {
        continue;
      }
      if top.r.path !in bus {
        continue;
      }
      var node := bus[top.r.path];
      out := out + [Element(node.name, top.r.path, top.depth)];
      ghost var rest := Remaining(bus, stack + Reversed(node.children, top.depth + 1), opts.maxDepth);
      assert out + rest == out[..|out| - 1] + before;
      stack := PushChildren(stack, node.children, top.depth + 1);
    }
    if !truncated { assert Remaining(bus, stack, opts.maxDepth) == [] by { NothingLeft(bus, opts.maxDepth); } }
    assert out <= all;
  }

  // ---- what the unfolding lists -----------------------------------------------------------

  /** The reference reached from `r` by taking the given child positions, through nodes that can be built. */
  function Follow(bus: Bus, r: Ref, positions: seq<nat>): Option<Ref>
    decreases |positions|
  {
    if r.Null? || r.path !in bus then None
    else if positions == [] then Some(r)
    else if positions[0] >= |bus[r.path].children| then None
    else Follow(bus, bus[r.path].children[positions[0]], positions[1..])
  }

  /** `e` is the node at the end of a chain of child references that starts at `r`, which is at `depth`. */
  predicate EndsAt(bus: Bus, r: Ref, depth: nat, positions: seq<nat>, e: Element) {
    Follow(bus, r, positions) == Some(Object(e.path)) && e.depth == depth + |positions|
    && e.path in bus && e.name == bus[e.path].name
  }

  lemma {:induction false} ForestMember(bus: Bus, rs: seq<Ref>, depth: nat, maxDepth: nat, e: Element)
    requires depth <= maxDepth
    ensures e in Forest(bus, rs, depth, maxDepth)
      <==> exists k | 0 <= k < |rs| :: e in Preorder(bus, rs[k], depth, maxDepth)
  {
    if rs != [] {
      ForestMember(bus, rs[1..], depth, maxDepth, e);
      forall k | 0 <= k < |rs[1..]| ensures rs[1..][k] == rs[k + 1] {}
      if k :| 0 <= k < |rs| && e in Preorder(bus, rs[k], depth, maxDepth) {
        if k > 0 { assert rs[1..][k - 1] == rs[k]; }
      }
    }
  }

  lemma {:induction false} ListedIsReached(bus: Bus, r: Ref, depth: nat, maxDepth: nat, e: Element)
    returns (positions: seq<nat>)
    requires e in Preorder(bus, r, depth, maxDepth)
    ensures EndsAt(bus, r, depth, positions, e) && e.depth <= maxDepth
    decreases maxDepth + 1 - depth
  {
    var children := bus[r.path].children;
    if e == Element(bus[r.path].name, r.path, depth) {
      positions := [];
    } else {
      ForestMember(bus, children, depth + 1, maxDepth, e);
      var k :| 0 <= k < |children| && e in Preorder(bus, children[k], depth + 1, maxDepth);
      var rest := ListedIsReached(bus, children[k], depth + 1, maxDepth, e);
      positions := [k] + rest;
      assert positions[1..] == rest;
    }
  }

  lemma {:induction false} ReachedIsListed(bus: Bus, r: Ref, depth: nat, maxDepth: nat, e: Element, positions: seq<nat>)
    requires EndsAt(bus, r, depth, positions, e) && e.depth <= maxDepth
    ensures e in Preorder(bus, r, depth, maxDepth)
    decreases |positions|
  {
    if positions != [] {
      var children := bus[r.path].children;
      ReachedIsListed(bus, children[positions[0]], depth + 1, maxDepth, e, positions[1..]);
      ForestMember(bus, children, depth + 1, maxDepth, e);
    }
  }

  /** The unfolding lists exactly the nodes that some chain of at most `maxDepth` child references leads to. */
  lemma PreorderExact(bus: Bus, root: Ref, maxDepth: nat, e: Element)
    ensures e in Preorder(bus, root, 0, maxDepth)
      <==> e.depth <= maxDepth && exists positions :: EndsAt(bus, root, 0, positions, e)
  {
    if e in Preorder(bus, root, 0, maxDepth) {
      var positions := ListedIsReached(bus, root, 0, maxDepth, e);
    }
    if positions :| EndsAt(bus, root, 0, positions, e) && e.depth <= maxDepth {
      ReachedIsListed(bus, root, 0, maxDepth, e, positions);
    }
  }

  // ---- the order of the unfolding --------------------------------------------------------------

  function Prefixed(k: nat, ps: seq<seq<nat>>): (r: seq<seq<nat>>)
    ensures |r| == |ps| && forall i | 0 <= i < |ps| :: r[i] == [k] + ps[i]
  {
    seq(|ps|, i requires 0 <= i < |ps| => [k] + ps[i])
  }

  /** The child positions that lead to each entry of the unfolding. */
  function Paths(bus: Bus, r: Ref, depth: nat, maxDepth: nat): seq<seq<nat>>
    decreases maxDepth + 1 - depth, 0
  {
    if !Visible(bus, r, depth, maxDepth) then []
    else [[]] + ForestPaths(bus, bus[r.path].children, 0, depth + 1, maxDepth)
  }

  /** The same below a list of references, the first of which is child number `at`. */
  function ForestPaths(bus: Bus, rs: seq<Ref>, at: nat, depth: nat, maxDepth: nat): seq<seq<nat>>
    decreases maxDepth + 1 - depth, 1, |rs|
  {
    if rs == [] || depth > maxDepth then []
    else Prefixed(at, Paths(bus, rs[0], depth, maxDepth)) + ForestPaths(bus, rs[1..], at + 1, depth, maxDepth)
  }

  /** An ancestor comes before its descendants, and a child before its later siblings and theirs. */
  predicate Before(p: seq<nat>, q: seq<nat>) {
    q != [] && (p == [] || p[0] < q[0] || (p[0] == q[0] && Before(p[1..], q[1..])))
  }

  predicate InDocumentOrder(ps: seq<seq<nat>>) {
    forall i, j | 0 <= i < j < |ps| :: Before(ps[i], ps[j])
  }

  lemma {:induction false} PathsAlign(bus: Bus, r: Ref, depth: nat, maxDepth: nat)
    ensures var ps, es := Paths(bus, r, depth, maxDepth), Preorder(bus, r, depth, maxDepth);
      |ps| == |es| && forall i | 0 <= i < |ps| :: EndsAt(bus, r, depth, ps[i], es[i])
    decreases maxDepth + 1 - depth, 0
  {
    if Visible(bus, r, depth, maxDepth) {
      var children := bus[r.path].children;
      ForestAlign(bus, children, 0, depth + 1, maxDepth);
      var ps, es := Paths(bus, r, depth, maxDepth), Preorder(bus, r, depth, maxDepth);
      forall i | 0 <= i < |ps| ensures EndsAt(bus, r, depth, ps[i], es[i]) {
        if i > 0 {
          assert ps[i] == ForestPaths(bus, children, 0, depth + 1, maxDepth)[i - 1];
          assert es[i] == Forest(bus, children, depth + 1, maxDepth)[i - 1];
        }
      }
    }
  }

  predicate LeadsTo(bus: Bus, rs: seq<Ref>, at: nat, depth: nat, p: seq<nat>, e: Element) {
    p != [] && at <= p[0] < at + |rs| && EndsAt(bus, rs[p[0] - at], depth, p[1..], e)
  }

  lemma {:induction false} ForestAlign(bus: Bus, rs: seq<Ref>, at: nat, depth: nat, maxDepth: nat)
    ensures var ps, es := ForestPaths(bus, rs, at, depth, maxDepth), Forest(bus, rs, depth, maxDepth);
      |ps| == |es| && forall i | 0 <= i < |ps| :: LeadsTo(bus, rs, at, depth, ps[i], es[i])
    decreases maxDepth + 1 - depth, 1, |rs|
  {
    hide EndsAt;
    if rs != [] && depth <= maxDepth {
      PathsAlign(bus, rs[0], depth, maxDepth);
      ForestAlign(bus, rs[1..], at + 1, depth, maxDepth);
      var ps, es := ForestPaths(bus, rs, at, depth, maxDepth), Forest(bus, rs, depth, maxDepth);
      var first := Paths(bus, rs[0], depth, maxDepth);
      forall i | 0 <= i < |ps| ensures LeadsTo(bus, rs, at, depth, ps[i], es[i]) {
        if i < |first| {
          assert ps[i] == [at] + first[i] && ps[i][1..] == first[i];
        } else {
          var later := i - |first|;
          assert ps[i] == ForestPaths(bus, rs[1..], at + 1, depth, maxDepth)[later];
          assert LeadsTo(bus, rs[1..], at + 1, depth, ps[i], es[i]);
        }
      }
    }
  }

  lemma {:induction false} PathsOrdered(bus: Bus, r: Ref, depth: nat, maxDepth: nat)
    ensures InDocumentOrder(Paths(bus, r, depth, maxDepth))
    decreases maxDepth + 1 - depth, 0
  {
    if Visible(bus, r, depth, maxDepth) {
      var rest := ForestPaths(bus, bus[r.path].children, 0, depth + 1, maxDepth);
      ForestOrdered(bus, bus[r.path].children, 0, depth + 1, maxDepth);
      assert Paths(bus, r, depth, maxDepth) == [[]] + rest;
    }
  }

  lemma {:induction false} ForestOrdered(bus: Bus, rs: seq<Ref>, at: nat, depth: nat, maxDepth: nat)
    ensures var ps := ForestPaths(bus, rs, at, depth, maxDepth);
      InDocumentOrder(ps) && forall i | 0 <= i < |ps| :: ps[i] != [] && ps[i][0] >= at
    decreases maxDepth + 1 - depth, 1, |rs|
  {
    if rs != [] && depth <= maxDepth {
      var first, rest := Paths(bus, rs[0], depth, maxDepth), ForestPaths(bus, rs[1..], at + 1, depth, maxDepth);
      PathsOrdered(bus, rs[0], depth, maxDepth);
      ForestOrdered(bus, rs[1..], at + 1, depth, maxDepth);
      PrefixedOrdered(at, first, rest);
    }
  }

  lemma PrefixedOrdered(k: nat, first: seq<seq<nat>>, rest: seq<seq<nat>>)
    requires InDocumentOrder(first) && InDocumentOrder(rest)
    requires forall i | 0 <= i < |rest| :: rest[i] != [] && rest[i][0] > k
    ensures InDocumentOrder(Prefixed(k, first) + rest)
  {
    var all := Prefixed(k, first) + rest;
    forall i, j | 0 <= i < j < |all| ensures Before(all[i], all[j]) {
      if j < |first| {
        assert all[i][1..] == first[i] && all[j][1..] == first[j];
      }
    }
  }

  lemma {:induction false} PathListed(bus: Bus, r: Ref, depth: nat, maxDepth: nat, positions: seq<nat>, e: Element)
    requires EndsAt(bus, r, depth, positions, e) && e.depth <= maxDepth
    ensures positions in Paths(bus, r, depth, maxDepth)
    decreases |positions|, 0
  {
    if positions == [] {
      assert Paths(bus, r, depth, maxDepth)[0] == [];
    } else {
      var children, k := bus[r.path].children, positions[0];
      PathListed(bus, children[k], depth + 1, maxDepth, positions[1..], e);
      BranchListed(bus, children, 0, k, depth + 1, maxDepth, positions[1..]);
      assert positions == [k] + positions[1..];
    }
  }

  lemma ForestHead(bus: Bus, rs: seq<Ref>, at: nat, depth: nat, maxDepth: nat)
    requires rs != [] && depth <= maxDepth
    ensures ForestPaths(bus, rs, at, depth, maxDepth)
         == Prefixed(at, Paths(bus, rs[0], depth, maxDepth)) + ForestPaths(bus, rs[1..], at + 1, depth, maxDepth)
  {
  }

  lemma {:induction false} BranchListed(bus: Bus, rs: seq<Ref>, at: nat, k: nat, depth: nat, maxDepth: nat, q: seq<nat>)
    requires k < |rs| && depth <= maxDepth && q in Paths(bus, rs[k], depth, maxDepth)
    ensures [at + k] + q in ForestPaths(bus, rs, at, depth, maxDepth)
    decreases |rs|
  {
    ForestHead(bus, rs, at, depth, maxDepth);
    hide Paths, ForestPaths;
    var first := Paths(bus, rs[0], depth, maxDepth);
    if k == 0 {
      var i :| 0 <= i < |first| && first[i] == q;
      assert Prefixed(at, first)[i] == [at] + q;
      assert ForestPaths(bus, rs, at, depth, maxDepth)[i] == [at] + q;
    } else {
      assert rs[1..][k - 1] == rs[k];
      BranchListed(bus, rs[1..], at + 1, k - 1, depth, maxDepth, q);
      assert at + 1 + (k - 1) == at + k;
    }
  }

  /**
   * The unfolding lists the ends of all chains of at most `maxDepth` child references, one entry for each chain, in
   * document order: `Paths` gives the chain of each entry.
   */
  lemma PreorderInOrder(bus: Bus, root: Ref, maxDepth: nat)
    ensures var ps, es := Paths(bus, root, 0, maxDepth), Preorder(bus, root, 0, maxDepth);
      && |ps| == |es|
      && (forall i | 0 <= i < |ps| :: EndsAt(bus, root, 0, ps[i], es[i]))
      && InDocumentOrder(ps)
      && forall p, e | EndsAt(bus, root, 0, p, e) && e.depth <= maxDepth :: p in ps
  {
    hide EndsAt, Paths, Preorder;
    PathsAlign(bus, root, 0, maxDepth);
    PathsOrdered(bus, root, 0, maxDepth);
    forall p, e | EndsAt(bus, root, 0, p, e) && e.depth <= maxDepth ensures p in Paths(bus, root, 0, maxDepth) {
      PathListed(bus, root, 0, maxDepth, p, e);
    }
  }
}
