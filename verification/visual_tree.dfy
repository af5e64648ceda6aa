/** The visual-tree helpers of the combo box: a breadth-first search for a named
    descendant, and two focus moves to a neighbouring element (a row or a column
    away). The visual tree is a finite tree of nodes; a node is designated by the
    child indices that lead to it from the root, which is how the parent of a node
    (VisualTreeHelper.GetParent) is found. */
module VisualTreeModule {
  import opened Wrappers

  /** What a node is: a plain visual, a framework element, or a panel (a framework
      element whose visual children are its Children collection). */
  datatype Kind = Visual | Element | Panel

  /** A node of the visual tree: its kind, its Name (meaningful for elements), the
      identity of its data context, and its visual children in index order. */
  datatype Node = Node(kind: Kind, name: string, dataContext: int, children: seq<Node>)
  {
    predicate IsElement() { kind != Visual }
    predicate IsPanel() { kind == Panel }
  }

  /** Child indices from the root down to a node. */
  type Path = seq<int>

  /** The outcome of a focus move: the node given focus (the C# method returns true),
      a refusal (it returns false), or the ArgumentOutOfRangeException that
      VisualTreeHelper.GetChild throws for an index outside a node's children. */
  datatype Move = Moved(target: Path) | NotMoved | Faulted

  // ---------------------------------------------------------------------------
  // Sizes and levels

  function Size(t: Node): nat {
    1 + ForestSize(t.children)
  }

  function ForestSize(f: seq<Node>): nat {
    if f == [] then 0 else Size(f[0]) + ForestSize(f[1..])
  }

  /** The children of every node of `f`, in order: the next level of a forest. */
  function Kids(f: seq<Node>): seq<Node> {
    if f == [] then [] else f[0].children + Kids(f[1..])
  }

  lemma {:induction false} ForestSizeAppend(a: seq<Node>, b: seq<Node>)
    ensures ForestSize(a + b) == ForestSize(a) + ForestSize(b)
  {
    if a == [] {
      assert a + b == b;
    } else {
      assert (a + b)[0] == a[0];
      assert (a + b)[1..] == a[1..] + b;
      ForestSizeAppend(a[1..], b);
    }
  }

  lemma {:induction false} KidsAppend(a: seq<Node>, b: seq<Node>)
    ensures Kids(a + b) == Kids(a) + Kids(b)
  {
    if a == [] {
      assert a + b == b;
    } else {
      assert (a + b)[0] == a[0];
      assert (a + b)[1..] == a[1..] + b;
      KidsAppend(a[1..], b);
    }
  }

  /** Going one level down loses exactly the nodes of the level itself. */
  lemma {:induction false} KidsSize(f: seq<Node>)
    ensures ForestSize(Kids(f)) + |f| == ForestSize(f)
  {
    if f != [] {
      KidsSize(f[1..]);
      ForestSizeAppend(f[0].children, Kids(f[1..]));
    }
  }

  /** Every node of the forest `f`, level by level, each level from left to right:
      the breadth-first order of the forest. */
  ghost function LevelOrder(f: seq<Node>): seq<Node>
    decreases ForestSize(f)
  {
    if f == [] then []
    else
      KidsSize(f);
      f + LevelOrder(Kids(f))
  }

  lemma LevelOrderUnfold(f: seq<Node>)
    requires f != []
    ensures LevelOrder(f) == f + LevelOrder(Kids(f))
  {
  }

  /** Visiting a prefix of a level first and appending its children behind the rest
      of the level does not change the breadth-first order. */
  lemma {:induction false} LevelOrderShift(p: seq<Node>, q: seq<Node>)
    ensures LevelOrder(p + q) == p + LevelOrder(q + Kids(p))
    decreases ForestSize(p + q)
  {
    if p == [] || q == [] {
      LevelOrderShiftBase(p, q);
    } else {
      LevelOrderOfPair(p, q);
      ShiftDecreases(p, q);
      LevelOrderShift(q, Kids(p));
      ConcatAssoc(p, q, LevelOrder(Kids(p) + Kids(q)));
    }
  }

  lemma ConcatAssoc(a: seq<Node>, b: seq<Node>, c: seq<Node>)
    ensures (a + b) + c == a + (b + c)
  {
  }

  lemma LevelOrderShiftBase(p: seq<Node>, q: seq<Node>)
    requires p == [] || q == []
    ensures LevelOrder(p + q) == p + LevelOrder(q + Kids(p))
  {
    if p == [] {
      assert p + q == q && q + Kids(p) == q;
    } else {
      assert p + q == p && q + Kids(p) == Kids(p);
      LevelOrderUnfold(p);
    }
  }

  lemma LevelOrderOfPair(p: seq<Node>, q: seq<Node>)
    requires p + q != []
    ensures LevelOrder(p + q) == (p + q) + LevelOrder(Kids(p) + Kids(q))
  {
    LevelOrderUnfold(p + q);
    KidsAppend(p, q);
  }

  lemma ShiftDecreases(p: seq<Node>, q: seq<Node>)
    requires p != []
    ensures ForestSize(q + Kids(p)) < ForestSize(p + q)
  {
    ForestSizeAppend(p, q);
    ForestSizeAppend(q, Kids(p));
    KidsSize(p);
  }

  // ---------------------------------------------------------------------------
  // Descendants

  /** `x` is `t` or lies below it. */
  ghost predicate InSubtree(x: Node, t: Node)
    decreases t
  {
    x == t || exists i :: 0 <= i < |t.children| && InSubtree(x, t.children[i])
  }

  /** `x` is one of the trees of `f` or lies below one of them. */
  ghost predicate InForest(x: Node, f: seq<Node>) {
    exists i :: 0 <= i < |f| && InSubtree(x, f[i])
  }

  lemma InForestAppend(x: Node, a: seq<Node>, b: seq<Node>)
    ensures InForest(x, a + b) <==> InForest(x, a) || InForest(x, b)
  {
    if InForest(x, a + b) {
      var i :| 0 <= i < |a + b| && InSubtree(x, (a + b)[i]);
      if i >= |a| {
        assert (a + b)[i] == b[i - |a|];
      }
    }
    if InForest(x, b) {
      var i :| 0 <= i < |b| && InSubtree(x, b[i]);
      assert (a + b)[|a| + i] == b[i];
    }
    if InForest(x, a) {
      var i :| 0 <= i < |a| && InSubtree(x, a[i]);
      assert (a + b)[i] == a[i];
    }
  }

  /** A node lies in a forest iff it is one of its roots or lies in the next level. */
  lemma {:induction false} InForestUnfold(x: Node, f: seq<Node>)
    ensures InForest(x, f) <==> x in f || InForest(x, Kids(f))
  {
    if f != [] {
      InForestUnfold(x, f[1..]);
      InForestAppend(x, [f[0]], f[1..]);
      InForestAppend(x, f[0].children, Kids(f[1..]));
      assert [f[0]] + f[1..] == f;
      assert InForest(x, [f[0]]) <==> InSubtree(x, f[0]);
      assert InSubtree(x, f[0]) <==> x == f[0] || InForest(x, f[0].children);
    }
  }

  /** The breadth-first order lists exactly the nodes of the forest. */
  lemma {:induction false} LevelOrderMembers(x: Node, f: seq<Node>)
    ensures x in LevelOrder(f) <==> InForest(x, f)
    decreases ForestSize(f)
  {
    if f != [] {
      KidsSize(f);
      LevelOrderMembers(x, Kids(f));
      InForestUnfold(x, f);
    }
  }

  // ---------------------------------------------------------------------------
  // FindChild

  /** The test FindChild applies to a visited node: a framework element with that Name. */
  predicate IsNamed(n: Node, childName: string) {
    n.IsElement() && n.name == childName
  }

  /** The first node of `s` that passes the test, if any. */
  function FirstNamed(s: seq<Node>, childName: string): (r: Option<Node>)
    ensures r.Some? ==> r.value in s && IsNamed(r.value, childName)
  {
    if s == [] then None
    else if IsNamed(s[0], childName) then Some(s[0])
    else FirstNamed(s[1..], childName)
  }

  /** FirstNamed finds nothing only when no node passes the test, and what it finds
      is preceded only by nodes that fail it. */
  lemma {:induction false} FirstNamedIsFirst(s: seq<Node>, childName: string)
    ensures var r := FirstNamed(s, childName);
            && (r.None? <==> forall n :: n in s ==> !IsNamed(n, childName))
            && (r.Some? ==> exists i :: 0 <= i < |s| && s[i] == r.value &&
                                        forall j :: 0 <= j < i ==> !IsNamed(s[j], childName))
  {
    if s != [] && !IsNamed(s[0], childName) {
      var r := FirstNamed(s[1..], childName);
      FirstNamedIsFirst(s[1..], childName);
      assert forall n :: n in s <==> n == s[0] || n in s[1..];
      if r.Some? {
        var i :| 0 <= i < |s[1..]| && s[1..][i] == r.value &&
                 forall j :: 0 <= j < i ==> !IsNamed(s[1..][j], childName);
        assert s[i + 1] == r.value;
        forall j | 0 < j < i + 1 ensures !IsNamed(s[j], childName) {
          assert s[j] == s[1..][j - 1];
        }
      }
    } else if s != [] {
      assert s[0] in s;
    }
  }

  /** The first node in breadth-first order of the forest `f` whose Name is
      `childName`, and whether there is one at all, in terms of descendants. */
  lemma FirstNamedInForest(f: seq<Node>, childName: string)
    ensures var r := FirstNamed(LevelOrder(f), childName);
            && (r.Some? ==> IsNamed(r.value, childName) && InForest(r.value, f))
            && (r.None? <==> forall d :: InForest(d, f) ==> !IsNamed(d, childName))
  {
    FirstNamedIsFirst(LevelOrder(f), childName);
    forall d ensures d in LevelOrder(f) <==> InForest(d, f) {
      LevelOrderMembers(d, f);
    }
  }

  /** Breadth-first search below `obj` for the first framework element named
      `childName`. The root itself is never tested; children are tested as they
      are taken from the queue's front node, in index order. */
  method FindChild(obj: Option<Node>, childName: string) returns (r: Option<Node>)
    ensures obj.None? ==> r.None?
    ensures obj.Some? ==> r == FirstNamed(LevelOrder(obj.value.children), childName)
    ensures r.Some? ==> obj.Some? && IsNamed(r.value, childName) && InForest(r.value, obj.value.children)
    ensures obj.Some? ==> (r.None? <==> forall d :: InForest(d, obj.value.children) ==> !IsNamed(d, childName))
  {
    if obj.None? {
      return None;
    }
    var root := obj.value;
    ghost var goal := FirstNamed(LevelOrder(root.children), childName);
    FirstNamedInForest(root.children, childName);

    var queue := [root];
    assert Kids(queue) == root.children by {
      assert Kids(queue) == root.children + Kids([]);
    }
    while |queue| > 0
      invariant FirstNamed(LevelOrder(Kids(queue)), childName) == goal
      decreases ForestSize(queue)
    {
      ghost var before := queue;
      var node := queue[0];
      var rest := queue[1..];
      ghost var later := LevelOrder(Kids(rest + node.children));
      BreadthFirstStep(node, rest);
      assert queue == [node] + rest;

      queue := rest;
      var i := 0;
      while i < |node.children|
        invariant 0 <= i <= |node.children|
        invariant queue == rest + node.children[..i]
        invariant FirstNamed(node.children[i..] + later, childName) == goal
      {
        var child := node.children[i];
        NextChild(node.children, i, rest, later, childName);
        if child.IsElement() && child.name == childName {
          return Some(child);
        }
        queue := queue + [child];
        i := i + 1;
      }
      assert node.children[..i] == node.children;
      assert node.children[i..] + later == later;
      ForestSizeAppend(rest, node.children);
      assert ForestSize(before) == Size(node) + ForestSize(rest);
    }
    return None;
  }

  /** One child tested by the inner loop of FindChild: the order still to be tested
      starts with it, and the queue grows by it. */
  lemma NextChild(children: seq<Node>, i: int, rest: seq<Node>, later: seq<Node>, childName: string)
    requires 0 <= i < |children|
    ensures FirstNamed(children[i..] + later, childName) ==
            if IsNamed(children[i], childName) then Some(children[i])
            else FirstNamed(children[i + 1..] + later, childName)
    ensures rest + children[..i] + [children[i]] == rest + children[..i + 1]
  {
    assert children[i..] + later == [children[i]] + (children[i + 1..] + later);
    assert children[..i] + [children[i]] == children[..i + 1];
  }

  /** Taking the front node off the queue and appending its children keeps the
      order in which the remaining nodes will be tested. */
  lemma BreadthFirstStep(node: Node, rest: seq<Node>)
    ensures LevelOrder(Kids([node] + rest)) == node.children + LevelOrder(Kids(rest + node.children))
  {
    assert ([node] + rest)[0] == node;
    assert ([node] + rest)[1..] == rest;
    LevelOrderShift(node.children, Kids(rest));
    KidsAppend(rest, node.children);
  }

  // ---------------------------------------------------------------------------
  // Paths

  predicate IsPath(t: Node, p: Path) {
    p == [] || (0 <= p[0] < |t.children| && IsPath(t.children[p[0]], p[1..]))
  }

  function At(t: Node, p: Path): Node
    requires IsPath(t, p)
  {
    if p == [] then t else At(t.children[p[0]], p[1..])
  }

  /** A path into a tree followed by a path into the node it reaches. */
  lemma {:induction false} PathAppend(t: Node, p: Path, q: Path)
    ensures IsPath(t, p + q) <==> IsPath(t, p) && IsPath(At(t, p), q)
    ensures IsPath(t, p + q) ==> At(t, p + q) == At(At(t, p), q)
  {
    if p == [] {
      assert p + q == q;
    } else {
      assert (p + q)[0] == p[0];
      assert (p + q)[1..] == p[1..] + q;
      if 0 <= p[0] < |t.children| {
        PathAppend(t.children[p[0]], p[1..], q);
      }
    }
  }

  /** The nodes on the way from `t` down a path: the ancestors of the last one,
      root first. */
  function Chain(t: Node, p: Path): (r: seq<Node>)
    requires IsPath(t, p)
    ensures |r| == |p| + 1 && r[0] == t && r[|p|] == At(t, p)
  {
    if p == [] then [t] else [t] + Chain(t.children[p[0]], p[1..])
  }

  /** Consecutive nodes of the chain are parent and child, joined by the path's index. */
  lemma {:induction false} ChainStep(t: Node, p: Path, j: nat)
    requires IsPath(t, p) && j < |p|
    ensures 0 <= p[j] < |Chain(t, p)[j].children| && Chain(t, p)[j + 1] == Chain(t, p)[j].children[p[j]]
  {
    if j > 0 {
      ChainStep(t.children[p[0]], p[1..], j - 1);
    }
  }

  /** Each node of the chain is the node its path prefix leads to. */
  lemma {:induction false} ChainAt(t: Node, p: Path, j: nat)
    requires IsPath(t, p) && j <= |p|
    ensures IsPath(t, p[..j]) && Chain(t, p)[j] == At(t, p[..j])
  {
    if j > 0 {
      ChainAt(t.children[p[0]], p[1..], j - 1);
      assert p[..j] == [p[0]] + p[1..][..j - 1];
    }
  }

  // ---------------------------------------------------------------------------
  // TryMoveToColumn

  /** Focus the sibling `delta` places away from the source inside its panel. */
  function TryMoveToColumn(root: Node, source: Path, delta: int): (r: Move)
    requires IsPath(root, source)
    ensures !r.Faulted?
    ensures !At(root, source).IsElement() || |source| == 0 ==> r == NotMoved
    ensures |source| > 0 ==>
              var parent := Chain(root, source)[|source| - 1];
              (r.Moved? <==> At(root, source).IsElement() && parent.IsPanel() &&
                             0 <= source[|source| - 1] + delta < |parent.children|)
    ensures r.Moved? ==> |source| > 0 && r.target == source[|source| - 1 := source[|source| - 1] + delta]
  {
    if !At(root, source).IsElement() || |source| == 0 then NotMoved
    else
      var n := |source|;
      var parent := Chain(root, source)[n - 1];
      var newIdx := source[n - 1] + delta;
      if !parent.IsPanel() || newIdx < 0 || newIdx >= |parent.children| then NotMoved
      else Moved(source[n - 1 := newIdx])
  }

  /** The focused sibling is a node of the tree: the child of the source's parent at
      the new index. */
  lemma ColumnTargetInTree(root: Node, source: Path, delta: int)
    requires IsPath(root, source) && TryMoveToColumn(root, source, delta).Moved?
    ensures var n := |source|;
            var target := TryMoveToColumn(root, source, delta).target;
            IsPath(root, target) &&
            At(root, target) == Chain(root, source)[n - 1].children[source[n - 1] + delta]
  {
    var n := |source|;
    var target := TryMoveToColumn(root, source, delta).target;
    ChainAt(root, source, n - 1);
    assert target == source[..n - 1] + [target[n - 1]];
    PathAppend(root, source[..n - 1], [target[n - 1]]);
  }

  /** Moving back by the opposite amount from the focused sibling returns to the source. */
  lemma ColumnMoveReturns(root: Node, source: Path, delta: int)
    requires IsPath(root, source)
    requires TryMoveToColumn(root, source, delta).Moved?
    requires Chain(root, source)[|source| - 1].children[source[|source| - 1] + delta].IsElement()
    ensures var t := TryMoveToColumn(root, source, delta).target;
            IsPath(root, t) && TryMoveToColumn(root, t, -delta) == Moved(source)
  {
    var n := |source|;
    var t := TryMoveToColumn(root, source, delta).target;
    ColumnTargetInTree(root, source, delta);
    SameParent(root, source, t);
    assert t[n - 1 := t[n - 1] + -delta] == source;
  }

  /** Two paths that differ only in their last index have the same parent. */
  lemma SameParent(root: Node, p: Path, q: Path)
    requires IsPath(root, p) && IsPath(root, q) && |p| == |q| > 0
    requires forall i :: 0 <= i < |p| - 1 ==> p[i] == q[i]
    ensures Chain(root, p)[|p| - 1] == Chain(root, q)[|q| - 1]
  {
    var n := |p|;
    assert p[..n - 1] == q[..n - 1];
    ChainAt(root, p, n - 1);
    ChainAt(root, q, n - 1);
  }

  // ---------------------------------------------------------------------------
  // TryMoveToRow

  /** The deepest level `j` of a chain at which a node's data context differs from
      its parent's: where a climb from the chain's last node stops. */
  function ContextBoundary(chain: seq<Node>): (r: Option<nat>)
    ensures r.Some? ==> 0 < r.value < |chain| && !SharesParentContext(chain, r.value)
    decreases |chain|
  {
    if |chain| < 2 then None
    else if !SharesParentContext(chain, |chain| - 1) then Some(|chain| - 1)
    else
      var r := ContextBoundary(chain[..|chain| - 1]);
      assert r.Some? ==> chain[..|chain| - 1][r.value - 1] == chain[r.value - 1] &&
                         chain[..|chain| - 1][r.value] == chain[r.value];
      r
  }

  /** The boundary is the deepest level whose node changes data context: every
      node below it shares its parent's context, and so does every node when there
      is no boundary. */
  lemma {:induction false} BoundaryIsDeepest(chain: seq<Node>)
    ensures var r := ContextBoundary(chain);
            && (r.Some? ==> forall j :: r.value < j < |chain| ==> SharesParentContext(chain, j))
            && (r.None? ==> forall j :: 0 < j < |chain| ==> SharesParentContext(chain, j))
    decreases |chain|
  {
    if |chain| >= 2 && SharesParentContext(chain, |chain| - 1) {
      var prefix := chain[..|chain| - 1];
      BoundaryIsDeepest(prefix);
      forall j | 0 < j < |chain| - 1
        ensures SharesParentContext(prefix, j) == SharesParentContext(chain, j)
      {
        assert prefix[j - 1] == chain[j - 1] && prefix[j] == chain[j];
      }
    }
  }

  /** The node at level `j` of a chain has the same data context as its parent. */
  predicate SharesParentContext(chain: seq<Node>, j: int)
    requires 0 < j < |chain|
  {
    chain[j - 1].dataContext == chain[j].dataContext
  }

  /** The climb may pass through `parent`: it is a framework element, and when it
      has several children it is a panel (so the child's index can be looked up). */
  predicate CanClimbTo(parent: Node) {
    parent.IsElement() && (|parent.children| > 1 ==> parent.IsPanel())
  }

  /** Every parent met while climbing from the chain's last node up to level `k`
      lets the climb through. */
  ghost predicate Climbable(chain: seq<Node>, k: int) {
    forall j :: 0 <= j < |chain| - 1 && k - 1 <= j ==> CanClimbTo(chain[j])
  }

  /** The source path with the index at depth `k - 1` moved by `delta`: the row
      `delta` places away, at the same position inside the row. */
  function Shifted(p: Path, k: int, delta: int): (r: Path)
    requires 0 < k <= |p|
    ensures |r| == |p| && r[k - 1] == p[k - 1] + delta
    ensures forall j :: 0 <= j < |p| && j != k - 1 ==> r[j] == p[j]
  {
    p[k - 1 := p[k - 1] + delta]
  }

  /** Every node reached from `start` along `steps` is a framework element (and
      every step is a valid child index). */
  ghost predicate ElementsBelow(start: Node, steps: Path) {
    forall m :: 0 < m <= |steps| ==> IsPath(start, steps[..m]) && At(start, steps[..m]).IsElement()
  }

  /** Focus the element in the neighbouring row: climb from the source while the
      parent shares its data context, shift the index by `delta` at the first parent
      whose data context differs, and descend again along the recorded indices. */
  method TryMoveToRow(root: Node, source: Path, delta: int) returns (r: Move)
    requires IsPath(root, source)
    ensures var chain := Chain(root, source);
            var boundary := ContextBoundary(chain);
            && (!At(root, source).IsElement() ==> r == NotMoved)
            && (boundary.None? ==> r == NotMoved)
            && (boundary.Some? ==>
                  var k := boundary.value;
                  var steps := Shifted(source, k, delta)[k - 1..];
                  && (!Climbable(chain, k) ==> r == NotMoved)
                  && (!(0 <= source[k - 1] + delta < |chain[k - 1].children|) ==> r == NotMoved)
                  && (r.Moved? ==> r.target == Shifted(source, k, delta) && ElementsBelow(chain[k - 1], steps) &&
                                   IsPath(root, r.target) && At(root, r.target).IsElement())
                  && (r.Faulted? ==> !IsPath(chain[k - 1], steps))
                  && (At(root, source).IsElement() && Climbable(chain, k) && ElementsBelow(chain[k - 1], steps) ==>
                      r == Moved(Shifted(source, k, delta))))
  {
    var chain := Chain(root, source);
    forall i | 0 <= i < |source|
      ensures ParentLink(chain, source, i)
    {
      ChainStep(root, source, i);
    }
    r := MoveInChain(chain, source, delta);
    if r.Moved? {
      ghost var k := ContextBoundary(chain).value;
      ElementsBelowEnd(chain[k - 1], Shifted(source, k, delta)[k - 1..]);
      RowTargetFromRoot(root, source, k, delta);
    }
  }

  /** TryMoveToRow on the ancestor chain of the source (root first): the climb, the
      check of the source, and the descent from the parent at the boundary. */
  method MoveInChain(chain: seq<Node>, source: Path, delta: int) returns (r: Move)
    requires |chain| == |source| + 1
    requires forall i :: 0 <= i < |source| ==> ParentLink(chain, source, i)
    ensures var boundary := ContextBoundary(chain);
            && (!chain[|source|].IsElement() ==> r == NotMoved)
            && (boundary.None? ==> r == NotMoved)
            && (boundary.Some? ==>
                  var k := boundary.value;
                  var steps := Shifted(source, k, delta)[k - 1..];
                  && (!Climbable(chain, k) ==> r == NotMoved)
                  && (!(0 <= source[k - 1] + delta < |chain[k - 1].children|) ==> r == NotMoved)
                  && (r.Moved? ==> r.target == Shifted(source, k, delta) && ElementsBelow(chain[k - 1], steps))
                  && (r.Faulted? ==> !IsPath(chain[k - 1], steps))
                  && (chain[|source|].IsElement() && Climbable(chain, k) && ElementsBelow(chain[k - 1], steps) ==>
                      r == Moved(Shifted(source, k, delta))))
  {
    if !chain[|source|].IsElement() {
      return NotMoved;
    }
    var found, j, indices := Climb(chain, source, delta);
    ghost var boundary := ContextBoundary(chain);
    if !found {
      if boundary.Some? && !(0 <= source[boundary.value - 1] + delta < |chain[boundary.value - 1].children|) {
        FirstStepOutside(chain[boundary.value - 1], Shifted(source, boundary.value, delta)[boundary.value - 1..]);
      }
      return NotMoved;
    }
    var descent := Descend(chain[j - 1], indices);
    if !descent.Moved? {
      return descent;
    }
    PushPrefix(source, j, delta);
    return Moved(source[..j - 1] + indices);
  }

  /** The last node reached along steps that pass only through elements is an element. */
  lemma ElementsBelowEnd(start: Node, steps: Path)
    requires |steps| > 0 && ElementsBelow(start, steps)
    ensures IsPath(start, steps) && At(start, steps).IsElement()
  {
    assert steps[..|steps|] == steps;
  }

  /** The untouched part of the source path followed by the recorded indices is the
      shifted path. */
  lemma PushPrefix(source: Path, k: int, delta: int)
    requires 0 < k <= |source|
    ensures source[..k - 1] + Shifted(source, k, delta)[k - 1..] == Shifted(source, k, delta)
  {
    var shifted := Shifted(source, k, delta);
    assert source[..k - 1] == shifted[..k - 1];
    assert shifted[..k - 1] + shifted[k - 1..] == shifted;
  }

  /** The climb of TryMoveToRow: from the source, go up while the parent shares the
      child's data context, pushing the child's index onto `indices` (top first).
      At the first parent with another data context push the shifted index instead
      and report `found` with that parent's child at depth `j`. The climb gives up at
      the root, at a parent that is not a framework element, at a parent with several
      children that is not a panel, or when the shifted index leaves the parent. */
  method Climb(chain: seq<Node>, source: Path, delta: int) returns (found: bool, j: int, indices: seq<int>)
    requires |chain| == |source| + 1
    requires forall i :: 0 <= i < |source| ==> ParentLink(chain, source, i)
    ensures var boundary := ContextBoundary(chain);
            && (found ==> boundary == Some(j) && Climbable(chain, j) &&
                          0 <= source[j - 1] + delta < |chain[j - 1].children| &&
                          indices == Shifted(source, j, delta)[j - 1..])
            && (!found ==> boundary.None? || !Climbable(chain, boundary.value) ||
                           !(0 <= source[boundary.value - 1] + delta < |chain[boundary.value - 1].children|))
  {
    ghost var boundary := ContextBoundary(chain);
    // The current child is chain[j].
    j := |source|;
    assert chain[..j + 1] == chain;
    indices := [];
    while true
      invariant 0 <= j <= |source|
      invariant indices == source[j..]
      invariant ContextBoundary(chain[..j + 1]) == boundary
      invariant Climbable(chain, j + 1)
      decreases j
    {
      if j == 0 {
        return false, j, indices;
      }
      var parent := chain[j - 1];
      if !parent.IsElement() {
        ClimbBlocked(chain, j);
        return false, j, indices;
      }
      var childCount := |parent.children|;
      var idx: int;
      if childCount > 1 {
        if !parent.IsPanel() {
          ClimbBlocked(chain, j);
          return false, j, indices;
        }
        idx := source[j - 1];
      } else {
        idx := 0;
      }
      assert ParentLink(chain, source, j - 1);
      assert idx == source[j - 1];
      BoundaryStep(chain, j);
      if parent.dataContext == chain[j].dataContext {
        ClimbableStep(chain, j);
        PushIndex(source, j);
        indices := [idx] + indices;
        j := j - 1;
        continue;
      }
      assert boundary == Some(j);
      var newIdx := idx + delta;
      if newIdx < 0 || newIdx >= childCount {
        return false, j, indices;
      }
      PushShifted(source, j, delta);
      indices := [newIdx] + indices;
      return true, j, indices;
    }
  }

  /** Level `j + 1` of the chain is the child of level `j` at index `source[j]`. */
  predicate ParentLink(chain: seq<Node>, source: Path, j: int)
    requires 0 <= j < |source| && |chain| == |source| + 1
  {
    0 <= source[j] < |chain[j].children| && chain[j + 1] == chain[j].children[source[j]]
  }

  /** Pushing the (shifted) index of level `j - 1` onto the stack `source[j..]`. */
  lemma PushIndex(source: Path, j: int)
    requires 0 < j <= |source|
    ensures [source[j - 1]] + source[j..] == source[j - 1..]
  {
  }

  lemma PushShifted(source: Path, j: int, delta: int)
    requires 0 < j <= |source|
    ensures [source[j - 1] + delta] + source[j..] == Shifted(source, j, delta)[j - 1..]
  {
  }

  /** One level up: the boundary of the chain cut below level `j` is `j` itself
      when the node there has another data context than its parent, and otherwise
      the boundary of the chain cut one level higher. */
  lemma BoundaryStep(chain: seq<Node>, j: int)
    requires 0 < j < |chain|
    ensures ContextBoundary(chain[..j + 1]) ==
            if SharesParentContext(chain, j) then ContextBoundary(chain[..j]) else Some(j)
  {
    assert chain[..j + 1][..j] == chain[..j];
  }

  /** A parent the climb can pass extends the climbable part of the chain by one level. */
  lemma ClimbableStep(chain: seq<Node>, j: int)
    requires 0 < j < |chain| && Climbable(chain, j + 1) && CanClimbTo(chain[j - 1])
    ensures Climbable(chain, j)
  {
  }

  /** A parent the climb cannot pass, met below the context boundary, means the
      whole chain up to the boundary is not climbable. */
  lemma ClimbBlocked(chain: seq<Node>, j: int)
    requires 0 < j < |chain|
    requires ContextBoundary(chain[..j + 1]) == ContextBoundary(chain)
    requires !CanClimbTo(chain[j - 1])
    ensures ContextBoundary(chain).None? || !Climbable(chain, ContextBoundary(chain).value)
  {
  }

  /** The descent of TryMoveToRow: pop the recorded indices from `start`, stopping at
      an index with no child (Faulted) or at a node that is not a framework element
      (NotMoved); Moved(steps) when every node on the way is an element. */
  method Descend(start: Node, steps: Path) returns (r: Move)
    ensures r.Moved? <==> ElementsBelow(start, steps)
    ensures r.Moved? ==> r.target == steps && IsPath(start, steps)
    ensures r.Faulted? ==> !IsPath(start, steps)
  {
    var indices := steps;
    var target := start;
    ghost var m := 0;
    while |indices| > 0
      invariant 0 <= m <= |steps| && indices == steps[m..]
      invariant IsPath(start, steps[..m]) && At(start, steps[..m]) == target
      invariant forall m' :: 0 < m' <= m ==> IsPath(start, steps[..m']) && At(start, steps[..m']).IsElement()
      decreases |indices|
    {
      var idx := indices[0];
      assert steps[..m + 1] == steps[..m] + [idx];
      PathAppend(start, steps[..m], [idx]);
      if !(0 <= idx < |target.children|) {
        PathAppend(start, steps[..m + 1], steps[m + 1..]);
        assert steps == steps[..m + 1] + steps[m + 1..];
        return Faulted;
      }
      indices := indices[1..];
      target := target.children[idx];
      m := m + 1;
      if !target.IsElement() {
        return NotMoved;
      }
    }
    assert steps[..m] == steps;
    return Moved(steps);
  }

  /** A first step outside the start node's children leads nowhere. */
  lemma FirstStepOutside(start: Node, steps: Path)
    requires |steps| > 0 && !(0 <= steps[0] < |start.children|)
    ensures !IsPath(start, steps) && !ElementsBelow(start, steps)
  {
    assert steps[..1] == [steps[0]];
  }

  /** The shifted path, read from the root, reaches the node the descent reached
      from the parent at depth `k - 1`. */
  lemma RowTargetFromRoot(root: Node, source: Path, k: int, delta: int)
    requires IsPath(root, source) && 0 < k <= |source|
    requires IsPath(Chain(root, source)[k - 1], Shifted(source, k, delta)[k - 1..])
    ensures IsPath(root, Shifted(source, k, delta))
    ensures At(root, Shifted(source, k, delta)) == At(Chain(root, source)[k - 1], Shifted(source, k, delta)[k - 1..])
  {
    var shifted := Shifted(source, k, delta);
    PushPrefix(source, k, delta);
    ChainAt(root, source, k - 1);
    PathAppend(root, source[..k - 1], shifted[k - 1..]);
  }
}
