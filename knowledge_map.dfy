/** The knowledge map's tree (src/components/KnowledgeMap.jsx): folders and notes with
    positions relative to their parent. A double click on a folder flips whether it is
    expanded (`toggleInTree`), and the tree is flattened for the graph view
    (`flattenTree`): every node gets its absolute position and its depth, the children of
    an expanded folder are shown only from zoom 0.7 up, and an edge joins each shown
    folder to each of its children. */
module KnowledgeMap {

  datatype Kind = Folder | Note

  datatype Pos = Pos(x: int, y: int)

  /** The `children` property: absent, or an array of nodes. */
  datatype Children = NoChildren | ChildList(nodes: seq<TreeNode>)

  /** A node of the hierarchical data; `title` is its `label`. A note has no `expanded`
      property in the source; here it reads false. */
  datatype TreeNode = TreeNode(
    id: string,
    kind: Kind,
    title: string,
    position: Pos,
    expanded: bool,
    children: Children)

  /** The number of nodes in a forest, counting every level. */
  function TreeSize(tree: seq<TreeNode>): nat
    decreases tree
  {
    if tree == [] then 0 else NodeSize(tree[0]) + TreeSize(tree[1..])
  }

  function NodeSize(node: TreeNode): nat
    decreases node
  {
    1 + match node.children
        case NoChildren => 0
        case ChildList(ns) => TreeSize(ns)
  }

  /** The children of a node of a forest make a smaller forest. */
  lemma {:induction false} ChildrenAreSmaller(tree: seq<TreeNode>, i: nat)
    requires i < |tree| && tree[i].children.ChildList?
    ensures TreeSize(tree[i].children.nodes) < TreeSize(tree)
    decreases i
  {
    if i > 0 {
      ChildrenAreSmaller(tree[1..], i - 1);
    }
  }

  // ---------------------------------------------------------------------------
  // toggleInTree
  // ---------------------------------------------------------------------------

  /** `toggleInTree`: the tree mapped node by node. */
  function ToggleInTree(tree: seq<TreeNode>, id: string): (r: seq<TreeNode>)
    ensures |r| == |tree|
    decreases tree
  {
    seq(|tree|, i requires 0 <= i < |tree| => ToggleNode(tree[i], id))
  }

  /** A folder with the id has its `expanded` flipped and is not descended into; any
      other node with a non-empty children array has its children toggled; the rest is
      returned as it is. */
  function ToggleNode(node: TreeNode, id: string): (r: TreeNode)
    ensures r.id == node.id && r.kind == node.kind && r.title == node.title && r.position == node.position
    ensures node.id == id && node.kind == Folder ==> r == node.(expanded := !node.expanded)
    ensures !(node.id == id && node.kind == Folder) ==> r.expanded == node.expanded
    decreases node
  {
    if node.id == id && node.kind == Folder then node.(expanded := !node.expanded)
    else
      match node.children
      case ChildList(ns) => if |ns| > 0 then node.(children := ChildList(ToggleInTree(ns, id))) else node
      case NoChildren => node
  }

  /** The tree with every `expanded` flag cleared: what a toggle may not change. */
  function Skeleton(tree: seq<TreeNode>): (r: seq<TreeNode>)
    decreases tree
  {
    seq(|tree|, i requires 0 <= i < |tree| => NodeSkeleton(tree[i]))
  }

  function NodeSkeleton(node: TreeNode): TreeNode
    decreases node
  {
    node.(expanded := false,
          children := match node.children
                      case NoChildren => NoChildren
                      case ChildList(ns) => ChildList(Skeleton(ns)))
  }

  /** Toggling keeps the shape of the tree: the same nodes, ids, labels, positions and
      children at every level, in the same order; only `expanded` flags may differ. */
  lemma {:induction false} ToggleKeepsShape(tree: seq<TreeNode>, id: string)
    ensures Skeleton(ToggleInTree(tree, id)) == Skeleton(tree)
    decreases tree
  {
    forall i | 0 <= i < |tree|
      ensures NodeSkeleton(ToggleNode(tree[i], id)) == NodeSkeleton(tree[i])
    {
      ToggleNodeKeepsShape(tree[i], id);
    }
  }

  lemma {:induction false} ToggleNodeKeepsShape(node: TreeNode, id: string)
    ensures NodeSkeleton(ToggleNode(node, id)) == NodeSkeleton(node)
    decreases node
  {
    if !(node.id == id && node.kind == Folder) {
      match node.children
      case ChildList(ns) =>
        if |ns| > 0 {
          ToggleKeepsShape(ns, id);
        }
      case NoChildren =>
    }
  }

  /** Whether some folder anywhere in the tree has the id. */
  predicate HasFolder(tree: seq<TreeNode>, id: string)
    decreases tree
  {
    exists i :: 0 <= i < |tree| && NodeHasFolder(tree[i], id)
  }

  predicate NodeHasFolder(node: TreeNode, id: string)
    decreases node
  {
    (node.id == id && node.kind == Folder)
    || match node.children
       case NoChildren => false
       case ChildList(ns) => HasFolder(ns, id)
  }

  /** An id that names no folder (absent, or naming only notes) leaves the tree as it is. */
  lemma {:induction false} ToggleAbsent(tree: seq<TreeNode>, id: string)
    requires !HasFolder(tree, id)
    ensures ToggleInTree(tree, id) == tree
    decreases tree
  {
    forall i | 0 <= i < |tree|
      ensures ToggleNode(tree[i], id) == tree[i]
    {
      ToggleNodeAbsent(tree[i], id);
    }
  }

  lemma {:induction false} ToggleNodeAbsent(node: TreeNode, id: string)
    requires !NodeHasFolder(node, id)
    ensures ToggleNode(node, id) == node
    decreases node
  {
    match node.children
    case ChildList(ns) =>
      if |ns| > 0 {
        ToggleAbsent(ns, id);
      }
    case NoChildren =>
  }

  /** Toggling the same id twice gives back the tree. */
  lemma {:induction false} ToggleTwice(tree: seq<TreeNode>, id: string)
    ensures ToggleInTree(ToggleInTree(tree, id), id) == tree
    decreases tree
  {
    forall i | 0 <= i < |tree|
      ensures ToggleNode(ToggleNode(tree[i], id), id) == tree[i]
    {
      ToggleNodeTwice(tree[i], id);
    }
  }

  lemma {:induction false} ToggleNodeTwice(node: TreeNode, id: string)
    ensures ToggleNode(ToggleNode(node, id), id) == node
    decreases node
  {
    if !(node.id == id && node.kind == Folder) {
      match node.children
      case ChildList(ns) =>
        if |ns| > 0 {
          ToggleTwice(ns, id);
        }
      case NoChildren =>
    }
  }

  /** Every folder carries a children array (possibly empty), as in the initial data. */
  predicate FoldersHaveChildren(tree: seq<TreeNode>)
    decreases tree
  {
    forall i :: 0 <= i < |tree| ==> NodeFoldersHaveChildren(tree[i])
  }

  predicate NodeFoldersHaveChildren(node: TreeNode)
    decreases node
  {
    match node.children
    case NoChildren => node.kind != Folder
    case ChildList(ns) => FoldersHaveChildren(ns)
  }

  /** Toggling keeps every folder's children array. */
  lemma {:induction false} ToggleKeepsChildrenArrays(tree: seq<TreeNode>, id: string)
    requires FoldersHaveChildren(tree)
    ensures FoldersHaveChildren(ToggleInTree(tree, id))
    decreases tree
  {
    forall i | 0 <= i < |tree|
      ensures NodeFoldersHaveChildren(ToggleNode(tree[i], id))
    {
      ToggleNodeKeepsChildrenArrays(tree[i], id);
    }
  }

  lemma {:induction false} ToggleNodeKeepsChildrenArrays(node: TreeNode, id: string)
    requires NodeFoldersHaveChildren(node)
    ensures NodeFoldersHaveChildren(ToggleNode(node, id))
    decreases node
  {
    if !(node.id == id && node.kind == Folder) {
      match node.children
      case ChildList(ns) =>
        if |ns| > 0 {
          ToggleKeepsChildrenArrays(ns, id);
        }
      case NoChildren =>
    }
  }

  // ---------------------------------------------------------------------------
  // flattenTree
  // ---------------------------------------------------------------------------

  /** `ZOOM_THRESHOLD_CHILDREN`: from this zoom up, an expanded folder shows its children. */
  const ZoomThresholdChildren: real := 0.7

  /** The `data` of a flattened node. */
  datatype FlatData = FlatData(title: string, expanded: bool, isFolder: bool, childCount: nat, level: nat)

  /** A node as handed to the graph view, at its absolute position. */
  datatype FlatNode = FlatNode(id: string, kind: Kind, position: Pos, data: FlatData)

  /** An edge of the view; `strokeWidth` is its style's line width. */
  datatype Edge = Edge(id: string, source: string, target: string, strokeWidth: nat)

  /** What `flattenTree` returns. */
  datatype Flat = Flat(nodes: seq<FlatNode>, edges: seq<Edge>)

  function Join(a: Flat, b: Flat): Flat
  {
    Flat(a.nodes + b.nodes, a.edges + b.edges)
  }

  function AbsPos(parentAbs: Pos, relative: Pos): Pos
  {
    Pos(parentAbs.x + relative.x, parentAbs.y + relative.y)
  }

  function ChildCount(children: Children): nat
  {
    match children
    case NoChildren => 0
    case ChildList(ns) => |ns|
  }

  /** The flattened node pushed for `node`. */
  function Emit(node: TreeNode, parentAbs: Pos, level: nat): FlatNode
  {
    FlatNode(node.id, node.kind, AbsPos(parentAbs, node.position),
             FlatData(node.title, node.expanded, node.kind == Folder, ChildCount(node.children), level))
  }

  /** Whether the node's children are flattened too. */
  predicate Open(node: TreeNode, zoom: real)
  {
    node.kind == Folder && node.expanded && zoom >= ZoomThresholdChildren
  }

  /** The edge from a folder at `level` to one of its children. */
  function ChildEdge(parentId: string, childId: string, level: nat): Edge
  {
    Edge("e-" + parentId + "-" + childId, parentId, childId, if level == 0 then 3 else 2)
  }

  function ChildEdges(parentId: string, children: seq<TreeNode>, level: nat): seq<Edge>
  {
    seq(|children|, k requires 0 <= k < |children| => ChildEdge(parentId, children[k].id, level))
  }

  /** The result of `flattenTree(tree, parentAbs, zoom, level)`: each node's own
      contribution, in order. */
  function Flattened(tree: seq<TreeNode>, parentAbs: Pos, zoom: real, level: nat): Flat
    decreases tree
  {
    if tree == [] then Flat([], [])
    else Join(FlattenedNode(tree[0], parentAbs, zoom, level), Flattened(tree[1..], parentAbs, zoom, level))
  }

  /** One node's contribution: the node, then, when it is open, its flattened children;
      the edges to its children, then the edges inside them. An open folder without a
      children array makes the source throw; `FlattenTree` excludes it, and here it
      contributes only itself. */
  function FlattenedNode(node: TreeNode, parentAbs: Pos, zoom: real, level: nat): Flat
    decreases node
  {
    var absPos := AbsPos(parentAbs, node.position);
    match node.children
    case ChildList(ns) =>
      if Open(node, zoom) then
        var sub := Flattened(ns, absPos, zoom, level + 1);
        Flat([Emit(node, parentAbs, level)] + sub.nodes, ChildEdges(node.id, ns, level) + sub.edges)
      else Flat([Emit(node, parentAbs, level)], [])
    case NoChildren => Flat([Emit(node, parentAbs, level)], [])
  }

  /** Every folder whose children are flattened has a children array. */
  predicate CanFlatten(tree: seq<TreeNode>, zoom: real)
    decreases tree
  {
    forall i :: 0 <= i < |tree| ==> CanFlattenNode(tree[i], zoom)
  }

  predicate CanFlattenNode(node: TreeNode, zoom: real)
    decreases node
  {
    match node.children
    case NoChildren => !Open(node, zoom)
    case ChildList(ns) => Open(node, zoom) ==> CanFlatten(ns, zoom)
  }

  /** A tree whose folders all have children arrays can be flattened at any zoom. */
  lemma {:induction false} ChildrenArraysSuffice(tree: seq<TreeNode>, zoom: real)
    requires FoldersHaveChildren(tree)
    ensures CanFlatten(tree, zoom)
    decreases tree
  {
    forall i | 0 <= i < |tree|
      ensures CanFlattenNode(tree[i], zoom)
    {
      NodeChildrenArraysSuffice(tree[i], zoom);
    }
  }

  lemma {:induction false} NodeChildrenArraysSuffice(node: TreeNode, zoom: real)
    requires NodeFoldersHaveChildren(node)
    ensures CanFlattenNode(node, zoom)
    decreases node
  {
    match node.children
    case ChildList(ns) => ChildrenArraysSuffice(ns, zoom);
    case NoChildren =>
  }

  /** Flattening a forest extended by one node appends that node's contribution. */
  lemma {:induction false} FlattenedAppend(tree: seq<TreeNode>, node: TreeNode, parentAbs: Pos, zoom: real, level: nat)
    ensures Flattened(tree + [node], parentAbs, zoom, level)
            == Join(Flattened(tree, parentAbs, zoom, level), FlattenedNode(node, parentAbs, zoom, level))
    decreases |tree|
  {
    if tree != [] {
      assert (tree + [node])[1..] == tree[1..] + [node];
      FlattenedAppend(tree[1..], node, parentAbs, zoom, level);
    } else {
      assert [node][1..] == [];
    }
  }

  /** `node.children.forEach(child => flatEdges.push(...))`: one edge per child, in order. */
  method PushChildEdges(edges: seq<Edge>, parentId: string, children: seq<TreeNode>, level: nat)
    returns (result: seq<Edge>)
    ensures result == edges + ChildEdges(parentId, children, level)
  {
    result := edges;
    var j := 0;
    while j < |children|
      invariant 0 <= j <= |children|
      invariant result == edges + ChildEdges(parentId, children[..j], level)
    {
      result := result + [Edge("e-" + parentId + "-" + children[j].id, parentId, children[j].id,
                               if level == 0 then 3 else 2)];
      j := j + 1;
    }
    assert children[..j] == children;
  }

  /** `flattenTree`: a `forEach` over the nodes that pushes each node, and for an open
      folder concatenates its flattened children, pushes an edge per child and
      concatenates the children's edges. */
  method FlattenTree(tree: seq<TreeNode>, parentAbs: Pos, zoom: real, level: nat) returns (result: Flat)
    requires CanFlatten(tree, zoom)
    ensures result == Flattened(tree, parentAbs, zoom, level)
    decreases TreeSize(tree)
  {
    var flatNodes: seq<FlatNode> := [];
    var flatEdges: seq<Edge> := [];
    var i := 0;
    while i < |tree|
      invariant 0 <= i <= |tree|
      invariant Flat(flatNodes, flatEdges) == Flattened(tree[..i], parentAbs, zoom, level)
    {
      var node := tree[i];
      ghost var prior := Flat(flatNodes, flatEdges);
      assert CanFlattenNode(node, zoom);
      var absPos := Pos(parentAbs.x + node.position.x, parentAbs.y + node.position.y);
      flatNodes := flatNodes + [FlatNode(node.id, node.kind, absPos,
                                         FlatData(node.title, node.expanded, node.kind == Folder,
                                                  if node.children.ChildList? then |node.children.nodes| else 0, level))];
      assert flatNodes == prior.nodes + [Emit(node, parentAbs, level)];
      if node.kind == Folder && node.expanded && zoom >= ZoomThresholdChildren {
        var children := node.children.nodes;
        ChildrenAreSmaller(tree, i);
        var sub := FlattenTree(children, absPos, zoom, level + 1);
        flatNodes := flatNodes + sub.nodes;
        flatEdges := PushChildEdges(flatEdges, node.id, children, level);
        flatEdges := flatEdges + sub.edges;
        assert Flat(flatNodes, flatEdges) == Join(prior, FlattenedNode(node, parentAbs, zoom, level));
      } else {
        assert Flat(flatNodes, flatEdges) == Join(prior, FlattenedNode(node, parentAbs, zoom, level));
      }
      FlattenedAppend(tree[..i], node, parentAbs, zoom, level);
      assert tree[..i + 1] == tree[..i] + [node];
      i := i + 1;
    }
    assert tree[..i] == tree;
    result := Flat(flatNodes, flatEdges);
  }

  /** One edge per shown node below the top level: the edges number the nodes less the
      top-level ones. */
  lemma {:induction false} EdgePerChild(tree: seq<TreeNode>, parentAbs: Pos, zoom: real, level: nat)
    ensures |Flattened(tree, parentAbs, zoom, level).edges| + |tree| == |Flattened(tree, parentAbs, zoom, level).nodes|
    decreases tree
  {
    if tree != [] {
      NodeEdgePerChild(tree[0], parentAbs, zoom, level);
      EdgePerChild(tree[1..], parentAbs, zoom, level);
    }
  }

  lemma {:induction false} NodeEdgePerChild(node: TreeNode, parentAbs: Pos, zoom: real, level: nat)
    ensures |FlattenedNode(node, parentAbs, zoom, level).edges| + 1 == |FlattenedNode(node, parentAbs, zoom, level).nodes|
    decreases node
  {
    match node.children
    case ChildList(ns) =>
      if Open(node, zoom) {
        EdgePerChild(ns, AbsPos(parentAbs, node.position), zoom, level + 1);
      }
    case NoChildren =>
  }

  /** The top-level nodes, each at the parent's position plus its own. */
  function TopRow(tree: seq<TreeNode>, parentAbs: Pos, level: nat): seq<FlatNode>
  {
    seq(|tree|, i requires 0 <= i < |tree| => Emit(tree[i], parentAbs, level))
  }

  /** Below zoom 0.7 only the top level is shown, and no edge. */
  lemma {:induction false} BelowThresholdTopLevelOnly(tree: seq<TreeNode>, parentAbs: Pos, zoom: real, level: nat)
    requires zoom < ZoomThresholdChildren
    ensures Flattened(tree, parentAbs, zoom, level) == Flat(TopRow(tree, parentAbs, level), [])
    decreases tree
  {
    if tree != [] {
      BelowThresholdTopLevelOnly(tree[1..], parentAbs, zoom, level);
      assert TopRow(tree, parentAbs, level) == [Emit(tree[0], parentAbs, level)] + TopRow(tree[1..], parentAbs, level);
    }
  }

  /** Every top-level node is shown, at the parent's absolute position plus its relative
      one, with its depth as level, its child count and whether it is a folder. */
  lemma {:induction false} TopLevelShown(tree: seq<TreeNode>, parentAbs: Pos, zoom: real, level: nat)
    ensures forall k :: 0 <= k < |tree| ==> Emit(tree[k], parentAbs, level) in Flattened(tree, parentAbs, zoom, level).nodes
    decreases tree
  {
    if tree != [] {
      TopLevelShown(tree[1..], parentAbs, zoom, level);
      forall k | 0 <= k < |tree|
        ensures Emit(tree[k], parentAbs, level) in Flattened(tree, parentAbs, zoom, level).nodes
      {
        if k > 0 {
          assert tree[1..][k - 1] == tree[k];
        }
      }
    }
  }

  /** The children of an open top-level folder are shown, each at its parent's absolute
      position plus its own, one level deeper. */
  lemma ChildrenShown(tree: seq<TreeNode>, parentAbs: Pos, zoom: real, level: nat, k: nat)
    requires k < |tree| && tree[k].children.ChildList? && Open(tree[k], zoom)
    ensures forall m :: 0 <= m < |tree[k].children.nodes| ==>
              Emit(tree[k].children.nodes[m], AbsPos(parentAbs, tree[k].position), level + 1)
                in Flattened(tree, parentAbs, zoom, level).nodes
  {
    var ns := tree[k].children.nodes;
    var absPos := AbsPos(parentAbs, tree[k].position);
    TopLevelShown(ns, absPos, zoom, level + 1);
    ContributionIncluded(tree, parentAbs, zoom, level, k);
  }

  /** A node that is not open (a note, a collapsed folder, or any folder below zoom 0.7)
      contributes only itself: none of its children and no edge. */
  lemma ClosedShowsOnlyItself(node: TreeNode, parentAbs: Pos, zoom: real, level: nat)
    requires !Open(node, zoom)
    ensures FlattenedNode(node, parentAbs, zoom, level) == Flat([Emit(node, parentAbs, level)], [])
  {
  }

  /** A node's contribution is part of the flattened forest. */
  lemma {:induction false} ContributionIncluded(tree: seq<TreeNode>, parentAbs: Pos, zoom: real, level: nat, k: nat)
    requires k < |tree|
    ensures forall n :: n in FlattenedNode(tree[k], parentAbs, zoom, level).nodes ==> n in Flattened(tree, parentAbs, zoom, level).nodes
    decreases k
  {
    if k > 0 {
      ContributionIncluded(tree[1..], parentAbs, zoom, level, k - 1);
    }
  }

  /** A shown folder was expanded; the edge runs from it to a child shown after it, one
      level deeper, and is 3 wide when the folder is at level 0 and 2 otherwise. */
  predicate Links(parent: FlatNode, child: FlatNode, e: Edge)
  {
    e.id == "e-" + e.source + "-" + e.target
    && parent.id == e.source && child.id == e.target
    && parent.kind == Folder && parent.data.expanded
    && child.data.level == parent.data.level + 1
    && e.strokeWidth == (if parent.data.level == 0 then 3 else 2)
  }

  /** Some shown node and a node shown after it are the ends of the edge. */
  predicate Witnessed(nodes: seq<FlatNode>, e: Edge)
  {
    exists i, j :: 0 <= i < j < |nodes| && Links(nodes[i], nodes[j], e)
  }

  lemma WitnessedBefore(a: seq<FlatNode>, b: seq<FlatNode>, e: Edge)
    requires Witnessed(b, e)
    ensures Witnessed(a + b, e)
  {
    var i, j :| 0 <= i < j < |b| && Links(b[i], b[j], e);
    assert (a + b)[|a| + i] == b[i] && (a + b)[|a| + j] == b[j];
  }

  lemma WitnessedAfter(a: seq<FlatNode>, b: seq<FlatNode>, e: Edge)
    requires Witnessed(a, e)
    ensures Witnessed(a + b, e)
  {
    var i, j :| 0 <= i < j < |a| && Links(a[i], a[j], e);
    assert (a + b)[i] == a[i] && (a + b)[j] == a[j];
  }

  /** Both ends of every edge are shown. */
  predicate AllWitnessed(r: Flat)
  {
    forall e :: e in r.edges ==> Witnessed(r.nodes, e)
  }

  /** Every edge runs from a shown, expanded folder to one of its children shown after
      it, with the id `e-<parent>-<child>` and the width of the parent's level. */
  lemma {:induction false} EdgesLinkShownNodes(tree: seq<TreeNode>, parentAbs: Pos, zoom: real, level: nat)
    ensures AllWitnessed(Flattened(tree, parentAbs, zoom, level))
    decreases tree
  {
    if tree != [] {
      var a := FlattenedNode(tree[0], parentAbs, zoom, level);
      var b := Flattened(tree[1..], parentAbs, zoom, level);
      NodeEdgesLinkShownNodes(tree[0], parentAbs, zoom, level);
      EdgesLinkShownNodes(tree[1..], parentAbs, zoom, level);
      assert AllWitnessed(a) && AllWitnessed(b);
      forall e | e in a.edges + b.edges
        ensures Witnessed(a.nodes + b.nodes, e)
      {
        if e in a.edges {
          WitnessedAfter(a.nodes, b.nodes, e);
        } else {
          WitnessedBefore(a.nodes, b.nodes, e);
        }
      }
    }
  }

  lemma {:induction false} NodeEdgesLinkShownNodes(node: TreeNode, parentAbs: Pos, zoom: real, level: nat)
    ensures AllWitnessed(FlattenedNode(node, parentAbs, zoom, level))
    decreases node
  {
    match node.children
    case ChildList(ns) =>
      if Open(node, zoom) {
        var absPos := AbsPos(parentAbs, node.position);
        var sub := Flattened(ns, absPos, zoom, level + 1);
        var top := [Emit(node, parentAbs, level)];
        EdgesLinkShownNodes(ns, absPos, zoom, level + 1);
        assert AllWitnessed(sub);
        TopLevelShown(ns, absPos, zoom, level + 1);
        forall e | e in ChildEdges(node.id, ns, level) + sub.edges
          ensures Witnessed(top + sub.nodes, e)
        {
          if e in sub.edges {
            WitnessedBefore(top, sub.nodes, e);
          } else {
            var m :| 0 <= m < |ns| && e == ChildEdge(node.id, ns[m].id, level);
            var child := Emit(ns[m], absPos, level + 1);
            var j :| 0 <= j < |sub.nodes| && sub.nodes[j] == child;
            assert (top + sub.nodes)[0] == top[0] && (top + sub.nodes)[j + 1] == child;
            assert Links(top[0], child, e);
          }
        }
      }
    case NoChildren =>
  }

  /** Whether `e` is the edge from an open folder of the forest, whose top level is at
      depth `level`, to one of that folder's own children. */
  predicate TreeEdge(tree: seq<TreeNode>, zoom: real, level: nat, e: Edge)
    decreases tree
  {
    exists i :: 0 <= i < |tree| && NodeTreeEdge(tree[i], zoom, level, e)
  }

  predicate NodeTreeEdge(node: TreeNode, zoom: real, level: nat, e: Edge)
    decreases node
  {
    match node.children
    case NoChildren => false
    case ChildList(ns) =>
      Open(node, zoom)
      && ((exists m :: 0 <= m < |ns| && e == ChildEdge(node.id, ns[m].id, level))
          || TreeEdge(ns, zoom, level + 1, e))
  }

  /** The edges are exactly the edges from each open folder of the tree to each of its
      own children: a collapsed folder, and every folder below zoom 0.7, has none. */
  lemma {:induction false} EdgesAreTreeEdges(tree: seq<TreeNode>, parentAbs: Pos, zoom: real, level: nat)
    ensures forall e :: e in Flattened(tree, parentAbs, zoom, level).edges <==> TreeEdge(tree, zoom, level, e)
    decreases tree
  {
    if tree != [] {
      NodeEdgesAreTreeEdges(tree[0], parentAbs, zoom, level);
      EdgesAreTreeEdges(tree[1..], parentAbs, zoom, level);
      forall e
        ensures TreeEdge(tree, zoom, level, e) <==> NodeTreeEdge(tree[0], zoom, level, e) || TreeEdge(tree[1..], zoom, level, e)
      {
        if TreeEdge(tree, zoom, level, e) {
          var i :| 0 <= i < |tree| && NodeTreeEdge(tree[i], zoom, level, e);
          if i > 0 {
            assert tree[1..][i - 1] == tree[i];
          }
        }
        if TreeEdge(tree[1..], zoom, level, e) {
          var i :| 0 <= i < |tree[1..]| && NodeTreeEdge(tree[1..][i], zoom, level, e);
          assert tree[i + 1] == tree[1..][i];
        }
      }
    }
  }

  lemma {:induction false} NodeEdgesAreTreeEdges(node: TreeNode, parentAbs: Pos, zoom: real, level: nat)
    ensures forall e :: e in FlattenedNode(node, parentAbs, zoom, level).edges <==> NodeTreeEdge(node, zoom, level, e)
    decreases node
  {
    match node.children
    case ChildList(ns) =>
      if Open(node, zoom) {
        EdgesAreTreeEdges(ns, AbsPos(parentAbs, node.position), zoom, level + 1);
        var own := ChildEdges(node.id, ns, level);
        forall e
          ensures e in own <==> exists m :: 0 <= m < |ns| && e == ChildEdge(node.id, ns[m].id, level)
        {
          if e in own {
            var m :| 0 <= m < |own| && own[m] == e;
            assert e == ChildEdge(node.id, ns[m].id, level);
          }
          if exists m :: 0 <= m < |ns| && e == ChildEdge(node.id, ns[m].id, level) {
            var m :| 0 <= m < |ns| && e == ChildEdge(node.id, ns[m].id, level);
            assert own[m] == e;
          }
        }
      }
    case NoChildren =>
  }

  // ---------------------------------------------------------------------------
  // initialTreeData
  // ---------------------------------------------------------------------------

  function NoteLeaf(id: string, title: string, position: Pos): TreeNode
  {
    TreeNode(id, Note, title, position, false, NoChildren)
  }

  /** The map's initial data; children's positions are relative to their parent. */
  function InitialTree(): seq<TreeNode>
  {
    [TreeNode("fisica", Folder, "F\U{00ED}sica", Pos(100, 100), true, ChildList([
       TreeNode("termo", Folder, "Termodin\U{00E2}mica", Pos(100, 50), true, ChildList([
         NoteLeaf("entropia", "Entropia e Desordem", Pos(50, 50)),
         NoteLeaf("leiGases", "Leis dos Gases Ideais", Pos(150, 50))])),
       TreeNode("cinematica", Folder, "Cinem\U{00E1}tica", Pos(100, 150), false, ChildList([
         NoteLeaf("mecanica", "Mec\U{00E2}nica Cl\U{00E1}ssica", Pos(50, 50))]))])),
     TreeNode("quimica", Folder, "Qu\U{00ED}mica", Pos(400, 100), true, ChildList([
       NoteLeaf("ligacoes", "Liga\U{00E7}\U{00F5}es Qu\U{00ED}micas", Pos(50, 50))])),
     TreeNode("portugues", Folder, "Portugu\U{00EA}s", Pos(400, 300), false, ChildList([]))]
  }

  /** Every folder of the initial data has a children array, and any sequence of toggles
      keeps it so: the map can always be flattened. */
  lemma InitialTreeFlattens(ids: seq<string>, zoom: real)
    ensures FoldersHaveChildren(ToggleAll(InitialTree(), ids))
    ensures CanFlatten(ToggleAll(InitialTree(), ids), zoom)
  {
    var t := InitialTree();
    assert NodeFoldersHaveChildren(t[0].children.nodes[0]);
    assert NodeFoldersHaveChildren(t[0].children.nodes[1]);
    assert NodeFoldersHaveChildren(t[0]);
    assert NodeFoldersHaveChildren(t[1]);
    assert NodeFoldersHaveChildren(t[2]);
    TogglesKeepChildrenArrays(t, ids);
    ChildrenArraysSuffice(ToggleAll(t, ids), zoom);
  }

  /** The tree after double clicks on the given ids, in order. */
  function ToggleAll(tree: seq<TreeNode>, ids: seq<string>): seq<TreeNode>
    decreases |ids|
  {
    if ids == [] then tree else ToggleAll(ToggleInTree(tree, ids[0]), ids[1..])
  }

  lemma {:induction false} TogglesKeepChildrenArrays(tree: seq<TreeNode>, ids: seq<string>)
    requires FoldersHaveChildren(tree)
    ensures FoldersHaveChildren(ToggleAll(tree, ids))
    decreases |ids|
  {
    if ids != [] {
      ToggleKeepsChildrenArrays(tree, ids[0]);
      TogglesKeepChildrenArrays(ToggleInTree(tree, ids[0]), ids[1..]);
    }
  }

  /** At full zoom the initial map shows eight nodes joined by five edges. */
  lemma InitialMapAtFullZoom()
    ensures |Flattened(InitialTree(), Pos(0, 0), 1.0, 0).nodes| == 8
    ensures |Flattened(InitialTree(), Pos(0, 0), 1.0, 0).edges| == 5
  {
    var t := InitialTree();
    var fisica, quimica := t[0], t[1];
    var termo := fisica.children.nodes[0];
    assert |Flattened(termo.children.nodes, Pos(200, 150), 1.0, 2).nodes| == 2;
    assert |FlattenedNode(termo, Pos(100, 100), 1.0, 1).nodes| == 3;
    assert |FlattenedNode(fisica.children.nodes[1], Pos(100, 100), 1.0, 1).nodes| == 1;
    assert |Flattened(fisica.children.nodes, Pos(100, 100), 1.0, 1).nodes| == 4;
    assert |FlattenedNode(fisica, Pos(0, 0), 1.0, 0).nodes| == 5;
    assert |Flattened(quimica.children.nodes, Pos(400, 100), 1.0, 1).nodes| == 1;
    assert |FlattenedNode(quimica, Pos(0, 0), 1.0, 0).nodes| == 2;
    assert |FlattenedNode(t[2], Pos(0, 0), 1.0, 0).nodes| == 1;
    assert |Flattened(t[2..], Pos(0, 0), 1.0, 0).nodes| == 1;
    assert |Flattened(t[1..], Pos(0, 0), 1.0, 0).nodes| == 3;
    EdgePerChild(t, Pos(0, 0), 1.0, 0);
  }
}

