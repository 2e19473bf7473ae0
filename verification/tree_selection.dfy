/** Selection of the nodes to export from the document tree: page and layer
    lookup, name patterns, and the recursive walk (figma/FigmaFetcher.kt). */
module TreeSelection {
  import opened Wrappers
  import opened FigmaFile

  /** A regular expression, as written in the configuration. */
  type Pattern = string

  /** `Regex(pattern).containsMatchIn(name)`. Regular-expression semantics are
      not modelled: the matcher is a parameter. */
  type Matcher = (Pattern, string) -> bool

  /** `patterns.any { Regex(it).containsMatchIn(name) }`. */
  function AnyMatches(patterns: seq<Pattern>, name: string, contains: Matcher): (r: bool)
    ensures r <==> exists i :: 0 <= i < |patterns| && contains(patterns[i], name)
  {
    if |patterns| == 0 then false
    else contains(patterns[0], name) || AnyMatches(patterns[1..], name, contains)
  }

  /** `matchesPatterns`: some include pattern matches and no exclude pattern
      does. An empty include list matches nothing. */
  function MatchesPatterns(name: string, includes: seq<Pattern>, excludes: seq<Pattern>, contains: Matcher): (r: bool)
    ensures r <==>
      && (exists i :: 0 <= i < |includes| && contains(includes[i], name))
      && (forall j :: 0 <= j < |excludes| ==> !contains(excludes[j], name))
    ensures |includes| == 0 ==> !r
  {
    AnyMatches(includes, name, contains) && !AnyMatches(excludes, name, contains)
  }

  /** The filter arguments of `filterNodes`, taken from a `Resource`. */
  datatype Criteria = Criteria(
    readyToDevOnly: bool,
    includePatterns: seq<Pattern>,
    excludePatterns: seq<Pattern>,
    contains: Matcher)

  /** `shouldInclude` in `filterNodes`: the name matches, and the node is ready
      for development when only such nodes are wanted. */
  predicate ShouldInclude(node: Node, c: Criteria) {
    && MatchesPatterns(node.name, c.includePatterns, c.excludePatterns, c.contains)
    && (!c.readyToDevOnly || node.IsReadyForDev())
  }

  /** The test `getChildNode` applies to each child. */
  predicate IsWantedChild(child: Node, name: string, nodeType: Option<FigmaType>) {
    child.name == name && (nodeType.None? || child.nodeType == nodeType.value.Tag())
  }

  /** `getChildNode`: the first direct child, in child order, with the given
      name and, when a type is given, that type. */
  function GetChildNode(name: string, nodeType: Option<FigmaType>, node: Node): (r: Option<Node>)
    ensures r.None? <==> forall i :: 0 <= i < |node.children| ==> !IsWantedChild(node.children[i], name, nodeType)
    ensures r.Some? ==> exists i ::
      && 0 <= i < |node.children|
      && node.children[i] == r.value
      && IsWantedChild(r.value, name, nodeType)
      && forall j :: 0 <= j < i ==> !IsWantedChild(node.children[j], name, nodeType)
  {
    FirstWanted(node.children, name, nodeType)
  }

  function FirstWanted(nodes: seq<Node>, name: string, nodeType: Option<FigmaType>): (r: Option<Node>)
    ensures r.None? <==> forall i :: 0 <= i < |nodes| ==> !IsWantedChild(nodes[i], name, nodeType)
    ensures r.Some? ==> exists i ::
      && 0 <= i < |nodes|
      && nodes[i] == r.value
      && IsWantedChild(r.value, name, nodeType)
      && forall j :: 0 <= j < i ==> !IsWantedChild(nodes[j], name, nodeType)
  {
    if |nodes| == 0 then None
    else if IsWantedChild(nodes[0], name, nodeType) then Some(nodes[0])
    else
      var r := FirstWanted(nodes[1..], name, nodeType);
      assert forall i :: 0 <= i < |nodes| - 1 ==> nodes[1..][i] == nodes[i + 1];
      r
  }

  /** `filterNodes`: a node that passes is taken whole, without looking at its
      descendants; otherwise the selections of its children are concatenated
      in child order. */
  function FilterNodes(node: Node, c: Criteria): (r: seq<Node>)
    ensures forall m :: m in r ==> ShouldInclude(m, c)
    decreases node, 1
  {
    if ShouldInclude(node, c) then [node] else FilterChildren(node.children, c)
  }

  /** `children.flatMap { filterNodes(it) }`. */
  function FilterChildren(nodes: seq<Node>, c: Criteria): (r: seq<Node>)
    ensures forall m :: m in r ==> ShouldInclude(m, c)
    decreases nodes, 0
  {
    if |nodes| == 0 then []
    else FilterChildren(nodes[..|nodes| - 1], c) + FilterNodes(nodes[|nodes| - 1], c)
  }

  /** With no include pattern, the walk selects nothing, however deep. */
  lemma {:induction false} EmptyIncludesSelectNothing(node: Node, c: Criteria)
    requires |c.includePatterns| == 0
    ensures FilterNodes(node, c) == []
    decreases node, 1
  {
    EmptyIncludesSelectNothingIn(node.children, c);
  }

  lemma {:induction false} EmptyIncludesSelectNothingIn(nodes: seq<Node>, c: Criteria)
    requires |c.includePatterns| == 0
    ensures FilterChildren(nodes, c) == []
    decreases nodes, 0
  {
    if |nodes| > 0 {
      EmptyIncludesSelectNothingIn(nodes[..|nodes| - 1], c);
      EmptyIncludesSelectNothing(nodes[|nodes| - 1], c);
    }
  }

  // ---------------------------------------------------------------------
  // Positions in the tree. Two subtrees may be equal as values, so the
  // statements about which nodes the walk returns are made about paths:
  // a path is the sequence of child indices leading from the start node.

  type Path = seq<nat>

  /** The node at `p` below `node`, if `p` leads anywhere. */
  function Subnode(node: Node, p: Path): Option<Node>
    decreases |p|
  {
    if |p| == 0 then Some(node)
    else if p[0] < |node.children| then Subnode(node.children[p[0]], p[1..])
    else None
  }

  /** The node at a non-empty `p`, whose first index picks one of `nodes`. */
  function SubnodeIn(nodes: seq<Node>, p: Path): Option<Node> {
    if |p| > 0 && p[0] < |nodes| then Subnode(nodes[p[0]], p[1..]) else None
  }

  /** There is a node at `p` and it passes the filter. */
  ghost predicate PassesAt(root: Node, p: Path, c: Criteria) {
    Subnode(root, p).Some? && ShouldInclude(Subnode(root, p).value, c)
  }

  /** The node at `p` passes and no node strictly above it, up to `root`,
      does: it is one the walk should return. */
  ghost predicate Selected(root: Node, p: Path, c: Criteria) {
    && PassesAt(root, p, c)
    && forall k :: 0 <= k < |p| ==> !PassesAt(root, p[..k], c)
  }

  /** `a` comes strictly before `b` in document (pre-)order and neither lies
      on the path to the other. */
  ghost predicate Precedes(a: Path, b: Path) {
    exists k :: 0 <= k < |a| && k < |b| && a[..k] == b[..k] && a[k] < b[k]
  }

  /** The paths of the nodes `FilterNodes` returns. */
  ghost function FilterPaths(node: Node, c: Criteria): seq<Path>
    decreases node, 1
  {
    if ShouldInclude(node, c) then [[]] else FilterPathsIn(node.children, c)
  }

  ghost function FilterPathsIn(nodes: seq<Node>, c: Criteria): seq<Path>
    decreases nodes, 0
  {
    if |nodes| == 0 then []
    else FilterPathsIn(nodes[..|nodes| - 1], c) + Prefixed(|nodes| - 1, FilterPaths(nodes[|nodes| - 1], c))
  }

  ghost function Prefixed(i: nat, ps: seq<Path>): (r: seq<Path>)
    ensures |r| == |ps|
    ensures forall j :: 0 <= j < |ps| ==> r[j] == [i] + ps[j]
  {
    seq(|ps|, j requires 0 <= j < |ps| => [i] + ps[j])
  }

  /** A path into a prefix of `nodes` leads to the same node in `nodes`. */
  lemma SubnodeInPrefix(nodes: seq<Node>, m: nat, p: Path)
    requires m <= |nodes| && |p| > 0 && p[0] < m
    ensures SubnodeIn(nodes[..m], p) == SubnodeIn(nodes, p)
  {
  }

  /** `FilterPaths` lines up with `FilterNodes`: the i-th path leads to the
      i-th returned node. */
  lemma {:induction false} FilterPathsLeadToNodes(node: Node, c: Criteria)
    ensures |FilterPaths(node, c)| == |FilterNodes(node, c)|
    ensures forall i :: 0 <= i < |FilterPaths(node, c)| ==>
      Subnode(node, FilterPaths(node, c)[i]) == Some(FilterNodes(node, c)[i])
    decreases node, 1
  {
    if !ShouldInclude(node, c) {
      FilterPathsInLeadToNodes(node.children, c);
    }
  }

  lemma {:induction false} FilterPathsInLeadToNodes(nodes: seq<Node>, c: Criteria)
    ensures |FilterPathsIn(nodes, c)| == |FilterChildren(nodes, c)|
    ensures forall i :: 0 <= i < |FilterPathsIn(nodes, c)| ==>
      |FilterPathsIn(nodes, c)[i]| > 0 && FilterPathsIn(nodes, c)[i][0] < |nodes| &&
      SubnodeIn(nodes, FilterPathsIn(nodes, c)[i]) == Some(FilterChildren(nodes, c)[i])
    decreases nodes, 0
  {
    if |nodes| > 0 {
      var m := |nodes| - 1;
      var init := nodes[..m];
      FilterPathsInLeadToNodes(init, c);
      FilterPathsLeadToNodes(nodes[m], c);
      var P0 := FilterPathsIn(init, c);
      var N0 := FilterChildren(init, c);
      var P1 := Prefixed(m, FilterPaths(nodes[m], c));
      var N1 := FilterNodes(nodes[m], c);
      var P := FilterPathsIn(nodes, c);
      var N := FilterChildren(nodes, c);
      assert P == P0 + P1 && N == N0 + N1;
      forall i | 0 <= i < |P|
        ensures |P[i]| > 0 && P[i][0] < |nodes| && SubnodeIn(nodes, P[i]) == Some(N[i])
      {
        if i < |P0| {
          SubnodeInPrefix(nodes, m, P[i]);
        } else {
          var q := FilterPaths(nodes[m], c)[i - |P0|];
          assert P[i] == [m] + q;
          assert P[i][1..] == q;
        }
      }
    }
  }

  /** Every path `FilterPaths` returns is `Selected`. */
  lemma {:induction false} FilterPathsSelected(node: Node, c: Criteria)
    ensures forall p :: p in FilterPaths(node, c) ==> Selected(node, p, c)
    decreases node, 1
  {
    if !ShouldInclude(node, c) {
      FilterPathsInSelected(node.children, c);
      forall p | p in FilterPaths(node, c)
        ensures Selected(node, p, c)
      {
        assert SelectedIn(node.children, p, c);
        assert Subnode(node, p) == SubnodeIn(node.children, p);
        forall k | 0 <= k < |p|
          ensures !PassesAt(node, p[..k], c)
        {
          if k > 0 {
            assert Subnode(node, p[..k]) == SubnodeIn(node.children, p[..k]);
          }
        }
      }
    }
  }

  /** `Selected`, for a path whose first index picks one of `nodes`. */
  ghost predicate SelectedIn(nodes: seq<Node>, p: Path, c: Criteria) {
    && SubnodeIn(nodes, p).Some?
    && ShouldInclude(SubnodeIn(nodes, p).value, c)
    && forall k :: 1 <= k < |p| ==>
      !(SubnodeIn(nodes, p[..k]).Some? && ShouldInclude(SubnodeIn(nodes, p[..k]).value, c))
  }

  lemma {:induction false} FilterPathsInSelected(nodes: seq<Node>, c: Criteria)
    ensures forall p :: p in FilterPathsIn(nodes, c) ==> SelectedIn(nodes, p, c)
    decreases nodes, 0
  {
    if |nodes| > 0 {
      var m := |nodes| - 1;
      var init := nodes[..m];
      FilterPathsInSelected(init, c);
      FilterPathsSelected(nodes[m], c);
      FilterPathsInLeadToNodes(init, c);
      forall p | p in FilterPathsIn(nodes, c)
        ensures SelectedIn(nodes, p, c)
      {
        if p in FilterPathsIn(init, c) {
          assert SelectedIn(init, p, c);
          SubnodeInPrefix(nodes, m, p);
          forall k | 1 <= k < |p|
            ensures SubnodeIn(init, p[..k]) == SubnodeIn(nodes, p[..k])
          {
            SubnodeInPrefix(nodes, m, p[..k]);
          }
        } else {
          var ps := FilterPaths(nodes[m], c);
          var j :| 0 <= j < |ps| && p == [m] + ps[j];
          var q := ps[j];
          assert p[1..] == q;
          assert Selected(nodes[m], q, c);
          forall k | 1 <= k < |p|
            ensures SubnodeIn(nodes, p[..k]) == Subnode(nodes[m], q[..k - 1])
          {
            assert p[..k][1..] == q[..k - 1];
          }
        }
      }
    }
  }

  /** Every `Selected` path is among those `FilterPaths` returns. */
  lemma {:induction false} SelectedInFilterPaths(node: Node, c: Criteria, p: Path)
    requires Selected(node, p, c)
    ensures p in FilterPaths(node, c)
    decreases node, 1
  {
    if ShouldInclude(node, c) {
      assert PassesAt(node, p[..0], c);
    } else {
      assert |p| > 0;
      assert Subnode(node, p) == SubnodeIn(node.children, p);
      forall k | 1 <= k < |p|
        ensures Subnode(node, p[..k]) == SubnodeIn(node.children, p[..k])
      {
      }
      assert SelectedIn(node.children, p, c);
      SelectedInFilterPathsIn(node.children, c, p);
    }
  }

  lemma {:induction false} SelectedInFilterPathsIn(nodes: seq<Node>, c: Criteria, p: Path)
    requires SelectedIn(nodes, p, c)
    ensures p in FilterPathsIn(nodes, c)
    decreases nodes, 0
  {
    var m := |nodes| - 1;
    var init := nodes[..m];
    if p[0] < m {
      SubnodeInPrefix(nodes, m, p);
      forall k | 1 <= k < |p|
        ensures SubnodeIn(init, p[..k]) == SubnodeIn(nodes, p[..k])
      {
        SubnodeInPrefix(nodes, m, p[..k]);
      }
      assert SelectedIn(init, p, c);
      SelectedInFilterPathsIn(init, c, p);
    } else {
      var q := p[1..];
      forall k | 0 <= k < |q|
        ensures !PassesAt(nodes[m], q[..k], c)
      {
        assert p[..k + 1][1..] == q[..k];
      }
      assert Selected(nodes[m], q, c);
      SelectedInFilterPaths(nodes[m], c, q);
      var ps := FilterPaths(nodes[m], c);
      var j :| 0 <= j < |ps| && ps[j] == q;
      assert Prefixed(m, ps)[j] == p;
    }
  }

  /** `FilterPaths` lists its paths in document order. */
  lemma {:induction false} FilterPathsInOrder(node: Node, c: Criteria)
    ensures forall i, j :: 0 <= i < j < |FilterPaths(node, c)| ==>
      Precedes(FilterPaths(node, c)[i], FilterPaths(node, c)[j])
    decreases node, 1
  {
    if !ShouldInclude(node, c) {
      FilterPathsInOrderIn(node.children, c);
    }
  }

  lemma {:induction false} FilterPathsInOrderIn(nodes: seq<Node>, c: Criteria)
    ensures forall i, j :: 0 <= i < j < |FilterPathsIn(nodes, c)| ==>
      Precedes(FilterPathsIn(nodes, c)[i], FilterPathsIn(nodes, c)[j])
    decreases nodes, 0
  {
    if |nodes| > 0 {
      var m := |nodes| - 1;
      var init := nodes[..m];
      FilterPathsInOrderIn(init, c);
      FilterPathsInOrder(nodes[m], c);
      FilterPathsInLeadToNodes(init, c);
      var P0 := FilterPathsIn(init, c);
      var ps := FilterPaths(nodes[m], c);
      var P1 := Prefixed(m, ps);
      var P := FilterPathsIn(nodes, c);
      assert P == P0 + P1;
      forall i, j | 0 <= i < j < |P|
        ensures Precedes(P[i], P[j])
      {
        if j < |P0| {
          assert P[i] == P0[i] && P[j] == P0[j];
        } else if i < |P0| {
          assert P[i] == P0[i];
          assert P[j] == P1[j - |P0|] == [m] + ps[j - |P0|];
          FirstIndexPrecedes(P[i], P[j]);
        } else {
          assert P[i] == P1[i - |P0|] == [m] + ps[i - |P0|];
          assert P[j] == P1[j - |P0|] == [m] + ps[j - |P0|];
          PrefixedPrecedes(m, ps[i - |P0|], ps[j - |P0|]);
        }
      }
    }
  }

  lemma FirstIndexPrecedes(a: Path, b: Path)
    requires |a| > 0 && |b| > 0 && a[0] < b[0]
    ensures Precedes(a, b)
  {
    assert a[..0] == b[..0];
  }

  lemma PrefixedPrecedes(m: nat, a: Path, b: Path)
    requires Precedes(a, b)
    ensures Precedes([m] + a, [m] + b)
  {
    var k :| 0 <= k < |a| && k < |b| && a[..k] == b[..k] && a[k] < b[k];
    assert ([m] + a)[..k + 1] == [m] + a[..k];
    assert ([m] + b)[..k + 1] == [m] + b[..k];
  }

  /** What `filterNodes` returns, in terms of positions below the start node:
      the nodes at exactly the `Selected` paths, each once, in document order.
      So every returned node passes the filter, lies at or below the start
      node, and no returned node lies above another. */
  lemma FilterNodesSelectsTopmostMatches(root: Node, c: Criteria)
    ensures |FilterPaths(root, c)| == |FilterNodes(root, c)|
    ensures forall i :: 0 <= i < |FilterPaths(root, c)| ==>
      && Subnode(root, FilterPaths(root, c)[i]) == Some(FilterNodes(root, c)[i])
      && Selected(root, FilterPaths(root, c)[i], c)
    ensures forall p :: Selected(root, p, c) ==> p in FilterPaths(root, c)
    ensures forall i, j :: 0 <= i < j < |FilterPaths(root, c)| ==>
      Precedes(FilterPaths(root, c)[i], FilterPaths(root, c)[j])
  {
    FilterPathsLeadToNodes(root, c);
    FilterPathsSelected(root, c);
    FilterPathsInOrder(root, c);
    forall p | Selected(root, p, c)
      ensures p in FilterPaths(root, c)
    {
      SelectedInFilterPaths(root, c, p);
    }
  }

  /** Paths in document order are distinct, and neither is a prefix of the
      other: no returned node is an ancestor of another. */
  lemma PrecedesIsStrictAndUnrelated(a: Path, b: Path)
    requires Precedes(a, b)
    ensures a != b
    ensures !(|a| <= |b| && b[..|a|] == a)
    ensures !(|b| <= |a| && a[..|b|] == b)
  {
    var k :| 0 <= k < |a| && k < |b| && a[..k] == b[..k] && a[k] < b[k];
  }
}
