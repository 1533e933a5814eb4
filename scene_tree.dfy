/**
 * The loaded ship model as a tree of scene nodes, and the three pre-order
 * passes the viewer runs over it (`traverse` with a callback that rewrites
 * one node's material at a time): the scene-wide wireframe flag, the
 * corrosion texture on the meshes named "Hull_3", and the wireframe edit of
 * the selected mesh. Also the mesh-hierarchy listing shown in its panel.
 */
module SceneTree {
  import opened Wrappers

  /** A decoded texture image, by identity. */
  type TextureId = nat

  datatype Material = Material(wireframe: bool, texture: Option<TextureId>, needsUpdate: bool)

  /** A mesh carries a material; every other node (group, scene, light) does not. */
  datatype Kind = Group | Mesh(material: Material)

  /** What a traversal callback sees of one node: its unique id, its name and its kind. */
  datatype Info = Info(id: nat, name: string, kind: Kind)

  datatype Node = Node(info: Info, children: seq<Node>)

  /** The callbacks the viewer passes to `traverse`. */
  datatype Pass =
    | SceneWireframe(wireframe: bool)                // every mesh takes the scene's flag
    | HullTexture(frame: Option<TextureId>)           // every mesh named "Hull_3" shows the frame
    | MeshWireframe(meshId: nat, wireframe: bool)    // the selected mesh takes the checkbox value

  const HullName: string := "Hull_3"

  /**
   * What a callback makes of one node's kind: a mesh stays a mesh and any
   * other node is left alone; the wireframe callbacks keep the texture, the
   * texture callback keeps the wireframe flag; the texture callback touches
   * only meshes named "Hull_3" and the selected-mesh callback only the mesh
   * with that id.
   */
  function Apply(p: Pass, i: Info): (k: Kind)
    ensures k.Mesh? <==> i.kind.Mesh?
    ensures !i.kind.Mesh? ==> k == i.kind
    ensures k.Mesh? && !p.HullTexture? ==>
      k.material.texture == i.kind.material.texture && k.material.needsUpdate == i.kind.material.needsUpdate
    ensures k.Mesh? && p.HullTexture? ==> k.material.wireframe == i.kind.material.wireframe
    ensures p.HullTexture? && k != i.kind ==> i.name == HullName
    ensures p.MeshWireframe? && k != i.kind ==> i.id == p.meshId
  {
    match p
    case SceneWireframe(w) =>
      if i.kind.Mesh? then Mesh(i.kind.material.(wireframe := w)) else i.kind
    case HullTexture(tex) =>
      if i.kind.Mesh? && i.name == HullName then Mesh(i.kind.material.(texture := tex, needsUpdate := true))
      else i.kind
    case MeshWireframe(id, w) =>
      if i.kind.Mesh? && i.id == id then Mesh(i.kind.material.(wireframe := w)) else i.kind
  }

  /** The callback applied to one node: only its kind can change. */
  function Visit(p: Pass, i: Info): (v: Info)
    ensures v.id == i.id && v.name == i.name
  {
    i.(kind := Apply(p, i))
  }

  /**
   * `object.traverse(callback)`: the callback rewrites every node of the
   * tree; the tree keeps its shape and every node its id and name.
   */
  function Traverse(n: Node, p: Pass): (r: Node)
    ensures r.info.id == n.info.id && r.info.name == n.info.name
    ensures |r.children| == |n.children|
    decreases n
  {
    Node(Visit(p, n.info), seq(|n.children|, k requires 0 <= k < |n.children| => Traverse(n.children[k], p)))
  }

  /** The nodes of a tree in pre-order, root first: the order `traverse` visits them in. */
  function Preorder(n: Node): (s: seq<Info>)
    decreases n, 1
  {
    [n.info] + ChildrenPreorder(n, |n.children|)
  }

  /** The pre-order nodes of the first `i` subtrees of `n`, one subtree after the other. */
  function ChildrenPreorder(n: Node, i: nat): (s: seq<Info>)
    requires i <= |n.children|
    decreases n, 0, i
  {
    if i == 0 then [] else ChildrenPreorder(n, i - 1) + Preorder(n.children[i - 1])
  }

  function VisitAll(p: Pass, s: seq<Info>): (r: seq<Info>)
    ensures |r| == |s|
    ensures forall k :: 0 <= k < |s| ==> r[k] == Visit(p, s[k])
  {
    seq(|s|, k requires 0 <= k < |s| => Visit(p, s[k]))
  }

  lemma VisitAllAppend(p: Pass, a: seq<Info>, b: seq<Info>)
    ensures VisitAll(p, a + b) == VisitAll(p, a) + VisitAll(p, b)
  {
  }

  /**
   * A traversal visits each node exactly once and in pre-order: the nodes of
   * the rewritten tree are the old nodes, in the same order, each rewritten
   * by the callback, and nothing else.
   */
  lemma {:induction false} TraversePreorder(n: Node, p: Pass)
    ensures Preorder(Traverse(n, p)) == VisitAll(p, Preorder(n))
    decreases n, 1
  {
    ChildrenTraversePreorder(n, p, |n.children|);
    VisitAllAppend(p, [n.info], ChildrenPreorder(n, |n.children|));
  }

  lemma {:induction false} ChildrenTraversePreorder(n: Node, p: Pass, i: nat)
    requires i <= |n.children|
    ensures ChildrenPreorder(Traverse(n, p), i) == VisitAll(p, ChildrenPreorder(n, i))
    decreases n, 0, i
  {
    if i > 0 {
      ChildrenTraversePreorder(n, p, i - 1);
      TraversePreorder(n.children[i - 1], p);
      assert Traverse(n, p).children[i - 1] == Traverse(n.children[i - 1], p);
      VisitAllAppend(p, ChildrenPreorder(n, i - 1), Preorder(n.children[i - 1]));
    }
  }

  /**
   * Two traversals in a row are one traversal, when the second callback
   * applied after the first always agrees with a third one.
   */
  lemma {:induction false} TraverseFuse(n: Node, p: Pass, q: Pass, r: Pass)
    requires forall i :: Apply(q, Visit(p, i)) == Apply(r, i)
    ensures Traverse(Traverse(n, p), q) == Traverse(n, r)
    decreases n
  {
    var ch := n.children;
    var twice := Traverse(Traverse(n, p), q);
    forall k | 0 <= k < |ch| ensures twice.children[k] == Traverse(ch[k], r) {
      TraverseFuse(ch[k], p, q, r);
    }
    assert twice.children == Traverse(n, r).children;
  }

  /** Every mesh of the tree has the given wireframe flag. */
  ghost predicate AllMeshesWireframe(t: Node, w: bool)
  {
    forall k :: 0 <= k < |Preorder(t)| && Preorder(t)[k].kind.Mesh? ==> Preorder(t)[k].kind.material.wireframe == w
  }

  /** Every mesh named "Hull_3" shows the given texture and is flagged for re-upload. */
  ghost predicate HullShowsFrame(t: Node, tex: Option<TextureId>)
  {
    forall k :: 0 <= k < |Preorder(t)| && Preorder(t)[k].kind.Mesh? && Preorder(t)[k].name == HullName ==>
      Preorder(t)[k].kind.material.texture == tex && Preorder(t)[k].kind.material.needsUpdate
  }

  /**
   * The scene wireframe pass: every mesh's flag becomes the scene's flag, the
   * rest of its material is kept, and non-mesh nodes are untouched.
   */
  lemma SceneWireframeEffect(t: Node, w: bool)
    ensures |Preorder(Traverse(t, SceneWireframe(w)))| == |Preorder(t)|
    ensures forall k :: 0 <= k < |Preorder(t)| ==>
      var before, after := Preorder(t)[k], Preorder(Traverse(t, SceneWireframe(w)))[k];
      && after.id == before.id && after.name == before.name
      && (before.kind.Mesh? ==> after.kind == Mesh(before.kind.material.(wireframe := w)))
      && (before.kind.Group? ==> after.kind == Group)
    ensures AllMeshesWireframe(Traverse(t, SceneWireframe(w)), w)
  {
    TraversePreorder(t, SceneWireframe(w));
  }

  /** Running the wireframe pass again with the same flag changes nothing. */
  lemma {:induction false} SceneWireframeIdempotent(t: Node, w: bool)
    ensures Traverse(Traverse(t, SceneWireframe(w)), SceneWireframe(w)) == Traverse(t, SceneWireframe(w))
  {
    TraverseFuse(t, SceneWireframe(w), SceneWireframe(w), SceneWireframe(w));
  }

  /** Only the last of two wireframe passes matters (true, false, true ends as true). */
  lemma {:induction false} SceneWireframeLastWins(t: Node, first: bool, second: bool)
    ensures Traverse(Traverse(t, SceneWireframe(first)), SceneWireframe(second)) == Traverse(t, SceneWireframe(second))
  {
    TraverseFuse(t, SceneWireframe(first), SceneWireframe(second), SceneWireframe(second));
  }

  /**
   * The texture pass: every mesh named exactly "Hull_3" (all of them, not just
   * the first) shows the frame and is flagged; every other node is unchanged.
   */
  lemma HullTextureEffect(t: Node, tex: Option<TextureId>)
    ensures |Preorder(Traverse(t, HullTexture(tex)))| == |Preorder(t)|
    ensures forall k :: 0 <= k < |Preorder(t)| ==>
      var before, after := Preorder(t)[k], Preorder(Traverse(t, HullTexture(tex)))[k];
      if before.kind.Mesh? && before.name == HullName
      then after == before.(kind := Mesh(before.kind.material.(texture := tex, needsUpdate := true)))
      else after == before
    ensures HullShowsFrame(Traverse(t, HullTexture(tex)), tex)
  {
    TraversePreorder(t, HullTexture(tex));
  }

  /** The wireframe passes keep the texture shown on the hull meshes. */
  lemma WireframeKeepsHullFrame(t: Node, p: Pass, tex: Option<TextureId>)
    requires p.SceneWireframe? || p.MeshWireframe?
    requires HullShowsFrame(t, tex)
    ensures HullShowsFrame(Traverse(t, p), tex)
  {
    TraversePreorder(t, p);
  }

  /** No two nodes of the tree share an id, as three.js numbers its objects. */
  ghost predicate UniqueIds(t: Node)
  {
    forall a, b :: 0 <= a < b < |Preorder(t)| ==> Preorder(t)[a].id != Preorder(t)[b].id
  }

  /** A traversal keeps every id where it was, so it keeps them distinct. */
  lemma TraverseKeepsIds(t: Node, p: Pass)
    requires UniqueIds(t)
    ensures UniqueIds(Traverse(t, p))
  {
    TraversePreorder(t, p);
  }

  /**
   * The wireframe edit of the selected mesh: the meshes with that id take the
   * flag, every other node is unchanged.
   */
  lemma MeshWireframeEffect(t: Node, id: nat, w: bool)
    ensures |Preorder(Traverse(t, MeshWireframe(id, w)))| == |Preorder(t)|
    ensures forall k :: 0 <= k < |Preorder(t)| ==>
      var before, after := Preorder(t)[k], Preorder(Traverse(t, MeshWireframe(id, w)))[k];
      if before.kind.Mesh? && before.id == id
      then after == before.(kind := Mesh(before.kind.material.(wireframe := w)))
      else after == before
  {
    TraversePreorder(t, MeshWireframe(id, w));
  }

  /** With distinct ids, the wireframe edit of the selected mesh changes at most one node. */
  lemma MeshWireframeChangesAtMostOne(t: Node, id: nat, w: bool)
    requires UniqueIds(t)
    ensures |Preorder(Traverse(t, MeshWireframe(id, w)))| == |Preorder(t)|
    ensures forall a, b :: 0 <= a < b < |Preorder(t)| ==>
      Preorder(Traverse(t, MeshWireframe(id, w)))[a] == Preorder(t)[a] ||
      Preorder(Traverse(t, MeshWireframe(id, w)))[b] == Preorder(t)[b]
  {
    TraversePreorder(t, MeshWireframe(id, w));
  }

  // ---------------------------------------------------------------------------
  // The mesh-hierarchy listing

  /** `obj.name || 'Unnamed'`. */
  function DisplayName(name: string): (s: string)
    ensures s != ""
    ensures name != "" ==> s == name
    ensures name == "" ==> s == "Unnamed"
  {
    if name == "" then "Unnamed" else name
  }

  /** The path of a node below `path`; the root is called with the empty path. */
  function PathOf(path: string, name: string): (s: string)
    ensures s != ""
  {
    if path != "" then path + " > " + DisplayName(name) else DisplayName(name)
  }

  /** The entries the walk pushes for the subtree `n` below `path`. */
  function Hierarchy(n: Node, path: string): (s: seq<string>)
    ensures s != [] && s[0] == PathOf(path, n.info.name)
    decreases n, 1
  {
    var here := PathOf(path, n.info.name);
    [here] + ChildrenHierarchy(n, here, |n.children|)
  }

  /** The entries pushed for the first `i` children of `n`, each below `here`. */
  function ChildrenHierarchy(n: Node, here: string, i: nat): (s: seq<string>)
    requires i <= |n.children|
    decreases n, 0, i
  {
    if i == 0 then [] else ChildrenHierarchy(n, here, i - 1) + Hierarchy(n.children[i - 1], here)
  }

  /** `printMeshHierarchy(object)`: nothing for a missing model. */
  function MeshHierarchy(model: Option<Node>): (h: seq<string>)
    ensures model.None? ==> h == []
    ensures model.Some? ==> |h| == |Preorder(model.value)| && h[0] == DisplayName(model.value.info.name)
  {
    match model
    case None => []
    case Some(t) =>
      AncestryShape(t);
      HierarchySpelled(t, "");
      Hierarchy(t, "")
  }

  /**
   * `printMeshHierarchy`: a recursive walk that pushes each node's path onto
   * one accumulator array, before walking the node's children in order.
   */
  method PrintMeshHierarchy(model: Option<Node>) returns (hierarchy: seq<string>)
    ensures hierarchy == MeshHierarchy(model)
  {
    if model.None? {
      return [];
    }
    hierarchy := [];
    hierarchy := Walk(model.value, "", hierarchy);
  }

  /** The inner `traverse(obj, path)`: pushes onto `hierarchy` and returns it. */
  method Walk(obj: Node, path: string, hierarchy: seq<string>) returns (pushed: seq<string>)
    ensures pushed == hierarchy + Hierarchy(obj, path)
    decreases obj
  {
    var currentPath := PathOf(path, obj.info.name);
    pushed := hierarchy + [currentPath];
    var i := 0;
    while i < |obj.children|
      invariant 0 <= i <= |obj.children|
      invariant pushed == hierarchy + ([currentPath] + ChildrenHierarchy(obj, currentPath, i))
    {
      pushed := Walk(obj.children[i], currentPath, pushed);
      PushedChild(hierarchy, obj, currentPath, i);
      i := i + 1;
    }
  }

  /** Walking child `i` below the entries so far extends them by that child's entries. */
  lemma PushedChild(hierarchy: seq<string>, obj: Node, here: string, i: nat)
    requires i < |obj.children|
    ensures hierarchy + ([here] + ChildrenHierarchy(obj, here, i)) + Hierarchy(obj.children[i], here)
         == hierarchy + ([here] + ChildrenHierarchy(obj, here, i + 1))
  {
    assert ChildrenHierarchy(obj, here, i + 1) == ChildrenHierarchy(obj, here, i) + Hierarchy(obj.children[i], here);
  }

  // ---------------------------------------------------------------------------
  // An independent description of the listing: for every node, in pre-order,
  // the chain of nodes from the root down to it, and the names on that chain
  // joined by " > ".

  /** For each node of `n` in pre-order, the nodes from `n` down to it. */
  function Ancestry(n: Node): (a: seq<seq<Info>>)
    decreases n, 1
  {
    [[n.info]] + ChildrenAncestry(n, |n.children|)
  }

  function ChildrenAncestry(n: Node, i: nat): (a: seq<seq<Info>>)
    requires i <= |n.children|
    decreases n, 0, i
  {
    if i == 0 then [] else ChildrenAncestry(n, i - 1) + Below(n.info, Ancestry(n.children[i - 1]))
  }

  function Below(top: Info, chains: seq<seq<Info>>): (r: seq<seq<Info>>)
    ensures |r| == |chains|
    ensures forall k :: 0 <= k < |chains| ==> r[k] == [top] + chains[k]
  {
    seq(|chains|, k requires 0 <= k < |chains| => [top] + chains[k])
  }

  /** The display names along a chain, joined by " > ". */
  function JoinNames(chain: seq<Info>): (s: string)
    requires chain != []
    ensures s != ""
    decreases |chain|
  {
    if |chain| == 1 then DisplayName(chain[0].name)
    else DisplayName(chain[0].name) + " > " + JoinNames(chain[1..])
  }

  /** Extending a chain by one node appends " > " and that node's display name. */
  lemma {:induction false} JoinNamesSnoc(chain: seq<Info>, last: Info)
    requires chain != []
    ensures JoinNames(chain + [last]) == JoinNames(chain) + " > " + DisplayName(last.name)
    decreases |chain|
  {
    var c := chain + [last];
    if |chain| == 1 {
      assert c[1..] == [last];
    } else {
      assert c[1..] == chain[1..] + [last];
      JoinNamesSnoc(chain[1..], last);
    }
  }

  /**
   * Each chain starts at the root and ends at its own node, and there is
   * exactly one chain per node, in pre-order.
   */
  lemma {:induction false} AncestryShape(n: Node)
    ensures |Ancestry(n)| == |Preorder(n)|
    ensures forall k :: 0 <= k < |Ancestry(n)| ==>
      Ancestry(n)[k] != [] && Ancestry(n)[k][0] == n.info && Ancestry(n)[k][|Ancestry(n)[k]| - 1] == Preorder(n)[k]
    decreases n, 1
  {
    ChildrenAncestryShape(n, |n.children|);
  }

  lemma {:induction false} ChildrenAncestryShape(n: Node, i: nat)
    requires i <= |n.children|
    ensures |ChildrenAncestry(n, i)| == |ChildrenPreorder(n, i)|
    ensures forall k :: 0 <= k < |ChildrenAncestry(n, i)| ==>
      |ChildrenAncestry(n, i)[k]| >= 2 && ChildrenAncestry(n, i)[k][0] == n.info &&
      ChildrenAncestry(n, i)[k][|ChildrenAncestry(n, i)[k]| - 1] == ChildrenPreorder(n, i)[k]
    decreases n, 0, i
  {
    if i > 0 {
      ChildrenAncestryShape(n, i - 1);
      AncestryShape(n.children[i - 1]);
    }
  }

  /** Chain `k` extends, by one node, a chain listed before it. */
  ghost predicate ParentBefore(chains: seq<seq<Info>>, k: nat)
    requires k < |chains|
  {
    |chains[k]| >= 2 && exists j :: 0 <= j < k && chains[j] == chains[k][..|chains[k]| - 1]
  }

  /** Chain `k` extends, by one node, either `top` or a chain listed before it. */
  ghost predicate ExtendsTopOrBefore(chains: seq<seq<Info>>, k: nat, top: seq<Info>)
    requires k < |chains|
  {
    |chains[k]| >= 2 && (chains[k][..|chains[k]| - 1] == top || ParentBefore(chains, k))
  }

  /** Every chain but the root's one extends a chain listed earlier: its parent's. */
  lemma {:induction false} ParentListedEarlier(n: Node)
    ensures forall k :: 0 < k < |Ancestry(n)| ==> ParentBefore(Ancestry(n), k)
    decreases n, 1
  {
    var rest := ChildrenAncestry(n, |n.children|);
    ChildrenParentListed(n, |n.children|);
    assert Ancestry(n) == [[n.info]] + rest;
    ParentsUnderRoot([n.info], rest);
  }

  lemma {:induction false} ChildrenParentListed(n: Node, i: nat)
    requires i <= |n.children|
    ensures forall k :: 0 <= k < |ChildrenAncestry(n, i)| ==> ExtendsTopOrBefore(ChildrenAncestry(n, i), k, [n.info])
    decreases n, 0, i
  {
    if i > 0 {
      var c := n.children[i - 1];
      ChildrenParentListed(n, i - 1);
      AncestryShape(c);
      ParentListedEarlier(c);
      ParentsBelow(n.info, Ancestry(c));
      ParentsAppend(ChildrenAncestry(n, i - 1), Below(n.info, Ancestry(c)), [n.info]);
    }
  }

  /** Under a root chain, chains that extend the root or an earlier chain all have a parent listed earlier. */
  lemma ParentsUnderRoot(root: seq<Info>, rest: seq<seq<Info>>)
    requires forall k :: 0 <= k < |rest| ==> ExtendsTopOrBefore(rest, k, root)
    ensures forall k :: 0 < k < |[root] + rest| ==> ParentBefore([root] + rest, k)
  {
    var a := [root] + rest;
    forall k | 0 < k < |a|
      ensures ParentBefore(a, k)
    {
      assert ExtendsTopOrBefore(rest, k - 1, root);
      assert a[k] == rest[k - 1];
      if rest[k - 1][..|rest[k - 1]| - 1] == root {
        assert a[0] == a[k][..|a[k]| - 1];
      } else {
        var j :| 0 <= j < k - 1 && rest[j] == rest[k - 1][..|rest[k - 1]| - 1];
        assert a[j + 1] == rest[j];
      }
    }
  }

  lemma ParentsAppend(front: seq<seq<Info>>, block: seq<seq<Info>>, top: seq<Info>)
    requires forall k :: 0 <= k < |front| ==> ExtendsTopOrBefore(front, k, top)
    requires forall k :: 0 <= k < |block| ==> ExtendsTopOrBefore(block, k, top)
    ensures forall k :: 0 <= k < |front + block| ==> ExtendsTopOrBefore(front + block, k, top)
  {
    var all := front + block;
    forall k | 0 <= k < |all|
      ensures ExtendsTopOrBefore(all, k, top)
    {
      if k < |front| {
        assert ExtendsTopOrBefore(front, k, top);
        assert all[k] == front[k];
        if front[k][..|front[k]| - 1] != top {
          var j :| 0 <= j < k && front[j] == front[k][..|front[k]| - 1];
          assert all[j] == front[j];
        }
      } else {
        var m := k - |front|;
        assert ExtendsTopOrBefore(block, m, top);
        assert all[k] == block[m];
        if block[m][..|block[m]| - 1] != top {
          var j :| 0 <= j < m && block[j] == block[m][..|block[m]| - 1];
          assert all[|front| + j] == block[j];
        }
      }
    }
  }

  /**
   * Putting `top` in front of a subtree's chains: the subtree root's chain
   * then extends `[top]`, and every other chain still extends an earlier one.
   */
  lemma ParentsBelow(top: Info, chains: seq<seq<Info>>)
    requires chains != [] ==> |chains[0]| == 1
    requires forall k :: 0 <= k < |chains| ==> chains[k] != []
    requires forall k :: 0 < k < |chains| ==> ParentBefore(chains, k)
    ensures forall m :: 0 <= m < |Below(top, chains)| ==> ExtendsTopOrBefore(Below(top, chains), m, [top])
  {
    var b := Below(top, chains);
    forall m | 0 <= m < |b|
      ensures ExtendsTopOrBefore(b, m, [top])
    {
      var chain := chains[m];
      assert b[m] == [top] + chain;
      if m == 0 {
        assert b[m][..|b[m]| - 1] == [top];
      } else {
        assert ParentBefore(chains, m);
        var j :| 0 <= j < m && chains[j] == chain[..|chain| - 1];
        assert b[j] == [top] + chains[j];
        assert ([top] + chain)[..|chain|] == [top] + chain[..|chain| - 1];
      }
    }
  }

  /** `path` followed by `rest`, as the walk spells a subtree below `path`. */
  function Under(path: string, rest: string): (s: string)
  {
    if path != "" then path + " > " + rest else rest
  }

  ghost predicate SpelledAs(entries: seq<string>, chains: seq<seq<Info>>, path: string)
  {
    && |entries| == |chains|
    && forall k :: 0 <= k < |chains| ==> chains[k] != [] && entries[k] == Under(path, JoinNames(chains[k]))
  }

  /** The walk below `path` spells, for each node, `path` and then the names of its chain. */
  lemma {:induction false} HierarchySpelled(n: Node, path: string)
    ensures SpelledAs(Hierarchy(n, path), Ancestry(n), path)
    decreases n, 1
  {
    ChildrenHierarchySpelled(n, path, |n.children|);
    assert Hierarchy(n, path)[0] == Under(path, JoinNames([n.info]));
    SpelledAppend([PathOf(path, n.info.name)], [[n.info]],
                  ChildrenHierarchy(n, PathOf(path, n.info.name), |n.children|), ChildrenAncestry(n, |n.children|), path);
  }

  lemma {:induction false} ChildrenHierarchySpelled(n: Node, path: string, i: nat)
    requires i <= |n.children|
    ensures SpelledAs(ChildrenHierarchy(n, PathOf(path, n.info.name), i), ChildrenAncestry(n, i), path)
    decreases n, 0, i
  {
    if i > 0 {
      var here := PathOf(path, n.info.name);
      var c := n.children[i - 1];
      ChildrenHierarchySpelled(n, path, i - 1);
      HierarchySpelled(c, here);
      SpelledBelow(Hierarchy(c, here), Ancestry(c), n.info, path);
      SpelledAppend(ChildrenHierarchy(n, here, i - 1), ChildrenAncestry(n, i - 1),
                    Hierarchy(c, here), Below(n.info, Ancestry(c)), path);
    }
  }

  lemma SpelledAppend(a: seq<string>, chainsA: seq<seq<Info>>, b: seq<string>, chainsB: seq<seq<Info>>, path: string)
    requires SpelledAs(a, chainsA, path) && SpelledAs(b, chainsB, path)
    ensures SpelledAs(a + b, chainsA + chainsB, path)
  {
    forall k | 0 <= k < |chainsA + chainsB|
      ensures (chainsA + chainsB)[k] != [] && (a + b)[k] == Under(path, JoinNames((chainsA + chainsB)[k]))
    {
      if k < |a| {
        assert (a + b)[k] == a[k] && (chainsA + chainsB)[k] == chainsA[k];
      } else {
        assert (a + b)[k] == b[k - |a|] && (chainsA + chainsB)[k] == chainsB[k - |a|];
      }
    }
  }

  /** Entries spelled below a node's own path are spelled below its parent's path by the chains from the node. */
  lemma SpelledBelow(entries: seq<string>, chains: seq<seq<Info>>, top: Info, path: string)
    requires SpelledAs(entries, chains, PathOf(path, top.name))
    ensures SpelledAs(entries, Below(top, chains), path)
  {
    var here := PathOf(path, top.name);
    forall m | 0 <= m < |chains|
      ensures Below(top, chains)[m] != [] && entries[m] == Under(path, JoinNames(Below(top, chains)[m]))
    {
      var chain := chains[m];
      assert ([top] + chain)[1..] == chain;
      assert JoinNames([top] + chain) == DisplayName(top.name) + " > " + JoinNames(chain);
      assert entries[m] == here + " > " + JoinNames(chain);
    }
  }

  /**
   * `printMeshHierarchy(null)` is empty. For a model, there is one entry per
   * node, in pre-order, root first; each entry is the names from the root
   * down to its node joined by " > ", with 'Unnamed' for an empty name: the
   * root's entry is its own display name, and any other node's entry is the
   * entry of its parent, listed earlier, followed by " > " and its own
   * display name.
   */
  lemma MeshHierarchySpec(model: Option<Node>)
    ensures model.None? ==> MeshHierarchy(model) == []
    ensures model.Some? ==>
      var t, h := model.value, MeshHierarchy(model);
      && |h| == |Preorder(t)| == |Ancestry(t)|
      && h[0] == DisplayName(t.info.name)
      && forall k :: 0 <= k < |h| ==>
        && Ancestry(t)[k] != [] && Ancestry(t)[k][0] == t.info
        && Ancestry(t)[k][|Ancestry(t)[k]| - 1] == Preorder(t)[k]
        && h[k] == JoinNames(Ancestry(t)[k])
        && (|Ancestry(t)[k]| > 1 ==>
              h[k] == JoinNames(Ancestry(t)[k][..|Ancestry(t)[k]| - 1]) + " > " + DisplayName(Preorder(t)[k].name))
        && (k > 0 ==>
              exists j :: 0 <= j < k && Ancestry(t)[j] == Ancestry(t)[k][..|Ancestry(t)[k]| - 1] &&
                h[k] == h[j] + " > " + DisplayName(Preorder(t)[k].name))
  {
    if model.Some? {
      var t := model.value;
      AncestryShape(t);
      HierarchySpelled(t, "");
      forall k | 0 <= k < |Ancestry(t)| && |Ancestry(t)[k]| > 1
        ensures JoinNames(Ancestry(t)[k]) ==
          JoinNames(Ancestry(t)[k][..|Ancestry(t)[k]| - 1]) + " > " + DisplayName(Preorder(t)[k].name)
      {
        var chain := Ancestry(t)[k];
        var last := |chain| - 1;
        assert chain == chain[..last] + [chain[last]];
        JoinNamesSnoc(chain[..last], chain[last]);
      }
      EntriesExtendParent(t);
    }
  }

  /** Every entry but the root's one is the entry of its parent, listed earlier, followed by its own name. */
  lemma EntriesExtendParent(t: Node)
    ensures |Hierarchy(t, "")| == |Ancestry(t)| == |Preorder(t)|
    ensures forall k :: 0 < k < |Ancestry(t)| ==>
      Ancestry(t)[k] != [] &&
      exists j :: 0 <= j < k && Ancestry(t)[j] == Ancestry(t)[k][..|Ancestry(t)[k]| - 1] &&
        Hierarchy(t, "")[k] == Hierarchy(t, "")[j] + " > " + DisplayName(Preorder(t)[k].name)
  {
    var a, h := Ancestry(t), Hierarchy(t, "");
    AncestryShape(t);
    HierarchySpelled(t, "");
    ParentListedEarlier(t);
    forall k | 0 < k < |a|
      ensures a[k] != []
      ensures exists j :: 0 <= j < k && a[j] == a[k][..|a[k]| - 1] && h[k] == h[j] + " > " + DisplayName(Preorder(t)[k].name)
    {
      assert ParentBefore(a, k);
      var j :| 0 <= j < k && a[j] == a[k][..|a[k]| - 1];
      var chain := a[k];
      var last := |chain| - 1;
      assert chain == chain[..last] + [chain[last]];
      JoinNamesSnoc(chain[..last], chain[last]);
      assert h[k] == JoinNames(chain) && h[j] == JoinNames(a[j]);
    }
  }
}
