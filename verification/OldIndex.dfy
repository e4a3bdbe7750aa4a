/**
 The index of old dynamic nodes is sound and complete, the replacements drawn from it
 name equal old nodes, and child patches are one least edit script.
 */
module OldIndex {
  import opened Basics
  import opened EditDistance
  import opened Template
  import opened Patching
  import opened TreeDiff

  predicate IsDynamic(n: LNode) {
    n.DynChild? || n.Component?
  }

  function ChildrenOf(n: LNode): seq<LNode> {
    if n.Fragment? || n.Element? || n.Component? then n.children else []
  }

  function TemplateAt(n: LNode, path: seq<nat>): Option<LNode>
    decreases |path|
  {
    if path == [] then Some(n)
    else if path[0] < |ChildrenOf(n)| then TemplateAt(ChildrenOf(n)[path[0]], path[1..])
    else None
  }

  ghost predicate Occurs(root: LNode, n: LNode) {
    exists at: seq<nat> :: TemplateAt(root, at) == Some(n)
  }

  lemma {:induction false} TemplateAtExtends(n: LNode, path: seq<nat>, k: nat)
    requires TemplateAt(n, path).Some? && k < |ChildrenOf(TemplateAt(n, path).value)|
    ensures TemplateAt(n, path + [k]) == Some(ChildrenOf(TemplateAt(n, path).value)[k])
    decreases |path|
  {
    if path == [] {
      assert path + [k] == [k];
      assert TemplateAt(ChildrenOf(n)[k], []) == Some(ChildrenOf(n)[k]);
    } else {
      assert (path + [k])[1..] == path[1..] + [k];
      TemplateAtExtends(ChildrenOf(n)[path[0]], path[1..], k);
    }
  }

  // ---------- Keys ----------

  /** Only components and blocks are ever plucked out of the old tree. */
  ghost predicate DynamicKeys(index: Index) {
    forall n | n in index :: n.DynChild? || n.Component?
  }

  lemma {:induction false} IndexKeysDynamic(n: LNode, path: seq<nat>, index: Index)
    requires DynamicKeys(index)
    ensures DynamicKeys(AddOldChildren(n, path, index))
    decreases n, 0
  {
    match n
    case Fragment(kids) => IndexListKeysDynamic(kids, path, |kids|, index);
    case Element(_, _, kids) => IndexListKeysDynamic(kids, path, |kids|, index);
    case Component(_, _, kids) => IndexListKeysDynamic(kids, path, |kids|, index[n := path]);
    case _ =>
  }

  lemma {:induction false} IndexListKeysDynamic(ns: seq<LNode>, path: seq<nat>, count: nat, index: Index)
    requires count <= |ns| && DynamicKeys(index)
    ensures DynamicKeys(AddOldList(ns, path, count, index))
    decreases ns, count
  {
    if count > 0 {
      IndexListKeysDynamic(ns, path, count - 1, index);
      IndexKeysDynamic(ns[count - 1], path + [count - 1], AddOldList(ns, path, count - 1, index));
    }
  }

  // ---------- Soundness ----------

  ghost predicate Sound(index: Index, root: LNode) {
    forall n | n in index :: TemplateAt(root, index[n]) == Some(n)
  }

  lemma {:induction false} IndexSound(root: LNode, n: LNode, path: seq<nat>, index: Index)
    requires TemplateAt(root, path) == Some(n) && Sound(index, root)
    ensures Sound(AddOldChildren(n, path, index), root)
    decreases n, 0
  {
    match n
    case Fragment(kids) => IndexListSound(root, n, path, |kids|, index);
    case Element(_, _, kids) => IndexListSound(root, n, path, |kids|, index);
    case Component(_, _, kids) => IndexListSound(root, n, path, |kids|, index[n := path]);
    case _ =>
  }

  lemma {:induction false} IndexListSound(root: LNode, n: LNode, path: seq<nat>, count: nat, index: Index)
    requires n.Fragment? || n.Element? || n.Component?
    requires TemplateAt(root, path) == Some(n) && Sound(index, root) && count <= |n.children|
    ensures Sound(AddOldList(n.children, path, count, index), root)
    decreases n.children, count
  {
    if count > 0 {
      IndexListSound(root, n, path, count - 1, index);
      TemplateAtExtends(root, path, count - 1);
      IndexSound(root, n.children[count - 1], path + [count - 1], AddOldList(n.children, path, count - 1, index));
    }
  }

  // ---------- Completeness ----------

  lemma {:induction false} IndexGrows(n: LNode, path: seq<nat>, index: Index)
    ensures index.Keys <= AddOldChildren(n, path, index).Keys
    decreases n, 0
  {
    match n
    case Fragment(kids) => IndexListGrows(kids, path, 0, |kids|, index);
    case Element(_, _, kids) => IndexListGrows(kids, path, 0, |kids|, index);
    case Component(_, _, kids) => IndexListGrows(kids, path, 0, |kids|, index[n := path]);
    case _ =>
  }

  lemma {:induction false} IndexListGrows(ns: seq<LNode>, path: seq<nat>, from: nat, to: nat, index: Index)
    requires from <= to <= |ns|
    ensures AddOldList(ns, path, from, index).Keys <= AddOldList(ns, path, to, index).Keys
    decreases ns, to
  {
    if from < to {
      IndexListGrows(ns, path, from, to - 1, index);
      IndexGrows(ns[to - 1], path + [to - 1], AddOldList(ns, path, to - 1, index));
    }
  }

  lemma {:induction false} IndexComplete(n: LNode, path: seq<nat>, index: Index, at: seq<nat>)
    requires TemplateAt(n, at).Some? && IsDynamic(TemplateAt(n, at).value)
    ensures TemplateAt(n, at).value in AddOldChildren(n, path, index)
    decreases |at|
  {
    var base := if n.Component? then index[n := path] else index;
    if at == [] {
      if n.Component? {
        IndexListGrows(n.children, path, 0, |n.children|, base);
      }
    } else {
      var (kids, k) := (ChildrenOf(n), at[0]);
      IndexComplete(kids[k], path + [k], AddOldList(kids, path, k, base), at[1..]);
      IndexListGrows(kids, path, k + 1, |kids|, base);
    }
  }

  /** The last position of `m` in a template, from left to right and parents before children. */
  function LastAt(n: LNode, m: LNode): Option<seq<nat>>
    decreases n, 0
  {
    var below :=
      match n
      case Fragment(kids) => LastIn(kids, m, |kids|)
      case Element(_, _, kids) => LastIn(kids, m, |kids|)
      case Component(_, _, kids) => LastIn(kids, m, |kids|)
      case _ => None;
    if below.Some? then below else if n == m then Some([]) else None
  }

  function LastIn(ns: seq<LNode>, m: LNode, count: nat): Option<seq<nat>>
    requires count <= |ns|
    decreases ns, count
  {
    if count == 0 then None
    else
      match LastAt(ns[count - 1], m)
      case Some(p) => Some([count - 1] + p)
      case None => LastIn(ns, m, count - 1)
  }

  /** Later occurrences overwrite earlier ones. */
  ghost predicate Overwritten(before: Index, after: Index, m: LNode, path: seq<nat>, last: Option<seq<nat>>) {
    if last.Some? then m in after && after[m] == path + last.value
    else (m in after <==> m in before) && (m in after ==> after[m] == before[m])
  }

  lemma {:induction false} IndexKeepsLast(n: LNode, path: seq<nat>, index: Index, m: LNode)
    requires IsDynamic(m)
    ensures Overwritten(index, AddOldChildren(n, path, index), m, path, LastAt(n, m))
    decreases n, 0
  {
    match n
    case Fragment(kids) => IndexListKeepsLast(kids, path, |kids|, index, m);
    case Element(_, _, kids) => IndexListKeepsLast(kids, path, |kids|, index, m);
    case Component(_, _, kids) =>
      IndexListKeepsLast(kids, path, |kids|, index[n := path], m);
      assert path + [] == path;
    case _ => assert path + [] == path;
  }

  lemma {:induction false} IndexListKeepsLast(ns: seq<LNode>, path: seq<nat>, count: nat, index: Index, m: LNode)
    requires count <= |ns| && IsDynamic(m)
    ensures Overwritten(index, AddOldList(ns, path, count, index), m, path, LastIn(ns, m, count))
    decreases ns, count
  {
    if count > 0 {
      IndexListKeepsLast(ns, path, count - 1, index, m);
      IndexKeepsLast(ns[count - 1], path + [count - 1], AddOldList(ns, path, count - 1, index), m);
      var last := LastAt(ns[count - 1], m);
      if last.Some? {
        assert path + [count - 1] + last.value == path + ([count - 1] + last.value);
      }
    }
  }

  /** The keys are exactly the dynamic nodes of the old tree, each with its last position. */
  ghost predicate Exact(index: Index, root: LNode) {
    && (forall n :: n in index <==> IsDynamic(n) && Occurs(root, n))
    && (forall n | n in index :: TemplateAt(root, index[n]) == Some(n) && LastAt(root, n) == Some(index[n]))
  }

  lemma IndexIsExact(root: LNode)
    ensures Exact(AddOldChildren(root, [], map[]), root)
  {
    var empty: Index := map[];
    var index := AddOldChildren(root, [], empty);
    forall n
      ensures n in index <==> IsDynamic(n) && Occurs(root, n)
      ensures n in index ==> TemplateAt(root, index[n]) == Some(n) && LastAt(root, n) == Some(index[n])
    {
      IndexExact(root, n);
      if n in index {
        IndexKeepsLast(root, [], empty, n);
        var last := LastAt(root, n);
        if last.Some? {
          assert [] + last.value == last.value;
        }
      }
    }
  }

  /** The keys are exactly the components and blocks of the old tree, each with a path to an equal node. */
  lemma IndexExact(root: LNode, n: LNode)
    ensures var index := AddOldChildren(root, [], map[]);
            && (n in index <==> IsDynamic(n) && Occurs(root, n))
            && (n in index ==> TemplateAt(root, index[n]) == Some(n))
  {
    var empty: Index := map[];
    var index := AddOldChildren(root, [], empty);
    IndexSound(root, root, [], empty);
    IndexKeysDynamic(root, [], empty);
    if n in index {
      assert TemplateAt(root, index[n]) == Some(n);
      assert IsDynamic(n);
    } else if IsDynamic(n) && Occurs(root, n) {
      var at: seq<nat> :| TemplateAt(root, at) == Some(n);
      IndexComplete(root, [], empty, at);
    }
  }

  // ---------- Where patches address an old node ----------

  /** The path at which patches address a template position: below a component it goes two levels deeper. */
  function PatchPath(n: LNode, at: seq<nat>): seq<nat>
    decreases |at|
  {
    if at == [] || at[0] >= |ChildrenOf(n)| then at
    else (if n.Component? then [0, 0] else []) + [at[0]] + PatchPath(ChildrenOf(n)[at[0]], at[1..])
  }

  /** Some component lies above the position. */
  predicate Enclosed(n: LNode, at: seq<nat>)
    decreases |at|
  {
    at != [] && at[0] < |ChildrenOf(n)| && (n.Component? || Enclosed(ChildrenOf(n)[at[0]], at[1..]))
  }

  /** The recursion of `DiffAt` goes from the path of a position to those of its children. */
  lemma {:induction false} PatchPathExtends(n: LNode, at: seq<nat>, k: nat)
    requires TemplateAt(n, at).Some? && k < |ChildrenOf(TemplateAt(n, at).value)|
    ensures PatchPath(n, at + [k])
         == PatchPath(n, at) + (if TemplateAt(n, at).value.Component? then [0, 0] else []) + [k]
    decreases |at|
  {
    if at == [] {
      assert at + [k] == [k];
      PatchPathOfChild(n, k);
    } else {
      var (child, below) := (ChildrenOf(n)[at[0]], at[1..]);
      assert (at + [k])[0] == at[0] && (at + [k])[1..] == below + [k];
      PatchPathExtends(child, below, k);
      PathsJoin((if n.Component? then [0, 0] else []) + [at[0]], PatchPath(child, below),
                if TemplateAt(n, at).value.Component? then [0, 0] else [], [k]);
    }
  }

  lemma PatchPathOfChild(n: LNode, k: nat)
    requires k < |ChildrenOf(n)|
    ensures PatchPath(n, [k]) == [] + (if n.Component? then [0, 0] else []) + [k] && PatchPath(n, []) == []
  {
    assert [k][1..] == [];
  }

  lemma PathsJoin(a: seq<nat>, b: seq<nat>, c: seq<nat>, d: seq<nat>)
    ensures a + (b + c + d) == a + b + c + d
  {}

  lemma {:induction false} EnclosedIsDeeper(n: LNode, at: seq<nat>)
    requires TemplateAt(n, at).Some?
    ensures if Enclosed(n, at) then |PatchPath(n, at)| > |at| else PatchPath(n, at) == at
    decreases |at|
  {
    if at != [] {
      var (child, below) := (ChildrenOf(n)[at[0]], at[1..]);
      EnclosedIsDeeper(child, below);
      PatchPathLength(child, below);
      if !Enclosed(n, at) {
        assert at == [] + [at[0]] + below;
      }
    }
  }

  lemma {:induction false} PatchPathLength(n: LNode, at: seq<nat>)
    ensures |PatchPath(n, at)| >= |at|
    decreases |at|
  {
    if at != [] && at[0] < |ChildrenOf(n)| {
      PatchPathLength(ChildrenOf(n)[at[0]], at[1..]);
    }
  }

  /** The path the index stores for a node is the one patches use if and only if no component encloses the node. */
  lemma StoredPathExactly(root: LNode, n: LNode)
    ensures var index := AddOldChildren(root, [], map[]);
            n in index ==> (PatchPath(root, index[n]) == index[n] <==> !Enclosed(root, index[n]))
  {
    IndexExact(root, n);
    var index := AddOldChildren(root, [], map[]);
    if n in index {
      EnclosedIsDeeper(root, index[n]);
    }
  }

  // ---------- Replacements name equal old nodes ----------

  /**
   `r` stands for template `n`: dynamic nodes of `root` by their last position there, other dynamic nodes and
   texts by their markup, and elements and fragments part by part.
   */
  ghost predicate Denotes(root: LNode, r: Replacement, n: LNode)
    decreases n
  {
    match r
    case Html(m) => m == n && (n.Text? || (IsDynamic(n) && !Occurs(root, n)))
    case Path(p) => TemplateAt(root, p) == Some(n) && IsDynamic(n) && LastAt(root, n) == Some(p)
    case RFragment(rs) =>
      n.Fragment? && |rs| == |n.children| && forall k | 0 <= k < |rs| :: Denotes(root, rs[k], n.children[k])
    case RElement(name, attrs, rs) =>
      n.Element? && name == n.name && attrs == ReplacementAttrs(n.attrs) &&
      |rs| == |n.children| && forall k | 0 <= k < |rs| :: Denotes(root, rs[k], n.children[k])
  }

  lemma {:induction false} ReplacementDenotes(root: LNode, n: LNode, index: Index)
    requires Exact(index, root)
    ensures Denotes(root, ToReplacement(n, index), n)
    decreases n
  {
    if n !in index {
      match n
      case Fragment(kids) => ReplacementsDenote(root, kids, index);
      case Element(_, _, kids) => ReplacementsDenote(root, kids, index);
      case _ =>
    }
  }

  lemma {:induction false} ReplacementsDenote(root: LNode, ns: seq<LNode>, index: Index)
    requires Exact(index, root)
    ensures var rs := ToReplacements(ns, index);
            |rs| == |ns| && forall k | 0 <= k < |ns| :: Denotes(root, rs[k], ns[k])
    decreases ns
  {
    if ns != [] {
      ReplacementDenotes(root, ns[0], index);
      ReplacementsDenote(root, ns[1..], index);
    }
  }

  /** `r` stands for some node of the new template. */
  ghost predicate FromNew(root: LNode, newRoot: LNode, r: Replacement) {
    exists at :: TemplateAt(newRoot, at).Some? && Denotes(root, r, TemplateAt(newRoot, at).value)
  }

  /** `r` is the markup of some node of the new template. */
  ghost predicate MarkupOfNew(newRoot: LNode, r: Replacement) {
    exists at :: TemplateAt(newRoot, at).Some? && r == Html(TemplateAt(newRoot, at).value)
  }

  ghost predicate PatchFromNew(root: LNode, newRoot: LNode, p: Patch) {
    match p.action
    case ReplaceWith(r) => FromNew(root, newRoot, r)
    case InsertChild(_, r) => FromNew(root, newRoot, r)
    case AppendChildren(rs) => forall k | 0 <= k < |rs| :: MarkupOfNew(newRoot, rs[k])
    case _ => true
  }

  ghost predicate AllFromNew(root: LNode, newRoot: LNode, ps: seq<Patch>) {
    forall k | 0 <= k < |ps| :: PatchFromNew(root, newRoot, ps[k])
  }

  lemma ConcatFromNew(root: LNode, newRoot: LNode, ps: seq<Patch>, qs: seq<Patch>)
    requires AllFromNew(root, newRoot, ps) && AllFromNew(root, newRoot, qs)
    ensures AllFromNew(root, newRoot, ps + qs)
  {}

  lemma {:induction false} AdditionsPlain(path: seq<nat>, olds: Attrs, news: Attrs, root: LNode, newRoot: LNode)
    ensures AllFromNew(root, newRoot, Additions(path, olds, news))
    decreases |news|
  {
    if news != [] {
      AdditionsPlain(path, olds, news[1..], root, newRoot);
    }
  }

  lemma {:induction false} RemovalsPlain(path: seq<nat>, olds: Attrs, news: Attrs, root: LNode, newRoot: LNode)
    ensures AllFromNew(root, newRoot, Removals(path, olds, news))
    decreases |olds|
  {
    if olds != [] {
      RemovalsPlain(path, olds[1..], news, root, newRoot);
    }
  }

  lemma {:induction false} DiffAtFromNew(
    root: LNode, newRoot: LNode, oldTree: LNode, at: seq<nat>, path: seq<nat>, index: Index)
    requires TemplateAt(newRoot, at).Some? && Exact(index, root)
    ensures AllFromNew(root, newRoot, DiffAt(oldTree, TemplateAt(newRoot, at).value, path, index))
    decreases oldTree
  {
    var newTree := TemplateAt(newRoot, at).value;
    match (oldTree, newTree)
    case (Fragment(olds), Fragment(news)) =>
      DiffChildrenFromNew(root, newRoot, olds, at, path, index);
    case (Text(_), Text(t)) =>
    case (Element(_, oldAttrs, olds), Element(_, newAttrs, news)) =>
      DiffChildrenFromNew(root, newRoot, olds, at, path, index);
      ElementFromNew(root, newRoot, oldTree, newTree, path, index);
    case (Component(_, _, olds), Component(_, _, news)) =>
      DiffChildrenFromNew(root, newRoot, olds, at, path + [0, 0], index);
    case (DynChild(_), DynChild(_)) =>
    case _ =>
      ReplacementFromNew(root, newRoot, at, path, index);
  }

  lemma ReplacementFromNew(root: LNode, newRoot: LNode, at: seq<nat>, path: seq<nat>, index: Index)
    requires TemplateAt(newRoot, at).Some? && Exact(index, root)
    ensures AllFromNew(root, newRoot, [Patch(path, ReplaceWith(ToReplacement(TemplateAt(newRoot, at).value, index)))])
  {
    ReplacementDenotes(root, TemplateAt(newRoot, at).value, index);
  }

  lemma ElementFromNew(root: LNode, newRoot: LNode, oldTree: LNode, newTree: LNode, path: seq<nat>, index: Index)
    requires oldTree.Element? && newTree.Element?
    requires AllFromNew(root, newRoot, DiffChildren(path, oldTree.children, newTree.children, index))
    ensures AllFromNew(root, newRoot, DiffAt(oldTree, newTree, path, index))
  {
    var attrsPatch := DiffAttrs(path, oldTree.attrs, newTree.attrs);
    var tagPatch := if oldTree.name != newTree.name then [Patch(path, ChangeTagName(newTree.name))] else [];
    AdditionsPlain(path, oldTree.attrs, newTree.attrs, root, newRoot);
    RemovalsPlain(path, oldTree.attrs, newTree.attrs, root, newRoot);
    ConcatFromNew(root, newRoot,
                  Additions(path, oldTree.attrs, newTree.attrs), Removals(path, oldTree.attrs, newTree.attrs));
    ConcatFromNew(root, newRoot, attrsPatch, tagPatch);
    ConcatFromNew(root, newRoot, attrsPatch + tagPatch, DiffChildren(path, oldTree.children, newTree.children, index));
  }

  lemma {:induction false} DiffChildrenFromNew(
    root: LNode, newRoot: LNode, olds: seq<LNode>, at: seq<nat>, path: seq<nat>, index: Index)
    requires TemplateAt(newRoot, at).Some? && Exact(index, root)
    ensures AllFromNew(root, newRoot, DiffChildren(path, olds, ChildrenOf(TemplateAt(newRoot, at).value), index))
    decreases olds, |olds| + |ChildrenOf(TemplateAt(newRoot, at).value)| + 1
  {
    var news := ChildrenOf(TemplateAt(newRoot, at).value);
    if olds == [] {
      forall k | 0 <= k < |news| ensures MarkupOfNew(newRoot, HtmlOf(news)[k]) {
        TemplateAtExtends(newRoot, at, k);
        assert HtmlOf(news)[k] == Html(TemplateAt(newRoot, at + [k]).value);
      }
    } else if news != [] {
      WalkFromNew(root, newRoot, olds, at, |olds|, |news|, path, index);
    }
  }

  lemma {:induction false} WalkFromNew(
    root: LNode, newRoot: LNode, olds: seq<LNode>, at: seq<nat>, i: nat, j: nat, path: seq<nat>, index: Index)
    requires TemplateAt(newRoot, at).Some? && Exact(index, root)
    requires i <= |olds| && j <= |ChildrenOf(TemplateAt(newRoot, at).value)|
    ensures AllFromNew(root, newRoot, Walk(path, olds, ChildrenOf(TemplateAt(newRoot, at).value), i, j, index))
    decreases olds, i + j
  {
    var news := ChildrenOf(TemplateAt(newRoot, at).value);
    if i > 0 || j > 0 {
      var move, i', j' := OneMove(path, olds, news, i, j, index);
      MoveFromNew(root, newRoot, olds, at, i, j, move, path, index);
      WalkFromNew(root, newRoot, olds, at, i', j', path, index);
      ConcatFromNew(root, newRoot,
                    MovePatches(path, olds, news, i, j, move, index), Walk(path, olds, news, i', j', index));
    }
  }

  lemma {:induction false} MoveFromNew(
    root: LNode, newRoot: LNode, olds: seq<LNode>, at: seq<nat>, i: nat, j: nat, move: Move, path: seq<nat>,
    index: Index)
    requires TemplateAt(newRoot, at).Some? && Exact(index, root)
    requires i <= |olds| && j <= |ChildrenOf(TemplateAt(newRoot, at).value)|
    ensures AllFromNew(root, newRoot,
                       MovePatches(path, olds, ChildrenOf(TemplateAt(newRoot, at).value), i, j, move, index))
    decreases olds, 0
  {
    var news := ChildrenOf(TemplateAt(newRoot, at).value);
    if j > 0 {
      TemplateAtExtends(newRoot, at, j - 1);
      if move == Subst && i > 0 {
        DiffAtFromNew(root, newRoot, olds[i - 1], at + [j - 1], path + [i - 1], index);
      } else if move == Add {
        ReplacementDenotes(root, news[j - 1], index);
      }
    }
  }

  /**
   For any two templates, every node a patch brings in is a node of the new one, and every path names an equal
   old node.
   */
  lemma PatchesNameEqualNodes(oldTree: LNode, newTree: LNode)
    ensures AllFromNew(oldTree, newTree, Diff(oldTree, newTree))
  {
    IndexIsExact(oldTree);
    DiffAtFromNew(oldTree, newTree, oldTree, [], [], AddOldChildren(oldTree, [], map[]));
  }

  // ---------- Only nodes of different kinds are replaced ----------

  /** A replacement is addressed to an old node, and brings in a node of the new template of another kind. */
  ghost predicate Justified(p: Patch, oldRoot: LNode, newRoot: LNode, path: seq<nat>, index: Index) {
    p.action.ReplaceWith? ==>
      exists at, bt ::
        && TemplateAt(oldRoot, at).Some? && TemplateAt(newRoot, bt).Some?
        && !SameKind(TemplateAt(oldRoot, at).value, TemplateAt(newRoot, bt).value)
        && p == Patch(path + PatchPath(oldRoot, at),
                      ReplaceWith(ToReplacement(TemplateAt(newRoot, bt).value, index)))
  }

  ghost predicate AllJustified(ps: seq<Patch>, oldRoot: LNode, newRoot: LNode, path: seq<nat>, index: Index) {
    forall k | 0 <= k < |ps| :: Justified(ps[k], oldRoot, newRoot, path, index)
  }

  lemma JustifiedConcat(
    ps: seq<Patch>, qs: seq<Patch>, oldRoot: LNode, newRoot: LNode, path: seq<nat>, index: Index)
    requires AllJustified(ps, oldRoot, newRoot, path, index) && AllJustified(qs, oldRoot, newRoot, path, index)
    ensures AllJustified(ps + qs, oldRoot, newRoot, path, index)
  {}

  lemma {:induction false} NoReplacementInAttrs(path: seq<nat>, olds: Attrs, news: Attrs)
    ensures forall k | 0 <= k < |Additions(path, olds, news)| :: !Additions(path, olds, news)[k].action.ReplaceWith?
    decreases |news|
  {
    if news != [] {
      NoReplacementInAttrs(path, olds, news[1..]);
    }
  }

  lemma {:induction false} NoReplacementInRemovals(path: seq<nat>, olds: Attrs, news: Attrs)
    ensures forall k | 0 <= k < |Removals(path, olds, news)| :: !Removals(path, olds, news)[k].action.ReplaceWith?
    decreases |olds|
  {
    if olds != [] {
      NoReplacementInRemovals(path, olds[1..], news);
    }
  }

  lemma {:induction false} DiffAtJustified(
    oldRoot: LNode, newRoot: LNode, at: seq<nat>, bt: seq<nat>, path: seq<nat>, index: Index)
    requires TemplateAt(oldRoot, at).Some? && TemplateAt(newRoot, bt).Some?
    ensures var (n, m) := (TemplateAt(oldRoot, at).value, TemplateAt(newRoot, bt).value);
            AllJustified(DiffAt(n, m, path + PatchPath(oldRoot, at), index), oldRoot, newRoot, path, index)
    decreases TemplateAt(oldRoot, at).value
  {
    var (oldTree, newTree, here) :=
      (TemplateAt(oldRoot, at).value, TemplateAt(newRoot, bt).value, path + PatchPath(oldRoot, at));
    match (oldTree, newTree)
    case (Fragment(_), Fragment(_)) => ChildrenJustified(oldRoot, newRoot, at, bt, path, index);
    case (Element(_, _, _), Element(_, _, _)) =>
      ChildrenJustified(oldRoot, newRoot, at, bt, path, index);
      ElementJustified(oldTree, newTree, here, oldRoot, newRoot, path, index);
    case (Component(_, _, _), Component(_, _, _)) => ChildrenJustified(oldRoot, newRoot, at, bt, path, index);
    case (Text(_), Text(_)) =>
    case (DynChild(_), DynChild(_)) =>
    case _ => OtherKindJustified(oldRoot, newRoot, at, bt, path, index);
  }

  lemma OtherKindJustified(
    oldRoot: LNode, newRoot: LNode, at: seq<nat>, bt: seq<nat>, path: seq<nat>, index: Index)
    requires TemplateAt(oldRoot, at).Some? && TemplateAt(newRoot, bt).Some?
    requires !SameKind(TemplateAt(oldRoot, at).value, TemplateAt(newRoot, bt).value)
    ensures AllJustified(
              [Patch(path + PatchPath(oldRoot, at), ReplaceWith(ToReplacement(TemplateAt(newRoot, bt).value, index)))],
              oldRoot, newRoot, path, index)
  {}

  lemma ElementJustified(
    oldTree: LNode, newTree: LNode, here: seq<nat>, oldRoot: LNode, newRoot: LNode, path: seq<nat>, index: Index)
    requires oldTree.Element? && newTree.Element?
    requires AllJustified(DiffChildren(here, oldTree.children, newTree.children, index), oldRoot, newRoot, path, index)
    ensures AllJustified(DiffAt(oldTree, newTree, here, index), oldRoot, newRoot, path, index)
  {
    var tagPatch := if oldTree.name != newTree.name then [Patch(here, ChangeTagName(newTree.name))] else [];
    var head := DiffAttrs(here, oldTree.attrs, newTree.attrs) + tagPatch;
    NoReplacementInAttrs(here, oldTree.attrs, newTree.attrs);
    NoReplacementInRemovals(here, oldTree.attrs, newTree.attrs);
    assert forall k | 0 <= k < |head| :: !head[k].action.ReplaceWith?;
    JustifiedConcat(head, DiffChildren(here, oldTree.children, newTree.children, index), oldRoot, newRoot, path, index);
  }

  /** Where the children of a node are addressed, before their own number. */
  function ChildrenPath(n: LNode, path: seq<nat>): seq<nat> {
    if n.Component? then path + [0, 0] else path
  }

  lemma {:induction false} ChildrenJustified(
    oldRoot: LNode, newRoot: LNode, at: seq<nat>, bt: seq<nat>, path: seq<nat>, index: Index)
    requires TemplateAt(oldRoot, at).Some? && TemplateAt(newRoot, bt).Some?
    ensures var (n, m) := (TemplateAt(oldRoot, at).value, TemplateAt(newRoot, bt).value);
            var here := ChildrenPath(n, path + PatchPath(oldRoot, at));
            AllJustified(DiffChildren(here, ChildrenOf(n), ChildrenOf(m), index), oldRoot, newRoot, path, index)
    decreases TemplateAt(oldRoot, at).value, 0, 1
  {
    var (n, m) := (TemplateAt(oldRoot, at).value, TemplateAt(newRoot, bt).value);
    if ChildrenOf(n) != [] && ChildrenOf(m) != [] {
      WalkJustified(oldRoot, newRoot, at, bt, |ChildrenOf(n)|, |ChildrenOf(m)|, path, index);
    }
  }

  lemma {:induction false} WalkJustified(
    oldRoot: LNode, newRoot: LNode, at: seq<nat>, bt: seq<nat>, i: nat, j: nat, path: seq<nat>, index: Index)
    requires TemplateAt(oldRoot, at).Some? && TemplateAt(newRoot, bt).Some?
    requires i <= |ChildrenOf(TemplateAt(oldRoot, at).value)| && j <= |ChildrenOf(TemplateAt(newRoot, bt).value)|
    ensures var (n, m) := (TemplateAt(oldRoot, at).value, TemplateAt(newRoot, bt).value);
            var here := ChildrenPath(n, path + PatchPath(oldRoot, at));
            AllJustified(Walk(here, ChildrenOf(n), ChildrenOf(m), i, j, index), oldRoot, newRoot, path, index)
    decreases TemplateAt(oldRoot, at).value, 0, 0, i + j
  {
    var (n, m) := (TemplateAt(oldRoot, at).value, TemplateAt(newRoot, bt).value);
    var (olds, news, here) := (ChildrenOf(n), ChildrenOf(m), ChildrenPath(n, path + PatchPath(oldRoot, at)));
    if i > 0 || j > 0 {
      var move, i', j' := OneMove(here, olds, news, i, j, index);
      MoveJustified(oldRoot, newRoot, at, bt, i, j, move, path, index);
      WalkJustified(oldRoot, newRoot, at, bt, i', j', path, index);
      JustifiedConcat(MovePatches(here, olds, news, i, j, move, index), Walk(here, olds, news, i', j', index),
                      oldRoot, newRoot, path, index);
    }
  }

  lemma {:induction false} MoveJustified(
    oldRoot: LNode, newRoot: LNode, at: seq<nat>, bt: seq<nat>, i: nat, j: nat, move: Move, path: seq<nat>,
    index: Index)
    requires TemplateAt(oldRoot, at).Some? && TemplateAt(newRoot, bt).Some?
    requires i <= |ChildrenOf(TemplateAt(oldRoot, at).value)| && j <= |ChildrenOf(TemplateAt(newRoot, bt).value)|
    ensures var (n, m) := (TemplateAt(oldRoot, at).value, TemplateAt(newRoot, bt).value);
            AllJustified(MovePatches(ChildrenPath(n, path + PatchPath(oldRoot, at)), ChildrenOf(n), ChildrenOf(m),
                                     i, j, move, index),
                         oldRoot, newRoot, path, index)
    decreases TemplateAt(oldRoot, at).value, 0, 0, 0
  {
    if move == Subst && i > 0 && j > 0 {
      var n := TemplateAt(oldRoot, at).value;
      TemplateAtExtends(oldRoot, at, i - 1);
      TemplateAtExtends(newRoot, bt, j - 1);
      PatchPathExtends(oldRoot, at, i - 1);
      ChildAddress(n, path, PatchPath(oldRoot, at), i - 1);
      DiffAtJustified(oldRoot, newRoot, at + [i - 1], bt + [j - 1], path, index);
    }
  }

  lemma ChildAddress(n: LNode, path: seq<nat>, here: seq<nat>, k: nat)
    ensures ChildrenPath(n, path + here) + [k] == path + (here + (if n.Component? then [0, 0] else []) + [k])
  {}

  /** Only an old node whose new node is of another kind is ever replaced, at the path patches have for it. */
  lemma OnlyOtherKindsReplaced(oldTree: LNode, newTree: LNode)
    ensures AllJustified(Diff(oldTree, newTree), oldTree, newTree, [], AddOldChildren(oldTree, [], map[]))
  {
    assert [] + PatchPath(oldTree, []) == [];
    DiffAtJustified(oldTree, newTree, [], [], [], AddOldChildren(oldTree, [], map[]));
  }

  // ---------- Scripts without paths ----------

  predicate PlainReplacement(r: Replacement) {
    match r
    case Html(_) => true
    case Path(_) => false
    case RFragment(rs) => forall k | 0 <= k < |rs| :: PlainReplacement(rs[k])
    case RElement(_, _, rs) => forall k | 0 <= k < |rs| :: PlainReplacement(rs[k])
  }

  predicate PlainAction(action: Action) {
    match action
    case ReplaceWith(r) => PlainReplacement(r)
    case InsertChild(_, r) => PlainReplacement(r)
    case AppendChildren(rs) => forall k | 0 <= k < |rs| :: PlainReplacement(rs[k])
    case _ => true
  }

  /** No patch moves a node of the old tree. */
  predicate PathFree(ps: seq<Patch>) {
    forall k | 0 <= k < |ps| :: PlainAction(ps[k].action)
  }

  lemma {:induction false} StaticParts(n: LNode, at: seq<nat>)
    requires IsStatic(n) && TemplateAt(n, at).Some?
    ensures IsStatic(TemplateAt(n, at).value)
    decreases |at|
  {
    if at != [] {
      StaticParts(ChildrenOf(n)[at[0]], at[1..]);
    }
  }

  lemma {:induction false} StaticIsPlain(root: LNode, r: Replacement, n: LNode)
    requires IsStatic(n) && Denotes(root, r, n)
    ensures PlainReplacement(r)
    decreases n
  {
    if r.RFragment? || r.RElement? {
      forall k | 0 <= k < |r.kids| ensures PlainReplacement(r.kids[k]) {
        StaticIsPlain(root, r.kids[k], n.children[k]);
      }
    }
  }

  lemma FromStaticIsPlain(root: LNode, newRoot: LNode, r: Replacement)
    requires IsStatic(newRoot) && FromNew(root, newRoot, r)
    ensures PlainReplacement(r)
  {
    var at :| TemplateAt(newRoot, at).Some? && Denotes(root, r, TemplateAt(newRoot, at).value);
    StaticParts(newRoot, at);
    StaticIsPlain(root, r, TemplateAt(newRoot, at).value);
  }

  /** A static template is always reached without moving nodes. */
  lemma StaticPathFree(oldTree: LNode, newTree: LNode)
    requires IsStatic(newTree)
    ensures PathFree(Diff(oldTree, newTree))
  {
    PatchesNameEqualNodes(oldTree, newTree);
    var ps := Diff(oldTree, newTree);
    forall k | 0 <= k < |ps| ensures PlainAction(ps[k].action) {
      assert PatchFromNew(oldTree, newTree, ps[k]);
      match ps[k].action
      case ReplaceWith(r) => FromStaticIsPlain(oldTree, newTree, r);
      case InsertChild(_, r) => FromStaticIsPlain(oldTree, newTree, r);
      case _ =>
    }
  }

  // ---------- Child patches are a least edit script ----------

  /** The patches of one edit of a child list. */
  function EditPatches(path: seq<nat>, olds: seq<LNode>, e: Edit<LNode>, index: Index): seq<Patch> {
    match e
    case Substitute(at, x) => if at < |olds| then DiffAt(olds[at], x, path + [at], index) else []
    case Remove(at) => [Patch(path, RemoveChild(at))]
    case Insert(before, x) => [Patch(path, InsertChild(before, ToReplacement(x, index)))]
  }

  function ScriptPatches(path: seq<nat>, olds: seq<LNode>, es: seq<Edit<LNode>>, index: Index): seq<Patch>
    decreases |es|
  {
    if es == [] then []
    else EditPatches(path, olds, es[0], index) + ScriptPatches(path, olds, es[1..], index)
  }

  lemma {:induction false} WalkIsBacktrace(
    path: seq<nat>, olds: seq<LNode>, news: seq<LNode>, i: nat, j: nat, index: Index)
    requires i <= |olds| && j <= |news|
    ensures Walk(path, olds, news, i, j, index)
         == ScriptPatches(path, olds, Backtrace(olds, news, i, j), index)
    decreases i + j
  {
    if i > 0 || j > 0 {
      var move, i', j' := OneMove(path, olds, news, i, j, index);
      WalkIsBacktrace(path, olds, news, i', j', index);
      var (es, rest) := (MoveEdits(news, i, j, move), Backtrace(olds, news, i', j'));
      assert Backtrace(olds, news, i, j) == es + rest;
      MoveIsEdits(path, olds, news, i, j, move, index);
      StepPatches(path, olds, es, rest, index);
    }
  }

  lemma MoveIsEdits(path: seq<nat>, olds: seq<LNode>, news: seq<LNode>, i: nat, j: nat, move: Move, index: Index)
    requires i <= |olds| && j <= |news|
    ensures var es := MoveEdits(news, i, j, move);
            MovePatches(path, olds, news, i, j, move, index)
            == (if es == [] then [] else EditPatches(path, olds, es[0], index))
  {}

  lemma StepPatches(
    path: seq<nat>, olds: seq<LNode>, es: seq<Edit<LNode>>, rest: seq<Edit<LNode>>, index: Index)
    requires |es| <= 1
    ensures ScriptPatches(path, olds, es + rest, index)
         == (if es == [] then [] else EditPatches(path, olds, es[0], index)) + ScriptPatches(path, olds, rest, index)
  {
    if es == [] {
      assert es + rest == rest;
    } else {
      assert (es + rest)[0] == es[0] && (es + rest)[1..] == rest;
    }
  }

  /** The patches of two non-empty child lists are those of a script of least length from one to the other. */
  lemma ChildPatchesAreLeast(path: seq<nat>, olds: seq<LNode>, news: seq<LNode>, index: Index)
    requires olds != [] && news != []
    ensures exists es :: LeastScript(es, olds, news) &&
                         DiffChildren(path, olds, news, index) == ScriptPatches(path, olds, es, index)
  {
    assert olds[..|olds|] == olds && news[..|news|] == news;
    WalkIsBacktrace(path, olds, news, |olds|, |news|, index);
    CostIsLeast(olds, news, |olds|, |news|);
    var es := Backtrace(olds, news, |olds|, |news|);
    assert DiffChildren(path, olds, news, index) == ScriptPatches(path, olds, es, index);
  }
}
