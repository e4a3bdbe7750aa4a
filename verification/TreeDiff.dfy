/**
 `LNode::diff`: the patch script between two templates. The functions say what is emitted;
 the methods below them are the source's loops over the index and the table.
 */
module TreeDiff {
  import opened Basics
  import opened EditDistance
  import opened EditTable
  import opened Template
  import opened Patching

  /** Paths of the dynamic nodes of the old template. */
  type Index = map<LNode, seq<nat>>

  // ---------- The old-children index ----------

  function AddOldChildren(n: LNode, path: seq<nat>, index: Index): Index
    decreases n, 0
  {
    match n
    case Fragment(kids) => AddOldList(kids, path, |kids|, index)
    case Element(_, _, kids) => AddOldList(kids, path, |kids|, index)
    case DynChild(_) => index[n := path]
    case Component(_, _, kids) => AddOldList(kids, path, |kids|, index[n := path])
    case Text(_) => index
  }

  /** The first `count` of the children, in order. */
  function AddOldList(ns: seq<LNode>, path: seq<nat>, count: nat, index: Index): Index
    requires count <= |ns|
    decreases ns, count
  {
    if count == 0 then index
    else AddOldChildren(ns[count - 1], path + [count - 1], AddOldList(ns, path, count - 1, index))
  }

  class OldChildren {
    var positions: Index

    constructor ()
      ensures positions == map[]
    {
      positions := map[];
    }

    method Add(n: LNode, path: seq<nat>)
      modifies this
      ensures positions == AddOldChildren(n, path, old(positions))
      decreases n, 0
    {
      match n
      case Fragment(kids) =>
        AddList(kids, path);
      case Element(_, _, kids) =>
        AddList(kids, path);
      case DynChild(_) =>
        positions := positions[n := path];
      case Component(_, _, kids) =>
        positions := positions[n := path];
        AddList(kids, path);
      case Text(_) =>
    }

    method AddList(ns: seq<LNode>, path: seq<nat>)
      modifies this
      ensures positions == AddOldList(ns, path, |ns|, old(positions))
      decreases ns, |ns| + 1
    {
      for idx := 0 to |ns|
        invariant positions == AddOldList(ns, path, idx, old(positions))
      {
        Add(ns[idx], path + [idx]);
      }
    }
  }

  // ---------- Replacement nodes ----------

  /** Attributes of a replacement element; here a boolean attribute is set to its own name. */
  function ReplacementAttrs(attrs: Attrs): seq<(string, string)> {
    if attrs == [] then [] else ReplacementAttr(attrs[0]) + ReplacementAttrs(attrs[1..])
  }

  function ReplacementAttr(attr: (string, AttrValue)): seq<(string, string)> {
    match attr.1
    case Boolean => [(attr.0, attr.0)]
    case Static(v) => [(attr.0, v)]
    case _ => []
  }

  function ToReplacement(n: LNode, index: Index): Replacement
    decreases n
  {
    if n in index then Path(index[n])
    else
      match n
      case Fragment(kids) => RFragment(ToReplacements(kids, index))
      case Element(name, attrs, kids) => RElement(name, ReplacementAttrs(attrs), ToReplacements(kids, index))
      case _ => Html(n)
  }

  function ToReplacements(ns: seq<LNode>, index: Index): seq<Replacement>
    decreases ns
  {
    if ns == [] then [] else [ToReplacement(ns[0], index)] + ToReplacements(ns[1..], index)
  }

  // ---------- Emitted patches ----------

  function Additions(path: seq<nat>, olds: Attrs, news: Attrs): seq<Patch>
    decreases |news|
  {
    if news == [] then []
    else
      var (name, value) := news[0];
      (if Find(olds, name) != Some(value) then
         match value
         case Boolean => [Patch(path, SetAttribute(name, ""))]
         case Static(v) => [Patch(path, SetAttribute(name, v))]
         case _ => []
       else [])
      + Additions(path, olds, news[1..])
  }

  function Removals(path: seq<nat>, olds: Attrs, news: Attrs): seq<Patch>
    decreases |olds|
  {
    if olds == [] then []
    else
      (if olds[0].0 in Names(news) then [] else [Patch(path, RemoveAttribute(olds[0].0))])
      + Removals(path, olds[1..], news)
  }

  function DiffAttrs(path: seq<nat>, olds: Attrs, news: Attrs): seq<Patch> {
    Additions(path, olds, news) + Removals(path, olds, news)
  }

  function DiffAt(oldTree: LNode, newTree: LNode, path: seq<nat>, index: Index): seq<Patch>
    decreases oldTree
  {
    match (oldTree, newTree)
    case (Fragment(olds), Fragment(news)) => DiffChildren(path, olds, news, index)
    case (Text(_), Text(t)) => [Patch(path, SetText(t))]
    case (Element(oldName, oldAttrs, olds), Element(newName, newAttrs, news)) =>
      DiffAttrs(path, oldAttrs, newAttrs)
      + (if oldName != newName then [Patch(path, ChangeTagName(newName))] else [])
      + DiffChildren(path, olds, news, index)
    case (Component(oldName, _, olds), Component(newName, _, news)) =>
      if oldName == newName then DiffChildren(path + [0, 0], olds, news, index) else []
    case (DynChild(_), DynChild(_)) => []
    case _ => [Patch(path, ReplaceWith(ToReplacement(newTree, index)))]
  }

  function HtmlOf(ns: seq<LNode>): seq<Replacement> {
    seq(|ns|, k requires 0 <= k < |ns| => Html(ns[k]))
  }

  function DiffChildren(path: seq<nat>, olds: seq<LNode>, news: seq<LNode>, index: Index): seq<Patch>
    decreases olds, |olds| + |news| + 1
  {
    if olds == [] && news == [] then []
    else if olds == [] then [Patch(path, AppendChildren(HtmlOf(news)))]
    else if news == [] then [Patch(path, ClearChildren)]
    else Walk(path, olds, news, |olds|, |news|, index)
  }

  /** The patches of one move of the walk. */
  function MovePatches(
    path: seq<nat>, olds: seq<LNode>, news: seq<LNode>, i: nat, j: nat, move: Move, index: Index): seq<Patch>
    requires i <= |olds| && j <= |news|
    decreases olds, 0
  {
    if move == Subst && i > 0 && j > 0 then DiffAt(olds[i - 1], news[j - 1], path + [i - 1], index)
    else if move == Delete && i > 0 then [Patch(path, RemoveChild(i - 1))]
    else if move == Add && j > 0 then [Patch(path, InsertChild(i, ToReplacement(news[j - 1], index)))]
    else []
  }

  /** The patches of the backward walk from cell `(i, j)` on. */
  function Walk(path: seq<nat>, olds: seq<LNode>, news: seq<LNode>, i: nat, j: nat, index: Index): seq<Patch>
    requires i <= |olds| && j <= |news|
    decreases olds, i + j
  {
    if i == 0 && j == 0 then []
    else
      WalkNeverStuck(olds, news, i, j);
      var move := NextMove(olds, news, i, j);
      MovePatches(path, olds, news, i, j, move, index)
      + Walk(path, olds, news, if move == Add then i else i - 1, if move == Delete then j else j - 1, index)
  }

  function Diff(oldTree: LNode, newTree: LNode): seq<Patch> {
    DiffAt(oldTree, newTree, [], AddOldChildren(oldTree, [], map[]))
  }

  // ---------- The source's procedures ----------

  /** The loop's chain of conditions on the table; `Stuck` is its `unreachable!()`. */
  function TableMove(mat: array<nat>, olds: seq<LNode>, news: seq<LNode>, i: nat, j: nat): Move
    requires Filled(mat, olds, news) && i <= |olds| && j <= |news|
    reads mat
  {
    var (width, height) := (|olds| + 1, |news| + 1);
    var current := At(mat, width, height, i, j);
    if i > 0 && j > 0 && olds[i - 1] == news[j - 1] then Match
    else if i > 0 && j > 0 && At(mat, width, height, i - 1, j - 1) + 1 == current then Subst
    else if i > 0 && At(mat, width, height, i - 1, j) + 1 == current then Delete
    else if j > 0 && At(mat, width, height, i, j - 1) + 1 == current then Add
    else Stuck
  }

  /** A filled table never leads to the source's `unreachable!()`. */
  lemma TableDecides(mat: array<nat>, olds: seq<LNode>, news: seq<LNode>, i: nat, j: nat)
    requires Filled(mat, olds, news) && i <= |olds| && j <= |news| && (i > 0 || j > 0)
    ensures TableMove(mat, olds, news, i, j) == NextMove(olds, news, i, j)
    ensures TableMove(mat, olds, news, i, j) != Stuck
  {
    WalkNeverStuck(olds, news, i, j);
  }

  method ComputeDiff(oldTree: LNode, newTree: LNode) returns (patches: seq<Patch>)
    ensures patches == Diff(oldTree, newTree)
  {
    var oldChildren := new OldChildren();
    oldChildren.Add(oldTree, []);
    patches := ComputeDiffAt(oldTree, newTree, [], oldChildren.positions);
  }

  method ComputeDiffAt(oldTree: LNode, newTree: LNode, path: seq<nat>, index: Index) returns (patches: seq<Patch>)
    ensures patches == DiffAt(oldTree, newTree, path, index)
    decreases oldTree
  {
    match (oldTree, newTree)
    case (Fragment(olds), Fragment(news)) =>
      patches := ComputeDiffChildren(path, olds, news, index);
    case (Text(_), Text(t)) =>
      patches := [Patch(path, SetText(t))];
    case (Element(oldName, oldAttrs, olds), Element(newName, newAttrs, news)) =>
      var tagPatch := if oldName != newName then [Patch(path, ChangeTagName(newName))] else [];
      var childrenPatch := ComputeDiffChildren(path, olds, news, index);
      patches := DiffAttrs(path, oldAttrs, newAttrs) + tagPatch + childrenPatch;
    case (Component(oldName, _, olds), Component(newName, _, news)) =>
      if oldName == newName {
        patches := ComputeDiffChildren(path + [0, 0], olds, news, index);
      } else {
        patches := [];
      }
    case (DynChild(_), DynChild(_)) =>
      patches := [];
    case _ =>
      patches := [Patch(path, ReplaceWith(ToReplacement(newTree, index)))];
  }

  method ComputeDiffChildren(path: seq<nat>, olds: seq<LNode>, news: seq<LNode>, index: Index)
    returns (patches: seq<Patch>)
    ensures patches == DiffChildren(path, olds, news, index)
    decreases olds, 1
  {
    if olds == [] && news == [] {
      return [];
    } else if olds == [] {
      return [Patch(path, AppendChildren(HtmlOf(news)))];
    } else if news == [] {
      return [Patch(path, ClearChildren)];
    }
    var mat := FillTable(olds, news);
    patches := WalkBack(mat, path, olds, news, index);
  }

  /** The backward loop over a filled table. */
  method WalkBack(mat: array<nat>, path: seq<nat>, olds: seq<LNode>, news: seq<LNode>, index: Index)
    returns (patches: seq<Patch>)
    requires Filled(mat, olds, news)
    ensures patches == Walk(path, olds, news, |olds|, |news|, index)
    decreases olds, 0, 2
  {
    var i, j := |olds|, |news|;
    patches := [];
    while i > 0 || j > 0
      invariant 0 <= i <= |olds| && 0 <= j <= |news| && Filled(mat, olds, news)
      invariant patches + Walk(path, olds, news, i, j, index) == Walk(path, olds, news, |olds|, |news|, index)
      decreases i + j
    {
      var emitted;
      emitted, i, j := WalkStep(mat, path, olds, news, i, j, index);
      patches := patches + emitted;
    }
    assert patches + [] == patches;
  }

  /** One move of the walk, and the cell it leads to. */
  lemma OneMove(path: seq<nat>, olds: seq<LNode>, news: seq<LNode>, i: nat, j: nat, index: Index)
    returns (move: Move, i': nat, j': nat)
    requires i <= |olds| && j <= |news| && (i > 0 || j > 0)
    ensures move == NextMove(olds, news, i, j) && move != Stuck
    ensures i' == (if move == Add then i else i - 1) && j' == (if move == Delete then j else j - 1)
    ensures move == Match ==> olds[i - 1] == news[j - 1]
    ensures Walk(path, olds, news, i, j, index)
         == MovePatches(path, olds, news, i, j, move, index) + Walk(path, olds, news, i', j', index)
  {
    WalkNeverStuck(olds, news, i, j);
    move := NextMove(olds, news, i, j);
    i', j' := if move == Add then i else i - 1, if move == Delete then j else j - 1;
  }

  method ComputeMove(
    path: seq<nat>, olds: seq<LNode>, news: seq<LNode>, i: nat, j: nat, move: Move, index: Index)
    returns (emitted: seq<Patch>)
    requires i <= |olds| && j <= |news|
    ensures emitted == MovePatches(path, olds, news, i, j, move, index)
    decreases olds, 0, 0
  {
    emitted := [];
    if move == Subst && i > 0 && j > 0 {
      emitted := ComputeDiffAt(olds[i - 1], news[j - 1], path + [i - 1], index);
    } else if move == Delete && i > 0 {
      emitted := [Patch(path, RemoveChild(i - 1))];
    } else if move == Add && j > 0 {
      emitted := [Patch(path, InsertChild(i, ToReplacement(news[j - 1], index)))];
    }
  }

  /** One turn of the backward loop. */
  method WalkStep(
    mat: array<nat>, path: seq<nat>, olds: seq<LNode>, news: seq<LNode>, i: nat, j: nat, index: Index)
    returns (emitted: seq<Patch>, i': nat, j': nat)
    requires Filled(mat, olds, news) && i <= |olds| && j <= |news| && (i > 0 || j > 0)
    ensures i' <= i && j' <= j && i' + j' < i + j
    ensures Walk(path, olds, news, i, j, index) == emitted + Walk(path, olds, news, i', j', index)
    decreases olds, 0, 1
  {
    TableDecides(mat, olds, news, i, j);
    ghost var expected, k, l := OneMove(path, olds, news, i, j, index);
    var move := TableMove(mat, olds, news, i, j);
    emitted := ComputeMove(path, olds, news, i, j, move, index);
    i', j' := if move == Add then i else i - 1, if move == Delete then j else j - 1;
  }
}
