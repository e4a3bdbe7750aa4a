/**
 What a diff leaves alone: matched children stay the same live trees, substituted ones are
 changed in place, and the contents of blocks are not touched at all.
 */
module InPlace {
  import opened Basics
  import opened EditDistance
  import opened Template
  import opened Patching

  // ---------- Attributes ----------

  function Look(m: map<string, string>, name: string): Option<string> {
    if name in m then Some(m[name]) else None
  }

  /**
   The value an attribute has after a diff: unchanged and non-literal ones keep what they had, changed
   literal ones get their value, changed boolean ones the empty string, and those that are gone none.
   */
  function Expected(
    m: map<string, string>, name: string, oldAttr: Option<AttrValue>, newAttr: Option<AttrValue>): Option<string>
  {
    if newAttr.None? then None
    else if oldAttr == newAttr then Look(m, name)
    else
      match newAttr.value
      case Static(v) => Some(v)
      case Boolean => Some("")
      case _ => Look(m, name)
  }

  ghost predicate AttrsExactly(before: map<string, string>, after: map<string, string>, olds: Attrs, news: Attrs) {
    forall name :: Look(after, name) == Expected(before, name, Find(olds, name), Find(news, name))
  }

  /** The value an attribute has in an element that is built anew. */
  function Rebuilt(name: string, attr: Option<AttrValue>): Option<string> {
    match attr
    case Some(Static(v)) => Some(v)
    case Some(Boolean) => Some(name)
    case _ => None
  }

  // ---------- Trees ----------

  /**
   `after` came out of `before`, a tree of `oldTree`, by a diff with `newTree`. Nothing is said of nodes
   of different kinds, which are replaced.
   */
  ghost predicate Inherits(before: Dom, after: Dom, oldTree: LNode, newTree: LNode)
    decreases oldTree
  {
    match (oldTree, newTree)
    case (Fragment(olds), Fragment(news)) =>
      before.Group? && after.Group? && InheritsAll(before.kids, after.kids, olds, news)
    case (Element(_, oldAttrs, olds), Element(_, newAttrs, news)) =>
      && before.Tag? && after.Tag? && AttrsExactly(before.attrs, after.attrs, oldAttrs, newAttrs)
      && InheritsAll(before.kids, after.kids, olds, news)
    case (Component(oldName, _, olds), Component(newName, _, news)) =>
      if oldName == newName then InheritsInside(before, after, olds, news) else after == before
    case (DynChild(_), DynChild(_)) => after == before
    case _ => true
  }

  /** Children of a component, shown two levels below it, are brought up to date there. */
  ghost predicate InheritsInside(before: Dom, after: Dom, olds: seq<LNode>, news: seq<LNode>)
    decreases olds, |olds| + |news| + 2
  {
    var (inner, inner') := (NodeAt(before, [0, 0]), NodeAt(after, [0, 0]));
    inner.Some? && HasKids(inner.value) && ShowsAll(inner.value.kids, olds) && AllUniqueAttrs(news) ==>
      && inner'.Some? && HasKids(inner'.value) && ShowsAll(inner'.value.kids, news)
      && InheritsAll(inner.value.kids, inner'.value.kids, olds, news)
  }

  /** A list that was empty is filled with markup; otherwise the backward walk says what becomes of each child. */
  ghost predicate InheritsAll(before: seq<Dom>, after: seq<Dom>, olds: seq<LNode>, news: seq<LNode>)
    decreases olds, |olds| + |news| + 1
  {
    if olds == [] then after == RenderAll(news)
    else |before| == |olds| && |after| == |news| && InheritsFrom(before, after, olds, news, |olds|, |news|)
  }

  /** A matched child is the same tree as before, a substituted one came out of its predecessor. */
  ghost predicate InheritsFrom(
    before: seq<Dom>, after: seq<Dom>, olds: seq<LNode>, news: seq<LNode>, i: nat, j: nat)
    requires i <= |olds| == |before| && j <= |news| == |after|
    decreases olds, i + j
  {
    if i == 0 || j == 0 then true
    else
      WalkNeverStuck(olds, news, i, j);
      var move := NextMove(olds, news, i, j);
      && (move == Match ==> after[j - 1] == before[i - 1])
      && (move == Subst ==> Inherits(before[i - 1], after[j - 1], olds[i - 1], news[j - 1]))
      && InheritsFrom(before, after, olds, news, if move == Add then i else i - 1, if move == Delete then j else j - 1)
  }
}
