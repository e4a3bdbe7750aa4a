/**
 The script is right: whenever it applies to a live tree of the old template it leaves a
 live tree of the new one, and towards a static template it always applies.
 */
module DiffCorrect {
  import opened Basics
  import opened EditDistance
  import opened Template
  import opened Patching
  import opened TreeDiff
  import opened OldIndex
  import opened InPlace

  predicate LeafComponents(n: LNode) {
    match n
    case Fragment(kids) => forall k | 0 <= k < |kids| :: LeafComponents(kids[k])
    case Element(_, _, kids) => forall k | 0 <= k < |kids| :: LeafComponents(kids[k])
    case Component(_, _, kids) => kids == []
    case _ => true
  }

  predicate AllLeafComponents(ns: seq<LNode>) {
    forall k | 0 <= k < |ns| :: LeafComponents(ns[k])
  }

  /** No component has children, in either template, or the new one is static: none is compared with another. */
  predicate Comparable(oldTree: LNode, newTree: LNode) {
    (LeafComponents(oldTree) && LeafComponents(newTree)) || IsStatic(newTree)
  }

  predicate ComparableLists(olds: seq<LNode>, news: seq<LNode>) {
    (AllLeafComponents(olds) && AllLeafComponents(news)) || AllStatic(news)
  }

  // ---------- Rendered and rebuilt nodes show their template ----------

  lemma {:induction false} RenderAttrsFind(attrs: Attrs, name: string)
    ensures name in RenderAttrs(attrs) ==> name in Names(attrs)
    ensures Carries(RenderAttrs(attrs), name, Find(attrs, name))
  {
    if attrs != [] {
      NamesUnfold(attrs);
      RenderAttrsFind(attrs[1..], name);
    }
  }

  lemma RenderAttrsShow(attrs: Attrs)
    ensures ShowsAttrs(RenderAttrs(attrs), attrs)
  {
    forall name
      ensures name in RenderAttrs(attrs) ==> name in Names(attrs)
      ensures Carries(RenderAttrs(attrs), name, Find(attrs, name))
    {
      RenderAttrsFind(attrs, name);
    }
  }

  lemma {:induction false} RenderShows(n: LNode)
    ensures Shows(Render(n), n)
  {
    match n
    case Fragment(kids) =>
      forall k | 0 <= k < |kids| ensures Shows(RenderAll(kids)[k], kids[k]) {
        RenderShows(kids[k]);
      }
    case Element(_, attrs, kids) =>
      RenderAttrsShow(attrs);
      forall k | 0 <= k < |kids| ensures Shows(RenderAll(kids)[k], kids[k]) {
        RenderShows(kids[k]);
      }
    case _ =>
  }

  lemma {:induction false} SetAllFind(m: map<string, string>, attrs: Attrs, name: string)
    requires UniqueNames(attrs)
    ensures Look(SetAll(m, ReplacementAttrs(attrs)), name)
         == (if Rebuilt(name, Find(attrs, name)).Some? then Rebuilt(name, Find(attrs, name)) else Look(m, name))
    decreases |attrs|
  {
    if attrs != [] {
      var (first, rest) := (attrs[0], attrs[1..]);
      var value := Rebuilt(first.0, Some(first.1));
      FindMeansNamed(rest, name);
      SetAllFirst(m, first, ReplacementAttrs(rest));
      SetAllFind(if value.Some? then m[first.0 := value.value] else m, rest, name);
    }
  }

  lemma SetAllFirst(m: map<string, string>, attr: (string, AttrValue), rest: seq<(string, string)>)
    ensures var value := Rebuilt(attr.0, Some(attr.1));
            SetAll(m, ReplacementAttr(attr) + rest)
            == SetAll(if value.Some? then m[attr.0 := value.value] else m, rest)
  {
    var first := ReplacementAttr(attr);
    if first == [] {
      assert first + rest == rest;
    } else {
      assert (first + rest)[0] == first[0] && (first + rest)[1..] == rest;
    }
  }

  /** A rebuilt element has its literal attributes with their values and its boolean ones with their own names. */
  lemma ReplacementAttrsShow(attrs: Attrs)
    requires UniqueNames(attrs)
    ensures ShowsAttrs(SetAll(map[], ReplacementAttrs(attrs)), attrs)
    ensures forall name :: Look(SetAll(map[], ReplacementAttrs(attrs)), name) == Rebuilt(name, Find(attrs, name))
  {
    var empty: map<string, string> := map[];
    var r := SetAll(empty, ReplacementAttrs(attrs));
    forall name
      ensures name in r ==> name in Names(attrs)
      ensures Carries(r, name, Find(attrs, name))
      ensures Look(r, name) == Rebuilt(name, Find(attrs, name))
    {
      SetAllFind(empty, attrs, name);
      FindMeansNamed(attrs, name);
    }
  }

  /** What a replacement builds shows its template; without paths it always builds. */
  lemma {:induction false} ReplacementBuilds(root: Dom, n: LNode, index: Index)
    requires UniqueAttrs(n) && DynamicKeys(index)
    ensures var (r, built) := (ToReplacement(n, index), Build(root, ToReplacement(n, index)));
            (PlainReplacement(r) ==> built.Some?) && (built.Some? ==> Shows(built.value, n))
    decreases n
  {
    if n !in index {
      match n
      case Fragment(kids) => ReplacementsBuild(root, kids, index);
      case Element(_, attrs, kids) =>
        ReplacementsBuild(root, kids, index);
        ReplacementAttrsShow(attrs);
      case _ =>
    }
  }

  lemma {:induction false} ReplacementsBuild(root: Dom, ns: seq<LNode>, index: Index)
    requires AllUniqueAttrs(ns) && DynamicKeys(index)
    ensures var (rs, built) := (ToReplacements(ns, index), BuildAll(root, ToReplacements(ns, index)));
            && ((forall k | 0 <= k < |rs| :: PlainReplacement(rs[k])) ==> built.Some?)
            && (built.Some? ==> ShowsAll(built.value, ns))
    decreases ns
  {
    if ns != [] {
      var rs := ToReplacements(ns, index);
      assert rs[0] == ToReplacement(ns[0], index) && rs[1..] == ToReplacements(ns[1..], index);
      ReplacementBuilds(root, ns[0], index);
      ReplacementsBuild(root, ns[1..], index);
    }
  }

  lemma {:induction false} HtmlBuilds(root: Dom, ns: seq<LNode>)
    ensures BuildAll(root, HtmlOf(ns)) == Some(RenderAll(ns)) && ShowsAll(RenderAll(ns), ns)
    decreases |ns|
  {
    if ns == [] {
      assert RenderAll(ns) == [];
    } else {
      HtmlBuilds(root, ns[1..]);
      RenderShows(ns[0]);
      assert HtmlOf(ns) == [Html(ns[0])] + HtmlOf(ns[1..]);
      assert RenderAll(ns) == [Render(ns[0])] + RenderAll(ns[1..]);
    }
  }

  // ---------- Attributes ----------

  /** What the additions leave of an attribute map. */
  ghost function Added(m: map<string, string>, olds: Attrs, news: Attrs): map<string, string>
    decreases |news|
  {
    if news == [] then m else Added(AddedFirst(m, olds, news[0]), olds, news[1..])
  }

  ghost function AddedFirst(m: map<string, string>, olds: Attrs, attr: (string, AttrValue)): map<string, string> {
    if Find(olds, attr.0) == Some(attr.1) then m
    else
      match attr.1
      case Boolean => m[attr.0 := ""]
      case Static(v) => m[attr.0 := v]
      case _ => m
  }

  ghost function Removed(m: map<string, string>, olds: Attrs, news: Attrs): map<string, string>
    decreases |olds|
  {
    if olds == [] then m
    else Removed(if olds[0].0 in Names(news) then m else m - {olds[0].0}, olds[1..], news)
  }

  /** A first patch to a tag's attributes, followed by others. */
  lemma AttrPatchFirst(root: Dom, first: Patch, rest: seq<Patch>, m': map<string, string>, m'': map<string, string>)
    requires NodeAt(root, first.path).Some? && NodeAt(root, first.path).value.Tag?
    requires Act(root, NodeAt(root, first.path).value, first.action)
          == Some(NodeAt(root, first.path).value.(attrs := m'))
    requires var d := NodeAt(root, first.path).value;
             var root' := Put(root, first.path, d.(attrs := m'));
             NodeAt(root', first.path) == Some(d.(attrs := m')) ==>
             ApplyAll(root', rest) == Some(Put(root', first.path, d.(attrs := m'')))
    ensures ApplyAll(root, [first] + rest) == Some(Put(root, first.path, NodeAt(root, first.path).value.(attrs := m'')))
  {
    var d := NodeAt(root, first.path).value;
    PutThenGet(root, first.path, d.(attrs := m'));
    PutTwice(root, first.path, d.(attrs := m'), d.(attrs := m''));
    assert ([first] + rest)[1..] == rest;
  }

  lemma {:induction false} AdditionsApply(root: Dom, path: seq<nat>, olds: Attrs, news: Attrs)
    requires NodeAt(root, path).Some? && NodeAt(root, path).value.Tag?
    ensures ApplyAll(root, Additions(path, olds, news))
         == Some(Put(root, path, NodeAt(root, path).value.(attrs := Added(NodeAt(root, path).value.attrs, olds, news))))
    decreases |news|
  {
    var d := NodeAt(root, path).value;
    if news == [] {
      PutSame(root, path, d);
    } else {
      var m' := AddedFirst(d.attrs, olds, news[0]);
      if Additions(path, olds, news) == Additions(path, olds, news[1..]) && m' == d.attrs {
        AdditionsApply(root, path, olds, news[1..]);
      } else {
        var first := Patch(path, SetAttribute(news[0].0, if news[0].1.Static? then news[0].1.value else ""));
        assert Additions(path, olds, news) == [first] + Additions(path, olds, news[1..]);
        var d' := d.(attrs := m');
        PutThenGet(root, path, d');
        AdditionsApply(Put(root, path, d'), path, olds, news[1..]);
        AttrPatchFirst(root, first, Additions(path, olds, news[1..]), m', Added(d.attrs, olds, news));
      }
    }
  }

  lemma {:induction false} RemovalsApply(root: Dom, path: seq<nat>, olds: Attrs, news: Attrs)
    requires NodeAt(root, path).Some? && NodeAt(root, path).value.Tag?
    ensures ApplyAll(root, Removals(path, olds, news))
         == Some(Put(root, path,
                     NodeAt(root, path).value.(attrs := Removed(NodeAt(root, path).value.attrs, olds, news))))
    decreases |olds|
  {
    var d := NodeAt(root, path).value;
    if olds == [] {
      PutSame(root, path, d);
    } else if olds[0].0 in Names(news) {
      assert Removals(path, olds, news) == Removals(path, olds[1..], news);
      RemovalsApply(root, path, olds[1..], news);
    } else {
      var m' := d.attrs - {olds[0].0};
      var first := Patch(path, RemoveAttribute(olds[0].0));
      assert Removals(path, olds, news) == [first] + Removals(path, olds[1..], news);
      PutThenGet(root, path, d.(attrs := m'));
      RemovalsApply(Put(root, path, d.(attrs := m')), path, olds[1..], news);
      AttrPatchFirst(root, first, Removals(path, olds[1..], news), m', Removed(d.attrs, olds, news));
    }
  }

  lemma {:induction false} AddedFind(m: map<string, string>, olds: Attrs, news: Attrs, name: string)
    requires UniqueNames(news)
    ensures Look(Added(m, olds, news), name)
         == (if Find(news, name).None? then Look(m, name) else Expected(m, name, Find(olds, name), Find(news, name)))
    decreases |news|
  {
    if news != [] {
      FindMeansNamed(news[1..], name);
      AddedFind(AddedFirst(m, olds, news[0]), olds, news[1..], name);
    }
  }

  lemma {:induction false} RemovedLookup(m: map<string, string>, olds: Attrs, news: Attrs, name: string)
    ensures var r := Removed(m, olds, news);
            && (name in r <==> name in m && !(name in Names(olds) && name !in Names(news)))
            && (name in r ==> r[name] == m[name])
    decreases |olds|
  {
    if olds != [] {
      NamesUnfold(olds);
      RemovedLookup(if olds[0].0 in Names(news) then m else m - {olds[0].0}, olds[1..], news, name);
    }
  }

  lemma AttrsBecomeNew(m: map<string, string>, olds: Attrs, news: Attrs)
    requires m.Keys <= Names(olds) && UniqueNames(news)
    ensures AttrsExactly(m, Removed(Added(m, olds, news), olds, news), olds, news)
  {
    var r := Removed(Added(m, olds, news), olds, news);
    forall name ensures Look(r, name) == Expected(m, name, Find(olds, name), Find(news, name)) {
      AddedFind(m, olds, news, name);
      RemovedLookup(Added(m, olds, news), olds, news, name);
      FindMeansNamed(olds, name);
      FindMeansNamed(news, name);
    }
  }

  /** Attributes that are exactly as expected show the new list. */
  lemma ExactAttrsShow(m: map<string, string>, m': map<string, string>, olds: Attrs, news: Attrs)
    requires ShowsAttrs(m, olds) && AttrsExactly(m, m', olds, news)
    ensures ShowsAttrs(m', news)
  {
    forall name
      ensures name in m' ==> name in Names(news)
      ensures Carries(m', name, Find(news, name))
    {
      assert Look(m', name) == Expected(m, name, Find(olds, name), Find(news, name));
      assert Carries(m, name, Find(olds, name));
      FindMeansNamed(news, name);
    }
  }

  lemma AttrsApply(root: Dom, path: seq<nat>, olds: Attrs, news: Attrs) returns (m: map<string, string>)
    requires NodeAt(root, path).Some? && NodeAt(root, path).value.Tag?
    requires ShowsAttrs(NodeAt(root, path).value.attrs, olds) && UniqueNames(news)
    ensures AttrsExactly(NodeAt(root, path).value.attrs, m, olds, news) && ShowsAttrs(m, news)
    ensures ApplyAll(root, DiffAttrs(path, olds, news)) == Some(Put(root, path, NodeAt(root, path).value.(attrs := m)))
  {
    var d := NodeAt(root, path).value;
    var d' := d.(attrs := Added(d.attrs, olds, news));
    m := Removed(Added(d.attrs, olds, news), olds, news);
    ApplyConcat(root, Additions(path, olds, news), Removals(path, olds, news));
    AdditionsApply(root, path, olds, news);
    PutThenGet(root, path, d');
    RemovalsApply(Put(root, path, d'), path, olds, news);
    PutTwice(root, path, d', d.(attrs := m));
    AttrsBecomeNew(d.attrs, olds, news);
    ExactAttrsShow(d.attrs, m, olds, news);
  }

  // ---------- Trees ----------

  lemma OnePatch(root: Dom, p: Patch)
    ensures ApplyAll(root, [p]) == ApplyPatch(root, p)
  {
    assert [p][1..] == [];
  }

  /** What a diff of `oldTree` and `newTree` may assume. */
  ghost predicate Diffable(root: Dom, oldTree: LNode, newTree: LNode, path: seq<nat>, index: Index) {
    && NodeAt(root, path).Some? && Shows(NodeAt(root, path).value, oldTree)
    && UniqueAttrs(newTree) && DynamicKeys(index)
  }

  /**
   A result, if there is one, has at `path` a tree of `newTree` that came out of the one of `oldTree`, and is
   otherwise untouched.
   */
  ghost predicate Turned(result: Option<Dom>, root: Dom, path: seq<nat>, d: Dom, oldTree: LNode, newTree: LNode) {
    result.Some? ==>
      && NodeAt(root, path).Some? && Shows(d, newTree) && Inherits(NodeAt(root, path).value, d, oldTree, newTree)
      && result.value == Put(root, path, d)
  }

  /** Diffing two nodes rewrites the live node of the old one into one of the new, and nothing else. */
  lemma {:induction false} DiffAtApplies(root: Dom, oldTree: LNode, newTree: LNode, path: seq<nat>, index: Index)
    returns (d: Dom)
    requires Diffable(root, oldTree, newTree, path, index)
    ensures var ps := DiffAt(oldTree, newTree, path, index);
            && (PathFree(ps) && Comparable(oldTree, newTree) ==> ApplyAll(root, ps).Some?)
            && Turned(ApplyAll(root, ps), root, path, d, oldTree, newTree)
    decreases oldTree
  {
    d := NodeAt(root, path).value;
    match (oldTree, newTree)
    case (Fragment(_), Fragment(_)) =>
      d := FragmentApplies(root, oldTree, newTree, path, index);
    case (Text(_), Text(_)) =>
      d := TextApplies(root, oldTree, newTree, path, index);
    case (Element(_, _, _), Element(_, _, _)) =>
      d := ElementApplies(root, oldTree, newTree, path, index);
    case (Component(_, _, _), Component(_, _, _)) =>
      d := ComponentApplies(root, oldTree, newTree, path, index);
    case (DynChild(_), DynChild(_)) =>
      PutSame(root, path, d);
    case _ =>
      d := ReplaceApplies(root, oldTree, newTree, path, index);
  }

  lemma TextApplies(root: Dom, oldTree: LNode, newTree: LNode, path: seq<nat>, index: Index) returns (d: Dom)
    requires oldTree.Text? && newTree.Text? && Diffable(root, oldTree, newTree, path, index)
    ensures var ps := DiffAt(oldTree, newTree, path, index);
            ApplyAll(root, ps).Some? && Turned(ApplyAll(root, ps), root, path, d, oldTree, newTree)
  {
    OnePatch(root, Patch(path, SetText(newTree.text)));
    d := Chars(newTree.text);
  }

  lemma {:induction false} FragmentApplies(root: Dom, oldTree: LNode, newTree: LNode, path: seq<nat>, index: Index)
    returns (d: Dom)
    requires oldTree.Fragment? && newTree.Fragment? && Diffable(root, oldTree, newTree, path, index)
    ensures var ps := DiffAt(oldTree, newTree, path, index);
            && (PathFree(ps) && Comparable(oldTree, newTree) ==> ApplyAll(root, ps).Some?)
            && Turned(ApplyAll(root, ps), root, path, d, oldTree, newTree)
    decreases oldTree, 0
  {
    var kids := DiffChildrenApplies(root, path, oldTree.children, newTree.children, index);
    d := Group(kids);
  }

  /** Whatever happens inside a component stays inside it, and its children are brought up to date there. */
  lemma {:induction false} ComponentApplies(root: Dom, oldTree: LNode, newTree: LNode, path: seq<nat>, index: Index)
    returns (d: Dom)
    requires oldTree.Component? && newTree.Component? && Diffable(root, oldTree, newTree, path, index)
    ensures var result := ApplyAll(root, DiffAt(oldTree, newTree, path, index));
            && (LeafComponents(oldTree) && LeafComponents(newTree) ==> result.Some?)
            && Turned(result, root, path, d, oldTree, newTree)
    decreases oldTree, 1
  {
    var (ps, before) := (DiffAt(oldTree, newTree, path, index), NodeAt(root, path).value);
    if oldTree.name != newTree.name {
      d := before;
      PutSame(root, path, d);
    } else {
      DiffChildrenWithin(path + [0, 0], oldTree.children, newTree.children, index);
      assert Within(ps, path + [0, 0]);
      d := LocalScript(root, ps, path);
      if ApplyAll(root, ps).Some? {
        InsideApplies(root, oldTree, newTree, path, index, d);
      }
    }
  }

  lemma {:induction false} InsideApplies(
    root: Dom, oldTree: LNode, newTree: LNode, path: seq<nat>, index: Index, d: Dom)
    requires oldTree.Component? && newTree.Component? && DynamicKeys(index) && NodeAt(root, path).Some?
    requires ApplyAll(root, DiffChildren(path + [0, 0], oldTree.children, newTree.children, index))
          == Some(Put(root, path, d))
    ensures InheritsInside(NodeAt(root, path).value, d, oldTree.children, newTree.children)
    decreases oldTree, 0
  {
    var (before, inside) := (NodeAt(root, path).value, path + [0, 0]);
    var (olds, news) := (oldTree.children, newTree.children);
    PathConcat(root, path, [0, 0], before);
    var inner := NodeAt(before, [0, 0]);
    if inner.Some? && HasKids(inner.value) && ShowsAll(inner.value.kids, olds) && AllUniqueAttrs(news) {
      var kids := DiffChildrenApplies(root, inside, olds, news, index);
      var x := WithKids(inner.value, kids);
      PathConcat(root, path, [0, 0], x);
      PutThenGet(root, path, d);
      PutThenGet(root, path, Put(before, [0, 0], x));
      assert d == Put(before, [0, 0], x);
      PutThenGet(before, [0, 0], x);
    }
  }

  lemma ReplaceApplies(root: Dom, oldTree: LNode, newTree: LNode, path: seq<nat>, index: Index) returns (d: Dom)
    requires NodeAt(root, path).Some? && UniqueAttrs(newTree) && DynamicKeys(index) && !SameKind(oldTree, newTree)
    ensures var ps := [Patch(path, ReplaceWith(ToReplacement(newTree, index)))];
            && (PathFree(ps) ==> ApplyAll(root, ps).Some?)
            && Turned(ApplyAll(root, ps), root, path, d, oldTree, newTree)
  {
    var patch := Patch(path, ReplaceWith(ToReplacement(newTree, index)));
    assert PathFree([patch]) ==> PlainAction([patch][0].action);
    ReplacementBuilds(root, newTree, index);
    OnePatch(root, patch);
    var built := Build(root, ToReplacement(newTree, index));
    d := if built.Some? then built.value else root;
  }

  // ---------- Scripts inside one node ----------

  /** Every patch is addressed to `path` or below. */
  ghost predicate Within(ps: seq<Patch>, path: seq<nat>) {
    forall k | 0 <= k < |ps| :: path <= ps[k].path
  }

  lemma WithinConcat(ps: seq<Patch>, qs: seq<Patch>, path: seq<nat>)
    requires Within(ps, path) && Within(qs, path)
    ensures Within(ps + qs, path)
  {}

  lemma {:induction false} AdditionsWithin(path: seq<nat>, olds: Attrs, news: Attrs)
    ensures Within(Additions(path, olds, news), path)
    decreases |news|
  {
    if news != [] {
      AdditionsWithin(path, olds, news[1..]);
    }
  }

  lemma {:induction false} RemovalsWithin(path: seq<nat>, olds: Attrs, news: Attrs)
    ensures Within(Removals(path, olds, news), path)
    decreases |olds|
  {
    if olds != [] {
      RemovalsWithin(path, olds[1..], news);
    }
  }

  lemma {:induction false} DiffAtWithin(oldTree: LNode, newTree: LNode, path: seq<nat>, index: Index)
    ensures Within(DiffAt(oldTree, newTree, path, index), path)
    decreases oldTree
  {
    match (oldTree, newTree)
    case (Fragment(olds), Fragment(news)) => DiffChildrenWithin(path, olds, news, index);
    case (Element(oldName, oldAttrs, olds), Element(newName, newAttrs, news)) =>
      var tagPatch := if oldName != newName then [Patch(path, ChangeTagName(newName))] else [];
      AdditionsWithin(path, oldAttrs, newAttrs);
      RemovalsWithin(path, oldAttrs, newAttrs);
      WithinConcat(Additions(path, oldAttrs, newAttrs), Removals(path, oldAttrs, newAttrs), path);
      WithinConcat(DiffAttrs(path, oldAttrs, newAttrs), tagPatch, path);
      DiffChildrenWithin(path, olds, news, index);
      WithinConcat(DiffAttrs(path, oldAttrs, newAttrs) + tagPatch, DiffChildren(path, olds, news, index), path);
    case (Component(_, _, olds), Component(_, _, news)) => DiffChildrenWithin(path + [0, 0], olds, news, index);
    case _ =>
  }

  lemma {:induction false} DiffChildrenWithin(path: seq<nat>, olds: seq<LNode>, news: seq<LNode>, index: Index)
    ensures Within(DiffChildren(path, olds, news, index), path)
    decreases olds, |olds| + |news| + 1
  {
    if olds != [] && news != [] {
      WalkWithin(path, olds, news, |olds|, |news|, index);
    }
  }

  lemma {:induction false} WalkWithin(
    path: seq<nat>, olds: seq<LNode>, news: seq<LNode>, i: nat, j: nat, index: Index)
    requires i <= |olds| && j <= |news|
    ensures Within(Walk(path, olds, news, i, j, index), path)
    decreases olds, i + j
  {
    if i > 0 || j > 0 {
      var move, i', j' := OneMove(path, olds, news, i, j, index);
      if move == Subst {
        DiffAtWithin(olds[i - 1], news[j - 1], path + [i - 1], index);
      }
      WalkWithin(path, olds, news, i', j', index);
      WithinConcat(MovePatches(path, olds, news, i, j, move, index), Walk(path, olds, news, i', j', index), path);
    }
  }

  /** A script inside one node changes that node only. */
  lemma {:induction false} LocalScript(root: Dom, ps: seq<Patch>, path: seq<nat>) returns (d: Dom)
    requires NodeAt(root, path).Some? && Within(ps, path)
    ensures ApplyAll(root, ps).Some? ==> ApplyAll(root, ps).value == Put(root, path, d)
    ensures IsContent(NodeAt(root, path).value) && (forall k | 0 <= k < |ps| :: |path| < |ps[k].path|) ==> IsContent(d)
    decreases |ps|
  {
    d := NodeAt(root, path).value;
    if ps == [] {
      PutSame(root, path, d);
    } else if ApplyPatch(root, ps[0]).Some? {
      var (below, root') := (ps[0].path[|path|..], ApplyPatch(root, ps[0]).value);
      assert ps[0].path == path + below;
      var x := Act(root, NodeAt(root, ps[0].path).value, ps[0].action).value;
      PathConcat(root, path, below, x);
      PutThenGet(root, path, Put(d, below, x));
      var d' := LocalScript(root', ps[1..], path);
      PutTwice(root, path, Put(d, below, x), d');
      d := d';
    }
  }

  // ---------- Elements and child lists ----------

  lemma PathFreeParts(ps: seq<Patch>, qs: seq<Patch>)
    ensures PathFree(ps + qs) ==> PathFree(ps) && PathFree(qs)
  {
    if PathFree(ps + qs) {
      forall k | 0 <= k < |ps| ensures PlainAction(ps[k].action) {
        assert (ps + qs)[k] == ps[k];
      }
      forall k | 0 <= k < |qs| ensures PlainAction(qs[k].action) {
        assert (ps + qs)[|ps| + k] == qs[k];
      }
    }
  }

  lemma {:induction false} ElementApplies(root: Dom, oldTree: LNode, newTree: LNode, path: seq<nat>, index: Index)
    returns (d3: Dom)
    requires oldTree.Element? && newTree.Element? && Diffable(root, oldTree, newTree, path, index)
    ensures var ps := DiffAt(oldTree, newTree, path, index);
            && (PathFree(ps) && Comparable(oldTree, newTree) ==> ApplyAll(root, ps).Some?)
            && Turned(ApplyAll(root, ps), root, path, d3, oldTree, newTree)
    decreases oldTree, 0
  {
    var (head, tail) := ElementScript(oldTree, newTree, path, index);
    PathFreeParts(head, tail);
    ApplyConcat(root, head, tail);
    var d2 := HeadApplies(root, oldTree, newTree, path);
    PutThenGet(root, path, d2);
    var kids := DiffChildrenApplies(Put(root, path, d2), path, oldTree.children, newTree.children, index);
    d3 := d2.(kids := kids);
    PutTwice(root, path, d2, d3);
  }

  /** The patches of an element: attributes and tag, then children. */
  function ElementScript(oldTree: LNode, newTree: LNode, path: seq<nat>, index: Index): (r: (seq<Patch>, seq<Patch>))
    requires oldTree.Element? && newTree.Element?
    ensures r.0 + r.1 == DiffAt(oldTree, newTree, path, index)
  {
    (DiffAttrs(path, oldTree.attrs, newTree.attrs)
     + (if oldTree.name != newTree.name then [Patch(path, ChangeTagName(newTree.name))] else []),
     DiffChildren(path, oldTree.children, newTree.children, index))
  }

  /** The attribute and tag patches of an element, before those of its children. */
  lemma HeadApplies(root: Dom, oldTree: LNode, newTree: LNode, path: seq<nat>) returns (d2: Dom)
    requires oldTree.Element? && newTree.Element? && UniqueAttrs(newTree)
    requires NodeAt(root, path).Some? && Shows(NodeAt(root, path).value, oldTree)
    ensures d2.Tag? && d2.name == newTree.name && ShowsAttrs(d2.attrs, newTree.attrs)
    ensures AttrsExactly(NodeAt(root, path).value.attrs, d2.attrs, oldTree.attrs, newTree.attrs)
    ensures d2.kids == NodeAt(root, path).value.kids
    ensures forall index :: ApplyAll(root, ElementScript(oldTree, newTree, path, index).0) == Some(Put(root, path, d2))
  {
    var d := NodeAt(root, path).value;
    var attrsPatch := DiffAttrs(path, oldTree.attrs, newTree.attrs);
    var tagPatch := if oldTree.name != newTree.name then [Patch(path, ChangeTagName(newTree.name))] else [];
    var m := AttrsApply(root, path, oldTree.attrs, newTree.attrs);
    var d1 := d.(attrs := m);
    d2 := d1.(name := newTree.name);
    PutThenGet(root, path, d1);
    PutTwice(root, path, d1, d2);
    assert ApplyAll(Put(root, path, d1), tagPatch) == Some(Put(root, path, d2)) by {
      if oldTree.name != newTree.name {
        OnePatch(Put(root, path, d1), tagPatch[0]);
      }
    }
    ApplyConcat(root, attrsPatch, tagPatch);
  }

  /** A result, if there is one, has children for `news` at `path` and is otherwise untouched. */
  ghost predicate TurnedKids(result: Option<Dom>, root: Dom, path: seq<nat>, kids: seq<Dom>, news: seq<LNode>)
    requires NodeAt(root, path).Some? && HasKids(NodeAt(root, path).value)
  {
    result.Some? ==> ShowsAll(kids, news) && result.value == Put(root, path, WithKids(NodeAt(root, path).value, kids))
  }

  /** The children of a finished walk end with those that were finished before it, and came out of the old ones. */
  ghost predicate Walked(
    result: Option<Dom>, kids: seq<Dom>, final: seq<Dom>, done: seq<Dom>, olds: seq<LNode>, news: seq<LNode>,
    i: nat, j: nat)
  {
    result.Some? ==>
      && i <= |olds| == |kids| && j <= |news| == |final| && final[j..] == done
      && InheritsFrom(kids, final, olds, news, i, j)
  }

  lemma {:induction false} DiffChildrenApplies(
    root: Dom, path: seq<nat>, olds: seq<LNode>, news: seq<LNode>, index: Index)
    returns (kids: seq<Dom>)
    requires NodeAt(root, path).Some? && HasKids(NodeAt(root, path).value)
    requires ShowsAll(NodeAt(root, path).value.kids, olds) && AllUniqueAttrs(news) && DynamicKeys(index)
    ensures var ps := DiffChildren(path, olds, news, index);
            && (PathFree(ps) && ComparableLists(olds, news) ==> ApplyAll(root, ps).Some?)
            && TurnedKids(ApplyAll(root, ps), root, path, kids, news)
            && (ApplyAll(root, ps).Some? ==> InheritsAll(NodeAt(root, path).value.kids, kids, olds, news))
    decreases olds, |olds| + |news| + 1
  {
    var d := NodeAt(root, path).value;
    if olds == [] && news == [] {
      kids := d.kids;
      PutSame(root, path, d);
    } else if olds == [] {
      kids := RenderAll(news);
      AppendApplies(root, path, news);
    } else if news == [] {
      kids := [];
      OnePatch(root, Patch(path, ClearChildren));
    } else {
      assert d.kids == d.kids[..|olds|] + [];
      kids := WalkApplies(root, path, olds, news, |olds|, |news|, d.kids, [], index);
    }
  }

  lemma AppendApplies(root: Dom, path: seq<nat>, news: seq<LNode>)
    requires NodeAt(root, path).Some? && HasKids(NodeAt(root, path).value) && NodeAt(root, path).value.kids == []
    ensures ShowsAll(RenderAll(news), news)
    ensures ApplyAll(root, [Patch(path, AppendChildren(HtmlOf(news)))])
         == Some(Put(root, path, WithKids(NodeAt(root, path).value, RenderAll(news))))
  {
    var d := NodeAt(root, path).value;
    HtmlBuilds(root, news);
    assert d.kids + RenderAll(news) == RenderAll(news);
    assert Act(root, d, AppendChildren(HtmlOf(news))) == Some(WithKids(d, RenderAll(news)));
    OnePatch(root, Patch(path, AppendChildren(HtmlOf(news))));
  }

  /**
   Midway through a walk the live children are the untouched ones of the first `i` old
   templates followed by finished ones for the new templates from `j` on.
   */
  ghost predicate Midway(
    root: Dom, path: seq<nat>, olds: seq<LNode>, news: seq<LNode>, i: nat, j: nat, kids: seq<Dom>, done: seq<Dom>)
  {
    && i <= |olds| && j <= |news|
    && ShowsAll(kids, olds) && ShowsAll(done, news[j..]) && AllUniqueAttrs(news)
    && NodeAt(root, path).Some? && HasKids(NodeAt(root, path).value)
    && NodeAt(root, path).value.kids == kids[..i] + done
  }

  lemma {:induction false} WalkApplies(
    root: Dom, path: seq<nat>, olds: seq<LNode>, news: seq<LNode>, i: nat, j: nat,
    kids: seq<Dom>, done: seq<Dom>, index: Index)
    returns (final: seq<Dom>)
    requires Midway(root, path, olds, news, i, j, kids, done) && DynamicKeys(index)
    ensures var ps := Walk(path, olds, news, i, j, index);
            && (PathFree(ps) && ComparableLists(olds, news) ==> ApplyAll(root, ps).Some?)
            && TurnedKids(ApplyAll(root, ps), root, path, final, news)
            && Walked(ApplyAll(root, ps), kids, final, done, olds, news, i, j)
    decreases olds, i + j, 0
  {
    var d := NodeAt(root, path).value;
    if i == 0 && j == 0 {
      final := done;
      assert d.kids == done && news[0..] == news;
      PutSame(root, path, d);
    } else {
      var move, i', j' := OneMove(path, olds, news, i, j, index);
      var (emitted, rest) := (MovePatches(path, olds, news, i, j, move, index), Walk(path, olds, news, i', j', index));
      PathFreeParts(emitted, rest);
      ApplyConcat(root, emitted, rest);
      var done' := MoveApplies(root, path, olds, news, i, j, kids, done, index, move, i', j');
      final := done;
      if ApplyAll(root, emitted).Some? {
        final := RestApplies(root, path, olds, news, i', j', kids, done', index);
        if ApplyAll(root, Walk(path, olds, news, i, j, index)).Some? {
          WalkedOne(kids, final, done, done', olds, news, i, j, move);
        }
      }
    }
  }

  /** One more move of a walk that is finished from the next cell on. */
  lemma WalkedOne(
    kids: seq<Dom>, final: seq<Dom>, done: seq<Dom>, done': seq<Dom>, olds: seq<LNode>, news: seq<LNode>,
    i: nat, j: nat, move: Move)
    requires i <= |olds| == |kids| && j <= |news| == |final| && (i > 0 || j > 0)
    requires move == NextMove(olds, news, i, j) && move != Stuck && Carried(kids, done, done', olds, news, i, j, move)
    requires var (i', j') := (if move == Add then i else i - 1, if move == Delete then j else j - 1);
             final[j'..] == done' && InheritsFrom(kids, final, olds, news, i', j')
    ensures final[j..] == done && InheritsFrom(kids, final, olds, news, i, j)
  {
    if move != Delete {
      LastFinished(final, done, done', j);
    }
  }

  lemma LastFinished(final: seq<Dom>, done: seq<Dom>, done': seq<Dom>, j: nat)
    requires 0 < j <= |final| && final[j - 1..] == done' && done' != [] && done' == [done'[0]] + done
    ensures final[j - 1] == done'[0] && final[j..] == done
  {
    assert final[j - 1..] == [final[j - 1]] + final[j..];
    assert done'[1..] == done && final[j - 1..][1..] == final[j..];
  }

  /** What one move does to the finished children. */
  ghost predicate Carried(
    kids: seq<Dom>, done: seq<Dom>, done': seq<Dom>, olds: seq<LNode>, news: seq<LNode>, i: nat, j: nat, move: Move)
    requires i <= |olds| == |kids| && j <= |news|
  {
    && (move == Delete ==> done' == done)
    && (move != Delete ==> done' != [] && done' == [done'[0]] + done)
    && (move == Match && i > 0 ==> done'[0] == kids[i - 1])
    && (move == Subst && i > 0 && j > 0 ==> Inherits(kids[i - 1], done'[0], olds[i - 1], news[j - 1]))
  }

  /** The result of one move, if there is one, has the children of the next cell. */
  ghost predicate Moved(
    result: Option<Dom>, root: Dom, path: seq<nat>, news: seq<LNode>, i: nat, j: nat, kids: seq<Dom>, done: seq<Dom>)
    requires NodeAt(root, path).Some? && HasKids(NodeAt(root, path).value)
  {
    result.Some? ==>
      && i <= |kids| && j <= |news| && ShowsAll(done, news[j..])
      && result.value == Put(root, path, WithKids(NodeAt(root, path).value, kids[..i] + done))
  }

  /** One move leaves the children of the next cell. */
  lemma {:induction false} MoveApplies(
    root: Dom, path: seq<nat>, olds: seq<LNode>, news: seq<LNode>, i: nat, j: nat,
    kids: seq<Dom>, done: seq<Dom>, index: Index, move: Move, i': nat, j': nat)
    returns (done': seq<Dom>)
    requires Midway(root, path, olds, news, i, j, kids, done) && DynamicKeys(index) && move != Stuck
    requires i' == (if move == Add then i else i - 1) && j' == (if move == Delete then j else j - 1)
    requires move == Match ==> olds[i - 1] == news[j - 1]
    ensures var ps := MovePatches(path, olds, news, i, j, move, index);
            && (PathFree(ps) && ComparableLists(olds, news) ==> ApplyAll(root, ps).Some?)
            && Moved(ApplyAll(root, ps), root, path, news, i', j', kids, done')
            && (ApplyAll(root, ps).Some? ==> Carried(kids, done, done', olds, news, i, j, move))
    decreases olds, 0, 1
  {
    var d := NodeAt(root, path).value;
    if move == Delete {
      done' := done;
      DeleteApplies(root, path, i, kids, done, [Patch(path, RemoveChild(i - 1))]);
    } else {
      var x: Dom := d;
      if move == Match {
        x := kids[i - 1];
        assert kids[..i - 1] + ([x] + done) == d.kids;
        PutSame(root, path, d);
      } else if move == Subst {
        x := SubstApplies(root, path, olds, news, i, j, kids, done, index);
      } else {
        x := AddApplies(root, path, news, i, j, kids, done, index);
      }
      done' := [x] + done;
      if ApplyAll(root, MovePatches(path, olds, news, i, j, move, index)).Some? {
        ShowsOneMore(x, done, news, j);
      }
    }
  }

  lemma ShowsOneMore(x: Dom, done: seq<Dom>, news: seq<LNode>, j: nat)
    requires 0 < j <= |news| && Shows(x, news[j - 1]) && ShowsAll(done, news[j..])
    ensures ShowsAll([x] + done, news[j - 1..])
  {
    assert news[j - 1..] == [news[j - 1]] + news[j..];
  }

  /** The rest of a walk, from the children that its first move left. */
  lemma {:induction false} RestApplies(
    root: Dom, path: seq<nat>, olds: seq<LNode>, news: seq<LNode>, i: nat, j: nat,
    kids: seq<Dom>, done: seq<Dom>, index: Index)
    returns (final: seq<Dom>)
    requires NodeAt(root, path).Some? && HasKids(NodeAt(root, path).value)
    requires i <= |olds| && j <= |news| && ShowsAll(kids, olds) && ShowsAll(done, news[j..])
    requires AllUniqueAttrs(news) && DynamicKeys(index)
    ensures var ps := Walk(path, olds, news, i, j, index);
            var result := ApplyAll(Put(root, path, WithKids(NodeAt(root, path).value, kids[..i] + done)), ps);
            && (PathFree(ps) && ComparableLists(olds, news) ==> result.Some?)
            && TurnedKids(result, root, path, final, news)
            && Walked(result, kids, final, done, olds, news, i, j)
    decreases olds, i + j, 1
  {
    var d := NodeAt(root, path).value;
    var now := WithKids(d, kids[..i] + done);
    PutThenGet(root, path, now);
    final := WalkApplies(Put(root, path, now), path, olds, news, i, j, kids, done, index);
    PutTwice(root, path, now, WithKids(d, final));
  }

  /** The result of a move that finishes one more child, if there is one. */
  ghost predicate Grown(
    result: Option<Dom>, root: Dom, path: seq<nat>, newTree: LNode, i: nat, kids: seq<Dom>, x: Dom, done: seq<Dom>)
    requires NodeAt(root, path).Some? && HasKids(NodeAt(root, path).value) && i <= |kids|
  {
    result.Some? ==>
      && Shows(x, newTree)
      && result.value == Put(root, path, WithKids(NodeAt(root, path).value, kids[..i] + ([x] + done)))
  }

  lemma {:induction false} SubstApplies(
    root: Dom, path: seq<nat>, olds: seq<LNode>, news: seq<LNode>, i: nat, j: nat,
    kids: seq<Dom>, done: seq<Dom>, index: Index)
    returns (x: Dom)
    requires Midway(root, path, olds, news, i, j, kids, done) && 0 < i && 0 < j && DynamicKeys(index)
    ensures var ps := DiffAt(olds[i - 1], news[j - 1], path + [i - 1], index);
            && (PathFree(ps) && ComparableLists(olds, news) ==> ApplyAll(root, ps).Some?)
            && Grown(ApplyAll(root, ps), root, path, news[j - 1], i - 1, kids, x, done)
            && (ApplyAll(root, ps).Some? ==> Inherits(kids[i - 1], x, olds[i - 1], news[j - 1]))
    decreases olds, 0, 0
  {
    var d := NodeAt(root, path).value;
    PathExtends(root, path, i - 1, d);
    x := DiffAtApplies(root, olds[i - 1], news[j - 1], path + [i - 1], index);
    PathExtends(root, path, i - 1, x);
    assert d.kids[i - 1 := x] == kids[..i - 1] + ([x] + done);
  }

  lemma DeleteApplies(root: Dom, path: seq<nat>, i: nat, kids: seq<Dom>, done: seq<Dom>, emitted: seq<Patch>)
    requires 0 < i <= |kids| && emitted == [Patch(path, RemoveChild(i - 1))]
    requires NodeAt(root, path).Some? && HasKids(NodeAt(root, path).value)
    requires NodeAt(root, path).value.kids == kids[..i] + done
    ensures ApplyAll(root, emitted) == Some(Put(root, path, WithKids(NodeAt(root, path).value, kids[..i - 1] + done)))
  {
    var d := NodeAt(root, path).value;
    OnePatch(root, emitted[0]);
    assert d.kids[..i - 1] + d.kids[i..] == kids[..i - 1] + done;
  }

  lemma AddApplies(
    root: Dom, path: seq<nat>, news: seq<LNode>, i: nat, j: nat, kids: seq<Dom>, done: seq<Dom>, index: Index)
    returns (x: Dom)
    requires i <= |kids| && 0 < j <= |news| && AllUniqueAttrs(news) && DynamicKeys(index)
    requires NodeAt(root, path).Some? && HasKids(NodeAt(root, path).value)
    requires NodeAt(root, path).value.kids == kids[..i] + done
    ensures var ps := [Patch(path, InsertChild(i, ToReplacement(news[j - 1], index)))];
            && (PathFree(ps) ==> ApplyAll(root, ps).Some?)
            && Grown(ApplyAll(root, ps), root, path, news[j - 1], i, kids, x, done)
  {
    var d := NodeAt(root, path).value;
    var first := Patch(path, InsertChild(i, ToReplacement(news[j - 1], index)));
    assert PathFree([first]) ==> PlainAction([first][0].action);
    ReplacementBuilds(root, news[j - 1], index);
    OnePatch(root, first);
    var built := Build(root, ToReplacement(news[j - 1], index));
    x := if built.Some? then built.value else root;
    assert d.kids[..i] + [x] + d.kids[i..] == kids[..i] + ([x] + done);
  }

  // ---------- Main results ----------

  /**
   Dynamic parts included: from every live tree of the old template the script, if it applies, leaves one of
   the new. It applies if it moves no old node and no component with children is compared.
   */
  lemma DiffShowsNew(live: Dom, oldTree: LNode, newTree: LNode)
    requires Shows(live, oldTree) && UniqueAttrs(newTree)
    ensures var result := ApplyAll(live, Diff(oldTree, newTree));
            result.Some? ==> Shows(result.value, newTree) && Inherits(live, result.value, oldTree, newTree)
    ensures PathFree(Diff(oldTree, newTree)) && Comparable(oldTree, newTree) ==>
              ApplyAll(live, Diff(oldTree, newTree)).Some?
  {
    var empty: Index := map[];
    IndexKeysDynamic(oldTree, [], empty);
    var d := DiffAtApplies(live, oldTree, newTree, [], AddOldChildren(oldTree, [], empty));
    assert Put(live, [], d) == d;
  }

  lemma {:induction false} StaticIsUnique(n: LNode)
    requires IsStatic(n)
    ensures UniqueAttrs(n)
  {
    match n
    case Text(_) =>
    case Fragment(kids) =>
      forall k | 0 <= k < |kids| ensures UniqueAttrs(kids[k]) {
        StaticIsUnique(kids[k]);
      }
    case Element(_, attrs, kids) =>
      StaticNamesUnique(attrs);
      forall k | 0 <= k < |kids| ensures UniqueAttrs(kids[k]) {
        StaticIsUnique(kids[k]);
      }
  }

  lemma {:induction false} StaticNamesUnique(attrs: Attrs)
    requires StaticAttrs(attrs)
    ensures UniqueNames(attrs)
  {
    if attrs != [] {
      StaticNamesUnique(attrs[1..]);
    }
  }

  /** Whatever the old template, every live tree of it becomes exactly the tree of a static new one. */
  lemma DiffIsCorrect(live: Dom, oldTree: LNode, newTree: LNode)
    requires Shows(live, oldTree) && IsStatic(newTree)
    ensures ApplyAll(live, Diff(oldTree, newTree)) == Some(Render(newTree))
  {
    StaticIsUnique(newTree);
    StaticPathFree(oldTree, newTree);
    DiffShowsNew(live, oldTree, newTree);
    StaticShownExactly(ApplyAll(live, Diff(oldTree, newTree)).value, newTree);
  }
}
