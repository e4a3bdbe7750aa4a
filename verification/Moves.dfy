/**
 Small templates whose dynamic parts move: scripts that do not apply because a path is looked
 up too late, a swap for which nothing is emitted, and a copy that is right.
 */
module Moves {
  import opened Basics
  import opened EditDistance
  import opened Template
  import opened Patching
  import opened TreeDiff
  import opened OldIndex
  import opened DiffCorrect
  import opened Slots

  const X := DynChild("x")
  const Y := DynChild("y")
  const A := Text("a")
  const B := Text("b")

  function Div(kids: seq<LNode>): LNode {
    Element("div", [], kids)
  }

  lemma DivScript(olds: seq<LNode>, news: seq<LNode>, path: seq<nat>, index: Index)
    ensures DiffAt(Div(olds), Div(news), path, index) == DiffChildren(path, olds, news, index)
  {
    assert DiffAttrs(path, [], []) == [];
  }

  /** Applying a script to a node with children, patch by patch. */
  lemma FirstApplies(live: Dom, first: Patch, rest: seq<Patch>)
    ensures ApplyAll(live, [first] + rest)
         == (match ApplyPatch(live, first) case None => None case Some(d) => ApplyAll(d, rest))
  {
    assert ([first] + rest)[1..] == rest;
  }

  // ---------- A path that is gone ----------

  /** A block moves out of the one child of an element, and a text takes that child's place. */
  const Nested := Div([Div([X])])
  const Lifted := Div([X, A])

  lemma LiftedIndex()
    ensures AddOldChildren(Nested, [], map[]) == map[X := [0, 0]]
  {
    var empty: Index := map[];
    assert [] + [0] == [0] && [0] + [0] == [0, 0];
    assert AddOldList([X], [0], 0, empty) == empty;
    assert AddOldList([X], [0], 1, empty) == map[X := [0, 0]];
    assert AddOldList([Div([X])], [], 0, empty) == empty;
    assert AddOldChildren(Div([X]), [0], empty) == map[X := [0, 0]];
    assert AddOldList([Div([X])], [], 1, empty) == map[X := [0, 0]];
  }

  lemma LiftedWalk(index: Index)
    requires index == map[X := [0, 0]]
    ensures DiffChildren([], [Div([X])], [X, A], index)
         == [Patch([0], ReplaceWith(Html(A)))] + [Patch([], InsertChild(0, Path([0, 0])))]
  {
    var (olds, news) := ([Div([X])], [X, A]);
    assert Cost(olds, news, 1, 1) == 1 && Cost(olds, news, 1, 2) == 2;
    var move, i, j := OneMove([], olds, news, 1, 2, index);
    assert move == Subst && [] + [0] == [0];
    var move', i', j' := OneMove([], olds, news, 0, 1, index);
    assert move' == Add;
    assert Walk([], olds, news, 0, 0, index) == [];
  }

  /** A path of the old tree may be gone by the time its patch is applied: this script applies to no live tree. */
  lemma MovedNodeMayBeGone(live: Dom)
    requires Shows(live, Nested)
    ensures ApplyAll(live, Diff(Nested, Lifted)) == None
  {
    LiftedIndex();
    LiftedWalk(map[X := [0, 0]]);
    DivScript([Div([X])], [X, A], [], map[X := [0, 0]]);
    ParentReplaced(live);
  }

  lemma ParentReplaced(live: Dom)
    requires Shows(live, Nested)
    ensures ApplyAll(live, [Patch([0], ReplaceWith(Html(A)))] + [Patch([], InsertChild(0, Path([0, 0])))]) == None
  {
    var live' := live.(kids := [Chars("a")]);
    assert NodeAt(live, []) == Some(live) && [] + [0] == [0];
    PathExtends(live, [], 0, Chars("a"));
    assert live.kids[0 := Chars("a")] == [Chars("a")];
    assert [0, 0][1..] == [0] && NodeAt(live', [0, 0]) == None;
    FirstApplies(live, Patch([0], ReplaceWith(Html(A))), [Patch([], InsertChild(0, Path([0, 0])))]);
    OnePatch(live', Patch([], InsertChild(0, Path([0, 0]))));
  }

  // ---------- Copying a block into an element ----------

  /** The script that adds a known block to an element with one text. */
  lemma AddedBlock(path: seq<nat>, index: Index)
    requires X in index && A !in index
    ensures DiffAt(Div([A]), Div([A, X]), path, index) == [Patch(path, InsertChild(1, Path(index[X])))]
  {
    var (olds, news) := ([A], [A, X]);
    DivScript(olds, news, path, index);
    assert Cost(olds, news, 1, 1) == 0 && Cost(olds, news, 1, 2) == 1;
    var move, i, j := OneMove(path, olds, news, 1, 2, index);
    assert move == Add;
    var move', i', j' := OneMove(path, olds, news, 1, 1, index);
    assert move' == Match && Walk(path, olds, news, 0, 0, index) == [];
  }

  // ---------- A path that leads elsewhere ----------

  /** A text is added before a block, and the block is also copied into an element further left. */
  const Aside := Div([Div([A]), A, X])
  const Shifted := Div([Div([A, X]), A, B, X])

  lemma AsideIndex()
    ensures AddOldChildren(Aside, [], map[]) == map[X := [2]]
  {
    var kids, empty: Index := Aside.children, map[];
    assert [] + [0] == [0] && [] + [1] == [1] && [] + [2] == [2];
    assert AddOldList([A], [0], 0, empty) == empty && AddOldList([A], [0], 1, empty) == empty;
    assert AddOldList(kids, [], 0, empty) == empty && AddOldList(kids, [], 1, empty) == empty;
    assert AddOldList(kids, [], 2, empty) == empty && AddOldList(kids, [], 3, empty) == map[X := [2]];
  }

  lemma ShiftedCosts()
    ensures var (olds, news) := (Aside.children, Shifted.children);
            && NextMove(olds, news, 3, 4) == Match && NextMove(olds, news, 2, 3) == Add
            && NextMove(olds, news, 2, 2) == Match && NextMove(olds, news, 1, 1) == Subst
  {
    var (olds, news) := (Aside.children, Shifted.children);
    assert Cost(olds, news, 1, 1) == 1 && Cost(olds, news, 2, 2) == 1;
    assert Cost(olds, news, 1, 2) == 2 && Cost(olds, news, 1, 3) == 3;
    assert Cost(olds, news, 2, 3) == 2;
  }

  lemma ShiftedWalk(index: Index)
    requires index == map[X := [2]]
    ensures DiffChildren([], Aside.children, Shifted.children, index)
         == [Patch([], InsertChild(2, Html(B)))] + [Patch([0], InsertChild(1, Path([2])))]
  {
    var (olds, news) := (Aside.children, Shifted.children);
    ShiftedCosts();
    AddedBlock([0], index);
    assert [] + [0] == [0];
    var m1, i1, j1 := OneMove([], olds, news, 3, 4, index);
    var m2, i2, j2 := OneMove([], olds, news, 2, 3, index);
    var m3, i3, j3 := OneMove([], olds, news, 2, 2, index);
    var m4, i4, j4 := OneMove([], olds, news, 1, 1, index);
    assert Walk([], olds, news, 0, 0, index) == [];
  }

  /** A path may lead to another node by then, here to the new text: this script applies to no live tree. */
  lemma MovedNodeMayBeAnother(live: Dom)
    requires Shows(live, Aside)
    ensures var (first, second) := (Patch([], InsertChild(2, Html(B))), Patch([0], InsertChild(1, Path([2]))));
            && Diff(Aside, Shifted) == [first] + [second] && NodeAt(live, [2]) == Some(live.kids[2])
            && ApplyPatch(live, first).Some? && NodeAt(ApplyPatch(live, first).value, [2]) == Some(Chars("b"))
            && ApplyAll(live, Diff(Aside, Shifted)) == None
  {
    AsideIndex();
    ShiftedWalk(map[X := [2]]);
    DivScript(Aside.children, Shifted.children, [], map[X := [2]]);
    PathShifted(live);
  }

  lemma PathShifted(live: Dom)
    requires live.Tag? && |live.kids| == 3
    ensures var (first, second) := (Patch([], InsertChild(2, Html(B))), Patch([0], InsertChild(1, Path([2]))));
            && NodeAt(live, [2]) == Some(live.kids[2])
            && ApplyPatch(live, first).Some? && NodeAt(ApplyPatch(live, first).value, [2]) == Some(Chars("b"))
            && ApplyAll(live, [first] + [second]) == None
  {
    var (first, second) := (Patch([], InsertChild(2, Html(B))), Patch([0], InsertChild(1, Path([2]))));
    var live' := live.(kids := live.kids[..2] + [Chars("b")] + live.kids[2..]);
    assert ApplyPatch(live, first) == Some(live');
    assert NodeAt(live, []) == Some(live) && NodeAt(live', []) == Some(live') && [] + [2] == [2];
    PathExtends(live, [], 2, live);
    PathExtends(live', [], 2, live);
    FirstApplies(live, first, [second]);
    OnePatch(live', second);
  }

  // ---------- A copy that is right ----------

  const Beside := Div([X, Div([A])])
  const Copied := Div([X, Div([A, X])])

  lemma BesideIndex()
    ensures AddOldChildren(Beside, [], map[]) == map[X := [0]]
  {
    var kids, empty: Index, index: Index := Beside.children, map[], map[X := [0]];
    assert [] + [0] == [0] && [] + [1] == [1];
    assert AddOldList([A], [1], 0, index) == index && AddOldList([A], [1], 1, index) == index;
    assert AddOldList(kids, [], 0, empty) == empty && AddOldList(kids, [], 1, empty) == index;
    assert AddOldChildren(Div([A]), [1], index) == index;
    assert AddOldList(kids, [], 2, empty) == index;
  }

  lemma CopiedWalk(index: Index)
    requires index == map[X := [0]]
    ensures DiffChildren([], Beside.children, Copied.children, index) == [Patch([1], InsertChild(1, Path([0])))]
  {
    var (olds, news) := (Beside.children, Copied.children);
    AddedBlock([1], index);
    assert Cost(olds, news, 1, 1) == 0 && Cost(olds, news, 2, 2) == 1 && [] + [1] == [1];
    var move, i, j := OneMove([], olds, news, 2, 2, index);
    assert move == Subst;
    var move', i', j' := OneMove([], olds, news, 1, 1, index);
    assert move' == Match && Walk([], olds, news, 0, 0, index) == [];
  }

  /** A script with a path that applies to every live tree, and copies the block's content. */
  lemma CopyIsKept(live: Dom)
    requires Shows(live, Beside)
    ensures !PathFree(Diff(Beside, Copied)) && Preserves(live, Beside, Copied)
  {
    BesideIndex();
    CopiedWalk(map[X := [0]]);
    DivScript(Beside.children, Copied.children, [], map[X := [0]]);
    var ps := [Patch([1], InsertChild(1, Path([0])))];
    assert Diff(Beside, Copied) == ps && !PlainAction(ps[0].action);
    BesideShape(live);
    BlockCopied(live);
    ContentKept(live);
  }

  predicate TwoKids(live: Dom) {
    live.Tag? && |live.kids| == 2 && IsContent(live.kids[0]) && live.kids[1].Tag? && |live.kids[1].kids| == 1
  }

  lemma BesideShape(live: Dom)
    requires Shows(live, Beside)
    ensures TwoKids(live)
  {
    assert Shows(live.kids[0], Beside.children[0]) && Shows(live.kids[1], Beside.children[1]);
  }

  function WithCopy(live: Dom): Dom
    requires TwoKids(live)
  {
    live.(kids := [live.kids[0], live.kids[1].(kids := live.kids[1].kids + [live.kids[0]])])
  }

  lemma BlockCopied(live: Dom)
    requires TwoKids(live)
    ensures ApplyAll(live, [Patch([1], InsertChild(1, Path([0])))]) == Some(WithCopy(live))
  {
    var (patch, x, p) := (Patch([1], InsertChild(1, Path([0]))), live.kids[0], live.kids[1]);
    assert NodeAt(live, []) == Some(live) && [] + [0] == [0] && [] + [1] == [1];
    PathExtends(live, [], 0, x);
    var p' := p.(kids := p.kids + [x]);
    PathExtends(live, [], 1, p');
    assert |p.kids| == 1 && p.kids[..1] + [x] + p.kids[1..] == p.kids + [x];
    assert live.kids[1 := p'] == [x, p'];
    OnePatch(live, patch);
  }

  lemma ContentKept(live: Dom)
    requires TwoKids(live)
    ensures Keeps(WithCopy(live), Copied, map[X := [0]], (n, d) => Holds(live, Beside, n, d))
  {
    var held: Held := (n, d) => Holds(live, Beside, n, d);
    var (index, d) := (map[X := [0]], WithCopy(live));
    assert Holds(live.kids[0], X, X, live.kids[0]);
    assert Holds(live, Beside, X, live.kids[0]);
    assert Keeps(d.kids[0], X, index, held);
    assert Keeps(d.kids[1].kids[0], A, index, held) && Keeps(d.kids[1].kids[1], X, index, held);
    assert Keeps(d.kids[1], Div([A, X]), index, held);
  }

  // ---------- A swap for which nothing is emitted ----------

  lemma SwapScript(p: LNode, q: LNode, index: Index)
    requires p != q
    ensures DiffChildren([], [p, q], [q, p], index) == DiffAt(q, p, [1], index) + DiffAt(p, q, [0], index)
  {
    var (olds, news) := ([p, q], [q, p]);
    assert Cost(olds, news, 1, 1) == 1 && Cost(olds, news, 2, 2) == 2;
    var move, i, j := OneMove([], olds, news, 2, 2, index);
    assert move == Subst && [] + [1] == [1];
    var move', i', j' := OneMove([], olds, news, 1, 1, index);
    assert move' == Subst && [] + [0] == [0];
    assert Walk([], olds, news, 0, 0, index) == [];
  }

  /** No patch is emitted for two blocks that change places, so each shows the content of the other. */
  lemma SwappedBlocksStay(live: Dom)
    requires Shows(live, Div([X, Y]))
    ensures Diff(Div([X, Y]), Div([Y, X])) == []
    ensures Preserves(live, Div([X, Y]), Div([Y, X])) <==> live.kids[0] == live.kids[1]
  {
    var (oldTree, newTree) := (Div([X, Y]), Div([Y, X]));
    var index := AddOldChildren(oldTree, [], map[]);
    IndexExact(oldTree, X);
    IndexExact(oldTree, Y);
    DivScript([X, Y], [Y, X], [], index);
    SwapScript(X, Y, index);
    BothKnown();
    BothHeld(live);
    var held: Held := (n, d) => Holds(live, oldTree, n, d);
    KeptBoth(live, index, held);
    assert ApplyAll(live, []) == Some(live);
  }

  lemma KeptBoth(live: Dom, index: Index, held: Held)
    requires live.Tag? && |live.kids| == 2 && X in index && Y in index
    ensures Keeps(live, Div([Y, X]), index, held) <==> held(Y, live.kids[0]) && held(X, live.kids[1])
  {
    var kids := Div([Y, X]).children;
    assert Keeps(live.kids[0], kids[0], index, held) <==> held(Y, live.kids[0]);
    assert Keeps(live.kids[1], kids[1], index, held) <==> held(X, live.kids[1]);
  }

  lemma BothKnown()
    ensures var index := AddOldChildren(Div([X, Y]), [], map[]); X in index && Y in index
  {
    var n, empty: Index := Div([X, Y]), map[];
    assert TemplateAt(X, []) == Some(X) && TemplateAt(Y, []) == Some(Y) && [0][1..] == [] && [1][1..] == [];
    assert TemplateAt(n, [0]) == Some(X) && TemplateAt(n, [1]) == Some(Y);
    IndexComplete(n, [], empty, [0]);
    IndexComplete(n, [], empty, [1]);
  }

  lemma BothHeld(live: Dom)
    requires Shows(live, Div([X, Y]))
    ensures var held: Held := (n, d) => Holds(live, Div([X, Y]), n, d);
            && (forall d :: held(X, d) <==> d == live.kids[0])
            && (forall d :: held(Y, d) <==> d == live.kids[1])
  {
    var n := Div([X, Y]);
    forall d
      ensures Holds(live, n, X, d) <==> d == live.kids[0]
      ensures Holds(live, n, Y, d) <==> d == live.kids[1]
    {
      assert Holds(live.kids[0], n.children[0], X, d) <==> d == live.kids[0];
      assert Holds(live.kids[1], n.children[1], Y, d) <==> d == live.kids[1];
      assert !Holds(live.kids[1], n.children[1], X, d) && !Holds(live.kids[0], n.children[0], Y, d);
    }
  }
}
