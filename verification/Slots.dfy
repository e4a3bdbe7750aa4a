/**
 Exactly when a script may be sent: running it on the old template with a slot for every
 dynamic part decides whether it applies to every document, and whether the dynamic parts
 keep their content.
 */
module Slots {
  import opened Basics
  import opened EditDistance
  import opened Template
  import opened Patching
  import opened TreeDiff
  import opened OldIndex
  import opened DiffCorrect

  /** The rendered template with a slot for the content of every dynamic part. */
  function Symbolic(n: LNode): Dom {
    match n
    case Fragment(kids) => Group(SymbolicAll(kids))
    case Text(t) => Chars(t)
    case Element(name, attrs, kids) => Tag(name, RenderAttrs(attrs), SymbolicAll(kids))
    case _ => Slot(n)
  }

  function SymbolicAll(ns: seq<LNode>): (ds: seq<Dom>)
    ensures |ds| == |ns|
    ensures forall k | 0 <= k < |ns| :: ds[k] == Symbolic(ns[k])
  {
    seq(|ns|, k requires 0 <= k < |ns| => Symbolic(ns[k]))
  }

  lemma {:induction false} SymbolicShows(n: LNode)
    ensures Shows(Symbolic(n), n)
  {
    match n
    case Fragment(kids) =>
      forall k | 0 <= k < |kids| ensures Shows(SymbolicAll(kids)[k], kids[k]) {
        SymbolicShows(kids[k]);
      }
    case Element(_, attrs, kids) =>
      RenderAttrsShow(attrs);
      forall k | 0 <= k < |kids| ensures Shows(SymbolicAll(kids)[k], kids[k]) {
        SymbolicShows(kids[k]);
      }
    case _ =>
  }

  // ---------- Trees that differ in their content ----------

  /** Which content may stand in for a slot or placeholder. */
  type Allow = (Dom, Dom) -> bool

  ghost predicate KeepsPlaceholders(allow: Allow) {
    forall what: string :: allow(Placeholder(what), Placeholder(what))
  }

  /** `d` is `s` with allowed content for its slots and placeholders; names, texts and attributes may differ. */
  ghost predicate Fills(d: Dom, s: Dom, allow: Allow)
    decreases s
  {
    match s
    case Slot(_) => IsContent(d) && allow(s, d)
    case Placeholder(_) => IsContent(d) && allow(s, d)
    case Block(_) => false
    case Chars(_) => d.Chars?
    case Group(kids) => d.Group? && |d.kids| == |kids| && forall k | 0 <= k < |kids| :: Fills(d.kids[k], kids[k], allow)
    case Tag(_, _, kids) =>
      d.Tag? && |d.kids| == |kids| && forall k | 0 <= k < |kids| :: Fills(d.kids[k], kids[k], allow)
  }

  ghost predicate FillsAll(ds: seq<Dom>, ss: seq<Dom>, allow: Allow) {
    |ds| == |ss| && forall k | 0 <= k < |ss| :: Fills(ds[k], ss[k], allow)
  }

  lemma {:induction false} NodeFills(d: Dom, s: Dom, path: seq<nat>, allow: Allow)
    requires Fills(d, s, allow) && NodeAt(s, path).Some?
    ensures NodeAt(d, path).Some? && Fills(NodeAt(d, path).value, NodeAt(s, path).value, allow)
    decreases |path|
  {
    if path != [] {
      NodeFills(d.kids[path[0]], s.kids[path[0]], path[1..], allow);
    }
  }

  lemma {:induction false} PutFills(d: Dom, s: Dom, path: seq<nat>, x: Dom, y: Dom, allow: Allow)
    requires Fills(d, s, allow) && Fills(x, y, allow) && NodeAt(s, path).Some? && NodeAt(d, path).Some?
    ensures Fills(Put(d, path, x), Put(s, path, y), allow)
    decreases |path|
  {
    if path != [] {
      PutFills(d.kids[path[0]], s.kids[path[0]], path[1..], x, y, allow);
    }
  }

  lemma {:induction false} RenderFills(n: LNode, allow: Allow)
    requires KeepsPlaceholders(allow)
    ensures Fills(Render(n), Render(n), allow)
  {
    if n.Fragment? || n.Element? {
      forall k | 0 <= k < |n.children| ensures Fills(RenderAll(n.children)[k], RenderAll(n.children)[k], allow) {
        RenderFills(n.children[k], allow);
      }
    }
  }

  lemma {:induction false} BuildFills(d: Dom, s: Dom, r: Replacement, allow: Allow)
    requires Fills(d, s, allow) && KeepsPlaceholders(allow) && Build(s, r).Some?
    ensures Build(d, r).Some? && Fills(Build(d, r).value, Build(s, r).value, allow)
    decreases r
  {
    match r
    case Html(n) => RenderFills(n, allow);
    case Path(p) => NodeFills(d, s, p, allow);
    case RFragment(rs) => BuildAllFills(d, s, rs, allow);
    case RElement(_, _, rs) => BuildAllFills(d, s, rs, allow);
  }

  lemma {:induction false} BuildAllFills(d: Dom, s: Dom, rs: seq<Replacement>, allow: Allow)
    requires Fills(d, s, allow) && KeepsPlaceholders(allow) && BuildAll(s, rs).Some?
    ensures BuildAll(d, rs).Some? && FillsAll(BuildAll(d, rs).value, BuildAll(s, rs).value, allow)
    decreases rs
  {
    if rs != [] {
      BuildFills(d, s, rs[0], allow);
      BuildAllFills(d, s, rs[1..], allow);
    }
  }

  /** A node with children is filled child by child, and the children may be exchanged. */
  lemma KidsFill(x: Dom, y: Dom, xs: seq<Dom>, ys: seq<Dom>, allow: Allow)
    requires Fills(x, y, allow) && HasKids(y)
    ensures HasKids(x) && FillsAll(x.kids, y.kids, allow)
    ensures FillsAll(xs, ys, allow) ==> Fills(WithKids(x, xs), WithKids(y, ys), allow)
  {}

  lemma FillsConcat(a: seq<Dom>, b: seq<Dom>, a': seq<Dom>, b': seq<Dom>, allow: Allow)
    requires FillsAll(a, b, allow) && FillsAll(a', b', allow)
    ensures FillsAll(a + a', b + b', allow)
  {}

  lemma FillsParts(a: seq<Dom>, b: seq<Dom>, k: nat, allow: Allow)
    requires FillsAll(a, b, allow) && k <= |b|
    ensures FillsAll(a[..k], b[..k], allow) && FillsAll(a[k..], b[k..], allow)
  {}

  /** What an action that changes the list of children leaves of it. */
  lemma ListActionFills(d: Dom, s: Dom, x: Dom, y: Dom, action: Action, allow: Allow)
    returns (xs: seq<Dom>, ys: seq<Dom>)
    requires Fills(d, s, allow) && Fills(x, y, allow) && KeepsPlaceholders(allow) && Act(s, y, action).Some?
    requires action.AppendChildren? || action.InsertChild? || action.RemoveChild?
    ensures HasKids(x) && HasKids(y) && FillsAll(xs, ys, allow)
    ensures Act(s, y, action) == Some(WithKids(y, ys)) && Act(d, x, action) == Some(WithKids(x, xs))
  {
    KidsFill(x, y, [], [], allow);
    match action
    case AppendChildren(rs) =>
      BuildAllFills(d, s, rs, allow);
      xs, ys := x.kids + BuildAll(d, rs).value, y.kids + BuildAll(s, rs).value;
      FillsConcat(x.kids, y.kids, BuildAll(d, rs).value, BuildAll(s, rs).value, allow);
    case InsertChild(before, r) =>
      BuildFills(d, s, r, allow);
      FillsParts(x.kids, y.kids, before, allow);
      var (a, b) := (x.kids[..before] + [Build(d, r).value], y.kids[..before] + [Build(s, r).value]);
      FillsConcat(x.kids[..before], y.kids[..before], [Build(d, r).value], [Build(s, r).value], allow);
      xs, ys := a + x.kids[before..], b + y.kids[before..];
      FillsConcat(a, b, x.kids[before..], y.kids[before..], allow);
    case RemoveChild(at) =>
      FillsParts(x.kids, y.kids, at, allow);
      FillsParts(x.kids, y.kids, at + 1, allow);
      xs, ys := x.kids[..at] + x.kids[at + 1..], y.kids[..at] + y.kids[at + 1..];
      FillsConcat(x.kids[..at], y.kids[..at], x.kids[at + 1..], y.kids[at + 1..], allow);
  }

  lemma ActFills(d: Dom, s: Dom, x: Dom, y: Dom, action: Action, allow: Allow)
    requires Fills(d, s, allow) && Fills(x, y, allow) && KeepsPlaceholders(allow) && Act(s, y, action).Some?
    ensures Act(d, x, action).Some? && Fills(Act(d, x, action).value, Act(s, y, action).value, allow)
  {
    if action.AppendChildren? || action.InsertChild? || action.RemoveChild? {
      var xs, ys := ListActionFills(d, s, x, y, action, allow);
      KidsFill(x, y, xs, ys, allow);
    } else if action.ReplaceWith? {
      BuildFills(d, s, action.node, allow);
    } else if action.ClearChildren? {
      KidsFill(x, y, [], [], allow);
    }
  }

  /** A script that applies to the tree with slots applies to every filling, and does the same to it. */
  lemma {:induction false} ScriptFills(d: Dom, s: Dom, ps: seq<Patch>, allow: Allow)
    requires Fills(d, s, allow) && KeepsPlaceholders(allow) && ApplyAll(s, ps).Some?
    ensures ApplyAll(d, ps).Some? && Fills(ApplyAll(d, ps).value, ApplyAll(s, ps).value, allow)
    decreases |ps|
  {
    if ps != [] {
      var (path, action) := (ps[0].path, ps[0].action);
      NodeFills(d, s, path, allow);
      var (x, y) := (NodeAt(d, path).value, NodeAt(s, path).value);
      ActFills(d, s, x, y, action, allow);
      PutFills(d, s, path, Act(d, x, action).value, Act(s, y, action).value, allow);
      ScriptFills(ApplyPatch(d, ps[0]).value, ApplyPatch(s, ps[0]).value, ps[1..], allow);
    }
  }

  // ---------- Documents ----------

  /** A tree without slots, such as a browser can show. */
  predicate Document(d: Dom) {
    match d
    case Slot(_) => false
    case Group(kids) => forall k | 0 <= k < |kids| :: Document(kids[k])
    case Tag(_, _, kids) => forall k | 0 <= k < |kids| :: Document(kids[k])
    case Block(kids) => forall k | 0 <= k < |kids| :: Document(kids[k])
    case _ => true
  }

  /** The document of a template whose dynamic parts have no content, except that those equal to `n` are marked. */
  function Marked(root: LNode, n: LNode): Dom {
    match root
    case Fragment(kids) => Group(MarkedAll(kids, n))
    case Text(t) => Chars(t)
    case Element(name, attrs, kids) => Tag(name, RenderAttrs(attrs), MarkedAll(kids, n))
    case _ => if root == n then Block([]) else Placeholder("")
  }

  function MarkedAll(ns: seq<LNode>, n: LNode): (ds: seq<Dom>)
    ensures |ds| == |ns|
    ensures forall k | 0 <= k < |ns| :: ds[k] == Marked(ns[k], n)
  {
    seq(|ns|, k requires 0 <= k < |ns| => Marked(ns[k], n))
  }

  lemma {:induction false} MarkedShows(root: LNode, n: LNode)
    ensures Shows(Marked(root, n), root) && Document(Marked(root, n))
    decreases root
  {
    if root.Fragment? || root.Element? {
      if root.Element? {
        RenderAttrsShow(root.attrs);
      }
      forall k | 0 <= k < |root.children|
        ensures Shows(Marked(root.children[k], n), root.children[k]) && Document(Marked(root.children[k], n))
      {
        MarkedShows(root.children[k], n);
      }
    }
  }

  // ---------- What a live tree holds ----------

  /** `d` is what `live`, a tree of `root`, shows for some dynamic part equal to `n`. */
  predicate Holds(live: Dom, root: LNode, n: LNode, d: Dom) {
    match root
    case Text(_) => false
    case Fragment(kids) =>
      live.Group? && |live.kids| == |kids| && exists k | 0 <= k < |kids| :: Holds(live.kids[k], kids[k], n, d)
    case Element(_, _, kids) =>
      live.Tag? && |live.kids| == |kids| && exists k | 0 <= k < |kids| :: Holds(live.kids[k], kids[k], n, d)
    case _ => root == n && live == d
  }

  /** Every live tree is the symbolic one with its slots filled by what it holds. */
  lemma {:induction false} LiveFills(live: Dom, n: LNode, allow: Allow)
    requires Shows(live, n) && forall m, d :: Holds(live, n, m, d) ==> allow(Slot(m), d)
    ensures Fills(live, Symbolic(n), allow)
    decreases n
  {
    match n
    case Text(_) =>
    case Fragment(kids) => LiveKidsFill(live, n, allow);
    case Element(_, _, kids) => LiveKidsFill(live, n, allow);
    case _ => assert Holds(live, n, n, live);
  }

  lemma {:induction false} LiveKidsFill(live: Dom, n: LNode, allow: Allow)
    requires (n.Fragment? || n.Element?) && Shows(live, n)
    requires forall m, d :: Holds(live, n, m, d) ==> allow(Slot(m), d)
    ensures FillsAll(live.kids, SymbolicAll(n.children), allow)
    decreases n, 0
  {
    forall k | 0 <= k < |n.children| ensures Fills(live.kids[k], Symbolic(n.children[k]), allow) {
      forall m, d | Holds(live.kids[k], n.children[k], m, d) ensures allow(Slot(m), d) {
        assert Holds(live, n, m, d);
      }
      LiveFills(live.kids[k], n.children[k], allow);
    }
  }

  lemma {:induction false} SymbolicHolds(root: LNode, n: LNode, d: Dom)
    requires Holds(Symbolic(root), root, n, d)
    ensures d == Slot(n)
    decreases root
  {
    if root.Fragment? || root.Element? {
      var k :| 0 <= k < |root.children| && Holds(Symbolic(root.children[k]), root.children[k], n, d);
      SymbolicHolds(root.children[k], n, d);
    }
  }

  lemma {:induction false} MarkedHolds(root: LNode, n: LNode, m: LNode, d: Dom)
    requires Holds(Marked(root, n), root, m, d)
    ensures d == if m == n then Block([]) else Placeholder("")
    decreases root
  {
    if root.Fragment? || root.Element? {
      var k :| 0 <= k < |root.children| && Holds(Marked(root.children[k], n), root.children[k], m, d);
      MarkedHolds(root.children[k], n, m, d);
    }
  }

  /** A part that some tree of the template holds has its slot in the symbolic one. */
  lemma {:induction false} HeldHasSlot(live: Dom, root: LNode, n: LNode, d: Dom)
    requires Holds(live, root, n, d)
    ensures Holds(Symbolic(root), root, n, Slot(n))
    decreases root
  {
    if root.Fragment? || root.Element? {
      var k :| 0 <= k < |root.children| && Holds(live.kids[k], root.children[k], n, d);
      HeldHasSlot(live.kids[k], root.children[k], n, d);
    }
  }

  // ---------- When a script applies ----------

  predicate Applies(oldTree: LNode, newTree: LNode) {
    ApplyAll(Symbolic(oldTree), Diff(oldTree, newTree)).Some?
  }

  lemma {:induction false} SymbolicFillsMarked(root: LNode, n: LNode, allow: Allow)
    requires n.Text? && forall s, d :: allow(s, d)
    ensures Fills(Symbolic(root), Marked(root, n), allow)
    decreases root
  {
    if root.Fragment? || root.Element? {
      forall k | 0 <= k < |root.children|
        ensures Fills(Symbolic(root.children[k]), Marked(root.children[k], n), allow)
      {
        SymbolicFillsMarked(root.children[k], n, allow);
      }
    }
  }

  lemma AppliesTo(live: Dom, oldTree: LNode, newTree: LNode)
    requires Applies(oldTree, newTree) && Shows(live, oldTree)
    ensures ApplyAll(live, Diff(oldTree, newTree)).Some?
  {
    var anything: Allow := (s, d) => true;
    LiveFills(live, oldTree, anything);
    ScriptFills(live, Symbolic(oldTree), Diff(oldTree, newTree), anything);
  }

  /** A document without any content that decides whether a script applies. */
  function Bare(n: LNode): Dom {
    Marked(n, Text(""))
  }

  lemma BareDecides(oldTree: LNode, newTree: LNode)
    ensures Shows(Bare(oldTree), oldTree) && Document(Bare(oldTree))
    ensures ApplyAll(Bare(oldTree), Diff(oldTree, newTree)).Some? ==> Applies(oldTree, newTree)
  {
    MarkedShows(oldTree, Text(""));
    if ApplyAll(Bare(oldTree), Diff(oldTree, newTree)).Some? {
      var anything: Allow := (s, d) => true;
      SymbolicFillsMarked(oldTree, Text(""), anything);
      ScriptFills(Symbolic(oldTree), Bare(oldTree), Diff(oldTree, newTree), anything);
    }
  }

  /** The script applies to every document of the old template if and only if it applies to the symbolic tree. */
  lemma AppliesExactly(oldTree: LNode, newTree: LNode)
    ensures Applies(oldTree, newTree) <==>
            forall live | Shows(live, oldTree) && Document(live) :: ApplyAll(live, Diff(oldTree, newTree)).Some?
  {
    BareDecides(oldTree, newTree);
    if Applies(oldTree, newTree) {
      forall live | Shows(live, oldTree) && Document(live) ensures ApplyAll(live, Diff(oldTree, newTree)).Some? {
        AppliesTo(live, oldTree, newTree);
      }
    } else {
      assert Shows(Bare(oldTree), oldTree) && ApplyAll(Bare(oldTree), Diff(oldTree, newTree)).None?;
    }
  }

  // ---------- When dynamic parts keep their content ----------

  /** What content a dynamic part may have. */
  type Held = (LNode, Dom) -> bool

  /** Every dynamic part of `n` that the old template knows has content that `held` permits. */
  predicate Keeps(d: Dom, n: LNode, index: Index, held: Held) {
    match n
    case Text(_) => true
    case Fragment(kids) =>
      d.Group? && |d.kids| == |kids| && forall k | 0 <= k < |kids| :: Keeps(d.kids[k], kids[k], index, held)
    case Element(_, _, kids) =>
      d.Tag? && |d.kids| == |kids| && forall k | 0 <= k < |kids| :: Keeps(d.kids[k], kids[k], index, held)
    case _ => n in index ==> held(n, d)
  }

  /** The script applies, and every old dynamic part that is still there shows what an equal one showed before. */
  predicate Preserves(live: Dom, oldTree: LNode, newTree: LNode) {
    var result := ApplyAll(live, Diff(oldTree, newTree));
    result.Some? &&
    Keeps(result.value, newTree, AddOldChildren(oldTree, [], map[]), (n, d) => Holds(live, oldTree, n, d))
  }

  lemma {:induction false} KeepsFills(d: Dom, s: Dom, n: LNode, index: Index, allow: Allow, held: Held, slots: Held)
    requires Fills(d, s, allow) && Keeps(s, n, index, slots)
    requires forall m, x :: slots(m, x) ==> x == Slot(m)
    requires forall m, x :: allow(Slot(m), x) ==> held(m, x)
    ensures Keeps(d, n, index, held)
    decreases n
  {
    if n.Fragment? || n.Element? {
      forall k | 0 <= k < |n.children| ensures Keeps(d.kids[k], n.children[k], index, held) {
        KeepsFills(d.kids[k], s.kids[k], n.children[k], index, allow, held, slots);
      }
    }
  }

  lemma PreservedIn(live: Dom, oldTree: LNode, newTree: LNode)
    requires Shows(live, oldTree) && Preserves(Symbolic(oldTree), oldTree, newTree)
    ensures Preserves(live, oldTree, newTree)
  {
    var (s, ps) := (Symbolic(oldTree), Diff(oldTree, newTree));
    var index := AddOldChildren(oldTree, [], map[]);
    var held: Held := (n, d) => Holds(live, oldTree, n, d);
    var slots: Held := (n, d) => Holds(s, oldTree, n, d);
    var allow: Allow := (x: Dom, d: Dom) => if x.Slot? then Holds(live, oldTree, x.of, d) else d == x;
    LiveFills(live, oldTree, allow);
    ScriptFills(live, s, ps, allow);
    forall n, d | slots(n, d) ensures d == Slot(n) {
      SymbolicHolds(oldTree, n, d);
    }
    KeepsFills(ApplyAll(live, ps).value, ApplyAll(s, ps).value, newTree, index, allow, held, slots);
  }

  /** As `Keeps`, of the parts equal to `m` only. */
  predicate KeepsPart(d: Dom, n: LNode, m: LNode, index: Index, held: Held) {
    match n
    case Text(_) => true
    case Fragment(kids) =>
      d.Group? && |d.kids| == |kids| && forall k | 0 <= k < |kids| :: KeepsPart(d.kids[k], kids[k], m, index, held)
    case Element(_, _, kids) =>
      d.Tag? && |d.kids| == |kids| && forall k | 0 <= k < |kids| :: KeepsPart(d.kids[k], kids[k], m, index, held)
    case _ => n == m && n in index ==> held(n, d)
  }

  lemma {:induction false} KeepsParts(d: Dom, n: LNode, index: Index, held: Held)
    requires forall m :: KeepsPart(d, n, m, index, held)
    ensures Keeps(d, n, index, held)
    decreases n
  {
    assert KeepsPart(d, n, n, index, held);
    if n.Fragment? || n.Element? {
      forall k | 0 <= k < |n.children| ensures Keeps(d.kids[k], n.children[k], index, held) {
        forall m ensures KeepsPart(d.kids[k], n.children[k], m, index, held) {
          assert KeepsPart(d, n, m, index, held);
        }
        KeepsParts(d.kids[k], n.children[k], index, held);
      }
    }
  }

  /** Content that is the marked one in the document is the slot of the marked part in the symbolic tree. */
  ghost predicate MarkAllowed(allow: Allow, m: LNode) {
    forall s, d :: allow(s, d) ==>
      if s.Slot? then d == (if s.of == m then Block([]) else Placeholder("")) else d == s
  }

  lemma {:induction false} MarkFound(
    d: Dom, s: Dom, n: LNode, m: LNode, index: Index, allow: Allow, held: Held, slots: Held)
    requires Fills(d, s, allow) && MarkAllowed(allow, m) && Keeps(d, n, index, held)
    requires forall x :: held(m, x) ==> x == Block([]) && slots(m, Slot(m))
    ensures KeepsPart(s, n, m, index, slots)
    decreases n
  {
    if n.Fragment? || n.Element? {
      forall k | 0 <= k < |n.children| ensures KeepsPart(s.kids[k], n.children[k], m, index, slots) {
        MarkFound(d.kids[k], s.kids[k], n.children[k], m, index, allow, held, slots);
      }
    } else if n == m && n in index && !n.Text? {
      assert held(m, d);
      assert s == Slot(m);
    }
  }

  /** The document that marks `m` is the symbolic tree with its slots filled, before a script and after it. */
  lemma MarkFills(oldTree: LNode, ps: seq<Patch>, m: LNode) returns (allow: Allow)
    requires ApplyAll(Symbolic(oldTree), ps).Some?
    ensures MarkAllowed(allow, m) && ApplyAll(Marked(oldTree, m), ps).Some?
    ensures Fills(ApplyAll(Marked(oldTree, m), ps).value, ApplyAll(Symbolic(oldTree), ps).value, allow)
  {
    allow := (x: Dom, d: Dom) => if x.Slot? then d == (if x.of == m then Block([]) else Placeholder("")) else d == x;
    forall n, d | Holds(Marked(oldTree, m), oldTree, n, d) ensures allow(Slot(n), d) {
      MarkedHolds(oldTree, m, n, d);
    }
    MarkedShows(oldTree, m);
    LiveFills(Marked(oldTree, m), oldTree, allow);
    ScriptFills(Marked(oldTree, m), Symbolic(oldTree), ps, allow);
  }

  /** If the content of `m` survives in the document that marks it, it does in the symbolic tree. */
  lemma MarkDecides(oldTree: LNode, newTree: LNode, m: LNode)
    requires Applies(oldTree, newTree) && Preserves(Marked(oldTree, m), oldTree, newTree)
    ensures var result := ApplyAll(Symbolic(oldTree), Diff(oldTree, newTree)).value;
            KeepsPart(result, newTree, m, AddOldChildren(oldTree, [], map[]),
                      (n, d) => Holds(Symbolic(oldTree), oldTree, n, d))
  {
    var (live, s, ps) := (Marked(oldTree, m), Symbolic(oldTree), Diff(oldTree, newTree));
    var index := AddOldChildren(oldTree, [], map[]);
    var held: Held := (n, d) => Holds(live, oldTree, n, d);
    var slots: Held := (n, d) => Holds(s, oldTree, n, d);
    var allow := MarkFills(oldTree, ps, m);
    forall x | held(m, x) ensures x == Block([]) && slots(m, Slot(m)) {
      MarkedHolds(oldTree, m, m, x);
      HeldHasSlot(live, oldTree, m, x);
    }
    MarkFound(ApplyAll(live, ps).value, ApplyAll(s, ps).value, newTree, m, index, allow, held, slots);
  }

  /** Content is preserved in every document of the old template if and only if it is in the symbolic tree. */
  lemma PreservesExactly(oldTree: LNode, newTree: LNode)
    ensures Preserves(Symbolic(oldTree), oldTree, newTree) <==>
            forall live | Shows(live, oldTree) && Document(live) :: Preserves(live, oldTree, newTree)
  {
    if Preserves(Symbolic(oldTree), oldTree, newTree) {
      forall live | Shows(live, oldTree) && Document(live) ensures Preserves(live, oldTree, newTree) {
        PreservedIn(live, oldTree, newTree);
      }
    }
    if forall live | Shows(live, oldTree) && Document(live) :: Preserves(live, oldTree, newTree) {
      AllPreserved(oldTree, newTree);
    }
  }

  lemma AllPreserved(oldTree: LNode, newTree: LNode)
    requires forall live | Shows(live, oldTree) && Document(live) :: Preserves(live, oldTree, newTree)
    ensures Preserves(Symbolic(oldTree), oldTree, newTree)
  {
    BareDecides(oldTree, newTree);
    assert Preserves(Bare(oldTree), oldTree, newTree);
    var result := ApplyAll(Symbolic(oldTree), Diff(oldTree, newTree)).value;
    var index := AddOldChildren(oldTree, [], map[]);
    var slots: Held := (n, d) => Holds(Symbolic(oldTree), oldTree, n, d);
    forall m ensures KeepsPart(result, newTree, m, index, slots) {
      MarkedShows(oldTree, m);
      MarkDecides(oldTree, newTree, m);
    }
    KeepsParts(result, newTree, index, slots);
  }
}
