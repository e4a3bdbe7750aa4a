/**
 View templates (`LNode`), the live document tree they are shown as, and the relation
 between the two.
 */
module Template {
  import opened Basics
  import opened EditDistance

  datatype AttrValue = Boolean | Static(value: string) | Dynamic | Noop

  type Attrs = seq<(string, AttrValue)>

  datatype LNode =
    | Fragment(children: seq<LNode>)
    | Text(text: string)
    | Element(name: string, attrs: Attrs, children: seq<LNode>)
    | Component(name: string, props: seq<(string, string)>, children: seq<LNode>)
    | DynChild(source: string)

  /**
   A document tree. The content of a component or block stands between two comments: `Block` is such content, and
   `Placeholder` the markup written for content that Rust must load. `Slot` stands for the unknown content of a
   dynamic node; documents have none.
   */
  datatype Dom =
    | Group(kids: seq<Dom>)
    | Chars(text: string)
    | Tag(name: string, attrs: map<string, string>, kids: seq<Dom>)
    | Block(kids: seq<Dom>)
    | Placeholder(what: string)
    | Slot(of: LNode)

  /** The content of a dynamic node, whatever it is. */
  predicate IsContent(d: Dom) {
    d.Block? || d.Placeholder? || d.Slot?
  }

  predicate SameKind(a: LNode, b: LNode) {
    || (a.Fragment? && b.Fragment?) || (a.Text? && b.Text?) || (a.Element? && b.Element?)
    || (a.Component? && b.Component?) || (a.DynChild? && b.DynChild?)
  }

  // ---------- Attributes ----------

  function Names(attrs: Attrs): set<string> {
    set a | a in attrs :: a.0
  }

  /** The first attribute of that name. */
  function Find(attrs: Attrs, name: string): Option<AttrValue> {
    if attrs == [] then None
    else if attrs[0].0 == name then Some(attrs[0].1)
    else Find(attrs[1..], name)
  }

  lemma {:induction false} FindMeansNamed(attrs: Attrs, name: string)
    ensures Find(attrs, name).Some? <==> name in Names(attrs)
  {
    if attrs != [] {
      FindMeansNamed(attrs[1..], name);
      NamesUnfold(attrs);
    }
  }

  lemma NamesUnfold(attrs: Attrs)
    requires attrs != []
    ensures Names(attrs) == {attrs[0].0} + Names(attrs[1..])
  {
    assert attrs == [attrs[0]] + attrs[1..];
  }

  predicate StaticAttrs(attrs: Attrs) {
    attrs == [] ||
    (attrs[0].1.Static? && attrs[0].0 !in Names(attrs[1..]) && StaticAttrs(attrs[1..]))
  }

  /** A parsed attribute list: the first of two equal names wins, as in HTML. */
  function RenderAttrs(attrs: Attrs): map<string, string> {
    if attrs == [] then map[]
    else
      var rest := RenderAttrs(attrs[1..]);
      match attrs[0].1
      case Static(v) => rest[attrs[0].0 := v]
      case Boolean => rest[attrs[0].0 := ""]
      case _ => rest
  }

  /** A static attribute carries its value and a boolean one any value; the others may be absent. */
  predicate Carries(m: map<string, string>, name: string, attr: Option<AttrValue>) {
    match attr
    case Some(Static(v)) => name in m && m[name] == v
    case Some(Boolean) => name in m
    case _ => true
  }

  ghost predicate ShowsAttrs(m: map<string, string>, attrs: Attrs) {
    m.Keys <= Names(attrs) && forall name :: Carries(m, name, Find(attrs, name))
  }

  lemma {:induction false} StaticAttrsLookup(attrs: Attrs, name: string)
    requires StaticAttrs(attrs)
    ensures name in RenderAttrs(attrs) <==> name in Names(attrs)
    ensures name in Names(attrs) ==> Find(attrs, name) == Some(Static(RenderAttrs(attrs)[name]))
  {
    if attrs != [] {
      NamesUnfold(attrs);
      StaticAttrsLookup(attrs[1..], name);
    }
  }

  lemma StaticAttrsShown(m: map<string, string>, attrs: Attrs)
    requires StaticAttrs(attrs)
    ensures ShowsAttrs(m, attrs) <==> m == RenderAttrs(attrs)
  {
    forall name
      ensures name in RenderAttrs(attrs) <==> name in Names(attrs)
      ensures name in Names(attrs) ==> Find(attrs, name) == Some(Static(RenderAttrs(attrs)[name]))
      ensures Find(attrs, name).Some? <==> name in Names(attrs)
    {
      StaticAttrsLookup(attrs, name);
      FindMeansNamed(attrs, name);
    }
    if ShowsAttrs(m, attrs) {
      forall name | name in Names(attrs) ensures name in m && m[name] == RenderAttrs(attrs)[name] {
        assert Find(attrs, name).Some?;
      }
      assert m.Keys == RenderAttrs(attrs).Keys;
    }
  }

  // ---------- Trees ----------

  /** A template whose whole markup is known: no component, block or non-literal attribute. */
  predicate IsStatic(n: LNode) {
    match n
    case Text(_) => true
    case Fragment(kids) => forall k | 0 <= k < |kids| :: IsStatic(kids[k])
    case Element(_, attrs, kids) => StaticAttrs(attrs) && forall k | 0 <= k < |kids| :: IsStatic(kids[k])
    case _ => false
  }

  predicate AllStatic(ns: seq<LNode>) {
    forall k | 0 <= k < |ns| :: IsStatic(ns[k])
  }

  /** No element of the template writes an attribute twice. */
  predicate UniqueAttrs(n: LNode) {
    match n
    case Fragment(kids) => forall k | 0 <= k < |kids| :: UniqueAttrs(kids[k])
    case Element(_, attrs, kids) => UniqueNames(attrs) && forall k | 0 <= k < |kids| :: UniqueAttrs(kids[k])
    case _ => true
  }

  predicate UniqueNames(attrs: Attrs) {
    attrs == [] || (attrs[0].0 !in Names(attrs[1..]) && UniqueNames(attrs[1..]))
  }

  predicate AllUniqueAttrs(ns: seq<LNode>) {
    forall k | 0 <= k < |ns| :: UniqueAttrs(ns[k])
  }

  /** The document tree that `to_html` of a template parses to. */
  function Render(n: LNode): Dom {
    match n
    case Fragment(kids) => Group(RenderAll(kids))
    case Text(t) => Chars(t)
    case Element(name, attrs, kids) => Tag(name, RenderAttrs(attrs), RenderAll(kids))
    case Component(name, _, _) => Placeholder(name)
    case DynChild(_) => Placeholder("DynChild")
  }

  function RenderAll(ns: seq<LNode>): (ds: seq<Dom>)
    ensures |ds| == |ns|
    ensures forall k | 0 <= k < |ns| :: ds[k] == Render(ns[k])
  {
    seq(|ns|, k requires 0 <= k < |ns| => Render(ns[k]))
  }

  /** `d` is a live tree for template `n`: dynamic parts may have any content. */
  ghost predicate Shows(d: Dom, n: LNode)
    decreases n
  {
    match n
    case Text(t) => d == Chars(t)
    case Fragment(kids) =>
      d.Group? && |d.kids| == |kids| && forall k | 0 <= k < |kids| :: Shows(d.kids[k], kids[k])
    case Element(name, attrs, kids) =>
      d.Tag? && d.name == name && ShowsAttrs(d.attrs, attrs) &&
      |d.kids| == |kids| && forall k | 0 <= k < |kids| :: Shows(d.kids[k], kids[k])
    case _ => IsContent(d)
  }

  ghost predicate ShowsAll(ds: seq<Dom>, ns: seq<LNode>) {
    |ds| == |ns| && forall k | 0 <= k < |ns| :: Shows(ds[k], ns[k])
  }

  /** A static template has exactly one live tree, the rendered one. */
  lemma {:induction false} StaticShownExactly(d: Dom, n: LNode)
    requires IsStatic(n)
    ensures Shows(d, n) <==> d == Render(n)
    decreases n
  {
    match n
    case Text(_) =>
    case Fragment(kids) =>
      if d.Group? {
        StaticListShownExactly(d.kids, kids);
      }
    case Element(_, attrs, kids) =>
      if d.Tag? {
        StaticAttrsShown(d.attrs, attrs);
        StaticListShownExactly(d.kids, kids);
      }
  }

  lemma {:induction false} StaticListShownExactly(ds: seq<Dom>, ns: seq<LNode>)
    requires AllStatic(ns)
    ensures ShowsAll(ds, ns) <==> ds == RenderAll(ns)
    decreases ns
  {
    if |ds| == |ns| {
      forall k | 0 <= k < |ns| ensures Shows(ds[k], ns[k]) <==> ds[k] == Render(ns[k]) {
        StaticShownExactly(ds[k], ns[k]);
      }
    }
  }
}
