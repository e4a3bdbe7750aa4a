/**
 Patch scripts and what they mean on a document tree (the actions of `patch.js`).
 Applying a script yields `None` when some path or index does not exist at its turn.
 */
module Patching {
  import opened Basics
  import opened EditDistance
  import opened Template

  /** `Html` carries the template whose markup it is. */
  datatype Replacement =
    | Html(node: LNode)
    | Path(path: seq<nat>)
    | RFragment(kids: seq<Replacement>)
    | RElement(name: string, attrs: seq<(string, string)>, kids: seq<Replacement>)

  datatype Action =
    | ReplaceWith(node: Replacement)
    | ChangeTagName(name: string)
    | RemoveAttribute(name: string)
    | SetAttribute(name: string, value: string)
    | SetText(text: string)
    | ClearChildren
    | AppendChildren(nodes: seq<Replacement>)
    | RemoveChild(at: nat)
    | InsertChild(before: nat, child: Replacement)

  datatype Patch = Patch(path: seq<nat>, action: Action)

  // ---------- Addressing ----------

  predicate HasKids(d: Dom) {
    d.Group? || d.Tag? || d.Block?
  }

  function WithKids(d: Dom, kids: seq<Dom>): Dom
    requires HasKids(d)
  {
    d.(kids := kids)
  }

  function NodeAt(d: Dom, path: seq<nat>): Option<Dom> {
    if path == [] then Some(d)
    else if HasKids(d) && path[0] < |d.kids| then NodeAt(d.kids[path[0]], path[1..])
    else None
  }

  /** The tree `d` with the node at `path` exchanged for `x`. */
  function Put(d: Dom, path: seq<nat>, x: Dom): Dom
    requires NodeAt(d, path).Some?
    decreases |path|
  {
    if path == [] then x
    else WithKids(d, d.kids[path[0] := Put(d.kids[path[0]], path[1..], x)])
  }

  lemma {:induction false} PutThenGet(d: Dom, path: seq<nat>, x: Dom)
    requires NodeAt(d, path).Some?
    ensures NodeAt(Put(d, path, x), path) == Some(x)
    decreases |path|
  {
    if path != [] {
      PutThenGet(d.kids[path[0]], path[1..], x);
    }
  }

  lemma {:induction false} PutTwice(d: Dom, path: seq<nat>, x: Dom, y: Dom)
    requires NodeAt(d, path).Some?
    ensures NodeAt(Put(d, path, x), path).Some?
    ensures Put(Put(d, path, x), path, y) == Put(d, path, y)
    decreases |path|
  {
    PutThenGet(d, path, x);
    if path != [] {
      PutTwice(d.kids[path[0]], path[1..], x, y);
      var k := path[0];
      var inner := Put(d.kids[k], path[1..], x);
      assert d.kids[k := inner][k := Put(inner, path[1..], y)] == d.kids[k := Put(inner, path[1..], y)];
    }
  }

  lemma {:induction false} PutSame(d: Dom, path: seq<nat>, x: Dom)
    requires NodeAt(d, path) == Some(x)
    ensures Put(d, path, x) == d
    decreases |path|
  {
    if path != [] {
      PutSame(d.kids[path[0]], path[1..], x);
      assert d.kids[path[0] := d.kids[path[0]]] == d.kids;
    }
  }

  /** Going down one path and then another. */
  lemma {:induction false} PathConcat(d: Dom, path: seq<nat>, below: seq<nat>, x: Dom)
    requires NodeAt(d, path).Some?
    ensures NodeAt(d, path + below) == NodeAt(NodeAt(d, path).value, below)
    ensures NodeAt(d, path + below).Some? ==>
              Put(d, path + below, x) == Put(d, path, Put(NodeAt(d, path).value, below, x))
    decreases |path|
  {
    if path == [] {
      assert path + below == below;
    } else {
      assert (path + below)[1..] == path[1..] + below;
      PathConcat(d.kids[path[0]], path[1..], below, x);
    }
  }

  /** Going one step further down a path. */
  lemma {:induction false} PathExtends(d: Dom, path: seq<nat>, k: nat, x: Dom)
    requires NodeAt(d, path).Some?
    requires var p := NodeAt(d, path).value; HasKids(p) && k < |p.kids|
    ensures NodeAt(d, path + [k]) == Some(NodeAt(d, path).value.kids[k])
    ensures Put(d, path + [k], x)
         == Put(d, path, WithKids(NodeAt(d, path).value, NodeAt(d, path).value.kids[k := x]))
    decreases |path|
  {
    if path == [] {
      assert path + [k] == [k];
      assert NodeAt(d.kids[k], []) == Some(d.kids[k]);
    } else {
      assert (path + [k])[1..] == path[1..] + [k];
      PathExtends(d.kids[path[0]], path[1..], k, x);
    }
  }

  // ---------- Meaning of patches ----------

  function SetAll(m: map<string, string>, attrs: seq<(string, string)>): map<string, string>
    decreases |attrs|
  {
    if attrs == [] then m else SetAll(m[attrs[0].0 := attrs[0].1], attrs[1..])
  }

  /**
   The node a replacement stands for. A path is looked up in the document as it is now; what it leads to is copied
   if it is the content of a dynamic node, and nothing else can stand for one.
   */
  function Build(root: Dom, r: Replacement): Option<Dom>
    decreases r
  {
    match r
    case Html(n) => Some(Render(n))
    case Path(p) =>
      (match NodeAt(root, p)
       case None => None
       case Some(d) => if IsContent(d) then Some(d) else None)
    case RFragment(rs) =>
      (match BuildAll(root, rs)
       case None => None
       case Some(kids) => Some(Group(kids)))
    case RElement(name, attrs, rs) =>
      (match BuildAll(root, rs)
       case None => None
       case Some(kids) => Some(Tag(name, SetAll(map[], attrs), kids)))
  }

  function BuildAll(root: Dom, rs: seq<Replacement>): Option<seq<Dom>>
    decreases rs
  {
    if rs == [] then Some([])
    else
      match (Build(root, rs[0]), BuildAll(root, rs[1..]))
      case (Some(d), Some(ds)) => Some([d] + ds)
      case _ => None
  }

  /** What an action makes of the node it is addressed to. */
  function Act(root: Dom, d: Dom, action: Action): Option<Dom> {
    match action
    case ReplaceWith(r) => Build(root, r)
    case ChangeTagName(name) => if d.Tag? then Some(d.(name := name)) else None
    case RemoveAttribute(name) => if d.Tag? then Some(d.(attrs := d.attrs - {name})) else None
    case SetAttribute(name, value) => if d.Tag? then Some(d.(attrs := d.attrs[name := value])) else None
    case SetText(text) => if d.Chars? then Some(Chars(text)) else None
    case ClearChildren => if HasKids(d) then Some(WithKids(d, [])) else None
    case AppendChildren(rs) =>
      (match BuildAll(root, rs)
       case Some(ds) => if HasKids(d) then Some(WithKids(d, d.kids + ds)) else None
       case None => None)
    case RemoveChild(at) =>
      if HasKids(d) && at < |d.kids| then Some(WithKids(d, d.kids[..at] + d.kids[at + 1..])) else None
    case InsertChild(before, r) =>
      (match Build(root, r)
       case Some(x) =>
         if HasKids(d) && before <= |d.kids| then Some(WithKids(d, d.kids[..before] + [x] + d.kids[before..]))
         else None
       case None => None)
  }

  function ApplyPatch(root: Dom, p: Patch): Option<Dom> {
    match NodeAt(root, p.path)
    case None => None
    case Some(d) =>
      match Act(root, d, p.action)
      case None => None
      case Some(d') => Some(Put(root, p.path, d'))
  }

  function ApplyAll(root: Dom, ps: seq<Patch>): Option<Dom>
    decreases |ps|
  {
    if ps == [] then Some(root)
    else
      match ApplyPatch(root, ps[0])
      case None => None
      case Some(root') => ApplyAll(root', ps[1..])
  }

  lemma {:induction false} ApplyConcat(root: Dom, ps: seq<Patch>, qs: seq<Patch>)
    ensures ApplyAll(root, ps + qs) ==
            (match ApplyAll(root, ps) case None => None case Some(mid) => ApplyAll(mid, qs))
    decreases |ps|
  {
    if ps == [] {
      assert ps + qs == qs;
    } else {
      assert (ps + qs)[0] == ps[0] && (ps + qs)[1..] == ps[1..] + qs;
      if ApplyPatch(root, ps[0]).Some? {
        ApplyConcat(ApplyPatch(root, ps[0]).value, ps[1..], qs);
      }
    }
  }
}
