/**
 The edit-distance table that `diff_children` fills for two child lists and walks
 backwards. `Cost` is the recurrence of the table, `Backtrace` the steps the walk takes.
 The table is shown to hold the least number of single-child edits, and the walk to be
 one such least script.
 */
module EditDistance {
  import opened Basics

  /** One edit of a child list; positions are those of the list the edit is applied to. */
  datatype Edit<T> =
    | Substitute(at: nat, node: T)
    | Remove(at: nat)
    | Insert(before: nat, node: T)

  function Min(x: nat, y: nat): nat {
    if x <= y then x else y
  }

  /** The table's recurrence, read as a distance between two lists. */
  function Dist<T(==)>(a: seq<T>, b: seq<T>): nat
    decreases |a| + |b|
  {
    if a == [] then |b|
    else if b == [] then |a|
    else
      var (a', b') := (a[..|a| - 1], b[..|b| - 1]);
      if a[|a| - 1] == b[|b| - 1] then Dist(a', b')
      else Min(Min(Dist(a, b') + 1, Dist(a', b) + 1), Dist(a', b') + 1)
  }

  // ---------- Edits and runs of edits ----------

  function ApplyEdit<T>(e: Edit<T>, s: seq<T>): Option<seq<T>> {
    match e
    case Substitute(at, x) => if at < |s| then Some(s[at := x]) else None
    case Remove(at) => if at < |s| then Some(s[..at] + s[at + 1..]) else None
    case Insert(before, x) => if before <= |s| then Some(s[..before] + [x] + s[before..]) else None
  }

  function ApplyEdits<T>(es: seq<Edit<T>>, s: seq<T>): Option<seq<T>> {
    if es == [] then Some(s)
    else
      match ApplyEdit(es[0], s)
      case None => None
      case Some(s') => ApplyEdits(es[1..], s')
  }

  // ---------- Dropping or adding a last element changes the distance by at most one ----------

  lemma LastElements<T>(a: seq<T>, x: T)
    ensures (a + [x])[..|a + [x]| - 1] == a
  {}

  lemma {:induction false} DropLast<T>(a: seq<T>, x: T, b: seq<T>)
    ensures Dist(a, b) <= Dist(a + [x], b) + 1
    decreases |a| + |b|
  {
    LastElements(a, x);
    if b != [] {
      var b' := b[..|b| - 1];
      assert b == b' + [b[|b| - 1]];
      AddLast(a, b', b[|b| - 1]);
      DropLast(a, x, b');
    }
  }

  lemma {:induction false} AddLast<T>(a: seq<T>, b: seq<T>, y: T)
    ensures Dist(a, b + [y]) <= Dist(a, b) + 1
    decreases |a| + |b|
  {
    LastElements(b, y);
    if a != [] {
      var a' := a[..|a| - 1];
      assert a == a' + [a[|a| - 1]];
      if a[|a| - 1] == y {
        DropLast(a', y, b);
      }
    }
  }

  lemma {:induction false} DistSymmetric<T>(a: seq<T>, b: seq<T>)
    ensures Dist(a, b) == Dist(b, a)
    decreases |a| + |b|
  {
    if a != [] && b != [] {
      DistSymmetric(a[..|a| - 1], b[..|b| - 1]);
      DistSymmetric(a, b[..|b| - 1]);
      DistSymmetric(a[..|a| - 1], b);
    }
  }

  /** The bounds that hold whether or not the last elements agree. */
  lemma ExtendBounds<T>(a: seq<T>, x: T, b: seq<T>, y: T)
    ensures Dist(a + [x], b) <= Dist(a, b) + 1
    ensures Dist(a, b + [y]) <= Dist(a, b) + 1
    ensures Dist(a + [x], b + [y]) <= Dist(a, b) + 1
  {
    AddLast(a, b, y);
    AddLast(b, a, x);
    DistSymmetric(a, b);
    DistSymmetric(a + [x], b);
    LastElements(a, x);
    LastElements(b, y);
  }

  // ---------- One edit anywhere changes the distance by at most one ----------

  /** `p + m1 + s` and `p + m2 + s` are one edit apart when `m1` and `m2` have at most one element each. */
  lemma {:induction false} OneEditApart<T>(p: seq<T>, m1: seq<T>, m2: seq<T>, s: seq<T>, b: seq<T>)
    requires |m1| <= 1 && |m2| <= 1
    ensures Dist(p + m1 + s, b) <= Dist(p + m2 + s, b) + 1
    decreases |s| + |b|
  {
    if s == [] {
      OneEditApartAtEnd(p, m1, m2, b);
      assert p + m1 + s == p + m1 && p + m2 + s == p + m2;
    } else if b != [] {
      var s', z := s[..|s| - 1], s[|s| - 1];
      var b', y := b[..|b| - 1], b[|b| - 1];
      assert p + m1 + s == (p + m1 + s') + [z] && p + m2 + s == (p + m2 + s') + [z];
      assert b == b' + [y];
      LastElements(p + m1 + s', z);
      LastElements(p + m2 + s', z);
      OneEditApart(p, m1, m2, s', b');
      OneEditApart(p, m1, m2, s', b);
      OneEditApart(p, m1, m2, s, b');
    }
  }

  lemma {:induction false} OneEditApartAtEnd<T>(p: seq<T>, m1: seq<T>, m2: seq<T>, b: seq<T>)
    requires |m1| <= 1 && |m2| <= 1
    ensures Dist(p + m1, b) <= Dist(p + m2, b) + 1
    decreases |b|
  {
    if m1 == [] && m2 != [] {
      assert p + m1 == p && m2 == [m2[0]];
      DropLast(p, m2[0], b);
    } else if m1 != [] && m2 == [] {
      assert p + m2 == p && m1 == [m1[0]];
      AddLast(b, p, m1[0]);
      DistSymmetric(b, p);
      DistSymmetric(b, p + m1);
    } else if m1 != [] && b != [] {
      var b', y := b[..|b| - 1], b[|b| - 1];
      assert b == b' + [y] && m1 == [m1[0]] && m2 == [m2[0]];
      LastElements(p, m1[0]);
      LastElements(p, m2[0]);
      OneEditApartAtEnd(p, m1, m2, b');
      ExtendBounds(p, m1[0], b', y);
      ExtendBounds(p, m1[0], b, y);
      ExtendBounds(p + m1, y, b', y);
    }
  }

  lemma EditMovesDistByOne<T>(e: Edit<T>, s: seq<T>, b: seq<T>)
    requires ApplyEdit(e, s).Some?
    ensures -1 <= Dist(ApplyEdit(e, s).value, b) - Dist(s, b) <= 1
  {
    var s' := ApplyEdit(e, s).value;
    match e
    case Substitute(at, x) =>
      assert s == s[..at] + [s[at]] + s[at + 1..];
      assert s' == s[..at] + [x] + s[at + 1..];
      OneEditApart(s[..at], [s[at]], [x], s[at + 1..], b);
      OneEditApart(s[..at], [x], [s[at]], s[at + 1..], b);
    case Remove(at) =>
      assert s == s[..at] + [s[at]] + s[at + 1..];
      assert s' == s[..at] + [] + s[at + 1..];
      OneEditApart(s[..at], [s[at]], [], s[at + 1..], b);
      OneEditApart(s[..at], [], [s[at]], s[at + 1..], b);
    case Insert(before, x) =>
      assert s == s[..before] + [] + s[before..];
      OneEditApart(s[..before], [], [x], s[before..], b);
      OneEditApart(s[..before], [x], [], s[before..], b);
  }

  lemma {:induction false} DistToSelf<T>(a: seq<T>)
    ensures Dist(a, a) == 0
  {
    if a != [] {
      DistToSelf(a[..|a| - 1]);
    }
  }

  /** No run of edits, in whatever order and at whatever positions, is shorter than `Dist`. */
  lemma {:induction false} NoShorterScript<T>(es: seq<Edit<T>>, a: seq<T>, b: seq<T>)
    requires ApplyEdits(es, a) == Some(b)
    ensures Dist(a, b) <= |es|
    decreases |es|
  {
    if es == [] {
      DistToSelf(a);
    } else {
      EditMovesDistByOne(es[0], a, b);
      NoShorterScript(es[1..], ApplyEdit(es[0], a).value, b);
    }
  }

  // ---------- The table ----------

  /** The recurrence of the table: the entry for the first `i` of `a` and the first `j` of `b`. */
  function Cost<T(==)>(a: seq<T>, b: seq<T>, i: nat, j: nat): nat
    requires i <= |a| && j <= |b|
    decreases i + j
  {
    if i == 0 then j
    else if j == 0 then i
    else if a[i - 1] == b[j - 1] then Cost(a, b, i - 1, j - 1)
    else Min(Min(Cost(a, b, i, j - 1) + 1, Cost(a, b, i - 1, j) + 1), Cost(a, b, i - 1, j - 1) + 1)
  }

  /** An entry is the distance of its two prefixes. */
  lemma {:induction false} CostIsDist<T>(a: seq<T>, b: seq<T>, i: nat, j: nat)
    requires i <= |a| && j <= |b|
    ensures Cost(a, b, i, j) == Dist(a[..i], b[..j])
    decreases i + j
  {
    if i > 0 && j > 0 {
      assert a[..i][..i - 1] == a[..i - 1] && b[..j][..j - 1] == b[..j - 1];
      CostIsDist(a, b, i - 1, j - 1);
      CostIsDist(a, b, i, j - 1);
      CostIsDist(a, b, i - 1, j);
    }
  }

  // ---------- The backward walk ----------

  /** What the walk does next at an entry; `Stuck` is the source's `unreachable!()`. */
  datatype Move = Match | Subst | Delete | Add | Stuck

  function NextMove<T(==)>(a: seq<T>, b: seq<T>, i: nat, j: nat): Move
    requires i <= |a| && j <= |b|
  {
    if i > 0 && j > 0 && a[i - 1] == b[j - 1] then Match
    else if i > 0 && j > 0 && Cost(a, b, i - 1, j - 1) + 1 == Cost(a, b, i, j) then Subst
    else if i > 0 && Cost(a, b, i - 1, j) + 1 == Cost(a, b, i, j) then Delete
    else if j > 0 && Cost(a, b, i, j - 1) + 1 == Cost(a, b, i, j) then Add
    else Stuck
  }

  lemma WalkNeverStuck<T>(a: seq<T>, b: seq<T>, i: nat, j: nat)
    requires i <= |a| && j <= |b| && (i > 0 || j > 0)
    ensures NextMove(a, b, i, j) != Stuck
  {}

  /** The edits of one move from the entry `(i, j)`: none or one. */
  function MoveEdits<T>(b: seq<T>, i: nat, j: nat, move: Move): seq<Edit<T>> {
    if move == Subst && 0 < i && 0 < j <= |b| then [Substitute(i - 1, b[j - 1])]
    else if move == Delete && 0 < i then [Remove(i - 1)]
    else if move == Add && 0 < j <= |b| then [Insert(i, b[j - 1])]
    else []
  }

  /** The non-matching steps of the walk from the entry `(i, j)` on, in the order taken. */
  function Backtrace<T(==)>(a: seq<T>, b: seq<T>, i: nat, j: nat): seq<Edit<T>>
    requires i <= |a| && j <= |b|
    decreases i + j
  {
    if i == 0 && j == 0 then []
    else
      WalkNeverStuck(a, b, i, j);
      var move := NextMove(a, b, i, j);
      MoveEdits(b, i, j, move)
      + Backtrace(a, b, if move == Add then i else i - 1, if move == Delete then j else j - 1)
  }

  /** The walk takes exactly as many non-matching steps as its entry says. */
  lemma {:induction false} BacktraceLength<T>(a: seq<T>, b: seq<T>, i: nat, j: nat)
    requires i <= |a| && j <= |b|
    ensures |Backtrace(a, b, i, j)| == Cost(a, b, i, j)
    decreases i + j
  {
    if i > 0 || j > 0 {
      WalkNeverStuck(a, b, i, j);
      var move := NextMove(a, b, i, j);
      BacktraceLength(a, b, if move == Add then i else i - 1, if move == Delete then j else j - 1);
    }
  }

  /** Midway the list is the untouched prefix followed by a finished suffix, and the walk finishes it. */
  lemma {:induction false} BacktraceTransforms<T>(a: seq<T>, b: seq<T>, i: nat, j: nat, done: seq<T>)
    requires i <= |a| && j <= |b|
    ensures ApplyEdits(Backtrace(a, b, i, j), a[..i] + done) == Some(b[..j] + done)
    decreases i + j
  {
    if i == 0 && j == 0 {
    } else {
      WalkNeverStuck(a, b, i, j);
      var now := a[..i] + done;
      match NextMove(a, b, i, j)
      case Match =>
        assert now == a[..i - 1] + ([b[j - 1]] + done);
        assert b[..j] + done == b[..j - 1] + ([b[j - 1]] + done);
        BacktraceTransforms(a, b, i - 1, j - 1, [b[j - 1]] + done);
        assert Backtrace(a, b, i, j) == Backtrace(a, b, i - 1, j - 1);
      case Subst =>
        assert now[i - 1 := b[j - 1]] == a[..i - 1] + ([b[j - 1]] + done);
        assert b[..j] + done == b[..j - 1] + ([b[j - 1]] + done);
        BacktraceTransforms(a, b, i - 1, j - 1, [b[j - 1]] + done);
      case Delete =>
        assert now[..i - 1] + now[i..] == a[..i - 1] + done;
        BacktraceTransforms(a, b, i - 1, j, done);
      case Add =>
        assert now[..i] + [b[j - 1]] + now[i..] == a[..i] + ([b[j - 1]] + done);
        assert b[..j] + done == b[..j - 1] + ([b[j - 1]] + done);
        BacktraceTransforms(a, b, i, j - 1, [b[j - 1]] + done);
    }
  }

  /** `es` turns `a` into `b`, and no script of single edits does so in fewer. */
  ghost predicate LeastScript<T(!new)>(es: seq<Edit<T>>, a: seq<T>, b: seq<T>) {
    && ApplyEdits(es, a) == Some(b)
    && forall fs: seq<Edit<T>> :: ApplyEdits(fs, a) == Some(b) ==> |es| <= |fs|
  }

  /** The entry of any two prefixes is the least script length: the walk's script attains it, none beats it. */
  lemma CostIsLeast<T(!new)>(a: seq<T>, b: seq<T>, i: nat, j: nat)
    requires i <= |a| && j <= |b|
    ensures LeastScript(Backtrace(a, b, i, j), a[..i], b[..j]) && |Backtrace(a, b, i, j)| == Cost(a, b, i, j)
  {
    BacktraceTransforms(a, b, i, j, []);
    assert a[..i] + [] == a[..i] && b[..j] + [] == b[..j];
    BacktraceLength(a, b, i, j);
    CostIsDist(a, b, i, j);
    forall fs: seq<Edit<T>> | ApplyEdits(fs, a[..i]) == Some(b[..j])
      ensures Cost(a, b, i, j) <= |fs|
    {
      NoShorterScript(fs, a[..i], b[..j]);
    }
  }
}
