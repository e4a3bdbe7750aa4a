/**
 Serialized data ids: decimal root ids drawn from an upward and a downward counter, and
 dash-joined ids drawn from scopes opened on minted ids. Counters are 64-bit and wrap.
 */
module DataIds {
  import opened Basics

  // ---------- Rendering ----------

  function Digit(d: nat): char
    requires d < 10
  {
    ('0' as int + d) as char
  }

  /** `usize::to_string`. */
  function Decimal(n: nat): string {
    if n < 10 then [Digit(n)] else Decimal(n / 10) + [Digit(n % 10)]
  }

  function DecimalValue(s: string): int {
    if s == [] then 0 else DecimalValue(s[..|s| - 1]) * 10 + (s[|s| - 1] as int - '0' as int)
  }

  lemma {:induction false} DecimalRoundTrip(n: nat)
    ensures DecimalValue(Decimal(n)) == n
    ensures Decimal(n) != [] && '-' !in Decimal(n)
  {
    if n < 10 {
      assert [Digit(n)][..0] == [];
    } else {
      DecimalRoundTrip(n / 10);
      assert Decimal(n)[..|Decimal(n)| - 1] == Decimal(n / 10);
    }
  }

  function Nested(parent: string, n: nat): string {
    parent + "-" + Decimal(n)
  }

  /** An id by the counter values on the way to it: root first, then one per enclosing scope. */
  type Path = seq<nat>

  function Render(p: Path): string
    requires p != []
  {
    if |p| == 1 then Decimal(p[0]) else Nested(Render(p[..|p| - 1]), p[|p| - 1])
  }

  /** The last dash of a joined id is where its last part begins. */
  lemma SplitAtLastDash(s: string, t: string, s': string, t': string)
    requires s + "-" + t == s' + "-" + t' && '-' !in t && '-' !in t'
    ensures s == s' && t == t'
  {
    var joined := s + "-" + t;
    assert joined[|s|] == '-' && joined[|s'|] == '-';
    assert joined[|s| + 1..] == t && joined[|s'| + 1..] == t';
    assert forall k | |s| < k < |joined| :: joined[k] == t[k - |s| - 1];
    assert forall k | |s'| < k < |joined| :: joined[k] == t'[k - |s'| - 1];
    assert |s| == |s'|;
    assert joined[..|s|] == s && joined[..|s'|] == s';
  }

  lemma NestedInjective(a: string, n: nat, b: string, m: nat)
    requires Nested(a, n) == Nested(b, m)
    ensures a == b && n == m
  {
    DecimalRoundTrip(n);
    DecimalRoundTrip(m);
    SplitAtLastDash(a, Decimal(n), b, Decimal(m));
  }

  lemma NestedIsNotRoot(a: string, n: nat, m: nat)
    ensures Nested(a, n) != Decimal(m)
  {
    DecimalRoundTrip(m);
    assert Nested(a, n)[|a|] == '-';
  }

  /** Two ids are the same string only if they were minted at the same place. */
  lemma {:induction false} RenderInjective(p: Path, q: Path)
    requires p != [] && q != [] && Render(p) == Render(q)
    ensures p == q
    decreases |p|
  {
    var p', q' := p[..|p| - 1], q[..|q| - 1];
    if |p| == 1 && |q| == 1 {
      DecimalRoundTrip(p[0]);
      DecimalRoundTrip(q[0]);
    } else if |p| == 1 {
      NestedIsNotRoot(Render(q'), q[|q| - 1], p[0]);
    } else if |q| == 1 {
      NestedIsNotRoot(Render(p'), p[|p| - 1], q[0]);
    } else {
      NestedInjective(Render(p'), p[|p| - 1], Render(q'), q[|q| - 1]);
      RenderInjective(p', q');
      assert p == p' + [p[|p| - 1]] && q == q' + [q[|q| - 1]];
    }
  }

  // ---------- Counters ----------

  /** Value handed out by the `n`-th `fetch_add` of a counter that starts at 0. */
  function UpValue(n: nat): nat {
    n % U64
  }

  /** Value handed out by the `n`-th `fetch_sub` of a counter that starts at `usize::MAX`. */
  function DownValue(n: nat): nat {
    U64 - 1 - n % U64
  }

  /** A counter that steps and wraps hands out the next value. */
  lemma UpSteps(n: nat)
    ensures UpValue(n + 1) == if UpValue(n) + 1 == U64 then 0 else UpValue(n) + 1
  {
    NextModulo(n);
  }

  lemma DownSteps(n: nat)
    ensures DownValue(n + 1) == if DownValue(n) == 0 then U64 - 1 else DownValue(n) - 1
  {
    NextModulo(n);
  }

  lemma NextModulo(n: nat)
    ensures (n + 1) % U64 == if n % U64 + 1 == U64 then 0 else n % U64 + 1
  {}

  class SerializedDataIdScope {
    const parent: string
    var next: nat

    constructor (parent: string)
      ensures this.parent == parent && next == UpValue(0)
    {
      this.parent, next := parent, 0;
    }

    method NextId(ghost minted: nat) returns (id: string)
      requires next == UpValue(minted)
      modifies this
      ensures id == Nested(parent, UpValue(minted)) && next == UpValue(minted + 1)
    {
      UpSteps(minted);
      id := Nested(parent, next);
      next := if next + 1 == U64 then 0 else next + 1;
    }
  }

  /** The two root counters of `SsrSharedContext`. */
  class SsrIdCounters {
    var id: nat
    var nonHydrationId: nat
    var isHydrating: bool

    constructor ()
      ensures id == UpValue(0) && nonHydrationId == DownValue(0) && isHydrating
    {
      id, nonHydrationId, isHydrating := 0, U64 - 1, true;
    }

    method NextId(ghost up: nat, ghost down: nat) returns (r: string)
      requires id == UpValue(up) && nonHydrationId == DownValue(down)
      modifies this
      ensures isHydrating == old(isHydrating)
      ensures isHydrating ==> r == Decimal(UpValue(up)) && id == UpValue(up + 1) && nonHydrationId == DownValue(down)
      ensures !isHydrating ==>
                r == Decimal(DownValue(down)) && id == UpValue(up) && nonHydrationId == DownValue(down + 1)
    {
      if isHydrating {
        UpSteps(up);
        r := Decimal(id);
        id := if id + 1 == U64 then 0 else id + 1;
      } else {
        DownSteps(down);
        r := Decimal(nonHydrationId);
        nonHydrationId := if nonHydrationId == 0 then U64 - 1 else nonHydrationId - 1;
      }
    }
  }

  // ---------- Runs of one request ----------

  datatype Origin = RootUp | RootDown | InScope(scope: nat)

  datatype Entry = Entry(origin: Origin, path: Path, id: string)

  /** A scope, the entry it was opened on, and how many ids it has minted. */
  datatype Scope = Scope(openedOn: nat, path: Path, parent: string, minted: nat)

  datatype Alloc = Alloc(up: nat, down: nat, scopes: seq<Scope>, log: seq<Entry>)

  const Empty := Alloc(0, 0, [], [])

  datatype Event = MintRoot(hydrating: bool) | Open(entry: nat) | MintIn(scope: nat)

  /** A scope is opened on a minted id, at most once per id. */
  predicate Enabled(a: Alloc, e: Event) {
    match e
    case MintRoot(_) => true
    case Open(entry) => entry < |a.log| && forall s | 0 <= s < |a.scopes| :: a.scopes[s].openedOn != entry
    case MintIn(scope) => scope < |a.scopes|
  }

  function Next(a: Alloc, e: Event): Alloc
    requires Enabled(a, e)
  {
    match e
    case MintRoot(true) =>
      a.(up := a.up + 1, log := a.log + [Entry(RootUp, [UpValue(a.up)], Decimal(UpValue(a.up)))])
    case MintRoot(false) =>
      a.(down := a.down + 1, log := a.log + [Entry(RootDown, [DownValue(a.down)], Decimal(DownValue(a.down)))])
    case Open(k) =>
      a.(scopes := a.scopes + [Scope(k, a.log[k].path, a.log[k].id, 0)])
    case MintIn(s) =>
      var scope := a.scopes[s];
      var v := UpValue(scope.minted);
      a.(scopes := a.scopes[s := scope.(minted := scope.minted + 1)],
         log := a.log + [Entry(InScope(s), scope.path + [v], Nested(scope.parent, v))])
  }

  predicate Valid(a: Alloc, es: seq<Event>)
    decreases |es|
  {
    es == [] || (Enabled(a, es[0]) && Valid(Next(a, es[0]), es[1..]))
  }

  function Exec(a: Alloc, es: seq<Event>): Alloc
    requires Valid(a, es)
    decreases |es|
  {
    if es == [] then a else Exec(Next(a, es[0]), es[1..])
  }

  /** Fewer than 2^64 ids from every counter space; the two root counters share one. */
  predicate WithinLimits(a: Alloc) {
    a.up + a.down <= U64 && forall s | 0 <= s < |a.scopes| :: a.scopes[s].minted <= U64
  }

  // ---------- Distinctness ----------

  /** Where an entry's path lies. */
  predicate Placed(a: Alloc, e: Entry) {
    && e.path != [] && e.id == Render(e.path)
    && match e.origin
       case RootUp => |e.path| == 1 && e.path[0] < a.up
       case RootDown => |e.path| == 1 && U64 - a.down <= e.path[0] < U64
       case InScope(s) =>
         && s < |a.scopes| && |e.path| > 1
         && e.path[..|e.path| - 1] == a.scopes[s].path && e.path[|e.path| - 1] < a.scopes[s].minted
  }

  predicate ScopeSound(a: Alloc, s: nat)
    requires s < |a.scopes|
  {
    var scope := a.scopes[s];
    scope.openedOn < |a.log| && scope.path == a.log[scope.openedOn].path && scope.parent == a.log[scope.openedOn].id
  }

  ghost predicate Inv(a: Alloc) {
    && (forall k | 0 <= k < |a.log| :: Placed(a, a.log[k]))
    && (forall s: nat | s < |a.scopes| :: ScopeSound(a, s))
    && (forall s, t | 0 <= s < t < |a.scopes| :: a.scopes[s].openedOn != a.scopes[t].openedOn)
    && (forall k, l | 0 <= k < l < |a.log| :: a.log[k].path != a.log[l].path)
  }

  lemma MintUpKeeps(a: Alloc)
    requires Inv(a) && WithinLimits(Next(a, MintRoot(true)))
    ensures Inv(Next(a, MintRoot(true)))
  {
    var a' := Next(a, MintRoot(true));
    assert UpValue(a.up) == a.up;
    forall k | 0 <= k < |a.log| ensures Placed(a', a'.log[k]) && a'.log[k].path != a'.log[|a.log|].path {
      assert Placed(a, a.log[k]);
    }
    forall s: nat | s < |a'.scopes| ensures ScopeSound(a', s) {
      assert ScopeSound(a, s);
    }
  }

  lemma MintDownKeeps(a: Alloc)
    requires Inv(a) && WithinLimits(Next(a, MintRoot(false)))
    ensures Inv(Next(a, MintRoot(false)))
  {
    var a' := Next(a, MintRoot(false));
    assert DownValue(a.down) == U64 - 1 - a.down;
    forall k | 0 <= k < |a.log| ensures Placed(a', a'.log[k]) && a'.log[k].path != a'.log[|a.log|].path {
      assert Placed(a, a.log[k]);
    }
    forall s: nat | s < |a'.scopes| ensures ScopeSound(a', s) {
      assert ScopeSound(a, s);
    }
  }

  lemma OpenKeeps(a: Alloc, k: nat)
    requires Inv(a) && Enabled(a, Open(k))
    ensures Inv(Next(a, Open(k)))
  {
    var a' := Next(a, Open(k));
    forall k | 0 <= k < |a'.log| ensures Placed(a', a'.log[k]) {
      assert Placed(a, a.log[k]);
    }
    forall s: nat | s < |a'.scopes| ensures ScopeSound(a', s) {
      assert s < |a.scopes| ==> ScopeSound(a, s);
    }
  }

  lemma ScopePathsDiffer(a: Alloc, s: nat, t: nat)
    requires Inv(a) && s < |a.scopes| && t < |a.scopes| && s != t
    ensures a.scopes[s].path != a.scopes[t].path
  {
    assert ScopeSound(a, s) && ScopeSound(a, t);
  }

  /** A path minted in scope `s` is new: another scope has another path. */
  lemma ScopePathFresh(a: Alloc, s: nat, k: nat)
    requires Inv(a) && s < |a.scopes| && k < |a.log|
    ensures a.log[k].path != a.scopes[s].path + [a.scopes[s].minted]
  {
    var e := a.log[k];
    var p := a.scopes[s].path + [a.scopes[s].minted];
    assert p[..|p| - 1] == a.scopes[s].path;
    assert Placed(a, e) && ScopeSound(a, s) && Placed(a, a.log[a.scopes[s].openedOn]);
    if e.origin.InScope? && e.origin.scope != s {
      ScopePathsDiffer(a, s, e.origin.scope);
    }
  }

  lemma MintInKeeps(a: Alloc, s: nat)
    requires Inv(a) && Enabled(a, MintIn(s)) && WithinLimits(Next(a, MintIn(s)))
    ensures Inv(Next(a, MintIn(s)))
  {
    var a' := Next(a, MintIn(s));
    var scope := a.scopes[s];
    assert a'.scopes[s].minted <= U64;
    assert UpValue(scope.minted) == scope.minted;
    assert ScopeSound(a, s) && Placed(a, a.log[scope.openedOn]);
    forall k: nat | k < |a.log| ensures Placed(a', a'.log[k]) && a'.log[k].path != a'.log[|a.log|].path {
      assert Placed(a, a.log[k]);
      ScopePathFresh(a, s, k);
    }
    var p := a'.log[|a.log|].path;
    assert p[..|p| - 1] == scope.path;
    assert Placed(a', a'.log[|a.log|]);
    forall t: nat | t < |a'.scopes| ensures ScopeSound(a', t) {
      assert ScopeSound(a, t);
    }
  }

  lemma LimitsBefore(a: Alloc, e: Event)
    requires Enabled(a, e) && WithinLimits(Next(a, e))
    ensures WithinLimits(a)
  {
    forall s | 0 <= s < |a.scopes| ensures a.scopes[s].minted <= U64 {
      assert Next(a, e).scopes[s].minted >= a.scopes[s].minted;
    }
  }

  lemma {:induction false} RunKeeps(a: Alloc, es: seq<Event>)
    requires Valid(a, es) && Inv(a) && WithinLimits(Exec(a, es))
    ensures Inv(Exec(a, es)) && WithinLimits(a)
    decreases |es|
  {
    if es != [] {
      LimitsHeldBefore(Next(a, es[0]), es[1..]);
      LimitsBefore(a, es[0]);
      match es[0] {
        case MintRoot(true) => MintUpKeeps(a);
        case MintRoot(false) => MintDownKeeps(a);
        case Open(k) => OpenKeeps(a, k);
        case MintIn(s) => MintInKeeps(a, s);
      }
      RunKeeps(Next(a, es[0]), es[1..]);
    }
  }

  lemma {:induction false} LimitsHeldBefore(a: Alloc, es: seq<Event>)
    requires Valid(a, es) && WithinLimits(Exec(a, es))
    ensures WithinLimits(a)
    decreases |es|
  {
    if es != [] {
      LimitsHeldBefore(Next(a, es[0]), es[1..]);
      LimitsBefore(a, es[0]);
    }
  }

  ghost predicate AllDistinct(a: Alloc) {
    forall k, l | 0 <= k < l < |a.log| :: a.log[k].id != a.log[l].id
  }

  /** Main result: within the limits, all ids of a request are pairwise distinct strings. */
  lemma AllIdsDistinct(es: seq<Event>)
    requires Valid(Empty, es) && WithinLimits(Exec(Empty, es))
    ensures AllDistinct(Exec(Empty, es))
  {
    var a := Exec(Empty, es);
    RunKeeps(Empty, es);
    forall k, l | 0 <= k < l < |a.log| ensures a.log[k].id != a.log[l].id {
      assert Placed(a, a.log[k]) && Placed(a, a.log[l]);
      if a.log[k].id == a.log[l].id {
        RenderInjective(a.log[k].path, a.log[l].path);
      }
    }
  }

  // ---------- Independence of timing ----------

  /** The ids of one origin, in the order minted. */
  function IdsFrom(log: seq<Entry>, origin: Origin): seq<string> {
    if log == [] then []
    else IdsFrom(log[..|log| - 1], origin)
         + (if log[|log| - 1].origin == origin then [log[|log| - 1].id] else [])
  }

  lemma IdsFromSnoc(log: seq<Entry>, e: Entry, origin: Origin)
    ensures IdsFrom(log + [e], origin) == IdsFrom(log, origin) + (if e.origin == origin then [e.id] else [])
  {
    assert (log + [e])[..|log|] == log;
  }

  /** The ids any origin hands out are a fixed sequence. */
  function NthId(a: Alloc, origin: Origin, n: nat): string {
    match origin
    case RootUp => Decimal(UpValue(n))
    case RootDown => Decimal(DownValue(n))
    case InScope(s) => if s < |a.scopes| then Nested(a.scopes[s].parent, UpValue(n)) else ""
  }

  function Minted(a: Alloc, origin: Origin): nat {
    match origin
    case RootUp => a.up
    case RootDown => a.down
    case InScope(s) => if s < |a.scopes| then a.scopes[s].minted else 0
  }

  ghost predicate InStep(a: Alloc, origin: Origin) {
    var ids := IdsFrom(a.log, origin);
    |ids| == Minted(a, origin) && forall n: nat | n < |ids| :: ids[n] == NthId(a, origin, n)
  }

  /** Minting appends the next id of its own origin and leaves the other origins alone. */
  lemma MintInStep(a: Alloc, e: Event, origin: Origin)
    requires Enabled(a, e) && !e.Open? && InStep(a, origin)
    ensures InStep(Next(a, e), origin)
  {
    var (a', entry) := (Next(a, e), Next(a, e).log[|a.log|]);
    MintLogs(a, e);
    IdsFromSnoc(a.log, entry, origin);
    MintCounts(a, e, origin);
    NextInStep(a, a', IdsFrom(a.log, origin), if entry.origin == origin then [entry.id] else [], origin);
  }

  lemma MintLogs(a: Alloc, e: Event)
    requires Enabled(a, e) && !e.Open?
    ensures |Next(a, e).log| == |a.log| + 1 && Next(a, e).log == a.log + [Next(a, e).log[|a.log|]]
  {}

  lemma NextInStep(a: Alloc, a': Alloc, ids: seq<string>, more: seq<string>, origin: Origin)
    requires |more| <= 1 && (more != [] ==> more[0] == NthId(a, origin, |ids|))
    requires forall n: nat | n < |ids| :: ids[n] == NthId(a, origin, n)
    requires forall n: nat :: NthId(a', origin, n) == NthId(a, origin, n)
    ensures forall n: nat | n < |ids + more| :: (ids + more)[n] == NthId(a', origin, n)
  {}

  lemma MintCounts(a: Alloc, e: Event, origin: Origin)
    requires Enabled(a, e) && !e.Open?
    ensures var (a', entry) := (Next(a, e), Next(a, e).log[|a.log|]);
            && (entry.origin == origin ==> entry.id == NthId(a, origin, Minted(a, origin)))
            && Minted(a', origin) == Minted(a, origin) + (if entry.origin == origin then 1 else 0)
            && forall n: nat :: NthId(a', origin, n) == NthId(a, origin, n)
  {}

  lemma StepInStep(a: Alloc, e: Event, origin: Origin)
    requires Enabled(a, e) && InStep(a, origin)
    ensures InStep(Next(a, e), origin)
  {
    if !e.Open? {
      MintInStep(a, e, origin);
    }
  }

  /** In every run, whatever is interleaved, the `n`-th id of an origin is the same. */
  lemma {:induction false} KthIdFixed(a: Alloc, es: seq<Event>, origin: Origin)
    requires Valid(a, es) && InStep(a, origin)
    ensures InStep(Exec(a, es), origin)
    decreases |es|
  {
    if es != [] {
      StepInStep(a, es[0], origin);
      KthIdFixed(Next(a, es[0]), es[1..], origin);
    }
  }

  // An address says which mint of a root counter, then which mint in the scope opened on that id, and so on.

  /** Entry `k` is the one at `address`, counted from the upward or the downward root counter. */
  ghost predicate LivesAt(a: Alloc, address: seq<nat>, up: bool, k: nat)
    decreases |address|
  {
    && address != [] && k < |a.log|
    && |IdsFrom(a.log[..k], a.log[k].origin)| == address[|address| - 1]
    && match a.log[k].origin
       case RootUp => |address| == 1 && up
       case RootDown => |address| == 1 && !up
       case InScope(s) => s < |a.scopes| && LivesAt(a, address[..|address| - 1], up, a.scopes[s].openedOn)
  }

  /** The id of an address, whatever the run. */
  function IdAt(address: seq<nat>, up: bool): string
    requires address != []
    decreases |address|
  {
    var last := address[|address| - 1];
    if |address| == 1 then Decimal(if up then UpValue(last) else DownValue(last))
    else Nested(IdAt(address[..|address| - 1], up), UpValue(last))
  }

  /** An entry is the one of its origin that its position in the log says. */
  lemma {:induction false} EntryIsNth(log: seq<Entry>, k: nat)
    requires k < |log|
    ensures var (ids, n) := (IdsFrom(log, log[k].origin), |IdsFrom(log[..k], log[k].origin)|);
            n < |ids| && ids[n] == log[k].id
    decreases |log|
  {
    var init := log[..|log| - 1];
    if k == |log| - 1 {
      assert init == log[..k];
    } else {
      assert init[..k] == log[..k];
      EntryIsNth(init, k);
    }
  }

  ghost predicate ScopesSound(a: Alloc) {
    forall s: nat | s < |a.scopes| :: ScopeSound(a, s)
  }

  lemma StepKeepsScopes(a: Alloc, e: Event)
    requires Enabled(a, e) && ScopesSound(a)
    ensures ScopesSound(Next(a, e))
  {
    var a' := Next(a, e);
    forall s: nat | s < |a'.scopes| ensures ScopeSound(a', s) {
      assert s < |a.scopes| ==> ScopeSound(a, s);
    }
  }

  lemma {:induction false} RunKeepsScopes(a: Alloc, es: seq<Event>)
    requires Valid(a, es) && ScopesSound(a)
    ensures ScopesSound(Exec(a, es))
    decreases |es|
  {
    if es != [] {
      StepKeepsScopes(a, es[0]);
      RunKeepsScopes(Next(a, es[0]), es[1..]);
    }
  }

  /** In every run the entry at an address has the id of the address. */
  lemma {:induction false} IdFollowsAddress(es: seq<Event>, address: seq<nat>, up: bool, k: nat)
    requires Valid(Empty, es) && LivesAt(Exec(Empty, es), address, up, k)
    ensures Exec(Empty, es).log[k].id == IdAt(address, up)
    decreases |address|
  {
    var a := Exec(Empty, es);
    var origin := a.log[k].origin;
    KthIdFixed(Empty, es, origin);
    EntryIsNth(a.log, k);
    assert a.log[k].id == NthId(a, origin, address[|address| - 1]);
    if origin.InScope? {
      RunKeepsScopes(Empty, es);
      assert ScopeSound(a, origin.scope);
      IdFollowsAddress(es, address[..|address| - 1], up, a.scopes[origin.scope].openedOn);
    }
  }

  /** Any two interleavings give the same id to the same address, however the scopes take turns. */
  lemma TimingIndependent(es: seq<Event>, fs: seq<Event>, address: seq<nat>, up: bool, k: nat, l: nat)
    requires Valid(Empty, es) && Valid(Empty, fs)
    ensures LivesAt(Exec(Empty, es), address, up, k) && LivesAt(Exec(Empty, fs), address, up, l) ==>
              Exec(Empty, es).log[k].id == Exec(Empty, fs).log[l].id
  {
    if LivesAt(Exec(Empty, es), address, up, k) && LivesAt(Exec(Empty, fs), address, up, l) {
      IdFollowsAddress(es, address, up, k);
      IdFollowsAddress(fs, address, up, l);
    }
  }

  /** The first ids of the upward counter, and an id nested in a root id, as strings. */
  lemma FirstIds()
    ensures IdAt([0], true) == "0" && IdAt([3], true) == "3" && IdAt([3, 0], true) == "3-0"
  {
    assert [3, 0][..1] == [3];
  }

  /** The downward counter starts at the largest word. */
  lemma FirstDownId(n: nat)
    requires n == 0
    ensures IdAt([n], false) == "18446744073709551615"
  {
    var (a, b, c, d) := (n + 1844, n + 18446744, n + 184467440737, n + 1844674407370955);
    assert Decimal(1844) == "1844";
    WrittenOut(a, "1844", 6, 7, 4, 4);
    assert b == 10000 * a + 6744 && "1844" + "6744" == "18446744";
    WrittenOut(b, "18446744", 0, 7, 3, 7);
    assert c == 10000 * b + 737 && "18446744" + "0737" == "184467440737";
    WrittenOut(c, "184467440737", 0, 9, 5, 5);
    assert d == 10000 * c + 955 && "184467440737" + "0955" == "1844674407370955";
    WrittenOut(d, "1844674407370955", 1, 6, 1, 5);
    assert DownValue(n) == 10000 * d + 1615 && "1844674407370955" + "1615" == "18446744073709551615";
  }

  lemma WrittenOut(n: nat, s: string, a: nat, b: nat, c: nat, d: nat)
    requires n > 0 && Decimal(n) == s && a < 10 && b < 10 && c < 10 && d < 10
    ensures Decimal(10000 * n + 1000 * a + 100 * b + 10 * c + d) == s + [Digit(a), Digit(b), Digit(c), Digit(d)]
  {
    FourDigits(n, a, b, c, d);
  }

  lemma FourDigits(n: nat, a: nat, b: nat, c: nat, d: nat)
    requires n > 0 && a < 10 && b < 10 && c < 10 && d < 10
    ensures Decimal(10000 * n + 1000 * a + 100 * b + 10 * c + d)
         == Decimal(n) + [Digit(a), Digit(b), Digit(c), Digit(d)]
  {
    TwoDigits(n, a, b);
    TwoDigits(100 * n + 10 * a + b, c, d);
    assert Decimal(n) + [Digit(a), Digit(b)] + [Digit(c), Digit(d)]
        == Decimal(n) + [Digit(a), Digit(b), Digit(c), Digit(d)];
  }

  lemma TwoDigits(n: nat, a: nat, b: nat)
    requires n > 0 && a < 10 && b < 10
    ensures Decimal(100 * n + 10 * a + b) == Decimal(n) + [Digit(a), Digit(b)]
  {
    LastDigit(n, a);
    LastDigit(10 * n + a, b);
    assert Decimal(n) + [Digit(a)] + [Digit(b)] == Decimal(n) + [Digit(a), Digit(b)];
  }

  lemma LastDigit(n: nat, a: nat)
    requires n > 0 && a < 10
    ensures Decimal(10 * n + a) == Decimal(n) + [Digit(a)]
  {
    assert (10 * n + a) / 10 == n && (10 * n + a) % 10 == a;
  }

  /** Hydrating root ids do not depend on how many other ids are minted in between. */
  lemma HydratingIdsFixed(es: seq<Event>, n: nat)
    requires Valid(Empty, es) && n < Exec(Empty, es).up
    ensures var ids := IdsFrom(Exec(Empty, es).log, RootUp);
            |ids| == Exec(Empty, es).up && ids[n] == Decimal(UpValue(n))
  {
    KthIdFixed(Empty, es, RootUp);
  }

  // ---------- The limits are exact ----------

  /** The log entry behind the `m`-th id of an origin. */
  lemma {:induction false} EntryOf(log: seq<Entry>, origin: Origin, m: nat) returns (k: nat)
    requires m < |IdsFrom(log, origin)|
    ensures k < |log| && log[k].origin == origin && log[k].id == IdsFrom(log, origin)[m]
    ensures |IdsFrom(log[..k], origin)| == m
    decreases |log|
  {
    var front := log[..|log| - 1];
    if m < |IdsFrom(front, origin)| {
      k := EntryOf(front, origin, m);
      assert front[..k] == log[..k];
    } else {
      k := |log| - 1;
    }
  }

  lemma RepeatedId(a: Alloc, origin: Origin, m: nat, n: nat)
    requires InStep(a, origin) && m < n < Minted(a, origin) && NthId(a, origin, m) == NthId(a, origin, n)
    ensures !AllDistinct(a)
  {
    var k := EntryOf(a.log, origin, m);
    var l := EntryOf(a.log, origin, n);
    assert k != l;
    assert a.log[k].id == a.log[l].id;
  }

  lemma SharedRootId(a: Alloc)
    requires InStep(a, RootUp) && InStep(a, RootDown)
    requires a.up <= U64 && a.down <= U64 && a.up + a.down > U64
    ensures !AllDistinct(a)
  {
    var m: nat, n: nat := U64 - a.down, a.down - 1;
    assert UpValue(m) == DownValue(n);
    var k := EntryOf(a.log, RootUp, m);
    var l := EntryOf(a.log, RootDown, n);
    assert a.log[k].id == a.log[l].id && k != l;
  }

  /** Ids stay distinct exactly as long as no counter space is exhausted. */
  lemma DistinctExactlyWithinLimits(es: seq<Event>)
    requires Valid(Empty, es)
    ensures AllDistinct(Exec(Empty, es)) <==> WithinLimits(Exec(Empty, es))
  {
    var a := Exec(Empty, es);
    KthIdFixed(Empty, es, RootUp);
    KthIdFixed(Empty, es, RootDown);
    assert UpValue(0) == UpValue(U64) && DownValue(0) == DownValue(U64);
    if WithinLimits(a) {
      AllIdsDistinct(es);
    } else if a.up > U64 {
      RepeatedId(a, RootUp, 0, U64);
    } else if a.down > U64 {
      RepeatedId(a, RootDown, 0, U64);
    } else if a.up + a.down > U64 {
      SharedRootId(a);
    } else {
      var s :| 0 <= s < |a.scopes| && a.scopes[s].minted > U64;
      KthIdFixed(Empty, es, InScope(s));
      RepeatedId(a, InScope(s), 0, U64);
    }
  }
}
