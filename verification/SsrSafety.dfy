/**
 What holds of the data stream in every reachable state: futures are conserved, the client
 sees every id announced before it is resolved, markers arrive once and in order, and every
 registered error has exactly one fate.
 */
module SsrSafety {
  import opened SsrRun

  // ---------- Futures ----------

  function Keys(s: seq<(Id, Fut)>): seq<Id> {
    seq(|s|, k requires 0 <= k < |s| => s[k].0)
  }

  function IdsOf(s: seq<(Id, Fut)>): multiset<Id> {
    multiset(Keys(s))
  }

  lemma IdsConcat(a: seq<(Id, Fut)>, b: seq<(Id, Fut)>)
    ensures IdsOf(a + b) == IdsOf(a) + IdsOf(b)
  {
    assert Keys(a + b) == Keys(a) + Keys(b);
  }

  lemma IdsRemove(s: seq<(Id, Fut)>, k: nat)
    requires k < |s|
    ensures IdsOf(s) == IdsOf(s[..k] + s[k + 1..]) + multiset{s[k].0}
  {
    var ids := Keys(s);
    assert ids == ids[..k] + [ids[k]] + ids[k + 1..];
    assert Keys(s[..k] + s[k + 1..]) == ids[..k] + ids[k + 1..];
  }

  lemma IdsOfOne(p: (Id, Fut))
    ensures IdsOf([p]) == multiset{p.0}
  {
    assert Keys([p]) == [p.0];
  }

  lemma IdsReplace(s: seq<(Id, Fut)>, k: nat, fut: Fut)
    requires k < |s|
    ensures IdsOf(s[k := (s[k].0, fut)]) == IdsOf(s)
  {
    assert Keys(s[k := (s[k].0, fut)]) == Keys(s);
  }

  function ResolvedIds(out: seq<Cmd>): multiset<Id> {
    if out == [] then multiset{}
    else ResolvedIds(out[..|out| - 1])
         + (if out[|out| - 1].Resolve? then multiset{out[|out| - 1].id} else multiset{})
  }

  lemma {:induction false} ResolvedConcat(a: seq<Cmd>, b: seq<Cmd>)
    ensures ResolvedIds(a + b) == ResolvedIds(a) + ResolvedIds(b)
    decreases |b|
  {
    if b == [] {
      assert a + b == a;
    } else {
      assert (a + b)[..|a + b| - 1] == a + b[..|b| - 1];
      ResolvedConcat(a, b[..|b| - 1]);
    }
  }

  lemma {:induction false} MarkersResolveNothing(ids: seq<Id>)
    ensures ResolvedIds(MarkerPushes(ids)) == multiset{}
    decreases |ids|
  {
    if ids != [] {
      ResolvedConcat([PushIncomplete(ids[0])], MarkerPushes(ids[1..]));
      MarkersResolveNothing(ids[1..]);
    }
  }

  lemma {:induction false} ErrorsResolveNothing(errors: seq<Error>, sealed: set<Id>)
    ensures ResolvedIds(ErrorPushes(errors, sealed)) == multiset{}
    decreases |errors|
  {
    if errors != [] {
      var first := if errors[0].boundary in sealed then [] else [PushError(errors[0])];
      ResolvedConcat(first, ErrorPushes(errors[1..], sealed));
      ErrorsResolveNothing(errors[1..], sealed);
    }
  }

  lemma AnnounceResolves(id: Id, data: string, snapshot: set<Id>)
    ensures ResolvedIds(Announce(id, data, snapshot)) == multiset{id}
  {
    ResolvedConcat(if id in snapshot then [] else [PushPending(id)], [Resolve(id, data)]);
  }

  function InFlight(r: Run): seq<(Id, Fut)> {
    if r.phase.Live? then r.phase.inFlight else []
  }

  /** Every registered future is staged, in flight, or resolved: as often as it was registered. */
  ghost predicate FuturesConserved(r: Run) {
    multiset(r.log.registered) == IdsOf(r.ctx.asyncBuf) + IdsOf(InFlight(r)) + ResolvedIds(r.out)
  }

  // ---------- What effects leave alone ----------

  /** Effects only add to the context and its history. */
  lemma {:induction false} EffectsOnly(r: Run, es: seq<Effect>)
    ensures var r' := PerformAll(r, es);
            && r'.phase == r.phase && r'.out == r.out && r'.log.fates == r.log.fates
            && r.ctx.incomplete <= r'.ctx.incomplete && r.ctx.sealed <= r'.ctx.sealed
            && r.log.registered <= r'.log.registered
    decreases |es|
  {
    if es != [] {
      EffectsOnly(Perform(r, es[0]), es[1..]);
    }
  }

  lemma EffectConservesFutures(r: Run, e: Effect)
    requires FuturesConserved(r)
    ensures FuturesConserved(Perform(r, e))
  {
    if e.WriteAsync? {
      IdsConcat(r.ctx.asyncBuf, [(e.id, e.fut)]);
      IdsOfOne((e.id, e.fut));
    }
  }

  lemma {:induction false} EffectsConserveFutures(r: Run, es: seq<Effect>)
    requires FuturesConserved(r)
    ensures FuturesConserved(PerformAll(r, es))
    decreases |es|
  {
    if es != [] {
      EffectConservesFutures(r, es[0]);
      EffectsConserveFutures(Perform(r, es[0]), es[1..]);
    }
  }

  lemma SilentStepConserves(r: Run, r': Run, cmds: seq<Cmd>)
    requires FuturesConserved(r) && r'.out == r.out + cmds && ResolvedIds(cmds) == multiset{}
    requires r'.log.registered == r.log.registered
    requires r'.ctx.asyncBuf == r.ctx.asyncBuf && InFlight(r') == InFlight(r)
    ensures FuturesConserved(r')
  {
    ResolvedConcat(r.out, cmds);
  }

  lemma StageConserves(r: Run)
    requires FuturesConserved(r) && r.phase.Live?
    ensures FuturesConserved(Next(r, Stage))
  {
    IdsConcat(r.phase.inFlight, r.ctx.asyncBuf);
  }

  lemma SnapshotConserves(r: Run)
    requires FuturesConserved(r) && r.phase.Idle?
    ensures FuturesConserved(Next(r, Snapshot))
  {
    var init := Next(r, Snapshot).out[|r.out|];
    assert ResolvedIds([init]) == multiset{} by { assert [init][..0] == []; }
    SilentStepConserves(r, Next(r, Snapshot), [init]);
  }

  lemma StepConservesFutures(r: Run, s: Step)
    requires Enabled(r, s) && FuturesConserved(r)
    ensures FuturesConserved(Next(r, s))
  {
    match s
    case External(e) => EffectConservesFutures(r, e);
    case Snapshot => SnapshotConserves(r);
    case Stage => StageConserves(r);
    case Poll(k) => PollConservesFutures(r, k);
    case DrainErrors => DrainConservesFutures(r);
    case End =>
    case FlushMarkers => MarkersConserveFutures(r, s);
    case Tail => MarkersConserveFutures(r, s);
  }

  lemma DrainConservesFutures(r: Run)
    requires r.phase.Live? && FuturesConserved(r)
    ensures FuturesConserved(Next(r, DrainErrors))
  {
    ErrorsResolveNothing(r.ctx.errors, r.ctx.sealed);
    SilentStepConserves(r, Next(r, DrainErrors), ErrorPushes(r.ctx.errors, r.ctx.sealed));
  }

  lemma MarkersConserveFutures(r: Run, s: Step)
    requires Enabled(r, s) && (s.FlushMarkers? || s.Tail?) && FuturesConserved(r)
    ensures FuturesConserved(Next(r, s))
  {
    var ids := r.ctx.incomplete[r.phase.cursor..];
    MarkersResolveNothing(ids);
    SilentStepConserves(r, Next(r, s), MarkerPushes(ids));
  }

  lemma PollConservesFutures(r: Run, k: nat)
    requires Enabled(r, Poll(k)) && FuturesConserved(r)
    ensures FuturesConserved(PollFuture(r, k))
  {
    var (id, fut) := r.phase.inFlight[k];
    EffectsOnly(r, fut.effects);
    EffectsConserveFutures(r, fut.effects);
    if fut.Ready? {
      IdsRemove(r.phase.inFlight, k);
      ResolvedConcat(r.out, Announce(id, fut.data, r.phase.snapshot));
      AnnounceResolves(id, fut.data, r.phase.snapshot);
    } else {
      IdsReplace(r.phase.inFlight, k, fut.next);
    }
  }

  // ---------- Announcements ----------

  function SnapshotOf(r: Run): set<Id> {
    if r.phase.Idle? then {} else r.phase.snapshot
  }

  /** No id is resolved before it is pending; pending are the snapshot and the resolved ids, nothing else. */
  ghost predicate AnnouncedFirst(r: Run) {
    && ClientOf(r).unannounced == 0
    && (r.phase.Idle? ==> r.out == [])
    && ClientOf(r).resolved.Keys == (set id | id in ResolvedIds(r.out))
    && (forall id :: id in ClientOf(r).pending <==> id in SnapshotOf(r) || id in ResolvedIds(r.out))
    && (forall k | 0 <= k < |r.out| && r.out[k].PushPending? :: r.out[k].id !in SnapshotOf(r))
  }

  /** A client never sees an announcement of an id it already has, if no id was registered twice. */
  ghost predicate AnnouncedOnce(r: Run) {
    (forall id :: multiset(r.log.registered)[id] <= 1) ==> ClientOf(r).repeated == 0
  }

  /** Commands that neither announce nor resolve. */
  ghost predicate Plain(cmds: seq<Cmd>) {
    forall k | 0 <= k < |cmds| :: cmds[k].PushIncomplete? || cmds[k].PushError?
  }

  lemma {:induction false} PlainReplay(c: Client, cmds: seq<Cmd>)
    requires Plain(cmds)
    ensures var c' := Replay(c, cmds);
            && c'.pending == c.pending && c'.resolved == c.resolved
            && c'.unannounced == c.unannounced && c'.repeated == c.repeated
    ensures ResolvedIds(cmds) == multiset{}
    decreases |cmds|
  {
    if cmds != [] {
      PlainReplay(Receive(c, cmds[0]), cmds[1..]);
      assert cmds == [cmds[0]] + cmds[1..];
      ResolvedConcat([cmds[0]], cmds[1..]);
    }
  }

  lemma PlainKeepsAnnouncements(r: Run, r': Run, cmds: seq<Cmd>)
    requires AnnouncedFirst(r) && AnnouncedOnce(r) && Plain(cmds)
    requires r'.out == r.out + cmds && SnapshotOf(r') == SnapshotOf(r)
    requires (r'.phase.Idle? ==> r.phase.Idle? && cmds == []) && r.log.registered <= r'.log.registered
    ensures AnnouncedFirst(r') && AnnouncedOnce(r')
  {
    ReplayConcat(Blank, r.out, cmds);
    PlainReplay(ClientOf(r), cmds);
    ResolvedConcat(r.out, cmds);
    RegisteredGrows(r.log.registered, r'.log.registered);
  }

  lemma RegisteredGrows(a: seq<Id>, b: seq<Id>)
    requires a <= b
    ensures multiset(a) <= multiset(b)
  {
    assert b == a + b[|a|..];
  }

  lemma {:induction false} ErrorPushesPlain(errors: seq<Error>, sealed: set<Id>)
    ensures Plain(ErrorPushes(errors, sealed))
    decreases |errors|
  {
    if errors != [] {
      ErrorPushesPlain(errors[1..], sealed);
    }
  }

  lemma {:induction false} MarkerPushesPlain(ids: seq<Id>)
    ensures Plain(MarkerPushes(ids))
    decreases |ids|
  {
    if ids != [] {
      MarkerPushesPlain(ids[1..]);
    }
  }

  lemma SnapshotAnnounces(r: Run)
    requires r.phase.Idle? && AnnouncedFirst(r) && AnnouncedOnce(r)
    ensures AnnouncedFirst(Next(r, Snapshot)) && AnnouncedOnce(Next(r, Snapshot))
  {
    var r' := Next(r, Snapshot);
    assert r'.out == [r'.out[0]];
    ReplayOne(Blank, r'.out[0]);
    assert ResolvedIds(r'.out) == multiset{} by { assert r'.out[..0] == []; }
  }

  lemma StepKeepsAnnouncements(r: Run, s: Step)
    requires Enabled(r, s) && FuturesConserved(r) && AnnouncedFirst(r) && AnnouncedOnce(r)
    ensures AnnouncedFirst(Next(r, s)) && AnnouncedOnce(Next(r, s))
  {
    match s
    case Snapshot => SnapshotAnnounces(r);
    case Poll(k) => PollKeepsAnnouncements(r, k);
    case DrainErrors => ErrorsKeepAnnouncements(r);
    case FlushMarkers => MarkersKeepAnnouncements(r, s);
    case Tail => MarkersKeepAnnouncements(r, s);
    case _ => QuietKeepsAnnouncements(r, s);
  }

  lemma QuietKeepsAnnouncements(r: Run, s: Step)
    requires Enabled(r, s) && (s.External? || s.Stage? || s.End?) && AnnouncedFirst(r) && AnnouncedOnce(r)
    ensures AnnouncedFirst(Next(r, s)) && AnnouncedOnce(Next(r, s))
  {
    QuietStep(r, s);
    PlainKeepsAnnouncements(r, Next(r, s), []);
  }

  lemma QuietStep(r: Run, s: Step)
    requires Enabled(r, s) && (s.External? || s.Stage? || s.End?)
    ensures var r' := Next(r, s);
            && r'.out == r.out + [] && SnapshotOf(r') == SnapshotOf(r) && (r'.phase.Idle? ==> r.phase.Idle?)
            && r.log.registered <= r'.log.registered
  {
    assert r.out == r.out + [];
  }

  lemma ErrorsKeepAnnouncements(r: Run)
    requires r.phase.Live? && AnnouncedFirst(r) && AnnouncedOnce(r)
    ensures AnnouncedFirst(Next(r, DrainErrors)) && AnnouncedOnce(Next(r, DrainErrors))
  {
    ErrorPushesPlain(r.ctx.errors, r.ctx.sealed);
    PlainKeepsAnnouncements(r, Next(r, DrainErrors), ErrorPushes(r.ctx.errors, r.ctx.sealed));
  }

  lemma MarkersKeepAnnouncements(r: Run, s: Step)
    requires Enabled(r, s) && (s.FlushMarkers? || s.Tail?) && AnnouncedFirst(r) && AnnouncedOnce(r)
    ensures AnnouncedFirst(Next(r, s)) && AnnouncedOnce(Next(r, s))
  {
    var ids := r.ctx.incomplete[r.phase.cursor..];
    MarkerPushesPlain(ids);
    PlainKeepsAnnouncements(r, Next(r, s), MarkerPushes(ids));
  }

  lemma PollKeepsAnnouncements(r: Run, k: nat)
    requires Enabled(r, Poll(k)) && FuturesConserved(r) && AnnouncedFirst(r) && AnnouncedOnce(r)
    ensures AnnouncedFirst(PollFuture(r, k)) && AnnouncedOnce(PollFuture(r, k))
  {
    var r' := PollFuture(r, k);
    var (id, fut) := r.phase.inFlight[k];
    EffectsOnly(r, fut.effects);
    if fut.Pending? {
      assert r.out == r.out + [];
      PlainKeepsAnnouncements(r, r', []);
    } else {
      ResolutionAnnounced(r, r', k, id, fut.data);
    }
  }

  lemma AnnounceReplayed(c: Client, id: Id, data: string, snapshot: set<Id>)
    requires snapshot <= c.pending
    ensures var c' := Replay(c, Announce(id, data, snapshot));
            && c'.pending == c.pending + {id} && c'.resolved == c.resolved[id := data]
            && c'.unannounced == c.unannounced
            && c'.repeated == c.repeated + (if id in c.pending && id !in snapshot then 1 else 0)
  {
    var first := if id in snapshot then [] else [PushPending(id)];
    ReplayConcat(c, first, [Resolve(id, data)]);
    assert c.pending + {id} == if id in snapshot then c.pending else c.pending + {id};
  }

  lemma ResolutionAnnounced(r: Run, r': Run, k: nat, id: Id, data: string)
    requires r.phase.Live? && k < |r.phase.inFlight| && r.phase.inFlight[k].0 == id
    requires FuturesConserved(r) && AnnouncedFirst(r) && AnnouncedOnce(r)
    requires r'.phase.Live? && r'.phase.snapshot == r.phase.snapshot
    requires r.log.registered <= r'.log.registered
    requires r'.out == r.out + Announce(id, data, r.phase.snapshot)
    ensures AnnouncedFirst(r') && AnnouncedOnce(r')
  {
    AnnounceFirstKept(r, r', id, data);
    ReplayConcat(Blank, r.out, Announce(id, data, r.phase.snapshot));
    AnnounceReplayed(ClientOf(r), id, data, r.phase.snapshot);
    RegisteredGrows(r.log.registered, r'.log.registered);
    if id in ResolvedIds(r.out) {
      ResolvedTwiceRegisteredTwice(r, k);
    }
  }

  lemma AnnounceFirstKept(r: Run, r': Run, id: Id, data: string)
    requires r.phase.Live? && AnnouncedFirst(r) && r'.phase.Live? && r'.phase.snapshot == r.phase.snapshot
    requires r'.out == r.out + Announce(id, data, r.phase.snapshot)
    ensures AnnouncedFirst(r')
  {
    ReplayConcat(Blank, r.out, Announce(id, data, r.phase.snapshot));
    AnnounceReplayed(ClientOf(r), id, data, r.phase.snapshot);
    AnnounceAdds(r.out, id, data, r.phase.snapshot);
  }

  lemma AnnounceAdds(out: seq<Cmd>, id: Id, data: string, snapshot: set<Id>)
    ensures forall x :: x in ResolvedIds(out + Announce(id, data, snapshot)) <==> x in ResolvedIds(out) || x == id
  {
    ResolvedConcat(out, Announce(id, data, snapshot));
    AnnounceResolves(id, data, snapshot);
  }

  /** An id that is both resolved and in flight was registered twice. */
  lemma ResolvedTwiceRegisteredTwice(r: Run, k: nat)
    requires FuturesConserved(r) && r.phase.Live? && k < |r.phase.inFlight|
    requires r.phase.inFlight[k].0 in ResolvedIds(r.out)
    ensures multiset(r.log.registered)[r.phase.inFlight[k].0] >= 2
  {
    IdsRemove(r.phase.inFlight, k);
  }

  // ---------- Markers ----------

  /** The client's markers are the server's up to the cursor. */
  ghost predicate MarkersInOrder(r: Run) {
    match r.phase
    case Idle => r.out == []
    case Live(_, cursor, _) => cursor <= |r.ctx.incomplete| && ClientOf(r).incomplete == r.ctx.incomplete[..cursor]
    case Ended(cursor, _) => cursor <= |r.ctx.incomplete| && ClientOf(r).incomplete == r.ctx.incomplete[..cursor]
    case Closed(_) => ClientOf(r).incomplete <= r.ctx.incomplete
  }

  /** Errors taken so far, in order, followed by those still buffered, are the registered ones. */
  ghost predicate ErrorsConserved(r: Run) {
    && r.log.reported == Taken(r.log.fates) + r.ctx.errors
    && ClientOf(r).errors == Delivered(r.log.fates)
    && (forall k | 0 <= k < |r.log.fates| && r.log.fates[k].1 == Dropped :: r.log.fates[k].0.boundary in r.ctx.sealed)
    && (r.phase.Idle? ==> r.out == [] && r.log.fates == [])
  }

  function Taken(fates: seq<(Error, Fate)>): seq<Error> {
    seq(|fates|, k requires 0 <= k < |fates| => fates[k].0)
  }

  lemma {:induction false} EffectsConserveErrors(r: Run, es: seq<Effect>)
    requires ErrorsConserved(r)
    ensures ErrorsConserved(PerformAll(r, es))
    decreases |es|
  {
    if es != [] {
      assert ErrorsConserved(Perform(r, es[0]));
      EffectsConserveErrors(Perform(r, es[0]), es[1..]);
    }
  }

  lemma {:induction false} OutsideErrors(c: Client, cmds: seq<Cmd>)
    requires forall k | 0 <= k < |cmds| :: cmds[k].PushPending? || cmds[k].Resolve?
    ensures Replay(c, cmds).errors == c.errors && Replay(c, cmds).incomplete == c.incomplete
    decreases |cmds|
  {
    if cmds != [] {
      OutsideErrors(Receive(c, cmds[0]), cmds[1..]);
    }
  }

  lemma StepConservesErrors(r: Run, s: Step)
    requires Enabled(r, s) && ErrorsConserved(r)
    ensures ErrorsConserved(Next(r, s))
  {
    var r' := Next(r, s);
    match s
    case External(e) =>
      EffectsConserveErrors(r, [e]);
      assert PerformAll(r, [e]) == r';
    case Snapshot => SnapshotConservesErrors(r);
    case Poll(k) => PollConservesErrors(r, k);
    case DrainErrors => DrainConservesErrors(r);
    case FlushMarkers => MarkersFlushed(r, s);
    case Tail => MarkersFlushed(r, s);
    case _ =>
  }

  lemma SnapshotConservesErrors(r: Run)
    requires r.phase.Idle? && ErrorsConserved(r)
    ensures ErrorsConserved(Next(r, Snapshot))
  {
    var init := Init(set p | p in r.ctx.asyncBuf :: p.0, r.ctx.incomplete, r.ctx.errors);
    InitialTaken(r.ctx.errors);
    InitialErrorsDelivered(r.ctx.errors);
    FirstOutput(r.out, init);
    ReplayOne(Blank, init);
    FirstFates(r.log.fates, WithFate(r.ctx.errors, InInitialChunk));
    assert Taken([]) == [] && r.log.reported == Taken([]) + r.ctx.errors;
    NoneTaken(r.ctx.errors);
  }

  lemma InitialTaken(errors: seq<Error>)
    ensures Taken(WithFate(errors, InInitialChunk)) + [] == errors
  {}

  lemma NoneTaken(errors: seq<Error>)
    ensures [] + errors == errors
  {}

  lemma FirstOutput(out: seq<Cmd>, cmd: Cmd)
    requires out == []
    ensures out + [cmd] == [cmd]
  {}

  lemma FirstFates(fates: seq<(Error, Fate)>, more: seq<(Error, Fate)>)
    requires fates == []
    ensures fates + more == more
  {}

  lemma DrainConservesErrors(r: Run)
    requires r.phase.Live? && ErrorsConserved(r)
    ensures ErrorsConserved(Next(r, DrainErrors))
  {
    var sorted := Sort(r.ctx.errors, r.ctx.sealed);
    DrainReplayed(r);
    DeliveredConcat(r.log.fates, sorted);
    assert Taken(r.log.fates + sorted) + [] == Taken(r.log.fates) + r.ctx.errors;
  }

  lemma DrainReplayed(r: Run)
    requires r.phase.Live?
    ensures ClientOf(Next(r, DrainErrors))
         == ClientOf(r).(errors := ClientOf(r).errors + Delivered(Sort(r.ctx.errors, r.ctx.sealed)))
  {
    ReplayConcat(Blank, r.out, ErrorPushes(r.ctx.errors, r.ctx.sealed));
    ErrorsReplayed(ClientOf(r), r.ctx.errors, r.ctx.sealed);
  }

  /** Flushing hands the client exactly the markers past the cursor. */
  lemma MarkersFlushed(r: Run, s: Step)
    requires Enabled(r, s) && (s.FlushMarkers? || s.Tail?)
    ensures ClientOf(Next(r, s))
         == ClientOf(r).(incomplete := ClientOf(r).incomplete + r.ctx.incomplete[r.phase.cursor..])
  {
    var ids := r.ctx.incomplete[r.phase.cursor..];
    ReplayConcat(Blank, r.out, MarkerPushes(ids));
    MarkersReplayed(ClientOf(r), ids);
  }

  lemma PollConservesErrors(r: Run, k: nat)
    requires Enabled(r, Poll(k)) && ErrorsConserved(r)
    ensures ErrorsConserved(PollFuture(r, k))
  {
    var (id, fut) := r.phase.inFlight[k];
    EffectsOnly(r, fut.effects);
    EffectsConserveErrors(r, fut.effects);
    if fut.Ready? {
      ReplayConcat(Blank, r.out, Announce(id, fut.data, r.phase.snapshot));
      OutsideErrors(ClientOf(r), Announce(id, fut.data, r.phase.snapshot));
    }
  }

  lemma StepKeepsMarkers(r: Run, s: Step)
    requires Enabled(r, s) && MarkersInOrder(r)
    ensures MarkersInOrder(Next(r, s))
    ensures s.Tail? ==> ClientOf(Next(r, s)).incomplete == Next(r, s).ctx.incomplete
  {
    var r' := Next(r, s);
    match s
    case External(e) =>
      EffectsOnly(r, [e]);
      assert PerformAll(r, [e]) == r';
    case Snapshot =>
      assert r'.out == [r'.out[0]];
      ReplayOne(Blank, r'.out[0]);
    case Poll(k) =>
      var (id, fut) := r.phase.inFlight[k];
      EffectsOnly(r, fut.effects);
      if fut.Ready? {
        ReplayConcat(Blank, r.out, Announce(id, fut.data, r.phase.snapshot));
        OutsideErrors(ClientOf(r), Announce(id, fut.data, r.phase.snapshot));
      }
    case DrainErrors => DrainReplayed(r);
    case FlushMarkers => MarkersFlushed(r, s);
    case Tail => MarkersFlushed(r, s);
    case _ =>
  }

  // ---------- Whole runs ----------

  ghost predicate Safe(r: Run) {
    FuturesConserved(r) && AnnouncedFirst(r) && AnnouncedOnce(r) && MarkersInOrder(r) && ErrorsConserved(r)
  }

  lemma StepSafe(r: Run, s: Step)
    requires Enabled(r, s) && Safe(r)
    ensures Safe(Next(r, s))
  {
    StepConservesFutures(r, s);
    StepKeepsAnnouncements(r, s);
    StepKeepsMarkers(r, s);
    StepConservesErrors(r, s);
  }

  lemma {:induction false} RunSafe(r: Run, steps: seq<Step>)
    requires Valid(r, steps) && Safe(r)
    ensures Safe(Exec(r, steps))
    decreases |steps|
  {
    if steps != [] {
      StepSafe(r, steps[0]);
      RunSafe(Next(r, steps[0]), steps[1..]);
    }
  }

  /** Main result: every interleaving of registrations and stream sections is safe throughout. */
  lemma EveryRunSafe(steps: seq<Step>)
    requires Valid(Start, steps)
    ensures Safe(Exec(Start, steps))
  {
    RunSafe(Start, steps);
  }

  // ---------- Consequences ----------

  /** When the stream ends, every future registered by then has been resolved, each as often as registered. */
  lemma EndResolvesAll(r: Run)
    requires Safe(r) && Enabled(r, End)
    ensures ResolvedIds(r.out) == multiset(r.log.registered)
    ensures ClientOf(r).resolved.Keys == set id | id in r.log.registered
  {
    assert forall id :: id in multiset(r.log.registered) <==> id in r.log.registered;
  }

  /** Once a boundary is sealed and the snapshot is out, none of its errors is streamed any more. */
  lemma {:induction false} SealedStaysSilent(r: Run, steps: seq<Step>, boundary: Id)
    requires Valid(r, steps) && !r.phase.Idle? && boundary in r.ctx.sealed
    ensures r.out <= Exec(r, steps).out
    ensures forall k | |r.out| <= k < |Exec(r, steps).out| && Exec(r, steps).out[k].PushError? ::
              Exec(r, steps).out[k].error.boundary != boundary
    decreases |steps|
  {
    if steps != [] {
      StepSilent(r, steps[0], boundary);
      SealedStaysSilent(Next(r, steps[0]), steps[1..], boundary);
    }
  }

  lemma {:induction false} ErrorPushesUnsealed(errors: seq<Error>, sealed: set<Id>)
    ensures forall k | 0 <= k < |ErrorPushes(errors, sealed)| ::
              ErrorPushes(errors, sealed)[k].PushError? && ErrorPushes(errors, sealed)[k].error.boundary !in sealed
    decreases |errors|
  {
    if errors != [] {
      ErrorPushesUnsealed(errors[1..], sealed);
    }
  }

  lemma {:induction false} MarkerPushesOnly(ids: seq<Id>)
    ensures forall k | 0 <= k < |MarkerPushes(ids)| :: MarkerPushes(ids)[k].PushIncomplete?
    decreases |ids|
  {
    if ids != [] {
      MarkerPushesOnly(ids[1..]);
    }
  }

  lemma StepSilent(r: Run, s: Step, boundary: Id)
    requires Enabled(r, s) && !r.phase.Idle? && boundary in r.ctx.sealed
    ensures !Next(r, s).phase.Idle? && boundary in Next(r, s).ctx.sealed && r.out <= Next(r, s).out
    ensures forall k | |r.out| <= k < |Next(r, s).out| && Next(r, s).out[k].PushError? ::
              Next(r, s).out[k].error.boundary != boundary
  {
    match s
    case Poll(k) => EffectsOnly(r, r.phase.inFlight[k].1.effects);
    case DrainErrors => ErrorPushesUnsealed(r.ctx.errors, r.ctx.sealed);
    case FlushMarkers => MarkerPushesOnly(r.ctx.incomplete[r.phase.cursor..]);
    case Tail => MarkerPushesOnly(r.ctx.incomplete[r.phase.cursor..]);
    case _ =>
  }
}
