/**
 The shared context and `AsyncDataStream::poll_next` as the loops they are. Every call is
 shown to be a run of the step system, and to terminate because each poll uses up one node
 of a finite future.
 */
module SsrStream {
  import opened Basics
  import opened SsrRun
  import opened SsrSafety

  // ---------- Remaining work ----------

  /** Polls left in a future and in everything it will register. */
  function FutSize(f: Fut): nat
    decreases f
  {
    match f
    case Ready(es, _) => 1 + EffectsSize(es)
    case Pending(es, _, next) => 1 + EffectsSize(es) + FutSize(next)
  }

  function EffectsSize(es: seq<Effect>): nat
    decreases es
  {
    if es == [] then 0
    else (match es[0] case WriteAsync(_, f) => FutSize(f) case _ => 0) + EffectsSize(es[1..])
  }

  function Work(s: seq<(Id, Fut)>): nat {
    if s == [] then 0 else Work(s[..|s| - 1]) + FutSize(s[|s| - 1].1)
  }

  function TotalWork(r: Run): nat {
    Work(r.ctx.asyncBuf) + Work(InFlight(r))
  }

  lemma {:induction false} WorkConcat(a: seq<(Id, Fut)>, b: seq<(Id, Fut)>)
    ensures Work(a + b) == Work(a) + Work(b)
    decreases |b|
  {
    if b == [] {
      assert a + b == a;
    } else {
      assert (a + b)[..|a + b| - 1] == a + b[..|b| - 1];
      WorkConcat(a, b[..|b| - 1]);
    }
  }

  lemma WorkOfOne(p: (Id, Fut))
    ensures Work([p]) == FutSize(p.1)
  {
    assert [p][..0] == [];
  }

  lemma {:induction false} WorkRemove(s: seq<(Id, Fut)>, k: nat)
    requires k < |s|
    ensures Work(s) == Work(s[..k] + s[k + 1..]) + FutSize(s[k].1)
    decreases |s|
  {
    var (init, without) := (s[..|s| - 1], s[..k] + s[k + 1..]);
    if k == |s| - 1 {
      assert without == init;
    } else {
      assert without[..|without| - 1] == init[..k] + init[k + 1..];
      WorkRemove(init, k);
    }
  }

  lemma WorkReplace(s: seq<(Id, Fut)>, k: nat, fut: Fut)
    requires k < |s|
    ensures Work(s[k := (s[k].0, fut)]) + FutSize(s[k].1) == Work(s) + FutSize(fut)
  {
    var s' := s[k := (s[k].0, fut)];
    WorkRemove(s, k);
    WorkRemove(s', k);
    assert s'[..k] + s'[k + 1..] == s[..k] + s[k + 1..];
  }

  lemma {:induction false} EffectsAddWork(r: Run, es: seq<Effect>)
    ensures Work(PerformAll(r, es).ctx.asyncBuf) == Work(r.ctx.asyncBuf) + EffectsSize(es)
    decreases |es|
  {
    if es != [] {
      EffectsAddWork(Perform(r, es[0]), es[1..]);
      if es[0].WriteAsync? {
        WorkConcat(r.ctx.asyncBuf, [(es[0].id, es[0].fut)]);
        WorkOfOne((es[0].id, es[0].fut));
      }
    }
  }

  /** Every poll uses up exactly one unit of work. */
  lemma PollUsesOne(r: Run, k: nat)
    requires Enabled(r, Poll(k))
    ensures TotalWork(PollFuture(r, k)) + 1 == TotalWork(r)
  {
    var (id, fut) := r.phase.inFlight[k];
    EffectsAddWork(r, fut.effects);
    EffectsOnly(r, fut.effects);
    if fut.Ready? {
      WorkRemove(r.phase.inFlight, k);
    } else {
      WorkReplace(r.phase.inFlight, k, fut.next);
    }
  }

  function Polls(steps: seq<Step>): nat {
    if steps == [] then 0 else (if steps[0].Poll? then 1 else 0) + Polls(steps[1..])
  }

  function Registered(steps: seq<Step>): nat {
    if steps == [] then 0
    else (if steps[0].External? then EffectsSize([steps[0].effect]) else 0) + Registered(steps[1..])
  }

  lemma StepWork(r: Run, s: Step)
    requires Enabled(r, s)
    ensures TotalWork(Next(r, s)) + Polls([s]) == TotalWork(r) + Registered([s])
  {
    assert [s][1..] == [];
    match s
    case External(e) =>
      EffectsAddWork(r, [e]);
      assert PerformAll(r, [e]) == Perform(r, e);
    case Stage => WorkConcat(r.phase.inFlight, r.ctx.asyncBuf);
    case Poll(k) => PollUsesOne(r, k);
    case _ =>
  }

  /** Over any run, polls made plus work left is the work brought in from outside. */
  lemma {:induction false} PollBudget(r: Run, steps: seq<Step>)
    requires Valid(r, steps)
    ensures Polls(steps) + TotalWork(Exec(r, steps)) == TotalWork(r) + Registered(steps)
    decreases |steps|
  {
    if steps != [] {
      StepWork(r, steps[0]);
      assert [steps[0]][1..] == [];
      PollBudget(Next(r, steps[0]), steps[1..]);
    }
  }

  // ---------- The shared context ----------

  class SsrSharedContext {
    var asyncBuf: seq<(Id, Fut)>
    var errors: seq<Error>
    var sealed: set<Id>
    var incomplete: seq<Id>

    constructor ()
      ensures Value() == Start.ctx
    {
      asyncBuf, errors, sealed, incomplete := [], [], {}, [];
    }

    ghost function Value(): Ctx
      reads this
    {
      Ctx(asyncBuf, errors, sealed, incomplete)
    }

    /** One of `write_async`, `set_incomplete_chunk`, `register_error`, `seal_errors`. */
    method Perform(e: Effect, ghost r: Run)
      requires r.ctx == Value()
      modifies this
      ensures Value() == SsrRun.Perform(r, e).ctx
    {
      match e
      case WriteAsync(id, fut) => asyncBuf := asyncBuf + [(id, fut)];
      case SetIncomplete(id) => incomplete := incomplete + [id];
      case RegisterError(error) => errors := errors + [error];
      case SealErrors(boundary) => sealed := sealed + {boundary};
    }

    method PerformEach(es: seq<Effect>, ghost r: Run)
      requires r.ctx == Value()
      modifies this
      ensures Value() == PerformAll(r, es).ctx
      decreases |es|
    {
      if es != [] {
        Perform(es[0], r);
        PerformEach(es[1..], SsrRun.Perform(r, es[0]));
      }
    }

    /** `pending_data`: the initial chunk and the stream that follows it. */
    method PendingData(ghost r: Run) returns (initial: Cmd, stream: AsyncDataStream)
      requires r.ctx == Value() && r.phase.Idle?
      modifies this
      ensures fresh(stream) && stream.ctx == this
      ensures stream.Matches(Next(r, Snapshot)) && Next(r, Snapshot).out == r.out + [initial]
    {
      var pendingIds := set p | p in asyncBuf :: p.0;
      initial := Init(pendingIds, incomplete, errors);
      errors := [];
      stream := new AsyncDataStream(this, |incomplete|, pendingIds);
    }

    method GetIncompleteChunk(id: Id) returns (found: bool)
      ensures found <==> id in Value().incomplete
    {
      found := id in incomplete;
    }
  }

  datatype PollResult = StillPending | Done | Chunk(cmds: seq<Cmd>)

  function TextOf(result: PollResult): seq<Cmd> {
    if result.Chunk? then result.cmds else []
  }

  lemma ExecSnoc(r: Run, steps: seq<Step>, s: Step)
    requires Valid(r, steps) && Enabled(Exec(r, steps), s)
    ensures Valid(r, steps + [s]) && Exec(r, steps + [s]) == Next(Exec(r, steps), s)
  {
    assert [s][1..] == [];
    ExecConcat(r, steps, [s]);
  }

  /** The section of a chunk a command belongs to: resolutions, then markers, then errors. */
  function Section(cmd: Cmd): nat {
    match cmd
    case PushIncomplete(_) => 1
    case PushError(_) => 2
    case _ => 0
  }

  ghost predicate AllIn(cmds: seq<Cmd>, section: nat) {
    forall k | 0 <= k < |cmds| :: Section(cmds[k]) == section
  }

  ghost predicate InSections(cmds: seq<Cmd>) {
    forall k, l | 0 <= k < l < |cmds| :: Section(cmds[k]) <= Section(cmds[l])
  }

  lemma SectionsJoin(resolved: seq<Cmd>, markers: seq<Cmd>, errors: seq<Cmd>)
    requires AllIn(resolved, 0) && AllIn(markers, 1) && AllIn(errors, 2)
    ensures InSections(resolved + (markers + errors))
  {}

  lemma AllInConcat(a: seq<Cmd>, b: seq<Cmd>, section: nat)
    requires AllIn(a, section) && AllIn(b, section)
    ensures AllIn(a + b, section)
  {}

  /** Sections that only the stream itself executes. */
  predicate StreamOnly(steps: seq<Step>) {
    forall k | 0 <= k < |steps| :: steps[k].Stage? || steps[k].Poll? || steps[k].FlushMarkers? || steps[k].DrainErrors?
  }

  /**
   The run passes through a moment, after `before`, at which nothing was staged and after which nothing was resolved:
   what a future registered when it was resolved is not staged any more.
   */
  ghost predicate NoneStranded(r: Run, before: seq<Step>, steps: seq<Step>)
    requires Valid(r, steps)
  {
    && before <= steps && Valid(r, before)
    && Exec(r, before).ctx.asyncBuf == []
    && ResolvedIds(Exec(r, before).out) == ResolvedIds(Exec(r, steps).out)
  }

  /** The poll of the `k`-th future in flight wakes that future. */
  predicate WakesItself(r: Run, k: nat)
    requires Enabled(r, Poll(k))
  {
    r.phase.inFlight[k].1.Pending? && r.phase.inFlight[k].1.wakes
  }

  /** Polls of a run that woke their own future. */
  function SelfWakes(r: Run, steps: seq<Step>): nat
    requires Valid(r, steps)
    decreases |steps|
  {
    if steps == [] then 0
    else (if steps[0].Poll? && WakesItself(r, steps[0].k) then 1 else 0) + SelfWakes(Next(r, steps[0]), steps[1..])
  }

  lemma {:induction false} SelfWakesConcat(r: Run, a: seq<Step>, b: seq<Step>)
    requires Valid(r, a) && Valid(Exec(r, a), b)
    ensures Valid(r, a + b) && SelfWakes(r, a + b) == SelfWakes(r, a) + SelfWakes(Exec(r, a), b)
    decreases |a|
  {
    ExecConcat(r, a, b);
    if a == [] {
      assert a + b == b;
    } else {
      assert (a + b)[0] == a[0] && (a + b)[1..] == a[1..] + b;
      SelfWakesConcat(Next(r, a[0]), a[1..], b);
    }
  }

  /** One more poll after a run of the stream. */
  lemma PollAdded(r: Run, steps: seq<Step>, k: nat)
    requires Valid(r, steps) && StreamOnly(steps) && Enabled(Exec(r, steps), Poll(k))
    ensures Valid(r, steps + [Poll(k)]) && Exec(r, steps + [Poll(k)]) == Next(Exec(r, steps), Poll(k))
    ensures StreamOnly(steps + [Poll(k)])
    ensures SelfWakes(r, steps + [Poll(k)]) == SelfWakes(r, steps) + if WakesItself(Exec(r, steps), k) then 1 else 0
  {
    ExecSnoc(r, steps, Poll(k));
    assert [Poll(k)][1..] == [];
    SelfWakesConcat(r, steps, [Poll(k)]);
  }

  lemma RunAdded(r: Run, a: seq<Step>, b: seq<Step>)
    requires Valid(r, a) && StreamOnly(a) && Valid(Exec(r, a), b) && StreamOnly(b)
    ensures Valid(r, a + b) && StreamOnly(a + b) && Exec(r, a + b) == Exec(Exec(r, a), b)
    ensures SelfWakes(r, a + b) == SelfWakes(r, a) + SelfWakes(Exec(r, a), b)
  {
    ExecConcat(r, a, b);
    SelfWakesConcat(r, a, b);
  }

  /** One more turn of the outer loop after a run. */
  lemma RoundAdded(r: Run, steps: seq<Step>, round: seq<Step>)
    requires Valid(r, steps) && StreamOnly(steps) && Enabled(Exec(r, steps), SsrRun.Stage)
    requires Valid(Next(Exec(r, steps), SsrRun.Stage), round) && StreamOnly(round)
    ensures var (before, all) := (steps + [SsrRun.Stage], steps + [SsrRun.Stage] + round);
            && Valid(r, all) && StreamOnly(all)
            && Exec(r, all) == Exec(Next(Exec(r, steps), SsrRun.Stage), round)
            && SelfWakes(r, all) >= SelfWakes(Next(Exec(r, steps), SsrRun.Stage), round)
            && (Exec(r, all).out == Exec(r, steps).out ==> NoneStranded(r, before, all))
            && (Exec(r, all).ctx.asyncBuf == [] ==> NoneStranded(r, all, all))
  {
    ExecSnoc(r, steps, SsrRun.Stage);
    RunAdded(r, steps + [SsrRun.Stage], round);
  }

  lemma CanFlush(r: Run, steps: seq<Step>)
    requires Valid(r, steps) && StreamOnly(steps) && r.phase.Live? && MarkersInOrder(r)
    ensures Enabled(Exec(r, steps), SsrRun.FlushMarkers)
  {
    StreamStepsKeepMarkers(r, steps);
  }

  /** Flushing after a run resolves and stages nothing. */
  lemma FlushAdded(
    r: Run, before: seq<Step>, driving: seq<Step>, flush: seq<Step>, resolved: seq<Cmd>, written: seq<Cmd>)
    requires Valid(r, driving) && NoneStranded(r, before, driving) && Valid(Exec(r, driving), flush)
    requires Exec(Exec(r, driving), flush).out == Exec(r, driving).out + written && ResolvedIds(written) == multiset{}
    requires StreamOnly(driving) && StreamOnly(flush) && Exec(r, driving).out == r.out + resolved
    ensures Valid(r, driving + flush) && Exec(r, driving + flush) == Exec(Exec(r, driving), flush)
    ensures StreamOnly(driving + flush) && NoneStranded(r, before, driving + flush)
    ensures Exec(r, driving + flush).out == r.out + (resolved + written)
    ensures SelfWakes(r, driving + flush) >= SelfWakes(r, driving)
  {
    RunAdded(r, driving, flush);
    ResolvedSame(Exec(r, driving).out, written);
    assert before <= driving <= driving + flush;
    OutsJoin(r.out, resolved, written);
  }

  lemma ResolvedSame(out: seq<Cmd>, written: seq<Cmd>)
    requires ResolvedIds(written) == multiset{}
    ensures ResolvedIds(out + written) == ResolvedIds(out)
  {
    ResolvedConcat(out, written);
  }

  lemma OutsJoin(out: seq<Cmd>, resolved: seq<Cmd>, written: seq<Cmd>)
    ensures out + resolved + written == out + (resolved + written)
  {}

  class AsyncDataStream {
    const ctx: SsrSharedContext
    /** Futures that have been polled, followed by those that were pushed and not polled yet. */
    var inFlight: seq<(Id, Fut)>
    var polled: nat
    var incompleteEmitted: nat
    const initialPendingIds: set<Id>

    constructor (ctx: SsrSharedContext, emitted: nat, pending: set<Id>)
      ensures this.ctx == ctx && inFlight == [] && polled == 0
      ensures incompleteEmitted == emitted && initialPendingIds == pending
    {
      this.ctx, inFlight, polled, incompleteEmitted, initialPendingIds := ctx, [], 0, emitted, pending;
    }

    ghost predicate Matches(r: Run)
      reads this, ctx
    {
      && r.ctx == ctx.Value() && r.phase == Live(inFlight, incompleteEmitted, initialPendingIds)
      && polled <= |inFlight|
    }

    /** The futures that wait for their first poll. */
    ghost function Unpolled(): seq<(Id, Fut)>
      reads this
      requires polled <= |inFlight|
    {
      inFlight[polled..]
    }

    /** One poll of a future that was polled before, or of the first one that was not. */
    method PollOne(k: nat, ghost r: Run) returns (item: Option<(Id, string)>, woke: bool)
      requires Matches(r) && k < |inFlight| && k <= polled
      modifies this, ctx
      ensures Matches(Next(r, Poll(k)))
      ensures Unpolled() == (if k < old(polled) then old(Unpolled()) else old(Unpolled())[1..])
      ensures woke == WakesItself(r, k)
      ensures item.None? ==> |inFlight| == old(|inFlight|) && Next(r, Poll(k)).out == r.out
      ensures item.Some? ==>
                Next(r, Poll(k)).out == r.out + Announce(item.value.0, item.value.1, initialPendingIds)
    {
      var (id, fut) := inFlight[k];
      woke := false;
      EffectsOnly(r, fut.effects);
      ctx.PerformEach(fut.effects, r);
      match fut
      case Pending(_, wakes, next) =>
        woke := wakes;
        inFlight := inFlight[k := (id, next)];
        polled := if k == polled then polled + 1 else polled;
        item := None;
      case Ready(_, data) =>
        inFlight := inFlight[..k] + inFlight[k + 1..];
        polled := if k == polled then polled else polled - 1;
        item := Some((id, data));
    }

    /**
     `FuturesUnordered::poll_next`. Its queue holds the futures that were pushed or woken, first come first served
     and none twice: while some wait for their first poll, only `ahead` of the others can come before them. It stops
     with a ready future, when the queue is empty, after two polls whose futures woke themselves, or after as many
     polls as there are futures.
     */
    method PollInFlight(ghost r: Run) returns (item: Option<(Id, string)>, ghost steps: seq<Step>)
      requires Matches(r)
      modifies this, ctx
      ensures Valid(r, steps) && StreamOnly(steps) && Matches(Exec(r, steps))
      ensures item.None? ==> |inFlight| == old(|inFlight|) && Exec(r, steps).out == r.out
      ensures item.Some? ==>
                Exec(r, steps).out == r.out + Announce(item.value.0, item.value.1, initialPendingIds)
      ensures old(inFlight) == [] ==> item.None? && steps == []
      ensures TotalWork(Exec(r, steps)) <= TotalWork(r)
      ensures item.Some? ==> TotalWork(Exec(r, steps)) < TotalWork(r)
      ensures item.None? && SelfWakes(r, steps) < 2 ==> Unpolled() == []
    {
      steps, item := [], None;
      ghost var now := r;
      var len, count, woken := |inFlight|, 0, 0;
      var ahead: nat :| ahead <= polled;
      while count < len && woken < 2
        invariant Valid(r, steps) && StreamOnly(steps) && now == Exec(r, steps) && Matches(now)
        invariant item.None? && |inFlight| == len == old(|inFlight|) && now.out == r.out
        invariant len == 0 ==> steps == []
        invariant TotalWork(now) <= TotalWork(r)
        invariant woken == SelfWakes(r, steps)
        invariant Unpolled() != [] ==> count + ahead + |Unpolled()| <= len
        decreases TotalWork(now)
      {
        var k: nat := polled;
        if polled == |inFlight| {
          if * {
            return;
          }
          k :| k < polled;
        } else if ahead > 0 {
          if * {
            k :| k < polled;
            ahead := ahead - 1;
          }
        }
        ghost var was := now;
        var woke;
        item, woke := PollOne(k, was);
        PollAdded(r, steps, k);
        PollUsesOne(was, k);
        steps, now := steps + [Poll(k)], Next(was, Poll(k));
        if item.Some? {
          return;
        }
        count, woken := count + 1, if woke then woken + 1 else woken;
      }
    }

    method Stage(ghost r: Run)
      requires Matches(r)
      modifies this, ctx
      ensures Matches(Next(r, SsrRun.Stage)) && ctx.asyncBuf == []
      ensures Unpolled() == old(Unpolled()) + old(ctx.asyncBuf)
      ensures TotalWork(Next(r, SsrRun.Stage)) == TotalWork(r)
    {
      inFlight := inFlight + ctx.asyncBuf;
      ctx.asyncBuf := [];
      WorkConcat(r.phase.inFlight, r.ctx.asyncBuf);
    }

    /** The inner `while let`: writes out every future that is ready. */
    method DrainReady(ghost r: Run)
      returns (resolved: seq<Cmd>, anyReady: bool, ghost steps: seq<Step>)
      requires Matches(r)
      modifies this, ctx
      ensures Valid(r, steps) && StreamOnly(steps) && Matches(Exec(r, steps))
      ensures Exec(r, steps).out == r.out + resolved
      ensures TotalWork(Exec(r, steps)) <= TotalWork(r)
      ensures anyReady ==> TotalWork(Exec(r, steps)) < TotalWork(r)
      ensures !anyReady ==> |inFlight| == old(|inFlight|)
      ensures !anyReady && old(inFlight) == [] ==> ctx.asyncBuf == old(ctx.asyncBuf)
      ensures !anyReady ==> resolved == []
      ensures AllIn(resolved, 0)
      ensures SelfWakes(r, steps) < 2 ==> Unpolled() == []
    {
      resolved, anyReady, steps := [], false, [];
      var more := true;
      while more
        invariant Sofar(r, steps, resolved)
        invariant TotalWork(Exec(r, steps)) <= TotalWork(r)
        invariant anyReady ==> TotalWork(Exec(r, steps)) < TotalWork(r)
        invariant !anyReady ==> resolved == [] && |inFlight| == old(|inFlight|)
        invariant !anyReady && old(inFlight) == [] ==> ctx.asyncBuf == old(ctx.asyncBuf)
        invariant !more && SelfWakes(r, steps) < 2 ==> Unpolled() == []
        decreases TotalWork(Exec(r, steps)), more
      {
        ghost var was := Exec(r, steps);
        var item, made := PollInFlight(was);
        RunAdded(r, steps, made);
        steps := steps + made;
        match item
        case None =>
          more := false;
        case Some((id, data)) =>
          anyReady := true;
          OutsJoin(r.out, resolved, Announce(id, data, initialPendingIds));
          AllInConcat(resolved, Announce(id, data, initialPendingIds), 0);
          resolved := resolved + Announce(id, data, initialPendingIds);
      }
    }

    /**
     The outer loop: stages and drains until nothing new can be staged. What is staged at its end was registered
     after the run `before`, and so after the last resolution; and everything in flight has been polled, unless two
     polls woke their own futures.
     */
    method DriveFutures(ghost r: Run)
      returns (resolved: seq<Cmd>, ghost before: seq<Step>, ghost steps: seq<Step>)
      requires Matches(r)
      modifies this, ctx
      ensures Valid(r, steps) && StreamOnly(steps) && Matches(Exec(r, steps))
      ensures Exec(r, steps).out == r.out + resolved && AllIn(resolved, 0)
      ensures inFlight == [] ==> ctx.asyncBuf == []
      ensures NoneStranded(r, before, steps) && (SelfWakes(r, steps) < 2 ==> Unpolled() == [])
    {
      resolved, before, steps := [], [], [];
      var again := true;
      while again
        invariant Sofar(r, steps, resolved)
        invariant !again ==> Settled(r, before, steps)
        decreases TotalWork(Exec(r, steps)), again
      {
        resolved, again, before, steps := Round(resolved, r, steps);
      }
    }

    /** The run so far and what it has written. */
    ghost predicate Sofar(r: Run, steps: seq<Step>, resolved: seq<Cmd>)
      reads this, ctx
    {
      && Valid(r, steps) && StreamOnly(steps) && Matches(Exec(r, steps))
      && Exec(r, steps).out == r.out + resolved && AllIn(resolved, 0)
    }

    /** What holds when the outer loop ends. */
    ghost predicate Settled(r: Run, before: seq<Step>, steps: seq<Step>)
      requires Valid(r, steps) && polled <= |inFlight|
      reads this, ctx
    {
      && (inFlight == [] ==> ctx.asyncBuf == [])
      && NoneStranded(r, before, steps) && (SelfWakes(r, steps) < 2 ==> Unpolled() == [])
    }

    /** One turn of the outer loop, added to the run so far. */
    method Round(resolved: seq<Cmd>, ghost r: Run, ghost steps: seq<Step>)
      returns (resolved': seq<Cmd>, again: bool, ghost before: seq<Step>, ghost steps': seq<Step>)
      requires Sofar(r, steps, resolved)
      modifies this, ctx
      ensures Sofar(r, steps', resolved')
      ensures again ==> TotalWork(Exec(r, steps')) < TotalWork(Exec(r, steps))
      ensures TotalWork(Exec(r, steps')) <= TotalWork(Exec(r, steps))
      ensures !again ==> Settled(r, before, steps')
    {
      var written, anyReady, round := StageAndDrain(Exec(r, steps));
      RoundAdded(r, steps, round);
      before, steps' := steps + [SsrRun.Stage], steps + [SsrRun.Stage] + round;
      OutsJoin(r.out, resolved, written);
      AllInConcat(resolved, written, 0);
      resolved' := resolved + written;
      again := anyReady && ctx.asyncBuf != [];
      if anyReady {
        before := steps';
      }
    }

    /** One turn of the outer loop. */
    method StageAndDrain(ghost r: Run)
      returns (written: seq<Cmd>, anyReady: bool, ghost steps: seq<Step>)
      requires Matches(r)
      modifies this, ctx
      ensures Valid(Next(r, SsrRun.Stage), steps) && StreamOnly(steps)
      ensures var r' := Exec(Next(r, SsrRun.Stage), steps);
              && Matches(r') && r'.out == r.out + written && TotalWork(r') <= TotalWork(r)
              && (anyReady ==> TotalWork(r') < TotalWork(r))
      ensures !anyReady && inFlight == [] ==> ctx.asyncBuf == []
      ensures !anyReady ==> Exec(Next(r, SsrRun.Stage), steps).out == r.out
      ensures AllIn(written, 0)
      ensures SelfWakes(Next(r, SsrRun.Stage), steps) < 2 ==> Unpolled() == []
    {
      Stage(r);
      written, anyReady, steps := DrainReady(Next(r, SsrRun.Stage));
      assert r.out + [] == r.out;
    }

    /** `__INCOMPLETE_CHUNKS.push` for the markers past the cursor. */
    method FlushMarkers(ghost r: Run) returns (written: seq<Cmd>)
      requires Matches(r) && Enabled(r, SsrRun.FlushMarkers)
      modifies this`incompleteEmitted
      ensures Matches(Next(r, SsrRun.FlushMarkers)) && incompleteEmitted == |ctx.incomplete|
      ensures Next(r, SsrRun.FlushMarkers).out == r.out + written && ResolvedIds(written) == multiset{}
      ensures AllIn(written, 1)
    {
      MarkerPushesOnly(ctx.incomplete[incompleteEmitted..]);
      MarkersResolveNothing(ctx.incomplete[incompleteEmitted..]);
      written := MarkerPushes(ctx.incomplete[incompleteEmitted..]);
      incompleteEmitted := |ctx.incomplete|;
    }

    /** Takes the buffered errors and writes those whose boundary is not sealed. */
    method DrainErrors(ghost r: Run) returns (written: seq<Cmd>)
      requires Matches(r)
      modifies ctx
      ensures Matches(Next(r, SsrRun.DrainErrors)) && ctx.errors == [] && ctx.asyncBuf == old(ctx.asyncBuf)
      ensures ctx.incomplete == old(ctx.incomplete)
      ensures Next(r, SsrRun.DrainErrors).out == r.out + written && ResolvedIds(written) == multiset{}
      ensures AllIn(written, 2)
    {
      ErrorPushesUnsealed(ctx.errors, ctx.sealed);
      ErrorsResolveNothing(ctx.errors, ctx.sealed);
      written := ErrorPushes(ctx.errors, ctx.sealed);
      ctx.errors := [];
    }

    /** The two buffers written after the futures: markers, then errors. */
    method FlushBuffers(ghost r: Run) returns (written: seq<Cmd>, ghost steps: seq<Step>)
      requires Matches(r) && Enabled(r, SsrRun.FlushMarkers)
      modifies this`incompleteEmitted, ctx
      ensures Valid(r, steps) && StreamOnly(steps)
      ensures Matches(Exec(r, steps)) && Exec(r, steps).out == r.out + written && ResolvedIds(written) == multiset{}
      ensures forall resolved | AllIn(resolved, 0) :: InSections(resolved + written)
      ensures incompleteEmitted == |ctx.incomplete| && ctx.errors == []
      ensures ctx.asyncBuf == old(ctx.asyncBuf)
    {
      ghost var flushed := Next(r, SsrRun.FlushMarkers);
      steps := [SsrRun.FlushMarkers, SsrRun.DrainErrors];
      assert steps[1..] == [SsrRun.DrainErrors] && steps[1..][1..] == [];
      var markers := FlushMarkers(r);
      var errors := DrainErrors(flushed);
      written := markers + errors;
      ResolvedConcat(markers, errors);
      forall resolved | AllIn(resolved, 0) ensures InSections(resolved + written) {
        SectionsJoin(resolved, markers, errors);
      }
    }

    /** Everything a call writes: resolutions, then markers, then errors. */
    method Gather(ghost r: Run)
      returns (resolved: seq<Cmd>, ghost before: seq<Step>, ghost steps: seq<Step>)
      requires Matches(r) && MarkersInOrder(r)
      modifies this, ctx
      ensures Valid(r, steps) && StreamOnly(steps) && Matches(Exec(r, steps))
      ensures Exec(r, steps).out == r.out + resolved && InSections(resolved)
      ensures incompleteEmitted == |ctx.incomplete| && ctx.errors == []
      ensures inFlight == [] ==> ctx.asyncBuf == []
      ensures NoneStranded(r, before, steps) && (SelfWakes(r, steps) < 2 ==> Unpolled() == [])
    {
      ghost var driving;
      resolved, before, driving := DriveFutures(r);
      CanFlush(r, driving);
      var written, flush := FlushBuffers(Exec(r, driving));
      FlushAdded(r, before, driving, flush, resolved, written);
      steps := driving + flush;
      resolved := resolved + written;
    }

    method PollNext(ghost r: Run)
      returns (result: PollResult, ghost before: seq<Step>, ghost steps: seq<Step>)
      requires Matches(r) && MarkersInOrder(r)
      modifies this, ctx
      ensures Valid(r, steps) && StreamOnly(steps) && Matches(Exec(r, steps))
      ensures Exec(r, steps).out == r.out + TextOf(result)
      ensures result.Done? ==> Enabled(Exec(r, steps), End)
      ensures result.StillPending? ==> inFlight != []
      ensures result.Chunk? ==> result.cmds != [] && InSections(result.cmds)
      ensures incompleteEmitted == |ctx.incomplete| && ctx.errors == []
      ensures NoneStranded(r, before, steps) && (SelfWakes(r, steps) < 2 ==> Unpolled() == [])
    {
      var resolved;
      resolved, before, steps := Gather(r);
      var done := inFlight == [] && ctx.asyncBuf == [];
      if done && resolved == [] {
        result := Done;
      } else if resolved == [] {
        result := StillPending;
      } else {
        result := Chunk(resolved);
      }
    }
  }

  lemma {:induction false} StreamStepsKeepMarkers(r: Run, steps: seq<Step>)
    requires Valid(r, steps) && StreamOnly(steps) && r.phase.Live? && MarkersInOrder(r)
    ensures Exec(r, steps).phase.Live? && MarkersInOrder(Exec(r, steps))
    decreases |steps|
  {
    if steps != [] {
      StepKeepsMarkers(r, steps[0]);
      if steps[0].Poll? {
        EffectsOnly(r, r.phase.inFlight[steps[0].k].1.effects);
      }
      StreamStepsKeepMarkers(Next(r, steps[0]), steps[1..]);
    }
  }
}
