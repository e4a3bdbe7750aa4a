/**
 The data stream against the run's own effects: what was registered, reported, marked and
 sealed is what the steps say, the initial chunk shows all of it, and every id is resolved
 with the data of its own future.
 */
module SsrHistory {
  import opened SsrRun
  import opened SsrSafety

  // ---------- The effects of a run ----------

  /** The calls into the context that a step makes. */
  function EffectsOf(r: Run, s: Step): seq<Effect>
    requires Enabled(r, s)
  {
    match s
    case External(e) => [e]
    case Poll(k) => r.phase.inFlight[k].1.effects
    case _ => []
  }

  function RunEffects(r: Run, steps: seq<Step>): seq<Effect>
    requires Valid(r, steps)
    decreases |steps|
  {
    if steps == [] then [] else EffectsOf(r, steps[0]) + RunEffects(Next(r, steps[0]), steps[1..])
  }

  function RegisteredIn(es: seq<Effect>): seq<(Id, Fut)> {
    if es == [] then [] else (if es[0].WriteAsync? then [(es[0].id, es[0].fut)] else []) + RegisteredIn(es[1..])
  }

  function ReportedIn(es: seq<Effect>): seq<Error> {
    if es == [] then [] else (if es[0].RegisterError? then [es[0].error] else []) + ReportedIn(es[1..])
  }

  function MarkedIn(es: seq<Effect>): seq<Id> {
    if es == [] then [] else (if es[0].SetIncomplete? then [es[0].id] else []) + MarkedIn(es[1..])
  }

  function SealedIn(es: seq<Effect>): set<Id> {
    set e | e in es && e.SealErrors? :: e.boundary
  }

  lemma {:induction false} RegisteredInConcat(a: seq<Effect>, b: seq<Effect>)
    ensures RegisteredIn(a + b) == RegisteredIn(a) + RegisteredIn(b)
    decreases |a|
  {
    if a == [] {
      assert a + b == b;
    } else {
      assert (a + b)[0] == a[0] && (a + b)[1..] == a[1..] + b;
      RegisteredInConcat(a[1..], b);
    }
  }

  lemma {:induction false} ReportedInConcat(a: seq<Effect>, b: seq<Effect>)
    ensures ReportedIn(a + b) == ReportedIn(a) + ReportedIn(b)
    decreases |a|
  {
    if a == [] {
      assert a + b == b;
    } else {
      assert (a + b)[0] == a[0] && (a + b)[1..] == a[1..] + b;
      ReportedInConcat(a[1..], b);
    }
  }

  lemma {:induction false} MarkedInConcat(a: seq<Effect>, b: seq<Effect>)
    ensures MarkedIn(a + b) == MarkedIn(a) + MarkedIn(b)
    decreases |a|
  {
    if a == [] {
      assert a + b == b;
    } else {
      assert (a + b)[0] == a[0] && (a + b)[1..] == a[1..] + b;
      MarkedInConcat(a[1..], b);
    }
  }

  lemma InConcat(a: seq<Effect>, b: seq<Effect>)
    ensures RegisteredIn(a + b) == RegisteredIn(a) + RegisteredIn(b)
    ensures ReportedIn(a + b) == ReportedIn(a) + ReportedIn(b)
    ensures MarkedIn(a + b) == MarkedIn(a) + MarkedIn(b)
    ensures SealedIn(a + b) == SealedIn(a) + SealedIn(b)
  {
    RegisteredInConcat(a, b);
    ReportedInConcat(a, b);
    MarkedInConcat(a, b);
  }

  /** What effects add to the context and to the history. */
  ghost predicate Recorded(r: Run, r': Run, es: seq<Effect>) {
    && r'.log.registered == r.log.registered + Keys(RegisteredIn(es))
    && r'.log.reported == r.log.reported + ReportedIn(es)
    && r'.ctx.incomplete == r.ctx.incomplete + MarkedIn(es)
    && r'.ctx.sealed == r.ctx.sealed + SealedIn(es)
  }

  ghost predicate Buffered(r: Run, r': Run, es: seq<Effect>) {
    r'.ctx.asyncBuf == r.ctx.asyncBuf + RegisteredIn(es) && r'.ctx.errors == r.ctx.errors + ReportedIn(es)
  }

  lemma OneRecorded(r: Run, e: Effect)
    ensures Recorded(r, Perform(r, e), [e]) && Buffered(r, Perform(r, e), [e])
  {
    assert [e][1..] == [];
    if e.WriteAsync? {
      assert Keys([(e.id, e.fut)]) == [e.id];
    }
  }

  lemma RecordedTwice(r: Run, r': Run, r'': Run, a: seq<Effect>, b: seq<Effect>)
    requires Recorded(r, r', a) && Recorded(r', r'', b)
    ensures Recorded(r, r'', a + b)
  {
    InConcat(a, b);
    KeysConcat(RegisteredIn(a), RegisteredIn(b));
    Regroup(r.log.registered, Keys(RegisteredIn(a)), Keys(RegisteredIn(b)));
    Regroup(r.log.reported, ReportedIn(a), ReportedIn(b));
    Regroup(r.ctx.incomplete, MarkedIn(a), MarkedIn(b));
  }

  lemma Regroup<T>(a: seq<T>, b: seq<T>, c: seq<T>)
    ensures a + b + c == a + (b + c)
  {}

  lemma KeysConcat(a: seq<(Id, Fut)>, b: seq<(Id, Fut)>)
    ensures Keys(a + b) == Keys(a) + Keys(b)
  {}

  lemma BufferedTwice(r: Run, r': Run, r'': Run, a: seq<Effect>, b: seq<Effect>)
    requires Buffered(r, r', a) && Buffered(r', r'', b)
    ensures Buffered(r, r'', a + b)
  {
    InConcat(a, b);
    Regroup(r.ctx.asyncBuf, RegisteredIn(a), RegisteredIn(b));
    Regroup(r.ctx.errors, ReportedIn(a), ReportedIn(b));
  }

  lemma {:induction false} EffectsRecorded(r: Run, es: seq<Effect>)
    ensures Recorded(r, PerformAll(r, es), es) && Buffered(r, PerformAll(r, es), es)
    decreases |es|
  {
    if es != [] {
      var r1 := Perform(r, es[0]);
      OneRecorded(r, es[0]);
      EffectsRecorded(r1, es[1..]);
      assert es == [es[0]] + es[1..];
      RecordedTwice(r, r1, PerformAll(r, es), [es[0]], es[1..]);
      BufferedTwice(r, r1, PerformAll(r, es), [es[0]], es[1..]);
    }
  }

  lemma StepRecorded(r: Run, s: Step)
    requires Enabled(r, s)
    ensures Recorded(r, Next(r, s), EffectsOf(r, s))
  {
    match s
    case External(e) => OneRecorded(r, e);
    case Poll(k) =>
      EffectsRecorded(r, r.phase.inFlight[k].1.effects);
    case _ => NothingRecorded(r, Next(r, s));
  }

  lemma NothingRecorded(r: Run, r': Run)
    requires r'.log.registered == r.log.registered && r'.log.reported == r.log.reported
    requires r'.ctx.incomplete == r.ctx.incomplete && r'.ctx.sealed == r.ctx.sealed
    ensures Recorded(r, r', [])
  {}

  /** Over any run: registrations, errors, markers and seals are exactly those of its effects, in order. */
  lemma {:induction false} RunRecorded(r: Run, steps: seq<Step>)
    requires Valid(r, steps)
    ensures Recorded(r, Exec(r, steps), RunEffects(r, steps))
    decreases |steps|
  {
    if steps == [] {
      NothingRecorded(r, r);
    } else {
      var r1 := Next(r, steps[0]);
      StepRecorded(r, steps[0]);
      RunRecorded(r1, steps[1..]);
      RecordedTwice(r, r1, Exec(r, steps), EffectsOf(r, steps[0]), RunEffects(r1, steps[1..]));
    }
  }

  /** Once the snapshot is out, sealing a boundary silences it for good. */
  lemma SealSilences(r: Run, boundary: Id, steps: seq<Step>)
    requires !r.phase.Idle? && Valid(Next(r, External(SealErrors(boundary))), steps)
    ensures var sealed := Next(r, External(SealErrors(boundary)));
            var out := Exec(sealed, steps).out;
            |sealed.out| <= |out| && forall k | |sealed.out| <= k < |out| && out[k].PushError? ::
              out[k].error.boundary != boundary
  {
    OneRecorded(r, SealErrors(boundary));
    assert boundary in SealedIn([SealErrors(boundary)]) by {
      assert SealErrors(boundary) in [SealErrors(boundary)];
    }
    SealedStaysSilent(Next(r, External(SealErrors(boundary))), steps, boundary);
  }

  // ---------- The initial chunk ----------

  lemma {:induction false} NeverIdleAgain(r: Run, steps: seq<Step>)
    requires Valid(r, steps) && !r.phase.Idle?
    ensures !Exec(r, steps).phase.Idle?
    decreases |steps|
  {
    if steps != [] {
      if steps[0].Poll? {
        EffectsOnly(r, r.phase.inFlight[steps[0].k].1.effects);
      }
      NeverIdleAgain(Next(r, steps[0]), steps[1..]);
    }
  }

  /** Before the snapshot nothing leaves the buffers. */
  lemma {:induction false} IdleBuffers(r: Run, steps: seq<Step>)
    requires Valid(r, steps) && Exec(r, steps).phase.Idle?
    ensures Buffered(r, Exec(r, steps), RunEffects(r, steps)) && Exec(r, steps).out == r.out
    decreases |steps|
  {
    if steps == [] {
      NothingBuffered(r);
    } else {
      IdleStep(r, steps);
      var r1 := Next(r, steps[0]);
      OneRecorded(r, steps[0].effect);
      IdleBuffers(r1, steps[1..]);
      BufferedTwice(r, r1, Exec(r, steps), [steps[0].effect], RunEffects(r1, steps[1..]));
    }
  }

  lemma NothingBuffered(r: Run)
    ensures Buffered(r, r, [])
  {}

  /** A run that is still idle has made outside calls only. */
  lemma IdleStep(r: Run, steps: seq<Step>)
    requires Valid(r, steps) && steps != [] && Exec(r, steps).phase.Idle?
    ensures steps[0].External?
  {
    if !r.phase.Idle? {
      NeverIdleAgain(r, steps);
    } else if steps[0].Snapshot? {
      NeverIdleAgain(Next(r, steps[0]), steps[1..]);
    }
  }

  /** The snapshot shows the client every id, marker and error there is so far. */
  lemma SnapshotShowsAll(steps: seq<Step>)
    requires Valid(Start, steps) && Exec(Start, steps).phase.Idle?
    ensures var es := RunEffects(Start, steps);
            ClientOf(Next(Exec(Start, steps), Snapshot))
            == Client(set p | p in RegisteredIn(es) :: p.0, map[], MarkedIn(es), ReportedIn(es), 0, 0)
  {
    var (r, es) := (Exec(Start, steps), RunEffects(Start, steps));
    IdleBuffers(Start, steps);
    RunRecorded(Start, steps);
    assert [] + RegisteredIn(es) == RegisteredIn(es) && [] + ReportedIn(es) == ReportedIn(es);
    assert [] + MarkedIn(es) == MarkedIn(es);
    var r' := Next(r, Snapshot);
    assert r'.out == [r'.out[0]];
    ReplayOne(Blank, r'.out[0]);
  }

  // ---------- Data ----------

  /** The result at the end of a future's chain of polls. */
  function FinalData(f: Fut): string {
    match f
    case Ready(_, data) => data
    case Pending(_, _, next) => FinalData(next)
  }

  function DataOf(s: seq<(Id, Fut)>): seq<(Id, string)> {
    seq(|s|, k requires 0 <= k < |s| => (s[k].0, FinalData(s[k].1)))
  }

  function ResolvedData(out: seq<Cmd>): multiset<(Id, string)> {
    if out == [] then multiset{}
    else ResolvedData(out[..|out| - 1])
         + (if out[|out| - 1].Resolve? then multiset{(out[|out| - 1].id, out[|out| - 1].data)} else multiset{})
  }

  lemma {:induction false} ResolvedDataConcat(a: seq<Cmd>, b: seq<Cmd>)
    ensures ResolvedData(a + b) == ResolvedData(a) + ResolvedData(b)
    decreases |b|
  {
    if b == [] {
      assert a + b == a;
    } else {
      assert (a + b)[..|a + b| - 1] == a + b[..|b| - 1];
      ResolvedDataConcat(a, b[..|b| - 1]);
    }
  }

  lemma {:induction false} PlainHasNoData(cmds: seq<Cmd>)
    requires forall k | 0 <= k < |cmds| :: !cmds[k].Resolve?
    ensures ResolvedData(cmds) == multiset{}
    decreases |cmds|
  {
    if cmds != [] {
      PlainHasNoData(cmds[..|cmds| - 1]);
    }
  }

  /** Every registered future is staged, in flight, or resolved with its own data. */
  ghost predicate DataConserved(r: Run, registered: seq<(Id, Fut)>) {
    multiset(DataOf(registered))
    == multiset(DataOf(r.ctx.asyncBuf)) + multiset(DataOf(InFlight(r))) + ResolvedData(r.out)
  }

  lemma DataConcat(a: seq<(Id, Fut)>, b: seq<(Id, Fut)>)
    ensures multiset(DataOf(a + b)) == multiset(DataOf(a)) + multiset(DataOf(b))
  {
    assert DataOf(a + b) == DataOf(a) + DataOf(b);
  }

  lemma DataRemoved(s: seq<(Id, Fut)>, k: nat)
    requires k < |s|
    ensures multiset(DataOf(s)) == multiset(DataOf(s[..k] + s[k + 1..])) + multiset{(s[k].0, FinalData(s[k].1))}
  {
    var data := DataOf(s);
    assert data == data[..k] + [data[k]] + data[k + 1..];
    assert DataOf(s[..k] + s[k + 1..]) == data[..k] + data[k + 1..];
  }

  lemma AnnounceData(out: seq<Cmd>, id: Id, data: string, snapshot: set<Id>)
    ensures ResolvedData(out + Announce(id, data, snapshot)) == ResolvedData(out) + multiset{(id, data)}
  {
    var first := if id in snapshot then [] else [PushPending(id)];
    PlainHasNoData(first);
    ResolvedDataConcat(first, [Resolve(id, data)]);
    assert [Resolve(id, data)][..0] == [];
    ResolvedDataConcat(out, Announce(id, data, snapshot));
  }

  lemma QuietConservesData(r: Run, r': Run, registered: seq<(Id, Fut)>, cmds: seq<Cmd>)
    requires DataConserved(r, registered) && r'.out == r.out + cmds && forall k | 0 <= k < |cmds| :: !cmds[k].Resolve?
    requires r'.ctx.asyncBuf == r.ctx.asyncBuf && InFlight(r') == InFlight(r)
    ensures DataConserved(r', registered)
  {
    PlainHasNoData(cmds);
    ResolvedDataConcat(r.out, cmds);
  }

  lemma StageConservesData(r: Run, registered: seq<(Id, Fut)>)
    requires r.phase.Live? && DataConserved(r, registered)
    ensures DataConserved(Next(r, Stage), registered)
  {
    DataConcat(r.phase.inFlight, r.ctx.asyncBuf);
  }

  lemma EffectsConserveData(r: Run, es: seq<Effect>, registered: seq<(Id, Fut)>)
    requires DataConserved(r, registered)
    ensures DataConserved(PerformAll(r, es), registered + RegisteredIn(es))
  {
    EffectsRecorded(r, es);
    EffectsOnly(r, es);
    DataConcat(registered, RegisteredIn(es));
    DataConcat(r.ctx.asyncBuf, RegisteredIn(es));
  }

  lemma PollConservesData(r: Run, k: nat, registered: seq<(Id, Fut)>)
    requires Enabled(r, Poll(k)) && DataConserved(r, registered)
    ensures DataConserved(PollFuture(r, k), registered + RegisteredIn(EffectsOf(r, Poll(k))))
  {
    var (id, fut) := r.phase.inFlight[k];
    EffectsOnly(r, fut.effects);
    EffectsConserveData(r, fut.effects, registered);
    if fut.Ready? {
      DataRemoved(r.phase.inFlight, k);
      AnnounceData(r.out, id, fut.data, r.phase.snapshot);
    } else {
      assert DataOf(r.phase.inFlight[k := (id, fut.next)]) == DataOf(r.phase.inFlight);
    }
  }

  lemma MarkersConserveData(r: Run, s: Step, registered: seq<(Id, Fut)>)
    requires Enabled(r, s) && (s.FlushMarkers? || s.Tail?) && DataConserved(r, registered)
    ensures DataConserved(Next(r, s), registered)
  {
    var ids := r.ctx.incomplete[r.phase.cursor..];
    MarkerPushesOnly(ids);
    QuietConservesData(r, Next(r, s), registered, MarkerPushes(ids));
  }

  lemma StepConservesData(r: Run, s: Step, registered: seq<(Id, Fut)>)
    requires Enabled(r, s) && DataConserved(r, registered)
    ensures DataConserved(Next(r, s), registered + RegisteredIn(EffectsOf(r, s)))
  {
    match s
    case External(e) =>
      EffectsConserveData(r, [e], registered);
      assert PerformAll(r, [e]) == Perform(r, e);
    case Poll(k) => PollConservesData(r, k, registered);
    case _ =>
      assert registered + [] == registered;
      OtherConservesData(r, s, registered);
  }

  lemma OtherConservesData(r: Run, s: Step, registered: seq<(Id, Fut)>)
    requires Enabled(r, s) && !s.External? && !s.Poll? && DataConserved(r, registered)
    ensures DataConserved(Next(r, s), registered)
  {
    match s
    case Snapshot => QuietConservesData(r, Next(r, s), registered, [Next(r, s).out[|r.out|]]);
    case Stage => StageConservesData(r, registered);
    case DrainErrors =>
      ErrorPushesUnsealed(r.ctx.errors, r.ctx.sealed);
      QuietConservesData(r, Next(r, s), registered, ErrorPushes(r.ctx.errors, r.ctx.sealed));
    case FlushMarkers => MarkersConserveData(r, s, registered);
    case Tail => MarkersConserveData(r, s, registered);
    case End => QuietConservesData(r, Next(r, s), registered, []);
  }

  lemma {:induction false} RunConservesData(r: Run, steps: seq<Step>, registered: seq<(Id, Fut)>)
    requires Valid(r, steps) && DataConserved(r, registered)
    ensures DataConserved(Exec(r, steps), registered + RegisteredIn(RunEffects(r, steps)))
    decreases |steps|
  {
    if steps == [] {
      assert registered + [] == registered;
    } else {
      var (es, r1) := (EffectsOf(r, steps[0]), Next(r, steps[0]));
      StepConservesData(r, steps[0], registered);
      RunConservesData(r1, steps[1..], registered + RegisteredIn(es));
      InConcat(es, RunEffects(r1, steps[1..]));
      Regroup(registered, RegisteredIn(es), RegisteredIn(RunEffects(r1, steps[1..])));
    }
  }

  /** What the client has for an id was written for that id. */
  lemma {:induction false} ResolvedWasWritten(out: seq<Cmd>, id: Id)
    requires id in Replay(Blank, out).resolved
    ensures (id, Replay(Blank, out).resolved[id]) in ResolvedData(out)
    decreases |out|
  {
    if out != [] {
      var (init, last) := (out[..|out| - 1], out[|out| - 1]);
      assert out == init + [last];
      ReplayConcat(Blank, init, [last]);
      ReplayOne(Replay(Blank, init), last);
      if !(last.Resolve? && last.id == id) {
        ResolvedWasWritten(init, id);
      }
    }
  }

  /** Main result: over every run an id is resolved with the data of a future that was registered for it. */
  lemma ResolvedWithOwnData(steps: seq<Step>, id: Id) returns (k: nat)
    requires Valid(Start, steps) && id in ClientOf(Exec(Start, steps)).resolved
    ensures var futures := RegisteredIn(RunEffects(Start, steps));
            && k < |futures| && futures[k].0 == id
            && ClientOf(Exec(Start, steps)).resolved[id] == FinalData(futures[k].1)
  {
    var (r, futures) := (Exec(Start, steps), RegisteredIn(RunEffects(Start, steps)));
    AllDataConserved(steps);
    ResolvedWasWritten(r.out, id);
    k := DataFrom(futures, (id, ClientOf(r).resolved[id]));
  }

  lemma AllDataConserved(steps: seq<Step>)
    requires Valid(Start, steps)
    ensures DataConserved(Exec(Start, steps), RegisteredIn(RunEffects(Start, steps)))
  {
    var futures := RegisteredIn(RunEffects(Start, steps));
    assert DataOf([]) == [];
    RunConservesData(Start, steps, []);
    assert [] + futures == futures;
  }

  lemma DataFrom(futures: seq<(Id, Fut)>, pair: (Id, string)) returns (k: nat)
    requires pair in multiset(DataOf(futures))
    ensures k < |futures| && futures[k].0 == pair.0 && FinalData(futures[k].1) == pair.1
  {
    assert pair in DataOf(futures);
    k :| 0 <= k < |futures| && DataOf(futures)[k] == pair;
  }

  /** So an id that was registered once, with `f`, is resolved with the result of `f`. */
  lemma OneFutureOneResult(steps: seq<Step>, id: Id, k: nat)
    requires Valid(Start, steps) && k < |RegisteredIn(RunEffects(Start, steps))|
    requires var futures := RegisteredIn(RunEffects(Start, steps));
             futures[k].0 == id && forall l | 0 <= l < |futures| && l != k :: futures[l].0 != id
    ensures id in ClientOf(Exec(Start, steps)).resolved ==>
              ClientOf(Exec(Start, steps)).resolved[id] == FinalData(RegisteredIn(RunEffects(Start, steps))[k].1)
  {
    if id in ClientOf(Exec(Start, steps)).resolved {
      var l := ResolvedWithOwnData(steps, id);
    }
  }

  /** When the stream may end, exactly the results of the registered futures have been written. */
  lemma EndDeliversAll(steps: seq<Step>)
    requires Valid(Start, steps) && Enabled(Exec(Start, steps), End)
    ensures ResolvedData(Exec(Start, steps).out) == multiset(DataOf(RegisteredIn(RunEffects(Start, steps))))
  {
    AllDataConserved(steps);
    assert DataOf([]) == [];
  }
}
