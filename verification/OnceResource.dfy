/**
 `ArcOnceResource`: a loader, pollers and suspense readers interleave over `value`,
 `loading`, `wakers` and `pending_suspenses`. One step is one lock section.
 */
module OnceResource {
  import opened Basics

  type Value = string

  // ---------- Shared state and its lock sections ----------

  datatype Shared = Shared(value: Option<Value>, loading: bool, wakers: seq<nat>, pendingSuspenses: seq<nat>)

  class ArcOnceResource {
    var value: Option<Value>
    var loading: bool
    var wakers: seq<nat>
    var pendingSuspenses: seq<nat>

    /** `initial` is the value already serialized by the server, if any. */
    constructor (initial: Option<Value>)
      ensures State() == Fresh(initial).shared
      ensures value == initial && loading == initial.None? && wakers == [] && pendingSuspenses == []
    {
      value, loading, wakers, pendingSuspenses := initial, initial.None?, [], [];
    }

    ghost function State(): Shared
      reads this
    {
      Shared(value, loading, wakers, pendingSuspenses)
    }

    method WriteValue(v: Value, ghost s: System)
      requires s.shared == State() && Enabled(s, Step.WriteValue(v))
      modifies this
      ensures State() == Next(s, Step.WriteValue(v)).shared && (Inv(s) ==> Inv(Next(s, Step.WriteValue(v))))
    {
      value := Some(v);
      if Inv(s) {
        StepKeeps(s, Step.WriteValue(v));
      }
    }

    method TakeSuspenses(ghost s: System) returns (handles: seq<nat>)
      requires s.shared == State() && Enabled(s, Step.TakeSuspenses)
      modifies this
      ensures State() == Next(s, Step.TakeSuspenses).shared && (Inv(s) ==> Inv(Next(s, Step.TakeSuspenses)))
      ensures Next(s, Step.TakeSuspenses).loader == Releasing(handles)
    {
      handles := pendingSuspenses;
      pendingSuspenses := [];
      if Inv(s) {
        StepKeeps(s, Step.TakeSuspenses);
      }
    }

    /** Clears `loading` and takes the wakers under one lock: those of the polls that returned Pending, each once. */
    method ClearLoading(ghost s: System) returns (taken: seq<nat>)
      requires s.shared == State() && Enabled(s, Step.ClearLoading)
      modifies this
      ensures State() == Next(s, Step.ClearLoading).shared && (Inv(s) ==> Inv(Next(s, Step.ClearLoading)))
      ensures Next(s, Step.ClearLoading).loader == Waking(taken)
      ensures Inv(s) ==> forall p: nat ::
                multiset(taken)[p] == if p < |s.polls| && s.polls[p].ReturnedPending? then 1 else 0
    {
      loading := false;
      taken := wakers;
      wakers := [];
      if Inv(s) {
        StepKeeps(s, Step.ClearLoading);
        forall p: nat
          ensures multiset(taken)[p] == if p < |s.polls| && s.polls[p].ReturnedPending? then 1 else 0
        {
          assert Occurrences(s, p) == multiset(taken)[p];
        }
      }
    }

    /** The section shared by `OnceResourceFuture::poll` and the ready future: check the flag, then register. */
    method CheckOrRegister(waker: nat, ghost s: System) returns (pending: bool)
      requires s.shared == State() && waker == |s.polls|
      modifies this
      ensures State() == Next(s, StartPoll).shared && (Inv(s) ==> Inv(Next(s, StartPoll)))
      ensures Next(s, StartPoll).polls[waker] == if pending then ReturnedPending else SawLoaded
    {
      pending := loading;
      if loading {
        wakers := wakers + [waker];
      }
      if Inv(s) {
        StepKeeps(s, StartPoll);
      }
    }

    method PushSuspense(handle: nat, ghost s: System)
      requires s.shared == State() && Enabled(s, PushHandle(handle))
      modifies this
      ensures State() == Next(s, PushHandle(handle)).shared && (Inv(s) ==> Inv(Next(s, PushHandle(handle))))
    {
      pendingSuspenses := pendingSuspenses + [handle];
      if Inv(s) {
        StepKeeps(s, PushHandle(handle));
      }
    }

    /** `OnceResourceFuture::poll`: the `unwrap` of the value is safe, and a Pending poll has left its waker. */
    method Poll(waker: nat, ghost s: System) returns (result: Option<Value>, ghost steps: seq<Step>)
      requires s.shared == State() && waker == |s.polls| && Inv(s)
      modifies this
      ensures Valid(s, steps) && State() == Exec(s, steps).shared && Inv(Exec(s, steps))
      ensures result.None? ==> Exec(s, steps).polls == s.polls + [ReturnedPending] && waker in wakers
      ensures result.Some? ==> Exec(s, steps).polls == s.polls + [ReturnedReady(result.value)] && result == old(value)
    {
      var pending := CheckOrRegister(waker, s);
      ghost var polled := Next(s, StartPoll);
      ghost var finish: seq<Step> := [];
      result := None;
      if !pending {
        result := Some(value.value);
        finish := [FinishPoll(waker)] + [];
        ExecFirst(polled, FinishPoll(waker), []);
        StepKeeps(polled, FinishPoll(waker));
      }
      ExecFirst(s, StartPoll, finish);
      steps := [StartPoll] + finish;
    }

    /**
     `try_read_untracked` inside a suspense, not interrupted: a loaded resource takes no handle; otherwise the handle
     is pushed, and a task spawned that will release it.
     */
    method TryRead(handle: nat, waker: nat, ghost s: System) returns (pending: bool, ghost steps: seq<Step>)
      requires s.shared == State() && handle == |s.readers| && waker == |s.polls| && Inv(s)
      modifies this
      ensures Valid(s, steps) && State() == Exec(s, steps).shared && Inv(Exec(s, steps))
      ensures pending <==> old(value).None?
      ensures !pending ==> Exec(s, steps) == s
      ensures pending ==>
                && pendingSuspenses == old(pendingSuspenses) + [handle] && wakers == old(wakers) + [waker]
                && Exec(s, steps).readers == s.readers + [Runnable] && Exec(s, steps).live == s.live + {handle}
    {
      steps, pending := [], false;
      if value.Some? {
        return;
      }
      ghost var s2, s3 := ReadSections(s);
      pending := CheckOrRegister(waker, s2);
      if pending {
        PushSuspense(handle, s3);
      }
      steps := ReadRun(s);
      RunKeeps(s, steps);
      assert wakers == old(wakers) + [waker];
    }

    /** The loader task once its future is done: its sections in order are a run of the system. */
    method Load(v: Value, ghost s: System) returns (released: seq<nat>, woken: seq<nat>, ghost steps: seq<Step>)
      requires s.shared == State() && s.loader.Loading? && Inv(s)
      modifies this
      ensures Valid(s, steps) && State() == Exec(s, steps).shared
      ensures Exec(s, steps).loader.Finished? && Inv(Exec(s, steps))
      ensures value == Some(v) && !loading && wakers == [] && pendingSuspenses == []
      ensures released == old(pendingSuspenses) && Exec(s, steps).live == s.live - (set h | h in released)
      ensures forall p: nat :: multiset(woken)[p] == if p < |s.polls| && s.polls[p].ReturnedPending? then 1 else 0
    {
      WriteValue(v, s);
      ghost var s1 := Next(s, Step.WriteValue(v));
      released := TakeSuspenses(s1);
      ghost var s2 := Next(s1, Step.TakeSuspenses);
      ghost var releasing := ReleaseAll(s2);
      ghost var s3 := Exec(s2, releasing);
      RunKeeps(s2, releasing);
      woken := ClearLoading(s3);
      ghost var s4 := Next(s3, Step.ClearLoading);
      ghost var waking := WakeAll(s4);
      RunKeeps(s4, waking);
      ghost var s5 := Exec(s4, waking);
      StepKeeps(s5, FinishLoader);
      steps := LoaderRun(s, v, releasing, waking);
    }
  }

  /** The loop that releases the handles one by one. */
  lemma {:induction false} ReleaseAll(s: System) returns (steps: seq<Step>)
    requires s.loader.Releasing?
    ensures Valid(s, steps)
    ensures Exec(s, steps) == s.(loader := Releasing([]), live := s.live - (set h | h in s.loader.handles))
    decreases |s.loader.handles|
  {
    if s.loader.handles == [] {
      steps := [];
    } else {
      var s' := Next(s, ReleaseNext);
      var rest := ReleaseAll(s');
      steps := [ReleaseNext] + rest;
      assert steps[1..] == rest;
      assert s.loader.handles == [s.loader.handles[0]] + s'.loader.handles;
    }
  }

  /** The loop that wakes the wakers one by one. */
  lemma {:induction false} WakeAll(s: System) returns (steps: seq<Step>)
    requires s.loader.Waking?
    ensures Valid(s, steps)
    ensures Exec(s, steps) == s.(loader := Waking([]), woken := s.woken + multiset(s.loader.taken))
    decreases |s.loader.taken|
  {
    if s.loader.taken == [] {
      steps := [];
    } else {
      var s' := Next(s, WakeNext);
      var rest := WakeAll(s');
      steps := [WakeNext] + rest;
      assert steps[1..] == rest;
      assert s.loader.taken == [s.loader.taken[0]] + s'.loader.taken;
    }
  }

  lemma {:induction false} ExecConcat(s: System, a: seq<Step>, b: seq<Step>)
    requires Valid(s, a) && Valid(Exec(s, a), b)
    ensures Valid(s, a + b) && Exec(s, a + b) == Exec(Exec(s, a), b)
    decreases |a|
  {
    if a == [] {
      assert a + b == b;
    } else {
      assert (a + b)[0] == a[0] && (a + b)[1..] == a[1..] + b;
      ExecConcat(Next(s, a[0]), a[1..], b);
    }
  }

  lemma ExecFirst(s: System, step: Step, rest: seq<Step>)
    requires Enabled(s, step) && Valid(Next(s, step), rest)
    ensures Valid(s, [step] + rest) && Exec(s, [step] + rest) == Exec(Next(s, step), rest)
  {
    assert ([step] + rest)[1..] == rest;
  }

  /** The states in which a reader that finds no value checks the flag and pushes its handle. */
  lemma ReadSections(s: System) returns (s2: System, s3: System)
    requires Inv(s) && s.shared.value.None?
    ensures s2 == Next(Next(s, StartRead), TakeHandle(|s.readers|)) && Enabled(s2, ProbeReady(|s.readers|))
    ensures s2.shared == s.shared && s2.polls == s.polls && s.shared.loading
    ensures s3 == Next(s2, ProbeReady(|s.readers|)) && Enabled(s3, PushHandle(|s.readers|))
    ensures s3.shared == Next(s2, StartPoll).shared
  {
    var r := |s.readers|;
    var s1 := Next(s, StartRead);
    assert At(s1, r, Checked);
    s2 := Next(s1, TakeHandle(r));
    assert At(s2, r, HoldsHandle) && s2.shared == s.shared;
    s3 := Next(s2, ProbeReady(r));
    assert At(s3, r, MustPush);
  }

  /** The sections of a reader put together. */
  lemma ReadRun(s: System) returns (steps: seq<Step>)
    requires Inv(s) && s.shared.value.None?
    ensures Valid(s, steps)
    ensures var r := |s.readers|;
            Exec(s, steps) == Polled(s).(
              shared := Polled(s).shared.(pendingSuspenses := s.shared.pendingSuspenses + [r]),
              readers := s.readers + [Runnable], live := s.live + {r})
  {
    var r := |s.readers|;
    var s2, s3 := ReadSections(s);
    var s4 := Next(s3, PushHandle(r));
    assert s4.readers == s.readers + [MustSpawn];
    assert Next(s4, Spawn(r)).readers == s.readers + [Runnable];
    ExecFirst(s4, Spawn(r), []);
    var tail := [PushHandle(r)] + ([Spawn(r)] + []);
    ExecFirst(s3, PushHandle(r), [Spawn(r)] + []);
    ExecFirst(s2, ProbeReady(r), tail);
    ExecFirst(Next(s, StartRead), TakeHandle(r), [ProbeReady(r)] + tail);
    ExecFirst(s, StartRead, [TakeHandle(r)] + ([ProbeReady(r)] + tail));
    steps := [StartRead] + ([TakeHandle(r)] + ([ProbeReady(r)] + tail));
  }

  /** The sections of the loader put together. */
  lemma LoaderRun(s: System, v: Value, releasing: seq<Step>, waking: seq<Step>) returns (steps: seq<Step>)
    requires s.loader.Loading?
    requires var s2 := Next(Next(s, WriteValue(v)), TakeSuspenses);
             && Valid(s2, releasing) && Exec(s2, releasing).loader == Releasing([])
             && var s4 := Next(Exec(s2, releasing), ClearLoading);
                Valid(s4, waking) && Exec(s4, waking).loader == Waking([])
    ensures var s4 := Next(Exec(Next(Next(s, WriteValue(v)), TakeSuspenses), releasing), ClearLoading);
            Valid(s, steps) && Exec(s, steps) == Next(Exec(s4, waking), FinishLoader)
  {
    var s1 := Next(s, WriteValue(v));
    var s2 := Next(s1, TakeSuspenses);
    var s3 := Exec(s2, releasing);
    var s4 := Next(s3, ClearLoading);
    var s5 := Exec(s4, waking);
    ExecFirst(s5, FinishLoader, []);
    ExecConcat(s4, waking, [FinishLoader] + []);
    var tail := waking + ([FinishLoader] + []);
    ExecFirst(s3, ClearLoading, tail);
    ExecConcat(s2, releasing, [ClearLoading] + tail);
    var middle := releasing + ([ClearLoading] + tail);
    ExecFirst(s1, TakeSuspenses, middle);
    ExecFirst(s, WriteValue(v), [TakeSuspenses] + middle);
    steps := [WriteValue(v)] + ([TakeSuspenses] + middle);
  }

  function CheckedState(s: Shared, waker: nat): Shared {
    if s.loading then s.(wakers := s.wakers + [waker]) else s
  }

  // ---------- The system ----------

  datatype Loader =
    | Loading
    | ValueWritten
    | Releasing(handles: seq<nat>)
    | Waking(taken: seq<nat>)
    | Finished

  /** Outcome of one poll; its position in the list of polls is its waker. */
  datatype PollState = ReturnedPending | SawLoaded | ReturnedReady(v: Value)

  /** A reader inside a suspense; its position is its task handle. `Runnable` and `Parked` are its spawned task. */
  datatype Reader = Checked | HoldsHandle | MustPush | MustSpawn | Runnable | Parked(waker: nat) | Done

  datatype System = System(
    shared: Shared, loader: Loader, polls: seq<PollState>, readers: seq<Reader>, live: set<nat>, woken: multiset<nat>)

  function Fresh(initial: Option<Value>): System {
    System(Shared(initial, initial.None?, [], []), if initial.None? then Loading else Finished, [], [], {}, multiset{})
  }

  datatype Step =
    | WriteValue(v: Value) | TakeSuspenses | ReleaseNext | ClearLoading | WakeNext | FinishLoader
    | StartPoll | FinishPoll(poll: nat)
    | StartRead | TakeHandle(r: nat) | ProbeReady(r: nat) | PushHandle(r: nat) | Spawn(r: nat) | RunTask(r: nat)

  predicate At(s: System, r: nat, pc: Reader) {
    r < |s.readers| && s.readers[r] == pc
  }

  predicate Enabled(s: System, step: Step) {
    match step
    case WriteValue(_) => s.loader.Loading?
    case TakeSuspenses => s.loader.ValueWritten?
    case ReleaseNext => s.loader.Releasing? && s.loader.handles != []
    case ClearLoading => s.loader == Releasing([])
    case WakeNext => s.loader.Waking? && s.loader.taken != []
    case FinishLoader => s.loader == Waking([])
    case StartPoll => true
    case FinishPoll(p) => p < |s.polls| && s.polls[p].SawLoaded? && s.shared.value.Some?
    case StartRead => s.shared.value.None?
    case TakeHandle(r) => At(s, r, Checked)
    case ProbeReady(r) => At(s, r, HoldsHandle)
    case PushHandle(r) => At(s, r, MustPush)
    case Spawn(r) => At(s, r, MustSpawn)
    case RunTask(r) => r < |s.readers| && (s.readers[r].Runnable? || s.readers[r].Parked?)
  }

  /** A poll of the resource or of its ready future. */
  function Polled(s: System): System {
    s.(shared := CheckedState(s.shared, |s.polls|),
       polls := s.polls + [if s.shared.loading then ReturnedPending else SawLoaded])
  }

  function Move(s: System, r: nat, pc: Reader): System
    requires r < |s.readers|
  {
    s.(readers := s.readers[r := pc])
  }

  function Release(s: System, handle: nat): System {
    s.(live := s.live - {handle})
  }

  function Next(s: System, step: Step): System
    requires Enabled(s, step)
  {
    match step
    case WriteValue(v) => s.(shared := s.shared.(value := Some(v)), loader := ValueWritten)
    case TakeSuspenses =>
      s.(shared := s.shared.(pendingSuspenses := []), loader := Releasing(s.shared.pendingSuspenses))
    case ReleaseNext => Release(s, s.loader.handles[0]).(loader := Releasing(s.loader.handles[1..]))
    case ClearLoading => s.(shared := s.shared.(loading := false, wakers := []), loader := Waking(s.shared.wakers))
    case WakeNext => s.(loader := Waking(s.loader.taken[1..]), woken := s.woken + multiset{s.loader.taken[0]})
    case FinishLoader => s.(loader := Finished)
    case StartPoll => Polled(s)
    case FinishPoll(p) => s.(polls := s.polls[p := ReturnedReady(s.shared.value.value)])
    case StartRead => s.(readers := s.readers + [Checked])
    case TakeHandle(r) => Move(s, r, HoldsHandle).(live := s.live + {r})
    case ProbeReady(r) =>
      if s.shared.loading then Move(Polled(s), r, MustPush) else Release(Move(Polled(s), r, Done), r)
    case PushHandle(r) =>
      Move(s, r, MustSpawn).(shared := s.shared.(pendingSuspenses := s.shared.pendingSuspenses + [r]))
    case Spawn(r) => Move(s, r, Runnable)
    case RunTask(r) =>
      if s.shared.loading then Move(Polled(s), r, Parked(|s.polls|)) else Release(Move(Polled(s), r, Done), r)
  }

  predicate Valid(s: System, steps: seq<Step>)
    decreases |steps|
  {
    steps == [] || (Enabled(s, steps[0]) && Valid(Next(s, steps[0]), steps[1..]))
  }

  function Exec(s: System, steps: seq<Step>): System
    requires Valid(s, steps)
    decreases |steps|
  {
    if steps == [] then s else Exec(Next(s, steps[0]), steps[1..])
  }

  // ---------- Invariant ----------

  function Taken(l: Loader): seq<nat> {
    if l.Waking? then l.taken else []
  }

  /** The flag, the loader's place and the value go together. */
  ghost predicate FlagSound(s: System) {
    && (s.shared.loading <==> s.loader.Loading? || s.loader.ValueWritten? || s.loader.Releasing?)
    && (s.loader.Loading? || s.shared.value.Some?)
    && (!s.shared.loading ==> s.shared.wakers == [])
    && (s.shared.loading ==> s.woken == multiset{})
    && (forall p | 0 <= p < |s.polls| && s.polls[p].SawLoaded? :: !s.shared.loading)
  }

  /** How often waker `p` is registered, taken by the loader, or woken. */
  ghost function Occurrences(s: System, p: nat): nat {
    multiset(s.shared.wakers)[p] + multiset(Taken(s.loader))[p] + s.woken[p]
  }

  /** The waker of a pending poll is in exactly one place, any other waker nowhere. */
  ghost predicate WakersConserved(s: System) {
    forall p: nat :: Occurrences(s, p) == if p < |s.polls| && s.polls[p].ReturnedPending? then 1 else 0
  }

  /** Live handles belong to readers that will still release them. */
  ghost predicate HandlesOwned(s: System) {
    && (forall r | r in s.live :: r < |s.readers| && !s.readers[r].Done? && !s.readers[r].Checked?)
    && (forall r | 0 <= r < |s.readers| && s.readers[r].Parked? ::
          s.readers[r].waker < |s.polls| && s.polls[s.readers[r].waker].ReturnedPending?)
  }

  ghost predicate Inv(s: System) {
    FlagSound(s) && WakersConserved(s) && HandlesOwned(s)
  }

  lemma PolledKeeps(s: System)
    requires FlagSound(s) && WakersConserved(s) && HandlesOwned(s)
    ensures FlagSound(Polled(s)) && WakersConserved(Polled(s)) && HandlesOwned(Polled(s))
  {
    var s' := Polled(s);
    forall p: nat
      ensures Occurrences(s', p) == if p < |s'.polls| && s'.polls[p].ReturnedPending? then 1 else 0
    {
      assert Occurrences(s, p) == if p < |s.polls| && s.polls[p].ReturnedPending? then 1 else 0;
    }
  }

  lemma WakersUnchanged(s: System, s': System)
    requires WakersConserved(s) && s'.polls == s.polls
    requires forall p: nat :: Occurrences(s', p) == Occurrences(s, p)
    ensures WakersConserved(s')
  {}

  lemma LoaderStepKeeps(s: System, step: Step)
    requires Enabled(s, step) && Inv(s)
    requires step.WriteValue? || step.TakeSuspenses? || step.ReleaseNext? || step.ClearLoading? || step.WakeNext?
          || step.FinishLoader?
    ensures Inv(Next(s, step))
  {
    var s' := Next(s, step);
    if step.WakeNext? {
      assert s.loader.taken == [s.loader.taken[0]] + s.loader.taken[1..];
    }
    forall p: nat ensures Occurrences(s', p) == Occurrences(s, p) {}
    WakersUnchanged(s, s');
  }

  lemma FinishPollKeeps(s: System, p: nat)
    requires Enabled(s, FinishPoll(p)) && Inv(s)
    ensures Inv(Next(s, FinishPoll(p)))
  {
    var s' := Next(s, FinishPoll(p));
    forall q: nat
      ensures Occurrences(s', q) == if q < |s'.polls| && s'.polls[q].ReturnedPending? then 1 else 0
    {
      assert Occurrences(s', q) == Occurrences(s, q);
    }
  }

  lemma ReaderStepKeeps(s: System, step: Step)
    requires Enabled(s, step) && Inv(s)
    requires step.StartRead? || step.TakeHandle? || step.PushHandle? || step.Spawn?
    ensures Inv(Next(s, step))
  {
    var s' := Next(s, step);
    forall p: nat ensures Occurrences(s', p) == Occurrences(s, p) {}
    WakersUnchanged(s, s');
  }

  lemma PollingReaderKeeps(s: System, step: Step)
    requires Enabled(s, step) && Inv(s) && (step.ProbeReady? || step.RunTask?)
    ensures Inv(Next(s, step))
  {
    PolledKeeps(s);
    var s' := Next(s, step);
    forall p: nat ensures Occurrences(s', p) == Occurrences(Polled(s), p) {}
    WakersUnchanged(Polled(s), s');
  }

  lemma StepKeeps(s: System, step: Step)
    requires Enabled(s, step) && Inv(s)
    ensures Inv(Next(s, step))
  {
    match step
    case StartPoll => PolledKeeps(s);
    case FinishPoll(p) => FinishPollKeeps(s, p);
    case ProbeReady(_) => PollingReaderKeeps(s, step);
    case RunTask(_) => PollingReaderKeeps(s, step);
    case StartRead => ReaderStepKeeps(s, step);
    case TakeHandle(_) => ReaderStepKeeps(s, step);
    case PushHandle(_) => ReaderStepKeeps(s, step);
    case Spawn(_) => ReaderStepKeeps(s, step);
    case _ => LoaderStepKeeps(s, step);
  }

  lemma {:induction false} RunKeeps(s: System, steps: seq<Step>)
    requires Valid(s, steps) && Inv(s)
    ensures Inv(Exec(s, steps))
    decreases |steps|
  {
    if steps != [] {
      StepKeeps(s, steps[0]);
      RunKeeps(Next(s, steps[0]), steps[1..]);
    }
  }

  lemma Reachable(initial: Option<Value>, steps: seq<Step>)
    requires Valid(Fresh(initial), steps)
    ensures Inv(Exec(Fresh(initial), steps))
  {
    assert Inv(Fresh(initial));
    RunKeeps(Fresh(initial), steps);
  }

  // ---------- Main results ----------

  /** A poll that saw `loading == false` always finds the value: its `unwrap` cannot fail. */
  lemma UnwrapSafe(initial: Option<Value>, steps: seq<Step>, p: nat)
    requires Valid(Fresh(initial), steps)
    requires var s := Exec(Fresh(initial), steps); p < |s.polls| && s.polls[p].SawLoaded?
    ensures Enabled(Exec(Fresh(initial), steps), FinishPoll(p))
  {
    Reachable(initial, steps);
  }

  /** Once the loader is through, every poll that returned Pending was woken exactly once and none waits. */
  lemma NoLostWakeup(initial: Option<Value>, steps: seq<Step>)
    requires Valid(Fresh(initial), steps) && Exec(Fresh(initial), steps).loader.Finished?
    ensures var s := Exec(Fresh(initial), steps);
            && s.shared.wakers == []
            && forall p: nat | p < |s.polls| :: s.woken[p] == if s.polls[p].ReturnedPending? then 1 else 0
  {
    Reachable(initial, steps);
    var s := Exec(Fresh(initial), steps);
    forall p: nat | p < |s.polls| ensures s.woken[p] == if s.polls[p].ReturnedPending? then 1 else 0 {
      assert Occurrences(s, p) == s.woken[p];
    }
  }

  /** And the waker list stays empty in every continuation. */
  lemma {:induction false} WakersStayEmpty(s: System, more: seq<Step>)
    requires Valid(s, more) && Inv(s) && s.loader.Finished?
    ensures Exec(s, more).loader.Finished? && Exec(s, more).shared.wakers == []
    decreases |more|
  {
    if more != [] {
      StepKeeps(s, more[0]);
      WakersStayEmpty(Next(s, more[0]), more[1..]);
    }
  }

  // ---------- Values ----------

  predicate IsLoaderStep(step: Step) {
    step.WriteValue? || step.TakeSuspenses? || step.ReleaseNext? || step.ClearLoading? || step.WakeNext?
    || step.FinishLoader?
  }

  /** A resource that has its value from the start: nothing to load, to wait for or to release. */
  ghost predicate HasFromStart(s: System, v: Value) {
    && s.loader.Finished? && s.shared == Shared(Some(v), false, [], []) && s.readers == [] && s.live == {}
    && s.woken == multiset{}
    && forall p | 0 <= p < |s.polls| :: s.polls[p].SawLoaded? || s.polls[p] == ReturnedReady(v)
  }

  /** A value the server has serialized is there in every run: no loader ever runs, and no poll is Pending. */
  lemma {:induction false} SerializedValueStays(s: System, v: Value, steps: seq<Step>)
    requires HasFromStart(s, v) && Valid(s, steps)
    ensures HasFromStart(Exec(s, steps), v) && forall step | IsLoaderStep(step) :: !Enabled(Exec(s, steps), step)
    decreases |steps|
  {
    if steps != [] {
      SerializedValueStays(Next(s, steps[0]), v, steps[1..]);
    }
  }

  lemma FreshWithValue(v: Value, steps: seq<Step>)
    requires Valid(Fresh(Some(v)), steps)
    ensures HasFromStart(Exec(Fresh(Some(v)), steps), v)
    ensures forall step | IsLoaderStep(step) :: !Enabled(Exec(Fresh(Some(v)), steps), step)
  {
    SerializedValueStays(Fresh(Some(v)), v, steps);
  }

  /** Without a value at the start and before one is written, every poll is Pending. */
  lemma {:induction false} PendingBeforeWrite(s: System, steps: seq<Step>)
    requires Valid(s, steps) && forall k | 0 <= k < |steps| :: !steps[k].WriteValue?
    requires s.loader.Loading? && s.shared.value.None? && s.shared.loading
    requires forall p | 0 <= p < |s.polls| :: s.polls[p].ReturnedPending?
    ensures var s' := Exec(s, steps);
            && s'.loader.Loading? && s'.shared.value.None? && s'.shared.loading
            && forall p | 0 <= p < |s'.polls| :: s'.polls[p].ReturnedPending?
    decreases |steps|
  {
    if steps != [] {
      PendingBeforeWrite(Next(s, steps[0]), steps[1..]);
    }
  }

  lemma FreshWithoutValue(steps: seq<Step>)
    requires Valid(Fresh(None), steps) && forall k | 0 <= k < |steps| :: !steps[k].WriteValue?
    ensures var s := Exec(Fresh(None), steps);
            s.shared.value.None? && s.shared.loading && forall p | 0 <= p < |s.polls| :: s.polls[p].ReturnedPending?
  {
    PendingBeforeWrite(Fresh(None), steps);
  }

  /** Every finished poll returned the value there is. */
  ghost predicate ValuesAgree(s: System) {
    && (s.loader.Loading? || s.shared.value.Some?)
    && (forall p | 0 <= p < |s.polls| && s.polls[p].ReturnedReady? :: s.shared.value == Some(s.polls[p].v))
    && (s.loader.Loading? ==> s.shared.value.None?)
  }

  /** The value is the one there was or the one the loader writes, and finished polls return it. */
  lemma {:induction false} ValueIsWritten(s: System, steps: seq<Step>)
    requires Valid(s, steps) && ValuesAgree(s)
    ensures var s' := Exec(s, steps);
            && ValuesAgree(s')
            && (s.shared.value.Some? ==> s'.shared.value == s.shared.value)
            && (s'.shared.value.Some? ==>
                  s'.shared.value == s.shared.value || WriteValue(s'.shared.value.value) in steps)
    decreases |steps|
  {
    if steps != [] {
      ValueIsWritten(Next(s, steps[0]), steps[1..]);
    }
  }

  lemma PollsReturnTheValue(initial: Option<Value>, steps: seq<Step>, p: nat)
    requires Valid(Fresh(initial), steps)
    ensures var s := Exec(Fresh(initial), steps);
            p < |s.polls| && s.polls[p].ReturnedReady? ==>
              && s.shared.value == Some(s.polls[p].v)
              && (initial == Some(s.polls[p].v) || WriteValue(s.polls[p].v) in steps)
  {
    ValueIsWritten(Fresh(initial), steps);
  }

  // ---------- Suspense handles ----------

  /** The executor must run this reader: it is not waiting for a wake-up that has not come. */
  predicate MustRun(s: System, r: nat) {
    r < |s.readers| && !s.readers[r].Done? && (s.readers[r].Parked? ==> s.woken[s.readers[r].waker] > 0)
  }

  /** Steps a reader has left once the resource is loaded. */
  function Left(pc: Reader): nat {
    match pc
    case Checked => 5
    case HoldsHandle => 4
    case MustPush => 3
    case MustSpawn => 2
    case Runnable => 1
    case Parked(_) => 1
    case Done => 0
  }

  function StepOf(s: System, r: nat): Step
    requires r < |s.readers|
  {
    match s.readers[r]
    case Checked => TakeHandle(r)
    case HoldsHandle => ProbeReady(r)
    case MustPush => PushHandle(r)
    case MustSpawn => Spawn(r)
    case _ => RunTask(r)
  }

  /** After the loader, no reader is stuck, and each of its steps brings it nearer to its end. */
  lemma ReaderProgresses(s: System, r: nat)
    requires Inv(s) && s.loader.Finished? && r < |s.readers| && !s.readers[r].Done?
    ensures MustRun(s, r) && Enabled(s, StepOf(s, r))
    ensures var s' := Next(s, StepOf(s, r));
            && s'.loader.Finished? && s'.readers[..r] == s.readers[..r] && s'.readers[r + 1..] == s.readers[r + 1..]
            && |s'.readers| == |s.readers| && Left(s'.readers[r]) < Left(s.readers[r])
  {
    if s.readers[r].Parked? {
      var p := s.readers[r].waker;
      assert Occurrences(s, p) == s.woken[p];
    }
  }

  /** When no reader has a step left to make, every handle ever taken has been released. */
  lemma QuietMeansReleased(s: System)
    requires Inv(s) && s.loader.Finished? && forall r: nat :: !MustRun(s, r)
    ensures s.live == {}
  {
    forall r | r in s.live ensures false {
      ReaderProgresses(s, r);
    }
  }

  function TotalLeft(readers: seq<Reader>): nat {
    if readers == [] then 0 else Left(readers[0]) + TotalLeft(readers[1..])
  }

  lemma {:induction false} TotalLeftAt(readers: seq<Reader>, r: nat, pc: Reader)
    requires r < |readers|
    ensures TotalLeft(readers[r := pc]) + Left(readers[r]) == TotalLeft(readers) + Left(pc)
    decreases |readers|
  {
    if r > 0 {
      assert readers[r := pc][1..] == readers[1..][r - 1 := pc];
      TotalLeftAt(readers[1..], r - 1, pc);
    }
  }

  /** A run in which the executor lets unfinished readers move, in whatever order. */
  ghost predicate ReaderRun(s: System, steps: seq<Step>)
    decreases |steps|
  {
    steps == [] ||
    (&& (exists r: nat :: r < |s.readers| && !s.readers[r].Done? && steps[0] == StepOf(s, r))
     && Enabled(s, steps[0]) && ReaderRun(Next(s, steps[0]), steps[1..]))
  }

  lemma ReaderStepCounts(s: System, r: nat)
    requires Inv(s) && s.loader.Finished? && r < |s.readers| && !s.readers[r].Done?
    ensures Enabled(s, StepOf(s, r)) && Inv(Next(s, StepOf(s, r))) && Next(s, StepOf(s, r)).loader.Finished?
    ensures TotalLeft(Next(s, StepOf(s, r)).readers) < TotalLeft(s.readers)
  {
    ReaderProgresses(s, r);
    var s' := Next(s, StepOf(s, r));
    StepKeeps(s, StepOf(s, r));
    assert s'.readers == s.readers[r := s'.readers[r]];
    TotalLeftAt(s.readers, r, s'.readers[r]);
  }

  /** After the loader every such run is bounded, and when it can go no further every handle has been released. */
  lemma {:induction false} ReaderRunsRelease(s: System, steps: seq<Step>)
    requires Inv(s) && s.loader.Finished? && ReaderRun(s, steps)
    ensures Valid(s, steps) && |steps| + TotalLeft(Exec(s, steps).readers) <= TotalLeft(s.readers)
    ensures (forall step :: !ReaderRun(Exec(s, steps), [step])) ==> Exec(s, steps).live == {}
    decreases |steps|
  {
    if steps == [] {
      if exists r: nat :: MustRun(s, r) {
        var r: nat :| MustRun(s, r);
        ReaderStepCounts(s, r);
        assert [StepOf(s, r)][1..] == [];
        assert ReaderRun(s, [StepOf(s, r)]);
      } else {
        QuietMeansReleased(s);
      }
    } else {
      var r: nat :| r < |s.readers| && !s.readers[r].Done? && steps[0] == StepOf(s, r);
      ReaderStepCounts(s, r);
      ReaderRunsRelease(Next(s, steps[0]), steps[1..]);
    }
  }

  /** From any state after the loader such a run to the end exists. */
  lemma {:induction false} HandlesAllReleased(s: System) returns (steps: seq<Step>)
    requires Inv(s) && s.loader.Finished?
    ensures Valid(s, steps) && Exec(s, steps).live == {} && |steps| <= TotalLeft(s.readers)
    decreases TotalLeft(s.readers)
  {
    if exists r: nat :: r < |s.readers| && !s.readers[r].Done? {
      var r: nat :| r < |s.readers| && !s.readers[r].Done?;
      ReaderStepCounts(s, r);
      var step := StepOf(s, r);
      var rest := HandlesAllReleased(Next(s, step));
      steps := [step] + rest;
      assert steps[1..] == rest;
    } else {
      steps := [];
      QuietMeansReleased(s);
    }
  }
}
