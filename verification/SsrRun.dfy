/**
 The server-to-client data stream as a step system: registrations, the snapshot taken by
 `pending_data`, the sections of `AsyncDataStream::poll_next`, and the tail. Emitted text is
 a sequence of commands, which the client replays.
 */
module SsrRun {

  type Id = string

  datatype Error = Error(boundary: Id, errorId: string, message: string)

  /** Calls back into the shared context. */
  datatype Effect =
    | WriteAsync(id: Id, fut: Fut)
    | SetIncomplete(id: Id)
    | RegisterError(error: Error)
    | SealErrors(boundary: Id)

  /** A future as the finite tree of its polls; a pending poll may have woken the future itself. */
  datatype Fut =
    | Ready(effects: seq<Effect>, data: string)
    | Pending(effects: seq<Effect>, wakes: bool, next: Fut)

  datatype Cmd =
    | Init(pending: set<Id>, incomplete: seq<Id>, errors: seq<Error>)
    | PushPending(id: Id)
    | Resolve(id: Id, data: string)
    | PushIncomplete(id: Id)
    | PushError(error: Error)

  datatype Ctx = Ctx(asyncBuf: seq<(Id, Fut)>, errors: seq<Error>, sealed: set<Id>, incomplete: seq<Id>)

  /** `Idle` before the snapshot, `Ended` once `poll_next` gave `None`, `Closed` after the tail. */
  datatype Phase =
    | Idle
    | Live(inFlight: seq<(Id, Fut)>, cursor: nat, snapshot: set<Id>)
    | Ended(cursor: nat, snapshot: set<Id>)
    | Closed(snapshot: set<Id>)

  datatype Fate = InInitialChunk | Streamed | Dropped

  /** History: every registration made, and what became of every error taken from the buffer. */
  datatype Log = Log(registered: seq<Id>, reported: seq<Error>, fates: seq<(Error, Fate)>)

  datatype Run = Run(ctx: Ctx, phase: Phase, out: seq<Cmd>, log: Log)

  const Start := Run(Ctx([], [], {}, []), Idle, [], Log([], [], []))

  datatype Step = External(effect: Effect) | Snapshot | Stage | Poll(k: nat) | FlushMarkers | DrainErrors | End | Tail

  // ---------- Steps ----------

  function Perform(r: Run, e: Effect): Run {
    match e
    case WriteAsync(id, fut) =>
      r.(ctx := r.ctx.(asyncBuf := r.ctx.asyncBuf + [(id, fut)]), log := r.log.(registered := r.log.registered + [id]))
    case SetIncomplete(id) => r.(ctx := r.ctx.(incomplete := r.ctx.incomplete + [id]))
    case RegisterError(error) =>
      r.(ctx := r.ctx.(errors := r.ctx.errors + [error]), log := r.log.(reported := r.log.reported + [error]))
    case SealErrors(boundary) => r.(ctx := r.ctx.(sealed := r.ctx.sealed + {boundary}))
  }

  function PerformAll(r: Run, es: seq<Effect>): Run
    decreases |es|
  {
    if es == [] then r else PerformAll(Perform(r, es[0]), es[1..])
  }

  function WithFate(errors: seq<Error>, fate: Fate): seq<(Error, Fate)> {
    seq(|errors|, k requires 0 <= k < |errors| => (errors[k], fate))
  }

  /** Errors of boundaries that are sealed now are dropped, the others streamed. */
  function Sort(errors: seq<Error>, sealed: set<Id>): seq<(Error, Fate)> {
    seq(|errors|, k requires 0 <= k < |errors| =>
                    (errors[k], if errors[k].boundary in sealed then Dropped else Streamed))
  }

  function ErrorPushes(errors: seq<Error>, sealed: set<Id>): seq<Cmd> {
    if errors == [] then []
    else (if errors[0].boundary in sealed then [] else [PushError(errors[0])]) + ErrorPushes(errors[1..], sealed)
  }

  function MarkerPushes(ids: seq<Id>): seq<Cmd> {
    if ids == [] then [] else [PushIncomplete(ids[0])] + MarkerPushes(ids[1..])
  }

  function Announce(id: Id, data: string, snapshot: set<Id>): seq<Cmd> {
    (if id in snapshot then [] else [PushPending(id)]) + [Resolve(id, data)]
  }

  predicate Enabled(r: Run, s: Step) {
    match s
    case External(_) => true
    case Snapshot => r.phase.Idle?
    case Poll(k) => r.phase.Live? && k < |r.phase.inFlight|
    case End => r.phase.Live? && r.phase.inFlight == [] && r.ctx.asyncBuf == []
    case FlushMarkers => r.phase.Live? && r.phase.cursor <= |r.ctx.incomplete|
    case Tail => r.phase.Ended? && r.phase.cursor <= |r.ctx.incomplete|
    case _ => r.phase.Live?
  }

  function PollFuture(r: Run, k: nat): Run
    requires Enabled(r, Poll(k))
  {
    var (id, fut) := r.phase.inFlight[k];
    var r' := PerformAll(r, fut.effects);
    match fut
    case Pending(_, _, next) => r'.(phase := r.phase.(inFlight := r.phase.inFlight[k := (id, next)]))
    case Ready(_, data) =>
      r'.(phase := r.phase.(inFlight := r.phase.inFlight[..k] + r.phase.inFlight[k + 1..]),
          out := r.out + Announce(id, data, r.phase.snapshot))
  }

  function Next(r: Run, s: Step): Run
    requires Enabled(r, s)
  {
    match s
    case External(e) => Perform(r, e)
    case Snapshot =>
      var pending := set p | p in r.ctx.asyncBuf :: p.0;
      Run(r.ctx.(errors := []),
          Live([], |r.ctx.incomplete|, pending),
          r.out + [Init(pending, r.ctx.incomplete, r.ctx.errors)],
          r.log.(fates := r.log.fates + WithFate(r.ctx.errors, InInitialChunk)))
    case Stage =>
      r.(ctx := r.ctx.(asyncBuf := []), phase := r.phase.(inFlight := r.phase.inFlight + r.ctx.asyncBuf))
    case Poll(k) => PollFuture(r, k)
    case FlushMarkers =>
      r.(phase := Live(r.phase.inFlight, |r.ctx.incomplete|, r.phase.snapshot),
         out := r.out + MarkerPushes(r.ctx.incomplete[r.phase.cursor..]))
    case DrainErrors =>
      r.(ctx := r.ctx.(errors := []),
         out := r.out + ErrorPushes(r.ctx.errors, r.ctx.sealed),
         log := r.log.(fates := r.log.fates + Sort(r.ctx.errors, r.ctx.sealed)))
    case End => r.(phase := Ended(r.phase.cursor, r.phase.snapshot))
    case Tail =>
      r.(phase := Closed(r.phase.snapshot), out := r.out + MarkerPushes(r.ctx.incomplete[r.phase.cursor..]))
  }

  predicate Valid(r: Run, steps: seq<Step>)
    decreases |steps|
  {
    steps == [] || (Enabled(r, steps[0]) && Valid(Next(r, steps[0]), steps[1..]))
  }

  function Exec(r: Run, steps: seq<Step>): Run
    requires Valid(r, steps)
    decreases |steps|
  {
    if steps == [] then r else Exec(Next(r, steps[0]), steps[1..])
  }

  lemma {:induction false} ExecConcat(r: Run, a: seq<Step>, b: seq<Step>)
    requires Valid(r, a) && Valid(Exec(r, a), b)
    ensures Valid(r, a + b) && Exec(r, a + b) == Exec(Exec(r, a), b)
    decreases |a|
  {
    if a == [] {
      assert a + b == b;
    } else {
      assert (a + b)[0] == a[0] && (a + b)[1..] == a[1..] + b;
      ExecConcat(Next(r, a[0]), a[1..], b);
    }
  }

  // ---------- The client ----------

  /** `unannounced`: resolutions of ids not yet pending; `repeated`: announcements of ids already pending. */
  datatype Client = Client(
    pending: set<Id>, resolved: map<Id, string>, incomplete: seq<Id>, errors: seq<Error>,
    unannounced: nat, repeated: nat)

  const Blank := Client({}, map[], [], [], 0, 0)

  function Receive(c: Client, cmd: Cmd): Client {
    match cmd
    case Init(pending, incomplete, errors) =>
      c.(pending := pending, resolved := map[], incomplete := incomplete, errors := errors)
    case PushPending(id) =>
      c.(pending := c.pending + {id}, repeated := c.repeated + if id in c.pending then 1 else 0)
    case Resolve(id, data) =>
      c.(resolved := c.resolved[id := data], unannounced := c.unannounced + if id in c.pending then 0 else 1)
    case PushIncomplete(id) => c.(incomplete := c.incomplete + [id])
    case PushError(error) => c.(errors := c.errors + [error])
  }

  function Replay(c: Client, cmds: seq<Cmd>): Client
    decreases |cmds|
  {
    if cmds == [] then c else Replay(Receive(c, cmds[0]), cmds[1..])
  }

  lemma {:induction false} ReplayConcat(c: Client, a: seq<Cmd>, b: seq<Cmd>)
    ensures Replay(c, a + b) == Replay(Replay(c, a), b)
    decreases |a|
  {
    if a == [] {
      assert a + b == b;
    } else {
      assert (a + b)[0] == a[0] && (a + b)[1..] == a[1..] + b;
      ReplayConcat(Receive(c, a[0]), a[1..], b);
    }
  }

  lemma ReplayOne(c: Client, cmd: Cmd)
    ensures Replay(c, [cmd]) == Receive(c, cmd)
  {
    assert [cmd][1..] == [];
  }

  function ClientOf(r: Run): Client {
    Replay(Blank, r.out)
  }

  lemma {:induction false} MarkersReplayed(c: Client, ids: seq<Id>)
    ensures Replay(c, MarkerPushes(ids)) == c.(incomplete := c.incomplete + ids)
    decreases |ids|
  {
    if ids == [] {
      assert c.incomplete + ids == c.incomplete;
    } else {
      MarkersReplayed(c.(incomplete := c.incomplete + [ids[0]]), ids[1..]);
      assert c.incomplete + [ids[0]] + ids[1..] == c.incomplete + ids;
      assert MarkerPushes(ids)[1..] == MarkerPushes(ids[1..]);
    }
  }

  /** The errors that reached the client, out of those taken from the buffer. */
  function Delivered(fates: seq<(Error, Fate)>): seq<Error> {
    if fates == [] then []
    else Delivered(fates[..|fates| - 1])
         + (if fates[|fates| - 1].1 == Dropped then [] else [fates[|fates| - 1].0])
  }

  lemma {:induction false} DeliveredConcat(a: seq<(Error, Fate)>, b: seq<(Error, Fate)>)
    ensures Delivered(a + b) == Delivered(a) + Delivered(b)
    decreases |b|
  {
    if b == [] {
      assert a + b == a;
    } else {
      assert (a + b)[..|a + b| - 1] == a + b[..|b| - 1];
      DeliveredConcat(a, b[..|b| - 1]);
    }
  }

  lemma {:induction false} ErrorsReplayed(c: Client, errors: seq<Error>, sealed: set<Id>)
    ensures Replay(c, ErrorPushes(errors, sealed)) == c.(errors := c.errors + Delivered(Sort(errors, sealed)))
    decreases |errors|
  {
    if errors == [] {
      assert c.errors + Delivered(Sort(errors, sealed)) == c.errors;
    } else {
      DeliveredFirst(errors, sealed);
      var (e, later) := (errors[0], Delivered(Sort(errors[1..], sealed)));
      if e.boundary in sealed {
        ErrorsReplayed(c, errors[1..], sealed);
        NothingFirst(ErrorPushes(errors[1..], sealed), later);
      } else {
        ErrorsReplayed(c.(errors := c.errors + [e]), errors[1..], sealed);
        PushErrorFirst(c, e, ErrorPushes(errors[1..], sealed));
        ErrorsJoin(c.errors, e, later);
      }
    }
  }

  lemma NothingFirst(cmds: seq<Cmd>, errors: seq<Error>)
    ensures [] + cmds == cmds && [] + errors == errors
  {}

  lemma PushErrorFirst(c: Client, e: Error, rest: seq<Cmd>)
    ensures Replay(c, [PushError(e)] + rest) == Replay(c.(errors := c.errors + [e]), rest)
  {
    assert ([PushError(e)] + rest)[1..] == rest;
  }

  lemma ErrorsJoin(a: seq<Error>, e: Error, b: seq<Error>)
    ensures a + [e] + b == a + ([e] + b)
  {}

  lemma DeliveredFirst(errors: seq<Error>, sealed: set<Id>)
    requires errors != []
    ensures Delivered(Sort(errors, sealed))
         == (if errors[0].boundary in sealed then [] else [errors[0]]) + Delivered(Sort(errors[1..], sealed))
  {
    var (first, rest) := (Sort(errors[..1], sealed), Sort(errors[1..], sealed));
    assert Sort(errors, sealed) == first + rest;
    DeliveredConcat(first, rest);
    assert first[..0] == [];
  }

  lemma {:induction false} InitialErrorsDelivered(errors: seq<Error>)
    ensures Delivered(WithFate(errors, InInitialChunk)) == errors
    decreases |errors|
  {
    if errors != [] {
      var f := WithFate(errors, InInitialChunk);
      assert f[..|f| - 1] == WithFate(errors[..|errors| - 1], InInitialChunk);
      InitialErrorsDelivered(errors[..|errors| - 1]);
    }
  }
}
