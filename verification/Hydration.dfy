/**
 The browser side: root ids drawn while hydrating, and the marker list, which is read from the
 page at the first probe and kept from then on. A session interleaves the server's stream with
 the probes of the client.
 */
module Hydration {
  import opened Basics
  import opened DataIds
  import SsrRun
  import SsrSafety

  /** The client's own copy of the marker list. */
  datatype Markers = Unread | Read(ids: seq<string>)

  /** A probe, and what client and server answer at that moment. */
  datatype Answer = Answer(chunk: string, client: bool, server: bool, hydrating: bool)

  datatype Session = Session(server: SsrRun.Run, markers: Markers, hydrating: bool, answers: seq<Answer>)

  const Opened := Session(SsrRun.Start, Unread, true, [])

  datatype Event = Server(step: SsrRun.Step) | Probe(chunk: string) | Complete

  /** The page has a marker list from the initial chunk on. */
  predicate Possible(t: Session, e: Event) {
    match e
    case Server(step) => SsrRun.Enabled(t.server, step)
    case Probe(_) => !t.server.phase.Idle?
    case Complete => true
  }

  /** The marker list as the page has it now. */
  function Page(t: Session): seq<string> {
    SsrRun.ClientOf(t.server).incomplete
  }

  function After(t: Session, e: Event): Session
    requires Possible(t, e)
  {
    match e
    case Server(step) => t.(server := SsrRun.Next(t.server, step))
    case Complete => t.(hydrating := false)
    case Probe(chunk) =>
      var markers := if t.hydrating && t.markers.Unread? then Read(Page(t)) else t.markers;
      var client := t.hydrating && markers.Read? && chunk in markers.ids;
      t.(markers := markers,
         answers := t.answers + [Answer(chunk, client, chunk in t.server.ctx.incomplete, t.hydrating)])
  }

  predicate CanPlay(t: Session, es: seq<Event>)
    decreases |es|
  {
    es == [] || (Possible(t, es[0]) && CanPlay(After(t, es[0]), es[1..]))
  }

  function Play(t: Session, es: seq<Event>): Session
    requires CanPlay(t, es)
    decreases |es|
  {
    if es == [] then t else Play(After(t, es[0]), es[1..])
  }

  class HydrateSharedContext {
    var id: nat
    var duringHydration: bool
    var incomplete: Markers

    constructor ()
      ensures id == UpValue(0) && Matches(Opened)
    {
      id, duringHydration, incomplete := 0, true, Unread;
    }

    ghost predicate Matches(t: Session)
      reads this
    {
      incomplete == t.markers && duringHydration == t.hydrating
    }

    method NextId(ghost minted: nat) returns (r: string)
      requires id == UpValue(minted)
      modifies this`id
      ensures r == ClientRootIds(minted + 1)[minted] && id == UpValue(minted + 1)
    {
      UpSteps(minted);
      r := Decimal(id);
      id := if id + 1 == U64 then 0 else id + 1;
    }

    method HydrationComplete(ghost t: Session)
      requires Matches(t)
      modifies this`duringHydration
      ensures Matches(After(t, Complete))
    {
      duringHydration := false;
    }

    /** The list is read from the page at the first probe during hydration and kept from then on. */
    method GetIncompleteChunk(chunk: string, page: seq<string>, ghost t: Session) returns (found: bool)
      requires Matches(t) && Possible(t, Probe(chunk)) && page == Page(t)
      modifies this`incomplete
      ensures Matches(After(t, Probe(chunk))) && found == After(t, Probe(chunk)).answers[|t.answers|].client
    {
      found := false;
      if duringHydration {
        if incomplete.Unread? {
          incomplete := Read(page);
        }
        found := chunk in incomplete.ids;
      }
    }
  }

  // ---------- Ids ----------

  /** The first `n` root ids of a client. */
  function ClientRootIds(n: nat): seq<string> {
    seq(n, k requires 0 <= k < n => Decimal(UpValue(k)))
  }

  /** Server and client draw the same root ids, however many non-hydrating or nested ids the server mints in between. */
  lemma RootIdsAgree(es: seq<DataIds.Event>)
    requires Valid(Empty, es)
    ensures IdsFrom(Exec(Empty, es).log, RootUp) == ClientRootIds(Exec(Empty, es).up)
  {
    KthIdFixed(Empty, es, RootUp);
    var ids := IdsFrom(Exec(Empty, es).log, RootUp);
    forall n: nat | n < |ids| ensures ids[n] == Decimal(UpValue(n)) {
      HydratingIdsFixed(es, n);
    }
  }

  // ---------- Answers ----------

  /** What an answer given so far says of the copied list and of the server's list now. */
  ghost predicate AnswerKnown(t: Session, answer: Answer) {
    && (answer.hydrating ==> t.markers.Read? && (answer.client <==> answer.chunk in t.markers.ids))
    && (answer.client ==> answer.hydrating && answer.server)
    && (answer.server ==> answer.chunk in t.server.ctx.incomplete)
  }

  ghost predicate Inv(t: Session) {
    && SsrSafety.Safe(t.server)
    && (t.markers.Read? ==> t.markers.ids <= t.server.ctx.incomplete)
    && forall answer | answer in t.answers :: AnswerKnown(t, answer)
  }

  /** The page shows the server's markers up to the cursor. */
  lemma PageIsPrefix(t: Session)
    requires SsrSafety.Safe(t.server) && !t.server.phase.Idle?
    ensures Page(t) <= t.server.ctx.incomplete
    ensures t.server.phase.Live? || t.server.phase.Ended? ==>
              Page(t) == t.server.ctx.incomplete[..t.server.phase.cursor]
  {}

  lemma MarkersGrow(r: SsrRun.Run, step: SsrRun.Step)
    requires SsrRun.Enabled(r, step)
    ensures r.ctx.incomplete <= SsrRun.Next(r, step).ctx.incomplete
  {
    if step.Poll? {
      SsrSafety.EffectsOnly(r, r.phase.inFlight[step.k].1.effects);
    }
  }

  lemma EventKeeps(t: Session, e: Event)
    requires Possible(t, e) && Inv(t)
    ensures Inv(After(t, e))
  {
    var t' := After(t, e);
    match e
    case Server(step) =>
      SsrSafety.StepSafe(t.server, step);
      MarkersGrow(t.server, step);
      forall answer | answer in t'.answers ensures AnswerKnown(t', answer) {
        assert AnswerKnown(t, answer);
      }
    case Probe(chunk) =>
      PageIsPrefix(t);
      forall answer | answer in t'.answers ensures AnswerKnown(t', answer) {
        assert answer in t.answers ==> AnswerKnown(t, answer);
      }
    case Complete =>
      forall answer | answer in t'.answers ensures AnswerKnown(t', answer) {
        assert AnswerKnown(t, answer);
      }
  }

  lemma {:induction false} SessionKeeps(t: Session, es: seq<Event>)
    requires CanPlay(t, es) && Inv(t)
    ensures Inv(Play(t, es))
    decreases |es|
  {
    if es != [] {
      EventKeeps(t, es[0]);
      SessionKeeps(After(t, es[0]), es[1..]);
    }
  }

  /** The copy, once read, never changes. */
  lemma {:induction false} CopyKept(t: Session, es: seq<Event>)
    requires CanPlay(t, es) && t.markers.Read?
    ensures Play(t, es).markers == t.markers
    decreases |es|
  {
    if es != [] {
      CopyKept(After(t, es[0]), es[1..]);
    }
  }

  /**
   Main result: over every session a client that is hydrating answers from the list it read at its first probe. It
   never calls a chunk incomplete that the server does not, and agrees with the server if and only if that
   list has the chunk or the server has no marker for it either.
   */
  lemma AnswersAgreeExactly(es: seq<Event>, answer: Answer)
    requires CanPlay(Opened, es) && answer in Play(Opened, es).answers
    ensures answer.client ==> answer.server
    ensures var t := Play(Opened, es);
            answer.client == answer.server <==>
            (answer.server ==> answer.hydrating && t.markers.Read? && answer.chunk in t.markers.ids)
  {
    assert SsrSafety.Safe(SsrRun.Start) by { SsrSafety.EveryRunSafe([]); }
    SessionKeeps(Opened, es);
    assert AnswerKnown(Play(Opened, es), answer);
  }

  /** The list a client reads at its first probe, at whatever moment of the stream, and keeps ever after. */
  lemma FirstProbeReads(before: seq<Event>, chunk: string, later: seq<Event>)
    requires CanPlay(Opened, before)
    requires var t := Play(Opened, before); t.markers.Unread? && t.hydrating && Possible(t, Probe(chunk))
    requires CanPlay(After(Play(Opened, before), Probe(chunk)), later)
    ensures var t := Play(Opened, before);
            var markers := Play(After(t, Probe(chunk)), later).markers;
            && markers.Read? && markers.ids <= t.server.ctx.incomplete
            && (t.server.phase.Live? || t.server.phase.Ended? ==>
                  t.server.phase.cursor <= |t.server.ctx.incomplete| &&
                  markers.ids == t.server.ctx.incomplete[..t.server.phase.cursor])
  {
    assert SsrSafety.Safe(SsrRun.Start) by { SsrSafety.EveryRunSafe([]); }
    SessionKeeps(Opened, before);
    PageIsPrefix(Play(Opened, before));
    CopyKept(After(Play(Opened, before), Probe(chunk)), later);
  }

  /** If the copy holds every marker of the server, all answers given while hydrating agree. */
  lemma CompleteCopyAgrees(es: seq<Event>, answer: Answer)
    requires CanPlay(Opened, es) && answer in Play(Opened, es).answers && answer.hydrating
    requires Play(Opened, es).markers == Read(Play(Opened, es).server.ctx.incomplete)
    ensures answer.client == answer.server
  {
    assert SsrSafety.Safe(SsrRun.Start) by { SsrSafety.EveryRunSafe([]); }
    SessionKeeps(Opened, es);
    assert AnswerKnown(Play(Opened, es), answer);
  }

  lemma PlayCons(t: Session, e: Event, rest: seq<Event>)
    requires Possible(t, e) && CanPlay(After(t, e), rest)
    ensures CanPlay(t, [e] + rest) && Play(t, [e] + rest) == Play(After(t, e), rest)
  {
    assert ([e] + rest)[1..] == rest;
  }

  /** A client that probes right after the initial chunk, before the server marks the chunk. */
  function EarlyProbe(): (t: Session)
    ensures t.server.phase.Live? && t.server.phase.cursor == 0 && Page(t) == [] == t.server.ctx.incomplete
    ensures t.markers == Read([]) && t.hydrating && t.answers == [Answer("3", false, false, true)]
  {
    var t := After(Opened, Server(SsrRun.Snapshot));
    assert t.server.out == [t.server.out[0]];
    SsrRun.ReplayOne(SsrRun.Blank, t.server.out[0]);
    After(t, Probe("3"))
  }

  const LateMarker := [Server(SsrRun.External(SsrRun.SetIncomplete("3"))), Server(SsrRun.FlushMarkers), Probe("3")]

  lemma LateMarkerMissed(t: Session)
    requires t.server.phase.Live? && t.server.phase.cursor == 0 && Page(t) == [] == t.server.ctx.incomplete
    requires t.markers == Read([]) && t.hydrating && t.answers == [Answer("3", false, false, true)]
    ensures CanPlay(t, LateMarker) && Page(Play(t, LateMarker)) == ["3"] == Play(t, LateMarker).server.ctx.incomplete
    ensures Play(t, LateMarker).answers == [Answer("3", false, false, true), Answer("3", false, true, true)]
  {
    var t1 := After(t, LateMarker[0]);
    assert t1.server.ctx.incomplete == ["3"] && t1.server.ctx.incomplete[0..] == ["3"];
    SsrSafety.MarkersFlushed(t1.server, SsrRun.FlushMarkers);
    var t2 := After(t1, LateMarker[1]);
    assert Page(t2) == ["3"];
    PlayCons(t2, LateMarker[2], []);
    PlayCons(t1, LateMarker[1], [LateMarker[2]]);
    PlayCons(t, LateMarker[0], [LateMarker[1], LateMarker[2]]);
    assert [LateMarker[2]] + [] == [LateMarker[2]];
    assert LateMarker == [LateMarker[0]] + ([LateMarker[1]] + [LateMarker[2]]);
  }

  /** A marker set after the first probe is never seen, although it has long been streamed to the page. */
  lemma EarlyProbeMisses()
    ensures var es := [Server(SsrRun.Snapshot), Probe("3")] + LateMarker;
            && CanPlay(Opened, es)
            && Page(Play(Opened, es)) == ["3"] == Play(Opened, es).server.ctx.incomplete
            && Play(Opened, es).answers == [Answer("3", false, false, true), Answer("3", false, true, true)]
  {
    var t := After(Opened, Server(SsrRun.Snapshot));
    assert EarlyProbe() == After(t, Probe("3"));
    LateMarkerMissed(EarlyProbe());
    PlayCons(t, Probe("3"), LateMarker);
    PlayCons(Opened, Server(SsrRun.Snapshot), [Probe("3")] + LateMarker);
    assert [Server(SsrRun.Snapshot), Probe("3")] + LateMarker
        == [Server(SsrRun.Snapshot)] + ([Probe("3")] + LateMarker);
  }

  /** After the tail of any run the page's list is the server's, so a first probe made then misses nothing. */
  lemma AnswersAfterTail(steps: seq<SsrRun.Step>)
    requires SsrRun.Valid(SsrRun.Start, steps) && SsrRun.Enabled(SsrRun.Exec(SsrRun.Start, steps), SsrRun.Tail)
    ensures var r := SsrRun.Next(SsrRun.Exec(SsrRun.Start, steps), SsrRun.Tail);
            SsrRun.ClientOf(r).incomplete == r.ctx.incomplete
  {
    SsrSafety.EveryRunSafe(steps);
    SsrSafety.StepKeepsMarkers(SsrRun.Exec(SsrRun.Start, steps), SsrRun.Tail);
  }
}
