/**
 The readiness loop of a suspense boundary: wait until no task is left, walk the children to
 see whether that reveals another read, and repeat across polls until nothing new appears.
 Tasks may finish at any moment, also between a walk and the check that follows it.
 */
module Suspense {

  type Resource = nat

  /** What a walk of the children reads, given the resources that have finished. */
  type View = set<Resource> -> set<Resource>

  /** The closure is at the head of its loop, as it also is between polls; past a walk; or ready. */
  datatype Place = Head | Walked | Ready

  /**
   `tasks` are the reads still loading. For the last walk, `seen` is what had finished when it
   was made and `during` what finished between it and the check after it.
   */
  datatype State = State(
    finished: set<Resource>, tasks: set<Resource>, mayRevealMore: bool, walks: nat, place: Place,
    seen: set<Resource>, during: set<Resource>)

  /** Resources finish; the head of the loop, up to and including a walk; the check after a walk. */
  datatype Step = Finish(done: set<Resource>) | Resume | Check

  predicate Enabled(s: State, step: Step) {
    match step
    case Finish(_) => true
    case Resume => s.place == Head
    case Check => s.place == Walked
  }

  function Next(view: View, strict: bool, s: State, step: Step): State
    requires Enabled(s, step)
  {
    match step
    case Finish(done) =>
      s.(finished := s.finished + done, tasks := s.tasks - done,
         during := if s.place == Walked then s.during + done else s.during)
    case Resume =>
      if s.tasks != {} then s
      else if !s.mayRevealMore then s.(place := Ready)
      else
        s.(tasks := view(s.finished) - s.finished, walks := s.walks + 1, place := Walked,
           seen := s.finished, during := {})
    case Check => s.(mayRevealMore := !strict && s.tasks != {}, place := Head)
  }

  predicate Valid(view: View, strict: bool, s: State, steps: seq<Step>)
    decreases |steps|
  {
    steps == [] || (Enabled(s, steps[0]) && Valid(view, strict, Next(view, strict, s, steps[0]), steps[1..]))
  }

  function Exec(view: View, strict: bool, s: State, steps: seq<Step>): State
    requires Valid(view, strict, s, steps)
    decreases |steps|
  {
    if steps == [] then s else Exec(view, strict, Next(view, strict, s, steps[0]), steps[1..])
  }

  lemma {:induction false} ExecSnoc(view: View, strict: bool, s: State, steps: seq<Step>, step: Step)
    requires Valid(view, strict, s, steps) && Enabled(Exec(view, strict, s, steps), step)
    ensures Valid(view, strict, s, steps + [step])
    ensures Exec(view, strict, s, steps + [step]) == Next(view, strict, Exec(view, strict, s, steps), step)
    decreases |steps|
  {
    if steps == [] {
      assert [step][1..] == [] && steps + [step] == [step];
    } else {
      assert (steps + [step])[0] == steps[0] && (steps + [step])[1..] == steps[1..] + [step];
      ExecSnoc(view, strict, Next(view, strict, s, steps[0]), steps[1..], step);
    }
  }

  ghost predicate Fresh(s: State) {
    s.mayRevealMore && s.walks == 0 && s.place == Head && s.tasks !! s.finished
  }

  // ---------- The closure ----------

  datatype PollResult = Pending | Done

  class TasksReady {
    var finished: set<Resource>
    var tasks: set<Resource>
    var mayRevealMore: bool

    constructor (finished: set<Resource>, tasks: set<Resource>)
      ensures Matches(State(finished, tasks, true, 0, Head, {}, {}))
    {
      this.finished, this.tasks, mayRevealMore := finished, tasks, true;
    }

    ghost predicate Matches(s: State)
      reads this
    {
      finished == s.finished && tasks == s.tasks && mayRevealMore == s.mayRevealMore
    }

    /** Whatever finishes elsewhere before the closure goes on. */
    method OthersFinish(ghost view: View, ghost strict: bool, ghost s: State) returns (ghost step: Step)
      requires Matches(s)
      modifies this
      ensures step.Finish? && Matches(Next(view, strict, s, step))
    {
      var done: set<Resource> := *;
      finished, tasks := finished + done, tasks - done;
      step := Finish(done);
    }

    /** The walk and the check after it. */
    method DryResolve(view: View, strict: bool, ghost s: State) returns (ghost done: Step)
      requires Matches(s) && s.place == Head && s.tasks == {} && s.mayRevealMore
      modifies this
      ensures done.Finish?
      ensures Matches(Next(view, strict, Next(view, strict, Next(view, strict, s, Resume), done), Check))
    {
      tasks := view(finished) - finished;
      done := OthersFinish(view, strict, Next(view, strict, s, Resume));
      mayRevealMore := !strict && tasks != {};
    }

    /** The closure given to `poll_fn`, while other tasks go on; it ends if the view reads finitely many resources. */
    method Poll(view: View, strict: bool, ghost s: State, ghost all: set<Resource>)
      returns (result: PollResult, ghost steps: seq<Step>)
      requires Matches(s) && s.place == Head && ReadsWithin(view, all)
      modifies this
      ensures Valid(view, strict, s, steps) && Matches(Exec(view, strict, s, steps))
      ensures result.Pending? ==> tasks != {} && Exec(view, strict, s, steps).place == Head
      ensures result.Done? ==> tasks == {} && Exec(view, strict, s, steps).place == Ready
    {
      steps := [];
      ghost var now := s;
      while true
        invariant Valid(view, strict, s, steps) && now == Exec(view, strict, s, steps)
        invariant Matches(now) && now.place == Head
        decreases mayRevealMore, |all - finished|, tasks == {}
      {
        ghost var was := now;
        if tasks != {} {
          ExecSnoc(view, strict, s, steps, Resume);
          steps := steps + [Resume];
          return Pending, steps;
        }
        if !mayRevealMore {
          ExecSnoc(view, strict, s, steps, Resume);
          steps := steps + [Resume];
          return Done, steps;
        }
        ghost var done := DryResolve(view, strict, was);
        ghost var checked := Next(view, strict, Next(view, strict, Next(view, strict, was, Resume), done), Check);
        steps := Extended(view, strict, s, steps, done);
        ghost var later := OthersFinish(view, strict, checked);
        ExecSnoc(view, strict, s, steps, later);
        steps, now := steps + [later], Next(view, strict, checked, later);
        FewerLeft(view, strict, was, done, later, all);
      }
    }
  }

  /** Adds a walk, what finishes during it, and its check to a run. */
  lemma Extended(view: View, strict: bool, s: State, steps: seq<Step>, done: Step) returns (longer: seq<Step>)
    requires Valid(view, strict, s, steps) && done.Finish?
    requires var now := Exec(view, strict, s, steps); now.place == Head && now.tasks == {} && now.mayRevealMore
    ensures var now := Exec(view, strict, s, steps);
            && Valid(view, strict, s, longer)
            && Exec(view, strict, s, longer)
            == Next(view, strict, Next(view, strict, Next(view, strict, now, Resume), done), Check)
  {
    ExecSnoc(view, strict, s, steps, Resume);
    ExecSnoc(view, strict, s, steps + [Resume], done);
    ExecSnoc(view, strict, s, steps + [Resume] + [done], Check);
    longer := steps + [Resume] + [done] + [Check];
  }

  /** After one turn the closure stops, or waits for a task, or a resource it read has finished. */
  lemma FewerLeft(view: View, strict: bool, was: State, done: Step, later: Step, all: set<Resource>)
    requires was.place == Head && was.tasks == {} && was.mayRevealMore && ReadsWithin(view, all)
    requires done.Finish? && later.Finish?
    ensures var checked := Next(view, strict, Next(view, strict, Next(view, strict, was, Resume), done), Check);
            var now := Next(view, strict, checked, later);
            && |all - now.finished| <= |all - was.finished|
            && (now.mayRevealMore && now.tasks == {} ==> |all - now.finished| < |all - was.finished|)
  {
    var checked := Next(view, strict, Next(view, strict, Next(view, strict, was, Resume), done), Check);
    var now := Next(view, strict, checked, later);
    SubsetCardinality(all - now.finished, all - was.finished);
    if now.mayRevealMore && now.tasks == {} {
      var x :| x in checked.tasks;
      assert x in view(was.finished) && x !in was.finished;
      assert x in all - was.finished && x !in all - now.finished;
    }
  }

  // ---------- What has finished when the boundary is ready ----------

  ghost predicate Closed(view: View, finished: set<Resource>) {
    view(finished) <= finished
  }

  /** What the last walk found still loading. */
  function Revealed(view: View, s: State): set<Resource> {
    view(s.seen) - s.seen
  }

  /** Tasks of the last walk not left have finished since; a boundary that will not walk again saw none left. */
  ghost predicate WalkKnown(view: View, s: State) {
    && s.tasks !! s.finished
    && s.during <= s.finished
    && (s.walks > 0 ==> s.seen <= s.finished)
    && (s.place == Walked ==> s.walks > 0 && s.tasks == Revealed(view, s) - s.during)
    && (s.place == Ready ==> !s.mayRevealMore)
    && (!s.mayRevealMore ==> s.walks > 0 && (s.place == Walked || Revealed(view, s) <= s.during))
  }

  lemma StepKeepsWalk(view: View, s: State, step: Step)
    requires Enabled(s, step) && WalkKnown(view, s)
    ensures WalkKnown(view, Next(view, false, s, step))
  {
    if step.Check? {
      EmptyDifference(Revealed(view, s), s.during);
    }
  }

  lemma EmptyDifference(a: set<Resource>, b: set<Resource>)
    ensures a - b == {} <==> a <= b
  {
    if a - b == {} {
      forall x | x in a ensures x in b {
        assert x !in a - b;
      }
    }
  }

  lemma {:induction false} RunKeepsWalk(view: View, s: State, steps: seq<Step>)
    requires WalkKnown(view, s) && Valid(view, false, s, steps)
    ensures WalkKnown(view, Exec(view, false, s, steps))
    decreases |steps|
  {
    if steps != [] {
      StepKeepsWalk(view, s, steps[0]);
      RunKeepsWalk(view, Next(view, false, s, steps[0]), steps[1..]);
    }
  }

  ghost predicate Monotone(view: View) {
    forall a: set<Resource>, b: set<Resource> :: a <= b ==> view(a) <= view(b)
  }

  /** A walk goes on according to which of its own reads have finished. */
  ghost predicate Local(view: View) {
    forall a: set<Resource>, b: set<Resource> :: a * view(a) == b * view(a) ==> view(b) == view(a)
  }

  /** What `n` rounds of reading, each after everything read so far has finished, reveal. */
  function Rounds(view: View, n: nat): set<Resource> {
    if n == 0 then {} else view(Rounds(view, n - 1))
  }

  /** A closed set holds every resource that reading can ever reach. */
  lemma {:induction false} ClosedHoldsAllReads(view: View, finished: set<Resource>, n: nat)
    requires Monotone(view) && Closed(view, finished)
    ensures Rounds(view, n) <= finished
  {
    if n > 0 {
      ClosedHoldsAllReads(view, finished, n - 1);
      assert view(Rounds(view, n - 1)) <= view(finished);
    }
  }

  /** More finishing cannot open a closed set. */
  lemma StaysClosed(view: View, seen: set<Resource>, finished: set<Resource>)
    requires Local(view) && Closed(view, seen) && seen <= finished
    ensures Closed(view, finished)
  {
    assert seen * view(seen) == finished * view(seen);
  }

  /**
   Main result: over every run, when a non-strict boundary is ready, what had finished at its last walk is
   closed under what the view reads exactly if no task that walk revealed finished before the check after it.
   */
  lemma ReadyExactly(view: View, s: State, steps: seq<Step>)
    requires Fresh(s) && s.during == {} && Valid(view, false, s, steps) && Exec(view, false, s, steps).place == Ready
    ensures var s' := Exec(view, false, s, steps);
            s'.seen <= s'.finished && (Closed(view, s'.seen) <==> Revealed(view, s') !! s'.during)
  {
    RunKeepsWalk(view, s, steps);
    var s' := Exec(view, false, s, steps);
    assert Revealed(view, s') !! s'.during <==> Revealed(view, s') == {};
    EmptyDifference(view(s'.seen), s'.seen);
  }

  /** In particular, if tasks finish only between polls; then the finished resources hold all the view can ever read. */
  lemma FirstReadyIsClosed(view: View, s: State, steps: seq<Step>)
    requires Fresh(s) && s.during == {} && Valid(view, false, s, steps)
    requires Exec(view, false, s, steps).place == Ready && Exec(view, false, s, steps).during == {}
    ensures var s' := Exec(view, false, s, steps);
            && Closed(view, s'.seen)
            && (Local(view) || s'.finished == s'.seen ==> Closed(view, s'.finished))
            && (Monotone(view) ==> forall n: nat :: Rounds(view, n) <= s'.finished)
  {
    ReadyExactly(view, s, steps);
    var s' := Exec(view, false, s, steps);
    if Local(view) {
      StaysClosed(view, s'.seen, s'.finished);
    }
    if Monotone(view) {
      forall n: nat ensures Rounds(view, n) <= s'.finished {
        ClosedHoldsAllReads(view, s'.seen, n);
      }
    }
  }

  /** The run in which it goes wrong: the one task a walk reveals finishes before the check, and hides another read. */
  lemma FinishingDuringAWalkBreaksIt() returns (view: View, s: State, steps: seq<Step>)
    ensures Fresh(s) && s.during == {} && Monotone(view) && Local(view)
    ensures steps == [Resume, Finish({1}), Check, Resume] && Valid(view, false, s, steps)
    ensures var s' := Exec(view, false, s, steps);
            s'.place == Ready && !Closed(view, s'.finished) && !(Rounds(view, 2) <= s'.finished)
  {
    view := (finished: set<Resource>) => if 1 in finished then {1, 2} else {1};
    s, steps := State({}, {}, true, 0, Head, {}, {}), [Resume, Finish({1}), Check, Resume];
    var walked := State({}, {1}, true, 1, Walked, {}, {});
    var after := State({1}, {}, true, 1, Walked, {}, {1});
    assert Next(view, false, s, Resume) == walked && Next(view, false, walked, Finish({1})) == after;
    var checked := after.(mayRevealMore := false, place := Head);
    var ready := checked.(place := Ready);
    assert Next(view, false, after, Check) == checked && Next(view, false, checked, Resume) == ready;
    assert steps[1..] == [Finish({1}), Check, Resume] && steps[1..][1..] == [Check, Resume];
    assert [Check, Resume][1..] == [Resume] && [Resume][1..] == [];
    assert Exec(view, false, s, steps) == ready;
    assert 2 in view({1}) && Rounds(view, 1) == {1};
    assert Local(view) by {
      forall a: set<Resource>, b: set<Resource> | a * view(a) == b * view(a) ensures view(b) == view(a) {
        assert 1 in view(a);
        assert 1 in a <==> 1 in a * view(a);
        assert 1 in b <==> 1 in b * view(a);
      }
    }
  }

  // ---------- Readiness and progress ----------

  /** What the last walk read has finished or is still a task. */
  ghost predicate ReadsTracked(view: View, s: State) {
    && (s.walks > 0 ==> view(s.seen) <= s.finished + s.tasks && s.seen <= s.finished)
    && (s.place != Head ==> s.walks > 0) && (!s.mayRevealMore ==> s.walks > 0)
    && (s.place == Ready ==> s.tasks == {})
  }

  lemma StepTracksReads(view: View, strict: bool, s: State, step: Step)
    requires Enabled(s, step) && ReadsTracked(view, s)
    ensures ReadsTracked(view, Next(view, strict, s, step))
  {}

  /** A boundary, strict or not, is ready only when it has walked and everything its last walk read has finished. */
  lemma {:induction false} ReadyHasFinished(view: View, strict: bool, s: State, steps: seq<Step>)
    requires ReadsTracked(view, s) && Valid(view, strict, s, steps)
    ensures ReadsTracked(view, Exec(view, strict, s, steps))
    ensures var s' := Exec(view, strict, s, steps);
            s'.place == Ready ==> s'.walks > 0 && s'.tasks == {} && view(s'.seen) <= s'.finished
    decreases |steps|
  {
    if steps != [] {
      StepTracksReads(view, strict, s, steps[0]);
      ReadyHasFinished(view, strict, Next(view, strict, s, steps[0]), steps[1..]);
    }
  }

  /** Once no task is left and the view reads nothing more, one uninterrupted poll makes the boundary ready. */
  lemma BecomesReady(view: View, strict: bool, s: State)
    requires s.place == Head && s.tasks == {} && Closed(view, s.finished)
    ensures var steps := if s.mayRevealMore then [Resume, Check, Resume] else [Resume];
            && Valid(view, strict, s, steps) && Exec(view, strict, s, steps).place == Ready
            && Exec(view, strict, s, steps).finished == s.finished
  {
    assert [Resume][1..] == [] && [Check, Resume][1..] == [Resume];
    if s.mayRevealMore {
      EmptyDifference(view(s.finished), s.finished);
      var steps := [Resume, Check, Resume];
      assert steps[1..] == [Check, Resume];
      var walked := Next(view, strict, s, Resume);
      var checked := Next(view, strict, walked, Check);
      assert walked.tasks == {} && Next(view, strict, checked, Resume).place == Ready;
      assert Exec(view, strict, checked, [Resume]) == Next(view, strict, checked, Resume);
    }
  }

  // ---------- Number of walks ----------

  ghost predicate ReadsWithin(view: View, all: set<Resource>) {
    forall a: set<Resource> :: view(a) <= all
  }

  /** Every earlier walk revealed a resource that had to finish before the next one. */
  ghost predicate WalksBounded(s: State, all: set<Resource>) {
    && s.tasks !! s.finished
    && s.walks <= |s.finished * all| + 1
    && (s.place == Head && s.tasks == {} && s.mayRevealMore ==> s.walks <= |s.finished * all|)
    && (s.walks > 0 ==> s.tasks <= all)
  }

  lemma SubsetCardinality(a: set<Resource>, b: set<Resource>)
    requires a <= b
    ensures |a| <= |b| && (a != b ==> |a| < |b|)
  {
    assert b == a + (b - a);
    assert |b| == |a| + |b - a|;
    if a != b {
      var x :| x in b && x !in a;
      assert x in b - a;
    }
  }

  lemma FinishBounded(view: View, strict: bool, s: State, done: set<Resource>, all: set<Resource>)
    requires WalksBounded(s, all)
    ensures WalksBounded(Next(view, strict, s, Finish(done)), all)
  {
    var s' := Next(view, strict, s, Finish(done));
    SubsetCardinality(s.finished * all, s'.finished * all);
    if s.tasks != {} && s'.tasks == {} && s.walks > 0 {
      var x :| x in s.tasks;
      assert x !in s'.tasks && x in done;
      assert x in s'.finished * all && x !in s.finished * all;
    }
  }

  lemma {:induction false} RunBounded(view: View, strict: bool, s: State, steps: seq<Step>, all: set<Resource>)
    requires ReadsWithin(view, all) && WalksBounded(s, all) && Valid(view, strict, s, steps)
    ensures WalksBounded(Exec(view, strict, s, steps), all)
    decreases |steps|
  {
    if steps != [] {
      if steps[0].Finish? {
        FinishBounded(view, strict, s, steps[0].done, all);
      } else {
        assert view(s.finished) <= all;
      }
      RunBounded(view, strict, Next(view, strict, s, steps[0]), steps[1..], all);
    }
  }

  /** At most one more walk than there are resources, over any run. */
  lemma AtMostOneMoreWalk(view: View, strict: bool, s: State, steps: seq<Step>, all: set<Resource>)
    requires ReadsWithin(view, all) && Fresh(s) && Valid(view, strict, s, steps)
    ensures Exec(view, strict, s, steps).walks <= |all| + 1
  {
    RunBounded(view, strict, s, steps, all);
    SubsetCardinality(Exec(view, strict, s, steps).finished * all, all);
  }

  /** A strict boundary walks its children exactly once before it is ready, whatever finishes meanwhile. */
  lemma {:induction false} StrictWalksOnce(view: View, s: State, steps: seq<Step>)
    requires s.walks == (if s.mayRevealMore && s.place == Head then 0 else 1) && (s.place == Ready ==> !s.mayRevealMore)
    requires Valid(view, true, s, steps)
    ensures var s' := Exec(view, true, s, steps);
            && s'.walks == (if s'.mayRevealMore && s'.place == Head then 0 else 1)
            && (s'.place == Ready ==> s'.walks == 1)
    decreases |steps|
  {
    if steps != [] {
      StrictWalksOnce(view, Next(view, true, s, steps[0]), steps[1..]);
    }
  }
}
