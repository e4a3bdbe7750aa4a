/**
 `ViewMacros::patch`: the stored templates of each file, and a browser-side mirror that
 applies every patch set it is sent.
 */
module ViewMacroPatching {
  import opened Basics
  import opened EditDistance
  import opened Template
  import opened Patching
  import opened TreeDiff
  import opened DiffCorrect
  import opened Slots

  datatype MacroInvocation = MacroInvocation(id: string, template: LNode)

  type Views = seq<MacroInvocation>
  type PatchSet = seq<(string, seq<Patch>)>

  datatype Parsed = Parsed(views: Views) | ParseError
  datatype Outcome = Failed | Ok(patches: Option<PatchSet>)

  predicate Changed(cur: Views, newViews: Views, k: nat)
    requires k < |cur| == |newViews|
  {
    cur[k].id == newViews[k].id && cur[k].template != newViews[k].template
  }

  /** What is sent for the first `k` views. */
  function Diffs(cur: Views, newViews: Views, k: nat): PatchSet
    requires k <= |cur| == |newViews|
  {
    if k == 0 then []
    else Diffs(cur, newViews, k - 1)
         + (if Changed(cur, newViews, k - 1)
            then [(cur[k - 1].id, Diff(cur[k - 1].template, newViews[k - 1].template))] else [])
  }

  class ViewMacros {
    var views: map<string, Views>

    constructor ()
      ensures views == map[]
    {
      views := map[];
    }

    method PatchFile(path: string, parsed: Parsed) returns (outcome: Outcome)
      modifies this
      ensures parsed.ParseError? ==> outcome == Failed && views == old(views)
      ensures parsed.Parsed? && path !in old(views) ==> outcome == Ok(None) && views == old(views)
      ensures parsed.Parsed? && path in old(views) ==> views == old(views)[path := parsed.views]
      ensures parsed.Parsed? && path in old(views) ==>
                outcome == Ok(Sent(old(views)[path], parsed.views))
    {
      if parsed.ParseError? {
        return Failed;
      }
      if path !in views {
        return Ok(None);
      }
      var cur, newViews := views[path], parsed.views;
      if |cur| != |newViews| {
        views := views[path := newViews];
        return Ok(None);
      }
      var diffs: PatchSet := [];
      for k := 0 to |cur|
        invariant diffs == Diffs(cur, newViews, k)
        invariant views == old(views)
      {
        if cur[k].id == newViews[k].id && cur[k].template != newViews[k].template {
          var patches := ComputeDiff(cur[k].template, newViews[k].template);
          diffs := diffs + [(cur[k].id, patches)];
        }
      }
      views := views[path := newViews];
      return Ok(Some(diffs));
    }
  }

  /** The reply to an edit of a known file from `cur` to `newViews`. */
  function Sent(cur: Views, newViews: Views): Option<PatchSet> {
    if |cur| == |newViews| then Some(Diffs(cur, newViews, |cur|)) else None
  }

  // ---------- The mirror ----------

  /** The live tree of every view the browser knows. */
  type Mirror = map<string, Dom>

  function Receive(mirror: Mirror, sent: PatchSet): Option<Mirror>
    decreases |sent|
  {
    if sent == [] then Some(mirror)
    else
      var (id, patches) := sent[0];
      if id !in mirror then None
      else
        match ApplyAll(mirror[id], patches)
        case None => None
        case Some(d) => Receive(mirror[id := d], sent[1..])
  }

  function ReceiveReply(mirror: Mirror, reply: Option<PatchSet>): Option<Mirror> {
    if reply.Some? then Receive(mirror, reply.value) else Some(mirror)
  }

  lemma {:induction false} ReceiveConcat(mirror: Mirror, a: PatchSet, b: PatchSet)
    ensures Receive(mirror, a + b) ==
            (match Receive(mirror, a) case None => None case Some(m) => Receive(m, b))
    decreases |a|
  {
    if a == [] {
      assert a + b == b;
    } else {
      assert (a + b)[0] == a[0] && (a + b)[1..] == a[1..] + b;
      if a[0].0 in mirror && ApplyAll(mirror[a[0].0], a[0].1).Some? {
        ReceiveConcat(mirror[a[0].0 := ApplyAll(mirror[a[0].0], a[0].1).value], a[1..], b);
      }
    }
  }

  ghost predicate DistinctIds(views: Views) {
    forall k, l | 0 <= k < l < |views| :: views[k].id != views[l].id
  }

  /** The browser shows every stored view. */
  ghost predicate InSync(mirror: Mirror, views: Views) {
    forall k | 0 <= k < |views| :: views[k].id in mirror && Shows(mirror[views[k].id], views[k].template)
  }

  /** The patches of every changed view among the first `k` apply to its tree in the mirror. */
  ghost predicate ChangesApply(mirror: Mirror, cur: Views, newViews: Views, k: nat)
    requires k <= |cur| == |newViews|
  {
    forall l: nat | l < k && Changed(cur, newViews, l) ::
      cur[l].id in mirror && ApplyAll(mirror[cur[l].id], Diff(cur[l].template, newViews[l].template)).Some?
  }

  /** The tree that the patches between two templates make of a live tree. */
  ghost function After(d: Dom, oldTree: LNode, newTree: LNode): Dom {
    var result := ApplyAll(d, Diff(oldTree, newTree));
    if result.Some? then result.value else d
  }

  /** The mirror after the first `k` views have been received. */
  ghost function Patched(mirror: Mirror, cur: Views, newViews: Views, k: nat): Mirror
    requires k <= |cur| == |newViews|
  {
    if k == 0 then mirror
    else
      var (m, id) := (Patched(mirror, cur, newViews, k - 1), cur[k - 1].id);
      if Changed(cur, newViews, k - 1) && id in mirror
      then m[id := After(mirror[id], cur[k - 1].template, newViews[k - 1].template)]
      else m
  }

  /** Only the entries of changed views differ. */
  lemma {:induction false} PatchedElsewhere(mirror: Mirror, cur: Views, newViews: Views, k: nat, id: string)
    requires k <= |cur| == |newViews| && forall l: nat | l < k && Changed(cur, newViews, l) :: cur[l].id != id
    ensures var m := Patched(mirror, cur, newViews, k);
            (id in m <==> id in mirror) && (id in mirror ==> m[id] == mirror[id])
  {
    if k > 0 {
      PatchedElsewhere(mirror, cur, newViews, k - 1, id);
    }
  }

  /** The entry of a changed view is what its patches make of it. */
  lemma {:induction false} PatchedEntry(mirror: Mirror, cur: Views, newViews: Views, k: nat, l: nat)
    requires l < k <= |cur| == |newViews| && DistinctIds(cur) && Changed(cur, newViews, l) && cur[l].id in mirror
    ensures cur[l].id in Patched(mirror, cur, newViews, k)
    ensures Patched(mirror, cur, newViews, k)[cur[l].id]
         == After(mirror[cur[l].id], cur[l].template, newViews[l].template)
  {
    if l < k - 1 {
      PatchedEntry(mirror, cur, newViews, k - 1, l);
    }
  }

  lemma ReceiveOne(m: Mirror, id: string, patches: seq<Patch>)
    requires id in m
    ensures Receive(m, [(id, patches)])
         == if ApplyAll(m[id], patches).Some? then Some(m[id := ApplyAll(m[id], patches).value]) else None
  {
    assert [(id, patches)][1..] == [];
  }

  /** The mirror has a tree for every view. */
  ghost predicate Known(mirror: Mirror, views: Views) {
    forall k | 0 <= k < |views| :: views[k].id in mirror
  }

  ghost predicate Received(mirror: Mirror, cur: Views, newViews: Views, k: nat)
    requires k <= |cur| == |newViews|
  {
    Receive(mirror, Diffs(cur, newViews, k))
    == if ChangesApply(mirror, cur, newViews, k) then Some(Patched(mirror, cur, newViews, k)) else None
  }

  /** A patch set is received if and only if each of its scripts applies, and it leaves the patched mirror. */
  lemma {:induction false} DiffsReceived(mirror: Mirror, cur: Views, newViews: Views, k: nat)
    requires k <= |cur| == |newViews| && DistinctIds(cur) && Known(mirror, cur)
    ensures Received(mirror, cur, newViews, k)
  {
    if k > 0 {
      DiffsReceived(mirror, cur, newViews, k - 1);
      if Changed(cur, newViews, k - 1) {
        LastReceived(mirror, cur, newViews, k);
      } else {
        LastApplies(mirror, cur, newViews, k);
        LastSkipped(mirror, cur, newViews, k);
      }
    }
  }

  lemma LastSkipped(mirror: Mirror, cur: Views, newViews: Views, k: nat)
    requires 0 < k <= |cur| == |newViews| && !Changed(cur, newViews, k - 1)
    ensures Diffs(cur, newViews, k) == Diffs(cur, newViews, k - 1)
    ensures Patched(mirror, cur, newViews, k) == Patched(mirror, cur, newViews, k - 1)
  {}

  lemma LastApplies(mirror: Mirror, cur: Views, newViews: Views, k: nat)
    requires 0 < k <= |cur| == |newViews| && Known(mirror, cur)
    ensures ChangesApply(mirror, cur, newViews, k) <==>
            && ChangesApply(mirror, cur, newViews, k - 1)
            && (Changed(cur, newViews, k - 1) ==>
                  ApplyAll(mirror[cur[k - 1].id], Diff(cur[k - 1].template, newViews[k - 1].template)).Some?)
  {}

  /** The patches of the last changed view meet its tree as the mirror had it. */
  lemma LastReceived(mirror: Mirror, cur: Views, newViews: Views, k: nat)
    requires 0 < k <= |cur| == |newViews| && DistinctIds(cur) && Known(mirror, cur) && Changed(cur, newViews, k - 1)
    requires Received(mirror, cur, newViews, k - 1)
    ensures Received(mirror, cur, newViews, k)
  {
    LastApplies(mirror, cur, newViews, k);
    var (m, id) := (Patched(mirror, cur, newViews, k - 1), cur[k - 1].id);
    var patches := Diff(cur[k - 1].template, newViews[k - 1].template);
    LastUntouched(mirror, cur, newViews, k);
    LastDiff(mirror, cur, newViews, k);
    ReceiveOneMore(mirror, Diffs(cur, newViews, k - 1), m, id, patches);
    Joined(Receive(mirror, Diffs(cur, newViews, k - 1)), Receive(mirror, Diffs(cur, newViews, k)), m,
           Patched(mirror, cur, newViews, k), id, ApplyAll(mirror[id], patches),
           ChangesApply(mirror, cur, newViews, k - 1), ChangesApply(mirror, cur, newViews, k));
  }

  lemma Joined(
    before: Option<Mirror>, after: Option<Mirror>, m: Mirror, m': Mirror, id: string, result: Option<Dom>,
    allBefore: bool, all: bool)
    requires before == (if allBefore then Some(m) else None) && (before.None? ==> after.None?) && id in m
    requires before == Some(m) ==> after == (if result.Some? then Some(m[id := result.value]) else None)
    requires m' == m[id := if result.Some? then result.value else m[id]] && (all <==> allBefore && result.Some?)
    ensures after == if all then Some(m') else None
  {}

  lemma LastUntouched(mirror: Mirror, cur: Views, newViews: Views, k: nat)
    requires 0 < k <= |cur| == |newViews| && DistinctIds(cur) && Known(mirror, cur)
    ensures var (m, id) := (Patched(mirror, cur, newViews, k - 1), cur[k - 1].id);
            id in m && id in mirror && m[id] == mirror[id]
  {
    PatchedElsewhere(mirror, cur, newViews, k - 1, cur[k - 1].id);
  }

  lemma LastDiff(mirror: Mirror, cur: Views, newViews: Views, k: nat)
    requires 0 < k <= |cur| == |newViews| && Known(mirror, cur) && Changed(cur, newViews, k - 1)
    ensures var (id, patches) := (cur[k - 1].id, Diff(cur[k - 1].template, newViews[k - 1].template));
            && Diffs(cur, newViews, k) == Diffs(cur, newViews, k - 1) + [(id, patches)]
            && Patched(mirror, cur, newViews, k)
            == Patched(mirror, cur, newViews, k - 1)[
                 id := After(mirror[id], cur[k - 1].template, newViews[k - 1].template)]
  {}

  /** One more entry after a patch set that leaves `m`. */
  lemma ReceiveOneMore(mirror: Mirror, before: PatchSet, m: Mirror, id: string, patches: seq<Patch>)
    requires id in m
    ensures Receive(mirror, before).None? ==> Receive(mirror, before + [(id, patches)]) == None
    ensures Receive(mirror, before) == Some(m) ==>
              var result := ApplyAll(m[id], patches);
              Receive(mirror, before + [(id, patches)]) == if result.Some? then Some(m[id := result.value]) else None
  {
    ReceiveConcat(mirror, before, [(id, patches)]);
    ReceiveOne(m, id, patches);
  }

  /** An edit that keeps the views' number, order and ids, and writes no attribute twice. */
  ghost predicate KeepsIds(cur: Views, newViews: Views) {
    && |cur| == |newViews| && DistinctIds(cur)
    && (forall k | 0 <= k < |cur| :: cur[k].id == newViews[k].id)
    && (forall k | 0 <= k < |cur| :: UniqueAttrs(newViews[k].template))
  }

  /** A view that keeps its place is shown after the edit. */
  lemma KeptView(mirror: Mirror, cur: Views, newViews: Views, k: nat)
    requires k < |cur| == |newViews| && cur[k].id == newViews[k].id && UniqueAttrs(newViews[k].template)
    requires DistinctIds(cur) && InSync(mirror, cur) && ChangesApply(mirror, cur, newViews, |cur|)
    ensures var m := Patched(mirror, cur, newViews, |cur|);
            newViews[k].id in m && Shows(m[newViews[k].id], newViews[k].template)
  {
    if Changed(cur, newViews, k) {
      PatchedEntry(mirror, cur, newViews, |cur|, k);
      DiffShowsNew(mirror[cur[k].id], cur[k].template, newViews[k].template);
    } else {
      PatchedElsewhere(mirror, cur, newViews, |cur|, cur[k].id);
    }
  }

  /** Dynamic parts included: the mirror receives the edit exactly if each script applies, and then shows it. */
  lemma EditKeepsSync(mirror: Mirror, cur: Views, newViews: Views)
    requires KeepsIds(cur, newViews) && InSync(mirror, cur)
    ensures var reply := ReceiveReply(mirror, Sent(cur, newViews));
            && (reply.Some? <==> ChangesApply(mirror, cur, newViews, |cur|))
            && (reply.Some? ==> InSync(reply.value, newViews))
  {
    DiffsReceived(mirror, cur, newViews, |cur|);
    if ChangesApply(mirror, cur, newViews, |cur|) {
      var m := Patched(mirror, cur, newViews, |cur|);
      forall k: nat | k < |newViews| ensures newViews[k].id in m && Shows(m[newViews[k].id], newViews[k].template) {
        KeptView(mirror, cur, newViews, k);
      }
    }
  }

  /** What the server can test before it replies. */
  ghost predicate Deliverable(cur: Views, newViews: Views) {
    |cur| == |newViews| ==>
      forall k: nat | k < |cur| && Changed(cur, newViews, k) :: Applies(cur[k].template, newViews[k].template)
  }

  /** Every tree of the mirror is one a browser can show. */
  ghost predicate Documents(mirror: Mirror) {
    forall id | id in mirror :: Document(mirror[id])
  }

  /** The mirror whose dynamic parts have no content. */
  ghost function BareMirror(views: Views): Mirror
    decreases |views|
  {
    if views == [] then map[]
    else BareMirror(views[..|views| - 1])[views[|views| - 1].id := Bare(views[|views| - 1].template)]
  }

  lemma {:induction false} BareMirrorShows(views: Views, k: nat)
    requires DistinctIds(views) && k < |views|
    ensures views[k].id in BareMirror(views) && BareMirror(views)[views[k].id] == Bare(views[k].template)
    decreases |views|
  {
    if k < |views| - 1 {
      BareMirrorShows(views[..|views| - 1], k);
    }
  }

  lemma {:induction false} BareMirrorIsDocument(views: Views)
    ensures Documents(BareMirror(views))
    decreases |views|
  {
    if views != [] {
      BareMirrorIsDocument(views[..|views| - 1]);
      MarkedShows(views[|views| - 1].template, Text(""));
    }
  }

  lemma BareMirrorInSync(views: Views)
    requires DistinctIds(views)
    ensures InSync(BareMirror(views), views) && Documents(BareMirror(views))
  {
    BareMirrorIsDocument(views);
    forall k | 0 <= k < |views|
      ensures views[k].id in BareMirror(views) && Shows(BareMirror(views)[views[k].id], views[k].template)
    {
      BareMirrorShows(views, k);
      MarkedShows(views[k].template, Text(""));
    }
  }

  /** Every mirror of documents in step receives the edit if and only if the edit is deliverable. */
  lemma EditReceivedExactly(cur: Views, newViews: Views)
    requires KeepsIds(cur, newViews)
    ensures Deliverable(cur, newViews) <==>
            forall mirror | InSync(mirror, cur) && Documents(mirror) :: ReceiveReply(mirror, Sent(cur, newViews)).Some?
  {
    if Deliverable(cur, newViews) {
      forall mirror | InSync(mirror, cur) && Documents(mirror)
        ensures ReceiveReply(mirror, Sent(cur, newViews)).Some?
      {
        DeliverableReceived(mirror, cur, newViews);
      }
    } else {
      BareMirrorInSync(cur);
      BareMirrorRefuses(cur, newViews);
    }
  }

  lemma DeliverableReceived(mirror: Mirror, cur: Views, newViews: Views)
    requires KeepsIds(cur, newViews) && InSync(mirror, cur) && Deliverable(cur, newViews)
    ensures ReceiveReply(mirror, Sent(cur, newViews)).Some?
  {
    EditKeepsSync(mirror, cur, newViews);
    forall k: nat | k < |cur| && Changed(cur, newViews, k)
      ensures ApplyAll(mirror[cur[k].id], Diff(cur[k].template, newViews[k].template)).Some?
    {
      AppliesTo(mirror[cur[k].id], cur[k].template, newViews[k].template);
    }
  }

  lemma BareMirrorRefuses(cur: Views, newViews: Views)
    requires KeepsIds(cur, newViews) && !Deliverable(cur, newViews)
    ensures ReceiveReply(BareMirror(cur), Sent(cur, newViews)).None?
  {
    var mirror := BareMirror(cur);
    BareMirrorInSync(cur);
    EditKeepsSync(mirror, cur, newViews);
    var k: nat :| k < |cur| && Changed(cur, newViews, k) && !Applies(cur[k].template, newViews[k].template);
    BareMirrorShows(cur, k);
    BareDecides(cur[k].template, newViews[k].template);
    assert ApplyAll(mirror[cur[k].id], Diff(cur[k].template, newViews[k].template)).None?;
  }

  /** A mirror following a run of edits of one file. */
  ghost function Follow(mirror: Mirror, cur: Views, edits: seq<Views>): Option<Mirror>
    decreases |edits|
  {
    if edits == [] then Some(mirror)
    else
      match ReceiveReply(mirror, Sent(cur, edits[0]))
      case None => None
      case Some(m) => Follow(m, edits[0], edits[1..])
  }

  ghost predicate AllKeepIds(cur: Views, edits: seq<Views>)
    decreases |edits|
  {
    edits == [] || (KeepsIds(cur, edits[0]) && AllKeepIds(edits[0], edits[1..]))
  }

  ghost predicate AllDeliverable(cur: Views, edits: seq<Views>)
    decreases |edits|
  {
    edits == [] || (Deliverable(cur, edits[0]) && AllDeliverable(edits[0], edits[1..]))
  }

  /** Over any run of such edits a mirror that receives everything, as it does if all are deliverable, stays in step. */
  lemma {:induction false} RunKeepsSync(mirror: Mirror, cur: Views, edits: seq<Views>)
    requires InSync(mirror, cur) && AllKeepIds(cur, edits)
    ensures AllDeliverable(cur, edits) ==> Follow(mirror, cur, edits).Some?
    ensures Follow(mirror, cur, edits).Some? ==>
              InSync(Follow(mirror, cur, edits).value, if edits == [] then cur else edits[|edits| - 1])
    decreases |edits|
  {
    if edits != [] {
      EditKeepsSync(mirror, cur, edits[0]);
      if Deliverable(cur, edits[0]) {
        DeliverableReceived(mirror, cur, edits[0]);
      }
      var reply := ReceiveReply(mirror, Sent(cur, edits[0]));
      if reply.Some? {
        RunKeepsSync(reply.value, edits[0], edits[1..]);
      }
    }
  }

  // ---------- Exactly when one edit keeps the mirror ----------

  ghost predicate Static(views: Views) {
    forall k | 0 <= k < |views| :: IsStatic(views[k].template)
  }

  /** View `k` of the edit keeps its place, or its id already showed the same tree. */
  ghost predicate Tracked(cur: Views, newViews: Views, k: nat)
    requires k < |newViews|
  {
    || (|cur| == |newViews| && cur[k].id == newViews[k].id)
    || exists l | 0 <= l < |cur| ::
         cur[l].id == newViews[k].id && Render(cur[l].template) == Render(newViews[k].template)
  }

  ghost predicate Mirrors(mirror: Mirror, cur: Views) {
    && InSync(mirror, cur)
    && forall id | id in mirror :: exists k | 0 <= k < |cur| :: cur[k].id == id
  }

  /** A view that is not kept in place gets no patches. */
  lemma UntouchedView(mirror: Mirror, cur: Views, newViews: Views, k: nat)
    requires DistinctIds(cur) && DistinctIds(newViews) && k < |newViews| == |cur| && cur[k].id != newViews[k].id
    ensures var (m, id) := (Patched(mirror, cur, newViews, |cur|), newViews[k].id);
            (id in m <==> id in mirror) && (id in m ==> m[id] == mirror[id])
  {
    PatchedElsewhere(mirror, cur, newViews, |cur|, newViews[k].id);
  }

  /** Without patches the mirror shows a new view only if the same id already showed the same tree. */
  lemma ShownUnpatched(mirror: Mirror, cur: Views, v: MacroInvocation)
    requires DistinctIds(cur) && Static(cur) && IsStatic(v.template) && Mirrors(mirror, cur)
    ensures (v.id in mirror && Shows(mirror[v.id], v.template)) <==>
            exists l | 0 <= l < |cur| :: cur[l].id == v.id && Render(cur[l].template) == Render(v.template)
  {
    forall l | 0 <= l < |cur| ensures mirror[cur[l].id] == Render(cur[l].template) {
      StaticShownExactly(mirror[cur[l].id], cur[l].template);
    }
    if v.id in mirror {
      StaticShownExactly(mirror[v.id], v.template);
    }
  }

  lemma StaticChangesApply(mirror: Mirror, cur: Views, newViews: Views)
    requires |cur| == |newViews| && Static(newViews) && InSync(mirror, cur)
    ensures ChangesApply(mirror, cur, newViews, |cur|)
    ensures forall k | 0 <= k < |newViews| :: UniqueAttrs(newViews[k].template)
  {
    forall k: nat | k < |cur|
      ensures ApplyAll(mirror[cur[k].id], Diff(cur[k].template, newViews[k].template)).Some?
      ensures UniqueAttrs(newViews[k].template)
    {
      DiffIsCorrect(mirror[cur[k].id], cur[k].template, newViews[k].template);
      StaticIsUnique(newViews[k].template);
    }
  }

  /** With static templates the mirror survives an edit exactly when every view of it is tracked. */
  lemma SyncExactlyWhenTracked(mirror: Mirror, cur: Views, newViews: Views)
    requires DistinctIds(cur) && DistinctIds(newViews) && Static(cur) && Static(newViews) && Mirrors(mirror, cur)
    ensures ReceiveReply(mirror, Sent(cur, newViews)).Some?
    ensures InSync(ReceiveReply(mirror, Sent(cur, newViews)).value, newViews) <==>
            forall k: nat | k < |newViews| :: Tracked(cur, newViews, k)
  {
    var m := mirror;
    if |cur| == |newViews| {
      StaticChangesApply(mirror, cur, newViews);
      DiffsReceived(mirror, cur, newViews, |cur|);
      m := Patched(mirror, cur, newViews, |cur|);
    }
    assert ReceiveReply(mirror, Sent(cur, newViews)) == Some(m);
    forall k: nat | k < |newViews|
      ensures (newViews[k].id in m && Shows(m[newViews[k].id], newViews[k].template)) <==> Tracked(cur, newViews, k)
    {
      ShownUnpatched(mirror, cur, newViews[k]);
      if |cur| == |newViews| {
        if cur[k].id == newViews[k].id {
          KeptView(mirror, cur, newViews, k);
        } else {
          UntouchedView(mirror, cur, newViews, k);
        }
      }
    }
    assert InSync(m, newViews) <==>
           forall k: nat | k < |newViews| :: newViews[k].id in m && Shows(m[newViews[k].id], newViews[k].template);
  }
}
