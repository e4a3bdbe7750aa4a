/**
 The title stacks: many `<Title/>` views share one stack of texts and one of formatters
 through mounting, unmounting, rebuilding, hydrating and dropping.
 */
module Title {
  import opened Basics

  type Id = nat

  type Stack<T> = seq<(Id, T)>

  // ---------- Stacks ----------

  /** Position of the first entry of `id`, or the length of the stack. */
  function Position<T>(s: Stack<T>, id: Id): (p: nat)
    ensures p <= |s|
    ensures p < |s| ==> s[p].0 == id
    ensures forall k | 0 <= k < p :: s[k].0 != id
  {
    if s == [] then 0
    else if s[0].0 == id then 0
    else
      var p := Position(s[1..], id);
      assert forall k | 0 <= k < p :: s[1..][k] == s[k + 1];
      p + 1
  }

  function Lookup<T>(s: Stack<T>, id: Id): Option<T> {
    var p := Position(s, id);
    if p < |s| then Some(s[p].1) else None
  }

  function Pushed<T>(s: Stack<T>, id: Id, item: Option<T>): Stack<T> {
    if item.Some? then s + [(id, item.value)] else s
  }

  function Removed<T>(s: Stack<T>, id: Id): Stack<T> {
    var p := Position(s, id);
    if p < |s| then s[..p] + s[p + 1..] else s
  }

  function Updated<T>(s: Stack<T>, id: Id, item: Option<T>): Stack<T> {
    var p := Position(s, id);
    if p < |s| && item.Some? then s[p := (id, item.value)]
    else if p < |s| then s[..p] + s[p + 1..]
    else Pushed(s, id, item)
  }

  ghost predicate Unique<T>(s: Stack<T>) {
    forall k, l | 0 <= k < l < |s| :: s[k].0 != s[l].0
  }

  ghost predicate Has<T>(s: Stack<T>, id: Id) {
    exists k | 0 <= k < |s| :: s[k].0 == id
  }

  lemma HasMeansFound<T>(s: Stack<T>, id: Id)
    ensures Has(s, id) <==> Position(s, id) < |s|
    ensures Has(s, id) <==> Lookup(s, id).Some?
  {
    if Position(s, id) < |s| {
      assert s[Position(s, id)].0 == id;
    }
  }

  lemma PushedFacts<T>(s: Stack<T>, id: Id, item: Option<T>)
    requires Unique(s) && !Has(s, id)
    ensures Unique(Pushed(s, id, item))
    ensures forall x :: Has(Pushed(s, id, item), x) <==> Has(s, x) || (x == id && item.Some?)
    ensures item.Some? ==> Lookup(Pushed(s, id, item), id) == item
  {
    var s' := Pushed(s, id, item);
    forall x ensures Has(s', x) <==> Has(s, x) || (x == id && item.Some?) {
      if Has(s, x) {
        var k :| 0 <= k < |s| && s[k].0 == x;
        assert s'[k].0 == x;
      }
      if item.Some? {
        assert s'[|s|].0 == id;
      }
    }
    HasMeansFound(s', id);
  }

  lemma RemovedFacts<T>(s: Stack<T>, id: Id)
    requires Unique(s)
    ensures Unique(Removed(s, id))
    ensures forall x :: Has(Removed(s, id), x) <==> Has(s, x) && x != id
  {
    HasMeansFound(s, id);
    var s', p := Removed(s, id), Position(s, id);
    forall x ensures Has(s', x) <==> Has(s, x) && x != id {
      if Has(s, x) && x != id {
        var k :| 0 <= k < |s| && s[k].0 == x;
        assert p < |s| ==> s'[if k < p then k else k - 1].0 == x;
      }
      if Has(s', x) {
        var k :| 0 <= k < |s'| && s'[k].0 == x;
        assert s[if k < p then k else k + 1].0 == x || p == |s|;
      }
    }
  }

  lemma UpdatedFacts<T>(s: Stack<T>, id: Id, item: Option<T>)
    requires Unique(s)
    ensures Unique(Updated(s, id, item))
    ensures forall x :: Has(Updated(s, id, item), x) <==> (if x == id then item.Some? else Has(s, x))
  {
    HasMeansFound(s, id);
    var p := Position(s, id);
    if p < |s| && item.Some? {
      var s' := s[p := (id, item.value)];
      forall x ensures Has(s', x) <==> Has(s, x) {
        if Has(s, x) {
          var k :| 0 <= k < |s| && s[k].0 == x;
          assert s'[k].0 == x;
        }
        if Has(s', x) {
          var k :| 0 <= k < |s'| && s'[k].0 == x;
          assert s[k].0 == x;
        }
      }
    } else if p < |s| {
      RemovedFacts(s, id);
    } else {
      PushedFacts(s, id, item);
    }
  }

  // ---------- What a stack has for an id ----------

  lemma LookupIs<T>(s: Stack<T>, k: nat)
    requires Unique(s) && k < |s|
    ensures Lookup(s, s[k].0) == Some(s[k].1) && Position(s, s[k].0) == k
  {
    assert Has(s, s[k].0);
    HasMeansFound(s, s[k].0);
  }

  /** Two stacks without doubled ids that have the same entry of `x`, or neither any. */
  lemma LookupSame<T>(s: Stack<T>, s': Stack<T>, x: Id)
    requires Unique(s) && Unique(s') && (Has(s', x) <==> Has(s, x))
    requires forall k, l | 0 <= k < |s| && 0 <= l < |s'| && s[k].0 == x == s'[l].0 :: s[k].1 == s'[l].1
    ensures Lookup(s', x) == Lookup(s, x)
  {
    HasMeansFound(s, x);
    HasMeansFound(s', x);
  }

  lemma PushedLookup<T>(s: Stack<T>, id: Id, item: Option<T>, x: Id)
    requires Unique(s) && (item.Some? ==> !Has(s, id))
    ensures Lookup(Pushed(s, id, item), x) == if x == id && item.Some? then item else Lookup(s, x)
  {
    if item.Some? {
      PushedFacts(s, id, item);
      if x != id {
        LookupSame(s, Pushed(s, id, item), x);
      }
    }
  }

  lemma RemovedLookup<T>(s: Stack<T>, id: Id, x: Id)
    requires Unique(s)
    ensures Lookup(Removed(s, id), x) == if x == id then None else Lookup(s, x)
  {
    RemovedFacts(s, id);
    if x == id {
      HasMeansFound(Removed(s, id), x);
    } else {
      LookupSame(s, Removed(s, id), x);
    }
  }

  /** An update leaves the id with exactly the new part, and every other id with its own. */
  lemma UpdatedLookup<T>(s: Stack<T>, id: Id, item: Option<T>, x: Id)
    requires Unique(s)
    ensures Lookup(Updated(s, id, item), x) == if x == id then item else Lookup(s, x)
  {
    UpdatedFacts(s, id, item);
    var (s', p) := (Updated(s, id, item), Position(s, id));
    if x != id {
      LookupSame(s, s', x);
    } else if item.None? {
      HasMeansFound(s', x);
    } else {
      LookupIs(s', if p < |s| then p else |s|);
    }
  }

  /** The other entries keep their order, an entry that is overwritten its place, and a new one comes on top. */
  lemma UpdatedOrder<T>(s: Stack<T>, id: Id, item: Option<T>)
    requires Unique(s)
    ensures Removed(Updated(s, id, item), id) == Removed(s, id)
    ensures item.Some? ==>
              if Has(s, id) then |Updated(s, id, item)| == |s| && Position(Updated(s, id, item), id) == Position(s, id)
              else Updated(s, id, item) == s + [(id, item.value)]
  {
    UpdatedFacts(s, id, item);
    HasMeansFound(s, id);
    var (s', p) := (Updated(s, id, item), Position(s, id));
    if item.Some? {
      LookupIs(s', if p < |s| then p else |s|);
    } else {
      HasMeansFound(s', id);
    }
  }

  // ---------- The context ----------

  type Text = string
  type Formatter = string -> string

  datatype Stacks = Stacks(texts: Stack<Text>, formatters: Stack<Formatter>)

  class TitleContext {
    var textStack: Stack<Text>
    var formatterStack: Stack<Formatter>

    constructor ()
      ensures State() == Stacks([], [])
    {
      textStack, formatterStack := [], [];
    }

    ghost function State(): Stacks
      reads this
    {
      Stacks(textStack, formatterStack)
    }

    method PushTextAndFormatter(id: Id, text: Option<Text>, formatter: Option<Formatter>)
      modifies this
      ensures State() == Push(old(State()), id, text, formatter)
    {
      if text.Some? {
        textStack := textStack + [(id, text.value)];
      }
      if formatter.Some? {
        formatterStack := formatterStack + [(id, formatter.value)];
      }
    }

    method UpdateTextAndFormatter(id: Id, text: Option<Text>, formatter: Option<Formatter>)
      modifies this
      ensures State() == Update(old(State()), id, text, formatter)
    {
      var textPos, formatterPos := Position(textStack, id), Position(formatterStack, id);
      if textPos < |textStack| && text.Some? {
        textStack := textStack[textPos := (id, text.value)];
      } else if textPos < |textStack| {
        textStack := textStack[..textPos] + textStack[textPos + 1..];
      } else if text.Some? {
        textStack := textStack + [(id, text.value)];
      }
      if formatterPos < |formatterStack| && formatter.Some? {
        formatterStack := formatterStack[formatterPos := (id, formatter.value)];
      } else if formatterPos < |formatterStack| {
        formatterStack := formatterStack[..formatterPos] + formatterStack[formatterPos + 1..];
      } else if formatter.Some? {
        formatterStack := formatterStack + [(id, formatter.value)];
      }
    }

    method RemoveId(id: Id) returns (text: Option<Text>, formatter: Option<Formatter>)
      modifies this
      ensures State() == Remove(old(State()), id)
      ensures text == Lookup(old(State()).texts, id) && formatter == Lookup(old(State()).formatters, id)
    {
      text, formatter := None, None;
      var pos := Position(textStack, id);
      if pos < |textStack| {
        text := Some(textStack[pos].1);
        textStack := textStack[..pos] + textStack[pos + 1..];
      }
      pos := Position(formatterStack, id);
      if pos < |formatterStack| {
        formatter := Some(formatterStack[pos].1);
        formatterStack := formatterStack[..pos] + formatterStack[pos + 1..];
      }
    }

    method AsString() returns (title: Option<string>)
      ensures title == Shown(State())
    {
      if textStack == [] {
        return None;
      }
      var text := textStack[|textStack| - 1].1;
      if formatterStack != [] {
        return Some(formatterStack[|formatterStack| - 1].1(text));
      }
      return Some(text);
    }
  }

  function Push(s: Stacks, id: Id, text: Option<Text>, formatter: Option<Formatter>): Stacks {
    Stacks(Pushed(s.texts, id, text), Pushed(s.formatters, id, formatter))
  }

  function Update(s: Stacks, id: Id, text: Option<Text>, formatter: Option<Formatter>): Stacks {
    Stacks(Updated(s.texts, id, text), Updated(s.formatters, id, formatter))
  }

  function Remove(s: Stacks, id: Id): Stacks {
    Stacks(Removed(s.texts, id), Removed(s.formatters, id))
  }

  /** The title: the topmost text through the topmost formatter. */
  function Shown(s: Stacks): Option<string> {
    if s.texts == [] then None
    else
      var text := s.texts[|s.texts| - 1].1;
      Some(if s.formatters == [] then text else s.formatters[|s.formatters| - 1].1(text))
  }

  // ---------- Views ----------

  datatype View = View(text: Option<Text>, formatter: Option<Formatter>, mounted: bool)

  datatype System = System(stacks: Stacks, views: map<Id, View>)

  const Empty := System(Stacks([], []), map[])

  datatype Event =
    | Build(id: Id, text: Option<Text>, formatter: Option<Formatter>)
    | Hydrate(id: Id, text: Option<Text>, formatter: Option<Formatter>)
    | Mount(id: Id)
    | Unmount(id: Id)
    | Rebuild(id: Id, text: Option<Text>, formatter: Option<Formatter>)
    | Drop(id: Id)

  /** A new view has an id of its own; the other calls are made on an existing one. */
  predicate Enabled(s: System, e: Event) {
    if e.Build? || e.Hydrate? then e.id !in s.views else e.id in s.views
  }

  function Or<T>(item: Option<T>, otherwise: Option<T>): Option<T> {
    if item.Some? then item else otherwise
  }

  function Next(s: System, e: Event): System
    requires Enabled(s, e)
  {
    match e
    case Build(id, text, formatter) => s.(views := s.views[id := View(text, formatter, false)])
    case Hydrate(id, text, formatter) =>
      System(Push(s.stacks, id, text, formatter), s.views[id := View(None, None, true)])
    case Mount(id) =>
      System(Push(s.stacks, id, s.views[id].text, s.views[id].formatter), s.views[id := View(None, None, true)])
    case Unmount(id) =>
      System(Remove(s.stacks, id),
             s.views[id := View(Or(Lookup(s.stacks.texts, id), s.views[id].text),
                                Or(Lookup(s.stacks.formatters, id), s.views[id].formatter), false)])
    case Rebuild(id, text, formatter) =>
      if s.views[id].mounted then s.(stacks := Update(s.stacks, id, text, formatter))
      else s.(views := s.views[id := View(text, formatter, false)])
    case Drop(id) => System(Remove(s.stacks, id), s.views - {id})
  }

  predicate Valid(s: System, es: seq<Event>)
    decreases |es|
  {
    es == [] || (Enabled(s, es[0]) && Valid(Next(s, es[0]), es[1..]))
  }

  function Exec(s: System, es: seq<Event>): System
    requires Valid(s, es)
    decreases |es|
  {
    if es == [] then s else Exec(Next(s, es[0]), es[1..])
  }

  /** The entries of a stack belong to mounted views. */
  ghost predicate Owned<T>(s: Stack<T>, views: map<Id, View>) {
    forall id | Has(s, id) :: id in views && views[id].mounted
  }

  ghost predicate Inv(s: System) {
    && Unique(s.stacks.texts) && Unique(s.stacks.formatters)
    && Owned(s.stacks.texts, s.views) && Owned(s.stacks.formatters, s.views)
    && forall id | id in s.views && s.views[id].mounted :: s.views[id].text.None? && s.views[id].formatter.None?
  }

  lemma PushingKeeps<T>(s: Stack<T>, views: map<Id, View>, id: Id, item: Option<T>, v: View)
    requires Unique(s) && Owned(s, views) && v.mounted
    requires Has(s, id) ==> item.None?
    ensures Unique(Pushed(s, id, item)) && Owned(Pushed(s, id, item), views[id := v])
  {
    if item.Some? {
      PushedFacts(s, id, item);
    }
  }

  lemma StepKeeps(s: System, e: Event)
    requires Enabled(s, e) && Inv(s)
    ensures Inv(Next(s, e))
  {
    var (texts, formatters) := (s.stacks.texts, s.stacks.formatters);
    match e
    case Build(_, _, _) =>
    case Hydrate(id, text, formatter) =>
      PushingKeeps(texts, s.views, id, text, View(None, None, true));
      PushingKeeps(formatters, s.views, id, formatter, View(None, None, true));
    case Mount(id) =>
      PushingKeeps(texts, s.views, id, s.views[id].text, View(None, None, true));
      PushingKeeps(formatters, s.views, id, s.views[id].formatter, View(None, None, true));
    case Rebuild(id, text, formatter) =>
      UpdatedFacts(texts, id, text);
      UpdatedFacts(formatters, id, formatter);
    case Unmount(_) => RemovalKeeps(s, e);
    case Drop(_) => RemovalKeeps(s, e);
  }

  lemma RemovalKeeps(s: System, e: Event)
    requires Enabled(s, e) && Inv(s) && (e.Unmount? || e.Drop?)
    ensures Inv(Next(s, e))
  {
    RemovedFacts(s.stacks.texts, e.id);
    RemovedFacts(s.stacks.formatters, e.id);
  }

  lemma {:induction false} RunKeeps(s: System, es: seq<Event>)
    requires Valid(s, es) && Inv(s)
    ensures Inv(Exec(s, es))
    decreases |es|
  {
    if es != [] {
      StepKeeps(s, es[0]);
      RunKeeps(Next(s, es[0]), es[1..]);
    }
  }

  /** Over every run: no id twice in a stack, a mounted view holds nothing itself, an unmounted one is in no stack. */
  lemma EveryRunSound(es: seq<Event>, id: Id)
    requires Valid(Empty, es)
    ensures var s := Exec(Empty, es);
            && Unique(s.stacks.texts) && Unique(s.stacks.formatters)
            && (id in s.views && s.views[id].mounted ==> s.views[id] == View(None, None, true))
            && (id !in s.views || !s.views[id].mounted ==> !Has(s.stacks.texts, id) && !Has(s.stacks.formatters, id))
  {
    RunKeeps(Empty, es);
  }

  // ---------- What a view contributes ----------

  datatype Parts = Parts(text: Option<Text>, formatter: Option<Formatter>)

  /** The text and formatter of a view, on the stacks while it is mounted and in the view itself otherwise. */
  ghost function Current(s: System, id: Id): Parts
    requires id in s.views
  {
    if s.views[id].mounted then Parts(Lookup(s.stacks.texts, id), Lookup(s.stacks.formatters, id))
    else Parts(s.views[id].text, s.views[id].formatter)
  }

  predicate Gives(e: Event, id: Id) {
    e.id == id && (e.Build? || e.Hydrate? || e.Rebuild?)
  }

  /** Building, hydrating and rebuilding set the parts of their view; nothing else changes any view's parts. */
  lemma CurrentFollows(s: System, e: Event, id: Id)
    requires Enabled(s, e) && Inv(s) && id in Next(s, e).views
    ensures Gives(e, id) || id in s.views
    ensures Current(Next(s, e), id) == if Gives(e, id) then Parts(e.text, e.formatter) else Current(s, id)
  {
    var (texts, formatters) := (s.stacks.texts, s.stacks.formatters);
    match e
    case Build(_, _, _) =>
    case Hydrate(_, text, formatter) =>
      PushedLookup(texts, e.id, text, id);
      PushedLookup(formatters, e.id, formatter, id);
      HasMeansFound(texts, e.id);
      HasMeansFound(formatters, e.id);
    case Mount(_) =>
      PushedLookup(texts, e.id, s.views[e.id].text, id);
      PushedLookup(formatters, e.id, s.views[e.id].formatter, id);
      HasMeansFound(texts, e.id);
      HasMeansFound(formatters, e.id);
    case Rebuild(_, text, formatter) =>
      UpdatedLookup(texts, e.id, text, id);
      UpdatedLookup(formatters, e.id, formatter, id);
    case Unmount(_) =>
      RemovedLookup(texts, e.id, id);
      RemovedLookup(formatters, e.id, id);
      HasMeansFound(texts, e.id);
      HasMeansFound(formatters, e.id);
    case Drop(_) =>
      RemovedLookup(texts, e.id, id);
      RemovedLookup(formatters, e.id, id);
  }

  /** The parts a view was last given in a run. */
  function Given(es: seq<Event>, id: Id): Option<Parts> {
    if es == [] then None
    else
      var last := es[|es| - 1];
      if Gives(last, id) then Some(Parts(last.text, last.formatter)) else Given(es[..|es| - 1], id)
  }

  lemma {:induction false} ExecSnoc(s: System, es: seq<Event>, e: Event)
    requires Valid(s, es + [e])
    ensures Valid(s, es) && Enabled(Exec(s, es), e) && Exec(s, es + [e]) == Next(Exec(s, es), e)
    decreases |es|
  {
    if es == [] {
      assert es + [e] == [e] && [e][1..] == [];
    } else {
      assert (es + [e])[0] == es[0] && (es + [e])[1..] == es[1..] + [e];
      ExecSnoc(Next(s, es[0]), es[1..], e);
    }
  }

  /** Over every run a view has exactly the parts it was last given, wherever they are kept. */
  lemma {:induction false} EveryRunKeepsParts(es: seq<Event>, id: Id)
    requires Valid(Empty, es) && id in Exec(Empty, es).views
    ensures Given(es, id) == Some(Current(Exec(Empty, es), id))
    decreases |es|
  {
    if es != [] {
      var (init, last) := (es[..|es| - 1], es[|es| - 1]);
      assert es == init + [last];
      ExecSnoc(Empty, init, last);
      RunKeeps(Empty, init);
      CurrentFollows(Exec(Empty, init), last, id);
      if !Gives(last, id) {
        EveryRunKeepsParts(init, id);
      }
    }
  }

  /** Hydrating a view with a text shows that text, as mounting does. */
  lemma HydrateShows(s: System, id: Id, text: Text, formatter: Option<Formatter>)
    requires id !in s.views
    ensures var s' := Next(s, Hydrate(id, Some(text), formatter));
            Shown(s'.stacks) == Some(
              if formatter.Some? then formatter.value(text)
              else if s.stacks.formatters == [] then text
              else s.stacks.formatters[|s.stacks.formatters| - 1].1(text))
  {}

  /** Rebuilding the mounted view whose text is on top shows the new text, through the topmost formatter. */
  lemma RebuildShows(s: System, id: Id, text: Text, formatter: Option<Formatter>)
    requires Inv(s) && id in s.views && s.views[id].mounted
    requires var texts := s.stacks.texts; texts != [] && texts[|texts| - 1].0 == id
    ensures var s' := Next(s, Rebuild(id, Some(text), formatter));
            var formatters := s'.stacks.formatters;
            Shown(s'.stacks)
            == Some(if formatters == [] then text else formatters[|formatters| - 1].1(text))
  {
    var texts := s.stacks.texts;
    LookupIs(texts, |texts| - 1);
  }

  /** Everything of a stack except the entry of `id`, with that entry put on top. */
  ghost function Raised<T>(s: Stack<T>, id: Id): Stack<T> {
    Pushed(Removed(s, id), id, Lookup(s, id))
  }

  /** Unmounting a mounted view and mounting it again raises its text and formatter to the top, unchanged. */
  lemma UnmountThenMount(s: System, id: Id)
    requires Inv(s) && id in s.views && s.views[id].mounted
    ensures var s' := Next(Next(s, Unmount(id)), Mount(id));
            && s'.views == s.views
            && s'.stacks == Stacks(Raised(s.stacks.texts, id), Raised(s.stacks.formatters, id))
            && Lookup(s'.stacks.texts, id) == Lookup(s.stacks.texts, id)
            && Lookup(s'.stacks.formatters, id) == Lookup(s.stacks.formatters, id)
  {
    var (texts, formatters) := (s.stacks.texts, s.stacks.formatters);
    var s' := Next(Next(s, Unmount(id)), Mount(id));
    assert s.views[id] == View(None, None, true);
    assert s'.views == s.views;
    RaisedFacts(texts, id);
    RaisedFacts(formatters, id);
  }

  lemma RaisedFacts<T>(s: Stack<T>, id: Id)
    requires Unique(s)
    ensures Lookup(Raised(s, id), id) == Lookup(s, id)
    ensures Lookup(s, id).Some? ==>
              Raised(s, id) != [] && Raised(s, id)[|Raised(s, id)| - 1] == (id, Lookup(s, id).value)
  {
    RemovedFacts(s, id);
    HasMeansFound(s, id);
    HasMeansFound(Removed(s, id), id);
    if Lookup(s, id).Some? {
      PushedFacts(Removed(s, id), id, Lookup(s, id));
    }
  }

  /** Mounting a view that holds a text shows that text, through its own formatter if it has one. */
  lemma MountShows(s: System, id: Id)
    requires id in s.views && s.views[id].text.Some?
    ensures var s' := Next(s, Mount(id));
            Shown(s'.stacks) == Some(
              var text := s.views[id].text.value;
              if s.views[id].formatter.Some? then s.views[id].formatter.value(text)
              else if s.stacks.formatters == [] then text
              else s.stacks.formatters[|s.stacks.formatters| - 1].1(text))
  {}
}
