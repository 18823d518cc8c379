/** Building a plan from the event stream of a dry run. */
module PlanBuilder {
  import opened Wrappers

  datatype Id = Id(group: string, kind: string, name: string, namespace: string)

  type Object = string

  datatype ActionType = Unset | Create | Unchanged | Delete | Update | Skip | Error

  datatype Action = Action(
    kind: ActionType, id: Id, original: Option<Object>, updated: Option<Object>, error: string, skipReason: string)

  datatype GroupAction = Applying | Pruning | Deleting | Waiting | Inventory

  datatype ActionGroup = ActionGroup(action: GroupAction, ids: seq<Id>)

  datatype Status = Skipped | Successful | Pending

  datatype Event =
    | Init(groups: seq<ActionGroup>)
    | Apply(id: Id, status: Status, failure: Option<string>, resource: Object)
    | Prune(id: Id, status: Status, failure: Option<string>)
    | Deletion(id: Id, status: Status, failure: Option<string>)
    | Fatal(why: string)
    | Other

  /** Events about one resource. */
  predicate IsResourceEvent(e: Event) {
    e.Apply? || e.Prune? || e.Deletion?
  }

  predicate Concerns(e: Event, id: Id) {
    IsResourceEvent(e) && e.id == id
  }

  // ---------------------------------------------------------------- handlers

  function HandleSkip(failure: Option<string>, a: Action): Action {
    if failure.Some? then a.(kind := Skip, skipReason := failure.value) else a.(kind := Skip)
  }

  function HandleApply(e: Event, a: Action): Action
    requires e.Apply?
  {
    if e.status.Skipped? then HandleSkip(e.failure, a)
    else if e.failure.Some? then a.(kind := Error, error := e.failure.value)
    else if e.status.Successful? then
      a.(updated := Some(e.resource),
         kind := if a.original.None? then Create else if a.original == Some(e.resource) then Unchanged else Update)
    else a
  }

  /** Prune and delete events are handled alike. */
  function HandleRemoval(status: Status, failure: Option<string>, a: Action): Action {
    if status.Skipped? then HandleSkip(failure, a)
    else if failure.Some? then a.(kind := Error, error := failure.value)
    else if status.Successful? then a.(kind := Delete)
    else a
  }

  function Handle(e: Event, a: Action): Action
    requires IsResourceEvent(e)
  {
    match e
    case Apply(_, _, _, _) => HandleApply(e, a)
    case Prune(_, status, failure) => HandleRemoval(status, failure, a)
    case Deletion(_, status, failure) => HandleRemoval(status, failure, a)
  }

  // ---------------------------------------------------------------- the plan as a fold

  /** The events about `id`, in order. */
  function EventsFor(id: Id, events: seq<Event>): seq<Event> {
    if events == [] then []
    else
      var n := |events| - 1;
      EventsFor(id, events[..n]) + if Concerns(events[n], id) then [events[n]] else []
  }

  /** One action through the events about its resource. */
  function Fold(a: Action, events: seq<Event>): Action
    requires forall i :: 0 <= i < |events| ==> IsResourceEvent(events[i])
  {
    if events == [] then a else Handle(events[|events| - 1], Fold(a, events[..|events| - 1]))
  }

  lemma {:induction false} EventsForAreResourceEvents(id: Id, events: seq<Event>)
    ensures forall i :: 0 <= i < |EventsFor(id, events)| ==> IsResourceEvent(EventsFor(id, events)[i])
  {
    if events != [] {
      EventsForAreResourceEvents(id, events[..|events| - 1]);
    }
  }

  function ActionAfter(a: Action, events: seq<Event>): Action {
    EventsForAreResourceEvents(a.id, events);
    Fold(a, EventsFor(a.id, events))
  }

  /** A lookup by identifier finds action `i`: no earlier action has the same one. */
  predicate Found(actions: seq<Action>, i: nat)
    requires i < |actions|
  {
    forall j :: 0 <= j < i ==> actions[j].id != actions[i].id
  }

  /** Every action by itself, through the events about its own resource. */
  function PlanOf(initial: seq<Action>, events: seq<Event>): (plan: seq<Action>)
    ensures |plan| == |initial|
    ensures forall i :: 0 <= i < |initial| ==>
              plan[i] == if Found(initial, i) then ActionAfter(initial[i], events) else initial[i]
  {
    seq(|initial|, i requires 0 <= i < |initial| =>
      if Found(initial, i) then ActionAfter(initial[i], events) else initial[i])
  }

  /** The handlers never touch identity or original. */
  lemma {:induction false} FoldKeepsIdentity(a: Action, events: seq<Event>)
    requires forall i :: 0 <= i < |events| ==> IsResourceEvent(events[i])
    ensures Fold(a, events).id == a.id && Fold(a, events).original == a.original
  {
    if events != [] {
      FoldKeepsIdentity(a, events[..|events| - 1]);
    }
  }

  lemma PlanKeepsIdentities(initial: seq<Action>, events: seq<Event>)
    ensures forall i :: 0 <= i < |initial| ==> PlanOf(initial, events)[i].id == initial[i].id
    ensures forall i :: 0 <= i < |initial| ==> PlanOf(initial, events)[i].original == initial[i].original
  {
    forall i | 0 <= i < |initial|
      ensures PlanOf(initial, events)[i].id == initial[i].id
      ensures PlanOf(initial, events)[i].original == initial[i].original
    {
      EventsForAreResourceEvents(initial[i].id, events);
      FoldKeepsIdentity(initial[i], EventsFor(initial[i].id, events));
    }
  }

  // ---------------------------------------------------------------- what the fold means

  /** What an event by itself says about a resource that had `original`; nothing while it
      is pending. */
  function Verdict(original: Option<Object>, e: Event): Option<ActionType> {
    if !IsResourceEvent(e) then None
    else if e.status.Skipped? then Some(Skip)
    else if e.failure.Some? then Some(Error)
    else if !e.status.Successful? then None
    else if !e.Apply? then Some(Delete)
    else Some(if original.None? then Create else if original.value == e.resource then Unchanged else Update)
  }

  function ErrorIn(e: Event): Option<string> {
    if IsResourceEvent(e) && !e.status.Skipped? then e.failure else None
  }

  function SkipReasonIn(e: Event): Option<string> {
    if IsResourceEvent(e) && e.status.Skipped? then e.failure else None
  }

  function UpdatedIn(e: Event): Option<Option<Object>> {
    if e.Apply? && e.status.Successful? && e.failure.None? then Some(Some(e.resource)) else None
  }

  /** What the latest event that says something says. */
  function Latest<T>(says: Event -> Option<T>, events: seq<Event>, otherwise: T): T {
    if events == [] then otherwise
    else
      var n := |events| - 1;
      if says(events[n]).Some? then says(events[n]).value else Latest(says, events[..n], otherwise)
  }

  /** Each field of the final action is decided by the latest event with something to say
      about it; an error message outlives later successes, and so does a skip reason. */
  lemma {:induction false} LatestEventsDecide(a: Action, events: seq<Event>)
    requires forall i :: 0 <= i < |events| ==> IsResourceEvent(events[i])
    ensures Fold(a, events).kind == Latest(e => Verdict(a.original, e), events, a.kind)
    ensures Fold(a, events).error == Latest(ErrorIn, events, a.error)
    ensures Fold(a, events).skipReason == Latest(SkipReasonIn, events, a.skipReason)
    ensures Fold(a, events).updated == Latest(UpdatedIn, events, a.updated)
  {
    if events != [] {
      var n := |events| - 1;
      LatestEventsDecide(a, events[..n]);
      FoldKeepsIdentity(a, events[..n]);
    }
  }

  // ---------------------------------------------------------------- exchanging events

  lemma {:induction false} EventsForAppend(id: Id, a: seq<Event>, b: seq<Event>)
    ensures EventsFor(id, a + b) == EventsFor(id, a) + EventsFor(id, b)
  {
    if b == [] {
      assert a + b == a;
    } else {
      var n := |b| - 1;
      assert (a + b)[..|a| + n] == a + b[..n];
      EventsForAppend(id, a, b[..n]);
    }
  }

  lemma EventsForPair(id: Id, e: Event, f: Event)
    requires !(Concerns(e, id) && Concerns(f, id))
    ensures EventsFor(id, [e, f]) == EventsFor(id, [f, e])
  {
    assert [e, f][..1] == [e] && [f, e][..1] == [f];
    assert [e][..0] == [] && [f][..0] == [];
  }

  lemma ExchangeKeepsOwnEvents(id: Id, before: seq<Event>, e: Event, f: Event, after: seq<Event>)
    requires !(Concerns(e, id) && Concerns(f, id))
    ensures EventsFor(id, before + [e, f] + after) == EventsFor(id, before + [f, e] + after)
  {
    EventsForPair(id, e, f);
    EventsForAppend(id, before + [e, f], after);
    EventsForAppend(id, before + [f, e], after);
    EventsForAppend(id, before, [e, f]);
    EventsForAppend(id, before, [f, e]);
  }

  // ---------------------------------------------------------------- what an init event lists

  datatype Fetched = Holds(found: Object) | Absent | NoSuchKind | Unavailable(why: string)

  type Cluster = Id -> Fetched

  /** The identifiers in the groups that apply, prune or delete, in order. */
  function Listed(groups: seq<ActionGroup>): (ids: seq<Id>)
    ensures forall id :: id in ids <==>
              exists g :: 0 <= g < |groups| && id in groups[g].ids && Matters(groups[g])
  {
    if groups == [] then []
    else
      var n := |groups| - 1;
      var ids := Listed(groups[..n]);
      assert groups == groups[..n] + [groups[n]];
      if Matters(groups[n]) then ids + groups[n].ids else ids
  }

  predicate Matters(g: ActionGroup) {
    g.action in {Applying, Pruning, Deleting}
  }

  predicate Fetchable(cluster: Cluster, ids: seq<Id>) {
    forall i :: 0 <= i < |ids| ==> !cluster(ids[i]).Unavailable?
  }

  /** A kind the cluster does not know has no objects. */
  function Fresh(cluster: Cluster, id: Id): Action {
    Action(Unset, id, if cluster(id).Holds? then Some(cluster(id).found) else None, None, "", "")
  }

  function InitialPlan(cluster: Cluster, ids: seq<Id>): (plan: seq<Action>)
    ensures |plan| == |ids| && forall i :: 0 <= i < |ids| ==> plan[i] == Fresh(cluster, ids[i])
  {
    seq(|ids|, i requires 0 <= i < |ids| => Fresh(cluster, ids[i]))
  }

  /** The identifiers of the groups are listed one after the other; those of groups that wait,
      or are about the inventory, are not. */
  lemma {:induction false} ListedExactly(a: seq<ActionGroup>, b: seq<ActionGroup>, g: ActionGroup)
    ensures Listed(a + b) == Listed(a) + Listed(b)
    ensures Listed([g]) == if g.action.Waiting? || g.action.Inventory? then [] else g.ids
  {
    assert [g][..0] == [];
    if b == [] {
      assert a + b == a;
    } else {
      var n := |b| - 1;
      assert (a + b)[..|a| + n] == a + b[..n];
      ListedExactly(a, b[..n], g);
    }
  }

  /** One action for every identifier, in order, holding the object now in the cluster if
      there is one, and nothing else. */
  ghost predicate FetchedAs(cluster: Cluster, ids: seq<Id>, actions: seq<Action>) {
    && |actions| == |ids|
    && forall i :: 0 <= i < |ids| ==>
         && actions[i].id == ids[i] && actions[i].kind == Unset && actions[i].updated == None
         && actions[i].error == "" && actions[i].skipReason == ""
         && forall o :: actions[i].original == Some(o) <==> cluster(ids[i]) == Holds(o)
  }

  /** `why` is what the cluster says of the first listed resource that it cannot look up. */
  ghost predicate FetchStops(cluster: Cluster, ids: seq<Id>, why: string) {
    exists i :: 0 <= i < |ids| && cluster(ids[i]) == Unavailable(why) && forall j :: 0 <= j < i ==> !cluster(ids[j]).Unavailable?
  }

  lemma FirstUnavailable(cluster: Cluster, ids: seq<Id>, before: seq<Id>, id: Id)
    requires before + [id] <= ids && Fetchable(cluster, before) && cluster(id).Unavailable?
    ensures !Fetchable(cluster, ids) && FetchStops(cluster, ids, cluster(id).why)
  {
    assert ids[|before|] == id;
    assert forall j :: 0 <= j < |before| ==> ids[j] == before[j];
  }

  /** One action for every identifier listed, in order; an object that cannot be fetched
      fails it, but not an absent one, nor one of an unknown kind. */
  method FetchResources(cluster: Cluster, groups: seq<ActionGroup>) returns (r: Result<seq<Action>, string>)
    ensures r.Ok? <==> forall i :: 0 <= i < |Listed(groups)| ==> !cluster(Listed(groups)[i]).Unavailable?
    ensures r.Ok? ==> FetchedAs(cluster, Listed(groups), r.value)
    ensures r.Ok? <==> Fetchable(cluster, Listed(groups))
    ensures r.Ok? ==> r.value == InitialPlan(cluster, Listed(groups))
    ensures r.Err? ==> FetchStops(cluster, Listed(groups), r.error)
  {
    hide FetchStops;
    var actions: seq<Action> := [];
    for n := 0 to |groups|
      invariant actions == InitialPlan(cluster, Listed(groups[..n]))
      invariant Fetchable(cluster, Listed(groups[..n]))
    {
      ghost var known := Listed(groups[..n]);
      assert groups[..n + 1][..n] == groups[..n];
      ListedGrows(groups, n + 1);
      if Matters(groups[n]) {
        var ids := groups[n].ids;
        for i := 0 to |ids|
          invariant actions == InitialPlan(cluster, known + ids[..i])
          invariant Fetchable(cluster, known + ids[..i])
        {
          if cluster(ids[i]).Unavailable? {
            FirstUnavailable(cluster, Listed(groups), known + ids[..i], ids[i]);
            return Err(cluster(ids[i]).why);
          }
          actions := actions + [Fresh(cluster, ids[i])];
          assert known + ids[..i + 1] == known + ids[..i] + [ids[i]];
        }
        assert ids[..|ids|] == ids;
      }
    }
    assert groups[..|groups|] == groups;
    r := Ok(actions);
  }

  lemma {:induction false} ListedGrows(groups: seq<ActionGroup>, n: nat)
    requires n <= |groups|
    ensures Listed(groups[..n]) <= Listed(groups)
    decreases |groups|
  {
    if n < |groups| {
      var m := |groups| - 1;
      ListedGrows(groups[..m], n);
      assert groups[..m][..n] == groups[..n];
    } else {
      assert groups[..n] == groups;
    }
  }

  method IndexForIdentifier(id: Id, actions: seq<Action>) returns (index: Option<nat>)
    ensures index.Some? ==> index.value < |actions| && actions[index.value].id == id && Found(actions, index.value)
    ensures index.None? <==> forall i :: 0 <= i < |actions| ==> actions[i].id != id
  {
    for i := 0 to |actions|
      invariant forall j :: 0 <= j < i ==> actions[j].id != id
    {
      if actions[i].id == id {
        return Some(i);
      }
    }
    index := None;
  }

  // ---------------------------------------------------------------- consuming the stream

  /** The groups of the latest init event. */
  function Groups(events: seq<Event>): seq<ActionGroup> {
    if events == [] then []
    else
      var n := |events| - 1;
      if events[n].Init? then events[n].groups else Groups(events[..n])
  }

  /** What came after the latest init event. */
  function SinceInit(events: seq<Event>): seq<Event> {
    if events == [] then []
    else
      var n := |events| - 1;
      if events[n].Init? then [] else SinceInit(events[..n]) + [events[n]]
  }

  /** The plan that comes out of an acceptable stream. */
  function PlanFor(cluster: Cluster, events: seq<Event>): seq<Action> {
    PlanOf(InitialPlan(cluster, Listed(Groups(events))), SinceInit(events))
  }

  function LastFailure(events: seq<Event>): Option<string> {
    if events == [] then None
    else
      var n := |events| - 1;
      if events[n].Fatal? then Some(events[n].why) else LastFailure(events[..n])
  }

  /** The event can be handled after those seen: what it lists can be fetched, or it is
      about a listed resource. */
  predicate Acceptable(cluster: Cluster, seen: seq<Event>, e: Event) {
    match e
    case Init(groups) => Fetchable(cluster, Listed(groups))
    case Fatal(_) => true
    case Other => true
    case _ => e.id in Listed(Groups(seen))
  }

  /** Every event can be handled after those before it. */
  predicate AllAcceptable(cluster: Cluster, events: seq<Event>) {
    events != [] ==>
      var n := |events| - 1;
      AllAcceptable(cluster, events[..n]) && Acceptable(cluster, events[..n], events[n])
  }

  lemma {:induction false} AcceptableSoFar(cluster: Cluster, events: seq<Event>, n: nat)
    requires AllAcceptable(cluster, events) && n <= |events|
    ensures AllAcceptable(cluster, events[..n])
    decreases |events|
  {
    if n < |events| {
      var prefix := events[..|events| - 1];
      AcceptableSoFar(cluster, prefix, n);
      assert prefix[..n] == events[..n];
    } else {
      assert events[..n] == events;
    }
  }

  lemma RefusedForGood(cluster: Cluster, events: seq<Event>, n: nat)
    requires n < |events| && !Acceptable(cluster, events[..n], events[n])
    ensures !AllAcceptable(cluster, events)
  {
    assert events[..n + 1][..n] == events[..n];
    if AllAcceptable(cluster, events) {
      AcceptableSoFar(cluster, events, n + 1);
    }
  }

  /** Replaces the action that the event is about. */
  method Record(e: Event, actions: seq<Action>, ghost initial: seq<Action>, ghost since: seq<Event>)
    returns (r: Result<seq<Action>, Id>)
    requires IsResourceEvent(e) && actions == PlanOf(initial, since)
    ensures r.Ok? <==> exists i :: 0 <= i < |initial| && initial[i].id == e.id
    ensures r.Ok? ==> r.value == PlanOf(initial, since + [e])
    ensures r.Err? ==> r.error == e.id
  {
    PlanKeepsIdentities(initial, since);
    var index := IndexForIdentifier(e.id, actions);
    if index.None? {
      assert forall i :: 0 <= i < |initial| ==> actions[i].id == initial[i].id;
      return Err(e.id);
    }
    var k := index.value;
    assert initial[k].id == e.id;
    OneEventOneAction(initial, since, e, k);
    r := Ok(actions[k := Handle(e, actions[k])]);
  }

  datatype Outcome =
    | Planned(actions: seq<Action>, failure: Option<string>)
    | FetchFailed(why: string)
    | UnknownIdentifier(id: Id)   // the source panics

  /** The event ends the run with `outcome`: a resource it lists cannot be looked up, or it
      is about one that the last init event does not list. */
  ghost predicate Ends(cluster: Cluster, seen: seq<Event>, e: Event, outcome: Outcome) {
    match outcome
    case Planned(_, _) => false
    case FetchFailed(why) => e.Init? && FetchStops(cluster, Listed(e.groups), why)
    case UnknownIdentifier(id) => Concerns(e, id) && id !in Listed(Groups(seen))
  }

  /** The events up to the one that ends the run are acceptable. */
  ghost predicate EndsEarly(cluster: Cluster, events: seq<Event>, outcome: Outcome) {
    exists n: nat :: n < |events| && AllAcceptable(cluster, events[..n]) && Ends(cluster, events[..n], events[n], outcome)
  }

  lemma PlanUnfolds(cluster: Cluster, seen: seq<Event>, e: Event)
    ensures PlanFor(cluster, seen + [e]) ==
            if e.Init? then PlanOf(InitialPlan(cluster, Listed(e.groups)), [])
            else PlanOf(InitialPlan(cluster, Listed(Groups(seen))), SinceInit(seen) + [e])
  {
    assert (seen + [e])[..|seen|] == seen;
  }

  /** One event after those seen. */
  method Consume(cluster: Cluster, e: Event, actions: seq<Action>, ghost seen: seq<Event>) returns (r: Result<seq<Action>, Outcome>)
    requires actions == PlanFor(cluster, seen)
    ensures r.Ok? <==> Acceptable(cluster, seen, e)
    ensures r.Ok? ==> r.value == PlanFor(cluster, seen + [e])
    ensures r.Err? ==> Ends(cluster, seen, e, r.error)
  {
    PlanUnfolds(cluster, seen, e);
    if e.Init? {
      var fetched := FetchResources(cluster, e.groups);
      if fetched.Err? {
        return Err(FetchFailed(fetched.error));
      }
      NoEventsNoChange(fetched.value);
      r := Ok(fetched.value);
    } else if IsResourceEvent(e) {
      r := ConsumeResourceEvent(cluster, e, actions, seen);
    } else {
      OtherEventsChangeNothing(InitialPlan(cluster, Listed(Groups(seen))), SinceInit(seen), e);
      r := Ok(actions);
    }
  }

  method ConsumeResourceEvent(cluster: Cluster, e: Event, actions: seq<Action>, ghost seen: seq<Event>)
    returns (r: Result<seq<Action>, Outcome>)
    requires IsResourceEvent(e) && actions == PlanFor(cluster, seen)
    ensures r.Ok? <==> Acceptable(cluster, seen, e)
    ensures r.Ok? ==> r.value == PlanFor(cluster, seen + [e])
    ensures r.Err? ==> Ends(cluster, seen, e, r.error)
  {
    PlanUnfolds(cluster, seen, e);
    ghost var ids := Listed(Groups(seen));
    var recorded := Record(e, actions, InitialPlan(cluster, ids), SinceInit(seen));
    assert forall i :: 0 <= i < |ids| ==> InitialPlan(cluster, ids)[i].id == ids[i];
    r := if recorded.Ok? then Ok(recorded.value) else Err(UnknownIdentifier(e.id));
  }

  lemma OneMoreEvent(cluster: Cluster, events: seq<Event>, n: nat)
    requires n < |events| && AllAcceptable(cluster, events[..n])
    ensures events[..n + 1] == events[..n] + [events[n]]
    ensures AllAcceptable(cluster, events[..n + 1]) <==> Acceptable(cluster, events[..n], events[n])
    ensures LastFailure(events[..n + 1]) == if events[n].Fatal? then Some(events[n].why) else LastFailure(events[..n])
  {
    assert events[..n + 1][..n] == events[..n];
  }

  /** The plan is, action by action, the fold of the handlers over that resource's own events. */
  method DryRunForPlan(cluster: Cluster, events: seq<Event>) returns (outcome: Outcome)
    ensures outcome.Planned? <==> AllAcceptable(cluster, events)
    ensures outcome.Planned? ==> outcome.failure == LastFailure(events)
    ensures outcome.Planned? ==> outcome.actions == PlanFor(cluster, events)
    ensures !outcome.Planned? ==> EndsEarly(cluster, events, outcome)
  {
    var actions: seq<Action>, failure := [], None;
    for n := 0 to |events|
      invariant AllAcceptable(cluster, events[..n])
      invariant failure == LastFailure(events[..n])
      invariant actions == PlanFor(cluster, events[..n])
    {
      OneMoreEvent(cluster, events, n);
      if events[n].Fatal? {
        failure := Some(events[n].why);
      }
      var consumed := Consume(cluster, events[n], actions, events[..n]);
      if consumed.Err? {
        RefusedForGood(cluster, events, n);
        assert Ends(cluster, events[..n], events[n], consumed.error);
        return consumed.error;
      }
      actions := consumed.value;
    }
    assert events[..|events|] == events;
    outcome := Planned(actions, failure);
  }

  lemma NoEventsNoChange(initial: seq<Action>)
    ensures PlanOf(initial, []) == initial
  {
    forall i | 0 <= i < |initial| ensures ActionAfter(initial[i], []) == initial[i] {
    }
  }

  lemma OneEventOneAction(initial: seq<Action>, events: seq<Event>, e: Event, k: nat)
    requires k < |initial| && Found(initial, k) && Concerns(e, initial[k].id)
    ensures PlanOf(initial, events + [e]) == PlanOf(initial, events)[k := Handle(e, PlanOf(initial, events)[k])]
  {
    forall i | 0 <= i < |initial| && Found(initial, i)
      ensures ActionAfter(initial[i], events + [e]) ==
              if i == k then Handle(e, ActionAfter(initial[i], events)) else ActionAfter(initial[i], events)
    {
      var own := EventsFor(initial[i].id, events);
      assert (events + [e])[..|events|] == events;
      if i == k {
        assert EventsFor(initial[i].id, events + [e]) == own + [e];
        assert (own + [e])[..|own|] == own;
      } else {
        assert initial[i].id != initial[k].id;
        assert EventsFor(initial[i].id, events + [e]) == own;
      }
    }
  }

  lemma OtherEventsChangeNothing(initial: seq<Action>, events: seq<Event>, e: Event)
    requires !IsResourceEvent(e)
    ensures PlanOf(initial, events + [e]) == PlanOf(initial, events)
  {
    forall i | 0 <= i < |initial| ensures ActionAfter(initial[i], events + [e]) == ActionAfter(initial[i], events) {
      assert (events + [e])[..|events|] == events;
      assert EventsFor(initial[i].id, events + [e]) == EventsFor(initial[i].id, events);
    }
  }

  // ---------------------------------------------------------------- what a plan says

  /** The `n`-th event is the last that says something about `id`. */
  ghost predicate LastToSay<T>(says: Event -> Option<T>, id: Id, events: seq<Event>, n: nat) {
    && n < |events| && Concerns(events[n], id) && says(events[n]).Some?
    && forall m :: n < m < |events| && Concerns(events[m], id) ==> says(events[m]).None?
  }

  lemma {:induction false} LatestIsLastToSay<T>(says: Event -> Option<T>, id: Id, events: seq<Event>, otherwise: T, n: nat)
    requires LastToSay(says, id, events, n)
    ensures Latest(says, EventsFor(id, events), otherwise) == says(events[n]).value
    decreases |events|
  {
    var m := |events| - 1;
    if n < m {
      assert LastToSay(says, id, events[..m], n);
      LatestIsLastToSay(says, id, events[..m], otherwise, n);
    }
    LatestOneMore(says, id, events, otherwise);
  }

  lemma LatestOneMore<T>(says: Event -> Option<T>, id: Id, events: seq<Event>, otherwise: T)
    requires events != []
    ensures var n := |events| - 1;
            Latest(says, EventsFor(id, events), otherwise) ==
            if Concerns(events[n], id) && says(events[n]).Some? then says(events[n]).value
            else Latest(says, EventsFor(id, events[..n]), otherwise)
  {
    var n := |events| - 1;
    var before := EventsFor(id, events[..n]);
    if Concerns(events[n], id) {
      assert (before + [events[n]])[..|before|] == before;
    } else {
      assert before + [] == before;
    }
  }

  lemma {:induction false} LatestWithoutAny<T>(says: Event -> Option<T>, id: Id, events: seq<Event>, otherwise: T)
    requires forall n :: 0 <= n < |events| && Concerns(events[n], id) ==> says(events[n]).None?
    ensures Latest(says, EventsFor(id, events), otherwise) == otherwise
  {
    if events != [] {
      LatestWithoutAny(says, id, events[..|events| - 1], otherwise);
      LatestOneMore(says, id, events, otherwise);
    }
  }

  /** The event settles something about its resource: it skipped it, failed or succeeded. */
  predicate Settles(e: Event) {
    IsResourceEvent(e) && (e.status.Skipped? || e.failure.Some? || e.status.Successful?)
  }

  /** The `n`-th event is the last to settle anything about `id`. */
  ghost predicate LastToSettle(id: Id, events: seq<Event>, n: nat) {
    && n < |events| && Settles(events[n]) && events[n].id == id
    && forall m :: n < m < |events| && Settles(events[m]) ==> events[m].id != id
  }

  /** The plan of a stream led by its only init event, told by the cluster and the events
      alone: the last event to settle anything about a resource decides what is planned for
      it.  What a successful apply comes to depends on what the cluster holds. */
  lemma PlannedExactly(cluster: Cluster, init: Event, events: seq<Event>, i: nat, n: nat)
    requires init.Init? && NoInit(events) && i < |Listed(init.groups)|
    requires var ids := Listed(init.groups); (forall j :: 0 <= j < i ==> ids[j] != ids[i]) && LastToSettle(ids[i], events, n)
    ensures |PlanFor(cluster, [init] + events)| == |Listed(init.groups)|
    ensures var kind, e, now := PlanFor(cluster, [init] + events)[i].kind, events[n], cluster(Listed(init.groups)[i]);
            && (e.status.Skipped? ==> kind == Skip)
            && (!e.status.Skipped? && e.failure.Some? ==> kind == Error)
            && (e.status.Successful? && e.failure.None? ==>
                  if e.Prune? || e.Deletion? then kind == Delete
                  else if now == Holds(e.resource) then kind == Unchanged
                  else if now.Holds? then kind == Update
                  else kind == Create)
  {
    var ids := Listed(init.groups);
    LedByInit(init, events);
    var initial := InitialPlan(cluster, ids);
    forall j | 0 <= j < i ensures initial[j].id != initial[i].id {
      assert ids[j] != ids[i];
    }
    var says := (e: Event) => Verdict(initial[i].original, e);
    EventsForAreResourceEvents(ids[i], events);
    LatestEventsDecide(initial[i], EventsFor(ids[i], events));
    assert LastToSay(says, ids[i], events, n);
    LatestIsLastToSay(says, ids[i], events, initial[i].kind, n);
  }

  /** A resource about which nothing has been settled is left as it was fetched. */
  lemma UnsettledStaysUnset(cluster: Cluster, init: Event, events: seq<Event>, i: nat)
    requires init.Init? && NoInit(events) && i < |Listed(init.groups)|
    requires forall m :: 0 <= m < |events| && Settles(events[m]) ==> events[m].id != Listed(init.groups)[i]
    ensures |PlanFor(cluster, [init] + events)| == |Listed(init.groups)|
    ensures PlanFor(cluster, [init] + events)[i].kind == Unset
  {
    var id := Listed(init.groups)[i];
    LedByInit(init, events);
    var initial := InitialPlan(cluster, Listed(init.groups));
    var says := (e: Event) => Verdict(initial[i].original, e);
    EventsForAreResourceEvents(id, events);
    LatestEventsDecide(initial[i], EventsFor(id, events));
    LatestWithoutAny(says, id, events, initial[i].kind);
  }

  /** Its messages: the error is that of the last event that failed without being a skip, the
      skip reason that of the last skip that gives one, the updated object that of the last
      apply that succeeded. */
  lemma MessagesExactly(cluster: Cluster, init: Event, events: seq<Event>, i: nat, n: nat)
    requires init.Init? && NoInit(events) && i < |Listed(init.groups)| && n < |events|
    requires var ids := Listed(init.groups);
             (forall j :: 0 <= j < i ==> ids[j] != ids[i]) && IsResourceEvent(events[n]) && events[n].id == ids[i]
    ensures |PlanFor(cluster, [init] + events)| == |Listed(init.groups)|
    ensures var a, id, e := PlanFor(cluster, [init] + events)[i], Listed(init.groups)[i], events[n];
            && (e.failure.Some? && !e.status.Skipped? &&
                (forall m :: n < m < |events| && Concerns(events[m], id) ==> events[m].failure.None? || events[m].status.Skipped?) ==>
                  a.error == e.failure.value)
            && (e.failure.Some? && e.status.Skipped? &&
                (forall m :: n < m < |events| && Concerns(events[m], id) ==> events[m].failure.None? || !events[m].status.Skipped?) ==>
                  a.skipReason == e.failure.value)
            && (e.Apply? && e.status.Successful? && e.failure.None? &&
                (forall m :: n < m < |events| && Concerns(events[m], id) ==>
                   !(events[m].Apply? && events[m].status.Successful? && events[m].failure.None?)) ==>
                  a.updated == Some(e.resource))
  {
    hide Fold, Latest, EventsFor, PlanFor, HandleApply, HandleRemoval;
    var id := Listed(init.groups)[i];
    var initial := InitialPlan(cluster, Listed(init.groups));
    PlannedByFold(cluster, init, events, i);
    EventsForAreResourceEvents(id, events);
    LatestEventsDecide(initial[i], EventsFor(id, events));
    if LastToSay(ErrorIn, id, events, n) {
      LatestIsLastToSay(ErrorIn, id, events, initial[i].error, n);
    }
    if LastToSay(SkipReasonIn, id, events, n) {
      LatestIsLastToSay(SkipReasonIn, id, events, initial[i].skipReason, n);
    }
    if LastToSay(UpdatedIn, id, events, n) {
      LatestIsLastToSay(UpdatedIn, id, events, initial[i].updated, n);
    }
  }

  lemma PlannedByFold(cluster: Cluster, init: Event, events: seq<Event>, i: nat)
    requires init.Init? && NoInit(events) && i < |Listed(init.groups)|
    requires forall j :: 0 <= j < i ==> Listed(init.groups)[j] != Listed(init.groups)[i]
    ensures var id, initial := Listed(init.groups)[i], InitialPlan(cluster, Listed(init.groups));
            && (forall k :: 0 <= k < |EventsFor(id, events)| ==> IsResourceEvent(EventsFor(id, events)[k]))
            && |PlanFor(cluster, [init] + events)| == |Listed(init.groups)|
            && PlanFor(cluster, [init] + events)[i] == Fold(initial[i], EventsFor(id, events))
  {
    var ids := Listed(init.groups);
    LedByInit(init, events);
    EventsForAreResourceEvents(ids[i], events);
    var initial := InitialPlan(cluster, ids);
    forall j | 0 <= j < i ensures initial[j].id != initial[i].id {
      assert ids[j] != ids[i];
    }
  }

  /** The failure reported is that of the last fatal event. */
  lemma {:induction false} LastFailureExactly(events: seq<Event>, n: nat)
    ensures LastFailure(events).None? <==> forall m :: 0 <= m < |events| ==> !events[m].Fatal?
    ensures n < |events| && events[n].Fatal? && (forall m :: n < m < |events| ==> !events[m].Fatal?) ==>
              LastFailure(events) == Some(events[n].why)
  {
    if events != [] {
      LastFailureExactly(events[..|events| - 1], n);
    }
  }

  // ---------------------------------------------------------------- the order of the stream

  ghost predicate NoInit(events: seq<Event>) {
    forall i :: 0 <= i < |events| ==> !events[i].Init?
  }

  lemma {:induction false} LedByInit(init: Event, events: seq<Event>)
    requires init.Init? && NoInit(events)
    ensures Groups([init] + events) == init.groups && SinceInit([init] + events) == events
  {
    var all := [init] + events;
    if events == [] {
      assert all[0] == init;
    } else {
      var n := |events| - 1;
      assert all[..n + 1] == [init] + events[..n] && all[n + 1] == events[n];
      LedByInit(init, events[..n]);
    }
  }

  ghost predicate AboutListed(ids: seq<Id>, events: seq<Event>) {
    forall i :: 0 <= i < |events| && IsResourceEvent(events[i]) ==> events[i].id in ids
  }

  lemma OneMoreAboutListed(ids: seq<Id>, events: seq<Event>)
    requires events != []
    ensures AboutListed(ids, events) <==>
            && AboutListed(ids, events[..|events| - 1])
            && (IsResourceEvent(events[|events| - 1]) ==> events[|events| - 1].id in ids)
  {
    assert events == events[..|events| - 1] + [events[|events| - 1]];
  }

  /** A stream led by its only init event is acceptable exactly when what that lists can be
      fetched and every event is about something it lists. */
  lemma {:induction false} LedByInitAcceptable(cluster: Cluster, init: Event, events: seq<Event>)
    requires init.Init? && NoInit(events)
    ensures AllAcceptable(cluster, [init] + events) <==>
            Fetchable(cluster, Listed(init.groups)) && AboutListed(Listed(init.groups), events)
  {
    var all := [init] + events;
    if events == [] {
      assert all[..0] == [] && all[0] == init;
    } else {
      var n := |events| - 1;
      assert all[..n + 1] == [init] + events[..n] && all[n + 1] == events[n];
      LedByInitAcceptable(cluster, init, events[..n]);
      LedByInit(init, events[..n]);
      OneMoreAboutListed(Listed(init.groups), events);
    }
  }

  lemma {:induction false} EventsForSome(id: Id, events: seq<Event>)
    ensures EventsFor(id, events) != [] <==> exists i :: 0 <= i < |events| && Concerns(events[i], id)
  {
    if events != [] {
      EventsForSome(id, events[..|events| - 1]);
    }
  }

  ghost predicate SameEventsForEach(a: seq<Event>, b: seq<Event>) {
    forall id :: EventsFor(id, a) == EventsFor(id, b)
  }

  lemma SameResources(a: seq<Event>, b: seq<Event>, i: nat) returns (j: nat)
    requires SameEventsForEach(a, b) && i < |a| && IsResourceEvent(a[i])
    ensures j < |b| && IsResourceEvent(b[j]) && b[j].id == a[i].id
  {
    var id := a[i].id;
    assert Concerns(a[i], id);
    EventsForSome(id, a);
    EventsForSome(id, b);
    j :| 0 <= j < |b| && Concerns(b[j], id);
  }

  /** Streams led by the same init event in which every resource has the same events in the
      same order, however they are interleaved, are accepted alike and give the same plan. */
  lemma InterleavingIrrelevant(cluster: Cluster, init: Event, a: seq<Event>, b: seq<Event>)
    requires init.Init? && NoInit(a) && NoInit(b) && SameEventsForEach(a, b)
    ensures AllAcceptable(cluster, [init] + a) <==> AllAcceptable(cluster, [init] + b)
    ensures PlanFor(cluster, [init] + a) == PlanFor(cluster, [init] + b)
  {
    LedByInit(init, a);
    LedByInit(init, b);
    LedByInitAcceptable(cluster, init, a);
    LedByInitAcceptable(cluster, init, b);
    forall i | 0 <= i < |a| && IsResourceEvent(a[i])
      ensures exists j :: 0 <= j < |b| && IsResourceEvent(b[j]) && b[j].id == a[i].id
    {
      var j := SameResources(a, b, i);
    }
    forall i | 0 <= i < |b| && IsResourceEvent(b[i])
      ensures exists j :: 0 <= j < |a| && IsResourceEvent(a[j]) && a[j].id == b[i].id
    {
      var j := SameResources(b, a, i);
    }
    SamePlan(InitialPlan(cluster, Listed(init.groups)), a, b);
  }

  lemma SamePlan(initial: seq<Action>, a: seq<Event>, b: seq<Event>)
    requires SameEventsForEach(a, b)
    ensures PlanOf(initial, a) == PlanOf(initial, b)
  {
    forall i | 0 <= i < |initial| ensures ActionAfter(initial[i], a) == ActionAfter(initial[i], b) {
    }
  }

  /** In particular neighbouring events about different resources may be exchanged. */
  lemma ExchangeChangesNothing(cluster: Cluster, init: Event, before: seq<Event>, e: Event, f: Event, after: seq<Event>)
    requires init.Init? && NoInit(before) && NoInit(after)
    requires IsResourceEvent(e) && IsResourceEvent(f) && e.id != f.id
    ensures AllAcceptable(cluster, [init] + (before + [e, f] + after)) <==>
            AllAcceptable(cluster, [init] + (before + [f, e] + after))
    ensures PlanFor(cluster, [init] + (before + [e, f] + after)) == PlanFor(cluster, [init] + (before + [f, e] + after))
  {
    var a, b := before + [e, f] + after, before + [f, e] + after;
    forall id ensures EventsFor(id, a) == EventsFor(id, b) {
      ExchangeKeepsOwnEvents(id, before, e, f, after);
    }
    InterleavingIrrelevant(cluster, init, a, b);
  }
}
