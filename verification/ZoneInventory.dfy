/** The zone inventory as a state machine of background tasks (agent/zoneinventory.go). */
module ZoneInventory {
  import opened Wrappers
  import opened Orders
  import opened ZoneViews
  import opened ZoneStorage

  datatype StateName =
    | Initial
    | Loading | Loaded | LoadingErred
    | Populating | Populated | PopulatingErred
    | ReceivingZones | ReceivedZones
  {
    predicate IsLongLasting() {
      Loading? || Populating? || ReceivingZones?
    }

    predicate IsErred() {
      LoadingErred? || PopulatingErred?
    }
  }

  /** A long-lasting operation cannot begin while another is recorded as running. */
  predicate Admits(current: StateName, next: StateName) {
    !(current.IsLongLasting() && next.IsLongLasting())
  }

  datatype Error = Busy(current: StateName, intended: StateName) | NotInited | NoDiskStorage

  /** When a state was entered, and the error that led to it. */
  datatype Visit = Visit(createdAt: int, error: Option<string>)

  function ReceiveRefused(current: StateName): Option<Error> {
    if current.Initial? || current.IsErred() then Some(NotInited)
    else if Admits(current, ReceivingZones) then None
    else Some(Busy(current, ReceivingZones))
  }

  // What a receive counts and delivers

  datatype Item = Item(viewName: string, zone: Zone)

  function SelectedViews(views: seq<ViewData>, filter: Option<ZoneFilter>): seq<ViewData> {
    if views == [] then []
    else if ViewPasses(views[0].name, filter) then [views[0]] + SelectedViews(views[1..], filter)
    else SelectedViews(views[1..], filter)
  }

  function ZoneTotal(views: seq<ViewData>): nat {
    if views == [] then 0 else |views[0].zones| + ZoneTotal(views[1..])
  }

  function ItemsOf(viewName: string, zones: seq<Zone>): (items: seq<Item>)
    ensures |items| == |zones| && forall i :: 0 <= i < |zones| ==> items[i] == Item(viewName, zones[i])
  {
    seq(|zones|, i requires 0 <= i < |zones| => Item(viewName, zones[i]))
  }

  /** All zones of a stream one after another, each with the name of its view. */
  function Flat(stream: Stream): seq<Item> {
    if stream == [] then [] else ItemsOf(stream[0].0, stream[0].1) + Flat(stream[1..])
  }

  function Delivery(views: seq<ViewData>, filter: Option<ZoneFilter>): seq<Item> {
    Flat(MemoryStream(views, filter))
  }

  function Announced(views: seq<ViewData>, filter: Option<ZoneFilter>): nat {
    ZoneTotal(SelectedViews(views, filter))
  }

  // Tasks and the shared state

  datatype StorageKind = InMemory | OnDisk | InMemoryAndDisk

  /** A background task, with the point it has reached. `seen` is what the storage held when
      the receive was admitted. A receive that offers a zone is blocked until its receiver
      takes the zone. */
  datatype Task =
    | Fetching
    | Saving(fetched: seq<ViewData>)
    | PopulateEnding(ok: bool)
    | Reading
    | LoadEnding(ok: bool)
    | Counting(filter: Option<ZoneFilter>, seen: seq<ViewData>, counted: nat, total: nat)
    | Sending(filter: Option<ZoneFilter>, seen: seq<ViewData>, total: nat, sent: seq<Item>)
    | Offering(filter: Option<ZoneFilter>, seen: seq<ViewData>, total: nat, sent: seq<Item>)
    | ReceiveEnding(filter: Option<ZoneFilter>, seen: seq<ViewData>, total: nat, sent: seq<Item>, cancelled: bool)
  {
    predicate IsDelivering() {
      Sending? || Offering? || ReceiveEnding?
    }

    /** The state the inventory records while a task runs. */
    function Phase(): StateName {
      match this
      case Fetching | Saving(_) | PopulateEnding(_) => Populating
      case Reading | LoadEnding(_) => Loading
      case _ => ReceivingZones
    }
  }

  datatype State = State(
    kind: StorageKind,
    current: StateName,
    visited: set<StateName>,
    views: seq<ViewData>,
    tasks: map<nat, Task>,
    // The receives whose receivers take no more zones.
    abandoned: set<nat>)

  /** One atomic step, with the number of the background task that takes it. */
  datatype Step =
    | BeginPopulate(t: nat)
    | Fetched(t: nat, fetched: seq<ViewData>)
    | FetchFailed(t: nat)
    | Saved(t: nat, kept: seq<ViewData>)
    | SaveFailed(t: nat, kept: seq<ViewData>)
    | EndPopulate(t: nat)
    | BeginLoad(t: nat)
    | ReadFromDisk(t: nat, found: seq<ViewData>)
    | ReadFailed(t: nat)
    | EndLoad(t: nat)
    | BeginReceive(t: nat, filter: Option<ZoneFilter>)
    | CountView(t: nat)
    | CountFailed(t: nat)
    | CountEnded(t: nat)
    | Offer(t: nat)
    | Taken(t: nat)
    | Abandon(t: nat)
    | AllSent(t: nat)
    | Cancel(t: nat)
    | EndReceive(t: nat)

  ghost predicate Init(s: State) {
    s.current == Initial && s.visited == {Initial} && s.tasks == map[] && s.abandoned == {}
  }

  /** A transition, which leaves the state as it is when it is refused. */
  function Transition(s: State, next: StateName): State {
    if Admits(s.current, next) then s.(current := next, visited := s.visited + {next}) else s
  }

  /** Beginning an operation: a background task is started only if the transition is admitted. */
  function Begin(s: State, t: nat, task: Task): State {
    if Admits(s.current, task.Phase())
    then Transition(s, task.Phase()).(tasks := s.tasks[t := task])
    else s
  }

  /** Ending an operation: the transition, and the background task is gone. */
  function End(s: State, t: nat, next: StateName): State {
    Transition(s, next).(tasks := s.tasks - {t})
  }

  function Go(s: State, t: nat, task: Task): State {
    s.(tasks := s.tasks[t := task])
  }

  /** The state after a step, if the step can be taken. */
  function After(s: State, step: Step): Option<State> {
    match step
    case BeginPopulate(t) =>
      if t in s.tasks || t in s.abandoned then None else Some(Begin(s, t, Fetching))
    case BeginLoad(t) =>
      if t in s.tasks || t in s.abandoned then None
      else Some(if s.kind.InMemory? then s else Begin(s, t, Reading))
    case BeginReceive(t, filter) =>
      if t in s.tasks || t in s.abandoned then None
      else Some(if ReceiveRefused(s.current).Some? then s else Begin(s, t, Counting(filter, s.views, 0, 0)))
    case _ =>
      if step.t in s.tasks then AfterTask(s, step, s.tasks[step.t]) else None
  }

  ghost predicate Next(s: State, step: Step, s': State) {
    After(s, step) == Some(s')
  }

  function AfterTask(s: State, step: Step, task: Task): Option<State> {
    match task.Phase()
    case Populating => AfterPopulate(s, step, task)
    case Loading => AfterLoad(s, step, task)
    case _ =>
      if task.Counting? then AfterCount(s, step, task)
      else if step.Abandon? then
        (if task.IsDelivering() then Some(s.(abandoned := s.abandoned + {step.t})) else None)
      else AfterDeliver(s, step, task)
  }

  function AfterPopulate(s: State, step: Step, task: Task): Option<State> {
    match task
    case Fetching =>
      if step.Fetched? then Some(Go(s, step.t, Saving(step.fetched)))
      else if step.FetchFailed? then Some(Go(s, step.t, PopulateEnding(false)))
      else None
    case Saving(fetched) =>
      // On disk, what was saved may be less than what was fetched.
      if step.Saved? && (!s.kind.OnDisk? ==> step.kept == fetched) then
        Some(Go(s.(views := step.kept), step.t, PopulateEnding(true)))
      // Saving in memory cannot fail, and is not tried when saving on disk fails.
      else if step.SaveFailed? && !s.kind.InMemory? && (s.kind.InMemoryAndDisk? ==> step.kept == s.views) then
        Some(Go(s.(views := step.kept), step.t, PopulateEnding(false)))
      else None
    case PopulateEnding(ok) =>
      if step.EndPopulate? then Some(End(s, step.t, if ok then Populated else PopulatingErred)) else None
    case _ => None
  }

  function AfterLoad(s: State, step: Step, task: Task): Option<State> {
    match task
    case Reading =>
      // Without a memory storage there is nothing to load the views into.
      if step.ReadFromDisk? && (s.kind.OnDisk? ==> step.found == s.views) then
        Some(Go(s.(views := step.found), step.t, LoadEnding(true)))
      else if step.ReadFailed? then Some(Go(s, step.t, LoadEnding(false)))
      else None
    case LoadEnding(ok) =>
      if step.EndLoad? then Some(End(s, step.t, if ok then StateName.Loaded else LoadingErred)) else None
    case _ => None
  }

  function AfterCount(s: State, step: Step, task: Task): Option<State>
    requires task.Counting?
  {
    var Counting(filter, seen, counted, total) := task;
    var selected := SelectedViews(s.views, filter);
    if step.CountView? && counted < |selected| then
      Some(Go(s, step.t, Counting(filter, seen, counted + 1, total + |selected[counted].zones|)))
    else if step.CountEnded? && counted == |selected| then
      Some(Go(s, step.t, Sending(filter, seen, total, [])))
    // A failure to read a directory returns early, without a closing transition.
    else if step.CountFailed? && s.kind.OnDisk? then
      Some(s.(tasks := s.tasks - {step.t}))
    else None
  }

  function AfterDeliver(s: State, step: Step, task: Task): Option<State> {
    match task
    case Sending(filter, seen, total, sent) =>
      var items := Delivery(s.views, filter);
      // Before each zone the context is checked.
      if step.Offer? && |sent| < |items| then Some(Go(s, step.t, Offering(filter, seen, total, sent)))
      else if step.Cancel? && |sent| < |items| then
        Some(Go(s, step.t, ReceiveEnding(filter, seen, total, sent, true)))
      else if step.AllSent? && |sent| == |items| then
        Some(Go(s, step.t, ReceiveEnding(filter, seen, total, sent, false)))
      else None
    case Offering(filter, seen, total, sent) =>
      var items := Delivery(s.views, filter);
      if step.Taken? && step.t !in s.abandoned && |sent| < |items| then
        Some(Go(s, step.t, Sending(filter, seen, total, sent + [items[|sent|]])))
      else None
    case ReceiveEnding(_, _, _, _, _) =>
      if step.EndReceive? then Some(End(s, step.t, ReceivedZones)) else None
    case _ => None
  }

  // The inventory itself

  class Inventory {
    var state: StateName
    var visitedStates: map<StateName, Visit>

    constructor (now: int)
      ensures state == Initial && visitedStates == map[Initial := Visit(now, None)]
    {
      state := Initial;
      visitedStates := map[Initial := Visit(now, None)];
    }

    /** The fields hold what a state of the runs below records. */
    ghost predicate Records(s: State)
      reads this
    {
      state == s.current && visitedStates.Keys == s.visited
    }

    method TransitionUnsafe(next: StateName, visit: Visit) returns (error: Option<Error>)
      modifies this
      ensures error == if Admits(old(state), next) then None else Some(Busy(old(state), next))
      ensures state == if error.None? then next else old(state)
      ensures visitedStates == if error.None? then old(visitedStates)[next := visit] else old(visitedStates)
      ensures forall s :: old(Records(s)) ==> Records(Transition(s, next))
    {
      if state.IsLongLasting() && next.IsLongLasting() {
        return Some(Busy(state, next));
      }
      state := next;
      visitedStates := visitedStates[next := visit];
      return None;
    }

    /** The guarded beginning of populating. */
    method BeginPopulate(now: int) returns (error: Option<Error>)
      modifies this
      ensures error == if Admits(old(state), Populating) then None else Some(Busy(old(state), Populating))
      ensures error.None? <==> old(state) !in {Loading, Populating, ReceivingZones}
      ensures forall s, s', t :: old(Records(s)) && Next(s, Step.BeginPopulate(t), s') ==> Records(s')
    {
      error := TransitionUnsafe(Populating, Visit(now, None));
    }

    /** The guarded beginning of loading, which needs a storage on disk. */
    method BeginLoad(kind: StorageKind, now: int) returns (error: Option<Error>)
      modifies this
      ensures error == if kind.InMemory? then Some(NoDiskStorage)
        else if Admits(old(state), Loading) then None else Some(Busy(old(state), Loading))
      ensures error.None? <==> !kind.InMemory? && old(state) !in {Loading, Populating, ReceivingZones}
      ensures forall s, s', t ::
        old(Records(s)) && s.kind == kind && Next(s, Step.BeginLoad(t), s') ==> Records(s')
    {
      if kind.InMemory? {
        error := Some(NoDiskStorage);
      } else {
        error := TransitionUnsafe(Loading, Visit(now, None));
      }
    }

    /** The guarded beginning of receiving zones, under one hold of the mutex. */
    method BeginReceive(now: int) returns (error: Option<Error>)
      modifies this
      ensures error == ReceiveRefused(old(state))
      ensures error.None? <==> old(state) in {StateName.Loaded, Populated, ReceivedZones}
      ensures error == Some(NotInited) <==> old(state) in {Initial, LoadingErred, PopulatingErred}
      ensures state == if error.None? then ReceivingZones else old(state)
      ensures visitedStates
           == if error.None? then old(visitedStates)[ReceivingZones := Visit(now, None)] else old(visitedStates)
      ensures forall s, s', t, filter ::
        old(Records(s)) && Next(s, Step.BeginReceive(t, filter), s') ==> Records(s')
    {
      if state.Initial? || state.IsErred() {
        error := Some(NotInited);
      } else {
        error := TransitionUnsafe(ReceivingZones, Visit(now, None));
      }
    }
  }

  // The invariant

  /** A receive still sees what it saw when it was admitted, and its numbers agree with it. */
  ghost predicate TaskInv(s: State, task: Task) {
    match task
    case Counting(filter, seen, counted, total) =>
      && seen == s.views
      && counted <= |SelectedViews(seen, filter)|
      && total == ZoneTotal(SelectedViews(seen, filter)[..counted])
    case Sending(filter, seen, total, sent) =>
      && seen == s.views && total == Announced(seen, filter)
      && sent <= Delivery(seen, filter)
    case Offering(filter, seen, total, sent) =>
      && seen == s.views && total == Announced(seen, filter)
      && sent < Delivery(seen, filter)
    case ReceiveEnding(filter, seen, total, sent, cancelled) =>
      && seen == s.views && total == Announced(seen, filter)
      && sent <= Delivery(seen, filter)
      && (!cancelled ==> sent == Delivery(seen, filter))
    case _ => true
  }

  ghost predicate Inv(s: State) {
    && s.current in s.visited
    && (forall t, u :: t in s.tasks && u in s.tasks ==> t == u)
    && (forall t :: t in s.tasks ==> s.current == s.tasks[t].Phase() && TaskInv(s, s.tasks[t]))
    && (forall t :: t in s.tasks && t in s.abandoned ==> s.tasks[t].IsDelivering())
    && (s.current.IsLongLasting() && s.tasks == map[] ==> s.kind.OnDisk?)
  }

  /** Recorded as busy, with no task that could ever end it. */
  ghost predicate Wedged(s: State) {
    s.current.IsLongLasting() && s.tasks == map[]
  }

  lemma {:induction false} ZoneTotalNext(views: seq<ViewData>, i: nat)
    requires i < |views|
    ensures ZoneTotal(views[..i + 1]) == ZoneTotal(views[..i]) + |views[i].zones|
  {
    if i > 0 {
      ZoneTotalNext(views[1..], i - 1);
      assert views[..i + 1][1..] == views[1..][..i] && views[..i][1..] == views[1..][..i - 1];
    }
  }

  /** The only task goes on to another point of the same operation. */
  lemma GoKeepsInv(s: State, t: nat, task: Task, s': State)
    requires Inv(s) && t in s.tasks && task.Phase() == s.tasks[t].Phase() && TaskInv(s', task)
    requires t in s'.abandoned ==> task.IsDelivering()
    requires s' == s.(views := s'.views, abandoned := s'.abandoned, tasks := s.tasks[t := task])
    ensures Inv(s') && !Wedged(s')
  {
    hide TaskInv;
    assert s'.tasks.Keys == {t};
  }

  /** The only task ends. */
  lemma EndKeepsInv(s: State, t: nat, next: StateName)
    requires Inv(s) && t in s.tasks && !next.IsLongLasting()
    ensures Inv(End(s, t, next)) && !Wedged(End(s, t, next))
  {
    assert s.tasks.Keys == {t} && s.tasks - {t} == map[];
  }

  lemma FailureKeepsInv(s: State, t: nat)
    requires Inv(s) && t in s.tasks && s.kind.OnDisk?
    ensures Inv(s.(tasks := s.tasks - {t})) && Wedged(s.(tasks := s.tasks - {t}))
  {
    hide TaskInv;
    assert s.tasks.Keys == {t} && s.tasks - {t} == map[];
    PhaseIsLong(s.tasks[t]);
  }

  lemma PhaseIsLong(task: Task)
    ensures task.Phase().IsLongLasting()
  {
  }

  lemma PopulateStepKeepsInv(s: State, step: Step, task: Task, s': State)
    requires Inv(s) && step.t in s.tasks && s.tasks[step.t] == task && AfterPopulate(s, step, task) == Some(s')
    ensures Inv(s') && !Wedged(s') && !step.CountFailed?
  {
    NotYetAbandoned(s, step.t);
    hide Inv, Wedged;
    if step.EndPopulate? {
      EndKeepsInv(s, step.t, if task.ok then Populated else PopulatingErred);
    } else {
      GoKeepsInv(s, step.t, s'.tasks[step.t], s');
    }
  }

  lemma LoadStepKeepsInv(s: State, step: Step, task: Task, s': State)
    requires Inv(s) && step.t in s.tasks && s.tasks[step.t] == task && AfterLoad(s, step, task) == Some(s')
    ensures Inv(s') && !Wedged(s') && !step.CountFailed?
  {
    NotYetAbandoned(s, step.t);
    hide Inv, Wedged;
    if step.EndLoad? {
      EndKeepsInv(s, step.t, if task.ok then StateName.Loaded else LoadingErred);
    } else {
      GoKeepsInv(s, step.t, s'.tasks[step.t], s');
    }
  }

  lemma CountStepKeepsInv(s: State, step: Step, task: Task, s': State)
    requires Inv(s) && step.t in s.tasks && s.tasks[step.t] == task && task.Counting? && AfterCount(s, step, task) == Some(s')
    ensures Inv(s')
    ensures Wedged(s') <==> step.CountFailed?
  {
    TaskInvHolds(s, step.t);
    NotYetAbandoned(s, step.t);
    hide Inv, SelectedViews, Delivery, Announced, ZoneTotal, Wedged;
    if step.CountFailed? {
      FailureKeepsInv(s, step.t);
    } else {
      if step.CountView? {
        ZoneTotalNext(SelectedViews(task.seen, task.filter), task.counted);
      } else {
        AllCounted(task.seen, task.filter);
      }
      GoKeepsInv(s, step.t, s'.tasks[step.t], s');
    }
  }

  lemma SendingStepKeepsInv(s: State, step: Step, task: Task, s': State)
    requires Inv(s) && step.t in s.tasks && s.tasks[step.t] == task && task.Sending? && AfterDeliver(s, step, task) == Some(s')
    ensures Inv(s') && !Wedged(s')
  {
    TaskInvHolds(s, step.t);
    hide Inv, Delivery, Announced, Wedged;
    if step.AllSent? {
      assert task.sent == Delivery(task.seen, task.filter)[..|task.sent|] == Delivery(task.seen, task.filter);
    }
    GoKeepsInv(s, step.t, s'.tasks[step.t], s');
  }

  lemma OfferingStepKeepsInv(s: State, step: Step, task: Task, s': State)
    requires Inv(s) && step.t in s.tasks && s.tasks[step.t] == task && task.Offering? && AfterDeliver(s, step, task) == Some(s')
    ensures Inv(s') && !Wedged(s')
  {
    TaskInvHolds(s, step.t);
    hide Inv, Delivery, Announced, Wedged;
    GoKeepsInv(s, step.t, s'.tasks[step.t], s');
  }

  lemma DeliverStepKeepsInv(s: State, step: Step, task: Task, s': State)
    requires Inv(s) && step.t in s.tasks && s.tasks[step.t] == task && AfterDeliver(s, step, task) == Some(s')
    ensures Inv(s') && !Wedged(s')
  {
    hide Inv, Delivery, Wedged;
    match task {
      case Sending(_, _, _, _) => SendingStepKeepsInv(s, step, task, s');
      case Offering(_, _, _, _) => OfferingStepKeepsInv(s, step, task, s');
      case ReceiveEnding(_, _, _, _, _) => EndKeepsInv(s, step.t, ReceivedZones);
      case _ =>
    }
  }

  lemma DeliversWithoutFailure(s: State, step: Step, task: Task, s': State)
    requires AfterDeliver(s, step, task) == Some(s')
    ensures !step.CountFailed?
  {
    hide Delivery;
  }

  lemma AbandonKeepsInv(s: State, t: nat)
    requires Inv(s) && t in s.tasks && s.tasks[t].IsDelivering()
    ensures Inv(s.(abandoned := s.abandoned + {t})) && !Wedged(s.(abandoned := s.abandoned + {t}))
  {
    TaskInvHolds(s, t);
    var s' := s.(abandoned := s.abandoned + {t});
    assert s'.tasks == s.tasks[t := s.tasks[t]];
    hide Inv, Delivery, Announced;
    GoKeepsInv(s, t, s.tasks[t], s');
  }

  lemma TaskStepKeepsInv(s: State, step: Step, task: Task, s': State)
    requires Inv(s) && step.t in s.tasks && s.tasks[step.t] == task && AfterTask(s, step, task) == Some(s')
    ensures Inv(s')
    ensures Wedged(s') <==> step.CountFailed?
  {
    hide Inv, Wedged, AfterCount, AfterDeliver, AfterPopulate, AfterLoad;
    match task.Phase() {
      case Populating => PopulateStepKeepsInv(s, step, task, s');
      case Loading => LoadStepKeepsInv(s, step, task, s');
      case _ =>
        if task.Counting? {
          CountStepKeepsInv(s, step, task, s');
        } else if step.Abandon? {
          AbandonKeepsInv(s, step.t);
        } else {
          DeliversWithoutFailure(s, step, task, s');
          DeliverStepKeepsInv(s, step, task, s');
        }
    }
  }

  lemma TaskInvHolds(s: State, t: nat)
    requires Inv(s) && t in s.tasks
    ensures TaskInv(s, s.tasks[t])
  {
  }

  lemma NotYetAbandoned(s: State, t: nat)
    requires Inv(s) && t in s.tasks
    ensures t in s.abandoned ==> s.tasks[t].IsDelivering()
  {
    hide TaskInv;
  }

  lemma AllCounted(views: seq<ViewData>, filter: Option<ZoneFilter>)
    ensures ZoneTotal(SelectedViews(views, filter)[..|SelectedViews(views, filter)|]) == Announced(views, filter)
  {
    assert SelectedViews(views, filter)[..|SelectedViews(views, filter)|] == SelectedViews(views, filter);
  }

  /** Every step of every task keeps the invariant. The record is left busy with no task only
      by a failed count, and then nothing ever changes again. */
  lemma NextKeepsInv(s: State, step: Step, s': State)
    requires Inv(s) && Next(s, step, s')
    ensures Inv(s')
    ensures Wedged(s) ==> s' == s
    ensures Wedged(s') <==> Wedged(s) || step.CountFailed?
  {
    hide SelectedViews, Delivery, Announced, AfterTask;
    if step.t in s.tasks {
      TaskStepKeepsInv(s, step, s.tasks[step.t], s');
    } else if s' != s {
      NoTasksUnlessBusy(s);
      assert ZoneTotal([]) == 0;
      assert forall filter :: SelectedViews(s.views, filter)[..0] == [];
    }
  }

  /** While the record admits a long-lasting operation, none is running. */
  lemma NoTasksUnlessBusy(s: State)
    requires Inv(s)
    ensures !s.current.IsLongLasting() ==> s.tasks == map[]
  {
    if s.tasks != map[] {
      var t :| t in s.tasks;
    }
  }

  // Runs

  ghost predicate IsRun(states: seq<State>, steps: seq<Step>) {
    && |states| == |steps| + 1
    && Init(states[0])
    && forall i :: 0 <= i < |steps| ==> Next(states[i], steps[i], states[i + 1])
  }

  lemma OneStep(states: seq<State>, steps: seq<Step>, n: nat)
    requires IsRun(states, steps) && n < |steps|
    ensures n + 1 < |states| && Next(states[n], steps[n], states[n + 1])
  {
    hide Next, Init;
  }

  lemma {:induction false} RunKeepsInv(states: seq<State>, steps: seq<Step>, n: nat)
    requires IsRun(states, steps) && n < |states|
    ensures Inv(states[n]) && states[n].kind == states[0].kind
    ensures Wedged(states[n]) <==> exists i :: 0 <= i < n && steps[i].CountFailed?
  {
    hide Next, Inv, Wedged, IsRun;
    if n > 0 {
      RunKeepsInv(states, steps, n - 1);
      RunLength(states, steps);
      OneStep(states, steps, n - 1);
      NextKeepsInv(states[n - 1], steps[n - 1], states[n]);
      KindKept(states[n - 1], steps[n - 1], states[n]);
    } else {
      RunBegins(states, steps);
    }
  }

  lemma RunLength(states: seq<State>, steps: seq<Step>)
    requires IsRun(states, steps)
    ensures |states| == |steps| + 1
  {
    hide Next, Init;
  }

  lemma RunBegins(states: seq<State>, steps: seq<Step>)
    requires IsRun(states, steps)
    ensures |states| > 0 && Inv(states[0]) && !Wedged(states[0])
  {
    hide Next, Inv, Wedged;
    InitInv(states[0]);
  }

  lemma InitInv(s: State)
    requires Init(s)
    ensures Inv(s) && !Wedged(s)
  {
  }

  lemma KindKept(s: State, step: Step, s': State)
    requires Next(s, step, s')
    ensures s'.kind == s.kind
  {
    hide SelectedViews, Delivery;
  }

  /** In every run at most one operation is active, the recorded state is that of the active
      operation, and one is active exactly when that state is long-lasting, unless reading a
      directory failed in a counting pass, which only a storage on disk can suffer. */
  lemma AtMostOneOperation(states: seq<State>, steps: seq<Step>, n: nat)
    requires IsRun(states, steps) && n < |states|
    ensures |states[n].tasks| <= 1
    ensures forall t :: t in states[n].tasks ==> states[n].current == states[n].tasks[t].Phase()
    ensures (states[n].current.IsLongLasting() <==> |states[n].tasks| == 1)
       <==> !exists i :: 0 <= i < n && steps[i].CountFailed?
    ensures !states[0].kind.OnDisk? ==>
      (states[n].current.IsLongLasting() <==> |states[n].tasks| == 1)
  {
    hide TaskInv, Next;
    RunKeepsInv(states, steps, n);
    var tasks := states[n].tasks;
    if tasks != map[] {
      var t :| t in tasks;
      assert tasks.Keys == {t};
    }
  }

  /** The transition that closes an operation is never refused. */
  lemma ClosingIsNeverRefused(states: seq<State>, steps: seq<Step>, n: nat)
    requires IsRun(states, steps) && n < |steps|
    requires steps[n].EndPopulate? || steps[n].EndLoad? || steps[n].EndReceive?
    ensures steps[n].t in states[n].tasks && states[n + 1].tasks == map[]
    ensures states[n + 1].current == match states[n].tasks[steps[n].t]
      case PopulateEnding(ok) => if ok then Populated else PopulatingErred
      case LoadEnding(ok) => if ok then StateName.Loaded else LoadingErred
      case _ => ReceivedZones
    ensures states[n + 1].current in states[n + 1].visited
  {
    hide TaskInv;
    RunKeepsInv(states, steps, n);
    RunKeepsInv(states, steps, n + 1);
    NoTasksUnlessBusy(states[n + 1]);
  }

  /** Once a counting pass has failed, the inventory never changes again: every operation
      is refused for ever. */
  lemma {:induction false} WedgedForever(states: seq<State>, steps: seq<Step>, n: nat, m: nat)
    requires IsRun(states, steps) && n <= m < |states|
    requires exists i :: 0 <= i < n && steps[i].CountFailed?
    ensures states[m] == states[n] && Wedged(states[m])
    decreases m
  {
    hide TaskInv, AfterTask;
    if n < m {
      WedgedForever(states, steps, n, m - 1);
      RunKeepsInv(states, steps, m - 1);
      NextKeepsInv(states[m - 1], steps[m - 1], states[m]);
    } else {
      RunKeepsInv(states, steps, n);
    }
  }

  lemma OneMore(states: seq<State>, steps: seq<Step>, step: Step, s': State)
    requires IsRun(states, steps) && Next(states[|steps|], step, s')
    ensures IsRun(states + [s'], steps + [step])
  {
    hide Next, Init;
  }

  /** The inventory was populated and is idle. */
  ghost predicate IsPopulated(s: State, kind: StorageKind, views: seq<ViewData>) {
    s.kind == kind && s.current == Populated && s.views == views && s.tasks == map[] && s.abandoned == {}
  }

  lemma PopulateBegins(s: State) returns (s': State)
    requires Init(s)
    ensures Next(s, Step.BeginPopulate(0), s') && s' == Begin(s, 0, Fetching)
  {
    hide AfterTask;
    s' := Begin(s, 0, Fetching);
  }

  lemma PopulateGoesOn(s: State, step: Step, s': State)
    requires step.t in s.tasks && AfterPopulate(s, step, s.tasks[step.t]) == Some(s')
    ensures Next(s, step, s')
  {
    hide AfterLoad, AfterCount, AfterDeliver;
  }

  lemma PopulateSteps(s: State, views: seq<ViewData>) returns (s1: State, s2: State, s3: State, s4: State)
    requires Init(s)
    ensures Next(s, Step.BeginPopulate(0), s1) && Next(s1, Fetched(0, views), s2)
    ensures Next(s2, Saved(0, views), s3) && Next(s3, EndPopulate(0), s4)
    ensures IsPopulated(s4, s.kind, views)
  {
    s1 := PopulateBegins(s);
    s2 := Go(s1, 0, Saving(views));
    s3 := Go(s2.(views := views), 0, PopulateEnding(true));
    s4 := End(s3, 0, Populated);
    assert s3.tasks.Keys == {0};
    hide Next;
    PopulateGoesOn(s1, Fetched(0, views), s2);
    PopulateGoesOn(s2, Saved(0, views), s3);
    PopulateGoesOn(s3, EndPopulate(0), s4);
  }

  lemma PopulatingRun(kind: StorageKind, views: seq<ViewData>) returns (states: seq<State>, steps: seq<Step>)
    ensures IsRun(states, steps) && |steps| == 4 && IsPopulated(states[4], kind, views) && states[0].kind == kind
  {
    var s := State(kind, Initial, {Initial}, [], map[], {});
    assert Init(s);
    hide Next, Init, IsPopulated;
    var s1, s2, s3, s4 := PopulateSteps(s, views);
    states := [s, s1, s2, s3, s4];
    steps := [Step.BeginPopulate(0), Fetched(0, views), Saved(0, views), EndPopulate(0)];
  }

  lemma BegunReceive(s: State, kind: StorageKind, views: seq<ViewData>) returns (s': State)
    requires IsPopulated(s, kind, views)
    ensures Next(s, Step.BeginReceive(1, None), s')
    ensures s'.kind == kind && s'.abandoned == {} && s'.current == ReceivingZones && s'.views == views
    ensures s'.tasks == map[1 := Counting(None, views, 0, 0)]
  {
    hide AfterTask;
    s' := Begin(s, 1, Counting(None, views, 0, 0));
  }

  lemma FailedCount(s: State, t: nat, task: Task) returns (s': State)
    requires s.kind.OnDisk? && s.current == ReceivingZones && task.Counting? && s.tasks == map[t := task]
    ensures Next(s, CountFailed(t), s') && Wedged(s') && s'.views == s.views
  {
    hide SelectedViews;
    s' := s.(tasks := s.tasks - {t});
    assert s.tasks - {t} == map[];
  }

  /** An inventory on disk that was populated wedges when the directory cannot be read. */
  lemma UnreadableDirectoryWedges(views: seq<ViewData>) returns (states: seq<State>, steps: seq<Step>)
    ensures IsRun(states, steps) && |steps| == 6 && steps[5].CountFailed?
    ensures Wedged(states[6]) && states[6].views == views
  {
    hide Next, Wedged, IsRun;
    states, steps := PopulatingRun(OnDisk, views);
    RunLength(states, steps);
    var s := BegunReceive(states[4], OnDisk, views);
    var s' := FailedCount(s, 1, Counting(None, views, 0, 0));
    OneMore(states, steps, Step.BeginReceive(1, None), s);
    states, steps := states + [s], steps + [Step.BeginReceive(1, None)];
    OneMore(states, steps, CountFailed(1), s');
    states, steps := states + [s'], steps + [CountFailed(1)];
  }

  // Which receives are admitted

  /** How the last populate or load that came to a result went, if there was any. */
  function LastResult(steps: seq<Step>): Option<bool> {
    if steps == [] then None
    else
      match steps[|steps| - 1]
      case Saved(_, _) | ReadFromDisk(_, _) => Some(true)
      case FetchFailed(_) | SaveFailed(_, _) | ReadFailed(_) => Some(false)
      case _ => LastResult(steps[..|steps| - 1])
  }

  /** What the record says about the last result; while populating or loading is under way it tells
      only once there is a new one. */
  ghost predicate ResultInv(s: State, result: Option<bool>) {
    match s.current
    case Initial => result == None
    case Loaded | Populated | ReceivedZones | ReceivingZones => result == Some(true)
    case LoadingErred | PopulatingErred => result == Some(false)
    case Loading | Populating =>
      forall t :: t in s.tasks ==>
        match s.tasks[t]
        case PopulateEnding(ok) => result == Some(ok)
        case LoadEnding(ok) => result == Some(ok)
        case _ => true
  }

  function ResultAfter(step: Step, before: Option<bool>): Option<bool> {
    match step
    case Saved(_, _) | ReadFromDisk(_, _) => Some(true)
    case FetchFailed(_) | SaveFailed(_, _) | ReadFailed(_) => Some(false)
    case _ => before
  }

  lemma ResultNext(steps: seq<Step>, n: nat)
    requires n < |steps|
    ensures LastResult(steps[..n + 1]) == ResultAfter(steps[n], LastResult(steps[..n]))
  {
    assert steps[..n + 1][..n] == steps[..n];
  }

  /** Populating and loading record what came of them. */
  lemma OperationKeepsResult(s: State, step: Step, task: Task, s': State, result: Option<bool>)
    requires s.tasks == map[step.t := task] && s.current == task.Phase() && ResultInv(s, result)
    requires AfterPopulate(s, step, task) == Some(s') || AfterLoad(s, step, task) == Some(s')
    ensures ResultInv(s', ResultAfter(step, result))
  {
  }

  lemma ReceiveKeepsResult(s: State, step: Step, task: Task, s': State, result: Option<bool>)
    requires s.current == ReceivingZones && result == Some(true) && task.Phase() == ReceivingZones
    requires AfterTask(s, step, task) == Some(s')
    ensures ResultInv(s', ResultAfter(step, result))
  {
    hide SelectedViews, Delivery;
  }

  lemma TaskKeepsResult(s: State, step: Step, s': State, result: Option<bool>)
    requires Inv(s) && step.t in s.tasks && AfterTask(s, step, s.tasks[step.t]) == Some(s')
    requires ResultInv(s, result)
    ensures ResultInv(s', ResultAfter(step, result))
  {
    hide AfterPopulate, AfterLoad, AfterCount, AfterDeliver, TaskInv, ResultAfter;
    var task := s.tasks[step.t];
    assert s.tasks.Keys == {step.t} && s.tasks == map[step.t := task];
    assert s.current == task.Phase();
    if task.Phase() == ReceivingZones {
      ReceiveKeepsResult(s, step, task, s', result);
    } else {
      OperationKeepsResult(s, step, task, s', result);
    }
  }

  lemma NextKeepsResult(s: State, step: Step, s': State, result: Option<bool>)
    requires Inv(s) && Next(s, step, s') && ResultInv(s, result)
    ensures ResultInv(s', ResultAfter(step, result))
  {
    hide AfterTask, TaskInv;
    if step.t in s.tasks {
      TaskKeepsResult(s, step, s', result);
    }
  }

  lemma {:induction false} RunKeepsResult(states: seq<State>, steps: seq<Step>, n: nat)
    requires IsRun(states, steps) && n < |states|
    ensures ResultInv(states[n], LastResult(steps[..n]))
  {
    hide Next, Inv, LastResult, ResultInv, ResultAfter;
    if n == 0 {
      NoResult(states[0], steps[..0]);
    } else {
      RunKeepsInv(states, steps, n - 1);
      RunKeepsResult(states, steps, n - 1);
      NextKeepsResult(states[n - 1], steps[n - 1], states[n], LastResult(steps[..n - 1]));
      ResultNext(steps, n - 1);
    }
  }

  lemma NoResult(s: State, steps: seq<Step>)
    requires Init(s) && steps == []
    ensures ResultInv(s, LastResult(steps))
  {
  }

  /** In every run, an attempt to receive zones is admitted if and only if nothing is under way and the
      last populate or load that came to a result has succeeded, except that nothing is admitted
      after a failed counting pass. */
  lemma ReceiveIsAdmitted(states: seq<State>, steps: seq<Step>, n: nat)
    requires IsRun(states, steps) && n < |steps| && steps[n].BeginReceive?
    ensures steps[n].t in states[n + 1].tasks
       <==> && states[n].tasks == map[] && LastResult(steps[..n]) == Some(true)
            && !exists i :: 0 <= i < n && steps[i].CountFailed?
  {
    RunKeepsInv(states, steps, n);
    RunKeepsResult(states, steps, n);
    OneStep(states, steps, n);
    NoTasksUnlessBusy(states[n]);
    AdmittedOrNot(states[n], steps[n], states[n + 1]);
    hide Next, Inv, LastResult, IsRun;
    if states[n].tasks != map[] {
      var t :| t in states[n].tasks;
      TaskIsRecorded(states[n], t);
    }
  }

  lemma TaskIsRecorded(s: State, t: nat)
    requires Inv(s) && t in s.tasks
    ensures s.current.IsLongLasting()
  {
    hide TaskInv;
    PhaseIsLong(s.tasks[t]);
  }

  lemma AdmittedOrNot(s: State, step: Step, s': State)
    requires step.BeginReceive? && Next(s, step, s')
    ensures step.t in s'.tasks <==> s.current in {StateName.Loaded, Populated, ReceivedZones}
  {
    hide AfterTask;
  }

  // What is populated

  /** The views that a task is about to save were fetched by it, and nothing was fetched since. */
  lemma {:induction false} FetchedBefore(states: seq<State>, steps: seq<Step>, n: nat, t: nat) returns (c: nat)
    requires IsRun(states, steps) && n < |states| && t in states[n].tasks && states[n].tasks[t].Saving?
    ensures c < n && steps[c] == Fetched(t, states[n].tasks[t].fetched)
    ensures forall i :: c < i < n ==> !steps[i].Fetched?
  {
    hide Next, Inv;
    if n == 0 {
      assert false;
    }
    RunKeepsInv(states, steps, n - 1);
    SavingFrom(states[n - 1], steps[n - 1], states[n], t);
    if steps[n - 1].Fetched? {
      c := n - 1;
    } else {
      c := FetchedBefore(states, steps, n - 1, t);
    }
  }

  lemma SavingFrom(s: State, step: Step, s': State, t: nat)
    requires Inv(s) && Next(s, step, s') && t in s'.tasks && s'.tasks[t].Saving?
    ensures step == Fetched(t, s'.tasks[t].fetched)
         || (!step.Fetched? && t in s.tasks && s.tasks[t] == s'.tasks[t])
  {
    hide TaskInv, AfterTask;
    if step.t in s.tasks {
      assert s.tasks.Keys == {step.t} && s.tasks == map[step.t := s.tasks[step.t]];
      SavingTaskFrom(s, step, s.tasks[step.t], s', t);
    }
  }

  lemma SavingTaskFrom(s: State, step: Step, task: Task, s': State, t: nat)
    requires t in s'.tasks && s'.tasks[t].Saving? && s.tasks == map[step.t := task]
    requires AfterTask(s, step, task) == Some(s')
    ensures step == Fetched(t, s'.tasks[t].fetched)
         || (!step.Fetched? && t in s.tasks && s.tasks[t] == s'.tasks[t])
  {
    hide SelectedViews, Delivery;
    match task.Phase() {
      case Populating => hide AfterLoad, AfterCount, AfterDeliver;
      case Loading => hide AfterPopulate, AfterCount, AfterDeliver;
      case _ => hide AfterPopulate, AfterLoad;
    }
  }

  /** In every run on a storage that holds views in memory, what is saved there are the views that were
      fetched last. */
  lemma SavedAreFetched(states: seq<State>, steps: seq<Step>, n: nat) returns (c: nat)
    requires IsRun(states, steps) && n < |steps| && steps[n].Saved? && !states[0].kind.OnDisk?
    ensures c < n && steps[c] == Fetched(steps[n].t, states[n + 1].views)
    ensures forall i :: c < i < n ==> !steps[i].Fetched?
  {
    RunKeepsInv(states, steps, n);
    OneStep(states, steps, n);
    SavedByTask(states[n], steps[n], states[n + 1]);
    hide Next, Inv;
    c := FetchedBefore(states, steps, n, steps[n].t);
  }

  lemma SavedByTask(s: State, step: Step, s': State)
    requires Next(s, step, s') && step.Saved?
    ensures step.t in s.tasks && s.tasks[step.t].Saving?
    ensures !s.kind.OnDisk? ==> s'.views == s.tasks[step.t].fetched
  {
    hide SelectedViews, Delivery;
  }

  /** The views that a step saves or reads, even if saving fails half way. */
  function Stored(step: Step): Option<seq<ViewData>> {
    match step
    case Saved(_, kept) => Some(kept)
    case SaveFailed(_, kept) => Some(kept)
    case ReadFromDisk(_, found) => Some(found)
    case _ => None
  }

  lemma StoredByTask(s: State, step: Step, s': State)
    requires step.t in s.tasks && AfterTask(s, step, s.tasks[step.t]) == Some(s')
    ensures s'.views == if Stored(step).Some? then Stored(step).value else s.views
  {
    hide SelectedViews, Delivery;
    match s.tasks[step.t].Phase() {
      case Populating => hide AfterLoad, AfterCount, AfterDeliver;
      case Loading => hide AfterPopulate, AfterCount, AfterDeliver;
      case _ => hide AfterPopulate, AfterLoad;
    }
  }

  lemma StoredByStep(s: State, step: Step, s': State)
    requires Next(s, step, s')
    ensures s'.views == if Stored(step).Some? then Stored(step).value else s.views
  {
    hide AfterTask;
    if step.t in s.tasks && !step.BeginPopulate? && !step.BeginLoad? && !step.BeginReceive? {
      StoredByTask(s, step, s');
    }
  }

  /** In every run, what is stored are the views that were saved or read last. */
  lemma {:induction false} StoredLast(states: seq<State>, steps: seq<Step>, n: nat) returns (c: nat)
    requires IsRun(states, steps) && n < |states|
    ensures c <= n && forall i :: c <= i < n ==> Stored(steps[i]) == None
    ensures if c == 0 then states[n].views == states[0].views else Stored(steps[c - 1]) == Some(states[n].views)
  {
    hide Next, Stored;
    c := n;
    if n > 0 {
      OneStep(states, steps, n - 1);
      StoredByStep(states[n - 1], steps[n - 1], states[n]);
      if Stored(steps[n - 1]) == None {
        c := StoredLast(states, steps, n - 1);
      }
    }
  }

  // Whether a receive can still end

  /** Steps from any state on. */
  ghost predicate IsPath(states: seq<State>, steps: seq<Step>) {
    && |states| == |steps| + 1
    && forall i :: 0 <= i < |steps| ==> Next(states[i], steps[i], states[i + 1])
  }

  /** There is a way from the state on to the closing transition of the receive, if `cancels` is
      false without its context being cancelled. */
  ghost predicate CanEnd(s: State, t: nat, cancels: bool) {
    exists states, steps :: IsPathToEnd(s, t, cancels, states, steps)
  }

  ghost predicate IsPathToEnd(s: State, t: nat, cancels: bool, states: seq<State>, steps: seq<Step>) {
    && IsPath(states, steps) && steps != [] && states[0] == s && steps[|steps| - 1] == EndReceive(t)
    && (cancels || forall i :: 0 <= i < |steps| ==> steps[i] != Cancel(t))
  }

  /** The receive is blocked on a zone that its receiver will not take. */
  ghost predicate Blocked(s: State, t: nat) {
    t in s.tasks && s.tasks[t].Offering? && t in s.abandoned
  }

  /** There are zones to deliver that the receiver will not take. */
  ghost predicate Owing(s: State, t: nat) {
    && t in s.tasks && t in s.abandoned
    && match s.tasks[t]
       case Offering(_, _, _, _) => true
       case Sending(filter, _, _, sent) => |sent| < |Delivery(s.views, filter)|
       case _ => false
  }

  /** A blocked receive changes nothing any more and lets nothing else begin. */
  lemma BlockedStays(s: State, step: Step, s': State, t: nat)
    requires Inv(s) && Next(s, step, s') && Blocked(s, t)
    ensures s' == s
  {
    OnlyTask(s, step, s', t);
    hide Inv, SelectedViews, Delivery, Announced;
    assert s.abandoned + {t} == s.abandoned;
  }

  /** While a receive is under way, nothing begins, and only its own steps change anything. */
  lemma OnlyTask(s: State, step: Step, s': State, t: nat)
    requires Inv(s) && Next(s, step, s') && t in s.tasks
    ensures s' == s || (step.t == t && AfterTask(s, step, s.tasks[t]) == Some(s'))
  {
    hide TaskInv, AfterTask;
    PhaseIsLong(s.tasks[t]);
    assert s.tasks.Keys == {t};
  }

  /** Zones stay owed until the context is cancelled. */
  lemma OwingStays(s: State, step: Step, s': State, t: nat)
    requires Inv(s) && Next(s, step, s') && Owing(s, t) && step != Cancel(t)
    ensures Owing(s', t)
  {
    OnlyTask(s, step, s', t);
    hide Inv, SelectedViews, Delivery, Announced;
    assert s.abandoned + {t} == s.abandoned;
  }

  lemma {:induction false} StuckPath(states: seq<State>, steps: seq<Step>, t: nat, cancels: bool, n: nat)
    requires IsPath(states, steps) && n < |states| && Inv(states[0])
    requires if cancels then Blocked(states[0], t)
      else Owing(states[0], t) && forall i :: 0 <= i < |steps| ==> steps[i] != Cancel(t)
    ensures Inv(states[n])
    ensures if cancels then Blocked(states[n], t) else Owing(states[n], t)
  {
    hide Next, Inv, Blocked, Owing;
    if n > 0 {
      StuckPath(states, steps, t, cancels, n - 1);
      NextKeepsInv(states[n - 1], steps[n - 1], states[n]);
      if cancels {
        BlockedStays(states[n - 1], steps[n - 1], states[n], t);
      } else {
        OwingStays(states[n - 1], steps[n - 1], states[n], t);
      }
    }
  }

  /** Only a receive that has nothing left to deliver closes. */
  lemma EndsWhenEnding(s: State, t: nat, s': State)
    requires Next(s, EndReceive(t), s')
    ensures !Blocked(s, t) && !Owing(s, t)
  {
    hide Delivery;
  }

  lemma PathFurther(s: State, t: nat, cancels: bool, step: Step, s': State)
    requires Next(s, step, s') && CanEnd(s', t, cancels) && (cancels || step != Cancel(t))
    ensures CanEnd(s, t, cancels)
  {
    var states, steps :| IsPathToEnd(s', t, cancels, states, steps);
    hide Next;
    assert IsPathToEnd(s, t, cancels, [s] + states, [step] + steps);
  }

  lemma LastStep(s: State, t: nat, cancels: bool)
    requires t in s.tasks && s.tasks[t].ReceiveEnding?
    ensures CanEnd(s, t, cancels)
  {
    var s' := End(s, t, ReceivedZones);
    assert Next(s, EndReceive(t), s');
    hide Next;
    assert IsPathToEnd(s, t, cancels, [s, s'], [EndReceive(t)]);
  }

  /** How far a receive is from its end. */
  function Distance(s: State, t: nat): nat
    requires t in s.tasks
  {
    match s.tasks[t]
    case Counting(filter, _, counted, _) =>
      LeftOf(|SelectedViews(s.views, filter)|, counted) + 2 * |Delivery(s.views, filter)| + 3
    case Sending(filter, _, _, sent) => 2 * LeftOf(|Delivery(s.views, filter)|, |sent|) + 2
    case Offering(filter, _, _, sent) => 2 * LeftOf(|Delivery(s.views, filter)|, |sent|) + 1
    case _ => 0
  }

  function LeftOf(all: nat, done: nat): nat {
    if done < all then all - done else 0
  }

  /** The next step on the way to the end of a receive. */
  ghost function WayOn(s: State, t: nat, cancels: bool): Step
    requires t in s.tasks
  {
    match s.tasks[t]
    case Counting(filter, _, counted, _) =>
      if counted < |SelectedViews(s.views, filter)| then CountView(t) else CountEnded(t)
    case Sending(filter, _, _, sent) =>
      if |sent| == |Delivery(s.views, filter)| then AllSent(t) else if cancels then Cancel(t) else Offer(t)
    case Offering(_, _, _, _) => Taken(t)
    case _ => EndReceive(t)
  }

  /** A step on the way leads to a receive that is nearer to its end. */
  ghost predicate Nearer(s: State, t: nat, cancels: bool, s': State)
    requires t in s.tasks
  {
    && Next(s, WayOn(s, t, cancels), s')
    && t in s'.tasks && s'.tasks[t].Phase() == ReceivingZones && Distance(s', t) < Distance(s, t)
    && if cancels then !Blocked(s', t) else !Owing(s', t)
  }

  lemma CountingOn(s: State, t: nat, cancels: bool) returns (s': State)
    requires Inv(s) && t in s.tasks && s.tasks[t].Counting?
    ensures Nearer(s, t, cancels, s')
  {
    TaskInvHolds(s, t);
    NotYetAbandoned(s, t);
    hide Inv, SelectedViews, Delivery, Announced, ZoneTotal;
    var Counting(filter, seen, counted, total) := s.tasks[t];
    var selected := SelectedViews(s.views, filter);
    s' := Go(s, t, if counted < |selected| then Counting(filter, seen, counted + 1, total + |selected[counted].zones|)
                   else Sending(filter, seen, total, []));
  }

  lemma SendingOn(s: State, t: nat, cancels: bool) returns (s': State)
    requires Inv(s) && t in s.tasks && s.tasks[t].Sending? && (cancels || !Owing(s, t))
    ensures Nearer(s, t, cancels, s')
  {
    TaskInvHolds(s, t);
    hide Inv, SelectedViews, Delivery, Announced, ZoneTotal;
    var Sending(filter, seen, total, sent) := s.tasks[t];
    s' := Go(s, t, if |sent| == |Delivery(s.views, filter)| then ReceiveEnding(filter, seen, total, sent, false)
                   else if cancels then ReceiveEnding(filter, seen, total, sent, true)
                   else Offering(filter, seen, total, sent));
  }

  lemma OfferingOn(s: State, t: nat, cancels: bool) returns (s': State)
    requires Inv(s) && t in s.tasks && s.tasks[t].Offering? && t !in s.abandoned
    ensures Nearer(s, t, cancels, s')
  {
    TaskInvHolds(s, t);
    hide Inv, SelectedViews, Delivery, Announced, ZoneTotal;
    var Offering(filter, seen, total, sent) := s.tasks[t];
    s' := Go(s, t, Sending(filter, seen, total, sent + [Delivery(s.views, filter)[|sent|]]));
  }

  lemma OnTheWay(s: State, t: nat, cancels: bool) returns (s': State)
    requires Inv(s) && t in s.tasks && s.tasks[t].Phase() == ReceivingZones && !s.tasks[t].ReceiveEnding?
    requires if cancels then !Blocked(s, t) else !Owing(s, t)
    ensures Nearer(s, t, cancels, s')
  {
    hide Inv, Nearer, Delivery;
    match s.tasks[t] {
      case Counting(_, _, _, _) => s' := CountingOn(s, t, cancels);
      case Sending(_, _, _, _) => s' := SendingOn(s, t, cancels);
      case Offering(_, _, _, _) => s' := OfferingOn(s, t, cancels);
    }
  }

  lemma {:induction false} WayToEnd(s: State, t: nat, cancels: bool)
    requires Inv(s) && t in s.tasks && s.tasks[t].Phase() == ReceivingZones
    requires if cancels then !Blocked(s, t) else !Owing(s, t)
    ensures CanEnd(s, t, cancels)
    decreases Distance(s, t)
  {
    hide Next, Inv, Blocked, Owing, CanEnd, Distance;
    if s.tasks[t].ReceiveEnding? {
      LastStep(s, t, cancels);
    } else {
      var s' := OnTheWay(s, t, cancels);
      NextKeepsInv(s, WayOn(s, t, cancels), s');
      WayToEnd(s', t, cancels);
      PathFurther(s, t, cancels, WayOn(s, t, cancels), s');
    }
  }

  /** In every run, an admitted receive can still end if and only if it is not blocked on a zone
      that its receiver will not take; and without its context being cancelled if and only if its
      receiver takes all zones that are left. */
  lemma ReceiveCanEnd(states: seq<State>, steps: seq<Step>, n: nat, t: nat)
    requires IsRun(states, steps) && n < |states|
    requires t in states[n].tasks && states[n].tasks[t].Phase() == ReceivingZones
    ensures CanEnd(states[n], t, true) <==> !Blocked(states[n], t)
    ensures CanEnd(states[n], t, false) <==> !Owing(states[n], t)
  {
    RunKeepsInv(states, steps, n);
    var s := states[n];
    hide Next, Inv, Blocked, Owing;
    forall cancels: bool | CanEnd(s, t, cancels) ensures if cancels then !Blocked(s, t) else !Owing(s, t) {
      var path, way :| IsPathToEnd(s, t, cancels, path, way);
      EndsWhenEnding(path[|way| - 1], t, path[|way|]);
      if if cancels then Blocked(s, t) else Owing(s, t) {
        StuckPath(path, way, t, cancels, |way| - 1);
      }
    }
    forall cancels: bool | if cancels then !Blocked(s, t) else !Owing(s, t) ensures CanEnd(s, t, cancels) {
      WayToEnd(s, t, cancels);
    }
  }

  /** Once a receive is blocked, the inventory never changes again. */
  lemma {:induction false} BlockedForever(states: seq<State>, steps: seq<Step>, n: nat, m: nat, t: nat)
    requires IsRun(states, steps) && n <= m < |states| && Blocked(states[n], t)
    ensures states[m] == states[n]
    decreases m
  {
    hide Next, Inv, Blocked;
    if n < m {
      BlockedForever(states, steps, n, m - 1, t);
      RunKeepsInv(states, steps, m - 1);
      BlockedStays(states[m - 1], steps[m - 1], states[m], t);
    }
  }

  lemma OneZone(viewName: string, zone: Zone)
    ensures var views := [ViewData(viewName, [zone])];
      SelectedViews(views, None) == views && Delivery(views, None) == [Item(viewName, zone)]
  {
    var views := [ViewData(viewName, [zone])];
    assert views[1..] == [];
    assert MemoryStream(views, None) == [(viewName, [zone])];
    assert Flat(MemoryStream(views, None)) == ItemsOf(viewName, [zone]) + [];
  }

  lemma OneZoneCounted(s: State, viewName: string, zone: Zone) returns (s1: State, s2: State)
    requires s.views == [ViewData(viewName, [zone])] && s.tasks == map[1 := Counting(None, s.views, 0, 0)]
    requires s.current == ReceivingZones
    ensures Next(s, CountView(1), s1) && Next(s1, CountEnded(1), s2)
    ensures s2 == s.(tasks := map[1 := Sending(None, s.views, 1, [])])
  {
    OneZone(viewName, zone);
    hide SelectedViews, Delivery;
    s1 := Go(s, 1, Counting(None, s.views, 1, 1));
    s2 := Go(s1, 1, Sending(None, s.views, 1, []));
    assert s2.tasks == map[1 := Sending(None, s.views, 1, [])];
  }

  lemma OfferedToNobody(s: State, viewName: string, zone: Zone) returns (s3: State, s4: State)
    requires s.views == [ViewData(viewName, [zone])] && s.tasks == map[1 := Sending(None, s.views, 1, [])]
    requires s.current == ReceivingZones
    ensures Next(s, Offer(1), s3) && Next(s3, Abandon(1), s4) && Blocked(s4, 1)
  {
    OneZone(viewName, zone);
    hide SelectedViews, Delivery;
    s3 := Go(s, 1, Offering(None, s.views, 1, []));
    s4 := s3.(abandoned := s.abandoned + {1});
  }

  /** On every storage, a receiver that gives up while a zone is offered blocks the inventory. */
  lemma AbandonedReceiveBlocks(kind: StorageKind, viewName: string, zone: Zone)
    returns (states: seq<State>, steps: seq<Step>)
    ensures IsRun(states, steps) && |steps| == 9 && states[9].kind == kind && Blocked(states[9], 1)
  {
    var views := [ViewData(viewName, [zone])];
    hide Next, IsRun, Blocked;
    states, steps := PopulatingRun(kind, views);
    RunLength(states, steps);
    var s := BegunReceive(states[4], kind, views);
    OneMore(states, steps, Step.BeginReceive(1, None), s);
    states, steps := states + [s], steps + [Step.BeginReceive(1, None)];
    var s1, s2 := OneZoneCounted(s, viewName, zone);
    var s3, s4 := OfferedToNobody(s2, viewName, zone);
    OneMore(states, steps, CountView(1), s1);
    states, steps := states + [s1], steps + [CountView(1)];
    OneMore(states, steps, CountEnded(1), s2);
    states, steps := states + [s2], steps + [CountEnded(1)];
    OneMore(states, steps, Offer(1), s3);
    states, steps := states + [s3], steps + [Offer(1)];
    OneMore(states, steps, Abandon(1), s4);
    states, steps := states + [s4], steps + [Abandon(1)];
    KindOfLast(states, steps, kind);
  }

  lemma KindOfLast(states: seq<State>, steps: seq<Step>, kind: StorageKind)
    requires IsRun(states, steps) && states[0].kind == kind
    ensures states[|steps|].kind == kind
  {
    RunKeepsInv(states, steps, |steps|);
  }

  // What a receive delivers

  lemma {:induction false} DeliveryLength(views: seq<ViewData>, filter: Option<ZoneFilter>)
    ensures |Delivery(views, filter)| <= Announced(views, filter)
    ensures |Delivery(views, filter)| == Announced(views, filter)
       <==> forall v :: v in SelectedViews(views, filter) ==> |Selected(v.zones, filter)| == |v.zones|
  {
    hide Selected;
    if views != [] {
      DeliveryLength(views[1..], filter);
      if ViewPasses(views[0].name, filter) {
        SelectedLength(views[0].zones, filter);
        var rest := SelectedViews(views[1..], filter);
        assert SelectedViews(views, filter) == [views[0]] + rest;
        assert forall v :: v in [views[0]] + rest <==> v == views[0] || v in rest;
        assert MemoryStream(views, filter)[1..] == MemoryStream(views[1..], filter);
      }
    }
  }

  /** A receive that ran to its end, in any run, has delivered the stream of what the storage
      held when it was admitted, in order and complete. What it announced is never less, and
      equals what it delivered exactly when the filter held back no zone of a selected view;
      without lower bound, limit and time it never does. */
  lemma CompletedReceive(states: seq<State>, steps: seq<Step>, n: nat, t: nat)
    requires IsRun(states, steps) && n < |states|
    requires t in states[n].tasks && states[n].tasks[t].ReceiveEnding? && !states[n].tasks[t].cancelled
    ensures var task := states[n].tasks[t];
      && states[n].views == task.seen
      && task.sent == Delivery(task.seen, task.filter)
      && task.total == Announced(task.seen, task.filter)
      && |task.sent| <= task.total
      && (|task.sent| == task.total
          <==> forall v :: v in SelectedViews(task.seen, task.filter) ==>
                 |Selected(v.zones, task.filter)| == |v.zones|)
    ensures var filter := states[n].tasks[t].filter;
      LetsAllPass(filter)
      ==> |states[n].tasks[t].sent| == states[n].tasks[t].total
  {
    hide Selected, Delivery, Announced, SelectedViews, Next, Init;
    var task := states[n].tasks[t];
    RunKeepsInv(states, steps, n);
    DeliveryLength(task.seen, task.filter);
    forall v | v in SelectedViews(task.seen, task.filter)
      ensures LetsAllPass(task.filter)
        ==> |Selected(v.zones, task.filter)| == |v.zones|
    {
      SelectedLength(v.zones, task.filter);
    }
  }

  /** While a receive is under way nobody saves or loads views: at every point of it the
      storage holds what it held when the receive was admitted, and what has been sent so
      far is the beginning of the whole delivery. */
  lemma ReceiveIsUndisturbed(states: seq<State>, steps: seq<Step>, n: nat, t: nat)
    requires IsRun(states, steps) && n < |states|
    requires t in states[n].tasks && states[n].tasks[t].IsDelivering()
    ensures states[n].tasks[t].seen == states[n].views
    ensures states[n].tasks[t].sent <= Delivery(states[n].views, states[n].tasks[t].filter)
  {
    hide Selected, Delivery, Announced, SelectedViews, Next, Init;
    RunKeepsInv(states, steps, n);
  }

  /** What is counted are the views that are asked for. */
  lemma {:induction false} SelectedViewsMeaning(views: seq<ViewData>, filter: Option<ZoneFilter>)
    ensures SelectedViews(views, filter) == Kept(views, AskedFor(filter))
  {
    if views != [] {
      SelectedViewsMeaning(views[1..], filter);
    }
  }

  lemma {:induction false} FlatMeaning(stream: Stream, item: Item)
    ensures item in Flat(stream) <==> exists k :: 0 <= k < |stream| && stream[k].0 == item.viewName && item.zone in stream[k].1
  {
    if stream != [] {
      FlatMeaning(stream[1..], item);
      var first := ItemsOf(stream[0].0, stream[0].1);
      assert item in Flat(stream) <==> item in first || item in Flat(stream[1..]);
      assert item in first <==> stream[0].0 == item.viewName && item.zone in stream[0].1 by {
        if item.zone in stream[0].1 && stream[0].0 == item.viewName {
          var i :| 0 <= i < |stream[0].1| && stream[0].1[i] == item.zone;
          assert first[i] == item;
        }
      }
      hide Flat, ItemsOf;
      if k :| 0 <= k < |stream[1..]| && stream[1..][k].0 == item.viewName && item.zone in stream[1..][k].1 {
        assert stream[k + 1] == stream[1..][k];
      }
      if k :| 0 < k < |stream| && stream[k].0 == item.viewName && item.zone in stream[k].1 {
        assert stream[1..][k - 1] == stream[k];
      }
    }
  }

  /** What is delivered: the zones that the filter selects, with the names of their views, of the
      views that are asked for and of no others. */
  lemma DeliveredItems(views: seq<ViewData>, filter: Option<ZoneFilter>, item: Item)
    ensures item in Delivery(views, filter)
       <==> exists v :: v in views && v.name == item.viewName && item.zone in Selected(v.zones, filter)
              && (filter.None? || filter.value.view == None || filter.value.view == Some(v.name))
  {
    hide Selected, MemoryStream, Flat, Kept;
    var stream, asked := MemoryStream(views, filter), Kept(views, AskedFor(filter));
    StreamedFromMemory(views, filter);
    FlatMeaning(stream, item);
    if item in Flat(stream) {
      var k :| 0 <= k < |stream| && stream[k].0 == item.viewName && item.zone in stream[k].1;
      InKept(views, AskedFor(filter), asked[k]);
    }
    if v :| v in views && v.name == item.viewName && item.zone in Selected(v.zones, filter) && AskedFor(filter)(v) {
      InKept(views, AskedFor(filter), v);
      var k :| 0 <= k < |asked| && asked[k] == v;
      assert stream[k].0 == item.viewName && item.zone in stream[k].1;
    }
  }

  // The two loops of a receive

  method CountZones(views: seq<ViewData>, filter: Option<ZoneFilter>) returns (total: nat)
    ensures total == Announced(views, filter)
  {
    total := 0;
    for i := 0 to |views|
      invariant total + Announced(views[i..], filter) == Announced(views, filter)
    {
      assert views[i..][1..] == views[i + 1..];
      if ViewPasses(views[i].name, filter) {
        total := total + |views[i].zones|;
      }
    }
  }

  lemma DeliveryNext(views: seq<ViewData>, i: nat, filter: Option<ZoneFilter>)
    requires i < |views|
    ensures Delivery(views[i..], filter)
         == (if ViewPasses(views[i].name, filter) then ItemsOf(views[i].name, Selected(views[i].zones, filter)) else [])
            + Delivery(views[i + 1..], filter)
  {
    hide Selected;
    assert views[i..][1..] == views[i + 1..];
    if ViewPasses(views[i].name, filter) {
      var stream := MemoryStream(views[i..], filter);
      assert stream[1..] == MemoryStream(views[i + 1..], filter);
    }
  }

  /** Sends the zones of one view after those already sent, until the receiver's context is
      done, which it is found to be once `patience` zones have been sent. */
  method SendView(viewName: string, zones: seq<Zone>, before: seq<Item>, patience: Option<nat>)
    returns (sent: seq<Item>, done: bool)
    requires patience.Some? ==> |before| <= patience.value
    ensures sent <= before + ItemsOf(viewName, zones)
    ensures patience.Some? ==> |sent| <= patience.value
    ensures !done ==> sent == before + ItemsOf(viewName, zones)
    ensures done ==> patience.Some? && |sent| == patience.value < |before| + |zones|
  {
    ghost var items := ItemsOf(viewName, zones);
    sent := before;
    for j := 0 to |zones|
      invariant sent == before + items[..j]
      invariant patience.Some? ==> |sent| <= patience.value
    {
      if patience.Some? && |sent| >= patience.value {
        return sent, true;
      }
      sent := sent + [Item(viewName, zones[j])];
      assert items[..j + 1] == items[..j] + [items[j]];
    }
    done := false;
    assert items[..|zones|] == items;
  }

  /** Sends the zones of the views one after another while the context lasts. */
  method SendZones(views: seq<ViewData>, filter: Option<ZoneFilter>, patience: Option<nat>) returns (sent: seq<Item>)
    requires forall v :: v in views ==> Sorted(ZoneOrder, v.zones)
    ensures sent <= Delivery(views, filter)
    ensures |sent| == if patience.None? || patience.value >= |Delivery(views, filter)|
      then |Delivery(views, filter)| else patience.value
  {
    hide Delivery, Selected, ViewPasses, ZoneOrder;
    ghost var delivery := Delivery(views, filter);
    sent := [];
    assert views[0..] == views;
    for i := 0 to |views|
      invariant sent + Delivery(views[i..], filter) == delivery
      invariant patience.Some? ==> |sent| <= patience.value
    {
      DeliveryNext(views, i, filter);
      if !ViewPasses(views[i].name, filter) {
        continue;
      }
      var zones := IterateView(views[i].zones, filter);
      ghost var items, rest := ItemsOf(views[i].name, zones), Delivery(views[i + 1..], filter);
      assert delivery == (sent + items) + rest;
      var done;
      sent, done := SendView(views[i].name, zones, sent, patience);
      if done {
        return;
      }
    }
    NothingDelivered(views[|views|..], filter);
  }

  lemma NothingDelivered(views: seq<ViewData>, filter: Option<ZoneFilter>)
    requires views == []
    ensures Delivery(views, filter) == []
  {
  }

  method IterateView(zones: seq<Zone>, filter: Option<ZoneFilter>) returns (yielded: seq<Zone>)
    requires Sorted(ZoneOrder, zones)
    ensures yielded == Selected(zones, filter)
  {
    SortedZonesHaveSortedNames(zones);
    yielded := IterateZones(ZoneNames(zones), zones, filter);
  }
}
