/** The change-notification protocol of a charger module: concurrent callers report
    changes, one non-reentrant work item notifies listeners, and a wake source keeps
    the system awake until every change has been notified. A run is any interleaving
    of the critical sections below. */
module ChangeNotify {

  /** Where the work item is: not running; running but not yet past its check; past
      the check with the flag lowered; inside the notifier chain; before its last
      critical section. */
  datatype Worker = Asleep | Started | Notifying | InChain | Settling

  /** `scheduling` counts callers that set the flag but have not yet scheduled the
      work. `changes` counts changes so far, and `notified` how many of them were made
      before the latest notification started. */
  datatype State = State(
    changed: bool, awake: bool, scheduling: nat, pending: bool, worker: Worker, changes: nat, notified: nat)

  const START := State(false, false, 0, false, Asleep, 0, 0)

  datatype Action =
    | Change       // a caller's critical section: flag up, stay awake
    | Schedule     // that caller's schedule_work, a no-op when already pending
    | Begin        // the work queue starts the pending work, unless it is running
    | Check        // the work's first critical section
    | Notify       // the notifier chain starts
    | ChainDone    // the notifier chain returns
    | Settle       // the work's last critical section

  predicate Enabled(s: State, a: Action)
  {
    match a
    case Change => true
    case Schedule => s.scheduling > 0
    case Begin => s.pending && s.worker == Asleep
    case Check => s.worker == Started
    case Notify => s.worker == Notifying
    case ChainDone => s.worker == InChain
    case Settle => s.worker == Settling
  }

  function Next(s: State, a: Action): State
    requires Enabled(s, a)
  {
    match a
    case Change => s.(changed := true, awake := true, scheduling := s.scheduling + 1, changes := s.changes + 1)
    case Schedule => s.(scheduling := s.scheduling - 1, pending := true)
    case Begin => s.(pending := false, worker := Started)
    case Check =>
      if s.changed then s.(changed := false, worker := Notifying)
      else s.(awake := false, worker := Asleep)
    case Notify => s.(notified := s.changes, worker := InChain)
    case ChainDone => s.(worker := Settling)
    case Settle => s.(awake := s.changed && s.awake, worker := Asleep)
  }

  predicate Possible(s: State, run: seq<Action>)
    decreases run
  {
    run == [] || (Enabled(s, run[0]) && Possible(Next(s, run[0]), run[1..]))
  }

  function Run(s: State, run: seq<Action>): State
    requires Possible(s, run)
    decreases run
  {
    if run == [] then s else Run(Next(s, run[0]), run[1..])
  }

  /** A worker run is pending, about to be scheduled, or not yet past its check. */
  predicate WorkComing(s: State)
  {
    s.pending || s.scheduling > 0 || s.worker == Started
  }

  predicate MidNotification(s: State)
  {
    s.worker == Notifying || s.worker == InChain || s.worker == Settling
  }

  ghost predicate Inv(s: State)
  {
    && s.notified <= s.changes
    && (s.changed ==> WorkComing(s))
    && (s.awake <==> s.changed || MidNotification(s))
    && (!s.changed && s.worker != Notifying ==> s.notified == s.changes)
  }

  lemma NextKeepsInv(s: State, a: Action)
    requires Inv(s) && Enabled(s, a)
    ensures Inv(Next(s, a))
  {
  }

  /** Main theorem: in every reachable state a raised flag means the wake source is
      held and a worker run is coming, and the wake source is released only when
      every change so far has been followed by a notification. */
  lemma {:induction false} NoChangeIsLost(s: State, run: seq<Action>)
    requires Inv(s) && Possible(s, run)
    ensures var s' := Run(s, run);
            && Inv(s')
            && (s'.changed ==> s'.awake && WorkComing(s'))
            && (!s'.awake ==> s'.notified == s'.changes)
    decreases run
  {
    if run != [] {
      NextKeepsInv(s, run[0]);
      NoChangeIsLost(Next(s, run[0]), run[1..]);
    }
  }

  lemma StartInv()
    ensures Inv(START)
  {
  }

  // ------------------------------------------------------------- progress

  /** The most steps the protocol can still take without a new change. */
  function Work(s: State): nat
  {
    6 * s.scheduling
    + (if s.pending then 5 else 0)
    + match s.worker
      case Asleep => 0
      case Started => 4
      case Notifying => 3
      case InChain => 2
      case Settling => 1
  }

  /** Nothing is scheduled, pending or running. */
  predicate Quiet(s: State)
  {
    s.scheduling == 0 && !s.pending && s.worker == Asleep
  }

  lemma StepUsesWork(s: State, a: Action)
    requires Enabled(s, a) && a != Change
    ensures Work(Next(s, a)) < Work(s)
  {
  }

  /** Main theorem: without new changes every run is finite, of at most `Work` steps;
      it can stop only when quiet, and then every change has been notified and the
      wake source is released. */
  lemma {:induction false} SettlesWithoutChanges(s: State, run: seq<Action>)
    requires Inv(s) && Possible(s, run) && Change !in run
    ensures |run| + Work(Run(s, run)) <= Work(s)
    ensures var s' := Run(s, run);
            (forall a :: a != Change ==> !Enabled(s', a)) <==> Quiet(s')
    ensures var s' := Run(s, run);
            Quiet(s') ==> !s'.changed && !s'.awake && s'.notified == s'.changes == s.changes
    decreases run
  {
    if run == [] {
      if !Quiet(s) {
        assert Enabled(s, Schedule) || Enabled(s, Begin) || Enabled(s, Check) || Enabled(s, Notify)
               || Enabled(s, ChainDone) || Enabled(s, Settle);
      }
    } else {
      assert run[0] in run;
      StepUsesWork(s, run[0]);
      NextKeepsInv(s, run[0]);
      SettlesWithoutChanges(Next(s, run[0]), run[1..]);
    }
  }
}
