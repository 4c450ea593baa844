/**
 The process supervisor of the web images: children, one waiting goroutine each, a buffered result
 channel, a signal channel and a kill timer, under every schedule.
 */
module Supervisor {
  import opened Text

  /** How a child or a start ended; the empty error is a clean exit. */
  type Error = string

  datatype Process =
    | NotStarted
    | Running
    | Exited(error: Error)  // its goroutine is about to send the result
    | Reported

  datatype ChildResult = ChildResult(child: nat, error: Error)

  datatype Phase =
    | Starting                        // in the start loop
    | Selecting                       // waiting for the first result or a signal
    | Signalling(next: nat)           // in the loop that sends SIGTERM, at this child
    | Waiting                         // waiting for the remaining results
    | Killing(next: nat)              // in the loop that kills, at this child
    | Returned(error: Option<Error>)

  datatype State = State(
    capacity: nat,                    // the number of children, and of slots in the result channel
    processes: seq<Process>,
    started: nat,
    channel: seq<ChildResult>,
    signalled: bool,
    phase: Phase,
    remaining: nat,
    first: Option<ChildResult>,
    startError: Option<Error>,
    signals: seq<nat>,                // the children that SIGTERM was sent to, in order
    timerArmed: bool,
    kills: seq<nat>,                  // the children that Kill was sent to, in order
    reports: seq<ChildResult>,        // every result sent so far, in order
    received: seq<ChildResult>)       // every result taken from the channel so far, in order

  datatype Step =
    | StartChild
    | StartFails(error: Error)
    | Exit(child: nat, error: Error)  // a process ends, by itself or because of a signal
    | Report(child: nat)              // its goroutine sends; only possible while there is a free slot
    | SignalArrives
    | TakeFirstResult
    | TakeSignal
    | SignalChild                     // one turn of the SIGTERM loop
    | SignallingEnds
    | TakeResult
    | TimerFires
    | KillChild                       // one turn of the Kill loop
    | KillingEnds
    | Return

  predicate Initial(s: State) {
    && |s.processes| == s.capacity && (forall c :: 0 <= c < s.capacity ==> s.processes[c] == NotStarted)
    && s.started == 0 && s.channel == [] && s.phase == (if s.capacity == 0 then Selecting else Starting) && s.remaining == 0
    && s.first == None && s.startError == None && s.signals == [] && !s.timerArmed && s.kills == []
    && s.reports == [] && s.received == []
  }

  predicate Enabled(s: State, step: Step) {
    match step
    case StartChild => s.phase == Starting && s.started < s.capacity && s.started < |s.processes|
    case StartFails(_) => s.phase == Starting && s.started < s.capacity
    case Exit(c, _) => c < |s.processes| && s.processes[c] == Running
    case Report(c) => c < |s.processes| && s.processes[c].Exited? && |s.channel| < s.capacity
    case SignalArrives => true
    case TakeFirstResult => s.phase == Selecting && s.channel != [] && s.remaining > 0
    case TakeSignal => s.phase == Selecting && s.signalled
    case SignalChild => s.phase.Signalling? && s.phase.next < s.started
    case SignallingEnds => s.phase.Signalling? && s.phase.next == s.started
    case TakeResult => s.phase == Waiting && s.remaining > 0 && s.channel != []
    case TimerFires => s.phase == Waiting && s.remaining > 0 && s.timerArmed
    case KillChild => s.phase.Killing? && s.phase.next < s.started
    case KillingEnds => s.phase.Killing? && s.phase.next == s.started
    case Return => s.phase == Waiting && s.remaining == 0
  }

  function Below(n: nat): (r: set<nat>)
    ensures forall c: nat :: c in r <==> c < n
    ensures |r| == n
  {
    if n == 0 then {} else Below(n - 1) + {n - 1}
  }

  /** What the supervisor will return. */
  function Verdict(s: State): Option<Error> {
    if s.startError.Some? then s.startError
    else if s.first.Some? then Some(s.first.value.error)
    else None
  }

  function Do(s: State, step: Step): State
    requires Enabled(s, step)
  {
    match step
    case StartChild =>
      var up := s.(processes := s.processes[s.started := Running], started := s.started + 1);
      if up.started < s.capacity then up else up.(phase := Selecting, remaining := s.capacity)
    case StartFails(error) => s.(phase := Signalling(0), startError := Some(error), remaining := s.started)
    case Exit(c, error) => s.(processes := s.processes[c := Exited(error)])
    case Report(c) =>
      var result := ChildResult(c, s.processes[c].error);
      s.(processes := s.processes[c := Reported], channel := s.channel + [result], reports := s.reports + [result])
    case SignalArrives => s.(signalled := true)
    case TakeFirstResult =>
      var result := s.channel[0];
      s.(phase := Signalling(0), channel := s.channel[1..], received := s.received + [result], first := Some(result),
         remaining := s.remaining - 1)
    case TakeSignal => s.(phase := Signalling(0), signalled := false)
    case SignalChild =>
      var c := s.phase.next;
      var next := s.(phase := Signalling(c + 1));
      if s.first.Some? && s.first.value.child == c then next else next.(signals := s.signals + [c])
    case SignallingEnds => s.(phase := Waiting, timerArmed := s.remaining > 0)
    case TakeResult =>
      s.(channel := s.channel[1..], received := s.received + [s.channel[0]], remaining := s.remaining - 1)
    case TimerFires => s.(phase := Killing(0), timerArmed := false)
    case KillChild => s.(phase := Killing(s.phase.next + 1), kills := s.kills + [s.phase.next])
    case KillingEnds => s.(phase := Waiting)
    case Return => s.(phase := Returned(Verdict(s)))
  }

  predicate Follows(s: State, steps: seq<Step>)
    decreases |steps|, 0
  {
    steps != [] ==> Follows(s, steps[..|steps| - 1]) && Enabled(After(s, steps[..|steps| - 1]), steps[|steps| - 1])
  }

  function After(s: State, steps: seq<Step>): State
    requires Follows(s, steps)
    decreases |steps|, 1
  {
    if steps == [] then s else Do(After(s, steps[..|steps| - 1]), steps[|steps| - 1])
  }

  // ---- the invariant ----

  function Children(results: seq<ChildResult>): seq<nat> {
    seq(|results|, i requires 0 <= i < |results| => results[i].child)
  }

  predicate Distinct(children: seq<nat>) {
    forall i, j :: 0 <= i < j < |children| ==> children[i] != children[j]
  }

  ghost predicate ProcessesInv(s: State) {
    && |s.processes| == s.capacity && s.started <= s.capacity
    && (forall c :: 0 <= c < s.capacity ==> (s.processes[c] == NotStarted <==> c >= s.started))
  }

  ghost predicate ReportsInv(s: State) {
    && s.received + s.channel == s.reports
    && Distinct(Children(s.reports))
    && (forall c: nat :: c in Children(s.reports) <==> c < |s.processes| && s.processes[c] == Reported)
  }

  /** Nothing has been taken, stopped or killed yet. */
  ghost predicate Untouched(s: State) {
    s.received == [] && s.first == None && s.startError == None && s.signals == [] && s.kills == [] && !s.timerArmed
  }

  function UpTo(n: nat): seq<nat> {
    if n == 0 then [] else UpTo(n - 1) + [n - 1]
  }

  /** The children below n that did not report first, in order. */
  function Others(n: nat, first: Option<ChildResult>): seq<nat> {
    if n == 0 then []
    else Others(n - 1, first) + if first.Some? && first.value.child == n - 1 then [] else [n - 1]
  }

  /** What has been received and what is missing make up the started children. */
  ghost predicate StopInv(s: State) {
    && |s.received| + s.remaining == s.started
    && (s.startError.Some? ==> s.first == None)
    && (s.startError == None ==> s.started == s.capacity)
    && (s.first.Some? ==> s.received != [] && s.first.value == s.received[0])
  }

  /** SIGTERM is out, and Kill has been sent to all or to none. */
  ghost predicate WaitInv(s: State) {
    && s.signals == Others(s.started, s.first)
    && (s.kills == [] || s.kills == UpTo(s.started))
    && (s.timerArmed ==> s.kills == [])
    && (s.remaining > 0 && s.kills == [] ==> s.timerArmed)
  }

  ghost predicate PhaseInv(s: State) {
    match s.phase
    case Starting => Untouched(s) && s.started < s.capacity
    case Selecting => Untouched(s) && s.started == s.remaining == s.capacity
    case Signalling(c) =>
      StopInv(s) && c <= s.started && s.signals == Others(c, s.first) && s.kills == [] && !s.timerArmed
    case Waiting => StopInv(s) && WaitInv(s)
    case Killing(c) =>
      && StopInv(s) && c <= s.started && 0 < s.started && s.signals == Others(s.started, s.first)
      && s.kills == UpTo(c) && !s.timerArmed
    case Returned(error) => StopInv(s) && WaitInv(s) && s.remaining == 0 && error == Verdict(s)
  }

  ghost predicate Inv(s: State) {
    ProcessesInv(s) && ReportsInv(s) && PhaseInv(s)
  }

  lemma InitialInv(s: State)
    requires Initial(s)
    ensures Inv(s)
  {
    assert Children(s.reports) == [];
  }

  lemma ChildrenAppend(results: seq<ChildResult>, result: ChildResult)
    ensures Children(results + [result]) == Children(results) + [result.child]
  {
  }

  lemma ReportKeepsReports(s: State, c: nat)
    requires Inv(s) && Enabled(s, Report(c))
    ensures ReportsInv(Do(s, Report(c)))
  {
    hide Distinct, Children;
    var t := Do(s, Report(c));
    var result := ChildResult(c, s.processes[c].error);
    ChildrenAppend(s.reports, result);
    assert t.received + t.channel == s.received + s.channel + [result];
    NewChildIsDistinct(Children(s.reports), c);
  }

  lemma NewChildIsDistinct(children: seq<nat>, c: nat)
    requires Distinct(children) && c !in children
    ensures Distinct(children + [c])
  {
  }

  lemma TakingKeepsReports(s: State, step: Step)
    requires Inv(s) && Enabled(s, step) && (step.TakeFirstResult? || step.TakeResult?)
    ensures ReportsInv(Do(s, step))
  {
    var t := Do(s, step);
    assert t.received + t.channel == s.received + s.channel;
  }

  lemma StepKeepsReports(s: State, step: Step)
    requires Inv(s) && Enabled(s, step)
    ensures ReportsInv(Do(s, step))
  {
    match step
    case Report(c) => ReportKeepsReports(s, c);
    case TakeFirstResult => TakingKeepsReports(s, step);
    case TakeResult => TakingKeepsReports(s, step);
    case _ =>
  }

  lemma StepKeepsPhase(s: State, step: Step)
    requires Inv(s) && Enabled(s, step)
    ensures PhaseInv(Do(s, step))
  {
    StartedFits(s);
    if step.TakeFirstResult? || step.TakeResult? {
      TakingKeepsPhase(s, step);
    } else if step.SignalChild? || step.SignallingEnds? || step.KillChild? || step.KillingEnds? {
      LoopKeepsPhase(s, step);
    } else {
      OtherStepKeepsPhase(s, step);
    }
  }

  lemma TakingKeepsPhase(s: State, step: Step)
    requires PhaseInv(s) && s.started <= s.capacity && Enabled(s, step) && (step.TakeFirstResult? || step.TakeResult?)
    ensures PhaseInv(Do(s, step))
  {
    NothingYet(Some(s.channel[0]));
    hide Others, UpTo;
  }

  lemma LoopKeepsPhase(s: State, step: Step)
    requires PhaseInv(s) && Enabled(s, step)
    requires step.SignalChild? || step.SignallingEnds? || step.KillChild? || step.KillingEnds?
    ensures PhaseInv(Do(s, step))
  {
  }

  lemma OtherStepKeepsPhase(s: State, step: Step)
    requires PhaseInv(s) && s.started <= s.capacity && Enabled(s, step)
    requires !step.TakeFirstResult? && !step.TakeResult?
    requires !step.SignalChild? && !step.SignallingEnds? && !step.KillChild? && !step.KillingEnds?
    ensures PhaseInv(Do(s, step))
  {
    NothingYet(s.first);
    hide Others, UpTo;
  }

  lemma NothingYet(first: Option<ChildResult>)
    ensures Others(0, first) == [] && UpTo(0) == []
  {
  }

  lemma StartedFits(s: State)
    requires Inv(s)
    ensures s.started <= s.capacity
  {
  }

  lemma StepKeepsProcesses(s: State, step: Step)
    requires Inv(s) && Enabled(s, step)
    ensures ProcessesInv(Do(s, step)) && Do(s, step).capacity == s.capacity
  {
    hide ReportsInv, Children, Distinct;
  }

  lemma StepKeepsInv(s: State, step: Step)
    requires Inv(s) && Enabled(s, step)
    ensures Inv(Do(s, step)) && Do(s, step).capacity == s.capacity
  {
    hide ReportsInv, ProcessesInv, PhaseInv, Enabled, Do;
    StepKeepsReports(s, step);
    StepKeepsPhase(s, step);
    StepKeepsProcesses(s, step);
  }

  lemma {:induction false} ScheduleKeepsInv(s: State, steps: seq<Step>)
    requires Initial(s) && Follows(s, steps)
    ensures Inv(After(s, steps)) && After(s, steps).capacity == s.capacity
    decreases |steps|
  {
    if steps == [] {
      InitialInv(s);
    } else {
      var n := |steps| - 1;
      ScheduleKeepsInv(s, steps[..n]);
      StepKeepsInv(After(s, steps[..n]), steps[n]);
    }
  }

  // ---- counting ----

  lemma {:induction false} DistinctBound(children: seq<nat>, all: set<nat>)
    requires Distinct(children) && forall c :: c in children ==> c in all
    ensures |children| <= |all|
    ensures |children| == |all| ==> forall c :: c in all ==> c in children
    decreases |children|
  {
    if children == [] {
      assert |all| == 0 ==> all == {};
    } else {
      var n := |children| - 1;
      var last := children[n];
      assert children == children[..n] + [last];
      assert last !in children[..n];
      DistinctBound(children[..n], all - {last});
    }
  }

  predicate IsReported(s: State, c: nat) {
    c < |s.processes| && s.processes[c] == Reported
  }

  /** A started child whose result is still to come. */
  predicate StillOut(s: State, c: nat) {
    c < s.started && c < |s.processes| && (s.processes[c].Running? || s.processes[c].Exited?)
  }

  lemma ReportsBound(s: State)
    requires Inv(s)
    ensures |s.reports| <= s.started
    ensures |s.reports| == s.started ==> forall c: nat :: c < s.started ==> c in Children(s.reports)
    ensures |s.reports| == s.started <==> forall c: nat :: c < s.started ==> IsReported(s, c)
  {
    var children := Children(s.reports);
    DistinctBound(children, Below(s.started));
    if forall c: nat :: c < s.started ==> IsReported(s, c) {
      forall c | c in Below(s.started) ensures c in children {
        assert IsReported(s, c);
      }
      Covers(children, Below(s.started));
    }
  }

  lemma {:induction false} Covers(children: seq<nat>, all: set<nat>)
    requires forall c :: c in all ==> c in children
    ensures |all| <= |children|
    decreases |children|
  {
    if children == [] {
      assert all == {};
    } else {
      var n := |children| - 1;
      assert children == children[..n] + [children[n]];
      Covers(children[..n], all - {children[n]});
    }
  }

  // ---- the results ----

  /** Main result: a goroutine that has a result can always send it; the channel never blocks it. */
  lemma SendersNeverBlock(s: State, steps: seq<Step>, c: nat)
    requires Initial(s) && Follows(s, steps)
    requires c < |After(s, steps).processes| && After(s, steps).processes[c].Exited?
    ensures Enabled(After(s, steps), Report(c))
  {
    ScheduleKeepsInv(s, steps);
    var t := After(s, steps);
    ReportsBound(t);
    assert c < t.started && !IsReported(t, c);
  }

  /**
   Main result: on every schedule the supervisor returns only when it has received exactly one
   result of every started child, and what it returns is the start error, or the error of the child
   that reported first if that came before a signal, or nothing.
   */
  lemma ReturnsAfterEveryChild(s: State, steps: seq<Step>)
    requires Initial(s) && Follows(s, steps) && After(s, steps).phase.Returned?
    ensures var t := After(s, steps);
            && Distinct(Children(t.received)) && (forall c: nat :: c in Children(t.received) <==> c < t.started)
            && (t.startError == None ==> t.started == t.capacity)
            && (t.startError.Some? ==> t.phase.error == t.startError)
            && (t.startError == None && t.first.Some? ==> t.reports != [] && t.phase.error == Some(t.reports[0].error))
            && (t.startError == None && t.first == None ==> t.phase.error == None)
  {
    ScheduleKeepsInv(s, steps);
    var t := After(s, steps);
    ReportsBound(t);
    assert |t.received + t.channel| == |t.reports|;
    assert t.received == t.reports;
  }

  /** SIGTERM is no longer being sent: the loop over the children is over. */
  predicate SignallingIsOver(s: State) {
    s.phase.Waiting? || s.phase.Killing? || s.phase.Returned?
  }

  lemma {:induction false} OthersAre(n: nat, first: Option<ChildResult>)
    ensures Distinct(Others(n, first))
    ensures forall c: nat :: c in Others(n, first) <==> c < n && (first.Some? ==> c != first.value.child)
    decreases n
  {
    if n > 0 {
      OthersAre(n - 1, first);
      NewChildIsDistinct(Others(n - 1, first), n - 1);
    }
  }

  lemma {:induction false} UpToAre(n: nat)
    ensures Distinct(UpTo(n)) && |UpTo(n)| == n
    ensures forall c: nat :: c in UpTo(n) <==> c < n
    decreases n
  {
    if n > 0 {
      UpToAre(n - 1);
      NewChildIsDistinct(UpTo(n - 1), n - 1);
    }
  }

  lemma FirstIsFirstReport(s: State)
    requires ReportsInv(s) && StopInv(s) && s.first.Some?
    ensures s.reports != [] && s.first.value == s.reports[0]
  {
    assert s.received[0] == (s.received + s.channel)[0];
  }

  /**
   Main result: on every schedule no child is sent SIGTERM twice, the child that reported first and
   children that were not started never are, and once the loop is over every other child has been.
   */
  lemma EveryOtherChildIsTerminated(s: State, steps: seq<Step>)
    requires Initial(s) && Follows(s, steps)
    ensures var t := After(s, steps);
            && Distinct(t.signals)
            && (t.first.Some? ==> t.reports != [])
            && (forall c: nat :: c in t.signals ==> c < t.started && (t.first.Some? ==> c != t.reports[0].child))
            && (SignallingIsOver(t) ==>
                  forall c: nat :: c < t.started && (t.first.Some? ==> c != t.reports[0].child) ==> c in t.signals)
  {
    ScheduleKeepsInv(s, steps);
    var t := After(s, steps);
    hide Others, UpTo, ReportsInv, ProcessesInv;
    OthersAre(t.started, t.first);
    if t.phase.Signalling? { OthersAre(t.phase.next, t.first); }
    if t.first.Some? { FirstIsFirstReport(t); }
  }

  function Timeouts(steps: seq<Step>): nat {
    if steps == [] then 0 else Timeouts(steps[..|steps| - 1]) + if steps[|steps| - 1] == TimerFires then 1 else 0
  }

  /** The timer has fired. */
  predicate Fired(s: State) {
    s.phase.Killing? || s.kills != []
  }

  lemma TimeoutStep(s: State, step: Step)
    requires Inv(s) && Enabled(s, step)
    ensures step == TimerFires ==> !Fired(s) && Fired(Do(s, step))
    ensures step != TimerFires ==> Fired(Do(s, step)) == Fired(s)
  {
    hide ReportsInv, ProcessesInv, Children, Distinct, Below, Others;
  }

  lemma {:induction false} FiredIsTimeouts(s: State, steps: seq<Step>)
    requires Initial(s) && Follows(s, steps)
    ensures Timeouts(steps) == if Fired(After(s, steps)) then 1 else 0
    decreases |steps|
  {
    if steps != [] {
      var n := |steps| - 1;
      FiredIsTimeouts(s, steps[..n]);
      ScheduleKeepsInv(s, steps[..n]);
      TimeoutStep(After(s, steps[..n]), steps[n]);
    }
  }

  /**
   Main result: on every schedule the timer fires at most once, no child is sent Kill twice, Kill is
   sent only to started children and only after the timer has fired with all SIGTERMs out, and once
   that loop is over every started child has been sent Kill if the timer has fired, and none otherwise.
   */
  lemma KilledAtMostOnce(s: State, steps: seq<Step>)
    requires Initial(s) && Follows(s, steps)
    ensures var t := After(s, steps);
            && Timeouts(steps) <= 1
            && Distinct(t.kills) && (forall c: nat :: c in t.kills ==> c < t.started)
            && (Timeouts(steps) == 0 ==> t.kills == [])
            && (Timeouts(steps) == 1 ==> SignallingIsOver(t))
            && (Timeouts(steps) == 1 && !t.phase.Killing? ==> forall c: nat :: c < t.started ==> c in t.kills)
  {
    FiredIsTimeouts(s, steps);
    ScheduleKeepsInv(s, steps);
    var t := After(s, steps);
    hide Others, UpTo, ReportsInv, ProcessesInv;
    UpToAre(t.started);
    if t.phase.Killing? { UpToAre(t.phase.next); }
  }

  /**
   Main result, no deadlock: while it waits for results, the supervisor can take one or some started
   child has yet to exit or to report; once all have reported, every missing result is in the channel.
   */
  lemma WaitingIsForAChild(s: State, steps: seq<Step>)
    requires Initial(s) && Follows(s, steps)
    requires After(s, steps).phase.Waiting? && After(s, steps).remaining > 0
    ensures Enabled(After(s, steps), TakeResult) || exists c: nat :: StillOut(After(s, steps), c)
    ensures (forall c: nat :: c < After(s, steps).started ==> IsReported(After(s, steps), c)) ==>
              |After(s, steps).channel| == After(s, steps).remaining
  {
    ScheduleKeepsInv(s, steps);
    var t := After(s, steps);
    ReportsBound(t);
    assert |t.received + t.channel| == |t.reports|;
    if !(forall c: nat :: c < t.started ==> IsReported(t, c)) {
      var c: nat :| c < t.started && !IsReported(t, c);
      assert StillOut(t, c);
    }
  }

  /**
   Main result: while results are missing and the timer has not fired, it can still fire: nobody has
   to wait for a child that ignores SIGTERM.
   */
  lemma TimerStaysArmed(s: State, steps: seq<Step>)
    requires Initial(s) && Follows(s, steps)
    requires After(s, steps).phase.Waiting? && After(s, steps).remaining > 0 && Timeouts(steps) == 0
    ensures Enabled(After(s, steps), TimerFires)
  {
    FiredIsTimeouts(s, steps);
    ScheduleKeepsInv(s, steps);
    hide Others, UpTo, ReportsInv, ProcessesInv;
  }

  /** Once the timer has fired and the Kill loop is over, no started child is left out. */
  lemma FiredMeansKilled(s: State, steps: seq<Step>)
    requires Initial(s) && Follows(s, steps) && After(s, steps).phase.Waiting? && After(s, steps).remaining > 0
    ensures Enabled(After(s, steps), TimerFires) || forall c: nat :: c < After(s, steps).started ==> c in After(s, steps).kills
  {
    KilledAtMostOnce(s, steps);
    if Timeouts(steps) == 0 { TimerStaysArmed(s, steps); }
  }

  /** What the supervisor itself does next. */
  function OwnStep(s: State): Step {
    match s.phase
    case Starting => StartChild
    case Selecting => if s.signalled then TakeSignal else TakeFirstResult
    case Signalling(c) => if c < s.started then SignalChild else SignallingEnds
    case Waiting => if s.remaining == 0 then Return else TakeResult
    case Killing(c) => if c < s.started then KillChild else KillingEnds
    case Returned(_) => Return
  }

  lemma OwnStepIsEnabled(t: State)
    requires Inv(t) && !t.phase.Returned?
    requires t.phase.Selecting? ==> t.signalled || (t.channel != [] && t.capacity > 0)
    requires t.phase.Waiting? ==> t.remaining == 0 || t.channel != []
    ensures Enabled(t, OwnStep(t))
  {
    hide ReportsInv, Others, UpTo, Verdict;
  }

  /**
   Main result: short of its return the supervisor can go on by itself, except where it waits for the
   first result or a signal with neither there, or for a started child that has not reported; and that
   child can still run into the timeout, or every started child has already been sent Kill.
   */
  lemma NeverStuck(s: State, steps: seq<Step>)
    requires Initial(s) && Follows(s, steps) && !After(s, steps).phase.Returned?
    ensures var t := After(s, steps);
            || Enabled(t, OwnStep(t))
            || (t.phase.Selecting? && (t.channel == [] || t.capacity == 0) && !t.signalled)
            || (t.phase.Waiting? && (exists c: nat :: StillOut(t, c))
                && (Enabled(t, TimerFires) || forall c: nat :: c < t.started ==> c in t.kills))
  {
    ScheduleKeepsInv(s, steps);
    var t := After(s, steps);
    if t.phase.Waiting? && t.remaining > 0 {
      WaitingIsForAChild(s, steps);
      FiredMeansKilled(s, steps);
    }
    hide After, Follows, Initial, Inv, Enabled;
    if (t.phase.Selecting? ==> t.signalled || (t.channel != [] && t.capacity > 0))
      && (t.phase.Waiting? ==> t.remaining == 0 || t.channel != []) {
      OwnStepIsEnabled(t);
    }
  }

  /** The result of a child is how its process ended. */
  ghost predicate ResultsAreExits(t: State, steps: seq<Step>) {
    && (forall c :: 0 <= c < |t.processes| && t.processes[c].Exited? ==> Exit(c, t.processes[c].error) in steps)
    && (forall r :: r in t.reports ==> Exit(r.child, r.error) in steps)
  }

  lemma ResultStep(t: State, step: Step, before: seq<Step>)
    requires ResultsAreExits(t, before) && Enabled(t, step)
    ensures ResultsAreExits(Do(t, step), before + [step])
  {
    assert forall x :: x in before ==> x in before + [step];
    assert step in before + [step];
  }

  /** Main result: what a child reports, and so what the supervisor returns for it, is how its process ended. */
  lemma NothingReported(s: State)
    requires Initial(s)
    ensures ResultsAreExits(s, [])
  {
  }

  lemma {:induction false} ReportsAreExits(s: State, steps: seq<Step>)
    requires Initial(s) && Follows(s, steps)
    ensures ResultsAreExits(After(s, steps), steps)
    decreases |steps|
  {
    hide ResultsAreExits, Initial, Do, Enabled;
    if steps == [] {
      NothingReported(s);
    } else {
      var n := |steps| - 1;
      ReportsAreExits(s, steps[..n]);
      ResultStep(After(s, steps[..n]), steps[n], steps[..n]);
      assert steps[..n] + [steps[n]] == steps;
    }
  }

  // ---- the supervisor comes to an end ----

  /** How far the supervisor has come, and how many results it has taken. */
  function Progress(s: State): nat {
    |s.received| +
    match s.phase
    case Starting => s.started
    case Selecting => s.capacity
    case Signalling(c) => s.capacity + 1 + c
    case Waiting => if s.kills == [] then 2 * s.capacity + 2 else 3 * s.capacity + 4
    case Killing(c) => 2 * s.capacity + 3 + c
    case Returned(_) => 3 * s.capacity + 5
  }

  /** Steps of children and of the outside. */
  predicate IsOutside(step: Step) {
    step.Exit? || step.Report? || step.SignalArrives?
  }

  lemma OutsideStepWaits(s: State, step: Step)
    requires Enabled(s, step) && IsOutside(step)
    ensures Progress(Do(s, step)) == Progress(s)
  {
  }

  lemma StepAdvances(s: State, step: Step)
    requires Inv(s) && Enabled(s, step) && !IsOutside(step)
    ensures Progress(s) < Progress(Do(s, step))
  {
    UpToAre(s.started);
    StartedFits(s);
    hide ReportsInv, ProcessesInv, Others, Verdict;
  }

  lemma ProgressIsBounded(s: State)
    requires Inv(s)
    ensures Progress(s) <= 4 * s.capacity + 5
  {
    StartedFits(s);
    ReportsBound(s);
    assert |s.received| <= |s.received + s.channel|;
    hide Others, UpTo, Verdict, Children, Distinct, Below;
  }

  /** Steps of the supervisor and its timer in a schedule. */
  function OwnSteps(steps: seq<Step>): nat {
    if steps == [] then 0 else OwnSteps(steps[..|steps| - 1]) + if IsOutside(steps[|steps| - 1]) then 0 else 1
  }

  /** Main result: on every schedule the supervisor and its timer take at most 4 n + 5 steps for n children. */
  lemma {:induction false} OwnStepsAreBounded(s: State, steps: seq<Step>)
    requires Initial(s) && Follows(s, steps)
    ensures OwnSteps(steps) <= Progress(After(s, steps)) <= 4 * s.capacity + 5
    decreases |steps|
  {
    ScheduleKeepsInv(s, steps);
    ProgressIsBounded(After(s, steps));
    if steps != [] {
      var n := |steps| - 1;
      ScheduleKeepsInv(s, steps[..n]);
      OwnStepsAreBounded(s, steps[..n]);
      var t := After(s, steps[..n]);
      hide Progress, Inv, Initial;
      if IsOutside(steps[n]) { OutsideStepWaits(t, steps[n]); } else { StepAdvances(t, steps[n]); }
    }
  }
}
