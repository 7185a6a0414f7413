/** WiFi provisioning as interleaved steps: the provisioning task, which starts the captive portal, takes a
    submission, tests it and saves it, runs against an HTTP server whose handler posts submissions at any
    time the server is up. Every shared access is one step, as the mutex makes it in the firmware. */
module Provisioning {
  import opened Wrappers

  datatype Credentials = Credentials(ssid: string, password: string, mqttHost: string, mqttPort: nat)

  datatype Status = IDLE | TESTING | SUCCESS | FAILED

  /** What the task and the handler share: the mutex, the pending submission, the status page's state, the
      running server and the portal's active flag. */
  datatype Portal = Portal(mutex: bool, pending: Option<Credentials>, status: Status, server: bool, active: bool)

  const CLOSED := Portal(false, None, IDLE, false, false)

  function Posted(p: Portal, c: Credentials): Portal {
    if p.server then p.(pending := Some(c), status := TESTING) else p
  }

  predicate Takes(p: Portal) { p.mutex && p.pending.Some? }

  function Reported(p: Portal, success: bool): Portal {
    if p.mutex then p.(status := if success then SUCCESS else FAILED) else p
  }

  // ----- The task's steps

  /** The task's position; each is the point before one atomic action. */
  datatype Pc = BootWait | LoopTop | PollConnected | PollRecovering
              | StartCheck | SetMode | SetConfig | CreateMutex | ClearPending | Listen | Activate
              | Take | Apply | Wait | Report | Save | StopCheck | StopServer | Deactivate

  datatype Phase = BOOT_STA_ATTEMPT | CONNECTED | RECOVERING | PROVISIONING | STA_TESTING

  /** What happened, in order. `Took` records whether the portal was active at the take. */
  datatype Event = Submitted(c: Credentials) | Reset | Took(c: Credentials, active: bool) | Applied(c: Credentials)
                 | Waited(ok: bool) | Saved(c: Credentials) | Stopped

  datatype Machine = Machine(pc: Pc, phase: Phase, connected: bool, submitted: Credentials, testOk: bool, portal: Portal)

  const BOOTED := Machine(BootWait, BOOT_STA_ATTEMPT, false, Credentials("", "", "", 0), false, CLOSED)

  /** The environment's part of a step: what the awaited call returns, and whether the recovery window has
      passed. */
  datatype Action = Task(ok: bool, expired: bool) | Post(c: Credentials)

  function Goto(m: Machine, pc: Pc): Machine { m.(pc := pc) }

  /** Waiting for the link and watching it. */
  function LinkStep(m: Machine, ok: bool, expired: bool): Machine {
    match m.pc
    case BootWait => m.(connected := ok, pc := LoopTop)
    case LoopTop =>
      if m.connected then m.(phase := CONNECTED, pc := PollConnected) else m.(phase := PROVISIONING, pc := StartCheck)
    case PollConnected => if ok then m else m.(phase := RECOVERING, pc := PollRecovering)
    case PollRecovering =>
      if expired then m.(connected := false, pc := LoopTop)
      else if ok then m.(connected := true, pc := LoopTop)
      else m
    case _ => m
  }

  /** Starting the portal; each call that can fail abandons the start where the firmware does. */
  function StartStep(m: Machine, ok: bool): Machine {
    match m.pc
    case StartCheck => Goto(m, if m.portal.active then Take else SetMode)
    case SetMode => Goto(m, if ok then SetConfig else Take)
    case SetConfig => Goto(m, if ok then CreateMutex else Take)
    case CreateMutex =>
      if m.portal.mutex || ok then m.(portal := m.portal.(mutex := true), pc := ClearPending) else Goto(m, Activate)
    case ClearPending => m.(portal := m.portal.(pending := None, status := IDLE), pc := Listen)
    case Listen => m.(portal := m.portal.(server := ok), pc := Activate)
    case Activate => m.(portal := m.portal.(active := true), pc := Take)
    case _ => m
  }

  /** Polling for a submission and testing it. */
  function TestStep(m: Machine, ok: bool): Machine {
    match m.pc
    case Take =>
      if !Takes(m.portal) then m
      else m.(portal := m.portal.(pending := None), submitted := m.portal.pending.value, phase := STA_TESTING, pc := Apply)
    case Apply => Goto(m, Wait)
    case Wait => m.(testOk := ok, pc := Report)
    case Report =>
      var r := m.(portal := Reported(m.portal, m.testOk));
      if m.testOk then Goto(r, Save) else r.(connected := false, pc := LoopTop)
    case Save => Goto(m, StopCheck)
    case _ => m
  }

  /** Stopping the portal after a successful test. */
  function StopStep(m: Machine): Machine {
    match m.pc
    case StopCheck => if m.portal.active then Goto(m, StopServer) else m.(connected := true, pc := LoopTop)
    case StopServer => m.(portal := m.portal.(server := false), pc := Deactivate)
    case Deactivate => m.(portal := m.portal.(active := false), connected := true, pc := LoopTop)
    case _ => m
  }

  predicate Linking(pc: Pc) { pc.BootWait? || pc.LoopTop? || pc.PollConnected? || pc.PollRecovering? }

  predicate Starting(pc: Pc) {
    pc.StartCheck? || pc.SetMode? || pc.SetConfig? || pc.CreateMutex? || pc.ClearPending? || pc.Listen? || pc.Activate?
  }

  predicate Testing(pc: Pc) { pc.Take? || pc.Apply? || pc.Wait? || pc.Report? || pc.Save? }

  predicate Stopping(pc: Pc) { pc.StopCheck? || pc.StopServer? || pc.Deactivate? }

  function TaskStep(m: Machine, ok: bool, expired: bool): Machine {
    if Linking(m.pc) then LinkStep(m, ok, expired)
    else if Starting(m.pc) then StartStep(m, ok)
    else if Testing(m.pc) then TestStep(m, ok)
    else StopStep(m)
  }

  function Next(m: Machine, a: Action): Machine {
    match a
    case Task(ok, expired) => TaskStep(m, ok, expired)
    case Post(c) => m.(portal := Posted(m.portal, c))
  }

  /** The event a step records, if any. */
  function Emitted(m: Machine, a: Action): Option<Event> {
    match a
    case Post(c) => if m.portal.server then Some(Submitted(c)) else None
    case Task(ok, expired) =>
      match m.pc
      case ClearPending => Some(Reset)
      case Take => if Takes(m.portal) then Some(Took(m.portal.pending.value, m.portal.active)) else None
      case Apply => Some(Applied(m.submitted))
      case Wait => Some(Waited(ok))
      case Save => Some(Saved(m.submitted))
      case Deactivate => Some(Stopped)
      case _ => None
  }

  function RunFrom(m: Machine, actions: seq<Action>): Machine
    decreases |actions|
  {
    if actions == [] then m else Next(RunFrom(m, actions[..|actions| - 1]), actions[|actions| - 1])
  }

  /** The state after any interleaving of task steps and posts since boot. */
  function Run(actions: seq<Action>): Machine { RunFrom(BOOTED, actions) }

  function Log(actions: seq<Action>): seq<Event>
    decreases |actions|
  {
    if actions == [] then [] else
      var prefix := actions[..|actions| - 1];
      var e := Emitted(Run(prefix), actions[|actions| - 1]);
      if e.Some? then Log(prefix) + [e.value] else Log(prefix)
  }

  // ----- What a log says

  function Outstands(before: Option<Credentials>, e: Event): Option<Credentials> {
    match e
    case Submitted(c) => Some(c)
    case Took(_, _) => None
    case Reset => None
    case _ => before
  }

  /** The newest submission, unless it has been taken or cleared since. */
  function Outstanding(log: seq<Event>): Option<Credentials> {
    if log == [] then None else Outstands(Outstanding(log[..|log| - 1]), log[|log| - 1])
  }

  function Refreshes(before: bool, e: Event): bool { !e.Stopped? && (e.Submitted? || before) }

  /** The newest submission was made since the portal was last stopped. */
  predicate Current(log: seq<Event>) {
    log != [] && Refreshes(Current(log[..|log| - 1]), log[|log| - 1])
  }

  /** The task's own events: the log without the submissions. */
  function TaskEvents(log: seq<Event>): seq<Event> {
    if log == [] then []
    else if log[|log| - 1].Submitted? then TaskEvents(log[..|log| - 1])
    else TaskEvents(log[..|log| - 1]) + [log[|log| - 1]]
  }

  /** The k-th newest event. */
  function Latest(log: seq<Event>, k: nat): Option<Event> {
    if k < |log| then Some(log[|log| - 1 - k]) else None
  }

  lemma AppendEvent(log: seq<Event>, e: Event)
    ensures Outstanding(log + [e]) == Outstands(Outstanding(log), e)
    ensures Current(log + [e]) == Refreshes(Current(log), e)
    ensures TaskEvents(log + [e]) == if e.Submitted? then TaskEvents(log) else TaskEvents(log) + [e]
  {
    assert (log + [e])[..|log|] == log;
  }

  // ----- Invariants

  /** The portal has been cleared in this session: it is active, or being started past the clearing. */
  predicate InSession(m: Machine) { m.portal.active || m.pc == Listen || m.pc == Activate }

  /** What each position of the task says about the phase and the portal. */
  predicate PositionFits(m: Machine) {
    var p := m.portal;
    match m.pc
    case BootWait => m.phase == BOOT_STA_ATTEMPT && !p.active
    case LoopTop => m.connected || m.phase == CONNECTED || m.phase == RECOVERING ==> !p.active
    case PollConnected => m.phase == CONNECTED && !p.active
    case PollRecovering => m.phase == RECOVERING && !p.active
    case StartCheck => m.phase == PROVISIONING
    case SetMode => m.phase == PROVISIONING && !p.active
    case SetConfig => m.phase == PROVISIONING && !p.active
    case CreateMutex => m.phase == PROVISIONING && !p.active
    case ClearPending => m.phase == PROVISIONING && !p.active && p.mutex
    case Listen => m.phase == PROVISIONING && !p.active && p.mutex
    case Activate => m.phase == PROVISIONING && !p.active
    case Take => m.phase == PROVISIONING
    case StopServer => m.phase == STA_TESTING && p.active
    case Deactivate => m.phase == STA_TESTING && p.active && !p.server
    case _ => m.phase == STA_TESTING
  }

  /** Submissions arrive only while the server is up, and the server is up only within a session. */
  predicate PortalFits(m: Machine, outstanding: Option<Credentials>, current: bool) {
    && PositionFits(m)
    && (m.portal.server ==> m.portal.mutex && (m.portal.active || m.pc == Activate))
    && m.portal.pending == outstanding
    && (outstanding.Some? ==> m.portal.mutex && current == InSession(m))
  }

  predicate PortalFitsAfter(m: Machine, e: Option<Event>, outstanding: Option<Credentials>, current: bool) {
    if e.Some? then PortalFits(m, Outstands(outstanding, e.value), Refreshes(current, e.value))
    else PortalFits(m, outstanding, current)
  }

  lemma PortalLinkStep(m: Machine, ok: bool, expired: bool, outstanding: Option<Credentials>, current: bool)
    requires Linking(m.pc) && PortalFits(m, outstanding, current)
    ensures PortalFitsAfter(LinkStep(m, ok, expired), Emitted(m, Task(ok, expired)), outstanding, current)
  {
  }

  lemma PortalStartStep(m: Machine, ok: bool, expired: bool, outstanding: Option<Credentials>, current: bool)
    requires Starting(m.pc) && PortalFits(m, outstanding, current)
    ensures PortalFitsAfter(StartStep(m, ok), Emitted(m, Task(ok, expired)), outstanding, current)
  {
  }

  lemma PortalTestStep(m: Machine, ok: bool, expired: bool, outstanding: Option<Credentials>, current: bool)
    requires Testing(m.pc) && PortalFits(m, outstanding, current)
    ensures PortalFitsAfter(TestStep(m, ok), Emitted(m, Task(ok, expired)), outstanding, current)
  {
  }

  lemma PortalStopStep(m: Machine, ok: bool, expired: bool, outstanding: Option<Credentials>, current: bool)
    requires Stopping(m.pc) && PortalFits(m, outstanding, current)
    ensures PortalFitsAfter(StopStep(m), Emitted(m, Task(ok, expired)), outstanding, current)
  {
  }

  lemma PortalStep(m: Machine, a: Action, outstanding: Option<Credentials>, current: bool)
    requires PortalFits(m, outstanding, current)
    ensures PortalFitsAfter(Next(m, a), Emitted(m, a), outstanding, current)
  {
    hide LinkStep, StartStep, TestStep, StopStep;
    match a
    case Post(_) =>
    case Task(ok, expired) =>
      if Linking(m.pc) {
        PortalLinkStep(m, ok, expired, outstanding, current);
      } else if Starting(m.pc) {
        PortalStartStep(m, ok, expired, outstanding, current);
      } else if Testing(m.pc) {
        PortalTestStep(m, ok, expired, outstanding, current);
      } else {
        PortalStopStep(m, ok, expired, outstanding, current);
      }
  }

  /** The task's own last events while it tests a submission. */
  predicate TestFits(m: Machine, done: seq<Event>, active: bool) {
    match m.pc
    case Apply => Latest(done, 0) == Some(Took(m.submitted, active))
    case Wait => Latest(done, 1) == Some(Took(m.submitted, active)) && Latest(done, 0) == Some(Applied(m.submitted))
    case Report => Tested(done, m.submitted, active, m.testOk)
    case Save => m.testOk && Tested(done, m.submitted, active, true)
    case _ => true
  }

  predicate Tested(done: seq<Event>, c: Credentials, active: bool, ok: bool) {
    && Latest(done, 2) == Some(Took(c, active))
    && Latest(done, 1) == Some(Applied(c))
    && Latest(done, 0) == Some(Waited(ok))
  }

  lemma LatestOfAppended(done: seq<Event>, e: Event)
    ensures Latest(done + [e], 0) == Some(e)
    ensures Latest(done + [e], 1) == Latest(done, 0)
    ensures Latest(done + [e], 2) == Latest(done, 1)
  {
  }

  /** The task's own events after a step. */
  function Done(m: Machine, a: Action, done: seq<Event>): seq<Event> {
    var e := Emitted(m, a);
    if e.Some? && !e.value.Submitted? then done + [e.value] else done
  }

  lemma TestingKept(m: Machine, ok: bool, expired: bool, done: seq<Event>, active: bool)
    requires Testing(m.pc) && TestFits(m, done, active)
    ensures TestFits(TestStep(m, ok), Done(m, Task(ok, expired), done), if m.pc == Take then m.portal.active else active)
  {
    hide Latest;
    var e := Emitted(m, Task(ok, expired));
    if e.Some? {
      LatestOfAppended(done, e.value);
    }
  }

  lemma NotTesting(m: Machine, ok: bool, expired: bool)
    requires !Testing(m.pc)
    ensures var pc := TaskStep(m, ok, expired).pc; pc == Take || !Testing(pc)
  {
  }

  lemma TestKept(m: Machine, a: Action, done: seq<Event>, active: bool)
    requires TestFits(m, done, active)
    ensures TestFits(Next(m, a), Done(m, a, done), if m.pc == Take && a.Task? then m.portal.active else active)
  {
    hide LinkStep, StartStep, TestStep, StopStep, Latest;
    match a
    case Post(_) =>
    case Task(ok, expired) =>
      if Testing(m.pc) {
        TestingKept(m, ok, expired, done, active);
      } else {
        NotTesting(m, ok, expired);
      }
  }

  // ----- Safety over all interleavings

  ghost predicate Safe(actions: seq<Action>) {
    var m, log := Run(actions), Log(actions);
    && PortalFits(m, Outstanding(log), Current(log))
    && exists active :: TestFits(m, TaskEvents(log), active)
  }

  lemma BootIsSafe()
    ensures Safe([])
  {
    assert TestFits(Run([]), TaskEvents(Log([])), true);
  }

  lemma {:induction false} AlwaysSafe(actions: seq<Action>)
    ensures Safe(actions)
    decreases |actions|
  {
    hide Next, Emitted, Outstanding, Current, TaskEvents, PortalFits, TestFits;
    if actions == [] {
      BootIsSafe();
    } else {
      var prefix, a := actions[..|actions| - 1], actions[|actions| - 1];
      AlwaysSafe(prefix);
      var m, log, e := Run(prefix), Log(prefix), Emitted(Run(prefix), a);
      var active :| TestFits(m, TaskEvents(log), active);
      PortalStep(m, a, Outstanding(log), Current(log));
      TestKept(m, a, TaskEvents(log), active);
      if e.Some? {
        AppendEvent(log, e.value);
      }
    }
  }

  /** The portal is never active, nor its server up, while the task is in CONNECTED or RECOVERING. */
  lemma PortalClosedWhileConnected(actions: seq<Action>)
    ensures Run(actions).phase == CONNECTED || Run(actions).phase == RECOVERING ==>
              !Run(actions).portal.active && !Run(actions).portal.server
  {
    hide Run;
    AlwaysSafe(actions);
  }

  /** The step that recorded event i, and the log just before it. */
  lemma {:induction false} StepOf(actions: seq<Action>, i: nat) returns (n: nat)
    requires i < |Log(actions)|
    ensures n < |actions| && Log(actions)[..i] == Log(actions[..n])
    ensures Emitted(Run(actions[..n]), actions[n]) == Some(Log(actions)[i])
    decreases |actions|
  {
    hide Next, Emitted, Run;
    var prefix := actions[..|actions| - 1];
    if i == |Log(prefix)| {
      n := |actions| - 1;
    } else {
      n := StepOf(prefix, i);
      assert prefix[..n] == actions[..n];
    }
  }

  /** A credential is saved only right after the task took it, applied it and saw a wait succeed: these are
      its last three events, whatever was submitted meanwhile. */
  lemma SavedOnlyAfterTest(actions: seq<Action>, i: nat, c: Credentials)
    requires i < |Log(actions)| && Log(actions)[i] == Saved(c)
    ensures exists active :: Tested(TaskEvents(Log(actions)[..i]), c, active, true)
  {
    hide Run, Log, TaskEvents, Tested, PortalFits;
    var n := StepOf(actions, i);
    AlwaysSafe(actions[..n]);
  }

  /** Event p is the newest submission of a log, and nothing has taken or cleared it. */
  predicate NewestAt(log: seq<Event>, p: int, c: Credentials) {
    && 0 <= p < |log| && log[p] == Submitted(c)
    && forall k :: p < k < |log| ==> !log[k].Submitted? && !log[k].Took? && !log[k].Reset?
  }

  predicate NoStopSince(log: seq<Event>, p: int) { forall k :: 0 <= p < k < |log| ==> !log[k].Stopped? }

  lemma {:induction false} OutstandingIsNewest(log: seq<Event>, c: Credentials) returns (p: int)
    requires Outstanding(log) == Some(c)
    ensures NewestAt(log, p, c)
    ensures NoStopSince(log, p) <==> Current(log)
    decreases |log|
  {
    var prefix, e := log[..|log| - 1], log[|log| - 1];
    if e == Submitted(c) {
      p := |log| - 1;
    } else {
      p := OutstandingIsNewest(prefix, c);
      assert forall k :: 0 <= k < |prefix| ==> log[k] == prefix[k];
      if e.Stopped? {
        assert log[|log| - 1].Stopped?;
      }
    }
  }

  /** Every taken credential is the newest submission at that moment, never taken before; and it belongs to
      the portal session in progress exactly when the portal is active at the take. */
  lemma TakenIsNewest(actions: seq<Action>, t: nat, c: Credentials, active: bool) returns (p: int)
    requires t < |Log(actions)| && Log(actions)[t] == Took(c, active)
    ensures NewestAt(Log(actions)[..t], p, c)
    ensures NoStopSince(Log(actions)[..t], p) <==> active
  {
    hide Run, Log, TestFits, Current, Outstanding, PositionFits;
    var n := StepOf(actions, t);
    AlwaysSafe(actions[..n]);
    p := OutstandingIsNewest(Log(actions[..n]), c);
  }

  lemma {:induction false} TaskEventInLog(log: seq<Event>, k: nat)
    requires k < |TaskEvents(log)|
    ensures TaskEvents(log)[k] in log
    decreases |log|
  {
    var prefix := log[..|log| - 1];
    if k < |TaskEvents(prefix)| {
      TaskEventInLog(prefix, k);
    }
  }

  /** So every saved credential was submitted before. */
  lemma SavedWasSubmitted(actions: seq<Action>, i: nat, c: Credentials) returns (p: nat)
    requires i < |Log(actions)| && Log(actions)[i] == Saved(c)
    ensures p < i && Log(actions)[p] == Submitted(c)
  {
    hide Log, TaskEvents;
    SavedOnlyAfterTest(actions, i, c);
    var before := Log(actions)[..i];
    var active :| Tested(TaskEvents(before), c, active, true);
    TaskEventInLog(before, |TaskEvents(before)| - 3);
    var t :| 0 <= t < |before| && before[t] == Took(c, active);
    var q := TakenIsNewest(actions, t, c, active);
    p := q;
  }

  /** Bringing up the access point never fails during a run. */
  predicate StartsSucceed(actions: seq<Action>) {
    forall i :: 0 <= i < |actions| && (Run(actions[..i]).pc == SetMode || Run(actions[..i]).pc == SetConfig) ==>
      actions[i].Post? || actions[i].ok
  }

  lemma ActiveWhileTakingStep(m: Machine, a: Action)
    requires m.pc == Take ==> m.portal.active
    requires m.pc == SetMode || m.pc == SetConfig ==> a.Post? || a.ok
    ensures Next(m, a).pc == Take ==> Next(m, a).portal.active
  {
  }

  lemma {:induction false} ActiveWhileTaking(actions: seq<Action>)
    requires StartsSucceed(actions)
    ensures Run(actions).pc == Take ==> Run(actions).portal.active
    decreases |actions|
  {
    hide Next;
    if actions != [] {
      var prefix, a := actions[..|actions| - 1], actions[|actions| - 1];
      assert forall i :: 0 <= i < |prefix| ==> prefix[..i] == actions[..i];
      ActiveWhileTaking(prefix);
      ActiveWhileTakingStep(Run(prefix), a);
    }
  }

  /** Then no submission leaks into a later session. */
  lemma NoLeakWhenStartsSucceed(actions: seq<Action>, t: nat, c: Credentials, active: bool) returns (p: int)
    requires StartsSucceed(actions)
    requires t < |Log(actions)| && Log(actions)[t] == Took(c, active)
    ensures NewestAt(Log(actions)[..t], p, c) && NoStopSince(Log(actions)[..t], p)
  {
    hide Log;
    p := TakenIsNewest(actions, t, c, active);
    var n := StepOf(actions, t);
    assert forall i :: 0 <= i < n ==> actions[..n][..i] == actions[..i];
    ActiveWhileTaking(actions[..n]);
  }

  // ----- The state diagram

  /** What the task learns at its waits, its polls and its takes. */
  datatype Answer = BootJoined | BootFailed | LinkLost | LinkBack | WindowExpired | GotSubmission | TestJoined | TestFailed

  function AnswerOf(m: Machine, a: Action): Option<Answer> {
    match a
    case Post(_) => None
    case Task(ok, expired) =>
      match m.pc
      case BootWait => Some(if ok then BootJoined else BootFailed)
      case PollConnected => if ok then None else Some(LinkLost)
      case PollRecovering => if expired then Some(WindowExpired) else if ok then Some(LinkBack) else None
      case Take => if Takes(m.portal) then Some(GotSubmission) else None
      case Wait => Some(if ok then TestJoined else TestFailed)
      case _ => None
  }

  /** Where the diagram leads, whatever state the answer finds. */
  function PhaseFor(answer: Answer): Phase {
    match answer
    case BootJoined => CONNECTED
    case BootFailed => PROVISIONING
    case LinkLost => RECOVERING
    case LinkBack => CONNECTED
    case WindowExpired => PROVISIONING
    case GotSubmission => STA_TESTING
    case TestJoined => CONNECTED
    case TestFailed => PROVISIONING
  }

  /** The diagram's phase after a run: the one the newest answer leads to. */
  function Diagram(actions: seq<Action>): Phase
    decreases |actions|
  {
    if actions == [] then BOOT_STA_ATTEMPT else
      var prefix := actions[..|actions| - 1];
      var answer := AnswerOf(Run(prefix), actions[|actions| - 1]);
      if answer.Some? then PhaseFor(answer.value) else Diagram(prefix)
  }

  /** The phase the task is in or, between an answer and the change it causes, on its way to. */
  function Heading(m: Machine): Phase {
    match m.pc
    case LoopTop => if m.connected then CONNECTED else PROVISIONING
    case Report => if m.testOk then CONNECTED else PROVISIONING
    case Save => CONNECTED
    case StopCheck => CONNECTED
    case StopServer => CONNECTED
    case Deactivate => CONNECTED
    case _ => m.phase
  }

  lemma HeadingStep(m: Machine, a: Action)
    requires PositionFits(m)
    ensures var answer := AnswerOf(m, a);
            Heading(Next(m, a)) == if answer.Some? then PhaseFor(answer.value) else Heading(m)
  {
  }

  /** In every interleaving the task is in the diagram's phase or on its way to it. */
  lemma {:induction false} PhasesFollowDiagram(actions: seq<Action>)
    ensures Heading(Run(actions)) == Diagram(actions)
    decreases |actions|
  {
    hide Next, AnswerOf, PhaseFor, Heading, PositionFits;
    if actions == [] {
      StartsInDiagram();
    } else {
      var prefix, a := actions[..|actions| - 1], actions[|actions| - 1];
      PhasesFollowDiagram(prefix);
      AlwaysSafe(prefix);
      HeadingStep(Run(prefix), a);
    }
  }

  lemma StartsInDiagram()
    ensures Heading(BOOTED) == BOOT_STA_ATTEMPT
  {
  }

  function TaskSteps(actions: seq<Action>): nat {
    if actions == [] then 0 else TaskSteps(actions[..|actions| - 1]) + (if actions[|actions| - 1].Task? then 1 else 0)
  }

  /** The task steps after which the task changes to the phase it is on its way to. */
  function StepsToGo(pc: Pc): nat {
    match pc
    case Report => 6
    case Save => 5
    case StopCheck => 4
    case StopServer => 3
    case Deactivate => 2
    case LoopTop => 1
    case _ => 0
  }

  ghost predicate Reaches(m: Machine, actions: seq<Action>, phase: Phase) {
    exists n :: 0 <= n <= |actions| && RunFrom(m, actions[..n]).phase == phase
  }

  lemma ReachesLater(m: Machine, actions: seq<Action>, a: Action, phase: Phase)
    requires Reaches(m, actions, phase) || RunFrom(m, actions + [a]).phase == phase
    ensures Reaches(m, actions + [a], phase)
  {
    hide RunFrom;
    if Reaches(m, actions, phase) {
      var n :| 0 <= n <= |actions| && RunFrom(m, actions[..n]).phase == phase;
      assert (actions + [a])[..n] == actions[..n];
    } else {
      assert (actions + [a])[..|actions| + 1] == actions + [a];
    }
  }

  lemma OneStepNearer(m: Machine, a: Action)
    requires StepsToGo(m.pc) > 0
    ensures var m' := Next(m, a);
            m'.phase == Heading(m)
            || (Heading(m') == Heading(m) && StepsToGo(m'.pc) > 0
                && StepsToGo(m'.pc) + (if a.Task? then 1 else 0) <= StepsToGo(m.pc))
  {
  }

  lemma {:induction false} OnTheWay(m: Machine, actions: seq<Action>)
    requires StepsToGo(m.pc) > 0
    ensures var m' := RunFrom(m, actions);
            Reaches(m, actions, Heading(m))
            || (Heading(m') == Heading(m) && StepsToGo(m'.pc) > 0
                && StepsToGo(m'.pc) + TaskSteps(actions) <= StepsToGo(m.pc))
    decreases |actions|
  {
    hide Next, Heading, StepsToGo, Reaches;
    if actions != [] {
      var prefix, a := actions[..|actions| - 1], actions[|actions| - 1];
      OnTheWay(m, prefix);
      assert prefix + [a] == actions;
      if Reaches(m, prefix, Heading(m)) {
        ReachesLater(m, prefix, a, Heading(m));
      } else {
        OneStepNearer(RunFrom(m, prefix), a);
        if RunFrom(m, actions).phase == Heading(m) {
          ReachesLater(m, prefix, a, Heading(m));
        }
      }
    }
  }

  /** And it arrives: whatever is posted meanwhile, at most six of the task's own steps later it has been there. */
  lemma PhaseIsReached(m: Machine, actions: seq<Action>)
    requires StepsToGo(m.pc) > 0 ==> TaskSteps(actions) >= 6
    ensures Reaches(m, actions, Heading(m))
  {
    if StepsToGo(m.pc) == 0 {
      assert RunFrom(m, actions[..0]).phase == Heading(m);
    } else {
      OnTheWay(m, actions);
    }
  }

  // ----- An abandoned start is final

  /** The task polls for a submission for ever, in every future, exactly when the server is down and nothing
      is pending: a start that failed is never tried again. */
  lemma StuckWithoutServer(m: Machine)
    requires m.pc == Take && (m.portal.server ==> m.portal.mutex)
    ensures (forall future :: RunFrom(m, future).pc == Take) <==> !m.portal.server && !Takes(m.portal)
  {
    if !m.portal.server && !Takes(m.portal) {
      forall future ensures RunFrom(m, future).pc == Take {
        StaysStuck(m, future);
      }
    } else {
      var post, take := Post(m.submitted), Task(true, true);
      if m.portal.server {
        RunTwo(m, post, take);
        assert RunFrom(m, [post, take]).pc == Apply;
      } else {
        RunTwo(m, take, take);
        assert RunFrom(m, [take]).pc == Apply;
      }
    }
  }

  lemma RunTwo(m: Machine, a: Action, b: Action)
    ensures RunFrom(m, [a]) == Next(m, a)
    ensures RunFrom(m, [a, b]) == Next(Next(m, a), b)
  {
    hide Next;
    assert [a][..0] == [] && [a, b][..1] == [a];
  }

  lemma {:induction false} StaysStuck(m: Machine, future: seq<Action>)
    requires m.pc == Take && !m.portal.server && !Takes(m.portal)
    ensures RunFrom(m, future) == m
    decreases |future|
  {
    if future != [] {
      StaysStuck(m, future[..|future| - 1]);
    }
  }

  // ----- A submission that leaks

  lemma Extend(actions: seq<Action>, a: Action)
    ensures Run(actions + [a]) == Next(Run(actions), a)
    ensures Log(actions + [a])
         == Log(actions) + (if Emitted(Run(actions), a).Some? then [Emitted(Run(actions), a).value] else [])
  {
    hide Next, Emitted;
    assert (actions + [a])[..|actions|] == actions;
  }

  lemma Boot()
    ensures Run([]) == BOOTED && Log([]) == []
  {
  }

  const YES := Task(true, false)
  const NO := Task(false, true)

  /** No link at boot. */
  lemma FirstStart() returns (actions: seq<Action>)
    ensures Run(actions) == BOOTED.(pc := SetMode, phase := PROVISIONING)
    ensures Log(actions) == []
  {
    hide Run, Log;
    Boot();
    actions := [];
    Extend(actions, NO); actions := actions + [NO];
    Extend(actions, NO); actions := actions + [NO];
    Extend(actions, NO); actions := actions + [NO];
  }

  /** And a portal that starts. */
  lemma FirstPortal() returns (actions: seq<Action>)
    ensures Run(actions) == BOOTED.(pc := Take, phase := PROVISIONING, portal := Portal(true, None, IDLE, true, true))
    ensures Log(actions) == [Reset]
  {
    hide Run, Log;
    actions := FirstStart();
    Extend(actions, YES); actions := actions + [YES];
    Extend(actions, YES); actions := actions + [YES];
    Extend(actions, YES); actions := actions + [YES];
    Extend(actions, YES); actions := actions + [YES];
    Extend(actions, YES); actions := actions + [YES];
    Extend(actions, YES); actions := actions + [YES];
  }

  /** A submission that joins. */
  lemma FirstSubmission(c: Credentials) returns (actions: seq<Action>)
    ensures Run(actions) == Machine(Save, STA_TESTING, false, c, true, Portal(true, None, SUCCESS, true, true))
    ensures Log(actions) == [Reset, Submitted(c), Took(c, true), Applied(c), Waited(true)]
  {
    hide Run, Log;
    actions := FirstPortal();
    Extend(actions, Post(c)); actions := actions + [Post(c)];
    Extend(actions, YES); actions := actions + [YES];
    Extend(actions, YES); actions := actions + [YES];
    Extend(actions, YES); actions := actions + [YES];
    Extend(actions, YES); actions := actions + [YES];
  }

  /** A second submission arrives before the portal stops. */
  lemma SecondSubmission(c: Credentials, d: Credentials) returns (actions: seq<Action>)
    ensures Run(actions) == Machine(LoopTop, STA_TESTING, true, c, true, Portal(true, Some(d), TESTING, false, false))
    ensures Log(actions) == [Reset, Submitted(c), Took(c, true), Applied(c), Waited(true), Submitted(d), Saved(c), Stopped]
  {
    hide Run, Log;
    actions := FirstSubmission(c);
    Extend(actions, Post(d)); actions := actions + [Post(d)];
    Extend(actions, YES); actions := actions + [YES];
    Extend(actions, YES); actions := actions + [YES];
    Extend(actions, YES); actions := actions + [YES];
    Extend(actions, YES); actions := actions + [YES];
  }

  /** The link is lost for good and the access point cannot be brought up again: the old submission is taken
      although no portal is active, and the portal it was made in has long stopped. */
  lemma SubmissionLeaks(c: Credentials, d: Credentials) returns (actions: seq<Action>)
    ensures Run(actions).pc == Apply && Run(actions).submitted == d && !Run(actions).portal.active
    ensures Log(actions) == [Reset, Submitted(c), Took(c, true), Applied(c), Waited(true), Submitted(d), Saved(c), Stopped,
                             Took(d, false)]
  {
    hide Run, Log;
    actions := SecondSubmission(c, d);
    Extend(actions, NO); actions := actions + [NO];
    Extend(actions, NO); actions := actions + [NO];
    Extend(actions, NO); actions := actions + [NO];
    Extend(actions, NO); actions := actions + [NO];
    Extend(actions, NO); actions := actions + [NO];
    Extend(actions, NO); actions := actions + [NO];
    Extend(actions, NO); actions := actions + [NO];
  }

  /** A start that fails at the first boot leaves the task polling for ever with no portal. */
  lemma FirstStartCanFail() returns (actions: seq<Action>)
    ensures Run(actions).pc == Take && !Run(actions).portal.server && !Takes(Run(actions).portal)
  {
    hide Run, Log;
    actions := FirstStart();
    Extend(actions, NO); actions := actions + [NO];
  }

  // ----- The portal's calls

  /** The outcome of an uninterrupted start. */
  function Started(p: Portal, modeOk: bool, configOk: bool, mutexOk: bool, listenOk: bool): Portal {
    if p.active || !modeOk || !configOk then p
    else if p.mutex || mutexOk then Portal(true, None, IDLE, listenOk, true)
    else p.(active := true)
  }

  function StoppedPortal(p: Portal): Portal {
    if p.active then p.(server := false, active := false) else p
  }

  /** An uninterrupted start is the task's steps from StartCheck to Take. */
  lemma StartIsItsSteps(m: Machine, modeOk: bool, configOk: bool, mutexOk: bool, listenOk: bool)
    requires m.pc == StartCheck && (m.portal.server ==> m.portal.active)
    ensures var m1 := StartStep(m, true);
            var m2 := if m1.pc == SetMode then StartStep(m1, modeOk) else m1;
            var m3 := if m2.pc == SetConfig then StartStep(m2, configOk) else m2;
            var m4 := if m3.pc == CreateMutex then StartStep(m3, mutexOk) else m3;
            var m5 := if m4.pc == ClearPending then StartStep(m4, true) else m4;
            var m6 := if m5.pc == Listen then StartStep(m5, listenOk) else m5;
            var m7 := if m6.pc == Activate then StartStep(m6, true) else m6;
            m7 == m.(pc := Take, portal := Started(m.portal, modeOk, configOk, mutexOk, listenOk))
  {
  }

  class CaptivePortal {
    var mutexCreated: bool
    var pending: Credentials
    var pendingValid: bool
    var status: Status
    var serverRunning: bool
    var active: bool

    function View(): Portal
      reads this
    {
      Portal(mutexCreated, if pendingValid then Some(pending) else None, status, serverRunning, active)
    }

    constructor ()
      ensures View() == CLOSED
    {
      mutexCreated, pending, pendingValid := false, Credentials("", "", "", 0), false;
      status, serverRunning, active := IDLE, false, false;
    }

    /** The handler's critical section. */
    method HandleSubmit(c: Credentials)
      requires serverRunning
      modifies this
      ensures View() == Posted(old(View()), c)
    {
      pending := c;
      pendingValid := true;
      status := TESTING;
    }

    method HttpStart(mutexOk: bool, listenOk: bool) returns (ok: bool)
      requires !serverRunning
      modifies this
      ensures ok == ((old(mutexCreated) || mutexOk) && listenOk)
      ensures active == old(active)
      ensures View() == if old(mutexCreated) || mutexOk then Portal(true, None, IDLE, listenOk, active) else old(View())
    {
      if !mutexCreated {
        mutexCreated := mutexOk;
        if !mutexOk {
          return false;
        }
      }
      pendingValid := false;
      status := IDLE;
      serverRunning := listenOk;
      ok := listenOk;
    }

    /** `modeOk`, `configOk`, `mutexOk` and `listenOk` are what the driver calls return. */
    method Start(modeOk: bool, configOk: bool, mutexOk: bool, listenOk: bool)
      requires serverRunning ==> active
      modifies this
      ensures View() == Started(old(View()), modeOk, configOk, mutexOk, listenOk)
    {
      if active || !modeOk || !configOk {
        return;
      }
      var up := HttpStart(mutexOk, listenOk);
      active := true;
    }

    method Stop()
      modifies this
      ensures View() == StoppedPortal(old(View()))
    {
      if !active {
        return;
      }
      serverRunning := false;
      active := false;
    }

    /** Taking consumes the submission: a second take before the next post gets nothing. */
    method TakeSubmission() returns (taken: Option<Credentials>)
      modifies this
      ensures taken == if Takes(old(View())) then old(View()).pending else None
      ensures View() == if taken.Some? then old(View()).(pending := None) else old(View())
    {
      taken := None;
      if mutexCreated && pendingValid {
        taken := Some(pending);
        pendingValid := false;
      }
    }

    method ReportResult(success: bool)
      modifies this
      ensures View() == Reported(old(View()), success)
    {
      if mutexCreated {
        status := if success then SUCCESS else FAILED;
      }
    }
  }
}
