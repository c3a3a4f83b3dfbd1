// The goal-run driver: one run's counters, budgets and escalations.
module GoalDriver {
  import opened Common
  import opened Graph

  function DigitChar(d: nat): (c: char)
    requires d < 10
    ensures IsDigit(c) && DigitValue(c) == d
  {
    '0' + d as char
  }

  /** A number in decimal, as a file name carries it. */
  function Decimal(n: nat): (s: string)
    ensures s != [] && forall c <- s :: IsDigit(c)
  {
    if n < 10 then [DigitChar(n)] else Decimal(n / 10) + [DigitChar(n % 10)]
  }

  datatype FileCheck = Missing | NoStatusLine | Report(status: string)

  /** What the screen shows: a menu, a turn or background task running, or neither. */
  datatype Screen = Unreadable | Menu | Busy | Idle

  /** Everything one tick looks at outside the run itself. */
  datatype Observation = Observation(
    workspaceOpen: bool,
    file: FileCheck,
    hibernated: bool,
    now: nat,
    screen: Screen,
    agentLive: bool,
    sendWorks: bool)

  datatype Settings = Settings(idleTicksBeforeNudge: nat, nudgeBudget: nat)

  datatype RunState = RunState(
    iteration: nat,
    maxIterations: nat,
    status: GoalStatus,
    nudgesSent: nat,
    idleTicks: nat,
    noTextTicks: nat,
    startedEpoch: nat,
    wallClockMinutes: nat,
    lastEscalation: nat,
    detectsState: bool)

  const ESCALATION_MIN_SECS := 60
  const NO_TEXT_LIMIT := 30

  predicate IsTerminal(s: GoalStatus) {
    s.Done? || s.Blocked?
  }

  /** The iteration ceiling for automatic continuation. */
  function Cap(maxIterations: nat): nat {
    if maxIterations > 1 then maxIterations else 1
  }

  /** What the driver types into the agent's pane. */
  datatype Prompt = NoPrompt | Nudge | NextIteration

  datatype Outcome = Outcome(run: RunState, prompt: Prompt, escalated: bool, dropped: bool)

  function Quiet(r: RunState): Outcome {
    Outcome(r, NoPrompt, false, false)
  }

  function Elapsed(now: nat, since: nat): nat {
    if now >= since then now - since else 0
  }

  /** Set a status; tell the human unless told within the last minute, except that entering a
      terminal status is always told. */
  function Escalate(r: RunState, status: GoalStatus, now: nat): Outcome {
    var rateOk := Elapsed(now, r.lastEscalation) >= ESCALATION_MIN_SECS;
    var tell := rateOk || (IsTerminal(status) && !IsTerminal(r.status));
    if r.status != status || rateOk then
      Outcome(r.(status := status, lastEscalation := if tell then now else r.lastEscalation), NoPrompt, tell, false)
    else
      Quiet(r)
  }

  predicate MayAdvance(r: RunState, o: Observation) {
    o.file.Report? && (r.detectsState ==> o.agentLive) && o.sendWorks
  }

  /** Begin the next iteration in the same session, if the agent can be told to. */
  function Advance(r: RunState, o: Observation): Outcome {
    if MayAdvance(r, o) then
      Outcome(r.(iteration := r.iteration + 1, idleTicks := 0, nudgesSent := 0, noTextTicks := 0,
                 status := GoalStatus.Running), NextIteration, false, false)
    else
      Quiet(r)
  }

  /** Escalations that differ in their reason are different states to the rate limit. */
  function Unrecognised(status: string): GoalStatus {
    GoalStatus.NeedsAttention("unrecognised status '" + status + "'")
  }

  function StalledAfter(nudges: nat): GoalStatus {
    GoalStatus.NeedsAttention("stalled after " + Decimal(nudges) + " reminders")
  }

  function OnReport(r: RunState, o: Observation): Outcome
    requires o.file.Report?
  {
    if o.file.status == "done" then Quiet(r.(status := GoalStatus.Done))
    else if o.file.status == "blocked" then
      if r.iteration < Cap(r.maxIterations) then Advance(r, o)
      else Escalate(r, GoalStatus.Blocked("the agent could not finish"), o.now)
    else Escalate(r, Unrecognised(o.file.status), o.now)
  }

  function Calmed(s: GoalStatus): GoalStatus {
    if s.NeedsAttention? then GoalStatus.Running else s
  }

  function OnUnreadable(r: RunState, o: Observation): Outcome {
    var counted := r.(noTextTicks := r.noTextTicks + 1);
    if counted.noTextTicks == NO_TEXT_LIMIT then
      Escalate(counted, GoalStatus.NeedsAttention(if o.agentLive then "running but its terminal cannot be read" else "failed to start"), o.now)
    else
      Quiet(counted)
  }

  function OnIdle(r: RunState, o: Observation, s: Settings): Outcome {
    var idle := r.idleTicks + 1;
    if idle < s.idleTicksBeforeNudge then Quiet(r.(idleTicks := idle))
    else if !o.agentLive then Escalate(r, GoalStatus.Blocked("the agent exited"), o.now)
    else if r.nudgesSent >= s.nudgeBudget then Escalate(r, StalledAfter(r.nudgesSent), o.now)
    else if o.sendWorks then Outcome(r.(nudgesSent := r.nudgesSent + 1, idleTicks := 0), Nudge, false, false)
    else Quiet(r)
  }

  function OnScreen(r: RunState, o: Observation, s: Settings): Outcome {
    if o.screen.Unreadable? then OnUnreadable(r, o)
    else
      var seen := if r.noTextTicks != 0 then r.(noTextTicks := 0, status := Calmed(r.status)) else r;
      match o.screen
      case Menu => Escalate(seen, GoalStatus.NeedsAttention("waiting on a prompt"), o.now)
      case Busy => Quiet(seen.(idleTicks := 0, status := Calmed(seen.status)))
      case _ => OnIdle(seen, o, s)
  }

  predicate OutOfTime(r: RunState, now: nat) {
    r.wallClockMinutes > 0 && Elapsed(now, r.startedEpoch) > r.wallClockMinutes * 60
  }

  /** One driver tick over a run that is not terminal. */
  function Drive(r: RunState, o: Observation, s: Settings): Outcome {
    if !o.workspaceOpen then Outcome(r, NoPrompt, false, true)
    else if o.file.Report? then OnReport(r, o)
    else if o.file.NoStatusLine? then Escalate(r, GoalStatus.NeedsAttention("iteration report has no status line"), o.now)
    else if o.hibernated then Quiet(r)
    else if OutOfTime(r, o.now) then Escalate(r, GoalStatus.Blocked("ran out of time"), o.now)
    else if !r.detectsState then Quiet(r)
    else OnScreen(r, o, s)
  }

  // ---------- the registered run ----------

  class GoalRun {
    var iteration: nat
    const maxIterations: nat
    var status: GoalStatus
    var nudgesSent: nat
    var idleTicks: nat
    var noTextTicks: nat
    const startedEpoch: nat
    const wallClockMinutes: nat
    var lastEscalation: nat
    const detectsState: bool

    ghost function View(): RunState
      reads this
    {
      RunState(iteration, maxIterations, status, nudgesSent, idleTicks, noTextTicks, startedEpoch,
               wallClockMinutes, lastEscalation, detectsState)
    }

    constructor (iteration: nat, maxIterations: nat, startedEpoch: nat, wallClockMinutes: nat, detectsState: bool)
      ensures View() == RunState(iteration, maxIterations, GoalStatus.Running, 0, 0, 0, startedEpoch, wallClockMinutes, 0, detectsState)
    {
      this.iteration, this.maxIterations := iteration, maxIterations;
      status := GoalStatus.Running;
      nudgesSent, idleTicks, noTextTicks := 0, 0, 0;
      this.startedEpoch, this.wallClockMinutes := startedEpoch, wallClockMinutes;
      lastEscalation := 0;
      this.detectsState := detectsState;
    }

    method EscalateTo(status': GoalStatus, now: nat) returns (told: bool)
      modifies this
      ensures View() == Escalate(old(View()), status', now).run && told == Escalate(old(View()), status', now).escalated
    {
      told := false;
      var rateOk := Elapsed(now, lastEscalation) >= ESCALATION_MIN_SECS;
      var enteringTerminal := IsTerminal(status') && !IsTerminal(status);
      if status != status' || rateOk {
        told := rateOk || enteringTerminal;
        status := status';
        if told {
          lastEscalation := now;
        }
      }
    }

    method AdvanceIteration(o: Observation) returns (r: Result<nat, string>)
      modifies this
      ensures View() == Advance(old(View()), o).run
      ensures r.Ok? <==> MayAdvance(old(View()), o)
      ensures r.Ok? ==> r.value == old(iteration) + 1
    {
      if !o.file.Report? {
        return Err("no finished iteration file yet");
      }
      if detectsState && !o.agentLive {
        return Err("the agent process is not running in that pane");
      }
      if !o.sendWorks {
        return Err("no UI event channel");
      }
      iteration := iteration + 1;
      idleTicks, nudgesSent, noTextTicks := 0, 0, 0;
      status := GoalStatus.Running;
      r := Ok(iteration);
    }

    /** Advance the run by one tick; returns what was typed, whether the human was told, and
        whether the run is dropped from the registry. */
    method DriveOne(o: Observation, s: Settings) returns (prompt: Prompt, told: bool, dropped: bool)
      modifies this
      ensures Outcome(View(), prompt, told, dropped) == Drive(old(View()), o, s)
    {
      prompt, told, dropped := NoPrompt, false, false;
      if !o.workspaceOpen {
        dropped := true;
        return;
      }
      match o.file {
        case Report(reported) =>
          if reported == "done" {
            status := GoalStatus.Done;
          } else if reported == "blocked" && iteration < Cap(maxIterations) {
            var next := AdvanceIteration(o);
            prompt := if next.Ok? then NextIteration else NoPrompt;
          } else if reported == "blocked" {
            told := EscalateTo(GoalStatus.Blocked("the agent could not finish"), o.now);
          } else {
            told := EscalateTo(Unrecognised(reported), o.now);
          }
          return;
        case NoStatusLine =>
          told := EscalateTo(GoalStatus.NeedsAttention("iteration report has no status line"), o.now);
          return;
        case Missing =>
      }
      if o.hibernated {
        return;
      }
      if wallClockMinutes > 0 && Elapsed(o.now, startedEpoch) > wallClockMinutes * 60 {
        told := EscalateTo(GoalStatus.Blocked("ran out of time"), o.now);
        return;
      }
      if !detectsState {
        return;
      }
      if o.screen.Unreadable? {
        noTextTicks := noTextTicks + 1;
        if noTextTicks == NO_TEXT_LIMIT {
          told := EscalateTo(GoalStatus.NeedsAttention(if o.agentLive then "running but its terminal cannot be read" else "failed to start"), o.now);
        }
        return;
      }
      if noTextTicks != 0 {
        noTextTicks := 0;
        status := Calmed(status);
      }
      if o.screen.Menu? {
        told := EscalateTo(GoalStatus.NeedsAttention("waiting on a prompt"), o.now);
        return;
      }
      if o.screen.Busy? {
        idleTicks := 0;
        status := Calmed(status);
        return;
      }
      var idle := idleTicks + 1;
      if idle < s.idleTicksBeforeNudge {
        idleTicks := idle;
      } else if !o.agentLive {
        told := EscalateTo(GoalStatus.Blocked("the agent exited"), o.now);
      } else if nudgesSent >= s.nudgeBudget {
        told := EscalateTo(StalledAfter(nudgesSent), o.now);
      } else if o.sendWorks {
        nudgesSent := nudgesSent + 1;
        idleTicks := 0;
        prompt := Nudge;
      }
    }
  }

  // ---------- runs of the driver ----------

  /** `AgentCompleted` is the agent's own call, whose claim counts only without a report. */
  datatype Event =
    | Ticked(o: Observation, s: Settings)
    | AgentCompleted(file: FileCheck, claim: string)
    | HumanContinued(o: Observation)
    | HumanAccepted
    | HumanStopped

  /** A run together with what has happened to it. `idleSeen` counts the idle screens since the
      last busy screen, nudge or new iteration; `told` lists when a human was told of something
      that did not end the run. */
  datatype History = History(
    run: RunState,
    dropped: bool,
    nudges: nat,
    iterations: nat,
    continues: nat,
    idleSeen: nat,
    told: seq<nat>)

  function Begin(run: RunState): History {
    History(run, false, 0, 0, 0, 0, [])
  }

  /** The tick reaches the idle check with an idle screen. */
  predicate SeesIdle(r: RunState, o: Observation) {
    o.workspaceOpen && o.file.Missing? && !o.hibernated && !OutOfTime(r, o.now) && r.detectsState && o.screen.Idle?
  }

  predicate SeesBusy(r: RunState, o: Observation) {
    o.workspaceOpen && o.file.Missing? && !o.hibernated && !OutOfTime(r, o.now) && r.detectsState && o.screen.Busy?
  }

  function Happen(h: History, e: Event): History {
    if h.dropped then h else
    match e
    case Ticked(o, s) =>
      if IsTerminal(h.run.status) then h else
      var out := Drive(h.run, o, s);
      var idle := h.idleSeen + if SeesIdle(h.run, o) then 1 else 0;
      History(out.run, out.dropped,
              h.nudges + (if out.prompt.Nudge? then 1 else 0),
              h.iterations + (if out.prompt.NextIteration? then 1 else 0),
              h.continues,
              if SeesBusy(h.run, o) || !out.prompt.NoPrompt? then 0 else idle,
              if out.escalated && !IsTerminal(out.run.status) then h.told + [o.now] else h.told)
    case HumanContinued(o) =>
      var out := Advance(h.run, o);
      if out.prompt.NoPrompt? then h
      else h.(run := out.run, continues := h.continues + 1, idleSeen := 0)
    case AgentCompleted(file, claim) =>
      if (if file.Report? then file.status else claim) == "done" then h.(run := h.run.(status := GoalStatus.Done)) else h
    case HumanAccepted => h.(run := h.run.(status := GoalStatus.Done))
    case HumanStopped => h.(run := h.run.(status := GoalStatus.Blocked("stopped by user")))
  }

  function HappenAll(h: History, events: seq<Event>): History {
    if events == [] then h else Happen(HappenAll(h, events[..|events| - 1]), events[|events| - 1])
  }

  /** The settings may change between ticks, within the given bounds. */
  predicate Bounded(events: seq<Event>, budget: nat) {
    forall e <- events :: e.Ticked? ==> e.s.nudgeBudget <= budget
  }

  function Max(a: nat, b: nat): nat {
    if a >= b then a else b
  }

  // ---------- what one tick can do to the counters ----------

  ghost predicate CountersMove(r: RunState, out: Outcome, sawIdle: bool, s: Settings, now: nat) {
    && out.run.maxIterations == r.maxIterations
    && (match out.prompt
        case NoPrompt =>
          && out.run.iteration == r.iteration && out.run.nudgesSent == r.nudgesSent
          && out.run.idleTicks <= r.idleTicks + (if sawIdle then 1 else 0)
        case Nudge =>
          && out.run.iteration == r.iteration && out.run.idleTicks == 0
          && out.run.nudgesSent == r.nudgesSent + 1 <= s.nudgeBudget
          && r.idleTicks + 1 >= s.idleTicksBeforeNudge && sawIdle
        case NextIteration =>
          && out.run.iteration == r.iteration + 1 <= Cap(r.maxIterations)
          && out.run.nudgesSent == 0 && out.run.idleTicks == 0)
    && out.run.lastEscalation == (if out.escalated then now else r.lastEscalation)
    && (out.escalated && !IsTerminal(out.run.status) ==> r.lastEscalation + ESCALATION_MIN_SECS <= now)
  }

  lemma EscalateCounters(r: RunState, status: GoalStatus, now: nat, s: Settings, sawIdle: bool)
    ensures CountersMove(r, Escalate(r, status, now), sawIdle, s, now)
    ensures !IsTerminal(r.status) && IsTerminal(status) ==> Escalate(r, status, now).escalated
    ensures Escalate(r, status, now).run.status == status && Escalate(r, status, now).prompt.NoPrompt?
  {
  }

  lemma IdleCounters(r: RunState, o: Observation, s: Settings)
    ensures CountersMove(r, OnIdle(r, o, s), true, s, o.now)
    ensures !OnIdle(r, o, s).prompt.NextIteration? && (OnIdle(r, o, s).prompt.Nudge? ==> o.agentLive)
    ensures !IsTerminal(r.status) && IsTerminal(OnIdle(r, o, s).run.status) ==> OnIdle(r, o, s).escalated
  {
    EscalateCounters(r, GoalStatus.Blocked("the agent exited"), o.now, s, true);
    EscalateCounters(r, StalledAfter(r.nudgesSent), o.now, s, true);
    hide Escalate;
  }

  lemma UnreadableCounters(r: RunState, o: Observation, s: Settings)
    ensures CountersMove(r, OnUnreadable(r, o), false, s, o.now) && OnUnreadable(r, o).prompt.NoPrompt?
    ensures !IsTerminal(r.status) ==> !IsTerminal(OnUnreadable(r, o).run.status)
  {
    var counted := r.(noTextTicks := r.noTextTicks + 1);
    EscalateCounters(counted, GoalStatus.NeedsAttention("running but its terminal cannot be read"), o.now, s, false);
    EscalateCounters(counted, GoalStatus.NeedsAttention("failed to start"), o.now, s, false);
    hide Escalate;
  }

  lemma ScreenCounters(r: RunState, o: Observation, s: Settings)
    ensures CountersMove(r, OnScreen(r, o, s), o.screen.Idle?, s, o.now)
    ensures o.screen.Busy? ==> OnScreen(r, o, s).run.idleTicks == 0
    ensures OnScreen(r, o, s).prompt.Nudge? ==> o.agentLive && o.screen.Idle?
    ensures !OnScreen(r, o, s).prompt.NextIteration?
    ensures !IsTerminal(r.status) && IsTerminal(OnScreen(r, o, s).run.status) ==> OnScreen(r, o, s).escalated
  {
    var seen := if r.noTextTicks != 0 then r.(noTextTicks := 0, status := Calmed(r.status)) else r;
    UnreadableCounters(r, o, s);
    IdleCounters(seen, o, s);
    EscalateCounters(seen, GoalStatus.NeedsAttention("waiting on a prompt"), o.now, s, false);
    hide Escalate, OnIdle, OnUnreadable;
  }

  lemma ReportCounters(r: RunState, o: Observation, s: Settings)
    requires o.file.Report?
    ensures CountersMove(r, OnReport(r, o), false, s, o.now)
    ensures OnReport(r, o).prompt.NextIteration? ==> MayAdvance(r, o) && o.file.status == "blocked"
    ensures !OnReport(r, o).prompt.Nudge?
    ensures !IsTerminal(r.status) && OnReport(r, o).run.status.Blocked? ==> OnReport(r, o).escalated
  {
    EscalateCounters(r, GoalStatus.Blocked("the agent could not finish"), o.now, s, false);
    EscalateCounters(r, Unrecognised(o.file.status), o.now, s, false);
    hide Escalate;
  }

  /** What a tick does to a run's counters, whichever branch it takes. */
  lemma DriveCounters(r: RunState, o: Observation, s: Settings)
    ensures CountersMove(r, Drive(r, o, s), SeesIdle(r, o), s, o.now)
    ensures SeesBusy(r, o) ==> Drive(r, o, s).run.idleTicks == 0
    ensures !IsTerminal(r.status) && Drive(r, o, s).run.status.Blocked? ==> Drive(r, o, s).escalated
  {
    if o.file.Report? {
      ReportCounters(r, o, s);
    }
    ScreenCounters(r, o, s);
    EscalateCounters(r, GoalStatus.NeedsAttention("iteration report has no status line"), o.now, s, false);
    EscalateCounters(r, GoalStatus.Blocked("ran out of time"), o.now, s, false);
    hide Escalate, OnScreen, OnReport;
  }

  /** Nothing is ever typed into a pane whose agent is known to be gone, and reminders never go to
      a menu, a frozen agent or a run that has reported. */
  lemma PromptsNeedLiveAgent(r: RunState, o: Observation, s: Settings)
    ensures Drive(r, o, s).prompt.Nudge? ==> o.agentLive && o.screen.Idle? && !o.hibernated && o.file.Missing?
    ensures Drive(r, o, s).prompt.NextIteration? ==> (r.detectsState ==> o.agentLive) && o.file == Report("blocked")
  {
    if o.file.Report? {
      ReportCounters(r, o, s);
    }
    ScreenCounters(r, o, s);
    hide OnScreen, OnReport;
  }

  // ---------- whole runs ----------

  ghost predicate WithinBudget(h: History, start: RunState, budget: nat) {
    && h.run.maxIterations == start.maxIterations
    && h.run.iteration == start.iteration + h.iterations + h.continues
    && start.iteration + h.iterations <= Max(start.iteration, Cap(start.maxIterations))
    && h.run.nudgesSent <= budget
    && h.nudges <= Times(budget, h.iterations + h.continues) + h.run.nudgesSent
    && h.run.idleTicks <= h.idleSeen
  }

  /** A budget spent in full `n` times. */
  function Times(budget: nat, n: nat): nat {
    budget * n
  }

  lemma TimesNext(budget: nat, n: nat)
    ensures Times(budget, n + 1) == Times(budget, n) + budget
  {
  }

  lemma BudgetStep(h: History, e: Event, start: RunState, budget: nat)
    requires WithinBudget(h, start, budget)
    requires e.Ticked? ==> e.s.nudgeBudget <= budget
    ensures WithinBudget(Happen(h, e), start, budget)
  {
    if e.Ticked? {
      DriveCounters(h.run, e.o, e.s);
    }
    TimesNext(budget, h.iterations + h.continues);
    hide Drive, Times, Cap, SeesIdle, SeesBusy;
  }

  lemma {:induction false} BudgetRun(start: RunState, events: seq<Event>, budget: nat)
    requires Bounded(events, budget) && start.nudgesSent <= budget && start.idleTicks == 0
    ensures WithinBudget(HappenAll(Begin(start), events), start, budget)
  {
    hide Happen;
    if events != [] {
      var init, last := events[..|events| - 1], events[|events| - 1];
      assert last in events;
      BudgetRun(start, init, budget);
      BudgetStep(HappenAll(Begin(start), init), last, start, budget);
    }
  }

  /** Over any run of the driver and any human verdicts: automatic iterations stop at the cap (or
      where the run started), reminders since the last iteration stay within the budget, and all
      reminders ever typed are bounded by the budget for each iteration begun. */
  lemma BudgetsHold(start: RunState, events: seq<Event>, budget: nat)
    requires Bounded(events, budget) && start.nudgesSent <= budget && start.idleTicks == 0
    ensures var h := HappenAll(Begin(start), events);
            && h.run.iteration <= Max(start.iteration, Cap(start.maxIterations)) + h.continues
            && h.run.nudgesSent <= budget
            && h.iterations <= Max(start.iteration, Cap(start.maxIterations)) - start.iteration
            && h.nudges <= budget * (h.iterations + h.continues + 1)
  {
    BudgetRun(start, events, budget);
    hide HappenAll;
    var h := HappenAll(Begin(start), events);
    TimesNext(budget, h.iterations + h.continues);
  }

  function HighestBudget(events: seq<Event>): nat
    ensures Bounded(events, HighestBudget(events))
  {
    if events == [] then 0
    else
      var rest := HighestBudget(events[1..]);
      if events[0].Ticked? then Max(events[0].s.nudgeBudget, rest) else rest
  }

  /** Every reminder comes after at least max(1, threshold) idle screens since the last busy
      screen, reminder or new iteration. */
  lemma NudgesAreDebounced(start: RunState, events: seq<Event>, o: Observation, s: Settings)
    requires start.idleTicks == 0
    ensures var h := HappenAll(Begin(start), events);
            Drive(h.run, o, s).prompt.Nudge? ==> h.idleSeen + 1 >= Max(1, s.idleTicksBeforeNudge)
  {
    var budget := Max(HighestBudget(events), start.nudgesSent);
    BudgetRun(start, events, budget);
    DriveCounters(HappenAll(Begin(start), events).run, o, s);
    hide Drive, HappenAll;
  }

  // ---------- how often a human is told ----------

  ghost predicate ClockRuns(events: seq<Event>) {
    forall i, j :: 0 <= i < j < |events| && events[i].Ticked? && events[j].Ticked? ==> events[i].o.now <= events[j].o.now
  }

  ghost predicate Spaced(told: seq<nat>) {
    forall i, j :: 0 <= i < j < |told| ==> told[i] + ESCALATION_MIN_SECS <= told[j]
  }

  /** What the human was told is spaced out, and no later than the last escalation, which is the
      time of some tick. */
  ghost predicate ToldInv(h: History, events: seq<Event>) {
    && Spaced(h.told)
    && (forall i :: 0 <= i < |h.told| ==> h.told[i] <= h.run.lastEscalation)
    && (h.told != [] ==> exists i :: 0 <= i < |events| && events[i].Ticked? && events[i].o.now == h.run.lastEscalation)
  }

  lemma ToldStep(h: History, events: seq<Event>, e: Event)
    requires ClockRuns(events + [e]) && ToldInv(h, events)
    ensures ToldInv(Happen(h, e), events + [e])
  {
    var more := events + [e];
    assert more[|events|] == e;
    assert forall i :: 0 <= i < |events| ==> more[i] == events[i];
    if e.Ticked? {
      DriveCounters(h.run, e.o, e.s);
    }
    hide Drive, SeesIdle, SeesBusy;
  }

  /** A human is told about a run that goes on at most once a minute; a run that the driver blocks
      is always told about. */
  lemma {:induction false} EscalationsAreSpaced(start: RunState, events: seq<Event>)
    requires ClockRuns(events)
    ensures ToldInv(HappenAll(Begin(start), events), events)
  {
    hide Happen;
    if events != [] {
      var init, last := events[..|events| - 1], events[|events| - 1];
      assert events == init + [last];
      EscalationsAreSpaced(start, init);
      ToldStep(HappenAll(Begin(start), init), init, last);
    }
  }

  // ---------- numbering iterations ----------

  lemma {:induction false} DecimalRoundTrip(n: nat)
    ensures DecimalValue(Decimal(n)) == n
  {
    var s := Decimal(n);
    if n >= 10 {
      DecimalRoundTrip(n / 10);
      assert s[..|s| - 1] == Decimal(n / 10);
    } else {
      assert s[..0] == [];
    }
  }

  const PREFIX := "iteration-"
  const SUFFIX := ".md"

  function IterationFile(n: nat): string {
    PREFIX + Decimal(n) + SUFFIX
  }

  /** Parsing an unsigned 32-bit number: an optional plus sign, then digits. */
  function ParseU32(s: string): Option<nat> {
    var digits := if s != [] && s[0] == '+' then s[1..] else s;
    if digits != [] && (forall c <- digits :: IsDigit(c)) && DecimalValue(digits) <= MAX_U32
    then Some(DecimalValue(digits))
    else None
  }

  /** The iteration a directory entry belongs to, if its name is an iteration file's. */
  function IterationOf(name: string): Option<nat> {
    if PREFIX <= name && |name| - |PREFIX| >= |SUFFIX| && name[|name| - |SUFFIX|..] == SUFFIX
    then ParseU32(name[|PREFIX|..|name| - |SUFFIX|])
    else None
  }

  lemma IterationFileRoundTrip(n: nat)
    requires n <= MAX_U32
    ensures IterationOf(IterationFile(n)) == Some(n)
  {
    var name, digits := IterationFile(n), Decimal(n);
    DecimalRoundTrip(n);
    assert name[|PREFIX|..|name| - |SUFFIX|] == digits;
    assert name[|name| - |SUFFIX|..] == SUFFIX;
    assert PREFIX <= name;
    assert digits[0] in digits;
  }

  /** One past the highest iteration there is a file for. */
  method NextIterationNumber(names: seq<string>) returns (next: nat)
    ensures next >= 1
    ensures forall name <- names :: IterationOf(name).Some? ==> IterationOf(name).value < next
    ensures next == 1 || exists name <- names :: IterationOf(name) == Some(next - 1)
  {
    var max := 0;
    for k := 0 to |names|
      invariant forall j :: 0 <= j < k && IterationOf(names[j]).Some? ==> IterationOf(names[j]).value <= max
      invariant max == 0 || exists j :: 0 <= j < k && IterationOf(names[j]) == Some(max)
    {
      var n := IterationOf(names[k]);
      if n.Some? && n.value > max {
        max := n.value;
      }
    }
    next := max + 1;
  }

  /** The file the next iteration will be reported in does not exist yet, so a new run never takes
      an old report for its own. */
  lemma NextIsFresh(names: seq<string>, next: nat)
    requires next <= MAX_U32
    requires forall name <- names :: IterationOf(name).Some? ==> IterationOf(name).value < next
    ensures IterationFile(next) !in names
  {
    IterationFileRoundTrip(next);
  }
}
