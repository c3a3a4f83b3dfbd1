// What one driver tick makes of a run in each situation, and how a run comes to be done or blocked.
module GoalOutcomes {
  import opened Common
  import opened Graph
  import opened GoalDriver

  /** The human may be told again: the last time is at least a minute ago. */
  predicate MinutePassed(r: RunState, now: nat) {
    now >= r.lastEscalation + 60
  }

  /** The run has used the iterations it may begin by itself; it always has one. */
  predicate AtCap(r: RunState) {
    r.iteration >= 1 && r.iteration >= r.maxIterations
  }

  predicate Overran(r: RunState, now: nat) {
    r.wallClockMinutes > 0 && now > r.startedEpoch + r.wallClockMinutes * 60
  }

  /** The agent can be told to go on: where its state can be seen, it must be alive. */
  predicate CanBeTold(r: RunState, o: Observation) {
    (r.detectsState ==> o.agentLive) && o.sendWorks
  }

  /** No report yet and nothing that ends the tick before the screen is looked at. */
  predicate LooksAtScreen(r: RunState, o: Observation) {
    o.workspaceOpen && o.file.Missing? && !o.hibernated && !Overran(r, o.now) && r.detectsState
  }

  /** The run with a status set on a human's behalf, who is told as asked; nothing else changes. */
  ghost predicate Raised(r: RunState, out: Outcome, told: bool, now: nat) {
    && out.prompt.NoPrompt? && !out.dropped && out.escalated == told
    && out.run == r.(status := out.run.status, lastEscalation := if told then now else r.lastEscalation)
  }

  /** A human is asked for attention for this reason, and told if a minute has passed. */
  ghost predicate Asks(r: RunState, out: Outcome, reason: string, now: nat) {
    out.run.status == GoalStatus.NeedsAttention(reason) && Raised(r, out, MinutePassed(r, now), now)
  }

  /** The run is blocked for this reason, and a human told. */
  ghost predicate Ends(r: RunState, out: Outcome, reason: string, now: nat) {
    out.run.status == GoalStatus.Blocked(reason) && Raised(r, out, true, now)
  }

  /** Nothing is typed, told or dropped. */
  predicate Silent(out: Outcome) {
    out.prompt.NoPrompt? && !out.escalated && !out.dropped
  }

  /** What a tick makes of the iteration file. */
  lemma TickOnReport(r: RunState, o: Observation, s: Settings)
    requires !IsTerminal(r.status)
    ensures var out := Drive(r, o, s);
            && (out.dropped <==> !o.workspaceOpen)
            && (!o.workspaceOpen ==> out.run == r && out.prompt.NoPrompt? && !out.escalated)
            && (o.workspaceOpen && o.file == Report("done") ==> out.run == r.(status := GoalStatus.Done) && Silent(out))
            && (o.workspaceOpen && o.file == Report("blocked") && AtCap(r) ==> Ends(r, out, "the agent could not finish", o.now))
            && (o.workspaceOpen && o.file == Report("blocked") && !AtCap(r) && CanBeTold(r, o) ==>
                  && out.prompt.NextIteration? && !out.escalated
                  && out.run == r.(iteration := r.iteration + 1, status := GoalStatus.Running, idleTicks := 0, nudgesSent := 0, noTextTicks := 0))
            && (o.workspaceOpen && o.file == Report("blocked") && !AtCap(r) && !CanBeTold(r, o) ==> out.run == r && Silent(out))
            && (o.workspaceOpen && o.file.Report? && o.file.status != "done" && o.file.status != "blocked" ==>
                  Asks(r, out, "unrecognised status '" + o.file.status + "'", o.now))
            && (o.workspaceOpen && o.file.NoStatusLine? ==> Asks(r, out, "iteration report has no status line", o.now))
  {
  }

  /** What it makes of a run without a report whose screen it does not look at. */
  lemma TickUnseen(r: RunState, o: Observation, s: Settings)
    requires !IsTerminal(r.status) && o.workspaceOpen && o.file.Missing?
    ensures var out := Drive(r, o, s);
            && (o.hibernated ==> out.run == r && Silent(out))
            && (!o.hibernated && Overran(r, o.now) ==> Ends(r, out, "ran out of time", o.now))
            && (!o.hibernated && !Overran(r, o.now) && !r.detectsState ==> out.run == r && Silent(out))
  {
  }

  /** The run as a readable screen leaves it: after unreadable ones, attention is no longer needed. */
  function Readable(r: RunState): RunState {
    r.(noTextTicks := 0, status := if r.noTextTicks > 0 && r.status.NeedsAttention? then GoalStatus.Running else r.status)
  }

  /** What it makes of a screen that cannot be read, asks something, or is busy. */
  lemma TickOnScreen(r: RunState, o: Observation, s: Settings)
    requires !IsTerminal(r.status) && LooksAtScreen(r, o)
    ensures var out := Drive(r, o, s);
            && (o.screen.Unreadable? && r.noTextTicks + 1 != 30 ==> out.run == r.(noTextTicks := r.noTextTicks + 1) && Silent(out))
            && (o.screen.Unreadable? && r.noTextTicks + 1 == 30 ==>
                  Asks(r.(noTextTicks := 30), out, if o.agentLive then "running but its terminal cannot be read" else "failed to start", o.now))
            && (o.screen.Menu? ==> Asks(Readable(r), out, "waiting on a prompt", o.now))
            && (o.screen.Busy? ==>
                  && Silent(out)
                  && out.run == r.(noTextTicks := 0, idleTicks := 0, status := if r.status.NeedsAttention? then GoalStatus.Running else r.status))
  {
  }

  /** What it makes of an idle screen: count; then, past the threshold, block a run whose agent is gone,
      give up nudging, or nudge. */
  lemma TickOnIdle(r: RunState, o: Observation, s: Settings)
    requires !IsTerminal(r.status) && LooksAtScreen(r, o) && o.screen.Idle?
    ensures var out := Drive(r, o, s); var seen := Readable(r); var due := r.idleTicks + 1 >= s.idleTicksBeforeNudge;
            && (!due ==> out.run == seen.(idleTicks := r.idleTicks + 1) && Silent(out))
            && (due && !o.agentLive ==> Ends(seen, out, "the agent exited", o.now))
            && (due && o.agentLive && r.nudgesSent >= s.nudgeBudget ==>
                  Asks(seen, out, "stalled after " + Decimal(r.nudgesSent) + " reminders", o.now))
            && (due && o.agentLive && r.nudgesSent < s.nudgeBudget && o.sendWorks ==>
                  out.prompt.Nudge? && !out.escalated && out.run == seen.(nudgesSent := r.nudgesSent + 1, idleTicks := 0))
            && (due && o.agentLive && r.nudgesSent < s.nudgeBudget && !o.sendWorks ==> out.run == seen && Silent(out))
  {
  }

  /** A run that goes on turns done in a tick exactly on a done report, and blocked exactly on a blocked
      report at the cap, an overrun clock, or a debounced idle screen with the agent gone. */
  lemma TickEndsIff(r: RunState, o: Observation, s: Settings)
    requires !IsTerminal(r.status)
    ensures var out := Drive(r, o, s);
            && (out.run.status.Done? <==> o.workspaceOpen && o.file == Report("done"))
            && (out.run.status.Blocked? <==>
                  || (o.workspaceOpen && o.file == Report("blocked") && AtCap(r))
                  || (o.workspaceOpen && o.file.Missing? && !o.hibernated && Overran(r, o.now))
                  || (LooksAtScreen(r, o) && o.screen.Idle? && r.idleTicks + 1 >= s.idleTicksBeforeNudge && !o.agentLive))
  {
    TickOnReport(r, o, s);
    if o.workspaceOpen && o.file.Missing? {
      TickUnseen(r, o, s);
      if LooksAtScreen(r, o) {
        TickOnScreen(r, o, s);
        if o.screen.Idle? {
          TickOnIdle(r, o, s);
        }
      }
    }
    hide Drive;
  }

  /** A human's continue begins the next iteration exactly when the report is there and the agent can be
      told; otherwise nothing changes. */
  lemma ContinueOnRun(h: History, o: Observation)
    requires !h.dropped
    ensures var v := Happen(h, HumanContinued(o));
            if o.file.Report? && CanBeTold(h.run, o) then
              && v.run == h.run.(iteration := h.run.iteration + 1, status := GoalStatus.Running, idleTicks := 0, nudgesSent := 0, noTextTicks := 0)
              && v.continues == h.continues + 1
            else v == h
  {
  }

  // ---------- whole runs ----------

  /** A tick saw a done report. */
  predicate SawDone(e: Event) {
    e.Ticked? && e.o.workspaceOpen && e.o.file == Report("done")
  }

  /** The agent says it is done, with a done report or with no report at all. */
  predicate SaidDone(e: Event) {
    e.AgentCompleted? && (e.file == Report("done") || (!e.file.Report? && e.claim == "done"))
  }

  /** Verdicts set a status and nothing else; a tick leaves a run that has ended alone, and nothing
      reaches a run that was dropped. */
  lemma VerdictsOnRun(h: History, e: Event)
    ensures h.dropped ==> Happen(h, e) == h
    ensures e.Ticked? && IsTerminal(h.run.status) ==> Happen(h, e) == h
    ensures !h.dropped && e.HumanAccepted? ==> Happen(h, e) == h.(run := h.run.(status := GoalStatus.Done))
    ensures !h.dropped && e.HumanStopped? ==> Happen(h, e).run.status.Blocked? && Happen(h, e) == h.(run := h.run.(status := Happen(h, e).run.status))
    ensures !h.dropped && e.AgentCompleted? ==> Happen(h, e) == if SaidDone(e) then h.(run := h.run.(status := GoalStatus.Done)) else h
  {
  }

  lemma DoneStep(h: History, e: Event)
    requires !h.run.status.Done? && Happen(h, e).run.status.Done?
    ensures SawDone(e) || SaidDone(e) || e.HumanAccepted?
  {
    if e.Ticked? && !h.dropped && !IsTerminal(h.run.status) {
      TickEndsIff(h.run, e.o, e.s);
      hide Drive;
    }
  }

  /** A run is done only by a done report, by its agent saying so, or by a human's acceptance. */
  lemma {:induction false} DoneMeans(start: RunState, events: seq<Event>)
    requires !start.status.Done? && HappenAll(Begin(start), events).run.status.Done?
    ensures exists e <- events :: SawDone(e) || SaidDone(e) || e.HumanAccepted?
  {
    var init, last := events[..|events| - 1], events[|events| - 1];
    if HappenAll(Begin(start), init).run.status.Done? {
      DoneMeans(start, init);
      var e :| e in init && (SawDone(e) || SaidDone(e) || e.HumanAccepted?);
      assert e in events;
    } else {
      DoneStep(HappenAll(Begin(start), init), last);
      assert last in events;
    }
  }

  /** The first done report ends a run that goes on, at the iteration it is at. */
  lemma DoneReportEnds(h: History, e: Event)
    requires !h.dropped && !IsTerminal(h.run.status) && SawDone(e)
    ensures Happen(h, e).run == h.run.(status := GoalStatus.Done) && !Happen(h, e).dropped
  {
    TickOnReport(h.run, e.o, e.s);
    hide Drive;
  }
}
