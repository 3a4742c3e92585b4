/** What holds over whole runs of the terminal episode, for every number of flows
    and CPUs and every interleaving of their steps. */
module EpisodeSafety {
  import opened Bytes
  import opened EpisodeWord
  import opened Episode
  import opened EpisodeInvariant

  lemma InitHasInv(s: System)
    requires Init(s)
    ensures Inv(s)
  {
    EncodeDecode(0);
  }

  lemma {:induction false} RunKeepsInv(s: System, schedule: Schedule)
    requires Inv(s)
    ensures Inv(Run(s, schedule))
    decreases |schedule|
  {
    if schedule != [] {
      StepKeepsInv(s, schedule[0].0, schedule[0].1);
      RunKeepsInv(Step(s, schedule[0].0, schedule[0].1), schedule[1..]);
    }
  }

  lemma {:induction false} RunConcat(s: System, before: Schedule, after: Schedule)
    ensures Run(s, before + after) == Run(Run(s, before), after)
    decreases |before|
  {
    if before == [] {
      assert before + after == after;
    } else {
      assert (before + after)[1..] == before[1..] + after;
      RunConcat(Step(s, before[0].0, before[0].1), before[1..], after);
    }
  }

  // ----- One executor ----------------------------------------------------------

  /** The flow ran an orderly step, entered the machine action or invoked a handler. */
  ghost predicate Acted(s: System, f: FlowId) {
    || (exists i :: 0 <= i < |s.plan| && s.plan[i].flow == f)
    || (exists i :: 0 <= i < |s.entries| && s.entries[i].flow == f)
    || (exists i :: 0 <= i < |s.calls| && s.calls[i].flow == f)
  }

  /** At most one CPU ever runs an orderly step or a machine handler, and it is
      the one the word names. */
  lemma OneExecutor(boot: System, schedule: Schedule, f: FlowId)
    requires Init(boot)
    ensures var s := Run(boot, schedule);
            Acted(s, f) ==> f in s.flows && Executes(s, f)
  {
    InitHasInv(boot);
    RunKeepsInv(boot, schedule);
  }

  // ----- The word --------------------------------------------------------------

  /** The word takes at most four values, starting at zero; each later one is the
      encoding of a snapshot with the first snapshot's executor and intent and a
      strictly later phase, so `decode` never panics on a reachable word. */
  lemma WordHistory(boot: System, schedule: Schedule)
    requires Init(boot)
    ensures var s := Run(boot, schedule);
            && 1 <= |s.history| <= 4 && s.history[0] == 0 && s.history[|s.history| - 1] == s.word
            && !Decode(s.word).Corrupt?
            && (forall i :: 1 <= i < |s.history| ==>
                  && Decode(s.history[i]).Published?
                  && Encode(Decode(s.history[i]).snapshot) == Some(s.history[i]))
            && (forall i, j :: 1 <= i < j < |s.history| ==>
                  && Decode(s.history[i]).snapshot.executor == Decode(s.history[j]).snapshot.executor
                  && Decode(s.history[i]).snapshot.intent == Decode(s.history[j]).snapshot.intent
                  && Stage(s.history[i]) < Stage(s.history[j]))
  {
    InitHasInv(boot);
    RunKeepsInv(boot, schedule);
    var s := Run(boot, schedule);
    forall i | 1 <= i < |s.history|
      ensures Decode(s.history[i]).Published? && Encode(Decode(s.history[i]).snapshot) == Some(s.history[i])
    {
      assert Continues(s.history[0], s.history[i]);
      EncodeDecode(s.history[i]);
    }
    StaleLoad(s, s.word);
    EncodeDecode(0);
    forall i, j | 1 <= i < j < |s.history|
      ensures && Decode(s.history[i]).snapshot.executor == Decode(s.history[j]).snapshot.executor
              && Decode(s.history[i]).snapshot.intent == Decode(s.history[j]).snapshot.intent
              && Stage(s.history[i]) < Stage(s.history[j])
    {
      assert Continues(s.history[i], s.history[j]);
      assert s.history[i] != 0;
    }
  }

  /** The recorded history only grows. */
  lemma {:induction false} HistoryGrows(s: System, schedule: Schedule)
    ensures s.history <= Run(s, schedule).history
    decreases |schedule|
  {
    if schedule != [] {
      HistoryGrows(Step(s, schedule[0].0, schedule[0].1), schedule[1..]);
    }
  }

  /** Once published, executor and intent are frozen and the phase never goes back. */
  lemma IdentityFrozen(boot: System, before: Schedule, after: Schedule)
    requires Init(boot)
    ensures var s := Run(boot, before);
            var t := Run(boot, before + after);
            s.word != 0 ==>
              && Decode(s.word).Published? && Decode(t.word).Published?
              && Decode(t.word).snapshot.executor == Decode(s.word).snapshot.executor
              && Decode(t.word).snapshot.intent == Decode(s.word).snapshot.intent
              && Stage(s.word) <= Stage(t.word)
  {
    InitHasInv(boot);
    RunKeepsInv(boot, before);
    RunConcat(boot, before, after);
    var s := Run(boot, before);
    RunKeepsInv(s, after);
    HistoryGrows(s, after);
    var t := Run(s, after);
    assert t.history[|s.history| - 1] == s.word;
    StaleLoad(s, s.word);
    StaleLoad(t, s.word);
  }

  // ----- The machine action ----------------------------------------------------

  /** `enter_machine_action` succeeds at most once in a run, with the intent that
      was published first. */
  lemma MachineActionOnce(boot: System, schedule: Schedule)
    requires Init(boot)
    ensures var s := Run(boot, schedule);
            && |s.entries| <= 1
            && (s.entries != [] ==>
                  && |s.history| >= 2 && Decode(s.history[1]).Published?
                  && s.entries[0].intent == Decode(s.history[1]).snapshot.intent)
  {
    InitHasInv(boot);
    RunKeepsInv(boot, schedule);
    WordHistory(boot, schedule);
    var s := Run(boot, schedule);
    if s.entries != [] {
      assert s.history != [0];
      assert 1 < |s.history| - 1 ==> Continues(s.history[1], s.history[|s.history| - 1]);
    }
  }

  /** The handler that a step adds to a list: that of a flow inside its registration. */
  function Added(s: System, f: FlowId, action: Action, list: MachineIntent): seq<Handler> {
    if action.Proceed? && f in s.flows && s.flows[f].pc.Registering? && s.flows[f].pc.target == list
    then [s.flows[f].pc.handler]
    else []
  }

  /** The handlers registered for a list over a run, in the order of their registration. */
  function RegisteredIn(s: System, schedule: Schedule, list: MachineIntent): seq<Handler>
    decreases |schedule|
  {
    if schedule == [] then []
    else Added(s, schedule[0].0, schedule[0].1, list)
         + RegisteredIn(Step(s, schedule[0].0, schedule[0].1), schedule[1..], list)
  }

  lemma ProceedExtends(s: System, f: FlowId, list: MachineIntent)
    requires f in s.flows
    ensures ProceedStep(s, f).List(list) == s.List(list) + Added(s, f, Proceed, list)
  {
    hide Decode, Encode;
    match s.flows[f].pc
    case Registering(_, _) =>
    case Publishing(_) =>
    case MachineLoad =>
    case MachineCas(_) =>
    case EmergencyLoad =>
    case EmergencyCas(_) =>
    case _ =>
  }

  lemma StepExtends(s: System, f: FlowId, action: Action, list: MachineIntent)
    ensures Step(s, f, action).List(list) == s.List(list) + Added(s, f, action, list)
  {
    hide ProceedStep;
    if f in s.flows { ProceedExtends(s, f, list); }
  }

  /** A list is what it was, followed by what was registered since, in that order. */
  lemma {:induction false} ListIsRegistered(s: System, schedule: Schedule, list: MachineIntent)
    ensures Run(s, schedule).List(list) == s.List(list) + RegisteredIn(s, schedule, list)
    decreases |schedule|
  {
    hide Step, Added;
    if schedule != [] {
      StepExtends(s, schedule[0].0, schedule[0].1, list);
      ListIsRegistered(Step(s, schedule[0].0, schedule[0].1), schedule[1..], list);
    }
  }

  /** The invocations are, in registration order and without gaps or repeats, the
      first handlers of the one list chosen by the intent, then the halt fallback. */
  lemma HandlersInOrder(boot: System, schedule: Schedule)
    requires Init(boot)
    ensures var s := Run(boot, schedule);
            s.calls != [] ==>
              && s.entries != []
              && var intent := s.entries[0].intent;
                 var list := boot.List(intent) + RegisteredIn(boot, schedule, intent);
                 && |s.calls| <= |list| + 1
                 && forall i :: 0 <= i < |s.calls| ==>
                      && s.calls[i].flow == s.entries[0].flow && s.calls[i].intent == intent
                      && s.calls[i].invoked == if i < |list| then Registered(list[i]) else Fallback
  {
    hide Run, RegisteredIn;
    InitHasInv(boot);
    RunKeepsInv(boot, schedule);
    var s := Run(boot, schedule);
    if s.entries != [] { ListIsRegistered(boot, schedule, s.entries[0].intent); }
  }

  /** The flow that entered the machine action is no longer on the handler list. */
  ghost predicate LeftTheList(s: System) {
    && s.entries != [] && s.entries[0].flow in s.flows
    && !s.flows[s.entries[0].flow].pc.TakingLock? && !s.flows[s.entries[0].flow].pc.Handlers?
  }

  lemma LeavingIsFinal(s: System, f: FlowId, t: System)
    requires Inv(s) && LeftTheList(s) && f in s.flows && Frame(s, f, t)
    ensures LeftTheList(t) && t.calls == s.calls
  {
    assert FlowOk(s, f);
    assert t.word == s.word;
  }

  /** No handler runs after the flow that entered the machine action has left the
      list: it panicked inside a handler, was stopped, or reached the fallback. */
  lemma {:induction false} NoHandlerAfterLeaving(s: System, schedule: Schedule)
    requires Inv(s) && LeftTheList(s)
    ensures Run(s, schedule).calls == s.calls
    decreases |schedule|
  {
    if schedule != [] {
      var (f, action) := schedule[0];
      StepKeepsInv(s, f, action);
      if f in s.flows { LeavingIsFinal(s, f, Step(s, f, action)); }
      NoHandlerAfterLeaving(Step(s, schedule[0].0, schedule[0].1), schedule[1..]);
    }
  }

  // ----- The orderly plan ------------------------------------------------------

  /** The plan events are, in order and without gaps, the first of: start and
      complete filesystem, then network, then device, all by the one flow that won
      the publication. A machine action entered by a flow that did not panic comes
      after all of them. */
  lemma PlanIsPrefix(boot: System, schedule: Schedule)
    requires Init(boot)
    ensures var s := Run(boot, schedule);
            && |s.plan| <= 6
            && (s.plan != [] ==> s.winner.Some?)
            && (forall i :: 0 <= i < |s.plan| ==>
                  && s.plan[i].flow == s.winner.value && s.plan[i].step < |ORDERLY_PLAN|
                  && ORDERLY_PLAN[s.plan[i].step] == ["filesystem", "network", "device"][i / 2]
                  && s.plan[i].completed == (i % 2 == 1))
            && (s.entries != [] && !s.entries[0].panicked ==> s.winner == Some(s.entries[0].flow) && |s.plan| == 6)
  {
    InitHasInv(boot);
    RunKeepsInv(boot, schedule);
  }

  // ----- Losers ----------------------------------------------------------------

  /** How many of its own steps a flow off the executor CPU still needs. */
  function StepsToHalt(pc: Pc): nat {
    match pc
    case Publishing(_) => 1
    case EmergencyLoad => 1
    case EmergencyCas(_) => 2
    case _ => 0
  }

  ghost predicate LostTheEpisode(s: System, f: FlowId) {
    && f in s.flows && Decode(s.word).Published?
    && Decode(s.word).snapshot.executor != s.flows[f].cpu
    && (s.flows[f].pc.Publishing? || s.flows[f].pc.EmergencyLoad? || s.flows[f].pc.EmergencyCas?
        || s.flows[f].pc.Halted?)
  }

  function OwnSteps(f: FlowId, schedule: Schedule): nat
    decreases |schedule|
  {
    if schedule == [] then 0
    else (if schedule[0] == (f, Proceed) then 1 else 0) + OwnSteps(f, schedule[1..])
  }

  /** The loser's own step. */
  lemma LoserStep(s: System, f: FlowId)
    requires Inv(s) && LostTheEpisode(s, f)
    ensures LostTheEpisode(ProceedStep(s, f), f)
    ensures StepsToHalt(ProceedStep(s, f).flows[f].pc) <=
            if s.flows[f].pc.Halted? then 0 else StepsToHalt(s.flows[f].pc) - 1
  {
    assert FlowOk(s, f);
    match s.flows[f].pc
    case EmergencyCas(loaded) =>
      StaleLoad(s, loaded);
      EmergencyTargetContinues(s.flows[f].cpu, loaded);
    case Publishing(_) => DecodeEncode(EpisodeSnapshot(s.flows[f].cpu, s.flows[f].pc.intent, Orderly));
    case _ =>
  }

  /** A step of another flow leaves the loser a loser. */
  lemma LoserWaits(s: System, f: FlowId, g: FlowId, t: System)
    requires Inv(s) && LostTheEpisode(s, f) && g in s.flows && g != f && Frame(s, g, t)
    ensures LostTheEpisode(t, f) && t.flows[f] == s.flows[f]
  {
    EncodeDecode(s.word);
  }

  /** The loser's panics: each sends it into the emergency path once more. */
  function Panics(f: FlowId, schedule: Schedule): nat
    decreases |schedule|
  {
    if schedule == [] then 0
    else (if schedule[0] == (f, Panic) then 1 else 0) + Panics(f, schedule[1..])
  }

  lemma LoserAction(s: System, f: FlowId, g: FlowId, action: Action)
    requires Inv(s) && LostTheEpisode(s, f)
    ensures Inv(Step(s, g, action)) && LostTheEpisode(Step(s, g, action), f)
    ensures var before, after := StepsToHalt(s.flows[f].pc), StepsToHalt(Step(s, g, action).flows[f].pc);
            if s.flows[f].pc.Halted? then Step(s, g, action).flows[f].pc.Halted?
            else if g == f && action.Proceed? then after <= before - 1
            else if g == f && action.Panic? then after <= before + 1
            else after <= before
  {
    hide ProceedStep, Decode, Encode, Inv;
    StepKeepsInv(s, g, action);
    if g == f && action.Proceed? {
      LoserStep(s, f);
    } else if g in s.flows && g != f {
      LoserWaits(s, f, g, Step(s, g, action));
    }
  }

  /** Every caller off the executor CPU halts: two of its own steps are enough, and one
      more for every time it panics, whatever the other flows do in between. */
  lemma {:induction false} LosersHalt(s: System, f: FlowId, schedule: Schedule)
    requires Inv(s) && LostTheEpisode(s, f)
    requires s.flows[f].pc.Halted? || OwnSteps(f, schedule) >= StepsToHalt(s.flows[f].pc) + Panics(f, schedule)
    ensures f in Run(s, schedule).flows && Run(s, schedule).flows[f].pc.Halted?
    decreases |schedule|
  {
    hide Step, Inv, Decode;
    if schedule != [] {
      LoserAction(s, f, schedule[0].0, schedule[0].1);
      LosersHalt(Step(s, schedule[0].0, schedule[0].1), f, schedule[1..]);
    }
  }

  /** Every caller is covered: in every run a flow off the published executor's CPU is
      outside the protocol, inside a registration, or a loser. */
  lemma EveryCallerLoses(boot: System, schedule: Schedule, f: FlowId)
    requires Init(boot)
    ensures var s := Run(boot, schedule);
            (&& f in s.flows && Decode(s.word).Published? && !Executes(s, f)
             && !s.flows[f].pc.Ordinary? && !s.flows[f].pc.LockingList? && !s.flows[f].pc.Registering?) ==>
              LostTheEpisode(s, f)
  {
    hide Run, Decode;
    InitHasInv(boot);
    RunKeepsInv(boot, schedule);
    var s := Run(boot, schedule);
    assert f in s.flows ==> FlowOk(s, f);
  }

  lemma {:induction false} StepsAreCounted(f: FlowId, schedule: Schedule)
    ensures OwnSteps(f, schedule) == multiset(schedule)[(f, Proceed)]
    ensures Panics(f, schedule) == multiset(schedule)[(f, Panic)]
    decreases |schedule|
  {
    if schedule != [] {
      assert schedule == [schedule[0]] + schedule[1..];
      StepsAreCounted(f, schedule[1..]);
    }
  }

  /** From boot: once an episode is published, any caller off its CPU that gets two own steps,
      and one more for each of its panics, has halted. */
  lemma CallersHalt(boot: System, before: Schedule, after: Schedule, f: FlowId)
    requires Init(boot)
    ensures var s := Run(boot, before);
            (&& f in s.flows && Decode(s.word).Published? && !Executes(s, f)
             && !s.flows[f].pc.Ordinary? && !s.flows[f].pc.LockingList? && !s.flows[f].pc.Registering?
             && multiset(after)[(f, Proceed)] >= 2 + multiset(after)[(f, Panic)]) ==>
              f in Run(s, after).flows && Run(s, after).flows[f].pc == Halted
  {
    hide Run, Decode, Executes, Inv;
    var s := Run(boot, before);
    InitHasInv(boot);
    RunKeepsInv(boot, before);
    EveryCallerLoses(boot, before, f);
    StepsAreCounted(f, after);
    if LostTheEpisode(s, f) && OwnSteps(f, after) >= 2 + Panics(f, after) { LosersHalt(s, f, after); }
  }

  // ----- Loop bounds -----------------------------------------------------------

  /** Under any contention a call of either loop makes at most three iterations:
      every failed exchange means the episode advanced. */
  lemma LoopsTerminate(boot: System, schedule: Schedule, f: FlowId)
    requires Init(boot)
    ensures var s := Run(boot, schedule); f in s.flows ==> s.flows[f].loads <= 3
  {
    InitHasInv(boot);
    RunKeepsInv(boot, schedule);
    var s := Run(boot, schedule);
    assert f in s.flows ==> FlowOk(s, f);
  }

  ghost predicate OneFlowPerCpu(s: System) {
    forall f, g :: f in s.flows && g in s.flows && s.flows[f].cpu == s.flows[g].cpu ==> f == g
  }

  /** What one control flow per CPU adds: only the executor changes a published
      word, so its own stale reads are never stale. */
  ghost predicate SoloOk(s: System, f: FlowId)
    requires f in s.flows
  {
    var flow := s.flows[f];
    && flow.loads <= 2
    && match flow.pc
       case Plan(_, _) => Stage(s.word) == 1
       case EmergencyLoad => flow.loads <= 1
       case EmergencyCas(loaded) => if loaded == 0 then flow.loads <= 1 else loaded == s.word
       case MachineLoad => flow.loads == 0
       case MachineCas(loaded) => loaded == s.word && flow.loads == 1
       case TakingLock(_) => flow.loads == 1
       case Handlers(_, _) => flow.loads == 1
       case _ => true
  }

  ghost predicate SoloInv(s: System) {
    Inv(s) && OneFlowPerCpu(s) && forall f :: f in s.flows ==> SoloOk(s, f)
  }

  lemma SoloEmergencyStep(s: System, f: FlowId)
    requires SoloInv(s) && f in s.flows && (s.flows[f].pc.EmergencyLoad? || s.flows[f].pc.EmergencyCas?)
    ensures SoloOk(ProceedStep(s, f), f)
  {
    assert FlowOk(s, f) && SoloOk(s, f);
    assert s.word == s.history[|s.history| - 1];
    StaleLoad(s, s.word);
    if s.flows[f].pc.EmergencyCas? {
      StaleLoad(s, s.flows[f].pc.loaded);
      EmergencyTargetContinues(s.flows[f].cpu, s.flows[f].pc.loaded);
    }
  }

  lemma SoloMachineStep(s: System, f: FlowId)
    requires SoloInv(s) && f in s.flows && (s.flows[f].pc.MachineLoad? || s.flows[f].pc.MachineCas?)
    ensures SoloOk(ProceedStep(s, f), f)
  {
    assert FlowOk(s, f) && SoloOk(s, f);
    if s.flows[f].pc.MachineCas? {
      MachineTargetContinues(s.flows[f].pc.loaded);
    }
  }

  lemma SoloPublishStep(s: System, f: FlowId)
    requires SoloInv(s) && f in s.flows && s.flows[f].pc.Publishing?
    ensures SoloOk(ProceedStep(s, f), f)
  {
    assert FlowOk(s, f) && SoloOk(s, f);
    DecodeEncode(EpisodeSnapshot(s.flows[f].cpu, s.flows[f].pc.intent, Orderly));
  }

  lemma SoloPlanStep(s: System, f: FlowId)
    requires SoloInv(s) && f in s.flows && s.flows[f].pc.Plan?
    ensures SoloOk(ProceedStep(s, f), f)
  {
    assert SoloOk(s, f);
  }

  /** The stepping flow itself. */
  lemma SoloOwnStep(s: System, f: FlowId)
    requires SoloInv(s) && f in s.flows
    ensures SoloOk(ProceedStep(s, f), f)
  {
    var pc := s.flows[f].pc;
    if pc.MachineLoad? || pc.MachineCas? {
      SoloMachineStep(s, f);
    } else if pc.EmergencyLoad? || pc.EmergencyCas? {
      SoloEmergencyStep(s, f);
    } else if pc.Publishing? {
      SoloPublishStep(s, f);
    } else if pc.Plan? {
      SoloPlanStep(s, f);
    } else {
      assert SoloOk(s, f);
    }
  }

  /** Any other flow: the word cannot change under one that relies on it. */
  lemma SoloOtherStep(s: System, f: FlowId, t: System, g: FlowId)
    requires SoloInv(s) && f in s.flows && g in s.flows && g != f && Frame(s, f, t)
    ensures SoloOk(t, g)
  {
    assert FlowOk(s, g) && SoloOk(s, g);
    EncodeDecode(s.word);
    if s.word == 0 && s.flows[g].pc.EmergencyCas? {
      StaleLoad(s, s.flows[g].pc.loaded);
    }
  }

  lemma SoloFrame(s: System, f: FlowId, t: System)
    requires SoloInv(s) && f in s.flows && Frame(s, f, t) && Inv(t) && SoloOk(t, f)
    ensures SoloInv(t)
  {
    forall g | g in t.flows && g != f ensures SoloOk(t, g) { SoloOtherStep(s, f, t, g); }
  }

  lemma SoloOwnAction(s: System, f: FlowId, action: Action)
    requires SoloInv(s) && f in s.flows
    ensures SoloOk(Step(s, f, action), f)
  {
    hide ProceedStep, Decode, Encode;
    assert SoloOk(s, f);
    if action.Proceed? { SoloOwnStep(s, f); }
  }

  lemma SoloStep(s: System, f: FlowId, action: Action)
    requires SoloInv(s)
    ensures SoloInv(Step(s, f, action))
  {
    hide Step, SoloOk, FlowOk, HistoryOk, PlanOk, EntryOk, CallsOk, Decode;
    StepKeepsInv(s, f, action);
    if f in s.flows {
      SoloOwnAction(s, f, action);
      SoloFrame(s, f, Step(s, f, action));
    } else {
      NoSuchFlow(s, f, action);
    }
  }

  lemma NoSuchFlow(s: System, f: FlowId, action: Action)
    requires f !in s.flows
    ensures Step(s, f, action) == s
  {
  }

  lemma {:induction false} SoloRun(s: System, schedule: Schedule)
    requires SoloInv(s)
    ensures SoloInv(Run(s, schedule))
    decreases |schedule|
  {
    if schedule != [] {
      SoloStep(s, schedule[0].0, schedule[0].1);
      SoloRun(Step(s, schedule[0].0, schedule[0].1), schedule[1..]);
    }
  }

  /** With one control flow per CPU, `enter_emergency` makes at most two iterations
      and `enter_machine_action` at most one, and no plan step starts or completes
      once the episode has left its orderly phase. */
  lemma SoloBounds(boot: System, schedule: Schedule, f: FlowId)
    requires Init(boot) && OneFlowPerCpu(boot)
    ensures var s := Run(boot, schedule);
            f in s.flows ==>
              && s.flows[f].loads <= 2
              && (s.flows[f].pc.EmergencyLoad? ==> s.flows[f].loads <= 1)
              && (s.flows[f].pc.MachineLoad? ==> s.flows[f].loads == 0)
              && (s.flows[f].pc.MachineCas? || s.flows[f].pc.TakingLock? || s.flows[f].pc.Handlers? ==>
                    s.flows[f].loads == 1)
              && (s.flows[f].pc.Plan? ==> Stage(s.word) == 1)
  {
    InitHasInv(boot);
    SoloRun(boot, schedule);
    var s := Run(boot, schedule);
    assert f in s.flows ==> SoloOk(s, f);
  }

  lemma {:induction false} PlanFrozen(s: System, schedule: Schedule)
    requires SoloInv(s) && Stage(s.word) >= 2
    ensures Run(s, schedule).plan == s.plan
    decreases |schedule|
  {
    if schedule != [] {
      var (f, action) := schedule[0];
      StepKeepsInv(s, f, action);
      SoloStep(s, f, action);
      assert f in s.flows ==> SoloOk(s, f);
      PlanFrozen(Step(s, f, action), schedule[1..]);
    }
  }

  /** With one control flow per CPU the plan is over for good once the episode is in
      its emergency or machine-action phase. */
  lemma NoPlanStepAfterEmergency(boot: System, before: Schedule, after: Schedule)
    requires Init(boot) && OneFlowPerCpu(boot) && Stage(Run(boot, before).word) >= 2
    ensures Run(boot, before + after).plan == Run(boot, before).plan
  {
    InitHasInv(boot);
    SoloRun(boot, before);
    RunConcat(boot, before, after);
    PlanFrozen(Run(boot, before), after);
  }

  /** An orderly publication right after boot. */
  lemma PublishedFirst(boot: System, f: FlowId)
    requires Init(boot) && f in boot.flows
    ensures var s := Step(Step(boot, f, Request(PowerOff)), f, Proceed);
            var word := Encode(EpisodeSnapshot(boot.flows[f].cpu, PowerOff, Orderly));
            && word.Some? && s.word == word.value && s.plan == []
            && f in s.flows && s.flows == boot.flows[f := s.flows[f]] && s.flows[f].pc == Plan(0, false)
  {
    hide Decode, Encode;
    DecodeEncode(EpisodeSnapshot(boot.flows[f].cpu, PowerOff, Orderly));
  }

  /** A panic on the executor CPU, by another of its flows, turns it into an emergency. */
  lemma EmergencySecond(s: System, g: FlowId, orderly: EpisodeSnapshot)
    requires g in s.flows && !s.flows[g].pc.Halted? && orderly.phase == Orderly
    requires s.flows[g].cpu == orderly.executor && Encodable(orderly.executor) && Encode(orderly) == Some(s.word)
    ensures var t := Step(Step(Step(s, g, Panic), g, Proceed), g, Proceed);
            Stage(t.word) == 2 && t.plan == s.plan && g in t.flows && t.flows == s.flows[g := t.flows[g]]
  {
    hide Decode, Encode;
    DecodeEncode(orderly);
    DecodeEncode(orderly.(phase := Emergency));
  }

  /** A second flow on the executor CPU breaks this: it can turn the episode into an
      emergency while the first is still in its plan, which then goes on. */
  lemma SharedCpuRunsThePlanOn(boot: System, f: FlowId, g: FlowId)
    requires Init(boot) && f in boot.flows && g in boot.flows && f != g
    requires boot.flows[f].cpu == boot.flows[g].cpu
    ensures var before := [(f, Request(PowerOff)), (f, Proceed), (g, Panic), (g, Proceed), (g, Proceed)];
            && Stage(Run(boot, before).word) == 2
            && Run(boot, before + [(f, Proceed)]).plan == Run(boot, before).plan + [PlanEvent(f, 0, false)]
  {
    hide Decode, Encode, Stage, PanicStep, EmergencyLoadStep, EmergencyCasStep, PublishStep;
    var before := [(f, Request(PowerOff)), (f, Proceed), (g, Panic), (g, Proceed), (g, Proceed)];
    FiveSteps(boot, before[0], before[1], before[2], before[3], before[4]);
    PublishedFirst(boot, f);
    var s := Step(Step(boot, f, Request(PowerOff)), f, Proceed);
    EmergencySecond(s, g, EpisodeSnapshot(boot.flows[f].cpu, PowerOff, Orderly));
    RunConcat(boot, before, [(f, Proceed)]);
    OneStep(Run(boot, before), (f, Proceed));
  }

  lemma OneStep(s: System, a: (FlowId, Action))
    ensures Run(s, [a]) == Step(s, a.0, a.1)
  {
  }

  /** So the plan stops with the orderly phase in every run from a boot state exactly when
      that state has one control flow per CPU. */
  lemma PlanStopsIffOneFlowPerCpu(boot: System)
    requires Init(boot)
    ensures OneFlowPerCpu(boot) <==>
            forall before: Schedule, after: Schedule {:trigger Run(boot, before + after)} ::
              Stage(Run(boot, before).word) >= 2 ==> Run(boot, before + after).plan == Run(boot, before).plan
  {
    hide Stage, Run;
    if OneFlowPerCpu(boot) {
      forall before: Schedule, after: Schedule | Stage(Run(boot, before).word) >= 2
        ensures Run(boot, before + after).plan == Run(boot, before).plan
      {
        NoPlanStepAfterEmergency(boot, before, after);
      }
    } else {
      var f, g :| f in boot.flows && g in boot.flows && boot.flows[f].cpu == boot.flows[g].cpu && f != g;
      var before := [(f, Request(PowerOff)), (f, Proceed), (g, Panic), (g, Proceed), (g, Proceed)];
      SharedCpuRunsThePlanOn(boot, f, g);
      assert Run(boot, before + [(f, Proceed)]).plan != Run(boot, before).plan;
    }
  }

  lemma FiveSteps(s: System, a: (FlowId, Action), b: (FlowId, Action), c: (FlowId, Action), d: (FlowId, Action),
                  e: (FlowId, Action))
    ensures Run(s, [a, b, c, d, e]) ==
            Step(Step(Step(Step(Step(s, a.0, a.1), b.0, b.1), c.0, c.1), d.0, d.1), e.0, e.1)
  {
    hide Step;
    var s1 := Step(s, a.0, a.1);
    var s2 := Step(s1, b.0, b.1);
    var s3 := Step(s2, c.0, c.1);
    var s4 := Step(s3, d.0, d.1);
    assert [a, b, c, d, e][1..] == [b, c, d, e];
    assert [b, c, d, e][1..] == [c, d, e];
    assert [c, d, e][1..] == [d, e];
    assert [d, e][1..] == [e];
    assert Run(s4, [e]) == Step(s4, e.0, e.1);
    assert Run(s3, [d, e]) == Run(s4, [e]);
    assert Run(s2, [c, d, e]) == Run(s3, [d, e]);
  }
}
