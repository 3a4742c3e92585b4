/** The terminal episode gets done, or exactly why not: a flow that won it, and is neither
    stopped nor panics after the orderly phase, runs every handler of its list and halts,
    unless a flow that left a registration half way still holds that list. */
module EpisodeProgress {
  import opened EpisodeWord
  import opened Episode
  import opened EpisodeInvariant
  import opened EpisodeSafety

  // ----- The list locks ---------------------------------------------------------------------

  /** A flow that will not come back to the registration it was in. */
  predicate Gone(flow: Flow) {
    flow.panicked || flow.pc.Halted?
  }

  predicate InRegistration(flow: Flow, list: MachineIntent) {
    flow.pc.Registering? && flow.pc.target == list
  }

  /** A list is held by the machine action that entered it, by a flow inside a registration,
      or by a flow that left one half way. */
  ghost predicate HoldOk(s: System, list: MachineIntent)
    requires list in s.holders
  {
    match s.holders[list]
    case Executor(f) => s.entries != [] && s.entries[0].flow == f && s.entries[0].intent == list
    case Registrar(f) => f in s.flows && (InRegistration(s.flows[f], list) || Gone(s.flows[f]))
  }

  ghost predicate ListsOk(s: System) {
    && (forall list :: list in s.holders ==> HoldOk(s, list))
    && forall f :: f in s.flows && s.flows[f].pc.TakingLock? ==>
                     !Holds(s, s.flows[f].pc.intent, Executor(f))
  }

  lemma LockStepKeepsLists(s: System, f: FlowId)
    requires Inv(s) && ListsOk(s) && f in s.flows && s.flows[f].pc.TakingLock?
    ensures ListsOk(LockStep(s, f))
  {
    hide Decode;
    assert FlowOk(s, f);
    var t := LockStep(s, f);
    forall list | list in t.holders ensures HoldOk(t, list) {
      if list in s.holders { assert HoldOk(s, list); }
    }
    forall g | g in t.flows && t.flows[g].pc.TakingLock? ensures !Holds(t, t.flows[g].pc.intent, Executor(g)) {
      assert FlowOk(s, g);
    }
  }

  lemma LockListKeepsLists(s: System, f: FlowId)
    requires ListsOk(s) && f in s.flows && s.flows[f].pc.LockingList?
    ensures ListsOk(LockListStep(s, f))
  {
    var t := LockListStep(s, f);
    forall list | list in t.holders ensures HoldOk(t, list) {
      if list in s.holders { assert HoldOk(s, list); }
    }
  }

  lemma PushKeepsLists(s: System, f: FlowId)
    requires Inv(s) && ListsOk(s) && f in s.flows && s.flows[f].pc.Registering?
    ensures ListsOk(PushStep(s, f))
  {
    hide Decode;
    assert FlowOk(s, f);
    var t := PushStep(s, f);
    forall list | list in t.holders ensures HoldOk(t, list) { assert HoldOk(s, list); }
  }

  /** The three steps that lock, unlock or extend a list. */
  predicate TouchesLists(s: System, f: FlowId, action: Action)
    requires f in s.flows
  {
    action.Proceed? && (s.flows[f].pc.LockingList? || s.flows[f].pc.Registering? || s.flows[f].pc.TakingLock?)
  }

  /** What an own step that is not on a list leaves alone: the lists and their locks, a
      panic already taken; and the lock is only gone for by entering the machine action. */
  lemma ProceedMoves(s: System, f: FlowId)
    requires f in s.flows && !TouchesLists(s, f, Proceed)
    ensures var t := ProceedStep(s, f);
            && t.holders == s.holders && t.powerOff == s.powerOff && t.reboot == s.reboot
            && (s.flows[f].panicked ==> t.flows[f].panicked)
            && (s.flows[f].pc.Halted? ==> t.flows[f].pc.Halted?)
            && (t.flows[f].pc.TakingLock? ==> s.flows[f].pc.MachineCas?)
  {
    hide Decode, Encode;
    match s.flows[f].pc
    case Publishing(_) =>
    case Plan(_, _) =>
    case MachineLoad =>
    case MachineCas(_) =>
    case Handlers(_, _) =>
    case EmergencyLoad =>
    case EmergencyCas(_) =>
    case _ =>
  }

  /** The same of any action; a registration is only left by its push, a panic or a stop. */
  lemma Moves(s: System, f: FlowId, action: Action)
    requires f in s.flows && !TouchesLists(s, f, action)
    ensures var t := Step(s, f, action);
            && f in t.flows && t.holders == s.holders && t.powerOff == s.powerOff && t.reboot == s.reboot
            && (Gone(s.flows[f]) ==> Gone(t.flows[f]))
            && (s.flows[f].pc.Registering? ==> t.flows[f].pc == s.flows[f].pc || Gone(t.flows[f]))
            && (t.flows[f].pc.TakingLock? ==> t.flows[f].pc == s.flows[f].pc || s.flows[f].pc.MachineCas?)
  {
    hide ProceedStep;
    if action.Proceed? { ProceedMoves(s, f); }
  }

  lemma OtherStepKeepsLists(s: System, f: FlowId, action: Action)
    requires Inv(s) && ListsOk(s) && f in s.flows && !TouchesLists(s, f, action)
    ensures ListsOk(Step(s, f, action))
  {
    hide Decode, Step, FlowOk, HistoryOk, PlanOk, CallsOk;
    var t := Step(s, f, action);
    StepKeepsInv(s, f, action);
    Moves(s, f, action);
    forall list | list in t.holders ensures HoldOk(t, list) { assert HoldOk(s, list); }
    forall g | g in t.flows && t.flows[g].pc.TakingLock? ensures !Holds(t, t.flows[g].pc.intent, Executor(g)) {
      if g == f && t.flows[f].pc.intent in s.holders { assert HoldOk(s, t.flows[f].pc.intent); }
    }
  }

  lemma StepKeepsLists(s: System, f: FlowId, action: Action)
    requires Inv(s) && ListsOk(s)
    ensures ListsOk(Step(s, f, action))
  {
    hide Decode, Encode, Inv, ListsOk, LockStep, LockListStep, PushStep;
    if f in s.flows {
      if !TouchesLists(s, f, action) {
        OtherStepKeepsLists(s, f, action);
      } else if s.flows[f].pc.LockingList? {
        LockListKeepsLists(s, f);
      } else if s.flows[f].pc.Registering? {
        PushKeepsLists(s, f);
      } else {
        LockStepKeepsLists(s, f);
      }
    }
  }

  // ----- The course of the executor ---------------------------------------------------------

  ghost predicate SystemOk(s: System) {
    SoloInv(s) && ListsOk(s)
  }

  function Intent(s: System): MachineIntent
    requires Decode(s.word).Published?
  {
    Decode(s.word).snapshot.intent
  }

  /** The list of the published intent is held by a flow inside a registration, which can
      still give it back. */
  ghost predicate Busy(s: System) {
    && Decode(s.word).Published? && Intent(s) in s.holders && s.holders[Intent(s)].Registrar?
    && s.holders[Intent(s)].flow in s.flows && InRegistration(s.flows[s.holders[Intent(s)].flow], Intent(s))
  }

  /** It is held by a flow that panicked or was halted inside a registration. */
  ghost predicate Orphaned(s: System) {
    Decode(s.word).Published? && Intent(s) in s.holders && s.holders[Intent(s)].Registrar? && !Busy(s)
  }

  /** The flow won the episode and has the rest of it before it. */
  ghost predicate OnCourse(s: System, f: FlowId) {
    && f in s.flows && Executes(s, f)
    && match s.flows[f].pc
       case Plan(_, _) => true
       case MachineLoad => Stage(s.word) <= 2
       case MachineCas(_) => true
       case TakingLock(_) => true
       case Handlers(_, _) => true
       case EmergencyLoad => Stage(s.word) == 1
       case EmergencyCas(loaded) => Stage(s.word) == 1 && loaded == s.word
       case Diagnosing => Stage(s.word) == 2
       case _ => false
  }

  /** How many of its own steps are left, not counting one for every handler of the list. */
  ghost function StepsLeft(s: System, f: FlowId): int
    requires OnCourse(s, f)
  {
    match s.flows[f].pc
    case Plan(step, started) => 2 * (3 - step) - (if started then 1 else 0) + 5
    case EmergencyLoad => 7
    case EmergencyCas(_) => 6
    case Diagnosing => 5
    case MachineLoad => 4
    case MachineCas(_) => 3
    case TakingLock(_) => 2
    case Handlers(_, index) => 1 - index
    case _ => 0
  }

  /** Every handler of the list and the fallback were invoked, by this flow. */
  ghost predicate Complete(s: System, f: FlowId) {
    && f in s.flows && s.flows[f].pc.Halted?
    && s.entries != [] && s.entries[0].flow == f
    && |s.calls| == |s.List(s.entries[0].intent)| + 1
  }

  /** Done, or on course with at most `left` to go. */
  ghost predicate Within(s: System, f: FlowId, left: int) {
    Complete(s, f) || (OnCourse(s, f) && StepsLeft(s, f) <= left)
  }

  lemma PlanAdvances(s: System, f: FlowId)
    requires SystemOk(s) && OnCourse(s, f) && s.flows[f].pc.Plan?
    ensures Within(ProceedStep(s, f), f, StepsLeft(s, f) - 1)
  {
    assert FlowOk(s, f) && SoloOk(s, f);
  }

  lemma EmergencyLoadAdvances(s: System, f: FlowId)
    requires SystemOk(s) && OnCourse(s, f) && s.flows[f].pc.EmergencyLoad?
    ensures Within(ProceedStep(s, f), f, StepsLeft(s, f) - 1)
  {
  }

  lemma EmergencyCasAdvances(s: System, f: FlowId)
    requires SystemOk(s) && OnCourse(s, f) && s.flows[f].pc.EmergencyCas?
    ensures Within(ProceedStep(s, f), f, StepsLeft(s, f) - 1)
  {
    assert FlowOk(s, f);
    EmergencyTargetContinues(s.flows[f].cpu, s.word);
  }

  lemma DiagnoseAdvances(s: System, f: FlowId)
    requires SystemOk(s) && OnCourse(s, f) && s.flows[f].pc.Diagnosing?
    ensures Within(ProceedStep(s, f), f, StepsLeft(s, f) - 1)
  {
  }

  lemma MachineLoadAdvances(s: System, f: FlowId)
    requires SystemOk(s) && OnCourse(s, f) && s.flows[f].pc.MachineLoad?
    ensures Within(ProceedStep(s, f), f, StepsLeft(s, f) - 1)
  {
  }

  lemma MachineCasAdvances(s: System, f: FlowId)
    requires SystemOk(s) && OnCourse(s, f) && s.flows[f].pc.MachineCas?
    ensures Within(ProceedStep(s, f), f, StepsLeft(s, f) - 1)
  {
    assert FlowOk(s, f) && SoloOk(s, f);
    MachineTargetContinues(s.flows[f].pc.loaded);
  }

  /** Only here can the executor be kept waiting, and only by a registration. */
  lemma LockAdvances(s: System, f: FlowId)
    requires SystemOk(s) && OnCourse(s, f) && s.flows[f].pc.TakingLock? && !Orphaned(s)
    ensures Within(ProceedStep(s, f), f, if Busy(s) then StepsLeft(s, f) else StepsLeft(s, f) - 1)
  {
    hide Decode;
    assert FlowOk(s, f);
    var intent := s.flows[f].pc.intent;
    assert intent == Intent(s);
    if intent in s.holders { assert HoldOk(s, intent); }
  }

  lemma HandlerAdvances(s: System, f: FlowId)
    requires SystemOk(s) && OnCourse(s, f) && s.flows[f].pc.Handlers?
    ensures Within(ProceedStep(s, f), f, StepsLeft(s, f) - 1)
  {
    assert FlowOk(s, f);
  }

  /** An own step brings the executor nearer to the end, unless a registration has its list. */
  lemma OwnStepAdvances(s: System, f: FlowId)
    requires SystemOk(s) && OnCourse(s, f) && !Orphaned(s)
    ensures Within(ProceedStep(s, f), f, if Busy(s) then StepsLeft(s, f) else StepsLeft(s, f) - 1)
  {
    hide Decode, Encode, ProceedStep, SystemOk, Busy, Orphaned;
    match s.flows[f].pc
    case Plan(_, _) => PlanAdvances(s, f);
    case EmergencyLoad => EmergencyLoadAdvances(s, f);
    case EmergencyCas(_) => EmergencyCasAdvances(s, f);
    case MachineLoad => MachineLoadAdvances(s, f);
    case MachineCas(_) => MachineCasAdvances(s, f);
    case TakingLock(_) => LockAdvances(s, f);
    case Handlers(_, _) => HandlerAdvances(s, f);
    case Diagnosing => DiagnoseAdvances(s, f);
  }

  // ----- The others ---------------------------------------------------------------------------

  /** The list whose handlers are being run is not extended. */
  lemma RunningListFixed(s: System, g: FlowId, action: Action, list: MachineIntent)
    requires Inv(s) && g in s.flows && list in s.holders && s.holders[list].Executor?
    ensures Step(s, g, action).List(list) == s.List(list)
  {
    hide Decode, Encode;
    if TouchesLists(s, g, action) {
      assert FlowOk(s, g);
    } else {
      Moves(s, g, action);
    }
  }

  /** No step of another flow sets the executor back. */
  lemma OtherKeepsCourse(s: System, f: FlowId, g: FlowId, action: Action, left: int)
    requires SystemOk(s) && Within(s, f, left) && g in s.flows && g != f
    ensures Within(Step(s, g, action), f, left)
  {
    hide Encode, Decode, Step, HistoryOk, PlanOk;
    var t := Step(s, g, action);
    StepKeepsInv(s, g, action);
    assert FlowOk(s, g) && FlowOk(s, f);
    EncodeDecode(s.word);
    if Complete(s, f) { RunningListFixed(s, g, action, s.entries[0].intent); }
  }

  // ----- A list that is never given back --------------------------------------------------------

  lemma HoldIsKept(s: System, g: FlowId, action: Action, list: MachineIntent)
    requires Inv(s) && g in s.flows && list in s.holders && s.holders[list].Registrar?
    requires g == s.holders[list].flow ==> !InRegistration(s.flows[g], list)
    ensures Holds(Step(s, g, action), list, s.holders[list])
  {
    hide Decode, Encode;
    if TouchesLists(s, g, action) {
      assert FlowOk(s, g);
    } else {
      Moves(s, g, action);
    }
  }

  /** Who is gone does not come back into a registration. */
  lemma GoneForGood(s: System, g: FlowId, action: Action)
    requires Inv(s) && g in s.flows && Gone(s.flows[g])
    ensures g in Step(s, g, action).flows && !Step(s, g, action).flows[g].pc.Registering?
  {
    hide Decode, Encode;
    assert FlowOk(s, g);
    if TouchesLists(s, g, action) {
      assert s.flows[g].pc.TakingLock?;
    } else {
      Moves(s, g, action);
      StepKeepsInv(s, g, action);
      assert FlowOk(Step(s, g, action), g);
    }
  }

  lemma OrphanStays(s: System, g: FlowId, action: Action)
    requires Inv(s) && ListsOk(s) && Orphaned(s)
    ensures Orphaned(Step(s, g, action))
  {
    hide Decode, Encode, Step, FlowOk, HistoryOk, PlanOk, EntryOk, CallsOk;
    var list := Intent(s);
    var h := s.holders[list].flow;
    assert HoldOk(s, list);
    if g in s.flows {
      StepKeepsInv(s, g, action);
      EncodeDecode(s.word);
      HoldIsKept(s, g, action, list);
      if g == h { GoneForGood(s, g, action); }
    } else {
      NoSuchFlow(s, g, action);
    }
  }

  /** The executor of an orphaned list never completes, whatever happens from there on. */
  lemma {:induction false} OrphanNeverCompletes(s: System, f: FlowId, schedule: Schedule)
    requires Inv(s) && ListsOk(s) && Orphaned(s)
    ensures Orphaned(Run(s, schedule)) && !Complete(Run(s, schedule), f)
    decreases |schedule|
  {
    hide Step, Inv, ListsOk, Orphaned, Complete;
    if schedule == [] {
      NotBoth(s, f);
    } else {
      StepKeepsInv(s, schedule[0].0, schedule[0].1);
      StepKeepsLists(s, schedule[0].0, schedule[0].1);
      OrphanStays(s, schedule[0].0, schedule[0].1);
      OrphanNeverCompletes(Step(s, schedule[0].0, schedule[0].1), f, schedule[1..]);
    }
  }

  lemma NotBoth(s: System, f: FlowId)
    requires Inv(s)
    ensures !(Orphaned(s) && Complete(s, f))
  {
    hide Decode;
  }

  lemma SystemStep(s: System, g: FlowId, action: Action)
    requires SystemOk(s)
    ensures SystemOk(Step(s, g, action))
  {
    hide Step, ListsOk, Inv, SoloOk;
    SoloStep(s, g, action);
    StepKeepsLists(s, g, action);
  }

  // ----- Whole runs -----------------------------------------------------------------------------

  lemma OwnAction(s: System, f: FlowId, action: Action, left: int)
    requires SystemOk(s) && Within(s, f, left) && !action.Panic? && !action.Stop? && !Orphaned(s)
    ensures Within(Step(s, f, action), f, if action.Proceed? && !Busy(s) then left - 1 else left)
  {
    hide Decode, Encode, ProceedStep, Busy, Orphaned;
    if OnCourse(s, f) && action.Proceed? { OwnStepAdvances(s, f); }
  }

  lemma CourseStep(s: System, f: FlowId, g: FlowId, action: Action, left: int)
    requires SystemOk(s) && Within(s, f, left) && !Orphaned(s)
    requires g == f ==> !action.Panic? && !action.Stop?
    ensures Within(Step(s, g, action), f, if g == f && action.Proceed? && !Busy(s) then left - 1 else left)
  {
    hide Step, SystemOk, Within, Busy, Orphaned;
    if g == f {
      OwnAction(s, f, action, left);
    } else if g in s.flows {
      OtherKeepsCourse(s, f, g, action, left);
    } else {
      NoSuchFlow(s, g, action);
    }
  }

  /** The executor's own steps, leaving out those taken while a registration has its list. */
  ghost function FreeSteps(s: System, f: FlowId, schedule: Schedule): nat
    decreases |schedule|
  {
    if schedule == [] then 0
    else (if schedule[0] == (f, Proceed) && !Busy(s) then 1 else 0)
         + FreeSteps(Step(s, schedule[0].0, schedule[0].1), f, schedule[1..])
  }

  lemma {:induction false} CourseRun(s: System, f: FlowId, schedule: Schedule, left: int)
    requires SystemOk(s) && Within(s, f, left)
    requires (f, Panic) !in schedule && (f, Stop) !in schedule && !Orphaned(Run(s, schedule))
    ensures Within(Run(s, schedule), f, left - FreeSteps(s, f, schedule)) && SystemOk(Run(s, schedule))
    decreases |schedule|
  {
    hide Step, Inv, ListsOk, SoloOk, Within, Busy, Orphaned;
    if schedule != [] {
      var (g, action) := schedule[0];
      assert schedule[0] in schedule;
      if Orphaned(s) { OrphanNeverCompletes(s, f, schedule); }
      CourseStep(s, f, g, action, left);
      SystemStep(s, g, action);
      CourseRun(Step(s, g, action), f, schedule[1..],
                if g == f && action.Proceed? && !Busy(s) then left - 1 else left);
    }
  }

  /** With enough own steps the executor completes if and only if no flow that panicked or
      was halted inside a registration holds its list, whatever all the others do. */
  lemma CompletesIffNotOrphaned(s: System, f: FlowId, schedule: Schedule)
    requires SystemOk(s) && OnCourse(s, f) && (f, Panic) !in schedule && (f, Stop) !in schedule
    requires FreeSteps(s, f, schedule) >= StepsLeft(s, f) + |Run(s, schedule).List(Intent(s))|
    ensures Complete(Run(s, schedule), f) <==> !Orphaned(Run(s, schedule))
  {
    hide Run, Inv, ListsOk, SoloOk, Orphaned, Complete, Decode, StepsLeft;
    var t := Run(s, schedule);
    SystemRun(s, schedule);
    NotBoth(t, f);
    if !Orphaned(t) {
      CourseRun(s, f, schedule, StepsLeft(s, f));
      NothingLeft(t, f, StepsLeft(s, f) - FreeSteps(s, f, schedule), Intent(s));
    }
  }

  lemma {:induction false} SystemRun(s: System, schedule: Schedule)
    requires SystemOk(s)
    ensures SystemOk(Run(s, schedule))
    ensures Decode(s.word).Published? ==>
              Decode(Run(s, schedule).word).Published? && Intent(Run(s, schedule)) == Intent(s)
    decreases |schedule|
  {
    hide Step, Decode, ListsOk, SoloOk, FlowOk, HistoryOk, PlanOk, EntryOk, CallsOk;
    if schedule != [] {
      var (g, action) := schedule[0];
      StepKeepsInv(s, g, action);
      EncodeDecode(s.word);
      if g !in s.flows { NoSuchFlow(s, g, action); }
      SystemStep(s, g, action);
      SystemRun(Step(s, g, action), schedule[1..]);
    }
  }

  lemma NothingLeft(s: System, f: FlowId, left: int, intent: MachineIntent)
    requires SystemOk(s) && Within(s, f, left) && Decode(s.word).Published? && Intent(s) == intent
    requires left + |s.List(intent)| <= 0
    ensures Complete(s, f)
  {
    hide Decode;
    if OnCourse(s, f) { assert FlowOk(s, f); }
  }

  // ----- Completion stays possible ------------------------------------------------------------

  function Own(f: FlowId, n: nat): (r: Schedule)
    ensures |r| == n && forall i :: 0 <= i < n ==> r[i] == (f, Proceed)
  {
    seq(n, _ => (f, Proceed))
  }

  /** A step of the executor itself starts no registration and extends no list. */
  lemma OwnStepFrees(s: System, f: FlowId, left: int)
    requires SystemOk(s) && Within(s, f, left) && !Busy(s) && !Orphaned(s) && Decode(s.word).Published?
    ensures var t := Step(s, f, Proceed);
            && !Busy(t) && !Orphaned(t) && Decode(t.word).Published? && Intent(t) == Intent(s)
            && t.powerOff == s.powerOff && t.reboot == s.reboot
  {
    hide Decode, Encode, HistoryOk, PlanOk, EntryOk, CallsOk;
    assert FlowOk(s, f);
    StepKeepsInv(s, f, Proceed);
    EncodeDecode(s.word);
    if !TouchesLists(s, f, Proceed) { Moves(s, f, Proceed); }
  }

  lemma {:induction false} OwnRun(s: System, f: FlowId, n: nat, left: int)
    requires SystemOk(s) && Within(s, f, left) && !Busy(s) && !Orphaned(s) && Decode(s.word).Published?
    ensures FreeSteps(s, f, Own(f, n)) == n && !Orphaned(Run(s, Own(f, n)))
    ensures Run(s, Own(f, n)).List(Intent(s)) == s.List(Intent(s))
    decreases n
  {
    hide Step, Decode, SystemOk, Within, Busy, Orphaned;
    if n > 0 {
      OwnStepFrees(s, f, left);
      CourseStep(s, f, f, Proceed, left);
      SystemStep(s, f, Proceed);
      assert Own(f, n)[1..] == Own(f, n - 1);
      OwnRun(Step(s, f, Proceed), f, n - 1, left - 1);
    }
  }

  /** Left alone, the executor completes as soon as its list is free. */
  lemma FreeCompletes(s: System, f: FlowId)
    requires SystemOk(s) && OnCourse(s, f) && !Busy(s) && !Orphaned(s)
    ensures exists schedule :: Complete(Run(s, schedule), f)
  {
    hide Run, SystemOk, Busy, Orphaned, Decode, StepsLeft, Complete;
    var need := StepsLeft(s, f) + |s.List(Intent(s))|;
    var n := if need < 0 then 0 else need;
    OwnRun(s, f, n, StepsLeft(s, f));
    CompletesIffNotOrphaned(s, f, Own(f, n));
  }

  /** The flow inside a registration gives the list back with its next step. */
  lemma HolderFrees(s: System, f: FlowId)
    requires SystemOk(s) && OnCourse(s, f) && Busy(s)
    ensures var t := Step(s, s.holders[Intent(s)].flow, Proceed);
            SystemOk(t) && OnCourse(t, f) && !Busy(t) && !Orphaned(t)
  {
    hide Decode, Encode, HistoryOk, PlanOk, EntryOk, CallsOk, SoloOk, ListsOk;
    var h := s.holders[Intent(s)].flow;
    assert FlowOk(s, h);
    SystemStep(s, h, Proceed);
    OtherKeepsCourse(s, f, h, Proceed, StepsLeft(s, f));
    assert !Holds(PushStep(s, h), Intent(s), Registrar(h));
    NotCompleteYet(s, f, h);
  }

  lemma NotCompleteYet(s: System, f: FlowId, h: FlowId)
    requires Inv(s) && OnCourse(s, f) && h in s.flows && s.flows[h].pc.Registering? && h != f
    ensures Step(s, h, Proceed).flows[f] == s.flows[f] && Step(s, h, Proceed).word == s.word
    ensures !Complete(Step(s, h, Proceed), f)
  {
    hide Decode;
  }

  /** From every state in which the executor is on course, completion is still possible if
      and only if its list is not orphaned. */
  lemma CanCompleteIffNotOrphaned(s: System, f: FlowId)
    requires SystemOk(s) && OnCourse(s, f)
    ensures (exists schedule :: Complete(Run(s, schedule), f)) <==> !Orphaned(s)
  {
    hide Run, Busy, Orphaned, Decode, Complete, SoloOk, FlowOk, ListsOk, Step;
    if Orphaned(s) {
      forall schedule ensures !Complete(Run(s, schedule), f) { OrphanNeverCompletes(s, f, schedule); }
    } else if Busy(s) {
      HolderFirst(s, f);
    } else {
      FreeCompletes(s, f);
    }
  }

  lemma HolderFirst(s: System, f: FlowId)
    requires SystemOk(s) && OnCourse(s, f) && Busy(s)
    ensures exists schedule :: Complete(Run(s, schedule), f)
  {
    hide Run, Decode, Complete, SystemOk, Step, Orphaned;
    var h := s.holders[Intent(s)].flow;
    HolderFrees(s, f);
    var t := Step(s, h, Proceed);
    FreeCompletes(t, f);
    var rest :| Complete(Run(t, rest), f);
    OneStep(s, (h, Proceed));
    RunConcat(s, [(h, Proceed)], rest);
  }

  // ----- From boot ------------------------------------------------------------------------------

  lemma {:induction false} RunKeepsLists(s: System, schedule: Schedule)
    requires Inv(s) && ListsOk(s)
    ensures Inv(Run(s, schedule)) && ListsOk(Run(s, schedule))
    decreases |schedule|
  {
    hide Step, Inv, ListsOk;
    if schedule != [] {
      StepKeepsInv(s, schedule[0].0, schedule[0].1);
      StepKeepsLists(s, schedule[0].0, schedule[0].1);
      RunKeepsLists(Step(s, schedule[0].0, schedule[0].1), schedule[1..]);
    }
  }

  lemma BootIsOk(boot: System, schedule: Schedule)
    requires Init(boot) && OneFlowPerCpu(boot)
    ensures SystemOk(Run(boot, schedule))
  {
    hide Run;
    InitHasInv(boot);
    SoloRun(boot, schedule);
    RunKeepsLists(boot, schedule);
  }

  /** The first exchange on an empty word puts its flow on course, as the executor of the
      intent it asked for, or of an emergency power-off. */
  lemma FirstExchangeWins(s: System, f: FlowId)
    requires Inv(s) && s.word == 0 && f in s.flows
    requires s.flows[f].pc.Publishing? || s.flows[f].pc.EmergencyCas?
    ensures var t := ProceedStep(s, f);
            && OnCourse(t, f)
            && Decode(t.word) == Published(
                 if s.flows[f].pc.Publishing? then EpisodeSnapshot(s.flows[f].cpu, s.flows[f].pc.intent, Orderly)
                 else EpisodeSnapshot(s.flows[f].cpu, PowerOff, Emergency))
  {
    hide Encode;
    assert FlowOk(s, f);
    EncodeDecode(0);
    if s.flows[f].pc.Publishing? {
      DecodeEncode(EpisodeSnapshot(s.flows[f].cpu, s.flows[f].pc.intent, Orderly));
    } else {
      StaleLoad(s, s.flows[f].pc.loaded);
      DecodeEncode(EpisodeSnapshot(s.flows[f].cpu, PowerOff, Emergency));
    }
  }

  /** A panic of the executor in the orderly phase leaves it on course, now for the
      machine action without the rest of the plan. */
  lemma PanicKeepsCourse(s: System, f: FlowId)
    requires OnCourse(s, f) && Stage(s.word) == 1
    ensures OnCourse(PanicStep(s, f), f) && StepsLeft(PanicStep(s, f), f) == 7
  {
  }

  /** After the orderly phase a panic of the executor, as of anyone else, halts it. */
  lemma LatePanicHalts(s: System, f: FlowId)
    requires Inv(s) && f in s.flows && Stage(s.word) >= 2
    ensures ProceedStep(PanicStep(s, f), f).flows[f].pc == Halted
  {
  }

  /** In every run with one flow per CPU: from wherever the executor is on course, enough own
      steps outside other flows' registrations invoke every handler of its list and the
      fallback, if and only if no flow died inside a registration with that list locked. */
  lemma ShutdownCompletes(boot: System, before: Schedule, after: Schedule, f: FlowId)
    requires Init(boot) && OneFlowPerCpu(boot) && OnCourse(Run(boot, before), f)
    requires (f, Panic) !in after && (f, Stop) !in after
    requires FreeSteps(Run(boot, before), f, after) >=
             StepsLeft(Run(boot, before), f) + |Run(boot, before + after).List(Intent(Run(boot, before)))|
    ensures Complete(Run(boot, before + after), f) <==> !Orphaned(Run(boot, before + after))
  {
    hide Run, SystemOk, Orphaned, Complete, Decode, StepsLeft;
    BootIsOk(boot, before);
    RunConcat(boot, before, after);
    CompletesIffNotOrphaned(Run(boot, before), f, after);
  }

  // ----- The deadlock -----------------------------------------------------------------------------

  /** A registration that has just locked its list. */
  lemma ListLocked(boot: System, f: FlowId, handler: Handler)
    requires Init(boot) && f in boot.flows
    ensures var s := Step(Step(boot, f, Register(PowerOff, handler)), f, Proceed);
            && s.word == 0 && Holds(s, PowerOff, Registrar(f)) && f in s.flows
            && s.flows[f] == boot.flows[f].(pc := Registering(PowerOff, handler))
  {
    hide Decode, Encode;
  }

  /** A panic before anything is published makes its flow the emergency executor. */
  lemma EmergencyFirst(s: System, f: FlowId)
    requires f in s.flows && s.word == 0 && !s.flows[f].pc.Halted? && Encodable(s.flows[f].cpu)
    ensures var t := Step(Step(Step(s, f, Panic), f, Proceed), f, Proceed);
            && OnCourse(t, f) && Intent(t) == PowerOff && t.holders == s.holders
            && t.flows[f].pc.Diagnosing?
  {
    hide Encode;
    DecodeEncode(EpisodeSnapshot(s.flows[f].cpu, PowerOff, Emergency));
  }

  /** From every boot state: a flow that panics inside its registration of a power-off
      handler becomes the executor, and then waits for ever for the lock it holds itself. */
  lemma RegistrationPanicDeadlocks(boot: System, f: FlowId, handler: Handler, after: Schedule)
    requires Init(boot) && f in boot.flows
    ensures var before := [(f, Register(PowerOff, handler)), (f, Proceed), (f, Panic), (f, Proceed), (f, Proceed)];
            && OnCourse(Run(boot, before), f) && Orphaned(Run(boot, before))
            && !Complete(Run(boot, before + after), f)
  {
    hide Decode, Encode, Stage, Step, Complete;
    var before := [(f, Register(PowerOff, handler)), (f, Proceed), (f, Panic), (f, Proceed), (f, Proceed)];
    FiveSteps(boot, before[0], before[1], before[2], before[3], before[4]);
    ListLocked(boot, f, handler);
    EmergencyFirst(Step(Step(boot, f, Register(PowerOff, handler)), f, Proceed), f);
    InitHasInv(boot);
    RunKeepsLists(boot, before);
    RunConcat(boot, before, after);
    OrphanNeverCompletes(Run(boot, before), f, after);
  }

  // ----- What was asked for -----------------------------------------------------------------------

  /** Where a flow is, the schedule sent it: the intent it publishes and the handler it
      registers are the ones it was called with. */
  ghost predicate Asked(past: Schedule, f: FlowId, pc: Pc) {
    match pc
    case Publishing(intent) => (f, Request(intent)) in past
    case LockingList(target, handler) => (f, Register(target, handler)) in past
    case Registering(target, handler) => (f, Register(target, handler)) in past
    case _ => true
  }

  lemma ProceedAsks(s: System, f: FlowId, past: Schedule)
    requires f in s.flows && Asked(past, f, s.flows[f].pc)
    ensures Asked(past, f, ProceedStep(s, f).flows[f].pc)
  {
    hide Decode, Encode;
    match s.flows[f].pc
    case LockingList(_, _) =>
    case Publishing(_) =>
    case Plan(_, _) =>
    case MachineLoad =>
    case MachineCas(_) =>
    case Handlers(_, _) =>
    case EmergencyLoad =>
    case EmergencyCas(_) =>
    case _ =>
  }

  lemma StepAsks(s: System, f: FlowId, action: Action, past: Schedule)
    requires f in s.flows && Asked(past, f, s.flows[f].pc)
    ensures f in Step(s, f, action).flows && Asked(past + [(f, action)], f, Step(s, f, action).flows[f].pc)
  {
    hide ProceedStep;
    ProceedAsks(s, f, past);
    assert (f, action) in past + [(f, action)];
    assert forall x :: x in past ==> x in past + [(f, action)];
  }

  /** The first word of an episode: an orderly one of the intent that a flow on the executor
      CPU was asked for, or an emergency power-off. */
  ghost predicate FirstAsked(s: System, past: Schedule) {
    |s.history| >= 2 ==>
      && Decode(s.history[1]).Published?
      && var first := Decode(s.history[1]).snapshot;
         if first.phase == Orderly
         then exists f :: f in s.flows && s.flows[f].cpu == first.executor && (f, Request(first.intent)) in past
         else first.phase == Emergency && first.intent == PowerOff
  }

  ghost predicate AllAsked(s: System, past: Schedule) {
    && FirstAsked(s, past)
    && forall f :: f in s.flows ==> Asked(past, f, s.flows[f].pc)
  }

  lemma OnlyExchangesPublish(s: System, f: FlowId, action: Action)
    requires Inv(s) && s.word == 0 && f in s.flows && Step(s, f, action).word != 0
    ensures action.Proceed? && (s.flows[f].pc.Publishing? || s.flows[f].pc.EmergencyCas?)
  {
    hide Encode, Decode;
    assert FlowOk(s, f);
    EncodeDecode(0);
    if action.Proceed? {
      match s.flows[f].pc
      case MachineCas(loaded) =>
      case _ =>
    }
  }

  lemma FirstIsAsked(s: System, f: FlowId, action: Action, past: Schedule)
    requires Inv(s) && AllAsked(s, past) && f in s.flows
    ensures FirstAsked(Step(s, f, action), past + [(f, action)])
  {
    hide Encode, Decode, Step, FlowOk, PlanOk, EntryOk, CallsOk;
    var t, now := Step(s, f, action), past + [(f, action)];
    assert forall x :: x in past ==> x in now;
    StepKeepsInv(s, f, action);
    EncodeDecode(0);
    if t.word != s.word && s.word == 0 {
      OnlyExchangesPublish(s, f, action);
      StepIsProceed(s, f);
      FirstExchangeWins(s, f);
      assert t.history == [0, t.word];
    } else {
      assert |s.history| >= 2 ==> t.history[1] == s.history[1];
      assert t.word != s.word ==> |s.history| >= 2;
    }
  }

  lemma StepIsProceed(s: System, f: FlowId)
    requires f in s.flows && !s.flows[f].pc.Halted?
    ensures Step(s, f, Proceed) == ProceedStep(s, f)
  {
  }

  lemma AllAskedStep(s: System, f: FlowId, action: Action, past: Schedule)
    requires Inv(s) && AllAsked(s, past)
    ensures AllAsked(Step(s, f, action), past + [(f, action)])
  {
    hide Step, Asked, FirstAsked, Decode, FlowOk, HistoryOk, PlanOk, EntryOk, CallsOk;
    var t, now := Step(s, f, action), past + [(f, action)];
    if f in s.flows {
      StepKeepsInv(s, f, action);
      StepAsks(s, f, action, past);
      FirstIsAsked(s, f, action, past);
      forall g | g in t.flows && g != f ensures Asked(now, g, t.flows[g].pc) {
        MoreAsked(past, (f, action), g, s.flows[g].pc);
      }
    } else {
      NoSuchFlow(s, f, action);
      MoreFirstAsked(s, past, (f, action));
      forall g | g in t.flows ensures Asked(now, g, t.flows[g].pc) { MoreAsked(past, (f, action), g, s.flows[g].pc); }
    }
  }

  lemma MoreAsked(past: Schedule, step: (FlowId, Action), f: FlowId, pc: Pc)
    requires Asked(past, f, pc)
    ensures Asked(past + [step], f, pc)
  {
  }

  lemma MoreFirstAsked(s: System, past: Schedule, step: (FlowId, Action))
    requires FirstAsked(s, past)
    ensures FirstAsked(s, past + [step])
  {
    hide Decode;
    assert forall x :: x in past ==> x in past + [step];
  }

  lemma {:induction false} AllAskedRun(s: System, past: Schedule, schedule: Schedule)
    requires Inv(s) && AllAsked(s, past)
    ensures AllAsked(Run(s, schedule), past + schedule)
    decreases |schedule|
  {
    hide Step, AllAsked, Inv;
    if schedule == [] {
      assert past + schedule == past;
    } else {
      var (f, action) := schedule[0];
      StepKeepsInv(s, f, action);
      AllAskedStep(s, f, action, past);
      AllAskedRun(Step(s, f, action), past + [(f, action)], schedule[1..]);
      assert past + [(f, action)] + schedule[1..] == past + schedule;
    }
  }

  /** In every run the published intent is the one that a flow on the executor CPU was asked
      for, unless the episode began as an emergency, which powers off. */
  lemma PublishedAsAsked(boot: System, schedule: Schedule)
    requires Init(boot)
    ensures FirstAsked(Run(boot, schedule), schedule)
  {
    InitHasInv(boot);
    AllAskedRun(boot, [], schedule);
    assert [] + schedule == schedule;
  }

  /** A registration that finds its list free adds its handler at the end of that list,
      leaves the other one alone and gives the lock back. */
  lemma RegistrationAlone(s: System, f: FlowId, target: MachineIntent, handler: Handler)
    requires f in s.flows && s.flows[f].pc.Ordinary? && target !in s.holders
    ensures var t := Step(Step(Step(s, f, Register(target, handler)), f, Proceed), f, Proceed);
            && t.List(target) == s.List(target) + [handler]
            && (forall other :: other != target ==> t.List(other) == s.List(other))
            && t.holders == s.holders && t.flows == s.flows && t.word == s.word
  {
    hide Decode, Encode;
    var s1 := Step(s, f, Register(target, handler));
    var s2 := Step(s1, f, Proceed);
    assert s2.flows[f].pc == Registering(target, handler) && s2.holders == s.holders[target := Registrar(f)];
    var t := Step(s2, f, Proceed);
    assert t.flows[f] == s.flows[f];
  }

  /** A stop request halts its flow for good. */
  lemma {:induction false} StoppedForGood(s: System, f: FlowId, schedule: Schedule)
    requires f in s.flows
    ensures f in Run(Step(s, f, Stop), schedule).flows && Run(Step(s, f, Stop), schedule).flows[f].pc == Halted
  {
    HaltedForGood(Step(s, f, Stop), f, schedule);
  }

  lemma {:induction false} HaltedForGood(s: System, f: FlowId, schedule: Schedule)
    requires f in s.flows && s.flows[f].pc == Halted
    ensures f in Run(s, schedule).flows && Run(s, schedule).flows[f].pc == Halted
    decreases |schedule|
  {
    hide ProceedStep;
    if schedule != [] { HaltedForGood(Step(s, schedule[0].0, schedule[0].1), f, schedule[1..]); }
  }
}
