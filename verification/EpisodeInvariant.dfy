/** What every step of the terminal episode keeps. */
module EpisodeInvariant {
  import opened Bytes
  import opened EpisodeWord
  import opened Episode

  /** 0 before publication, then 1, 2, 3 with the phase. */
  function Stage(word: Word): nat {
    match Decode(word)
    case Published(snapshot) => (
      match snapshot.phase
      case Orderly => 1
      case Emergency => 2
      case MachineAction => 3)
    case _ => 0
  }

  /** `later` is a published word that continues the episode of `earlier`. */
  predicate Continues(earlier: Word, later: Word) {
    && Decode(later).Published?
    && Stage(earlier) < Stage(later)
    && (earlier == 0 ||
        (&& Decode(earlier).Published?
         && Decode(earlier).snapshot.executor == Decode(later).snapshot.executor
         && Decode(earlier).snapshot.intent == Decode(later).snapshot.intent))
  }

  ghost predicate HistoryOk(s: System) {
    && s.history != [] && s.history[0] == 0 && s.history[|s.history| - 1] == s.word
    && (forall i, j :: 0 <= i < j < |s.history| ==> Continues(s.history[i], s.history[j]))
    && |s.history| <= 1 + Stage(s.word)
  }

  /** The flow sits on the CPU that the word names as executor. */
  ghost predicate Executes(s: System, f: FlowId)
    requires f in s.flows
  {
    Decode(s.word).Published? && Decode(s.word).snapshot.executor == s.flows[f].cpu
  }

  ghost predicate PlanOk(s: System) {
    && (s.winner.Some? ==> s.winner.value in s.flows && Executes(s, s.winner.value))
    && (s.plan != [] ==> s.winner.Some?)
    && |s.plan| <= 2 * |ORDERLY_PLAN|
    && forall i :: 0 <= i < |s.plan| ==> s.plan[i] == PlanEvent(s.winner.value, i / 2, i % 2 == 1)
  }

  ghost predicate EntryOk(s: System) {
    && |s.entries| == (if Stage(s.word) == 3 then 1 else 0)
    && (s.entries != [] ==>
          && s.entries[0].flow in s.flows && Executes(s, s.entries[0].flow)
          && s.entries[0].intent == Decode(s.word).snapshot.intent
          && (!s.entries[0].panicked ==> PlanFinished(s, s.entries[0].flow)))
  }

  ghost predicate PlanFinished(s: System, f: FlowId) {
    s.winner == Some(f) && |s.plan| == 2 * |ORDERLY_PLAN|
  }

  function Invocation(list: seq<Handler>, index: nat): Invoked {
    if index < |list| then Registered(list[index]) else Fallback
  }

  predicate Holds(s: System, list: MachineIntent, holder: Holder) {
    list in s.holders && s.holders[list] == holder
  }

  ghost predicate CallsOk(s: System) {
    && (s.calls != [] ==> s.entries != [] && Holds(s, s.entries[0].intent, Executor(s.entries[0].flow)))
    && (s.entries != [] ==>
          && |s.calls| <= |s.List(s.entries[0].intent)| + 1
          && forall i :: 0 <= i < |s.calls| ==>
               s.calls[i] == Call(s.entries[0].flow, s.entries[0].intent,
                                  Invocation(s.List(s.entries[0].intent), i)))
  }

  ghost predicate FlowOk(s: System, f: FlowId)
    requires f in s.flows
  {
    var flow := s.flows[f];
    && Encodable(flow.cpu)
    && flow.loads <= 3
    && match flow.pc
       case Ordinary => !flow.panicked
       case LockingList(_, _) => !flow.panicked
       case Registering(target, _) => !flow.panicked && Holds(s, target, Registrar(f))
       case Publishing(_) => !flow.panicked
       case Plan(step, started) =>
         && s.winner == Some(f) && !flow.panicked
         && |s.plan| == 2 * step + (if started then 1 else 0)
         && (step == |ORDERLY_PLAN| ==> !started)
       case MachineLoad =>
         && Executes(s, f) && (!flow.panicked ==> PlanFinished(s, f))
         && flow.loads + 1 <= Stage(s.word)
       case MachineCas(loaded) =>
         && Executes(s, f) && (!flow.panicked ==> PlanFinished(s, f))
         && loaded in s.history && flow.loads <= Stage(loaded) && 1 <= Stage(loaded) <= 2
       case TakingLock(intent) =>
         && s.entries == [Entry(f, intent, flow.panicked)] && s.calls == []
       case Handlers(intent, index) =>
         && s.entries == [Entry(f, intent, flow.panicked)] && |s.calls| == index
         && Holds(s, intent, Executor(f)) && index <= |s.List(intent)|
       case EmergencyLoad => flow.panicked && flow.loads <= 2 && flow.loads <= Stage(s.word)
       case EmergencyCas(loaded) =>
         && flow.panicked && loaded in s.history && flow.loads <= Stage(loaded) + 1 <= 2
         && (loaded != 0 ==> Executes(s, f))
       case Diagnosing => Executes(s, f) && Stage(s.word) >= 2 && flow.panicked
       case _ => true
  }

  ghost predicate Inv(s: System) {
    && HistoryOk(s) && PlanOk(s) && EntryOk(s) && CallsOk(s)
    && forall f :: f in s.flows ==> FlowOk(s, f)
  }

  /** What a step of flow `f` may change: of the flows itself alone, and not its CPU;
      the word only by an exchange that continues the episode, once it is published
      only from the executor CPU; the records only from the code they record. */
  ghost predicate Frame(s: System, f: FlowId, t: System)
    requires f in s.flows
  {
    && f in t.flows && t.flows == s.flows[f := t.flows[f]] && t.flows[f].cpu == s.flows[f].cpu
    && (if t.word == s.word then t.history == s.history && t.winner == s.winner && t.entries == s.entries
        else
          && t.history == s.history + [t.word] && Continues(s.word, t.word) && s.entries == []
          && (s.word != 0 ==> Executes(s, f) && t.winner == s.winner))
    && (t.calls == s.calls || s.flows[f].pc.Handlers?) && (t.plan == s.plan || s.flows[f].pc.Plan?)
    && (t.word == s.word && (t.flows[f].pc.TakingLock? || t.flows[f].pc.Handlers?) ==>
          s.flows[f].pc.TakingLock? || s.flows[f].pc.Handlers?)
  }

  /** A new word continues every word the episode has held. */
  lemma ExchangeHistory(s: System, t: System)
    requires HistoryOk(s) && Continues(s.word, t.word) && t.history == s.history + [t.word]
    ensures HistoryOk(t)
  {
    forall i, j | 0 <= i < j < |t.history| ensures Continues(t.history[i], t.history[j]) {
      if j == |s.history| && i < |s.history| - 1 {
        assert Continues(s.history[i], s.history[|s.history| - 1]);
      }
    }
  }

  /** An exchange by one flow keeps what holds of every other flow. */
  lemma OthersSurviveExchange(s: System, t: System, g: FlowId)
    requires Inv(s) && g in s.flows && g in t.flows && t.flows[g] == s.flows[g]
    requires Continues(s.word, t.word) && t.history == s.history + [t.word]
    requires s.word == 0 || t.winner == s.winner
    requires t.plan == s.plan && t.holders == s.holders
    ensures FlowOk(t, g)
  {
    assert FlowOk(s, g);
    EncodeDecode(s.word);
    assert s.entries == [];
    assert forall w :: w in s.history ==> w in t.history;
  }

  /** A successful exchange keeps the invariant if the exchanging flow is sound after it. */
  lemma ExchangeKeepsInv(s: System, f: FlowId, t: System)
    requires Inv(s) && f in s.flows && t.flows.Keys == s.flows.Keys
    requires Continues(s.word, t.word) && t.history == s.history + [t.word]
    requires forall g :: g in s.flows && g != f ==> t.flows[g] == s.flows[g]
    requires t.flows[f].cpu == s.flows[f].cpu
    requires if s.word == 0 then t.winner == None || (t.winner == Some(f) && Executes(t, f)) else t.winner == s.winner
    requires t.plan == s.plan && t.calls == s.calls && t.holders == s.holders
    requires FlowOk(t, f) && EntryOk(t)
    ensures Inv(t)
  {
    ExchangeHistory(s, t);
    EncodeDecode(s.word);
    forall g | g in t.flows ensures FlowOk(t, g) {
      if g != f { OthersSurviveExchange(s, t, g); }
    }
  }

  /** A flow stays sound as long as the step left alone what it relies on. */
  lemma FlowFrame(s: System, t: System, g: FlowId)
    requires g in s.flows && g in t.flows && t.flows[g] == s.flows[g] && FlowOk(s, g)
    requires t.word == s.word && t.history == s.history && t.winner == s.winner && t.entries == s.entries
    requires t.plan == s.plan || s.winner != Some(g)
    requires t.calls == s.calls || (!s.flows[g].pc.TakingLock? && !s.flows[g].pc.Handlers?)
    requires forall list :: list in s.holders && s.holders[list].flow == g ==> Holds(t, list, s.holders[list])
    requires forall list :: list in s.holders && s.holders[list].Executor? ==> t.List(list) == s.List(list)
    ensures FlowOk(t, g)
  {
  }

  /** A step that only moves one flow keeps the invariant if that flow is sound after it. */
  lemma MoveKeepsInv(s: System, f: FlowId, t: System)
    requires Inv(s) && f in s.flows && f in t.flows && t == s.(flows := s.flows[f := t.flows[f]])
    requires t.flows[f].cpu == s.flows[f].cpu && FlowOk(t, f)
    ensures Inv(t)
  {
    hide Decode;
    forall g | g in t.flows ensures FlowOk(t, g) {
      if g != f { FlowFrame(s, t, g); }
    }
  }

  lemma PublishKeepsInv(s: System, f: FlowId)
    requires Inv(s) && f in s.flows && s.flows[f].pc.Publishing?
    ensures Inv(PublishStep(s, f)) && Frame(s, f, PublishStep(s, f))
  {
    assert FlowOk(s, f);
    DecodeEncode(EpisodeSnapshot(s.flows[f].cpu, s.flows[f].pc.intent, Orderly));
    if s.word == 0 {
      ExchangeKeepsInv(s, f, PublishStep(s, f));
    } else {
      MoveKeepsInv(s, f, PublishStep(s, f));
    }
  }

  lemma PlanKeepsInv(s: System, f: FlowId)
    requires Inv(s) && f in s.flows && s.flows[f].pc.Plan?
    ensures Inv(PlanStep(s, f)) && Frame(s, f, PlanStep(s, f))
  {
    assert FlowOk(s, f);
    var t := PlanStep(s, f);
    if s.flows[f].pc.step >= |ORDERLY_PLAN| {
      MoveKeepsInv(s, f, t);
    } else {
      forall g | g in t.flows ensures FlowOk(t, g) {
        if g != f { FlowFrame(s, t, g); }
      }
    }
  }

  lemma EmergencyLoadKeepsInv(s: System, f: FlowId)
    requires Inv(s) && f in s.flows && s.flows[f].pc.EmergencyLoad?
    ensures Inv(EmergencyLoadStep(s, f)) && Frame(s, f, EmergencyLoadStep(s, f))
  {
    assert FlowOk(s, f);
    assert s.history[|s.history| - 1] == s.word;
    StaleLoad(s, s.word);
    MoveKeepsInv(s, f, EmergencyLoadStep(s, f));
  }

  /** A word read earlier is the current one or the episode has moved on from it. */
  lemma StaleLoad(s: System, loaded: Word)
    requires HistoryOk(s) && loaded in s.history
    ensures loaded == s.word || Continues(loaded, s.word)
    ensures loaded == 0 || Decode(loaded).Published?
  {
    var i :| 0 <= i < |s.history| && s.history[i] == loaded;
    assert 0 < i ==> Continues(s.history[0], loaded);
  }

  lemma EmergencyTargetContinues(cpu: CpuId, loaded: Word)
    requires Encodable(cpu) && Stage(loaded) <= 1 && (loaded == 0 || Decode(loaded).Published?)
    ensures EmergencyTarget(cpu, loaded).Some?
    ensures Continues(loaded, EmergencyTarget(cpu, loaded).value)
    ensures Stage(EmergencyTarget(cpu, loaded).value) == 2
    ensures loaded == 0 ==> Decode(EmergencyTarget(cpu, loaded).value).snapshot.executor == cpu
  {
    EncodeDecode(loaded);
    if loaded == 0 {
      DecodeEncode(EpisodeSnapshot(cpu, PowerOff, Emergency));
    } else {
      DecodeEncode(Decode(loaded).snapshot.(phase := Emergency));
    }
  }

  lemma NoWinnerYet(s: System)
    requires Inv(s) && s.word == 0
    ensures s.winner == None && Stage(s.word) == 0
  {
    EncodeDecode(0);
  }

  lemma EmergencyCasKeepsInv(s: System, f: FlowId)
    requires Inv(s) && f in s.flows && s.flows[f].pc.EmergencyCas?
    ensures Inv(EmergencyCasStep(s, f)) && Frame(s, f, EmergencyCasStep(s, f))
  {
    hide Decode, Encode, PlanOk, CallsOk;
    if s.word == 0 { NoWinnerYet(s); }
    assert FlowOk(s, f);
    var loaded := s.flows[f].pc.loaded;
    StaleLoad(s, loaded);
    EmergencyTargetContinues(s.flows[f].cpu, loaded);
    if s.word == loaded {
      ExchangeKeepsInv(s, f, EmergencyCasStep(s, f));
    } else {
      MoveKeepsInv(s, f, EmergencyCasStep(s, f));
    }
  }

  lemma MachineLoadKeepsInv(s: System, f: FlowId)
    requires Inv(s) && f in s.flows && s.flows[f].pc.MachineLoad?
    ensures Inv(MachineLoadStep(s, f)) && Frame(s, f, MachineLoadStep(s, f))
  {
    assert FlowOk(s, f);
    assert s.history[|s.history| - 1] == s.word;
    MoveKeepsInv(s, f, MachineLoadStep(s, f));
  }

  lemma MachineTargetContinues(loaded: Word)
    requires 1 <= Stage(loaded) <= 2
    ensures var target := Encode(Decode(loaded).snapshot.(phase := MachineAction));
            target.Some? && Continues(loaded, target.value) && Stage(target.value) == 3
  {
    EncodeDecode(loaded);
    DecodeEncode(Decode(loaded).snapshot.(phase := MachineAction));
  }

  lemma MachineCasKeepsInv(s: System, f: FlowId)
    requires Inv(s) && f in s.flows && s.flows[f].pc.MachineCas?
    ensures Inv(MachineCasStep(s, f)) && Frame(s, f, MachineCasStep(s, f))
  {
    hide Decode, Encode, PlanOk;
    if s.word == 0 { NoWinnerYet(s); }
    assert FlowOk(s, f);
    var loaded := s.flows[f].pc.loaded;
    StaleLoad(s, loaded);
    MachineTargetContinues(loaded);
    if s.word == loaded {
      ExchangeKeepsInv(s, f, MachineCasStep(s, f));
    } else {
      MoveKeepsInv(s, f, MachineCasStep(s, f));
    }
  }

  /** The flow that holds the machine action is alone in it, so the others do not
      notice its locking and its calls. */
  lemma OthersOffTheList(s: System, f: FlowId, t: System, g: FlowId)
    requires Inv(s) && f in s.flows && g in s.flows && f != g
    requires s.entries != [] && s.entries[0].flow == f
    requires t == s.(flows := t.flows, holders := t.holders, calls := t.calls)
    requires forall list :: list in s.holders ==> Holds(t, list, s.holders[list])
    requires g in t.flows && t.flows[g] == s.flows[g]
    ensures FlowOk(t, g)
  {
    assert FlowOk(s, g);
  }

  lemma LockKeepsInv(s: System, f: FlowId)
    requires Inv(s) && f in s.flows && s.flows[f].pc.TakingLock?
    ensures Inv(LockStep(s, f)) && Frame(s, f, LockStep(s, f))
  {
    hide Decode, HistoryOk, PlanOk, EntryOk, CallsOk;
    assert FlowOk(s, f);
    ListsKeepInv(s, f, LockStep(s, f));
  }

  lemma HandlerKeepsCalls(s: System, f: FlowId)
    requires Inv(s) && f in s.flows && s.flows[f].pc.Handlers?
    ensures CallsOk(HandlerStep(s, f))
  {
    assert FlowOk(s, f);
    var Handlers(intent, index) := s.flows[f].pc;
    var t := HandlerStep(s, f);
    assert t.calls == s.calls + [Call(f, intent, Invocation(s.List(intent), index))];
  }

  lemma HandlerKeepsInv(s: System, f: FlowId)
    requires Inv(s) && f in s.flows && s.flows[f].pc.Handlers?
    ensures Inv(HandlerStep(s, f)) && Frame(s, f, HandlerStep(s, f))
  {
    hide Decode, HistoryOk, PlanOk;
    HandlerKeepsCalls(s, f);
    var t := HandlerStep(s, f);
    assert t == s.(flows := t.flows, calls := t.calls);
    assert FlowOk(s, f) && FlowOk(t, f);
    CallKeepsInv(s, f, t);
  }

  lemma CallKeepsInv(s: System, f: FlowId, t: System)
    requires Inv(s) && f in s.flows && s.entries != [] && s.entries[0].flow == f
    requires f in t.flows && t == s.(flows := s.flows[f := t.flows[f]], calls := t.calls)
    requires t.flows[f].cpu == s.flows[f].cpu && FlowOk(t, f) && CallsOk(t)
    ensures Inv(t)
  {
    forall g | g in t.flows ensures FlowOk(t, g) {
      if g != f { OthersOffTheList(s, f, t, g); }
    }
  }

  /** A step on the lists and their locks keeps the invariant if it keeps the holds of the
      other flows and the list whose handlers are being run. */
  lemma ListsKeepInv(s: System, f: FlowId, t: System)
    requires Inv(s) && f in s.flows && f in t.flows && t.flows == s.flows[f := t.flows[f]]
    requires t == s.(flows := t.flows, holders := t.holders, powerOff := t.powerOff, reboot := t.reboot)
    requires t.flows[f].cpu == s.flows[f].cpu && FlowOk(t, f)
    requires forall list :: list in s.holders && s.holders[list] != Registrar(f) ==> Holds(t, list, s.holders[list])
    requires forall list :: list in s.holders && s.holders[list].Executor? ==> t.List(list) == s.List(list)
    ensures Inv(t)
  {
    hide Decode, FlowOk;
    forall g | g in t.flows ensures FlowOk(t, g) {
      if g != f { FlowFrame(s, t, g); }
    }
  }

  lemma LockListKeepsInv(s: System, f: FlowId)
    requires Inv(s) && f in s.flows && s.flows[f].pc.LockingList?
    ensures Inv(LockListStep(s, f)) && Frame(s, f, LockListStep(s, f))
  {
    hide Decode, HistoryOk, PlanOk, EntryOk, CallsOk;
    assert FlowOk(s, f);
    ListsKeepInv(s, f, LockListStep(s, f));
  }

  /** The list that is pushed to is not the one whose handlers are being run. */
  lemma PushKeepsInv(s: System, f: FlowId)
    requires Inv(s) && f in s.flows && s.flows[f].pc.Registering?
    ensures Inv(PushStep(s, f)) && Frame(s, f, PushStep(s, f))
  {
    hide Decode, HistoryOk, PlanOk, EntryOk, CallsOk;
    assert FlowOk(s, f);
    ListsKeepInv(s, f, PushStep(s, f));
  }

  lemma DiagnoseKeepsInv(s: System, f: FlowId)
    requires Inv(s) && f in s.flows && s.flows[f].pc.Diagnosing?
    ensures Inv(DiagnoseStep(s, f)) && Frame(s, f, DiagnoseStep(s, f))
  {
    assert FlowOk(s, f);
    MoveKeepsInv(s, f, DiagnoseStep(s, f));
  }

  lemma ProceedKeepsInv(s: System, f: FlowId)
    requires Inv(s) && f in s.flows
    ensures Inv(ProceedStep(s, f)) && Frame(s, f, ProceedStep(s, f))
  {
    hide Inv, Decode, PublishStep, PlanStep, MachineLoadStep, MachineCasStep, EmergencyLoadStep, EmergencyCasStep;
    hide LockListStep, PushStep, LockStep, HandlerStep, DiagnoseStep;
    match s.flows[f].pc
    case Publishing(_) => PublishKeepsInv(s, f);
    case Plan(_, _) => PlanKeepsInv(s, f);
    case MachineLoad => MachineLoadKeepsInv(s, f);
    case MachineCas(_) => MachineCasKeepsInv(s, f);
    case EmergencyLoad => EmergencyLoadKeepsInv(s, f);
    case EmergencyCas(_) => EmergencyCasKeepsInv(s, f);
    case LockingList(_, _) => LockListKeepsInv(s, f);
    case Registering(_, _) => PushKeepsInv(s, f);
    case TakingLock(_) => LockKeepsInv(s, f);
    case Handlers(_, _) => HandlerKeepsInv(s, f);
    case Diagnosing => DiagnoseKeepsInv(s, f);
    case _ =>
  }

  /** A request, a panic or a stop only moves its flow. */
  lemma InterferenceKeepsInv(s: System, f: FlowId, action: Action)
    requires Inv(s) && f in s.flows && !action.Proceed?
    ensures Inv(Step(s, f, action)) && Frame(s, f, Step(s, f, action))
  {
    hide ProceedStep, Decode, Encode;
    assert FlowOk(s, f);
    var t := Step(s, f, action);
    if t != s { MoveKeepsInv(s, f, t); }
  }

  /** Every step of every flow keeps the invariant. */
  lemma StepKeepsInv(s: System, f: FlowId, action: Action)
    requires Inv(s)
    ensures Inv(Step(s, f, action))
    ensures f in s.flows ==> Frame(s, f, Step(s, f, action))
  {
    hide ProceedStep, PanicStep, Decode, Encode, FlowOk, HistoryOk, PlanOk, EntryOk, CallsOk;
    if f in s.flows {
      if action.Proceed? && !s.flows[f].pc.Halted? {
        ProceedKeepsInv(s, f);
      } else if !action.Proceed? {
        InterferenceKeepsInv(s, f, action);
      }
    }
  }
}
