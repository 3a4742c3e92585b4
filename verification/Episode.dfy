/** The terminal power episode as a transition system.

    A flow is one kernel control flow on a CPU. Any number of flows, also several
    on one CPU, interleave their individual loads and compare-exchanges on the
    episode word; each may panic or be stopped between any two of them. A panic
    never returns, so the panic handler simply replaces the flow's position. */
module Episode {
  import opened Bytes
  import opened EpisodeWord

  type FlowId = nat

  /** The identity of a registered machine handler. */
  type Handler = nat

  const ORDERLY_PLAN: seq<string> := ["filesystem", "network", "device"]

  /** Where a flow is. */
  datatype Pc =
    | Ordinary                                        // outside this protocol
    | LockingList(target: MachineIntent, handler: Handler)  // before the lock of a registration
    | Registering(target: MachineIntent, handler: Handler)  // list locked, before the push
    | Publishing(intent: MachineIntent)               // before the exchange of publish_orderly
    | Plan(step: nat, started: bool)                  // inside the orderly plan
    | MachineLoad                                     // before the load of enter_machine_action
    | MachineCas(loaded: Word)                        // before its exchange
    | TakingLock(intent: MachineIntent)               // machine action won, list not locked yet
    | Handlers(intent: MachineIntent, index: nat)     // list locked, handlers below index invoked
    | EmergencyLoad                                   // before the load of enter_emergency
    | EmergencyCas(loaded: Word)                      // before its exchange
    | Diagnosing                                      // emergency won, before the machine action
    | Halted

  /** `loads` counts the loads of the flow's latest call of enter_emergency or
      enter_machine_action, one per loop iteration. */
  datatype Flow = Flow(cpu: CpuId, pc: Pc, loads: nat, panicked: bool)

  datatype PlanEvent = PlanEvent(flow: FlowId, step: nat, completed: bool)
  datatype Entry = Entry(flow: FlowId, intent: MachineIntent, panicked: bool)
  datatype Invoked = Registered(handler: Handler) | Fallback
  datatype Call = Call(flow: FlowId, intent: MachineIntent, invoked: Invoked)

  /** Who holds the lock of a handler list, and what for. */
  datatype Holder = Registrar(flow: FlowId) | Executor(flow: FlowId)

  /** The shared state, and below it what an observer has recorded so far: every
      value the word has held, who won the orderly publication, the plan events,
      the successful machine-action entries and the handler invocations. */
  datatype System = System(
    word: Word,
    flows: map<FlowId, Flow>,
    powerOff: seq<Handler>,
    reboot: seq<Handler>,
    holders: map<MachineIntent, Holder>,
    history: seq<Word>,
    winner: Option<FlowId>,
    plan: seq<PlanEvent>,
    entries: seq<Entry>,
    calls: seq<Call>)
  {
    function List(intent: MachineIntent): seq<Handler> {
      match intent
      case PowerOff => powerOff
      case Reboot => reboot
    }

    function Move(f: FlowId, pc: Pc): System
      requires f in flows
    {
      this.(flows := flows[f := flows[f].(pc := pc)])
    }
  }

  /** What the environment may choose next for a flow. */
  datatype Action =
    | Request(intent: MachineIntent)                        // power_off or reboot is called
    | Proceed                                               // the next step of the flow's code
    | Panic                                                 // the panic handler is entered
    | Stop                                                  // StopExecution arrives
    | Register(target: MachineIntent, handler: Handler)     // a driver starts a registration

  // ----- The steps ------------------------------------------------------------

  /** Entry into the panic handler, whose first act is enter_emergency. */
  function PanicStep(s: System, f: FlowId): System
    requires f in s.flows
  {
    s.(flows := s.flows[f := s.flows[f].(pc := EmergencyLoad, loads := 0, panicked := true)])
  }

  /** A successful exchange to `word`, after which the flow is at `pc`. */
  function Exchange(s: System, f: FlowId, word: Word, pc: Pc): System
    requires f in s.flows
  {
    s.Move(f, pc).(word := word, history := s.history + [word])
  }

  function PublishStep(s: System, f: FlowId): System
    requires f in s.flows && s.flows[f].pc.Publishing?
  {
    match Encode(EpisodeSnapshot(s.flows[f].cpu, s.flows[f].pc.intent, Orderly))
    case None => PanicStep(s, f)
    case Some(word) =>
      if s.word == 0 then Exchange(s, f, word, Plan(0, false)).(winner := Some(f))
      else s.Move(f, Halted)
  }

  function PlanStep(s: System, f: FlowId): System
    requires f in s.flows && s.flows[f].pc.Plan?
  {
    var Plan(step, started) := s.flows[f].pc;
    if step >= |ORDERLY_PLAN| then
      s.(flows := s.flows[f := s.flows[f].(pc := MachineLoad, loads := 0)])
    else
      s.Move(f, if started then Plan(step + 1, false) else Plan(step, true))
       .(plan := s.plan + [PlanEvent(f, step, started)])
  }

  function EmergencyLoadStep(s: System, f: FlowId): System
    requires f in s.flows && s.flows[f].pc.EmergencyLoad?
  {
    if Decode(s.word).Corrupt? then PanicStep(s, f)
    else
      var flow := s.flows[f].(loads := s.flows[f].loads + 1);
      var pc :=
        match Decode(s.word)
        case Published(snapshot) =>
          if snapshot.executor != flow.cpu || snapshot.phase != Orderly then Halted
          else EmergencyCas(s.word)
        case _ => EmergencyCas(0);
      s.(flows := s.flows[f := flow.(pc := pc)])
  }

  /** The word enter_emergency tries to install over `loaded`. */
  function EmergencyTarget(cpu: CpuId, loaded: Word): Option<Word> {
    match Decode(loaded)
    case Empty => Encode(EpisodeSnapshot(cpu, PowerOff, Emergency))
    case Published(snapshot) => Encode(snapshot.(phase := Emergency))
    case Corrupt => None
  }

  function EmergencyCasStep(s: System, f: FlowId): System
    requires f in s.flows && s.flows[f].pc.EmergencyCas?
  {
    var loaded := s.flows[f].pc.loaded;
    match EmergencyTarget(s.flows[f].cpu, loaded)
    case None => PanicStep(s, f)
    case Some(word) =>
      if s.word == loaded then Exchange(s, f, word, Diagnosing) else s.Move(f, EmergencyLoad)
  }

  function DiagnoseStep(s: System, f: FlowId): System
    requires f in s.flows
  {
    s.(flows := s.flows[f := s.flows[f].(pc := MachineLoad, loads := 0)])
  }

  function MachineLoadStep(s: System, f: FlowId): System
    requires f in s.flows && s.flows[f].pc.MachineLoad?
  {
    if Decode(s.word).Corrupt? then PanicStep(s, f)
    else
      var flow := s.flows[f].(loads := s.flows[f].loads + 1);
      var pc :=
        match Decode(s.word)
        case Published(snapshot) =>
          if snapshot.executor != flow.cpu || snapshot.phase == MachineAction then Halted
          else MachineCas(s.word)
        case _ => Halted;
      s.(flows := s.flows[f := flow.(pc := pc)])
  }

  function MachineCasStep(s: System, f: FlowId): System
    requires f in s.flows && s.flows[f].pc.MachineCas?
  {
    var loaded := s.flows[f].pc.loaded;
    match Decode(loaded)
    case Published(snapshot) => (
      match Encode(snapshot.(phase := MachineAction))
      case None => PanicStep(s, f)
      case Some(word) =>
        if s.word == loaded then
          Exchange(s, f, word, TakingLock(snapshot.intent))
          .(entries := s.entries + [Entry(f, snapshot.intent, s.flows[f].panicked)])
        else s.Move(f, MachineLoad))
    case _ => PanicStep(s, f)
  }

  /** Spins while the list is locked. */
  function LockStep(s: System, f: FlowId): System
    requires f in s.flows && s.flows[f].pc.TakingLock?
  {
    var intent := s.flows[f].pc.intent;
    if intent in s.holders then s
    else s.Move(f, Handlers(intent, 0)).(holders := s.holders[intent := Executor(f)])
  }

  /** The next handler is invoked; past the last one the permanent halt fallback
      is. A panic taken at the new position is a panic inside that handler. */
  function HandlerStep(s: System, f: FlowId): System
    requires f in s.flows && s.flows[f].pc.Handlers?
  {
    var Handlers(intent, index) := s.flows[f].pc;
    if index < |s.List(intent)| then
      s.Move(f, Handlers(intent, index + 1))
       .(calls := s.calls + [Call(f, intent, Registered(s.List(intent)[index]))])
    else
      s.Move(f, Halted).(calls := s.calls + [Call(f, intent, Fallback)])
  }

  /** A registration takes the same lock; it spins while the list is locked. */
  function LockListStep(s: System, f: FlowId): System
    requires f in s.flows && s.flows[f].pc.LockingList?
  {
    var LockingList(target, handler) := s.flows[f].pc;
    if target in s.holders then s
    else s.Move(f, Registering(target, handler)).(holders := s.holders[target := Registrar(f)])
  }

  /** The push and the release of the lock. A panic taken before it, as on a failed
      allocation, leaves the list locked. */
  function PushStep(s: System, f: FlowId): System
    requires f in s.flows && s.flows[f].pc.Registering?
  {
    var Registering(target, handler) := s.flows[f].pc;
    var t := s.Move(f, Ordinary).(holders := s.holders - {target});
    match target
    case PowerOff => t.(powerOff := s.powerOff + [handler])
    case Reboot => t.(reboot := s.reboot + [handler])
  }

  /** The next step of the flow's own code touches no other flow and never moves
      the flow to another CPU. */
  function ProceedStep(s: System, f: FlowId): (t: System)
    requires f in s.flows
    ensures f in t.flows && t.flows == s.flows[f := t.flows[f]] && t.flows[f].cpu == s.flows[f].cpu
  {
    match s.flows[f].pc
    case Ordinary => s
    case LockingList(_, _) => LockListStep(s, f)
    case Registering(_, _) => PushStep(s, f)
    case Publishing(_) => PublishStep(s, f)
    case Plan(_, _) => PlanStep(s, f)
    case MachineLoad => MachineLoadStep(s, f)
    case MachineCas(_) => MachineCasStep(s, f)
    case TakingLock(_) => LockStep(s, f)
    case Handlers(_, _) => HandlerStep(s, f)
    case EmergencyLoad => EmergencyLoadStep(s, f)
    case EmergencyCas(_) => EmergencyCasStep(s, f)
    case Diagnosing => DiagnoseStep(s, f)
    case Halted => s
  }

  /** One step; a choice that is not possible leaves the system as it is. */
  function Step(s: System, f: FlowId, action: Action): System {
    if f !in s.flows || s.flows[f].pc.Halted? then s
    else if action.Register? then
      if s.flows[f].pc.Ordinary? then s.Move(f, LockingList(action.target, action.handler)) else s
    else if action.Request? then
      if s.flows[f].pc.Ordinary? then s.Move(f, Publishing(action.intent)) else s
    else if action.Panic? then PanicStep(s, f)
    else if action.Stop? then s.Move(f, Halted)
    else ProceedStep(s, f)
  }

  /** A schedule picks a flow and an action at every step; every run is one. */
  type Schedule = seq<(FlowId, Action)>

  function Run(s: System, schedule: Schedule): System
    decreases |schedule|
  {
    if schedule == [] then s
    else Run(Step(s, schedule[0].0, schedule[0].1), schedule[1..])
  }

  /** Boot: nothing published, every flow doing something else. */
  ghost predicate Init(s: System) {
    && s.word == 0 && s.history == [0]
    && s.winner == None && s.plan == [] && s.entries == [] && s.calls == [] && s.holders == map[]
    && forall f :: f in s.flows ==>
         s.flows[f].pc.Ordinary? && s.flows[f].loads == 0 && !s.flows[f].panicked && Encodable(s.flows[f].cpu)
  }
}
