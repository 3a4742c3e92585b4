/** What one call of the protocol decides, told from the words that can be published rather
    than from how a word is taken apart. Everything here holds in every state, reachable or
    not. */
module EpisodeCalls {
  import opened Bytes
  import opened EpisodeWord
  import opened Episode

  /** The word is that of an episode of this CPU in one of the phases. */
  ghost predicate Names(word: Word, cpu: CpuId, phases: set<EpisodePhase>) {
    exists intent: MachineIntent, phase: EpisodePhase ::
      phase in phases && Encode(EpisodeSnapshot(cpu, intent, phase)) == Some(word)
  }

  /** The word is that of no episode. */
  ghost predicate Unreadable(word: Word) {
    word != 0 && forall snapshot: EpisodeSnapshot :: Encodable(snapshot.executor) ==> Encode(snapshot) != Some(word)
  }

  lemma NamesDecodes(word: Word, cpu: CpuId, phases: set<EpisodePhase>)
    requires Encodable(cpu)
    ensures Names(word, cpu, phases) <==>
            Decode(word).Published? && Decode(word).snapshot.executor == cpu && Decode(word).snapshot.phase in phases
  {
    hide Encode, Decode;
    EncodeDecode(word);
    if Names(word, cpu, phases) {
      var intent, phase :| phase in phases && Encode(EpisodeSnapshot(cpu, intent, phase)) == Some(word);
      DecodeEncode(EpisodeSnapshot(cpu, intent, phase));
    } else if Decode(word).Published? && Decode(word).snapshot.executor == cpu {
      var snapshot := Decode(word).snapshot;
      assert snapshot == EpisodeSnapshot(cpu, snapshot.intent, snapshot.phase);
    }
  }

  lemma UnreadableIsCorrupt(word: Word)
    ensures Unreadable(word) <==> Decode(word).Corrupt?
  {
    hide Encode, Decode;
    EncodeDecode(word);
    forall snapshot: EpisodeSnapshot | Encodable(snapshot.executor) && Encode(snapshot) == Some(word)
      ensures Decode(word) == Published(snapshot)
    {
      DecodeEncode(snapshot);
    }
  }

  // ----- enter_emergency --------------------------------------------------------------------

  /** An emergency may take an empty word, or its own CPU's orderly episode. */
  ghost predicate MayTake(word: Word, cpu: CpuId) {
    word == 0 || Names(word, cpu, {Orderly})
  }

  /** The load goes on to the exchange exactly when the word may be taken, panics exactly on
      a word of no episode, and otherwise the flow has lost and halts. */
  lemma EmergencyLoadDecides(s: System, f: FlowId)
    requires f in s.flows && s.flows[f].pc.EmergencyLoad? && Encodable(s.flows[f].cpu)
    ensures var flow, t := s.flows[f], Step(s, f, Proceed);
            t == s.(flows := s.flows[f :=
                      if Unreadable(s.word) then flow.(loads := 0, panicked := true)
                      else flow.(loads := flow.loads + 1,
                                 pc := if MayTake(s.word, flow.cpu) then EmergencyCas(s.word) else Halted)])
  {
    hide Encode, Decode, Names, Unreadable;
    UnreadableIsCorrupt(s.word);
    NamesDecodes(s.word, s.flows[f].cpu, {Orderly});
    EncodeDecode(s.word);
  }

  /** A won exchange publishes the emergency with the intent that was there, a power-off if
      there was none, and nothing but an exchange with the word as loaded wins. */
  lemma EmergencyExchange(s: System, f: FlowId, loaded: Word)
    requires f in s.flows && s.flows[f].pc == EmergencyCas(loaded) && Encodable(s.flows[f].cpu)
    requires MayTake(loaded, s.flows[f].cpu)
    ensures var cpu, t := s.flows[f].cpu, Step(s, f, Proceed);
            if s.word != loaded then t == s.Move(f, EmergencyLoad)
            else && t.flows == s.Move(f, Diagnosing).flows && t.history == s.history + [t.word]
                 && if loaded == 0 then Encode(EpisodeSnapshot(cpu, PowerOff, Emergency)) == Some(t.word)
                    else exists intent ::
                           && Encode(EpisodeSnapshot(cpu, intent, Orderly)) == Some(loaded)
                           && Encode(EpisodeSnapshot(cpu, intent, Emergency)) == Some(t.word)
  {
    hide Encode, Decode, Names;
    var cpu := s.flows[f].cpu;
    NamesDecodes(loaded, cpu, {Orderly});
    EncodeDecode(loaded);
    DecodeEncode(EpisodeSnapshot(cpu, PowerOff, Emergency));
    if loaded != 0 {
      var snapshot := Decode(loaded).snapshot;
      DecodeEncode(snapshot.(phase := Emergency));
      assert snapshot == EpisodeSnapshot(cpu, snapshot.intent, Orderly);
    }
  }

  /** A lost exchange decides afresh on the word that beat it. */
  lemma LostEmergencyRetries(s: System, f: FlowId, loaded: Word)
    requires f in s.flows && s.flows[f].pc == EmergencyCas(loaded) && Encodable(s.flows[f].cpu)
    requires MayTake(loaded, s.flows[f].cpu) && s.word != loaded && !Unreadable(s.word)
    ensures var t := Step(Step(s, f, Proceed), f, Proceed);
            t.word == s.word &&
            t.flows[f].pc == if MayTake(s.word, s.flows[f].cpu) then EmergencyCas(s.word) else Halted
  {
    hide Step, MayTake, Unreadable;
    EmergencyExchange(s, f, loaded);
    EmergencyLoadDecides(Step(s, f, Proceed), f);
  }

  // ----- enter_machine_action ----------------------------------------------------------------

  /** The load goes on to the exchange exactly for an episode of this CPU that has not entered
      the machine action. */
  lemma MachineLoadDecides(s: System, f: FlowId)
    requires f in s.flows && s.flows[f].pc.MachineLoad? && Encodable(s.flows[f].cpu)
    ensures var flow, t := s.flows[f], Step(s, f, Proceed);
            t == s.(flows := s.flows[f :=
                      if Unreadable(s.word) then flow.(pc := EmergencyLoad, loads := 0, panicked := true)
                      else flow.(loads := flow.loads + 1,
                                 pc := if Names(s.word, flow.cpu, {Orderly, Emergency}) then MachineCas(s.word)
                                       else Halted)])
  {
    hide Encode, Decode, Names, Unreadable;
    UnreadableIsCorrupt(s.word);
    NamesDecodes(s.word, s.flows[f].cpu, {Orderly, Emergency});
  }

  /** A won exchange publishes the machine action with the intent that was there. */
  lemma MachineExchange(s: System, f: FlowId, loaded: Word)
    requires f in s.flows && s.flows[f].pc == MachineCas(loaded) && Encodable(s.flows[f].cpu)
    requires Names(loaded, s.flows[f].cpu, {Orderly, Emergency})
    ensures var cpu, t := s.flows[f].cpu, Step(s, f, Proceed);
            if s.word != loaded then t == s.Move(f, MachineLoad)
            else exists intent, phase ::
                   && phase != MachineAction && Encode(EpisodeSnapshot(cpu, intent, phase)) == Some(loaded)
                   && Encode(EpisodeSnapshot(cpu, intent, MachineAction)) == Some(t.word)
                   && t.flows == s.Move(f, TakingLock(intent)).flows && t.history == s.history + [t.word]
                   && t.entries == s.entries + [Entry(f, intent, s.flows[f].panicked)]
  {
    hide Encode, Decode, Names;
    NamesDecodes(loaded, s.flows[f].cpu, {Orderly, Emergency});
    EncodeDecode(loaded);
    var snapshot := Decode(loaded).snapshot;
    DecodeEncode(snapshot.(phase := MachineAction));
    assert snapshot == EpisodeSnapshot(s.flows[f].cpu, snapshot.intent, snapshot.phase);
  }

  /** A lost exchange decides afresh on the word that beat it. */
  lemma LostMachineRetries(s: System, f: FlowId, loaded: Word)
    requires f in s.flows && s.flows[f].pc == MachineCas(loaded) && Encodable(s.flows[f].cpu)
    requires Names(loaded, s.flows[f].cpu, {Orderly, Emergency}) && s.word != loaded && !Unreadable(s.word)
    ensures var t := Step(Step(s, f, Proceed), f, Proceed);
            t.word == s.word &&
            t.flows[f].pc == if Names(s.word, s.flows[f].cpu, {Orderly, Emergency}) then MachineCas(s.word) else Halted
  {
    hide Step, Names, Unreadable;
    MachineExchange(s, f, loaded);
    MachineLoadDecides(Step(s, f, Proceed), f);
  }

  // ----- Halting -------------------------------------------------------------------------------

  /** Why a flow may halt at its own step: it lost the publication, the emergency or the
      machine action, or it is through with its handlers. */
  ghost predicate MayHalt(s: System, f: FlowId)
    requires f in s.flows
  {
    var cpu := s.flows[f].cpu;
    match s.flows[f].pc
    case Publishing(_) => s.word != 0
    case EmergencyLoad => !Unreadable(s.word) && !MayTake(s.word, cpu)
    case MachineLoad => !Unreadable(s.word) && !Names(s.word, cpu, {Orderly, Emergency})
    case Handlers(intent, index) => |s.List(intent)| <= index
    case Halted => true
    case _ => false
  }

  /** No flow of the protocol gives up without one of these reasons, and with one it does. */
  lemma HaltsForAReason(s: System, f: FlowId)
    requires f in s.flows && Encodable(s.flows[f].cpu)
    ensures Step(s, f, Proceed).flows[f].pc.Halted? <==> MayHalt(s, f)
  {
    hide Encode, Decode, Names, Unreadable;
    match s.flows[f].pc
    case EmergencyLoad => EmergencyLoadDecides(s, f);
    case MachineLoad => MachineLoadDecides(s, f);
    case Publishing(intent) => DecodeEncode(EpisodeSnapshot(s.flows[f].cpu, intent, Orderly));
    case _ =>
  }

  /** The last CPU number cannot be encoded: publishing from it is a panic. */
  lemma LastCpuPanics(s: System, f: FlowId)
    requires f in s.flows && s.flows[f].pc.Publishing? && s.flows[f].cpu == 0xFFFF_FFFF_FFFF_FFFF
    ensures Step(s, f, Proceed) == Step(s, f, Panic)
  {
  }
}
