/** The terminal-episode word: how the executor CPU, the intent and the phase of
    a shutdown share one atomic `usize` (64-bit, as on both supported targets).
    Shifts and masks are written as the arithmetic they perform. */
module EpisodeWord {

  import opened Bits
  import opened Bytes

  /** A logical CPU number; the source's `CpuId` wraps one `usize`. */
  type CpuId = Word

  datatype MachineIntent = PowerOff | Reboot

  datatype EpisodePhase = Orderly | Emergency | MachineAction

  datatype EpisodeSnapshot = EpisodeSnapshot(executor: CpuId, intent: MachineIntent, phase: EpisodePhase)

  /** `Corrupt` stands for the two panics of `decode`: the executor subtraction
      underflows, or both phase bits are set. */
  datatype Decoded = Empty | Corrupt | Published(snapshot: EpisodeSnapshot)

  /** The executors whose number survives the three-bit shift. */
  predicate Encodable(cpu: CpuId) {
    cpu + 1 < U64 / 8
  }

  /** `1 << 0` for a reboot. */
  function IntentBit(intent: MachineIntent): nat {
    match intent
    case PowerOff => 0
    case Reboot => 1
  }

  /** `1 << 1` for the emergency phase and `1 << 2` for the machine action. */
  function PhaseBits(phase: EpisodePhase): nat {
    match phase
    case Orderly => 0
    case Emergency => 2
    case MachineAction => 4
  }

  /** `None` is the `expect` failing: only `checked_add` can, since the checked
      shift looks at the shift amount alone and silently drops high bits. */
  function Encode(snapshot: EpisodeSnapshot): Option<Word> {
    if snapshot.executor + 1 == U64 then None
    else Some(((snapshot.executor + 1) * 8) % U64 + IntentBit(snapshot.intent) + PhaseBits(snapshot.phase))
  }

  function Decode(word: Word): Decoded {
    if word == 0 then Empty
    else if word / 8 == 0 then Corrupt
    else
      var executor := word / 8 - 1;
      var intent := if word % 2 == 0 then PowerOff else Reboot;
      match word / 2 % 4
      case 0 => Published(EpisodeSnapshot(executor, intent, Orderly))
      case 1 => Published(EpisodeSnapshot(executor, intent, Emergency))
      case 2 => Published(EpisodeSnapshot(executor, intent, MachineAction))
      case _ => Corrupt
  }

  /** The fields share no bit, so or-ing them together is adding them. */
  lemma EncodeIsBitwise(snapshot: EpisodeSnapshot)
    requires snapshot.executor + 1 < U64
    ensures Encode(snapshot) ==
            Some(Or(Or(((snapshot.executor + 1) * 8) % U64, if snapshot.intent == Reboot then 1 else 0),
                    if snapshot.phase == Orderly then 0 else if snapshot.phase == Emergency then 2 else 4))
  {
    hide Or;
    var shifted := ((snapshot.executor + 1) * 8) % U64;
    assert shifted == 8 * (shifted / 8);
    OrFields(shifted / 8, IntentBit(snapshot.intent), PhaseBits(snapshot.phase));
  }

  /** And the masks of `decode` select the remainders that `Decode` looks at. */
  lemma DecodeIsBitwise(word: Word)
    ensures Decode(word).Published? ==>
              var snapshot := Decode(word).snapshot;
              && snapshot.executor == word / 8 - 1
              && (And(word, 1) == 0 <==> snapshot.intent == PowerOff)
              && And(word, 6) == if snapshot.phase == Orderly then 0 else if snapshot.phase == Emergency then 2 else 4
    ensures Decode(word).Corrupt? <==> word != 0 && (word / 8 == 0 || And(word, 6) == 6)
  {
    AndFields(word);
  }

  /** Encoding panics for the last CPU number alone. */
  lemma EncodeFailsAtTop(snapshot: EpisodeSnapshot)
    ensures Encode(snapshot).None? <==> snapshot.executor == 0xFFFF_FFFF_FFFF_FFFF
  {
  }

  lemma FieldsApart(n: nat, low: nat)
    requires low < 8
    ensures (8 * n + low) / 8 == n && (8 * n + low) % 2 == low % 2 && (8 * n + low) / 2 % 4 == low / 2
  {
    assert (8 * n + low) / 2 == 4 * n + low / 2;
  }

  /** The fields come apart again as long as the executor field is not zero. */
  lemma DecodeFields(executor: CpuId, intent: MachineIntent, phase: EpisodePhase)
    requires Encodable(executor)
    ensures Decode(8 * (executor + 1) + IntentBit(intent) + PhaseBits(phase)) ==
            Published(EpisodeSnapshot(executor, intent, phase))
  {
    FieldsApart(executor + 1, IntentBit(intent) + PhaseBits(phase));
  }

  /** The round trip holds for exactly the encodable executors: past the bound
      the shift loses the top bits and another CPU, or nothing, is read back. */
  lemma DecodeEncode(snapshot: EpisodeSnapshot)
    ensures Encodable(snapshot.executor) <==>
            Encode(snapshot).Some? && Decode(Encode(snapshot).value) == Published(snapshot)
  {
    var shifted := ((snapshot.executor + 1) * 8) % U64;
    if Encodable(snapshot.executor) {
      assert shifted == 8 * (snapshot.executor + 1);
      DecodeFields(snapshot.executor, snapshot.intent, snapshot.phase);
    } else if Encode(snapshot).Some? {
      FieldsApart(shifted / 8, IntentBit(snapshot.intent) + PhaseBits(snapshot.phase));
    }
  }

  /** The other direction: a word that decodes is the encoding of what it decodes to. */
  lemma EncodeDecode(word: Word)
    ensures Decode(word).Published? ==>
              && Encodable(Decode(word).snapshot.executor)
              && Encode(Decode(word).snapshot) == Some(word)
    ensures Decode(word).Empty? <==> word == 0
  {
    if Decode(word).Published? {
      var snapshot := Decode(word).snapshot;
      assert word == word / 8 * 8 + word / 2 % 4 * 2 + word % 2;
      assert (snapshot.executor + 1) * 8 == word / 8 * 8;
    }
  }

  /** The bound of `DecodeEncode` is not an artefact: two CPUs past it collide. */
  lemma HighExecutorAliases()
    ensures exists high: EpisodeSnapshot, low: EpisodeSnapshot ::
              high != low && Encode(high).Some? && Encode(high) == Encode(low)
  {
    var high := EpisodeSnapshot(U64 / 8, PowerOff, Orderly);
    var low := EpisodeSnapshot(0, PowerOff, Orderly);
    assert Encode(high) == Encode(low) && high != low;
  }
}
