/** The memory a new process finds above its stack pointer. */
module StackImage {
  import opened Bytes

  /** Bytes mapped from the address `base` up. */
  datatype Memory = Memory(base: nat, bytes: seq<byte>) {
    function Limit(): nat {
      base + |bytes|
    }

    function WordAt(address: nat): nat
      requires base <= address && address + 8 <= Limit()
    {
      FromLe(bytes[address - base..address - base + 8])
    }

    /** `CStr::from_ptr`: the bytes before the first terminator. */
    function CStrAt(address: nat): seq<byte>
      requires base <= address <= Limit()
    {
      var tail := bytes[address - base..];
      tail[..NameLength(tail)]
    }
  }

  /** Memory that grew downward keeps what it held. */
  lemma GrowthKeeps(base: nat, below: seq<byte>, bytes: seq<byte>, address: nat)
    requires |below| <= base <= address <= base + |bytes|
    ensures Memory(base - |below|, below + bytes).CStrAt(address) == Memory(base, bytes).CStrAt(address)
  {
    assert (below + bytes)[address - (base - |below|)..] == bytes[address - base..];
  }

  /** A terminated string at the bottom of memory reads back. */
  lemma StringReads(base: nat, text: seq<byte>, rest: seq<byte>)
    requires 0 !in text
    ensures Memory(base, text + [0] + rest).CStrAt(base) == text
  {
    NameLengthAt(text, rest);
    assert (text + [0] + rest)[0..] == text + [0] + rest;
    assert (text + [0] + rest)[..|text|] == text;
  }

  /** Words in memory order. */
  function WordBytes(words: seq<Word>): (bytes: seq<byte>)
    ensures |bytes| == 8 * |words|
  {
    if words == [] then [] else ToLe(words[0], 8) + WordBytes(words[1..])
  }

  lemma {:induction false} WordBytesConcat(a: seq<Word>, b: seq<Word>)
    ensures WordBytes(a + b) == WordBytes(a) + WordBytes(b)
  {
    hide ToLe;
    if a == [] {
      assert a + b == b;
    } else {
      assert (a + b)[1..] == a[1..] + b;
      WordBytesConcat(a[1..], b);
    }
  }

  lemma {:induction false} WordReads(base: nat, words: seq<Word>, rest: seq<byte>, i: nat)
    requires i < |words|
    ensures Memory(base, WordBytes(words) + rest).WordAt(base + 8 * i) == words[i]
  {
    hide ToLe, FromLe;
    SpanValues();
    FromToLe(words[i], 8);
    WordSlice(words, rest, i);
  }

  lemma {:induction false} WordSlice(words: seq<Word>, rest: seq<byte>, i: nat)
    requires i < |words|
    ensures (WordBytes(words) + rest)[8 * i..8 * i + 8] == ToLe(words[i], 8)
  {
    hide ToLe;
    if i > 0 {
      WordSlice(words[1..], rest, i - 1);
      assert WordBytes(words) + rest == ToLe(words[0], 8) + (WordBytes(words[1..]) + rest);
    }
  }

  // ----- The vectors ----------------------------------------------------------------------

  /** One `AuxvEntry`. */
  datatype AuxEntry = AuxEntry(ty: Word, val: Word)

  const NULL_ENTRY := AuxEntry(0, 0)

  function AuxWords(entries: seq<AuxEntry>): (words: seq<Word>)
    ensures |words| == 2 * |entries|
  {
    if entries == [] then [] else [entries[0].ty, entries[0].val] + AuxWords(entries[1..])
  }

  lemma {:induction false} AuxWordsAt(entries: seq<AuxEntry>, i: nat)
    requires i < |entries|
    ensures AuxWords(entries)[2 * i] == entries[i].ty && AuxWords(entries)[2 * i + 1] == entries[i].val
  {
    if i > 0 { AuxWordsAt(entries[1..], i - 1); }
  }

  /** The words at the initial stack pointer: the argument count, the null-terminated
      argument and environment pointers, and the auxiliary vector up to its null entry. */
  function Layout(args: seq<Word>, envs: seq<Word>, aux: seq<AuxEntry>): (words: seq<Word>)
    requires |args| < U64
    ensures |words| == |args| + |envs| + 2 * |aux| + 5
  {
    [|args|] + (args + [0]) + (envs + [0]) + AuxWords(aux + [NULL_ENTRY])
  }

  lemma ArgsInLayout(args: seq<Word>, envs: seq<Word>, aux: seq<AuxEntry>, i: nat)
    requires |args| < U64 && i <= |args|
    ensures Layout(args, envs, aux)[1 + i] == if i < |args| then args[i] else 0
  {
    hide AuxWords;
  }

  lemma EnvsInLayout(args: seq<Word>, envs: seq<Word>, aux: seq<AuxEntry>, i: nat)
    requires |args| < U64 && i <= |envs|
    ensures Layout(args, envs, aux)[|args| + 2 + i] == if i < |envs| then envs[i] else 0
  {
    hide AuxWords;
  }

  lemma AuxInLayout(args: seq<Word>, envs: seq<Word>, aux: seq<AuxEntry>, i: nat)
    requires |args| < U64 && i <= |aux|
    ensures var entry := if i < |aux| then aux[i] else NULL_ENTRY;
            var at := |args| + |envs| + 3 + 2 * i;
            Layout(args, envs, aux)[at] == entry.ty && Layout(args, envs, aux)[at + 1] == entry.val
  {
    hide AuxWords;
    AuxWordsAt(aux + [NULL_ENTRY], i);
  }
}
