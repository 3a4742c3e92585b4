/** A new process finding its arguments, environment and auxiliary vector, and the way from
    the kernel's initial stack to what the three iterators yield. */
module StartupEnv {
  import opened Bytes
  import opened StackImage
  import opened InitStack

  /** One call of an iterator; decoding text that is not UTF-8 panics. */
  datatype Yield<+T> = Done | Item(value: T) | Panicked

  ghost predicate Pointer(memory: Memory, address: nat) {
    address != 0 && memory.base <= address <= memory.Limit()
  }

  /** The vectors of a memory that starts at the initial stack pointer. */
  datatype Vectors = Vectors(args: seq<Word>, envs: seq<Word>, aux: seq<AuxEntry>, rest: seq<byte>) {
    ghost predicate In(memory: Memory) {
      && |args| < U64
      && memory.bytes == WordBytes(Layout(args, envs, aux)) + rest
      && (forall i :: 0 <= i < |args| ==> Pointer(memory, args[i]))
      && (forall i :: 0 <= i < |envs| ==> Pointer(memory, envs[i]))
      && (forall i :: 0 <= i < |aux| ==> aux[i].ty != 0)
    }
  }

  /** The words a process reads, as the vectors they belong to. */
  lemma WordIs(memory: Memory, v: Vectors, i: nat)
    requires v.In(memory) && i < |v.args| + |v.envs| + 2 * |v.aux| + 5
    ensures memory.base + 8 * i + 8 <= memory.Limit()
    ensures memory.WordAt(memory.base + 8 * i) == Layout(v.args, v.envs, v.aux)[i]
  {
    hide Layout, WordBytes;
    WordReads(memory.base, Layout(v.args, v.envs, v.aux), v.rest, i);
    assert memory == Memory(memory.base, WordBytes(Layout(v.args, v.envs, v.aux)) + v.rest);
  }

  lemma CountIs(memory: Memory, v: Vectors)
    requires v.In(memory)
    ensures memory.base + 8 <= memory.Limit() && memory.WordAt(memory.base) == |v.args|
  {
    WordIs(memory, v, 0);
  }

  lemma ArgIs(memory: Memory, v: Vectors, i: nat)
    requires v.In(memory) && i <= |v.args|
    ensures var at := memory.base + 8 + 8 * i;
            && at + 8 <= memory.Limit()
            && memory.WordAt(at) == if i < |v.args| then v.args[i] else 0
  {
    hide Layout, WordBytes;
    WordIs(memory, v, 1 + i);
    ArgsInLayout(v.args, v.envs, v.aux, i);
  }

  lemma EnvIs(memory: Memory, v: Vectors, i: nat)
    requires v.In(memory) && i <= |v.envs|
    ensures var at := memory.base + 8 * (|v.args| + 2) + 8 * i;
            && at + 8 <= memory.Limit()
            && memory.WordAt(at) == if i < |v.envs| then v.envs[i] else 0
  {
    hide Layout, WordBytes;
    WordIs(memory, v, |v.args| + 2 + i);
    EnvsInLayout(v.args, v.envs, v.aux, i);
  }

  lemma AuxIs(memory: Memory, v: Vectors, i: nat)
    requires v.In(memory) && i <= |v.aux|
    ensures var entry := if i < |v.aux| then v.aux[i] else NULL_ENTRY;
            var at := memory.base + 8 * (|v.args| + |v.envs| + 3) + 16 * i;
            at + 16 <= memory.Limit() && memory.WordAt(at) == entry.ty && memory.WordAt(at + 8) == entry.val
  {
    hide Layout, WordBytes;
    var word := |v.args| + |v.envs| + 3 + 2 * i;
    WordIs(memory, v, word);
    WordIs(memory, v, word + 1);
    AuxInLayout(v.args, v.envs, v.aux, i);
  }

  /** The start-up globals. */
  class Runtime {
    const memory: Memory
    var argc: nat
    var argv: nat
    var envp: nat
    var auxv: nat

    constructor (memory: Memory)
      ensures this.memory == memory && argc == argv == envp == auxv == 0
    {
      this.memory := memory;
      argc, argv, envp, auxv := 0, 0, 0, 0;
    }

    /** The globals point at the vectors. */
    ghost predicate Ready(v: Vectors)
      reads this
    {
      && v.In(memory) && argc == |v.args|
      && argv == memory.base + 8
      && envp == memory.base + 8 * (|v.args| + 2)
      && auxv == memory.base + 8 * (|v.args| + |v.envs| + 3)
    }

    /** `start_impl` up to the call of the program: the scan over the environment stops at
        its terminator. */
    method StartImpl(ghost v: Vectors)
      requires v.In(memory)
      modifies this
      ensures Ready(v)
    {
      hide Layout, WordBytes;
      CountIs(memory, v);
      var count := memory.WordAt(memory.base);
      var args := memory.base + 8;
      var envs := args + 8 * (count + 1);
      var ptr := envs;
      ghost var n := 0;
      EnvIs(memory, v, 0);
      while memory.WordAt(ptr) != 0
        invariant n <= |v.envs| && ptr == memory.base + 8 * (|v.args| + 2) + 8 * n
        invariant ptr + 8 <= memory.Limit() && memory.WordAt(ptr) == if n < |v.envs| then v.envs[n] else 0
        decreases |v.envs| - n
      {
        ptr, n := ptr + 8, n + 1;
        EnvIs(memory, v, n);
      }
      argc, argv, envp, auxv := count, args, envs, ptr + 8;
    }
  }

  /** Decoding the C string at a pointer. */
  function Decoded(text: seq<byte>): Yield<Str> {
    if IsUtf8(text) then Item(text) else Panicked
  }

  class Args {
    var current: nat

    constructor ()
      ensures current == 0
    {
      current := 0;
    }

    method Next(runtime: Runtime, ghost v: Vectors) returns (r: Yield<Str>)
      requires runtime.Ready(v) && current <= |v.args|
      modifies this
      ensures if old(current) == |v.args| then r == Done && current == old(current)
              else current == old(current) + 1 && r == Decoded(runtime.memory.CStrAt(v.args[old(current)]))
    {
      hide Layout, WordBytes, IsUtf8;
      ArgIs(runtime.memory, v, current);
      var arg := runtime.memory.WordAt(runtime.argv + 8 * current);
      if arg == 0 { return Done; }
      current := current + 1;
      return Decoded(runtime.memory.CStrAt(arg));
    }
  }

  /** `splitn(2, '=')`: the text before the first '=' and the text after it. */
  function Split(text: seq<byte>): (seq<byte>, seq<byte>) {
    if text == [] then ([], [])
    else if text[0] == 61 then ([], text[1..])
    else
      var (key, value) := Split(text[1..]);
      ([text[0]] + key, value)
  }

  /** Nothing is lost: the two parts and the first '=' make up the text. */
  lemma {:induction false} SplitJoins(text: seq<byte>)
    ensures 61 !in Split(text).0
    ensures if 61 in text then Split(text).0 + [61] + Split(text).1 == text
            else Split(text) == (text, [])
  {
    if text != [] {
      if text[0] == 61 {
        assert [] + [61] + text[1..] == text;
      } else {
        var (key, value) := Split(text[1..]);
        SplitJoins(text[1..]);
        assert text == [text[0]] + text[1..];
        assert [text[0]] + (key + [61] + value) == [text[0]] + key + [61] + value;
      }
    }
  }

  class Envs {
    var current: nat

    constructor ()
      ensures current == 0
    {
      current := 0;
    }

    method Next(runtime: Runtime, ghost v: Vectors) returns (r: Yield<(seq<byte>, seq<byte>)>)
      requires runtime.Ready(v) && current <= |v.envs|
      modifies this
      ensures if old(current) == |v.envs| then r == Done && current == old(current)
              else current == old(current) + 1
                   && var text := runtime.memory.CStrAt(v.envs[old(current)]);
                      r == if IsUtf8(text) then Item(Split(text)) else Panicked
    {
      hide Layout, WordBytes, IsUtf8, Split;
      EnvIs(runtime.memory, v, current);
      var env := runtime.memory.WordAt(runtime.envp + 8 * current);
      if env == 0 { return Done; }
      current := current + 1;
      var text := runtime.memory.CStrAt(env);
      return if IsUtf8(text) then Item(Split(text)) else Panicked;
    }
  }

  class AuxV {
    var current: nat

    constructor ()
      ensures current == 0
    {
      current := 0;
    }

    method Next(runtime: Runtime, ghost v: Vectors) returns (r: Yield<AuxEntry>)
      requires runtime.Ready(v) && current <= |v.aux|
      modifies this
      ensures if old(current) == |v.aux| then r == Done && current == old(current)
              else current == old(current) + 1 && r == Item(v.aux[old(current)])
    {
      hide Layout, WordBytes;
      AuxIs(runtime.memory, v, current);
      var at := runtime.auxv + 16 * current;
      var ty, val := runtime.memory.WordAt(at), runtime.memory.WordAt(at + 8);
      if ty == 0 { return Done; }
      current := current + 1;
      return Item(AuxEntry(ty, val));
    }
  }

  // ----- From the kernel to the program -------------------------------------------------

  lemma TextAt(memory: Memory, addresses: seq<Word>, strings: seq<Str>, i: nat)
    requires Texts(memory, addresses, strings) && i < |strings|
    ensures ReadsAs(memory, addresses[i], strings[i])
  {
  }

  method CollectArgs(runtime: Runtime, ghost v: Vectors, ghost strings: seq<Str>) returns (r: seq<Str>)
    requires runtime.Ready(v) && |v.args| == |strings| && Texts(runtime.memory, v.args, strings)
    ensures r == strings
  {
    hide IsUtf8, WordBytes, Layout, Texts;
    var items := new Args();
    r := [];
    while true
      invariant items.current == |r| <= |strings| && r == strings[..|r|]
      decreases |strings| - |r|
    {
      var item := items.Next(runtime, v);
      if item.Done? { return; }
      TextAt(runtime.memory, v.args, strings, |r|);
      if item.Panicked? { return; }
      r := r + [item.value];
    }
  }

  function SplitAll(strings: seq<Str>): (r: seq<(seq<byte>, seq<byte>)>)
    ensures |r| == |strings|
    ensures forall i :: 0 <= i < |strings| ==> r[i] == Split(strings[i])
  {
    if strings == [] then [] else [Split(strings[0])] + SplitAll(strings[1..])
  }

  method CollectEnvs(runtime: Runtime, ghost v: Vectors, ghost strings: seq<Str>)
    returns (r: seq<(seq<byte>, seq<byte>)>)
    requires runtime.Ready(v) && |v.envs| == |strings| && Texts(runtime.memory, v.envs, strings)
    ensures r == SplitAll(strings)
  {
    hide IsUtf8, Split, SplitAll, WordBytes, Layout, Texts;
    var items := new Envs();
    r := [];
    while true
      invariant items.current == |r| <= |strings| && r == SplitAll(strings)[..|r|]
      decreases |strings| - |r|
    {
      var item := items.Next(runtime, v);
      if item.Done? { return; }
      TextAt(runtime.memory, v.envs, strings, |r|);
      if item.Panicked? { return; }
      r := r + [item.value];
    }
  }

  method CollectAux(runtime: Runtime, ghost v: Vectors) returns (r: seq<AuxEntry>)
    requires runtime.Ready(v)
    ensures r == v.aux
  {
    var items := new AuxV();
    r := [];
    while true
      invariant items.current == |r| <= |v.aux| && r == v.aux[..|r|]
      decreases |v.aux| - |r|
    {
      var item := items.Next(runtime, v);
      if item.Done? { return; }
      r := r + [item.value];
    }
  }

  /** The vector has one entry of this type and that is its value. */
  ghost predicate Single(aux: seq<AuxEntry>, ty: Word, val: Word) {
    && AuxEntry(ty, val) in aux
    && forall i, j :: 0 <= i < |aux| && 0 <= j < |aux| && aux[i].ty == ty && aux[j].ty == ty ==> i == j
  }

  /** What the vector must tell a program: one entry each for its name, its random bytes and
      the platform, with addresses that lead there; around them, latest first, the entries it
      was given. */
  ghost predicate AuxRead(memory: Memory, p: Program, aux: seq<AuxEntry>)
    requires p.Valid()
  {
    exists name: Word, random: Word, platform: Word, base: Word ::
      && ReadsAs(memory, name, p.execFn) && Single(aux, 31, name)
      && HoldsAt(memory, random, p.random) && Single(aux, 25, random)
      && ReadsAs(memory, platform, p.platform) && Single(aux, 15, platform)
      && ReadsAs(memory, base, p.platform) && Single(aux, 24, base)
      && aux == Reversed(p.meta)
                + [AuxEntry(24, base), AuxEntry(15, platform), AuxEntry(25, random), AuxEntry(31, name)]
                + Reversed(p.partial[1..])
  }

  lemma {:induction false} ReversedConcat(a: seq<AuxEntry>, b: seq<AuxEntry>)
    ensures Reversed(a + b) == Reversed(b) + Reversed(a)
  {
    if a == [] {
      assert a + b == b;
    } else {
      assert (a + b)[1..] == a[1..] + b;
      ReversedConcat(a[1..], b);
    }
  }

  lemma {:induction false} ReversedAt(entries: seq<AuxEntry>, i: nat)
    requires i < |entries|
    ensures Reversed(entries)[|entries| - 1 - i] == entries[i]
  {
    if i > 0 { ReversedAt(entries[1..], i - 1); }
  }

  /** Without a clash an added type that may not repeat occurs once. */
  lemma {:induction false} AddedOnce(existing: seq<Word>, added: seq<Word>, i: nat, j: nat)
    requires !Clash(existing, added) && i < j < |existing| + |added| && |existing| <= j
    requires (existing + added)[j] != AT_IGNORE
    ensures (existing + added)[i] != (existing + added)[j]
    decreases |added|
  {
    if j > |existing| {
      assert existing + added == (existing + [added[0]]) + added[1..];
      AddedOnce(existing + [added[0]], added[1..], i, j);
    } else {
      assert existing[i] in existing;
    }
  }

  /** So the reversed list has it once. */
  lemma SingleOf(p: Program, blobs: Blobs, k: nat)
    requires p.Valid() && !p.Clashes() && k < 4
    ensures var added := p.Added(blobs)[k]; Single(Reversed(p.Entries(blobs)[1..]), added.ty, added.val)
  {
    hide Clash, Reversed;
    var entries := p.Entries(blobs)[1..];
    var n := |entries|;
    var added := p.Added(blobs)[k];
    var aux := Reversed(entries);
    assert entries[|p.partial| - 1 + k] == added;
    ReversedAt(entries, |p.partial| - 1 + k);
    assert aux[n - 1 - (|p.partial| - 1 + k)] == added;
    forall i, j | 0 <= i < n && 0 <= j < n && aux[i].ty == added.ty && aux[j].ty == added.ty ensures i == j {
      ReversedAt(entries, n - 1 - i);
      ReversedAt(entries, n - 1 - j);
      SamePlace(p, blobs, k, n - 1 - i);
      SamePlace(p, blobs, k, n - 1 - j);
    }
  }

  lemma SamePlace(p: Program, blobs: Blobs, k: nat, i: nat)
    requires p.Valid() && !p.Clashes() && k < 4
    requires i < |p.Entries(blobs)[1..]| && p.Entries(blobs)[1..][i].ty == p.Added(blobs)[k].ty
    ensures i == |p.partial| - 1 + k
  {
    hide Clash;
    var types, added := Types(p.partial), p.AddedTypes();
    AddedTypesAre(p, blobs);
    var place := |p.partial| + k;
    assert (types + added)[place] == p.Added(blobs)[k].ty;
    assert (types + added)[i + 1] == p.Entries(blobs)[i + 1].ty;
    if i + 1 < place {
      AddedOnce(types, added, i + 1, place);
    } else if place < i + 1 {
      AddedOnce(types, added, place, i + 1);
    }
  }

  lemma AuxIsRead(memory: Memory, p: Program, blobs: Blobs)
    requires p.Valid() && !p.Clashes() && BlobsAt(memory, blobs, p)
    ensures AuxRead(memory, p, Reversed(p.Entries(blobs)[1..]))
  {
    hide Clash, Program.Clashes, Single, ReadsAs, HoldsAt;
    var aux := Reversed(p.Entries(blobs)[1..]);
    SingleOf(p, blobs, 0);
    SingleOf(p, blobs, 1);
    SingleOf(p, blobs, 2);
    SingleOf(p, blobs, 3);
    AuxOrder(p, blobs);
    assert Single(aux, 31, blobs.execFn) && Single(aux, 25, blobs.random);
    assert Single(aux, 15, blobs.platform) && Single(aux, 24, blobs.platform);
  }

  lemma AuxOrder(p: Program, blobs: Blobs)
    requires p.Valid()
    ensures Reversed(p.Entries(blobs)[1..]) ==
            Reversed(p.meta)
            + [AuxEntry(24, blobs.platform), AuxEntry(15, blobs.platform), AuxEntry(25, blobs.random),
               AuxEntry(31, blobs.execFn)]
            + Reversed(p.partial[1..])
  {
    var four := [AuxEntry(31, blobs.execFn), AuxEntry(25, blobs.random), AuxEntry(15, blobs.platform),
                 AuxEntry(24, blobs.platform)];
    assert p.Entries(blobs)[1..] == p.partial[1..] + four + p.meta;
    ReversedConcat(p.partial[1..] + four, p.meta);
    ReversedConcat(p.partial[1..], four);
    FourReversed(four[0], four[1], four[2], four[3]);
  }

  lemma FourReversed(a: AuxEntry, b: AuxEntry, c: AuxEntry, d: AuxEntry)
    ensures Reversed([a, b, c, d]) == [d, c, b, a]
  {
    assert [a, b, c, d][1..] == [b, c, d];
    assert [b, c, d][1..] == [c, d];
    assert [c, d][1..] == [d];
    assert Reversed([d]) == [d];
    assert Reversed([c, d]) == [d, c];
    assert Reversed([b, c, d]) == [d, c, b];
  }

  /** What a program read from its start-up stack. */
  datatype Startup = Startup(args: seq<Str>, envs: seq<(seq<byte>, seq<byte>)>, aux: seq<AuxEntry>, memory: Memory)

  /** A program started by the kernel sees exactly the arguments and environment it was
      given, in order, and the auxiliary entries, latest first, with addresses that lead to
      the program name, the platform name and the random bytes. */
  method ExecAndRead(p: Program, top: Word, limit: nat) returns (r: Result<Startup, BuildError>)
    requires p.Valid() && limit <= top < QUARTER && p.TextSize() + p.VectorSize() < HALF
    ensures r.Ok? <==> !p.Clashes() && p.FitsIn(top, limit)
    ensures r.Err? ==>
              r.error == if p.TextSize() <= limit && p.Clashes() then DuplicateAuxEntry else Refused(ArgumentTooLarge)
    ensures r.Ok? ==>
              && r.value.args == p.args && r.value.envs == SplitAll(p.envs)
              && r.value.memory.base == p.FinalSp(top) && r.value.memory.base % 16 == 0
              && AuxRead(r.value.memory, p, r.value.aux)
  {
    hide IsUtf8, WordBytes, Layout, Texts, BlobsAt, Reversed, Program.Clashes;
    var stack := new UserStack(top, limit);
    var sp, argAt, envAt, blobs, rest := BuildStack(stack, p);
    if sp.Err? { return Err(sp.error); }
    var runtime := new Runtime(stack.Image());
    ghost var v := Vectors(argAt, envAt, Reversed(p.Entries(blobs)[1..]), rest);
    VectorsIn(runtime.memory, p, argAt, envAt, blobs, rest);
    runtime.StartImpl(v);
    var args := CollectArgs(runtime, v, p.args);
    var envs := CollectEnvs(runtime, v, p.envs);
    var aux := CollectAux(runtime, v);
    AuxIsRead(runtime.memory, p, blobs);
    return Ok(Startup(args, envs, aux, runtime.memory));
  }

  lemma {:induction false} ReversedTypes(entries: seq<AuxEntry>)
    requires forall i :: 0 <= i < |entries| ==> entries[i].ty != 0
    ensures forall i :: 0 <= i < |entries| ==> Reversed(entries)[i].ty != 0
  {
    if entries != [] { ReversedTypes(entries[1..]); }
  }

  lemma VectorsIn(memory: Memory, p: Program, args: seq<Word>, envs: seq<Word>, blobs: Blobs, rest: seq<byte>)
    requires p.Valid() && Built(memory, p, args, envs, blobs, rest)
    ensures Vectors(args, envs, Reversed(p.Entries(blobs)[1..]), rest).In(memory)
    ensures |args| == |p.args| && Texts(memory, args, p.args)
    ensures |envs| == |p.envs| && Texts(memory, envs, p.envs) && BlobsAt(memory, blobs, p)
  {
    hide IsUtf8, WordBytes, Layout, BlobsAt, Reversed, Above;
    var entries := p.Entries(blobs)[1..];
    ReversedTypes(entries);
    PointersOf(memory, args, p.args);
    PointersOf(memory, envs, p.envs);
  }

  lemma PointersOf(memory: Memory, addresses: seq<Word>, strings: seq<Str>)
    requires Texts(memory, addresses, strings) && 0 !in addresses
    ensures forall i :: 0 <= i < |addresses| ==> Pointer(memory, addresses[i])
  {
    forall i | 0 <= i < |addresses| ensures Pointer(memory, addresses[i]) {
      assert ReadsAs(memory, addresses[i], strings[i]);
      assert addresses[i] in addresses;
    }
  }
}
