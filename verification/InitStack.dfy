/** The kernel's construction of the initial user stack, pushed from the top down. */
module InitStack {
  import opened Arithmetic
  import opened Bits
  import opened Bytes
  import opened StackImage

  datatype SysError = ArgumentTooLarge

  const AT_IGNORE: Word := 1
  const AT_PLATFORM: Word := 15
  const AT_BASE_PLATFORM: Word := 24
  const AT_RANDOM: Word := 25
  const AT_EXECFN: Word := 31

  /** Objects in memory are smaller than half the address space, and user space than a
      quarter of it. */
  const HALF: nat := 0x8000_0000_0000_0000
  const QUARTER: nat := 0x4000_0000_0000_0000

  /** Unsigned subtraction, which wraps. */
  function WrappingSub(a: Word, b: Word): Word {
    if a >= b then a - b else a + U64 - b
  }

  /** The stack under construction: `bytes` lie from `sp` to `top`, at most `limit` of them. */
  class UserStack {
    const top: Word
    const limit: nat
    var sp: nat
    var bytes: seq<byte>

    constructor (top: Word, limit: nat)
      requires limit <= top < QUARTER
      ensures this.top == top && this.limit == limit && bytes == [] && Valid()
    {
      this.top, this.limit, sp, bytes := top, limit, top, [];
    }

    ghost predicate Valid()
      reads this
    {
      sp + |bytes| == top && |bytes| <= limit <= top < QUARTER
    }

    function Image(): Memory
      reads this
    {
      Memory(sp, bytes)
    }

    /** `push_to_init_stack`: the data goes to the highest aligned address that leaves room
        for it, unless the stack would outgrow its limit; data too long even for the
        address space makes the subtractions wrap and is refused all the same. */
    method Push(data: seq<byte>, align: nat) returns (r: Result<nat, SysError>)
      requires Valid() && |data| < HALF && 0 < align <= 0x2000_0000
      modifies this`sp, this`bytes
      ensures Valid()
      ensures r == if |data| > old(sp) || top - AlignDown(old(sp) - |data|, align) > limit then Err(ArgumentTooLarge)
                   else Ok(AlignDown(old(sp) - |data|, align))
      ensures r.Ok? ==> sp == r.value && bytes == data + Zeros(old(sp) - |data| - sp) + old(bytes)
      ensures r.Err? ==> sp == old(sp) && bytes == old(bytes)
    {
      hide AlignDown;
      var at := AlignDown(WrappingSub(sp, |data|), align);
      if WrappingSub(top, at) > limit { return Err(ArgumentTooLarge); }
      bytes := data + Zeros(sp - |data| - at) + bytes;
      sp := at;
      return Ok(at);
    }

    /** An unaligned push, as used for strings. */
    method PushBytes(data: seq<byte>) returns (r: Result<nat, SysError>)
      requires Valid() && |data| < HALF
      modifies this`sp, this`bytes
      ensures Valid()
      ensures r == if top - old(sp) + |data| > limit then Err(ArgumentTooLarge) else Ok(old(sp) - |data|)
      ensures r.Ok? ==> sp == r.value && bytes == data + old(bytes)
    {
      r := Push(data, 1);
      if r.Ok? { assert data + Zeros(0) == data; }
    }

    /** A push of words onto a stack pointer that is already a multiple of eight. */
    method PushWords(words: seq<Word>) returns (r: Result<nat, SysError>)
      requires Valid() && 8 * |words| < HALF && sp % 8 == 0
      modifies this`sp, this`bytes
      ensures Valid()
      ensures r == if top - old(sp) + 8 * |words| > limit then Err(ArgumentTooLarge) else Ok(old(sp) - 8 * |words|)
      ensures r.Ok? ==> sp == r.value && sp % 8 == 0 && bytes == WordBytes(words) + old(bytes)
    {
      var data := WordBytes(words);
      r := Push(data, 8);
      if r.Ok? { assert data + Zeros(0) == data; }
    }

    /** `push_c_string_bytes`: the terminator, then the text below it. */
    method PushCString(text: seq<byte>) returns (r: Result<nat, SysError>)
      requires Valid() && |text| + 1 < HALF
      modifies this`sp, this`bytes
      ensures Valid()
      ensures r == if top - old(sp) + |text| + 1 > limit then Err(ArgumentTooLarge) else Ok(old(sp) - |text| - 1)
      ensures r.Ok? ==> sp == r.value && bytes == text + [0] + old(bytes)
    {
      r := PushBytes([0]);
      if r.Err? { return; }
      r := PushBytes(text);
      if r.Ok? { assert text + ([0] + old(bytes)) == text + [0] + old(bytes); }
    }
  }

  // ----- Strings ----------------------------------------------------------------------------

  function StringsSize(strings: seq<Str>): nat {
    if strings == [] then 0 else |strings[0]| + 1 + StringsSize(strings[1..])
  }

  /** The strings one after the other, each with its terminator. */
  function TextBytes(strings: seq<Str>): (bytes: seq<byte>)
    ensures |bytes| == StringsSize(strings)
  {
    if strings == [] then [] else strings[0] + [0] + TextBytes(strings[1..])
  }

  /** The data lies directly below what was there. */
  ghost predicate Placed(before: Memory, data: seq<byte>, after: Memory) {
    |data| <= before.base && after == Memory(before.base - |data|, data + before.bytes)
  }

  lemma PlacedTwice(a: Memory, first: seq<byte>, b: Memory, second: seq<byte>, c: Memory)
    requires Placed(a, first, b) && Placed(b, second, c)
    ensures Placed(a, second + first, c)
  {
    assert second + (first + a.bytes) == second + first + a.bytes;
  }

  lemma TextBytesFrom(memory: Memory, strings: seq<Str>, i: nat, before: Memory)
    requires i < |strings| && Placed(memory, TextBytes(strings[i + 1..]), before)
    requires |strings[i]| + 1 <= before.base
    ensures var after := Memory(before.base - |strings[i]| - 1, strings[i] + [0] + before.bytes);
            Placed(memory, TextBytes(strings[i..]), after)
  {
    hide IsUtf8;
    var after := Memory(before.base - |strings[i]| - 1, strings[i] + [0] + before.bytes);
    assert strings[i..][1..] == strings[i + 1..];
    PlacedTwice(memory, TextBytes(strings[i + 1..]), before, strings[i] + [0], after);
  }

  /** `push_arg_strings` and `push_env_strings`: last string first, so that the strings end
      up in order; the recorded addresses read back as the strings. */
  method PushStrings(stack: UserStack, strings: seq<Str>) returns (r: Result<seq<Word>, SysError>)
    requires stack.Valid() && StringsSize(strings) < HALF
    requires forall text <- strings :: 0 !in text
    modifies stack`sp, stack`bytes
    ensures stack.Valid()
    ensures r.Err? <==> stack.top - old(stack.sp) + StringsSize(strings) > stack.limit
    ensures r.Ok? ==>
              && stack.sp == old(stack.sp) - StringsSize(strings) && |r.value| == |strings|
              && Placed(old(stack.Image()), TextBytes(strings), stack.Image())
              && Grown(old(stack.Image()), stack.Image())
              && Texts(stack.Image(), r.value, strings)
  {
    hide IsUtf8, Grown, Texts, StringsSize, TextBytes, Placed;
    var addresses: seq<Word> := [];
    var i := |strings|;
    NoStrings(stack.Image(), strings);
    while i > 0
      invariant 0 <= i <= |strings| && stack.Valid()
      invariant stack.sp == old(stack.sp) - StringsSize(strings[i..])
      invariant Grown(old(stack.Image()), stack.Image())
      invariant Placed(old(stack.Image()), TextBytes(strings[i..]), stack.Image())
      invariant |addresses| == |strings| - i && Texts(stack.Image(), addresses, strings[i..])
    {
      i := i - 1;
      SizeFrom(strings, i);
      ghost var before := stack.Image();
      var at := stack.PushCString(strings[i]);
      if at.Err? { return Err(at.error); }
      OneMoreText(before, strings[i], addresses, strings[i + 1..]);
      TextBytesFrom(old(stack.Image()), strings, i, before);
      GrownTwice(old(stack.Image()), before, stack.Image());
      assert strings[i..] == [strings[i]] + strings[i + 1..];
      addresses := [at.value] + addresses;
    }
    assert strings[0..] == strings;
    return Ok(addresses);
  }

  lemma NoStrings(memory: Memory, strings: seq<Str>)
    ensures Grown(memory, memory) && Texts(memory, [], strings[|strings|..]) && StringsSize(strings[|strings|..]) == 0
    ensures Placed(memory, TextBytes(strings[|strings|..]), memory)
  {
  }

  lemma GrownTwice(a: Memory, b: Memory, c: Memory)
    requires Grown(a, b) && Grown(b, c)
    ensures Grown(a, c)
  {
    var n, m := |c.bytes| - |b.bytes|, |b.bytes| - |a.bytes|;
    assert c.bytes[n + m..] == c.bytes[n..][m..];
  }

  /** Memory extended downward: everything held before is still there. */
  ghost predicate Grown(before: Memory, after: Memory) {
    && after.Limit() == before.Limit() && |before.bytes| <= |after.bytes|
    && after.bytes[|after.bytes| - |before.bytes|..] == before.bytes
  }

  /** The addresses are inside the memory and read as the strings. */
  ghost predicate Texts(memory: Memory, addresses: seq<Word>, strings: seq<Str>) {
    && |addresses| == |strings|
    && forall i :: 0 <= i < |strings| ==> ReadsAs(memory, addresses[i], strings[i])
  }

  ghost predicate ReadsAs(memory: Memory, address: nat, text: seq<byte>) {
    memory.base <= address <= memory.Limit() && memory.CStrAt(address) == text
  }

  lemma SizeFrom(strings: seq<Str>, i: nat)
    requires i < |strings|
    ensures StringsSize(strings[i..]) == |strings[i]| + 1 + StringsSize(strings[i + 1..])
    ensures StringsSize(strings[i..]) <= StringsSize(strings)
  {
    assert strings[i..][1..] == strings[i + 1..];
    SizeOfTail(strings, i);
  }

  lemma {:induction false} SizeOfTail(strings: seq<Str>, i: nat)
    requires i <= |strings|
    ensures StringsSize(strings[i..]) <= StringsSize(strings)
  {
    if i == 0 {
      assert strings[0..] == strings;
    } else {
      assert strings[1..][i - 1..] == strings[i..];
      SizeOfTail(strings[1..], i - 1);
    }
  }

  /** What memory reads as, it still reads as after growing. */
  lemma StillReads(before: Memory, after: Memory, address: nat, text: seq<byte>)
    requires Grown(before, after) && ReadsAs(before, address, text)
    ensures ReadsAs(after, address, text)
  {
    var below := after.bytes[..|after.bytes| - |before.bytes|];
    assert after.bytes == below + before.bytes;
    GrowthKeeps(before.base, below, before.bytes, address);
  }

  lemma StillTexts(before: Memory, after: Memory, addresses: seq<Word>, strings: seq<Str>)
    requires Grown(before, after) && Texts(before, addresses, strings)
    ensures Texts(after, addresses, strings)
  {
    forall i | 0 <= i < |strings| ensures ReadsAs(after, addresses[i], strings[i]) {
      StillReads(before, after, addresses[i], strings[i]);
    }
  }

  lemma OneMoreText(before: Memory, text: Str, addresses: seq<Word>, strings: seq<Str>)
    requires 0 !in text && |text| + 1 <= before.base < U64
    requires Texts(before, addresses, strings)
    ensures var after := Memory(before.base - |text| - 1, text + [0] + before.bytes);
            Grown(before, after) && Texts(after, [after.base] + addresses, [text] + strings)
  {
    hide IsUtf8, ReadsAs;
    var after := Memory(before.base - |text| - 1, text + [0] + before.bytes);
    StringReadsAs(after.base, text, before.bytes);
    assert Grown(before, after);
    StillTexts(before, after, addresses, strings);
  }

  lemma StringReadsAs(base: nat, text: seq<byte>, rest: seq<byte>)
    requires 0 !in text
    ensures ReadsAs(Memory(base, text + [0] + rest), base, text)
  {
    StringReads(base, text, rest);
  }

  // ----- Vectors ----------------------------------------------------------------------------

  /** `push_envp` and `push_argv`: the null terminator, then the pointers, last first. */
  method PushPointers(stack: UserStack, pointers: seq<Word>) returns (r: Result<(), SysError>)
    requires stack.Valid() && stack.sp % 8 == 0 && 8 * (|pointers| + 1) < HALF
    modifies stack`sp, stack`bytes
    ensures stack.Valid()
    ensures r.Err? <==> stack.top - old(stack.sp) + 8 * (|pointers| + 1) > stack.limit
    ensures r.Ok? ==>
              && stack.sp == old(stack.sp) - 8 * (|pointers| + 1)
              && stack.bytes == WordBytes(pointers + [0]) + old(stack.bytes)
  {
    var pushed := stack.PushWords([0]);
    if pushed.Err? { return Err(pushed.error); }
    var i := |pointers|;
    assert pointers[i..] + [0] == [0];
    while i > 0
      invariant 0 <= i <= |pointers| && stack.Valid()
      invariant stack.sp == old(stack.sp) - 8 * (|pointers| + 1 - i) && stack.sp % 8 == 0
      invariant stack.bytes == WordBytes(pointers[i..] + [0]) + old(stack.bytes)
    {
      i := i - 1;
      pushed := stack.PushWords([pointers[i]]);
      if pushed.Err? { return Err(pushed.error); }
      OneMoreWords([pointers[i]], pointers[i + 1..] + [0], old(stack.bytes));
      assert pointers[i..] + [0] == [pointers[i]] + (pointers[i + 1..] + [0]);
    }
    assert pointers[0..] == pointers;
    return Ok(());
  }

  lemma OneMoreWords(first: seq<Word>, rest: seq<Word>, bytes: seq<byte>)
    ensures WordBytes(first) + (WordBytes(rest) + bytes) == WordBytes(first + rest) + bytes
  {
    WordBytesConcat(first, rest);
  }

  function Reversed(entries: seq<AuxEntry>): (r: seq<AuxEntry>)
    ensures |r| == |entries|
  {
    if entries == [] then [] else Reversed(entries[1..]) + [entries[0]]
  }

  lemma {:induction false} ReversedAppend(entries: seq<AuxEntry>, last: AuxEntry)
    ensures Reversed(entries + [last]) == [last] + Reversed(entries)
  {
    if entries != [] {
      assert (entries + [last])[1..] == entries[1..] + [last];
      ReversedAppend(entries[1..], last);
    }
  }

  /** `push_auxv`: in list order, so that memory holds the list backwards and its leading
      null entry ends the vector. */
  method PushAuxv(stack: UserStack, entries: seq<AuxEntry>) returns (r: Result<(), SysError>)
    requires stack.Valid() && stack.sp % 8 == 0 && 16 * |entries| < HALF
    modifies stack`sp, stack`bytes
    ensures stack.Valid()
    ensures r.Err? <==> stack.top - old(stack.sp) + 16 * |entries| > stack.limit
    ensures r.Ok? ==>
              && stack.sp == old(stack.sp) - 16 * |entries|
              && stack.bytes == WordBytes(AuxWords(Reversed(entries))) + old(stack.bytes)
  {
    var i := 0;
    while i < |entries|
      invariant 0 <= i <= |entries| && stack.Valid()
      invariant stack.sp == old(stack.sp) - 16 * i && stack.sp % 8 == 0
      invariant stack.bytes == WordBytes(AuxWords(Reversed(entries[..i]))) + old(stack.bytes)
    {
      var words := [entries[i].ty, entries[i].val];
      var pushed := stack.PushWords(words);
      if pushed.Err? { return Err(pushed.error); }
      OneMoreEntry(entries[..i], entries[i], old(stack.bytes));
      assert entries[..i + 1] == entries[..i] + [entries[i]];
      i := i + 1;
    }
    assert entries[..|entries|] == entries;
    return Ok(());
  }

  lemma OneMoreEntry(entries: seq<AuxEntry>, next: AuxEntry, bytes: seq<byte>)
    ensures WordBytes([next.ty, next.val]) + (WordBytes(AuxWords(Reversed(entries))) + bytes)
            == WordBytes(AuxWords(Reversed(entries + [next]))) + bytes
  {
    hide WordBytes, Reversed;
    var rest := AuxWords(Reversed(entries));
    ReversedAppend(entries, next);
    assert ([next] + Reversed(entries))[1..] == Reversed(entries);
    OneMoreWords([next.ty, next.val], rest, bytes);
  }

  // ----- Blobs of the auxiliary vector ------------------------------------------------------

  /** Addresses recorded for the auxiliary vector; both platform entries share one string. */
  datatype Blobs = Blobs(execFn: Word, random: Word, platform: Word)

  ghost predicate HoldsAt(memory: Memory, address: nat, data: seq<byte>) {
    && memory.base <= address && address + |data| <= memory.Limit()
    && memory.bytes[address - memory.base..][..|data|] == data
  }

  lemma StillHolds(before: Memory, after: Memory, address: nat, data: seq<byte>)
    requires Grown(before, after) && HoldsAt(before, address, data)
    ensures HoldsAt(after, address, data)
  {
    var n := |after.bytes| - |before.bytes|;
    assert after.bytes[address - after.base..] == after.bytes[n..][address - before.base..];
  }

  // ----- The list of auxiliary entries --------------------------------------------------------

  datatype BuildError = Refused(error: SysError) | DuplicateAuxEntry    // the second is a panic

  function Types(entries: seq<AuxEntry>): (types: seq<Word>)
    ensures |types| == |entries| && forall i :: 0 <= i < |types| ==> types[i] == entries[i].ty
  {
    seq(|entries|, i requires 0 <= i < |entries| => entries[i].ty)
  }

  /** Some type added to the list, other than the one that may repeat, is there already. */
  predicate Clash(existing: seq<Word>, added: seq<Word>)
    decreases |added|
  {
    added != [] && ((added[0] != AT_IGNORE && added[0] in existing) || Clash(existing + [added[0]], added[1..]))
  }

  /** `AuxV::push`: panics on a second entry of a type that must be unique. */
  method AuxPush(entries: seq<AuxEntry>, entry: AuxEntry) returns (r: Option<seq<AuxEntry>>)
    ensures r == if entry.ty != AT_IGNORE && entry.ty in Types(entries) then None else Some(entries + [entry])
  {
    for i := 0 to |entries|
      invariant entry.ty == AT_IGNORE || forall j :: 0 <= j < i ==> entries[j].ty != entry.ty
    {
      if entries[i].ty == entry.ty && entry.ty != AT_IGNORE {
        assert Types(entries)[i] == entry.ty;
        return None;
      }
    }
    return Some(entries + [entry]);
  }

  /** What a new program is given: its name, strings, and the two lists of auxiliary entries
      between which the recorded addresses go. The first entry of the first list is null. */
  datatype Program = Program(execFn: Str, platform: Str, random: seq<byte>, args: seq<Str>, envs: seq<Str>,
                             partial: seq<AuxEntry>, meta: seq<AuxEntry>)
  {
    ghost predicate Valid() {
      && 0 !in execFn && 0 !in platform && |random| == 16
      && (forall text <- args :: 0 !in text) && (forall text <- envs :: 0 !in text)
      && partial != [] && partial[0] == NULL_ENTRY
      && (forall i :: 1 <= i < |partial| ==> partial[i].ty != 0) && (forall e <- meta :: e.ty != 0)
    }

    function BlobSize(): nat {
      |execFn| + 1 + 16 + |platform| + 1
    }

    /** What the recorded addresses point into: program name on top, then the random bytes and
        the platform name. */
    function BlobBytes(): (bytes: seq<byte>)
      ensures |bytes| == |platform| + |random| + |execFn| + 2
    {
      platform + [0] + random + execFn + [0]
    }

    /** Everything above the padding. */
    function TextImage(): seq<byte> {
      TextBytes(args) + (TextBytes(envs) + BlobBytes())
    }

    function TextSize(): nat {
      BlobSize() + StringsSize(envs) + StringsSize(args)
    }

    /** `precalc_size`. */
    function VectorSize(): nat {
      16 * (|partial| + 4 + |meta|) + 8 * (|envs| + 1) + 8 * (|args| + 1) + 8
    }

    /** What `prepare_auxv` adds, and the list it makes. */
    function Added(blobs: Blobs): (entries: seq<AuxEntry>)
      ensures |entries| == 4 + |meta|
    {
      [AuxEntry(AT_EXECFN, blobs.execFn), AuxEntry(AT_RANDOM, blobs.random),
       AuxEntry(AT_PLATFORM, blobs.platform), AuxEntry(AT_BASE_PLATFORM, blobs.platform)]
      + meta
    }

    function Entries(blobs: Blobs): (entries: seq<AuxEntry>)
      ensures |entries| == |partial| + 4 + |meta|
    {
      partial + Added(blobs)
    }

    /** The types of the entries that `prepare_auxv` adds, in order. */
    function AddedTypes(): seq<Word> {
      [AT_EXECFN, AT_RANDOM, AT_PLATFORM, AT_BASE_PLATFORM] + Types(meta)
    }

    /** Whether adding them to the first list panics. */
    predicate Clashes() {
      Clash(Types(partial), AddedTypes())
    }

    /** Where the stack pointer ends up. */
    function FinalSp(top: nat): nat
      requires TextSize() + VectorSize() <= top
    {
      AlignDown(top - TextSize() - VectorSize(), 16)
    }

    /** Whether the whole image, padding included, stays within the limit. */
    predicate FitsIn(top: nat, limit: nat) {
      TextSize() + VectorSize() <= top && top - FinalSp(top) <= limit
    }
  }

  /** `prepare_auxv`: the recorded addresses and the entries of the image, one by one. */
  method PrepareAuxv(p: Program, blobs: Blobs) returns (r: Option<seq<AuxEntry>>)
    ensures r == if p.Clashes() then None else Some(p.Entries(blobs))
  {
    hide Clash, Types;
    var entries, added := p.partial, p.Added(blobs);
    AddedTypesAre(p, blobs);
    assert added[0..] == added;
    for i := 0 to |added|
      invariant entries == p.partial + added[..i]
      invariant Clash(Types(entries), Types(added[i..])) == p.Clashes()
    {
      var next := AuxPush(entries, added[i]);
      OneMoreType(entries, added[i..]);
      if next.None? { return None; }
      assert added[i..][1..] == added[i + 1..];
      entries := next.value;
    }
    assert added[..|added|] == added;
    NoMoreTypes(entries, added[|added|..]);
    return Some(entries);
  }

  lemma AddedTypesAre(p: Program, blobs: Blobs)
    ensures Types(p.Added(blobs)) == p.AddedTypes()
  {
  }

  lemma NoMoreTypes(entries: seq<AuxEntry>, added: seq<AuxEntry>)
    requires added == []
    ensures !Clash(Types(entries), Types(added))
  {
  }

  lemma OneMoreType(entries: seq<AuxEntry>, added: seq<AuxEntry>)
    requires added != []
    ensures Clash(Types(entries), Types(added)) <==>
            || (added[0].ty != AT_IGNORE && added[0].ty in Types(entries))
            || Clash(Types(entries + [added[0]]), Types(added[1..]))
  {
    assert Types(added)[1..] == Types(added[1..]);
    assert Types(entries) + [added[0].ty] == Types(entries + [added[0]]);
  }

  ghost predicate BlobsAt(memory: Memory, blobs: Blobs, p: Program) {
    && ReadsAs(memory, blobs.execFn, p.execFn) && ReadsAs(memory, blobs.platform, p.platform)
    && HoldsAt(memory, blobs.random, p.random)
  }

  lemma StillBlobs(before: Memory, after: Memory, blobs: Blobs, p: Program)
    requires Grown(before, after) && BlobsAt(before, blobs, p)
    ensures BlobsAt(after, blobs, p)
  {
    hide Grown, ReadsAs, HoldsAt;
    StillReads(before, after, blobs.execFn, p.execFn);
    StillReads(before, after, blobs.platform, p.platform);
    StillHolds(before, after, blobs.random, p.random);
  }

  /** `push_aux_blob`. */
  method PushBlobs(stack: UserStack, p: Program) returns (r: Result<Blobs, SysError>)
    requires stack.Valid() && p.Valid() && p.BlobSize() < HALF
    modifies stack`sp, stack`bytes
    ensures stack.Valid()
    ensures r.Err? <==> stack.top - old(stack.sp) + p.BlobSize() > stack.limit
    ensures r.Ok? ==>
              && stack.sp == old(stack.sp) - p.BlobSize()
              && Placed(old(stack.Image()), p.BlobBytes(), stack.Image())
              && Grown(old(stack.Image()), stack.Image()) && BlobsAt(stack.Image(), r.value, p)
  {
    hide IsUtf8, ReadsAs, HoldsAt, Grown;
    var execFn := stack.PushCString(p.execFn);
    if execFn.Err? { return Err(execFn.error); }
    ghost var named := stack.Image();
    GrownBy(old(stack.Image()), p.execFn + [0]);
    StringReadsAs(stack.sp, p.execFn, old(stack.bytes));
    var random := stack.PushBytes(p.random);
    if random.Err? { return Err(random.error); }
    ghost var randomized := stack.Image();
    GrownBy(named, p.random);
    BytesHeld(stack.sp, p.random, named.bytes);
    var platform := stack.PushCString(p.platform);
    if platform.Err? { return Err(platform.error); }
    GrownBy(randomized, p.platform + [0]);
    StringReadsAs(stack.sp, p.platform, randomized.bytes);
    GrownTwice(named, randomized, stack.Image());
    GrownTwice(old(stack.Image()), named, stack.Image());
    StillReads(named, stack.Image(), execFn.value, p.execFn);
    StillHolds(randomized, stack.Image(), random.value, p.random);
    BlobsPlaced(old(stack.Image()), named, randomized, stack.Image(), p);
    return Ok(Blobs(execFn.value, random.value, platform.value));
  }

  lemma BlobsPlaced(a: Memory, b: Memory, c: Memory, d: Memory, p: Program)
    requires Placed(a, p.execFn + [0], b) && Placed(b, p.random, c) && Placed(c, p.platform + [0], d)
    ensures Placed(a, p.BlobBytes(), d)
  {
    hide IsUtf8, Placed;
    PlacedTwice(a, p.execFn + [0], b, p.random, c);
    PlacedTwice(a, p.random + (p.execFn + [0]), c, p.platform + [0], d);
    assert p.platform + [0] + (p.random + (p.execFn + [0])) == p.BlobBytes();
  }

  lemma GrownBy(memory: Memory, below: seq<byte>)
    requires |below| <= memory.base
    ensures Grown(memory, Memory(memory.base - |below|, below + memory.bytes))
  {
  }

  lemma BytesHeld(base: nat, data: seq<byte>, rest: seq<byte>)
    ensures HoldsAt(Memory(base, data + rest), base, data)
  {
  }

  // ----- The whole stack --------------------------------------------------------------------

  /** The vectors and the count, below the strings and the padding. */
  method PushVectors(stack: UserStack, args: seq<Word>, envs: seq<Word>, entries: seq<AuxEntry>)
    returns (r: Result<nat, SysError>)
    requires stack.Valid() && stack.sp % 8 == 0 && entries != [] && entries[0] == NULL_ENTRY
    requires 16 * |entries| + 8 * (|envs| + 1) + 8 * (|args| + 1) + 8 < HALF
    modifies stack`sp, stack`bytes
    ensures stack.Valid()
    ensures var size := 16 * |entries| + 8 * (|envs| + 1) + 8 * (|args| + 1) + 8;
            r == if stack.top - old(stack.sp) + size > stack.limit then Err(ArgumentTooLarge)
                 else Ok(old(stack.sp) - size)
    ensures r.Ok? ==>
              && stack.sp == r.value
              && stack.bytes == WordBytes(Layout(args, envs, Reversed(entries[1..]))) + old(stack.bytes)
  {
    hide WordBytes, AuxWords, Layout, Reversed;
    var pushed := PushAuxv(stack, entries);
    if pushed.Err? { return Err(ArgumentTooLarge); }
    pushed := PushPointers(stack, envs);
    if pushed.Err? { return Err(ArgumentTooLarge); }
    pushed := PushPointers(stack, args);
    if pushed.Err? { return Err(ArgumentTooLarge); }
    r := stack.PushWords([|args|]);
    if r.Err? { return; }
    LayoutBytes(args, envs, entries, old(stack.bytes));
  }

  lemma LayoutBytes(args: seq<Word>, envs: seq<Word>, entries: seq<AuxEntry>, bytes: seq<byte>)
    requires |args| < U64 && entries != [] && entries[0] == NULL_ENTRY
    ensures WordBytes([|args|]) + (WordBytes(args + [0]) + (WordBytes(envs + [0])
                                                            + (WordBytes(AuxWords(Reversed(entries))) + bytes)))
            == WordBytes(Layout(args, envs, Reversed(entries[1..]))) + bytes
  {
    hide WordBytes, AuxWords;
    var aux := AuxWords(Reversed(entries));
    OneMoreWords(envs + [0], aux, bytes);
    OneMoreWords(args + [0], (envs + [0]) + aux, bytes);
    OneMoreWords([|args|], (args + [0]) + ((envs + [0]) + aux), bytes);
    assert [|args|] + ((args + [0]) + ((envs + [0]) + aux)) == Layout(args, envs, Reversed(entries[1..]));
  }

  /** What the finished stack holds. */
  ghost predicate Built(memory: Memory, p: Program, args: seq<Word>, envs: seq<Word>, blobs: Blobs, rest: seq<byte>) {
    && |args| < U64
    && memory.bytes == WordBytes(Layout(args, envs, Reversed(p.Entries(blobs)[1..]))) + rest
    && Above(rest, p)
    && 0 !in args && 0 !in envs
    && TextsAt(memory, p, args, envs, blobs)
  }

  /** Fewer than 16 zero bytes below. */
  ghost predicate Padded(before: Memory, after: Memory) {
    exists n: nat :: n < 16 && after.bytes == Zeros(n) + before.bytes
  }

  /** What lies above the vectors: padding, then exactly the texts of the program. */
  ghost predicate Above(bytes: seq<byte>, p: Program) {
    exists n: nat :: n < 16 && bytes == Zeros(n) + p.TextImage()
  }

  lemma IsAbove(empty: Memory, first: Memory, second: Memory, p: Program)
    requires empty.bytes == [] && Placed(empty, p.TextImage(), first) && Padded(first, second)
    ensures Above(second.bytes, p)
  {
    assert p.TextImage() + [] == p.TextImage();
  }

  ghost predicate TextsAt(memory: Memory, p: Program, args: seq<Word>, envs: seq<Word>, blobs: Blobs) {
    Texts(memory, args, p.args) && Texts(memory, envs, p.envs) && BlobsAt(memory, blobs, p)
  }

  lemma StillTextsAt(before: Memory, after: Memory, p: Program, args: seq<Word>, envs: seq<Word>, blobs: Blobs)
    requires Grown(before, after) && TextsAt(before, p, args, envs, blobs)
    ensures TextsAt(after, p, args, envs, blobs)
  {
    hide Grown, Texts, BlobsAt;
    StillTexts(before, after, args, p.args);
    StillTexts(before, after, envs, p.envs);
    StillBlobs(before, after, blobs, p);
  }

  /** The first pass: every string, with its address recorded. */
  method PushTexts(stack: UserStack, p: Program) returns (r: Result<(seq<Word>, seq<Word>, Blobs), SysError>)
    requires stack.Valid() && p.Valid() && p.TextSize() < HALF
    modifies stack`sp, stack`bytes
    ensures stack.Valid()
    ensures r.Err? <==> stack.top - old(stack.sp) + p.TextSize() > stack.limit
    ensures r.Ok? ==>
              && stack.sp == old(stack.sp) - p.TextSize()
              && |r.value.0| == |p.args| && |r.value.1| == |p.envs|
              && Placed(old(stack.Image()), p.TextImage(), stack.Image())
              && TextsAt(stack.Image(), p, r.value.0, r.value.1, r.value.2)
  {
    hide IsUtf8, Grown, Texts, BlobsAt, StringsSize, TextBytes, Program.BlobBytes, Placed;
    var recorded := PushBlobs(stack, p);
    if recorded.Err? { return Err(recorded.error); }
    ghost var first := stack.Image();
    var envs := PushStrings(stack, p.envs);
    if envs.Err? { return Err(envs.error); }
    ghost var second := stack.Image();
    var args := PushStrings(stack, p.args);
    if args.Err? { return Err(args.error); }
    StillTexts(second, stack.Image(), envs.value, p.envs);
    GrownTwice(first, second, stack.Image());
    StillBlobs(first, stack.Image(), recorded.value, p);
    PlacedTwice(old(stack.Image()), p.BlobBytes(), first, TextBytes(p.envs), second);
    PlacedTwice(old(stack.Image()), TextBytes(p.envs) + p.BlobBytes(), second, TextBytes(p.args), stack.Image());
    return Ok((args.value, envs.value, recorded.value));
  }

  /** `InitStackCtor::push`. The stack pointer is 16-byte aligned and the vectors lie
      exactly below the padding; it fails exactly when the strings alone or the whole image
      exceed the limit, and panics exactly when the auxiliary entries clash. */
  method BuildStack(stack: UserStack, p: Program)
    returns (r: Result<nat, BuildError>, ghost args: seq<Word>, ghost envs: seq<Word>, ghost blobs: Blobs,
             ghost rest: seq<byte>)
    requires stack.Valid() && stack.bytes == [] && p.Valid() && p.TextSize() + p.VectorSize() < HALF
    modifies stack`sp, stack`bytes
    ensures stack.Valid()
    ensures r == if p.TextSize() > stack.limit then Err(Refused(ArgumentTooLarge))
                 else if p.Clashes() then Err(DuplicateAuxEntry)
                 else if !p.FitsIn(stack.top, stack.limit) then Err(Refused(ArgumentTooLarge))
                 else Ok(p.FinalSp(stack.top))
    ensures r.Ok? ==> r.value == stack.sp && r.value % 16 == 0 && Built(stack.Image(), p, args, envs, blobs, rest)
  {
    hide IsUtf8, Grown, TextsAt, StringsSize, WordBytes, Layout, Reversed, AlignDown, Zeros, Program.Clashes;
    hide Placed, Padded, Above, Program.TextImage, Program.TextSize, Program.VectorSize;
    hide Program.FitsIn, Program.FinalSp;
    args, envs, blobs, rest := [], [], Blobs(0, 0, 0), [];
    var texts := PushTexts(stack, p);
    if texts.Err? { r := Err(Refused(ArgumentTooLarge)); return; }
    ghost var first := stack.Image();

    var entries := PrepareAuxv(p, texts.value.2);
    if entries.None? { r := Err(DuplicateAuxEntry); return; }
    WhereItEnds(p, stack.top, stack.limit);
    SizeOfVectors(p, texts.value.0, texts.value.1, entries.value);
    var padded := PushPadding(stack, p.VectorSize());
    if padded.Err? { r := Err(Refused(ArgumentTooLarge)); return; }
    ghost var second := stack.Image();
    IsAbove(old(stack.Image()), first, second, p);
    var built := PushVectors(stack, texts.value.0, texts.value.1, entries.value);
    if built.Err? { r := Err(Refused(ArgumentTooLarge)); return; }
    r := Ok(built.value);
    args, envs, blobs, rest := texts.value.0, texts.value.1, texts.value.2, second.bytes;
    IsBuilt(first, second, stack.Image(), p, args, envs, blobs);
  }

  lemma WhereItEnds(p: Program, top: nat, limit: nat)
    ensures p.FitsIn(top, limit) <==>
            && p.TextSize() + p.VectorSize() <= top
            && top - AlignDown(top - p.TextSize() - p.VectorSize(), 16) <= limit
    ensures p.TextSize() + p.VectorSize() <= top ==>
              p.FinalSp(top) == AlignDown(top - p.TextSize() - p.VectorSize(), 16)
  {
    hide AlignDown, Program.TextSize, Program.VectorSize;
  }

  lemma SizeOfVectors(p: Program, args: seq<Word>, envs: seq<Word>, entries: seq<AuxEntry>)
    requires |args| == |p.args| && |envs| == |p.envs| && |entries| == |p.partial| + 4 + |p.meta|
    ensures 16 * |entries| + 8 * (|envs| + 1) + 8 * (|args| + 1) + 8 == p.VectorSize() && p.VectorSize() % 8 == 0
    ensures |args| < p.VectorSize()
  {
  }

  lemma IsBuilt(first: Memory, second: Memory, last: Memory, p: Program, args: seq<Word>, envs: seq<Word>, blobs: Blobs)
    requires TextsAt(first, p, args, envs, blobs) && Grown(first, second) && first.base > 0 && |args| < U64
    requires last.bytes == WordBytes(Layout(args, envs, Reversed(p.Entries(blobs)[1..]))) + second.bytes
    requires last.base + |last.bytes| == second.Limit() && Above(second.bytes, p)
    ensures Built(last, p, args, envs, blobs, second.bytes)
  {
    hide Grown, TextsAt, WordBytes, Layout, Reversed, Above;
    GrownBy(second, WordBytes(Layout(args, envs, Reversed(p.Entries(blobs)[1..]))));
    assert last == Memory(second.base - (|last.bytes| - |second.bytes|), last.bytes);
    GrownTwice(first, second, last);
    NonNull(first, p, args, envs, blobs);
    StillTextsAt(first, last, p, args, envs, blobs);
  }

  /** The padding that brings the stack pointer to 16 bytes below the vectors. */
  method PushPadding(stack: UserStack, vectors: nat) returns (r: Result<nat, SysError>)
    requires stack.Valid() && vectors < HALF && vectors % 8 == 0
    modifies stack`sp, stack`bytes
    ensures stack.Valid()
    ensures vectors <= old(stack.sp) ==>
              var at := AlignDown(old(stack.sp) - vectors, 16) + vectors;
              r == if stack.top - at > stack.limit then Err(ArgumentTooLarge) else Ok(at)
    ensures r.Ok? ==>
              && stack.sp == r.value <= old(stack.sp) && stack.sp % 8 == 0
              && (vectors <= old(stack.sp) ==> (stack.sp - vectors) % 16 == 0)
              && Grown(old(stack.Image()), stack.Image()) && Padded(old(stack.Image()), stack.Image())
  {
    hide AlignDown, Grown, Zeros;
    PaddingAligns(stack.sp, vectors);
    var below := WrappingSub(stack.sp, vectors);
    var expected := AlignDown(below, 16);
    AlignDownNear(below);
    var padding := below - expected;
    ghost var before := stack.Image();
    r := stack.PushBytes(Zeros(padding));
    if r.Ok? { GrownBy(before, Zeros(padding)); }
  }

  /** The source aligns with a mask. */
  lemma AlignIsMask(value: Word)
    ensures And(value, U64 - 16) == AlignDown(value, 16)
  {
    assert Pow2(4) == 16;
    hide And, AlignDown, Pow2;
    WordSize();
    MaskRoundsDown(value, 4, 64);
  }

  lemma AlignDownNear(value: Word)
    ensures value - 16 < AlignDown(value, 16) <= value
  {
  }

  lemma PaddingAligns(sp: Word, vectors: Word)
    requires vectors % 8 == 0
    ensures var below := WrappingSub(sp, vectors);
            var padding := below - AlignDown(below, 16);
            (sp - padding) % 8 == 0 && (sp - padding - vectors) % 16 == 0
  {
  }

  lemma NonNull(memory: Memory, p: Program, args: seq<Word>, envs: seq<Word>, blobs: Blobs)
    requires TextsAt(memory, p, args, envs, blobs) && memory.base > 0
    ensures 0 !in args && 0 !in envs
  {
  }
}
