/** The kernel side of `getdents64` on `/proc/nemophila`, and the whole path from the
    instance snapshot to the identities userspace reads. */
module DirentKernel {
  import opened Bytes
  import opened Dirent

  datatype SysError = InvalidArgument | OutOfMemory | BadAddress

  datatype SinkResult = Accepted | Stop

  /** The bounded staging buffer of one call. */
  class Sink {
    const buffer: array<byte>
    var offset: nat

    constructor (capacity: nat)
      ensures fresh(buffer) && buffer.Length == capacity && offset == 0
    {
      buffer := new byte[capacity](_ => 0);
      offset := 0;
    }

    ghost predicate Valid()
      reads this
    {
      offset <= buffer.Length
    }

    /** What has been written so far. */
    function Written(): seq<byte>
      reads this, buffer
      requires Valid()
    {
      buffer[..offset]
    }

    /** `ByteWriter::write_bytes`, within capacity. */
    method WriteBytes(bytes: seq<byte>)
      requires Valid() && offset + |bytes| <= buffer.Length
      modifies this`offset, buffer
      ensures Valid() && offset == old(offset) + |bytes| && Written() == old(Written()) + bytes
    {
      forall i | 0 <= i < |bytes| { buffer[offset + i] := bytes[i]; }
      offset := offset + |bytes|;
    }

    /** Appends the whole record or nothing: an entry that does not fit stops the batch,
        or is an error when the batch is still empty. */
    method Push(entry: DirEntry) returns (r: Result<SinkResult, SysError>)
      requires Valid()
      modifies this`offset, buffer
      ensures Valid()
      ensures var len := RecordLen(|entry.name|);
              r == if len > buffer.Length - old(offset)
                   then (if old(offset) == 0 then Err(InvalidArgument) else Ok(Stop))
                   else if len >= 0x1_0000 then Err(InvalidArgument)
                   else Ok(Accepted)
      ensures Written() == if r == Ok(Accepted) then old(Written()) + Record(entry) else old(Written())
    {
      hide IsUtf8, ToLe, RecordHeader, Zeros;
      var len := RecordLen(|entry.name|);
      if len > buffer.Length - offset {
        return if offset == 0 then Err(InvalidArgument) else Ok(Stop);
      }
      if len >= 0x1_0000 { return Err(InvalidArgument); }
      WriteBytes(RecordHeader(entry));
      WriteBytes(entry.name);
      WriteBytes([0]);
      var padding := Zeros(len - HEADER_SIZE - |entry.name| - 1);
      WriteBytes(padding);
      Glue(old(Written()), RecordHeader(entry), entry.name, [0], padding);
      return Ok(Accepted);
    }
  }

  lemma Glue(w: seq<byte>, a: seq<byte>, b: seq<byte>, c: seq<byte>, d: seq<byte>)
    ensures w + a + b + c + d == w + (a + b + c + d)
  {
  }

  // ----- A record reads back ----------------------------------------------------------

  /** A name the producer may use: no terminator inside, and short enough for a record. */
  predicate Plain(entry: DirEntry) {
    0 !in entry.name && RecordLen(|entry.name|) < 0x1_0000
  }

  lemma Parts(h: seq<byte>, m: seq<byte>, t: seq<byte>)
    ensures (h + m + t)[..|h|] == h && (h + m + t)[|h|..|h| + |m|] == m
  {
  }

  lemma LengthField(entry: DirEntry)
    ensures RecordHeader(entry)[16..18] == ToLe(RecordLen(|entry.name|), 2)
  {
    hide RecordLen, IsUtf8;
    Parts(ToLe(entry.ino, 8) + ToLe(39, 8), ToLe(RecordLen(|entry.name|), 2), [entry.kind]);
  }

  lemma RecordParts(entry: DirEntry, rest: seq<byte>)
    ensures var bytes := Record(entry) + rest;
            var len := RecordLen(|entry.name|);
            && bytes[16..18] == ToLe(len, 2)
            && bytes[HEADER_SIZE..len] == entry.name + [0] + Zeros(len - HEADER_SIZE - |entry.name| - 1)
  {
    hide IsUtf8, ToLe, RecordHeader;
    var h := RecordHeader(entry);
    var m := entry.name + [0] + Zeros(RecordLen(|entry.name|) - HEADER_SIZE - |entry.name| - 1);
    LengthField(entry);
    assert Record(entry) + rest == h + m + rest;
    Parts(h, m, rest);
    assert (h + m + rest)[16..18] == (h + m + rest)[..|h|][16..18];
  }

  lemma RecordIsFramed(entry: DirEntry, rest: seq<byte>)
    requires Plain(entry)
    ensures var bytes := Record(entry) + rest;
            Framed(bytes) && DeclaredLen(bytes) == RecordLen(|entry.name|) && FirstName(bytes) == entry.name
  {
    hide IsUtf8, Record, ToLe, FromLe, NameLength;
    var len := RecordLen(|entry.name|);
    var padding := Zeros(len - HEADER_SIZE - |entry.name| - 1);
    RecordParts(entry, rest);
    SpanValues();
    FromToLe(len, 2);
    NameLengthAt(entry.name, padding);
    assert (entry.name + [0] + padding)[..|entry.name|] == entry.name;
  }

  function NamesOf(entries: seq<DirEntry>): seq<Str> {
    if entries == [] then [] else [entries[0].name] + NamesOf(entries[1..])
  }

  /** Walking laid-out records visits every name in order. */
  lemma {:induction false} WalkRecords(entries: seq<DirEntry>)
    requires forall i :: 0 <= i < |entries| ==> Plain(entries[i])
    ensures Walk(Records(entries)) == Walked(NamesOf(entries), true)
  {
    hide Framed, FirstName, DeclaredLen, IsUtf8, Record;
    if entries != [] {
      var rest := Records(entries[1..]);
      RecordIsFramed(entries[0], rest);
      assert Records(entries) == Record(entries[0]) + rest;
      assert Records(entries)[RecordLen(|entries[0].name|)..] == rest;
      WalkRecords(entries[1..]);
    }
  }

  ghost predicate AllPlain(entries: seq<DirEntry>) {
    forall i :: 0 <= i < |entries| ==> Plain(entries[i])
  }

  // ----- All fields of a record ---------------------------------------------------------

  /** A `linux_dirent64` as a reader sees it. */
  datatype Dirent64 = Dirent64(ino: nat, off: nat, kind: byte, name: Str)

  /** The fields at the offsets of the Linux layout. */
  function FirstDirent(bytes: seq<byte>): Dirent64
    requires Framed(bytes)
  {
    Dirent64(FromLe(bytes[0..8]), FromLe(bytes[8..16]), bytes[18], FirstName(bytes))
  }

  function Dirents(bytes: seq<byte>): seq<Dirent64> {
    if bytes == [] || !Framed(bytes) then []
    else [FirstDirent(bytes)] + Dirents(bytes[DeclaredLen(bytes)..])
  }

  lemma HeaderFields(entry: DirEntry)
    ensures RecordHeader(entry)[0..8] == ToLe(entry.ino, 8) && RecordHeader(entry)[8..16] == ToLe(39, 8)
    ensures RecordHeader(entry)[18] == entry.kind
  {
    hide RecordLen, IsUtf8, ToLe;
    var a, b, c := ToLe(entry.ino, 8), ToLe(39, 8), ToLe(RecordLen(|entry.name|), 2);
    assert RecordHeader(entry) == a + b + c + [entry.kind];
    assert RecordHeader(entry) == [] + a + (b + c + [entry.kind]);
    Parts([], a, b + c + [entry.kind]);
    assert RecordHeader(entry) == a + b + (c + [entry.kind]);
    Parts(a, b, c + [entry.kind]);
  }

  /** A laid-out record gives its entry back, with the constant offset. */
  lemma RecordFields(entry: DirEntry, rest: seq<byte>)
    requires Plain(entry)
    ensures Framed(Record(entry) + rest)
    ensures FirstDirent(Record(entry) + rest) == Dirent64(entry.ino, 39, entry.kind, entry.name)
  {
    hide IsUtf8, ToLe, FromLe, Framed, FirstName, RecordLen;
    var bytes := Record(entry) + rest;
    RecordIsFramed(entry, rest);
    HeaderFields(entry);
    assert bytes[..19] == RecordHeader(entry);
    assert bytes[0..8] == bytes[..19][0..8] && bytes[8..16] == bytes[..19][8..16] && bytes[18] == bytes[..19][18];
    SpanValues();
    FromToLe(entry.ino, 8);
    FromToLe(39, 8);
  }

  /** The dirents of laid-out records are the entries, in order. */
  lemma {:induction false} DirentsOfRecords(entries: seq<DirEntry>)
    requires AllPlain(entries)
    ensures |Dirents(Records(entries))| == |entries|
    ensures forall i :: 0 <= i < |entries| ==>
              Dirents(Records(entries))[i] == Dirent64(entries[i].ino, 39, entries[i].kind, entries[i].name)
  {
    hide IsUtf8, Framed, FirstName, DeclaredLen, FirstDirent, Record;
    if entries != [] {
      var bytes, rest := Records(entries), Records(entries[1..]);
      assert Plain(entries[0]) && AllPlain(entries[1..]);
      RecordFields(entries[0], rest);
      RecordIsFramed(entries[0], rest);
      assert bytes == Record(entries[0]) + rest;
      assert bytes[RecordLen(|entries[0].name|)..] == rest;
      DirentsOfRecords(entries[1..]);
      assert forall i :: 1 <= i < |entries| ==> entries[i] == entries[1..][i - 1];
    }
  }

  /** A record is padded with zeros to the next multiple of eight. */
  lemma RecordIsPadded(entry: DirEntry)
    ensures |Record(entry)| % 8 == 0 && 20 + |entry.name| <= |Record(entry)| < 28 + |entry.name|
    ensures forall i :: 19 + |entry.name| <= i < |Record(entry)| ==> Record(entry)[i] == 0
  {
    hide IsUtf8, RecordHeader;
  }

  /** So every record of a batch starts at a multiple of eight. */
  lemma {:induction false} RecordsAligned(entries: seq<DirEntry>)
    ensures |Records(entries)| % 8 == 0
  {
    hide Record;
    if entries != [] {
      RecordIsPadded(entries[0]);
      RecordsAligned(entries[1..]);
    }
  }

  // ----- Batches ------------------------------------------------------------------------

  lemma {:induction false} RecordsAppend(entries: seq<DirEntry>, last: DirEntry)
    ensures Records(entries + [last]) == Records(entries) + Record(last)
  {
    hide Record;
    if entries == [] {
      assert Records([last]) == Record(last) + Records([]);
    } else {
      assert (entries + [last])[1..] == entries[1..] + [last];
      RecordsAppend(entries[1..], last);
    }
  }

  /** The producer loop: whole records from the cursor on, as many as fit and no fewer.
      The cursor moves past exactly the accepted entries, and moves unless the directory
      is exhausted; only a first record larger than the whole sink is an error. */
  method ReadDir(entries: seq<DirEntry>, pos: nat, sink: Sink) returns (r: Result<nat, SysError>)
    requires AllPlain(entries) && sink.Valid() && sink.offset == 0
    modifies sink`offset, sink.buffer
    ensures sink.Valid()
    ensures r.Err? <==> pos < |entries| && RecordLen(|entries[pos].name|) > sink.buffer.Length
    ensures r.Err? ==> r.error == InvalidArgument
    ensures pos >= |entries| ==> r == Ok(pos) && sink.Written() == []
    ensures r.Ok? && pos < |entries| ==>
              && pos < r.value <= |entries| && sink.Written() == Records(entries[pos..r.value])
              && (r.value < |entries| ==> sink.offset + RecordLen(|entries[r.value].name|) > sink.buffer.Length)
  {
    hide Record, RecordLen, Plain, IsUtf8;
    var cursor := pos;
    while cursor < |entries|
      invariant pos <= cursor && sink.Valid()
      invariant pos < |entries| ==> cursor <= |entries| && sink.Written() == Records(entries[pos..cursor])
      invariant pos >= |entries| ==> cursor == pos && sink.offset == 0
      invariant cursor > pos ==> sink.offset > 0 && RecordLen(|entries[pos].name|) <= sink.buffer.Length
    {
      assert Plain(entries[cursor]);
      PlainRecord(entries[cursor]);
      var pushed := sink.Push(entries[cursor]);
      if pushed.Err? { return Err(pushed.error); }
      if pushed.value.Stop? { break; }
      RecordsAppend(entries[pos..cursor], entries[cursor]);
      assert entries[pos..cursor + 1] == entries[pos..cursor] + [entries[cursor]];
      cursor := cursor + 1;
    }
    return Ok(cursor);
  }

  lemma PlainRecord(entry: DirEntry)
    requires Plain(entry)
    ensures 20 <= RecordLen(|entry.name|) < 0x1_0000
  {
  }

  predicate Fits(entry: DirEntry, count: nat, kernelBuffer: nat) {
    RecordLen(|entry.name|) <= count && RecordLen(|entry.name|) <= kernelBuffer
  }

  /** `sys_getdents64` for `count` bytes at the open directory's cursor: the bytes copied
      out and the cursor left behind. `refused` is a user range or an allocation that fails
      before the directory is read, `copyFault` a copy-out that fails after; the latter loses
      the batch, since the cursor has moved. */
  method Getdents64(entries: seq<DirEntry>, pos: nat, count: nat, kernelBuffer: nat,
                    refused: Option<SysError>, copyFault: Option<SysError>)
    returns (r: Result<seq<byte>, SysError>, next: nat)
    requires AllPlain(entries) && pos <= |entries|
    ensures refused.Some? ==> r == Err(refused.value) && next == pos
    ensures refused.None? && pos < |entries| && !Fits(entries[pos], count, kernelBuffer) ==>
              r == Err(InvalidArgument) && next == pos
    ensures refused.None? && (pos < |entries| ==> Fits(entries[pos], count, kernelBuffer)) ==>
              && pos <= next <= |entries| && (pos < |entries| ==> pos < next)
              && (copyFault.Some? ==> r == Err(copyFault.value))
              && (copyFault.None? ==>
                    && r == Ok(Records(entries[pos..next])) && |r.value| <= count && |r.value| <= kernelBuffer
                    && (next < |entries| ==>
                          |r.value| + RecordLen(|entries[next].name|) >
                            if count > kernelBuffer then kernelBuffer else count)
                    && |Dirents(r.value)| == next - pos
                    && forall i :: pos <= i < next ==>
                         Dirents(r.value)[i - pos] == Dirent64(entries[i].ino, 39, entries[i].kind, entries[i].name))
  {
    hide RecordLen, Records, Dirents;
    if refused.Some? { return Err(refused.value), pos; }
    var capacity := if count > kernelBuffer then kernelBuffer else count;
    var sink := new Sink(capacity);
    var cursor := ReadDir(entries, pos, sink);
    if cursor.Err? { return Err(cursor.error), pos; }
    if pos == |entries| { NoRecords(entries); }
    if copyFault.Some? { return Err(copyFault.value), cursor.value; }
    DirentsOfSlice(entries, pos, cursor.value);
    return Ok(sink.Written()), cursor.value;
  }

  lemma DirentsOfSlice(entries: seq<DirEntry>, pos: nat, next: nat)
    requires AllPlain(entries) && pos <= next <= |entries|
    ensures |Dirents(Records(entries[pos..next]))| == next - pos
    ensures forall i :: pos <= i < next ==>
              Dirents(Records(entries[pos..next]))[i - pos]
              == Dirent64(entries[i].ino, 39, entries[i].kind, entries[i].name)
  {
    hide Records, Dirents;
    DirentsOfRecords(entries[pos..next]);
    assert forall i :: pos <= i < next ==> entries[i] == entries[pos..next][i - pos];
  }

  lemma NoRecords(entries: seq<DirEntry>)
    ensures Records(entries[|entries|..|entries|]) == []
  {
  }

  lemma {:induction false} VisibleAppend(a: seq<Str>, b: seq<Str>)
    ensures Visible(a + b) == Visible(a) + Visible(b)
  {
    if a == [] {
      assert a + b == b;
    } else {
      assert (a + b)[1..] == a[1..] + b;
      VisibleAppend(a[1..], b);
    }
  }

  lemma {:induction false} NamesAppend(a: seq<DirEntry>, b: seq<DirEntry>)
    ensures NamesOf(a + b) == NamesOf(a) + NamesOf(b)
  {
    if a == [] {
      assert a + b == b;
    } else {
      assert (a + b)[1..] == a[1..] + b;
      NamesAppend(a[1..], b);
    }
  }

  /** Whatever a batch holds fitted the buffers it went through. */
  lemma {:induction false} BatchFits(entries: seq<DirEntry>, count: nat, kernelBuffer: nat)
    requires |Records(entries)| <= count && |Records(entries)| <= kernelBuffer
    ensures forall i :: 0 <= i < |entries| ==> Fits(entries[i], count, kernelBuffer)
  {
    hide RecordLen;
    if entries != [] {
      BatchFits(entries[1..], count, kernelBuffer);
      assert forall i :: 1 <= i < |entries| ==> entries[i] == entries[1..][i - 1];
    }
  }

  const USER_BUFFER: nat := 1024

  /** `list` against the kernel: however the directory splits into batches, every name but
      the dots is printed once and in order, up to the first record no buffer can hold. */
  method List(entries: seq<DirEntry>, kernelBuffer: nat) returns (output: seq<Str>, ok: bool)
    requires AllPlain(entries)
    ensures ok <==> forall i :: 0 <= i < |entries| ==> Fits(entries[i], USER_BUFFER, kernelBuffer)
    ensures ok ==> output == Visible(NamesOf(entries))
    ensures !ok ==> exists k: nat :: k < |entries| && !Fits(entries[k], USER_BUFFER, kernelBuffer)
                                     && output == Visible(NamesOf(entries[..k]))
  {
    hide Record, Records, RecordLen, Plain, Walk, IsUtf8, Fits, Visible, NamesOf, FirstDirent;
    var buffer := Zeros(USER_BUFFER);
    var pos := 0;
    output := [];
    NothingVisible(entries);
    while true
      invariant |buffer| == USER_BUFFER && pos <= |entries|
      invariant output == Visible(NamesOf(entries[..pos]))
      invariant forall i :: 0 <= i < pos ==> Fits(entries[i], USER_BUFFER, kernelBuffer)
      decreases |entries| - pos
    {
      var batch, next := Getdents64(entries, pos, USER_BUFFER, kernelBuffer, None, None);
      if batch.Err? { return output, false; }
      var count := |batch.value|;
      NoRecords(entries);
      if count == 0 {
        assert entries[..pos] == entries;
        return output, true;
      }
      buffer := batch.value + buffer[count..];
      assert buffer[..count] == batch.value;
      WalkRecords(entries[pos..next]);
      output, ok := ListBatch(buffer, count, output);
      BatchIsNext(entries, pos, next, kernelBuffer);
      if !ok { return; }
      pos := next;
    }
  }

  lemma NothingVisible(entries: seq<DirEntry>)
    ensures Visible(NamesOf(entries[..0])) == []
  {
  }

  /** What a delivered batch adds to what was delivered before. */
  lemma BatchIsNext(entries: seq<DirEntry>, pos: nat, next: nat, kernelBuffer: nat)
    requires pos <= next <= |entries|
    requires |Records(entries[pos..next])| <= USER_BUFFER && |Records(entries[pos..next])| <= kernelBuffer
    ensures Visible(NamesOf(entries[..next])) ==
            Visible(NamesOf(entries[..pos])) + Visible(NamesOf(entries[pos..next]))
    ensures forall i :: pos <= i < next ==> Fits(entries[i], USER_BUFFER, kernelBuffer)
  {
    hide Records, Visible, NamesOf, Fits;
    NamesAppend(entries[..pos], entries[pos..next]);
    VisibleAppend(NamesOf(entries[..pos]), NamesOf(entries[pos..next]));
    assert entries[..next] == entries[..pos] + entries[pos..next];
    BatchFits(entries[pos..next], USER_BUFFER, kernelBuffer);
    assert forall i :: pos <= i < next ==> entries[i] == entries[pos..next][i - pos];
  }

  // ----- The instance directory ----------------------------------------------------------

  /** The entries of `/proc/nemophila` for one snapshot of live identities. */
  function Listing(identities: seq<Word>, self: Word, parent: Word): seq<DirEntry> {
    [DirEntry(DOT, self, 4), DirEntry(DOTDOT, parent, 4)] + Instances(identities)
  }

  function Instances(identities: seq<Word>): (r: seq<DirEntry>)
    ensures |r| == |identities|
  {
    if identities == [] then []
    else [DirEntry(Decimal(identities[0]), 0, 8)] + Instances(identities[1..])
  }

  lemma {:induction false} InstanceAt(identities: seq<Word>, i: nat)
    requires i < |identities|
    ensures Instances(identities)[i] == DirEntry(Decimal(identities[i]), 0, 8)
  {
    hide Decimal;
    if i > 0 { InstanceAt(identities[1..], i - 1); }
  }

  /** A decimal name has no terminator in it and its record is at most forty bytes. */
  lemma InstanceIsPlain(n: Word)
    ensures 0 !in Decimal(n) && RecordLen(|Decimal(n)|) <= 40
  {
    assert Pow10(20) == 10 * Pow10(19);
    Pow10Twenty();
    DecimalLength(n, 20);
    DecimalDigits(n);
  }

  /** Which identities a stretch of the listing names. */
  function Named(identities: seq<Word>, from: nat, to: nat): seq<Word>
    requires from <= to <= |identities| + 2
  {
    var lo, hi := if from < 2 then 0 else from - 2, if to < 2 then 0 else to - 2;
    identities[lo..hi]
  }

  /** One more entry at the front of a stretch. */
  lemma ParsesDots(entry: DirEntry, rest: seq<DirEntry>)
    requires IsDots(entry.name)
    ensures Parsed(Visible(NamesOf([entry] + rest))) == Parsed(Visible(NamesOf(rest)))
  {
    hide ParseU64, Parsed, IsDots, Record;
    assert ([entry] + rest)[1..] == rest;
    assert NamesOf([entry] + rest) == [entry.name] + NamesOf(rest);
    assert NamesOf([entry] + rest)[1..] == NamesOf(rest);
    assert Visible(NamesOf([entry] + rest)) == Visible(NamesOf(rest));
  }

  lemma ParsesInstance(entry: DirEntry, n: Word, rest: seq<DirEntry>)
    requires entry.name == Decimal(n) && Parsed(Visible(NamesOf(rest))).Some?
    ensures Parsed(Visible(NamesOf([entry] + rest))) == Some([n] + Parsed(Visible(NamesOf(rest))).value)
  {
    hide ParseU64, Decimal, IsDots, Record;
    ParseDecimal(n);
    DecimalIsVisible(n);
    assert ([entry] + rest)[1..] == rest;
    assert NamesOf([entry] + rest)[1..] == NamesOf(rest);
    assert Visible(NamesOf([entry] + rest)) == [entry.name] + Visible(NamesOf(rest));
    assert Visible(NamesOf([entry] + rest))[1..] == Visible(NamesOf(rest));
  }

  lemma {:induction false} ListingParses(identities: seq<Word>, self: Word, parent: Word, from: nat, length: nat)
    requires from + length <= |identities| + 2
    ensures Parsed(Visible(NamesOf(Listing(identities, self, parent)[from..from + length])))
            == Some(Named(identities, from, from + length))
    decreases length
  {
    hide Decimal, ParseU64, Parsed, Visible, NamesOf;
    var entries, to := Listing(identities, self, parent), from + length;
    if length > 0 {
      ListingParses(identities, self, parent, from + 1, length - 1);
      assert entries[from..to] == [entries[from]] + entries[from + 1..to];
      if from < 2 {
        ParsesDots(entries[from], entries[from + 1..to]);
      } else {
        InstanceAt(identities, from - 2);
        ParsesInstance(entries[from], identities[from - 2], entries[from + 1..to]);
        assert Named(identities, from, to) == [identities[from - 2]] + Named(identities, from + 1, to);
      }
    } else {
      NoNames(entries, from);
    }
  }

  lemma NoNames(entries: seq<DirEntry>, from: nat)
    requires from <= |entries|
    ensures Parsed(Visible(NamesOf(entries[from..from]))) == Some([])
  {
  }

  /** The records of the instance directory: the two dots as directories with their inode
      numbers, then every identity as a regular file without one. */
  lemma ListingDirents(identities: seq<Word>, self: Word, parent: Word)
    ensures var d := Dirents(Records(Listing(identities, self, parent)));
            && |d| == |identities| + 2
            && d[0] == Dirent64(self, 39, 4, [0x2E]) && d[1] == Dirent64(parent, 39, 4, [0x2E, 0x2E])
            && forall i :: 0 <= i < |identities| ==> d[2 + i] == Dirent64(0, 39, 8, Decimal(identities[i]))
  {
    hide Decimal, Dirents, Records, Fits, AllPlain;
    var entries := Listing(identities, self, parent);
    ListingFits(identities, self, parent, 40);
    DirentsOfRecords(entries);
    var d := Dirents(Records(entries));
    forall i | 0 <= i < |identities| ensures d[2 + i] == Dirent64(0, 39, 8, Decimal(identities[i])) {
      InstanceAt(identities, i);
      assert entries[2 + i] == Instances(identities)[i];
    }
  }

  /** `identities` against the kernel returns exactly the snapshot, in order, whatever the
      number of instances and wherever the batches break. */
  method ReadIdentities(identities: seq<Word>, self: Word, parent: Word, kernelBuffer: nat)
    returns (r: Option<seq<Word>>)
    requires kernelBuffer >= 40
    ensures r == Some(identities)
  {
    hide Record, RecordLen, Plain, Walk, IsUtf8, Fits, Listing, Parsed, Visible, NamesOf;
    var entries := Listing(identities, self, parent);
    ListingFits(identities, self, parent, kernelBuffer);
    var buffer := Zeros(USER_BUFFER);
    var pos := 0;
    var read := [];
    while true
      invariant |buffer| == USER_BUFFER && pos <= |entries|
      invariant read == Named(identities, 0, pos)
      decreases |entries| - pos
    {
      var batch, next := Getdents64(entries, pos, USER_BUFFER, kernelBuffer, None, None);
      if batch.Err? { return None; }
      var count := |batch.value|;
      if count == 0 {
        assert Named(identities, 0, |identities| + 2) == identities;
        return Some(read);
      }
      buffer := batch.value + buffer[count..];
      assert buffer[..count] == batch.value;
      assert AllPlain(entries[pos..next]);
      WalkRecords(entries[pos..next]);
      ListingParses(identities, self, parent, pos, next - pos);
      var collected := IdentitiesBatch(buffer, count, read);
      if collected.None? { return None; }
      read := collected.value;
      pos := next;
    }
  }

  lemma ListingFits(identities: seq<Word>, self: Word, parent: Word, kernelBuffer: nat)
    requires kernelBuffer >= 40
    ensures |Listing(identities, self, parent)| == |identities| + 2 && AllPlain(Listing(identities, self, parent))
    ensures forall entry <- Listing(identities, self, parent) :: Fits(entry, USER_BUFFER, kernelBuffer)
  {
    hide Decimal;
    var entries := Listing(identities, self, parent);
    forall i | 0 <= i < |entries| ensures Plain(entries[i]) && Fits(entries[i], USER_BUFFER, kernelBuffer) {
      if i >= 2 {
        InstanceAt(identities, i - 2);
        InstanceIsPlain(identities[i - 2]);
      }
    }
  }

  lemma {:induction false} DecimalDigits(n: nat)
    ensures forall b :: b in Decimal(n) ==> 48 <= b <= 57
  {
    if n >= 10 { DecimalDigits(n / 10); }
  }

  lemma DecimalIsVisible(n: Word)
    ensures !IsDots(Decimal(n))
  {
    DecimalDigits(n);
    if IsDots(Decimal(n)) { assert Decimal(n)[0] in Decimal(n); }
  }

  lemma Pow10Twenty()
    ensures Pow10(20) > 0xFFFF_FFFF_FFFF_FFFF
  {
    assert Pow10(5) == 100000;
    assert Pow10(10) == 10000000000;
    assert Pow10(15) == 1000000000000000;
  }
}
