/** The checked encoder, and the round trip through the parser. */
module SymtabBuilder {
  import opened Bytes
  import opened SymtabFormat
  import opened SymtabTable

  datatype EncodeError = TooLarge | ZeroSizedSymbol | AddressOverflow | UnsortedSymbols | EmptyName

  // ----- The image of a symbol list ---------------------------------------------

  /** The names of the first `n` symbols, back to back. */
  function Names(symbols: seq<Symbol>, n: nat): seq<byte>
    requires n <= |symbols|
  {
    if n == 0 then [] else Names(symbols, n - 1) + symbols[n - 1].name
  }

  function EntryBytes(symbol: Symbol, nameOffset: nat): (bytes: seq<byte>)
    ensures |bytes| == ENTRY_SIZE
  {
    ToLe(symbol.start, 8) + ToLe(symbol.size, 8) + ToLe(nameOffset, 4) + ToLe(|symbol.name|, 4)
  }

  function Entries(symbols: seq<Symbol>, n: nat): (bytes: seq<byte>)
    requires n <= |symbols|
    ensures |bytes| == EntriesSize(n)
  {
    if n == 0 then [] else Entries(symbols, n - 1) + EntryBytes(symbols[n - 1], |Names(symbols, n - 1)|)
  }

  function StringsOffset(symbols: seq<Symbol>): nat {
    HEADER_SIZE + EntriesSize(|symbols|)
  }

  function TotalSize(symbols: seq<Symbol>): nat {
    StringsOffset(symbols) + |Names(symbols, |symbols|)|
  }

  function Header(symbols: seq<Symbol>): (bytes: seq<byte>)
    ensures |bytes| == HEADER_SIZE
  {
    FormatHeader(TotalSize(symbols)) + ContentHeader(symbols)
  }

  function FormatHeader(totalSize: nat): (bytes: seq<byte>)
    ensures |bytes| == 16
  {
    MAGIC + ToLe(VERSION, 2) + ToLe(HEADER_SIZE, 2) + ToLe(totalSize, 4)
  }

  function ContentHeader(symbols: seq<Symbol>): (bytes: seq<byte>)
    ensures |bytes| == 16
  {
    ToLe(|symbols|, 4) + ToLe(StringsOffset(symbols), 4) + Zeros(8)
  }

  /** Header, entries, strings. */
  function Image(symbols: seq<Symbol>): (bytes: seq<byte>)
    ensures |bytes| == TotalSize(symbols)
  {
    Header(symbols) + Entries(symbols, |symbols|) + Names(symbols, |symbols|)
  }

  /** What may be encoded: ranges as the parser wants them, names not empty, starts
      increasing, and a total that a `u32` can hold. */
  ghost predicate Encodable(symbols: seq<Symbol>) {
    && (forall i :: 0 <= i < |symbols| ==> InputOk(symbols[i]))
    && Ascending(symbols)
    && TotalSize(symbols) < U32
  }

  predicate InputOk(symbol: Symbol) {
    symbol.size > 0 && symbol.start + symbol.size < U64 && symbol.name != []
  }

  // ----- Round trip --------------------------------------------------------------

  lemma FieldIs(bytes: seq<byte>, offset: nat, width: nat, value: nat)
    requires offset + width <= |bytes| && value < Span(width)
    requires bytes[offset..offset + width] == ToLe(value, width)
    ensures Field(bytes, offset, width) == value
  {
    FromToLe(value, width);
  }

  lemma FormatHeaderReadsBack(totalSize: nat)
    requires totalSize < U32
    ensures var h := FormatHeader(totalSize);
            && h[..|MAGIC|] == MAGIC && Field(h, 8, 2) == VERSION
            && Field(h, 10, 2) == HEADER_SIZE && Field(h, 12, 4) == totalSize
  {
    SpanValues();
    var h := FormatHeader(totalSize);
    FieldIs(h, 8, 2, VERSION);
    FieldIs(h, 10, 2, HEADER_SIZE);
    FieldIs(h, 12, 4, totalSize);
  }

  lemma ContentHeaderReadsBack(symbols: seq<Symbol>)
    requires TotalSize(symbols) < U32
    ensures var h := ContentHeader(symbols);
            Field(h, 0, 4) == |symbols| && Field(h, 4, 4) == StringsOffset(symbols) && Field(h, 8, 8) == 0
  {
    SpanValues();
    ZerosAreZero();
    var h := ContentHeader(symbols);
    FieldIs(h, 0, 4, |symbols|);
    FieldIs(h, 4, 4, StringsOffset(symbols));
    FieldIs(h, 8, 8, 0);
  }

  /** A field of a middle part is a field of the whole. */
  lemma FieldInside(before: seq<byte>, part: seq<byte>, after: seq<byte>, offset: nat, width: nat)
    requires offset + width <= |part|
    ensures Field(before + part + after, |before| + offset, width) == Field(part, offset, width)
  {
    var whole := before + part + after;
    assert whole[|before| + offset..|before| + offset + width] == part[offset..offset + width];
  }

  lemma HeaderOfParts(bytes: seq<byte>, f: seq<byte>, c: seq<byte>, rest: seq<byte>, count: nat)
    requires |f| == 16 && |c| == 16 && bytes == f + c + rest
    requires f[..|MAGIC|] == MAGIC && Field(f, 8, 2) == VERSION
    requires Field(f, 10, 2) == HEADER_SIZE && Field(f, 12, 4) == |bytes|
    requires Field(c, 0, 4) == count && Field(c, 4, 4) == HEADER_SIZE + EntriesSize(count) <= |bytes|
    requires Field(c, 8, 8) == 0
    ensures HeaderOk(bytes) && EntryCount(bytes) == count
  {
    assert bytes == [] + f + (c + rest);
    assert bytes[..|MAGIC|] == f[..|MAGIC|];
    FieldInside([], f, c + rest, 8, 2);
    FieldInside([], f, c + rest, 10, 2);
    FieldInside([], f, c + rest, 12, 4);
    FieldInside(f, c, rest, 0, 4);
    FieldInside(f, c, rest, 4, 4);
    FieldInside(f, c, rest, 8, 8);
  }

  lemma HeaderReadsBack(symbols: seq<Symbol>)
    requires TotalSize(symbols) < U32
    ensures HeaderOk(Image(symbols)) && EntryCount(Image(symbols)) == |symbols|
  {
    hide FormatHeader, ContentHeader, FromLe;
    var f := FormatHeader(TotalSize(symbols));
    var c := ContentHeader(symbols);
    var rest := Entries(symbols, |symbols|) + Names(symbols, |symbols|);
    FormatHeaderReadsBack(TotalSize(symbols));
    ContentHeaderReadsBack(symbols);
    assert Image(symbols) == f + c + rest;
    HeaderOfParts(Image(symbols), f, c, rest, |symbols|);
  }

  lemma ZerosAreZero()
    ensures ToLe(0, 8) == Zeros(8)
  {
    assert ToLe(0, 4) == [0, 0, 0, 0];
    assert ToLe(0, 8) == [0, 0, 0, 0] + ToLe(0, 4);
  }

  /** Entry `i` starts at `EntriesSize(i)` of the entries. */
  lemma {:induction false} EntryAt(symbols: seq<Symbol>, n: nat, i: nat)
    requires i < n <= |symbols|
    ensures Entries(symbols, n)[EntriesSize(i)..EntriesSize(i + 1)] == EntryBytes(symbols[i], |Names(symbols, i)|)
    decreases n
  {
    if i < n - 1 {
      EntryAt(symbols, n - 1, i);
      assert EntriesSize(i + 1) <= EntriesSize(n - 1);
    }
  }

  /** Name `i` sits at its recorded offset in the strings. */
  lemma {:induction false} NameAt(symbols: seq<Symbol>, n: nat, i: nat)
    requires i < n <= |symbols|
    ensures |Names(symbols, i)| + |symbols[i].name| <= |Names(symbols, n)|
    ensures Names(symbols, n)[|Names(symbols, i)|..|Names(symbols, i)| + |symbols[i].name|] == symbols[i].name
    decreases n
  {
    if i < n - 1 { NameAt(symbols, n - 1, i); }
  }

  lemma EntryReadsBack(symbol: Symbol, nameOffset: nat)
    requires nameOffset < U32 && |symbol.name| < U32
    ensures var e := EntryBytes(symbol, nameOffset);
            && Field(e, 0, 8) == symbol.start && Field(e, 8, 8) == symbol.size
            && Field(e, 16, 4) == nameOffset && Field(e, 20, 4) == |symbol.name|
  {
    hide FromLe;
    SpanValues();
    var e := EntryBytes(symbol, nameOffset);
    FieldIs(e, 0, 8, symbol.start);
    FieldIs(e, 8, 8, symbol.size);
    FieldIs(e, 16, 4, nameOffset);
    FieldIs(e, 20, 4, |symbol.name|);
  }

  lemma SplitMiddle(h: seq<byte>, m: seq<byte>, t: seq<byte>, lo: nat, hi: nat)
    requires lo <= hi <= |m|
    ensures h + m + t == (h + m[..lo]) + m[lo..hi] + (m[hi..] + t)
  {
    assert m == m[..lo] + m[lo..hi] + m[hi..];
  }

  /** Where entry `i` sits in the image. */
  lemma EntryInImage(symbols: seq<Symbol>, i: nat) returns (before: seq<byte>, after: seq<byte>)
    requires i < |symbols|
    ensures Image(symbols) == before + EntryBytes(symbols[i], |Names(symbols, i)|) + after
    ensures |before| == HEADER_SIZE + EntriesSize(i)
  {
    EntryAt(symbols, |symbols|, i);
    var entries := Entries(symbols, |symbols|);
    var lo, hi := EntriesSize(i), EntriesSize(i + 1);
    SplitMiddle(Header(symbols), entries, Names(symbols, |symbols|), lo, hi);
    before := Header(symbols) + entries[..lo];
    after := entries[hi..] + Names(symbols, |symbols|);
  }

  /** The four fields of entry `i`. */
  ghost predicate EntryHolds(bytes: seq<byte>, i: nat, symbol: Symbol, nameOffset: nat) {
    && HEADER_SIZE + EntriesSize(i) + ENTRY_SIZE <= |bytes|
    && Field(bytes, HEADER_SIZE + EntriesSize(i), 8) == symbol.start
    && Field(bytes, HEADER_SIZE + EntriesSize(i) + 8, 8) == symbol.size
    && Field(bytes, HEADER_SIZE + EntriesSize(i) + 16, 4) == nameOffset
    && Field(bytes, HEADER_SIZE + EntriesSize(i) + 20, 4) == |symbol.name|
  }

  lemma EntryHoldsInside(bytes: seq<byte>, before: seq<byte>, e: seq<byte>, after: seq<byte>,
                         i: nat, symbol: Symbol, nameOffset: nat)
    requires bytes == before + e + after && |e| == ENTRY_SIZE && |before| == HEADER_SIZE + EntriesSize(i)
    requires Field(e, 0, 8) == symbol.start && Field(e, 8, 8) == symbol.size
    requires Field(e, 16, 4) == nameOffset && Field(e, 20, 4) == |symbol.name|
    ensures EntryHolds(bytes, i, symbol, nameOffset)
  {
    FieldInside(before, e, after, 0, 8);
    FieldInside(before, e, after, 8, 8);
    FieldInside(before, e, after, 16, 4);
    FieldInside(before, e, after, 20, 4);
  }

  lemma EntryFields(symbols: seq<Symbol>, i: nat)
    requires TotalSize(symbols) < U32 && i < |symbols|
    ensures EntryHolds(Image(symbols), i, symbols[i], |Names(symbols, i)|)
  {
    NameAt(symbols, |symbols|, i);
    EntryReadsBack(symbols[i], |Names(symbols, i)|);
    var before, after := EntryInImage(symbols, i);
    EntryHoldsInside(Image(symbols), before, EntryBytes(symbols[i], |Names(symbols, i)|), after,
                     i, symbols[i], |Names(symbols, i)|);
  }

  lemma SliceOfTail(h: seq<byte>, t: seq<byte>, lo: nat, name: seq<byte>)
    requires lo + |name| <= |t| && t[lo..lo + |name|] == name
    ensures (h + t)[|h| + lo..|h| + lo + |name|] == name
  {
  }

  lemma ImageParts(symbols: seq<Symbol>)
    ensures Image(symbols) == Header(symbols) + Entries(symbols, |symbols|) + Names(symbols, |symbols|)
    ensures |Header(symbols) + Entries(symbols, |symbols|)| == StringsOffset(symbols)
  {
  }

  lemma NameInImage(symbols: seq<Symbol>, i: nat)
    requires i < |symbols|
    ensures var start := StringsOffset(symbols) + |Names(symbols, i)|;
            && start + |symbols[i].name| <= |Image(symbols)|
            && Image(symbols)[start..start + |symbols[i].name|] == symbols[i].name
  {
    hide Image, Header, Entries, Names, StringsOffset, IsUtf8;
    NameAt(symbols, |symbols|, i);
    ImageParts(symbols);
    SliceOfTail(Header(symbols) + Entries(symbols, |symbols|), Names(symbols, |symbols|), |Names(symbols, i)|,
                symbols[i].name);
  }

  lemma SymbolOfEntry(bytes: seq<byte>, i: nat, symbol: Symbol, nameOffset: nat)
    requires HeaderOk(bytes) && i < EntryCount(bytes) && EntryHolds(bytes, i, symbol, nameOffset) && InputOk(symbol)
    requires var start := HEADER_SIZE + EntriesSize(EntryCount(bytes)) + nameOffset;
             start + |symbol.name| <= |bytes| && bytes[start..start + |symbol.name|] == symbol.name
    ensures EntryOk(bytes, i) && SymbolOf(bytes, i) == symbol
  {
    hide FromLe, IsUtf8;
  }

  /** Every entry of the image reads back as its symbol. */
  lemma SymbolReadsBack(symbols: seq<Symbol>, i: nat)
    requires TotalSize(symbols) < U32 && i < |symbols| && InputOk(symbols[i])
    ensures HeaderOk(Image(symbols)) && EntryCount(Image(symbols)) == |symbols|
    ensures EntryOk(Image(symbols), i) && SymbolOf(Image(symbols), i) == symbols[i]
  {
    hide Image, Names, Entries, IsUtf8, FromLe, ToLe;
    HeaderReadsBack(symbols);
    EntryFields(symbols, i);
    NameInImage(symbols, i);
    SymbolOfEntry(Image(symbols), i, symbols[i], |Names(symbols, i)|);
  }

  lemma TableFromEntries(bytes: seq<byte>, symbols: seq<Symbol>)
    requires HeaderOk(bytes) && EntryCount(bytes) == |symbols| && Ascending(symbols)
    requires forall i: nat {:trigger EntryOk(bytes, i)} ::
               i < |symbols| ==> EntryOk(bytes, i) && SymbolOf(bytes, i) == symbols[i]
    ensures WellFormed(bytes) && Symbols(bytes) == symbols
  {
    forall i: nat, j: nat | i < j < |symbols| ensures Start(bytes, i) < Start(bytes, j) {
      assert EntryOk(bytes, i) && EntryOk(bytes, j);
      assert symbols[i].start < symbols[j].start;
    }
    forall i: nat | i < |symbols| ensures Symbols(bytes)[i] == symbols[i] { assert EntryOk(bytes, i); }
  }

  /** What the encoder accepts, the parser accepts, and the symbols come back. */
  lemma RoundTrip(symbols: seq<Symbol>)
    requires Encodable(symbols)
    ensures WellFormed(Image(symbols)) && Symbols(Image(symbols)) == symbols
  {
    var image := Image(symbols);
    HeaderReadsBack(symbols);
    forall i: nat | i < |symbols| ensures EntryOk(image, i) && SymbolOf(image, i) == symbols[i] {
      SymbolReadsBack(symbols, i);
    }
    TableFromEntries(image, symbols);
  }

  // ----- The encoder ---------------------------------------------------------------

  lemma {:induction false} NamesGrow(symbols: seq<Symbol>, m: nat, n: nat)
    requires m <= n <= |symbols|
    ensures |Names(symbols, m)| <= |Names(symbols, n)|
    decreases n
  {
    if m < n { NamesGrow(symbols, m, n - 1); }
  }

  /** The validation loop: the total length of the names, or the first objection. */
  method Validate(symbols: seq<Symbol>) returns (r: Result<nat, EncodeError>)
    requires |symbols| < U32
    ensures r.Ok? ==>
              && (forall i :: 0 <= i < |symbols| ==> InputOk(symbols[i]))
              && Ascending(symbols) && r.value == |Names(symbols, |symbols|)|
    ensures r.Err? ==> FirstObjection(symbols, r.error)
  {
    hide IsUtf8, Names;
    Names0(symbols);
    var stringsSize := 0;
    var previousStart: Option<nat> := None;
    for n := 0 to |symbols|
      invariant FirstFine(symbols, n)
      invariant stringsSize == |Names(symbols, n)| < U64
      invariant previousStart == if n == 0 then None else Some(symbols[n - 1].start)
    {
      var symbol := symbols[n];
      if symbol.size == 0 { return Err(EncodeError.ZeroSizedSymbol); }
      if symbol.start + symbol.size >= U64 { return Err(EncodeError.AddressOverflow); }
      if previousStart.Some? && previousStart.value >= symbol.start { return Err(EncodeError.UnsortedSymbols); }
      if symbol.name == [] { return Err(EncodeError.EmptyName); }
      NamesStep(symbols, n);
      if stringsSize + |symbol.name| >= U64 { return Err(TooLarge); }
      stringsSize := stringsSize + |symbol.name|;
      previousStart := Some(symbol.start);
    }
    return Ok(stringsSize);
  }

  /** The first `n` symbols may be encoded. */
  ghost predicate FirstFine(symbols: seq<Symbol>, n: nat) {
    && n <= |symbols|
    && (forall i :: 0 <= i < n ==> InputOk(symbols[i]))
    && forall i, j :: 0 <= i < j < n ==> symbols[i].start < symbols[j].start
  }

  /** What is wrong with symbol `i`. */
  ghost predicate ObjectsTo(symbols: seq<Symbol>, i: nat, error: EncodeError) {
    && i < |symbols|
    && match error
       case TooLarge => false
       case ZeroSizedSymbol => symbols[i].size == 0
       case AddressOverflow => symbols[i].start + symbols[i].size >= U64
       case UnsortedSymbols => 0 < i && symbols[i - 1].start >= symbols[i].start
       case EmptyName => symbols[i].name == []
  }

  /** The order in which a symbol is checked. */
  function Rank(error: EncodeError): nat {
    match error
    case ZeroSizedSymbol => 0
    case AddressOverflow => 1
    case UnsortedSymbols => 2
    case EmptyName => 3
    case TooLarge => 4
  }

  /** The first reason to refuse the list, in the order of the checks. */
  ghost predicate FirstObjection(symbols: seq<Symbol>, error: EncodeError) {
    match error
    case TooLarge =>
      || |symbols| >= U32
      || (exists n: nat :: FirstFine(symbols, n) && |Names(symbols, n)| >= U64)
      || (FirstFine(symbols, |symbols|) && TotalSize(symbols) >= U32)
    case _ =>
      && |symbols| < U32
      && exists n: nat ::
           && FirstFine(symbols, n) && |Names(symbols, n)| < U64 && ObjectsTo(symbols, n, error)
           && forall earlier :: Rank(earlier) < Rank(error) ==> !ObjectsTo(symbols, n, earlier)
  }

  lemma Names0(symbols: seq<Symbol>)
    ensures Names(symbols, 0) == []
  {
  }

  lemma NamesStep(symbols: seq<Symbol>, n: nat)
    requires n < |symbols|
    ensures |Names(symbols, n + 1)| == |Names(symbols, n)| + |symbols[n].name|
  {
  }

  /** `copy_from_slice` into a sub-slice: the rest of the buffer keeps its bytes. */
  method CopyFromSlice(bytes: array<byte>, at: nat, source: seq<byte>)
    requires at + |source| <= bytes.Length
    modifies bytes
    ensures bytes[..at] == old(bytes[..at])
    ensures bytes[at..at + |source|] == source
    ensures bytes[at + |source|..] == old(bytes[at + |source|..])
  {
    forall i | 0 <= i < |source| { bytes[at + i] := source[i]; }
  }

  /** Two adjacent copies make one. */
  method CopyTwo(bytes: array<byte>, at: nat, x: seq<byte>, y: seq<byte>)
    requires at + |x| + |y| <= bytes.Length
    modifies bytes
    ensures bytes[..at] == old(bytes[..at])
    ensures bytes[at..at + |x| + |y|] == x + y
    ensures bytes[at + |x| + |y|..] == old(bytes[at + |x| + |y|..])
  {
    CopyFromSlice(bytes, at, x);
    CopyFromSlice(bytes, at + |x|, y);
  }

  method WriteHeader(bytes: array<byte>, symbols: seq<Symbol>)
    requires bytes.Length == TotalSize(symbols)
    requires forall i :: 24 <= i < 32 ==> bytes[i] == 0
    modifies bytes
    ensures bytes[..HEADER_SIZE] == Header(symbols)
  {
    assert bytes[24..][..8] == Zeros(8);
    CopyTwo(bytes, 0, MAGIC, ToLe(VERSION, 2));
    CopyTwo(bytes, 10, ToLe(HEADER_SIZE, 2), ToLe(TotalSize(symbols), 4));
    assert bytes[..16] == FormatHeader(TotalSize(symbols));
    assert bytes[24..] == old(bytes[24..]) by {
      assert bytes[24..] == bytes[16..][8..];
      assert old(bytes[24..]) == old(bytes[10..])[14..] && old(bytes[10..])[6..][8..] == old(bytes[10..])[14..];
    }
    CopyTwo(bytes, 16, ToLe(|symbols|, 4), ToLe(StringsOffset(symbols), 4));
    assert bytes[..32] == bytes[..16] + bytes[16..24] + bytes[24..][..8];
  }

  method WriteEntry(bytes: array<byte>, entry: nat, symbol: Symbol, nameOffset: nat)
    requires entry + ENTRY_SIZE <= bytes.Length
    modifies bytes
    ensures bytes[..entry] == old(bytes[..entry])
    ensures bytes[entry..entry + ENTRY_SIZE] == EntryBytes(symbol, nameOffset)
    ensures bytes[entry + ENTRY_SIZE..] == old(bytes[entry + ENTRY_SIZE..])
  {
    CopyTwo(bytes, entry, ToLe(symbol.start, 8), ToLe(symbol.size, 8));
    CopyTwo(bytes, entry + 16, ToLe(nameOffset, 4), ToLe(|symbol.name|, 4));
  }

  /** The header and the first `n` symbols have been written. */
  ghost predicate Written(bytes: seq<byte>, symbols: seq<Symbol>, n: nat)
    requires n <= |symbols|
  {
    && |bytes| == TotalSize(symbols)
    && |Names(symbols, n)| <= |Names(symbols, |symbols|)|
    && bytes[..HEADER_SIZE] == Header(symbols)
    && bytes[HEADER_SIZE..HEADER_SIZE + EntriesSize(n)] == Entries(symbols, n)
    && bytes[StringsOffset(symbols)..StringsOffset(symbols) + |Names(symbols, n)|] == Names(symbols, n)
  }

  /** Two writes, one after the entries and one after the names, extend both. */
  lemma ExtendBoth(b0: seq<byte>, b1: seq<byte>, b2: seq<byte>, h: seq<byte>, e: seq<byte>, x: seq<byte>,
                   names: seq<byte>, y: seq<byte>, entry: nat, strings: nat, ns: nat)
    requires |b0| == |b1| == |b2| && entry == |h| + |e|
    requires entry + |x| <= strings && ns == strings + |names| && ns + |y| <= |b0|
    requires b0[..|h|] == h && b0[|h|..entry] == e && b0[strings..ns] == names
    requires b1[..entry] == b0[..entry] && b1[entry..entry + |x|] == x && b1[entry + |x|..] == b0[entry + |x|..]
    requires b2[..ns] == b1[..ns] && b2[ns..ns + |y|] == y
    ensures b2[..|h|] == h && b2[|h|..entry + |x|] == e + x && b2[strings..ns + |y|] == names + y
  {
    assert forall i :: 0 <= i < ns ==> b2[i] == b2[..ns][i] == b1[..ns][i] == b1[i];
    assert forall i :: 0 <= i < entry ==> b1[i] == b1[..entry][i] == b0[..entry][i] == b0[i];
    assert forall i :: entry + |x| <= i < |b0| ==> b1[i] == b1[entry + |x|..][i - entry - |x|] == b0[i];
  }

  lemma WrittenNext(bytes: seq<byte>, symbols: seq<Symbol>, n: nat, e: seq<byte>, names: seq<byte>)
    requires n < |symbols| && |bytes| == TotalSize(symbols) && bytes[..HEADER_SIZE] == Header(symbols)
    requires e == Entries(symbols, n) + EntryBytes(symbols[n], |Names(symbols, n)|)
    requires names == Names(symbols, n) + symbols[n].name
    requires |names| <= |Names(symbols, |symbols|)|
    requires bytes[HEADER_SIZE..HEADER_SIZE + |e|] == e
    requires bytes[StringsOffset(symbols)..StringsOffset(symbols) + |names|] == names
    ensures Written(bytes, symbols, n + 1)
  {
    hide Header, EntryBytes, ToLe, IsUtf8;
  }

  /** The body of the loop: the entry after the entries `e`, the name after `names`. */
  method WriteSymbol(bytes: array<byte>, entry: nat, nameStart: nat, symbol: Symbol, nameOffset: nat,
                     ghost h: seq<byte>, ghost e: seq<byte>, ghost names: seq<byte>, ghost strings: nat)
    requires entry == |h| + |e| && entry + ENTRY_SIZE <= strings
    requires nameStart == strings + |names| && nameStart + |symbol.name| <= bytes.Length
    requires bytes[..|h|] == h && bytes[|h|..entry] == e && bytes[strings..nameStart] == names
    modifies bytes
    ensures bytes[..|h|] == h
    ensures bytes[|h|..entry + ENTRY_SIZE] == e + EntryBytes(symbol, nameOffset)
    ensures bytes[strings..nameStart + |symbol.name|] == names + symbol.name
  {
    hide EntryBytes;
    ghost var b0 := bytes[..];
    WriteEntry(bytes, entry, symbol, nameOffset);
    ghost var b1 := bytes[..];
    CopyFromSlice(bytes, nameStart, symbol.name);
    ghost var x := EntryBytes(symbol, nameOffset);
    ExtendBoth(b0, b1, bytes[..], h, e, x, names, symbol.name, entry, strings, nameStart);
  }

  lemma WrittenAll(bytes: seq<byte>, symbols: seq<Symbol>)
    requires Written(bytes, symbols, |symbols|)
    ensures bytes == Image(symbols)
  {
    hide EntryBytes, Header, IsUtf8;
    var strings := StringsOffset(symbols);
    var end := strings + |Names(symbols, |symbols|)|;
    assert bytes == bytes[..HEADER_SIZE] + bytes[HEADER_SIZE..strings] + bytes[strings..end];
  }

  /** One more symbol. */
  method FillOne(bytes: array<byte>, symbols: seq<Symbol>, n: nat, nameOffset: nat)
    requires n < |symbols| && Written(bytes[..], symbols, n) && nameOffset == |Names(symbols, n)|
    modifies bytes
    ensures Written(bytes[..], symbols, n + 1)
  {
    hide EntryBytes, Header, IsUtf8, Entries;
    NamesGrow(symbols, n + 1, |symbols|);
    var strings := StringsOffset(symbols);
    ghost var h, e, names := Header(symbols), Entries(symbols, n), Names(symbols, n);
    WriteSymbol(bytes, HEADER_SIZE + EntriesSize(n), strings + nameOffset, symbols[n], nameOffset,
                h, e, names, strings);
    WrittenNext(bytes[..], symbols, n, e + EntryBytes(symbols[n], nameOffset), names + symbols[n].name);
  }

  /** The filling of the buffer. */
  method Fill(bytes: array<byte>, symbols: seq<Symbol>)
    requires bytes.Length == TotalSize(symbols) < U32
    requires forall i :: 0 <= i < bytes.Length ==> bytes[i] == 0
    modifies bytes
    ensures bytes[..] == Image(symbols)
  {
    hide EntryBytes, Header, IsUtf8;
    WriteHeader(bytes, symbols);
    var nameOffset := 0;
    for n := 0 to |symbols|
      invariant Written(bytes[..], symbols, n) && nameOffset == |Names(symbols, n)|
    {
      NamesGrow(symbols, n + 1, |symbols|);
      assert nameOffset < U32 && |symbols[n].name| < U32;
      FillOne(bytes, symbols, n, nameOffset);
      nameOffset := nameOffset + |symbols[n].name|;
    }
    WrittenAll(bytes[..], symbols);
  }

  /** Succeeds exactly on the encodable lists, with their image; the closing parse of
      the produced bytes and the per-entry conversions cannot fail. */
  method Encode(symbols: seq<Symbol>) returns (r: Result<seq<byte>, EncodeError>)
    ensures r.Ok? <==> Encodable(symbols)
    ensures r.Ok? ==> r.value == Image(symbols)
    ensures r.Err? ==> FirstObjection(symbols, r.error)
  {
    hide Image, Names;
    if |symbols| >= U32 { return Err(TooLarge); }
    var names := Validate(symbols);
    if names.Err? {
      ObjectionRulesOut(symbols, names.error);
      return Err(names.error);
    }
    var totalSize := StringsOffset(symbols) + names.value;
    if totalSize >= U32 { return Err(TooLarge); }
    var bytes := new byte[totalSize](_ => 0);
    Fill(bytes, symbols);
    RoundTrip(symbols);
    var parsed := Parse(bytes[..]);
    assert parsed.Ok?;
    return Ok(bytes[..]);
  }

  /** No encodable list gives the encoder a reason to object. */
  lemma ObjectionRulesOut(symbols: seq<Symbol>, error: EncodeError)
    requires FirstObjection(symbols, error)
    ensures !Encodable(symbols)
  {
    hide Names, IsUtf8;
    if error == TooLarge && exists n: nat :: FirstFine(symbols, n) && |Names(symbols, n)| >= U64 {
      var n: nat :| FirstFine(symbols, n) && |Names(symbols, n)| >= U64;
      NamesGrow(symbols, n, |symbols|);
    }
  }

  // ----- Re-encoding an accepted table ------------------------------------------------

  /** The symbols of any accepted table, even one whose names overlap or leave gaps,
      meet every demand of the encoder except perhaps the size limit; when they fit,
      the new table has the same symbols. */
  lemma Reencodable(bytes: seq<byte>)
    requires WellFormed(bytes)
    ensures (forall i :: 0 <= i < EntryCount(bytes) ==> InputOk(Symbols(bytes)[i])) && Ascending(Symbols(bytes))
    ensures Encodable(Symbols(bytes)) <==> TotalSize(Symbols(bytes)) < U32
    ensures TotalSize(Symbols(bytes)) < U32 ==>
              WellFormed(Image(Symbols(bytes))) && Symbols(Image(Symbols(bytes))) == Symbols(bytes)
  {
    hide Image, IsUtf8, Names;
    var symbols := Symbols(bytes);
    TableReads(bytes);
    forall i | 0 <= i < |symbols| ensures InputOk(symbols[i]) { assert EntryOk(bytes, i); }
    if TotalSize(symbols) < U32 { RoundTrip(symbols); }
  }

  /** Parse, iterate, encode. */
  method Reencode(bytes: seq<byte>) returns (r: Result<seq<byte>, EncodeError>)
    requires WellFormed(bytes)
    ensures r.Err? ==> r.error == TooLarge
    ensures r.Ok? <==> TotalSize(Symbols(bytes)) < U32
    ensures r.Ok? ==> WellFormed(r.value) && Symbols(r.value) == Symbols(bytes)
  {
    hide Image, IsUtf8, Names, Symbols, FirstObjection, Encodable, InputOk, Ascending;
    var table := Parse(bytes);
    var symbols := Collect(table.value);
    Reencodable(bytes);
    r := Encode(symbols);
    if r.Err? {
      OnlyTooLarge(symbols, r.error);
    }
  }

  lemma OnlyTooLarge(symbols: seq<Symbol>, error: EncodeError)
    requires (forall i :: 0 <= i < |symbols| ==> InputOk(symbols[i])) && Ascending(symbols)
    requires FirstObjection(symbols, error)
    ensures error == TooLarge
  {
    hide TotalSize, IsUtf8;
  }

  // ----- Overlapping ranges -------------------------------------------------------------

  const OVERLAPPING: seq<Symbol> := [Symbol(0, 10, [0x61]), Symbol(4, 1, [0x62])]

  /** The encoder and the parser accept overlapping ranges. */
  lemma OverlapIsAccepted()
    ensures WellFormed(Image(OVERLAPPING)) && Symbols(Image(OVERLAPPING)) == OVERLAPPING
    ensures Encodable(OVERLAPPING) && Symbols(Image(OVERLAPPING))[0].Contains(8)
  {
    hide Image;
    assert Names(OVERLAPPING, 0) == [];
    assert Names(OVERLAPPING, 1) == [0x61];
    assert Names(OVERLAPPING, 2) == [0x61, 0x62];
    RoundTrip(OVERLAPPING);
  }

  lemma SecondHidesFirst()
    ensures forall k: nat :: LastAtOrBelow(OVERLAPPING, 8, k) ==> !OVERLAPPING[k].Contains(8)
  {
    forall k: nat | LastAtOrBelow(OVERLAPPING, 8, k) ensures !OVERLAPPING[k].Contains(8) {
      assert k != 0 by { assert OVERLAPPING[1].start <= 8; }
    }
  }

  /** On that table the search for address 8 finds nothing, although the first symbol
      contains it. */
  method OverlapHidesASymbol() returns (bytes: seq<byte>, r: Option<Symbol>)
    ensures WellFormed(bytes) && |Symbols(bytes)| == 2 && Symbols(bytes)[0].Contains(8)
    ensures r == None
  {
    hide Image, Symbols, WellFormed, LastAtOrBelow, IsUtf8, Encodable;
    OverlapIsAccepted();
    SecondHidesFirst();
    var encoded := Encode(OVERLAPPING);
    bytes := encoded.value;
    var table := Parse(bytes);
    r := Lookup(table.value, 8);
  }
}
