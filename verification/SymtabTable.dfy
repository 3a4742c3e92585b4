/** The checked parser, the allocation-free iterator and the binary-search lookup. */
module SymtabTable {
  import Bits
  import opened Bytes
  import opened SymtabFormat

  /** The order in which the header is checked. */
  function HeaderRank(error: ParseError): nat {
    match error
    case Truncated => 0
    case BadMagic => 1
    case UnsupportedVersion => 2
    case BadHeaderSize => 3
    case BadTotalSize => 4
    case ReservedField => 5
    case BadStringsOffset => 6
    case _ => 7
  }

  /** The order in which an entry is checked. */
  function EntryRank(error: ParseError): nat {
    match error
    case EmptyName => 0
    case BadNameRange => 1
    case InvalidUtf8 => 2
    case ZeroSizedSymbol => 3
    case AddressOverflow => 4
    case UnsortedSymbols => 5
    case _ => 6
  }

  /** The header has this defect and none that is checked before it. */
  ghost predicate FirstInHeader(bytes: seq<byte>, error: ParseError) {
    && HeaderRank(error) < 7 && Defect(bytes, error)
    && forall earlier :: HeaderRank(earlier) < HeaderRank(error) ==> !Defect(bytes, earlier)
  }

  /** So does the entry. */
  ghost predicate FirstInEntry(bytes: seq<byte>, i: nat, error: ParseError)
    requires HeaderOk(bytes) && i < EntryCount(bytes)
  {
    && EntryDefect(bytes, i, error)
    && forall earlier :: EntryRank(earlier) < EntryRank(error) ==> !EntryDefect(bytes, i, earlier)
  }

  /** The first thing wrong with the bytes, in the order of the checks. */
  ghost predicate FirstDefect(bytes: seq<byte>, error: ParseError) {
    if HeaderRank(error) < 7 then FirstInHeader(bytes, error)
    else HeaderOk(bytes)
         && exists i: nat :: i < EntryCount(bytes) && PrefixOk(bytes, i) && FirstInEntry(bytes, i, error)
  }

  method ParseHeader(bytes: seq<byte>) returns (r: Result<SymbolTable, ParseError>)
    ensures r.Ok? <==> HeaderOk(bytes)
    ensures r.Ok? ==> r.value == TableOf(bytes)
    ensures r.Err? ==> FirstInHeader(bytes, r.error)
  {
    if |bytes| < HEADER_SIZE { return Err(Truncated); }
    if bytes[..|MAGIC|] != MAGIC { return Err(BadMagic); }
    if ReadU16(bytes, 8) != Ok(VERSION) { return Err(UnsupportedVersion); }
    if ReadU16(bytes, 10) != Ok(HEADER_SIZE) { return Err(BadHeaderSize); }
    if ReadU32(bytes, 12) != Ok(|bytes|) { return Err(BadTotalSize); }
    if ReadU64(bytes, 24) != Ok(0) { return Err(ReservedField); }

    var entryCount := ReadU32(bytes, 16).value;
    var expected := HEADER_SIZE + EntriesSize(entryCount);
    var stringsOffset := ReadU32(bytes, 20).value;
    if stringsOffset != expected || stringsOffset > |bytes| { return Err(BadStringsOffset); }
    return Ok(SymbolTable(bytes, entryCount, stringsOffset));
  }

  /** What the parser demands of one entry, given the start before it. */
  method CheckEntry(table: SymbolTable, index: nat, previousStart: Option<nat>) returns (r: Result<nat, ParseError>)
    requires HeaderOk(table.bytes) && table == TableOf(table.bytes) && index < table.entryCount
    requires previousStart == if index == 0 then None else Some(Start(table.bytes, index - 1))
    ensures r.Ok? <==> EntryOk(table.bytes, index) &&
                       (index == 0 || Start(table.bytes, index - 1) < Start(table.bytes, index))
    ensures r.Ok? ==> r.value == Start(table.bytes, index)
    ensures r.Err? ==> FirstInEntry(table.bytes, index, r.error)
  {
    hide IsUtf8;
    SymbolAtReads(table.bytes, index);
    var symbol := SymbolAt(table, index);
    if symbol.Err? { return Err(symbol.error); }
    if symbol.value.size == 0 { return Err(ZeroSizedSymbol); }
    if symbol.value.start + symbol.value.size >= U64 { return Err(AddressOverflow); }
    if previousStart.Some? && previousStart.value >= symbol.value.start { return Err(UnsortedSymbols); }
    return Ok(symbol.value.start);
  }

  lemma EntryErrors(bytes: seq<byte>, i: nat, error: ParseError)
    requires HeaderOk(bytes) && i < EntryCount(bytes) && FirstInEntry(bytes, i, error)
    ensures HeaderRank(error) == 7
  {
  }

  /** The first `n` entries are right and in order. */
  ghost predicate PrefixOk(bytes: seq<byte>, n: nat)
    requires HeaderOk(bytes) && n <= EntryCount(bytes)
  {
    && (forall i: nat :: i < n ==> EntryOk(bytes, i))
    && (forall i: nat, j: nat :: i < j < n ==> Start(bytes, i) < Start(bytes, j))
  }

  lemma ExtendPrefix(bytes: seq<byte>, n: nat)
    requires HeaderOk(bytes) && n < EntryCount(bytes) && PrefixOk(bytes, n) && EntryOk(bytes, n)
    requires n == 0 || Start(bytes, n - 1) < Start(bytes, n)
    ensures PrefixOk(bytes, n + 1)
  {
    hide IsUtf8, FromLe;
    forall i: nat, j: nat | i < j < n + 1 ensures Start(bytes, i) < Start(bytes, j) {
      if j == n && i < n - 1 { assert Start(bytes, i) < Start(bytes, n - 1); }
    }
  }

  lemma BadEntry(bytes: seq<byte>, n: nat)
    requires HeaderOk(bytes) && n < EntryCount(bytes)
    requires !(EntryOk(bytes, n) && (n == 0 || Start(bytes, n - 1) < Start(bytes, n)))
    ensures !WellFormed(bytes)
  {
  }

  /** Accepts exactly the well-formed tables; an error names the first defect in the order of
      the checks. */
  method Parse(bytes: seq<byte>) returns (r: Result<SymbolTable, ParseError>)
    ensures r.Ok? <==> WellFormed(bytes)
    ensures r.Ok? ==> r.value == TableOf(bytes)
    ensures r.Err? ==> FirstDefect(bytes, r.error)
  {
    hide FirstInHeader, FirstInEntry, EntryOk, HeaderOk;
    var header := ParseHeader(bytes);
    if header.Err? { return header; }
    var table := header.value;
    var previousStart: Option<nat> := None;
    for index := 0 to table.entryCount
      invariant PrefixOk(bytes, index)
      invariant previousStart == if index == 0 then None else Some(Start(bytes, index - 1))
    {
      var entry := CheckEntry(table, index, previousStart);
      if entry.Err? {
        EntryErrors(bytes, index, entry.error);
        BadEntry(bytes, index);
        return Err(entry.error);
      }
      ExtendPrefix(bytes, index);
      previousStart := Some(entry.value);
    }
    return Ok(table);
  }

  /** A parsed table's entries stay readable: the `expect`s cannot fail. */
  lemma EntriesStayReadable(bytes: seq<byte>, i: nat)
    requires WellFormed(bytes) && i < EntryCount(bytes)
    ensures SymbolAt(TableOf(bytes), i) == Ok(Symbols(bytes)[i])
  {
    assert EntryOk(bytes, i);
    SymbolAtReads(bytes, i);
  }

  /** floor(log2(n)). */
  function Log2(n: nat): nat
    requires n > 0
  {
    if n == 1 then 0 else 1 + Log2(n / 2)
  }

  lemma {:induction false} Log2IsFloor(n: nat)
    requires n > 0
    ensures Bits.Pow2(Log2(n)) <= n < 2 * Bits.Pow2(Log2(n))
  {
    if n > 1 { Log2IsFloor(n / 2); }
  }

  lemma {:induction false} Log2Monotone(m: nat, n: nat)
    requires 0 < m <= n
    ensures Log2(m) <= Log2(n)
  {
    if m > 1 { Log2Monotone(m / 2, n / 2); }
  }

  /** The last symbol whose start is not above the address, if there is one. */
  ghost predicate LastAtOrBelow(symbols: seq<Symbol>, address: Word, k: nat) {
    && k < |symbols|
    && symbols[k].start <= address
    && forall i :: k < i < |symbols| ==> address < symbols[i].start
  }

  ghost predicate Ascending(symbols: seq<Symbol>) {
    forall i, j :: 0 <= i < j < |symbols| ==> symbols[i].start < symbols[j].start
  }

  /** The table's entries read as `symbols`. */
  ghost predicate Reads(table: SymbolTable, symbols: seq<Symbol>) {
    && |symbols| == table.entryCount
    && forall i: nat {:trigger SymbolAt(table, i)} :: i < |symbols| ==> SymbolAt(table, i) == Ok(symbols[i])
  }

  lemma TableReads(bytes: seq<byte>)
    requires WellFormed(bytes)
    ensures Reads(TableOf(bytes), Symbols(bytes)) && Ascending(Symbols(bytes))
  {
    forall i: nat | i < EntryCount(bytes) ensures SymbolAt(TableOf(bytes), i) == Ok(Symbols(bytes)[i]) {
      EntriesStayReadable(bytes, i);
    }
  }

  /** One probe, counted; the `expect` on it cannot fail. */
  method Probe(table: SymbolTable, index: nat, ghost symbols: seq<Symbol>, ghost before: nat)
    returns (symbol: Symbol, ghost probes: nat)
    requires Reads(table, symbols) && index < |symbols|
    ensures symbol == symbols[index] && probes == before + 1
  {
    probes := before + 1;
    symbol := SymbolAt(table, index).value;
  }

  /** One halving of the interval costs one probe. */
  lemma Halved(width: nat, rest: nat)
    requires 0 < width && rest <= width / 2
    ensures rest > 0 ==> Log2(rest) + 1 <= Log2(width)
  {
    if rest > 0 { Log2Monotone(rest, width / 2); }
  }

  /** The binary-search loop: how many symbols start at or below the address, found
      with at most floor(log2 n) + 1 probes. */
  method PartitionPoint(table: SymbolTable, address: Word, ghost symbols: seq<Symbol>)
    returns (low: nat, ghost probes: nat)
    requires Reads(table, symbols) && Ascending(symbols)
    ensures low <= |symbols|
    ensures forall i :: 0 <= i < low ==> symbols[i].start <= address
    ensures forall i :: low <= i < |symbols| ==> address < symbols[i].start
    ensures probes <= if |symbols| == 0 then 0 else Log2(|symbols|) + 1
  {
    hide SymbolAt, IsUtf8;
    low := 0;
    var high := table.entryCount;
    probes := 0;
    while low < high
      invariant low <= high <= |symbols|
      invariant forall i :: 0 <= i < low ==> symbols[i].start <= address
      invariant forall i :: high <= i < |symbols| ==> address < symbols[i].start
      invariant low < high ==> probes + Log2(high - low) <= Log2(|symbols|)
      invariant probes <= if |symbols| == 0 then 0 else Log2(|symbols|) + 1
    {
      ghost var width := high - low;
      var middle := low + (high - low) / 2;
      var symbol;
      symbol, probes := Probe(table, middle, symbols, probes);
      if symbol.start <= address {
        low := middle + 1;
      } else {
        high := middle;
      }
      Halved(width, high - low);
    }
  }

  /** Finds what a scan for the last start not above the address finds, provided that
      symbol contains the address. */
  method Lookup(table: SymbolTable, address: Word) returns (r: Option<Symbol>)
    requires WellFormed(table.bytes) && table == TableOf(table.bytes)
    ensures r.Some? <==> exists k: nat ::
              LastAtOrBelow(Symbols(table.bytes), address, k) && Symbols(table.bytes)[k].Contains(address)
    ensures forall k: nat :: r.Some? && LastAtOrBelow(Symbols(table.bytes), address, k) ==>
              r.value == Symbols(table.bytes)[k]
  {
    hide SymbolAt, Symbols, IsUtf8;
    ghost var symbols := Symbols(table.bytes);
    TableReads(table.bytes);
    var low, _ := PartitionPoint(table, address, symbols);
    if low == 0 {
      return None;
    }
    var symbol, _ := Probe(table, low - 1, symbols, 0);
    assert LastAtOrBelow(symbols, address, low - 1);
    r := if symbol.Contains(address) then Some(symbol) else None;
  }

  ghost predicate Disjoint(symbols: seq<Symbol>) {
    forall i, j :: 0 <= i < j < |symbols| ==> symbols[i].start + symbols[i].size <= symbols[j].start
  }

  /** When no two ranges overlap, a symbol containing the address is the only one and the
      one `Lookup` looks at, so `Lookup` finds nothing exactly when nothing contains it. */
  lemma LookupIsScan(symbols: seq<Symbol>, address: Word)
    requires Disjoint(symbols) && Ascending(symbols)
    ensures forall k: nat :: k < |symbols| && symbols[k].Contains(address) ==> LastAtOrBelow(symbols, address, k)
    ensures forall k: nat, i: nat :: (k < |symbols| && i < |symbols| && symbols[k].Contains(address)
                                      && symbols[i].Contains(address)) ==> i == k
    ensures (exists k: nat :: LastAtOrBelow(symbols, address, k) && symbols[k].Contains(address)) <==>
            exists k: nat :: k < |symbols| && symbols[k].Contains(address)
  {
    forall k: nat, i: nat | k < i < |symbols| && symbols[k].Contains(address)
      ensures address < symbols[i].start && !symbols[i].Contains(address)
    {
      assert symbols[k].start + symbols[k].size <= symbols[i].start;
    }
  }

  /** Entries as the parser leaves them. */
  ghost predicate Ranges(symbols: seq<Symbol>) {
    && Ascending(symbols)
    && forall i :: 0 <= i < |symbols| ==> symbols[i].size > 0 && symbols[i].start + symbols[i].size < U64
  }

  /** Wherever some symbol contains the address, the one that the search looks at does. */
  ghost predicate NeverMisses(symbols: seq<Symbol>) {
    forall address: Word, k: nat, m: nat ::
      k < |symbols| && symbols[k].Contains(address) && LastAtOrBelow(symbols, address, m) ==>
        m < |symbols| && symbols[m].Contains(address)
  }

  function End(symbol: Symbol): nat {
    symbol.start + symbol.size
  }

  /** Symbol `k` does not reach past the end of `m`, or no gap follows `m`. */
  ghost predicate PairOk(symbols: seq<Symbol>, k: nat, m: nat)
    requires k < m < |symbols|
  {
    End(symbols[k]) <= End(symbols[m]) || (m + 1 < |symbols| && symbols[m + 1].start <= End(symbols[m]))
  }

  ghost predicate NoHole(symbols: seq<Symbol>) {
    forall k: nat, m: nat :: k < m < |symbols| ==> PairOk(symbols, k, m)
  }

  lemma FoundIfPairOk(symbols: seq<Symbol>, address: Word, k: nat, m: nat)
    requires Ranges(symbols) && k < |symbols| && symbols[k].Contains(address) && LastAtOrBelow(symbols, address, m)
    requires k < m ==> PairOk(symbols, k, m)
    ensures m < |symbols| && symbols[m].Contains(address)
  {
    hide IsUtf8;
    assert k <= m;
  }

  lemma HoleIsMissed(symbols: seq<Symbol>, k: nat, m: nat)
    requires Ranges(symbols) && k < m < |symbols| && !PairOk(symbols, k, m)
    ensures End(symbols[m]) < U64 && symbols[k].Contains(End(symbols[m])) && !symbols[m].Contains(End(symbols[m]))
    ensures LastAtOrBelow(symbols, End(symbols[m]), m)
  {
    hide IsUtf8;
    forall i | m < i < |symbols| ensures End(symbols[m]) < symbols[i].start {
      assert m + 1 < i ==> symbols[m + 1].start < symbols[i].start;
    }
  }

  /** The exact condition under which overlapping ranges do no harm. */
  lemma MissesNothingIffNoHole(symbols: seq<Symbol>)
    requires Ranges(symbols)
    ensures NeverMisses(symbols) <==> NoHole(symbols)
  {
    hide IsUtf8, Ranges, PairOk, End;
    if NoHole(symbols) {
      forall address: Word, k: nat, m: nat | (k < |symbols| && symbols[k].Contains(address)
                                                  && LastAtOrBelow(symbols, address, m))
        ensures m < |symbols| && symbols[m].Contains(address)
      {
        FoundIfPairOk(symbols, address, k, m);
      }
    }
    if NeverMisses(symbols) {
      forall k: nat, m: nat | k < m < |symbols| ensures PairOk(symbols, k, m) {
        if !PairOk(symbols, k, m) { HoleIsMissed(symbols, k, m); }
      }
    }
  }

  /** For a whole accepted table: the search misses no containing symbol at any address if
      and only if the table has no hole. */
  lemma LookupCompleteIffNoHole(bytes: seq<byte>)
    requires WellFormed(bytes)
    ensures NeverMisses(Symbols(bytes)) <==> NoHole(Symbols(bytes))
  {
    hide IsUtf8, FromLe;
    var symbols := Symbols(bytes);
    TableReads(bytes);
    forall i | 0 <= i < |symbols| ensures symbols[i].size > 0 && symbols[i].start + symbols[i].size < U64 {
      assert EntryOk(bytes, i);
      assert symbols[i] == SymbolOf(bytes, i);
    }
    MissesNothingIffNoHole(Symbols(bytes));
  }

  /** The iterator of a validated table. */
  class SymbolsIter {
    const table: SymbolTable
    var next: nat

    ghost predicate Valid()
      reads this
    {
      WellFormed(table.bytes) && table == TableOf(table.bytes) && next <= table.entryCount
    }

    constructor (table: SymbolTable)
      requires WellFormed(table.bytes) && table == TableOf(table.bytes)
      ensures Valid() && this.table == table && next == 0
    {
      this.table := table;
      next := 0;
    }

    /** Yields the symbols in order, then None for ever. */
    method Next() returns (r: Option<Symbol>)
      requires Valid()
      modifies this
      ensures Valid()
      ensures if old(next) < |Symbols(table.bytes)|
              then r == Some(Symbols(table.bytes)[old(next)]) && next == old(next) + 1
              else r == None && next == old(next)
    {
      if next == table.entryCount {
        return None;
      }
      EntriesStayReadable(table.bytes, next);
      r := Some(SymbolAt(table, next).value);
      next := next + 1;
    }
  }

  /** Running the iterator to its end collects exactly the symbols of the table. */
  method Collect(table: SymbolTable) returns (symbols: seq<Symbol>)
    requires WellFormed(table.bytes) && table == TableOf(table.bytes)
    ensures symbols == Symbols(table.bytes)
  {
    var iter := new SymbolsIter(table);
    symbols := [];
    while true
      invariant iter.Valid() && iter.table == table && fresh(iter)
      invariant symbols == Symbols(table.bytes)[..iter.next]
      decreases table.entryCount - iter.next
    {
      var symbol := iter.Next();
      if symbol.None? {
        return;
      }
      symbols := symbols + [symbol.value];
    }
  }
}
