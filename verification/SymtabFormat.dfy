/** The versioned symbol-table byte format: what a table means and how one entry is read. */
module SymtabFormat {
  import opened Bytes

  const MAGIC: seq<byte> := [0x41, 0x4E, 0x45, 0x4D, 0x53, 0x59, 0x4D, 0x42]  // "ANEMSYMB"
  const VERSION: nat := 1
  const HEADER_SIZE: nat := 32
  const ENTRY_SIZE: nat := 24

  /** The bytes that `n` entries of ENTRY_SIZE take. */
  function EntriesSize(n: nat): nat {
    24 * n
  }

  const U32: nat := 0x1_0000_0000
  datatype ParseError =
    | Truncated
    | BadMagic
    | UnsupportedVersion
    | BadHeaderSize
    | BadTotalSize
    | BadStringsOffset
    | ReservedField
    | ZeroSizedSymbol
    | AddressOverflow
    | UnsortedSymbols
    | BadNameRange
    | EmptyName
    | InvalidUtf8

  datatype Symbol = Symbol(start: Word, size: Word, name: Str) {
    /** The end is a checked addition, so a range past the address space contains nothing. */
    predicate Contains(address: Word) {
      start <= address && start + size < U64 && address < start + size
    }
  }

  /** A symbol contains its first and its last address and neither of their outer neighbours;
      one that reaches past the address space contains nothing. */
  lemma ContainsBounds(symbol: Symbol)
    requires symbol.size > 0
    ensures if symbol.start + symbol.size < U64
            then && symbol.Contains(symbol.start) && symbol.Contains(symbol.start + symbol.size - 1)
                 && !symbol.Contains(symbol.start + symbol.size)
                 && (symbol.start > 0 ==> !symbol.Contains(symbol.start - 1))
            else forall address: Word :: !symbol.Contains(address)
  {
  }

  datatype SymbolTable = SymbolTable(bytes: seq<byte>, entryCount: nat, stringsOffset: nat)

  // ----- Reading ---------------------------------------------------------------

  /** The little-endian field of `width` bytes at `offset`. */
  function Field(bytes: seq<byte>, offset: nat, width: nat): (value: nat)
    requires offset + width <= |bytes|
    ensures value < Span(width)
  {
    FromLeBound(bytes[offset..offset + width]);
    FromLe(bytes[offset..offset + width])
  }

  function ReadU16(bytes: seq<byte>, offset: nat): (r: Result<nat, ParseError>)
    ensures r.Ok? <==> offset + 2 <= |bytes|
  {
    if offset + 2 <= |bytes| then Ok(Field(bytes, offset, 2)) else Err(Truncated)
  }

  function ReadU32(bytes: seq<byte>, offset: nat): (r: Result<nat, ParseError>)
    ensures r.Ok? <==> offset + 4 <= |bytes|
    ensures r.Ok? ==> r.value < U32
  {
    SpanValues();
    if offset + 4 <= |bytes| then Ok(Field(bytes, offset, 4)) else Err(Truncated)
  }

  function ReadU64(bytes: seq<byte>, offset: nat): (r: Result<Word, ParseError>)
    ensures r.Ok? <==> offset + 8 <= |bytes|
  {
    SpanValues();
    if offset + 8 <= |bytes| then Ok(Field(bytes, offset, 8)) else Err(Truncated)
  }

  /** Entry `index` of a table whose header has been checked; the fields are read in
      the source's order, so the first problem decides the error. */
  function SymbolAt(table: SymbolTable, index: nat): Result<Symbol, ParseError> {
    var entry := HEADER_SIZE + EntriesSize(index);
    var start := ReadU64(table.bytes, entry);
    var size := ReadU64(table.bytes, entry + 8);
    var nameOffset := ReadU32(table.bytes, entry + 16);
    var nameLength := ReadU32(table.bytes, entry + 20);
    if start.Err? || size.Err? || nameOffset.Err? || nameLength.Err? then Err(Truncated)
    else if nameLength.value == 0 then Err(EmptyName)
    else
      var nameStart := table.stringsOffset + nameOffset.value;
      var nameEnd := nameStart + nameLength.value;
      if nameEnd > |table.bytes| then Err(BadNameRange)
      else if !IsUtf8(table.bytes[nameStart..nameEnd]) then Err(InvalidUtf8)
      else Ok(Symbol(start.value, size.value, table.bytes[nameStart..nameEnd]))
  }

  // ----- What a well-formed table is -------------------------------------------

  predicate HeaderOk(bytes: seq<byte>) {
    && |bytes| >= HEADER_SIZE
    && bytes[..|MAGIC|] == MAGIC
    && Field(bytes, 8, 2) == VERSION
    && Field(bytes, 10, 2) == HEADER_SIZE
    && Field(bytes, 12, 4) == |bytes|
    && Field(bytes, 24, 8) == 0
    && Field(bytes, 20, 4) == HEADER_SIZE + EntriesSize(Field(bytes, 16, 4)) <= |bytes|
  }

  function EntryCount(bytes: seq<byte>): nat
    requires HeaderOk(bytes)
  {
    Field(bytes, 16, 4)
  }

  function TableOf(bytes: seq<byte>): SymbolTable
    requires HeaderOk(bytes)
  {
    SymbolTable(bytes, EntryCount(bytes), HEADER_SIZE + EntriesSize(EntryCount(bytes)))
  }

  /** The four fields of entry `i` and the bytes its name range selects. */
  function Start(bytes: seq<byte>, i: nat): Word
    requires HeaderOk(bytes) && i < EntryCount(bytes)
  {
    SpanValues();
    Field(bytes, HEADER_SIZE + EntriesSize(i), 8)
  }

  function Size(bytes: seq<byte>, i: nat): Word
    requires HeaderOk(bytes) && i < EntryCount(bytes)
  {
    SpanValues();
    Field(bytes, HEADER_SIZE + EntriesSize(i) + 8, 8)
  }

  function NameStart(bytes: seq<byte>, i: nat): nat
    requires HeaderOk(bytes) && i < EntryCount(bytes)
  {
    HEADER_SIZE + EntriesSize(EntryCount(bytes)) + Field(bytes, HEADER_SIZE + EntriesSize(i) + 16, 4)
  }

  function NameEnd(bytes: seq<byte>, i: nat): (end: nat)
    requires HeaderOk(bytes) && i < EntryCount(bytes)
    ensures NameStart(bytes, i) <= end
  {
    NameStart(bytes, i) + Field(bytes, HEADER_SIZE + EntriesSize(i) + 20, 4)
  }

  /** The name range is a non-empty stretch of UTF-8 inside the string area; ranges
      may overlap each other or leave bytes unused. */
  predicate NameOk(bytes: seq<byte>, i: nat)
    requires HeaderOk(bytes) && i < EntryCount(bytes)
  {
    && NameStart(bytes, i) < NameEnd(bytes, i) <= |bytes|
    && IsUtf8(bytes[NameStart(bytes, i)..NameEnd(bytes, i)])
  }

  predicate EntryOk(bytes: seq<byte>, i: nat)
    requires HeaderOk(bytes) && i < EntryCount(bytes)
  {
    && NameOk(bytes, i)
    && 0 < Size(bytes, i) && Start(bytes, i) + Size(bytes, i) < U64
  }

  function SymbolOf(bytes: seq<byte>, i: nat): Symbol
    requires HeaderOk(bytes) && i < EntryCount(bytes) && NameOk(bytes, i)
  {
    Symbol(Start(bytes, i), Size(bytes, i), bytes[NameStart(bytes, i)..NameEnd(bytes, i)])
  }

  /** The header is right, every entry is, and the starts strictly increase. */
  ghost predicate WellFormed(bytes: seq<byte>) {
    && HeaderOk(bytes)
    && (forall i: nat :: i < EntryCount(bytes) ==> EntryOk(bytes, i))
    && (forall i: nat, j: nat :: i < j < EntryCount(bytes) ==> Start(bytes, i) < Start(bytes, j))
  }

  /** The symbols of a well-formed table, in order. */
  ghost function Symbols(bytes: seq<byte>): (symbols: seq<Symbol>)
    requires WellFormed(bytes)
    ensures |symbols| == EntryCount(bytes)
  {
    seq(EntryCount(bytes), i requires 0 <= i < EntryCount(bytes) => assert EntryOk(bytes, i); SymbolOf(bytes, i))
  }

  /** Under a right header `SymbolAt` never runs past the bytes: it succeeds exactly
      when the name is right, and then returns the fields. */
  lemma SymbolAtReads(bytes: seq<byte>, i: nat)
    requires HeaderOk(bytes) && i < EntryCount(bytes)
    ensures SymbolAt(TableOf(bytes), i).Ok? <==> NameOk(bytes, i)
    ensures NameOk(bytes, i) ==> SymbolAt(TableOf(bytes), i) == Ok(SymbolOf(bytes, i))
    ensures SymbolAt(TableOf(bytes), i).Err? ==>
              SymbolAt(TableOf(bytes), i).error ==
              if NameStart(bytes, i) == NameEnd(bytes, i) then EmptyName
              else if NameEnd(bytes, i) > |bytes| then BadNameRange
              else InvalidUtf8
  {
    hide IsUtf8, FromLe;
    assert HEADER_SIZE + EntriesSize(i) + ENTRY_SIZE <= |bytes|;
  }

  /** What each error says is wrong with the bytes. */
  ghost predicate Defect(bytes: seq<byte>, error: ParseError) {
    match error
    case Truncated => |bytes| < HEADER_SIZE
    case BadMagic => |bytes| >= HEADER_SIZE && bytes[..|MAGIC|] != MAGIC
    case UnsupportedVersion => |bytes| >= HEADER_SIZE && Field(bytes, 8, 2) != VERSION
    case BadHeaderSize => |bytes| >= HEADER_SIZE && Field(bytes, 10, 2) != HEADER_SIZE
    case BadTotalSize => |bytes| >= HEADER_SIZE && Field(bytes, 12, 4) != |bytes|
    case ReservedField => |bytes| >= HEADER_SIZE && Field(bytes, 24, 8) != 0
    case BadStringsOffset =>
      && |bytes| >= HEADER_SIZE
      && !(Field(bytes, 20, 4) == HEADER_SIZE + EntriesSize(Field(bytes, 16, 4)) <= |bytes|)
    case _ => HeaderOk(bytes) && exists i: nat :: i < EntryCount(bytes) && EntryDefect(bytes, i, error)
  }

  ghost predicate EntryDefect(bytes: seq<byte>, i: nat, error: ParseError)
    requires HeaderOk(bytes) && i < EntryCount(bytes)
  {
    match error
    case EmptyName => NameStart(bytes, i) == NameEnd(bytes, i)
    case BadNameRange => NameEnd(bytes, i) > |bytes|
    case InvalidUtf8 => NameEnd(bytes, i) <= |bytes| && !IsUtf8(bytes[NameStart(bytes, i)..NameEnd(bytes, i)])
    case ZeroSizedSymbol => Size(bytes, i) == 0
    case AddressOverflow => Start(bytes, i) + Size(bytes, i) >= U64
    case UnsortedSymbols => 0 < i && Start(bytes, i - 1) >= Start(bytes, i)
    case _ => false
  }
}
