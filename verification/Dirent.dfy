/** Directory records from the kernel's `getdents64` sink to the two userspace walkers
    of `/proc/nemophila`. */
module Dirent {
  import opened Bytes

  const HEADER_SIZE: nat := 19
  /** A directory entry as the producer hands it to the sink. */
  datatype DirEntry = DirEntry(name: Str, ino: Word, kind: byte)

  // ----- Records ----------------------------------------------------------------------

  /** Header, name and terminator, rounded up to eight bytes. */
  function RecordLen(nameLength: nat): nat {
    (HEADER_SIZE + nameLength + 1 + 7) / 8 * 8
  }

  function RecordHeader(entry: DirEntry): (bytes: seq<byte>)
    ensures |bytes| == HEADER_SIZE
  {
    ToLe(entry.ino, 8) + ToLe(39, 8) + ToLe(RecordLen(|entry.name|), 2) + [entry.kind]
  }

  function Record(entry: DirEntry): (bytes: seq<byte>)
    ensures |bytes| == RecordLen(|entry.name|)
  {
    RecordHeader(entry) + entry.name + [0] + Zeros(RecordLen(|entry.name|) - HEADER_SIZE - |entry.name| - 1)
  }

  function Records(entries: seq<DirEntry>): seq<byte> {
    if entries == [] then [] else Record(entries[0]) + Records(entries[1..])
  }

  // ----- Walking ----------------------------------------------------------------------

  function DeclaredLen(bytes: seq<byte>): nat
    requires |bytes| >= 18
  {
    FromLe(bytes[16..18])
  }

  /** `u16::from_ne_bytes` on the supported little-endian targets. */
  function U16(low: int, high: int): nat
    requires 0 <= low < 256 && 0 <= high < 256
  {
    low + 256 * high
  }

  /** `bytes` starts with a record: long enough, inside what is left, with a terminated
      UTF-8 name. */
  predicate Framed(bytes: seq<byte>) {
    && |bytes| >= 20 && 20 <= DeclaredLen(bytes) <= |bytes|
    && var name := bytes[HEADER_SIZE..DeclaredLen(bytes)];
       NameLength(name) < |name| && IsUtf8(name[..NameLength(name)])
  }

  function FirstName(bytes: seq<byte>): Str
    requires Framed(bytes)
  {
    var name := bytes[HEADER_SIZE..DeclaredLen(bytes)];
    name[..NameLength(name)]
  }

  /** The names of the records up to the end or the first bad framing. */
  datatype Walked = Walked(names: seq<Str>, clean: bool)

  function Walk(bytes: seq<byte>): Walked {
    if bytes == [] then Walked([], true)
    else if !Framed(bytes) then Walked([], false)
    else
      var rest := Walk(bytes[DeclaredLen(bytes)..]);
      Walked([FirstName(bytes)] + rest.names, rest.clean)
  }

  /** One record as `nemophila list` checks it, 19 bytes first. */
  method ListRecord(buffer: seq<byte>, count: nat, offset: nat) returns (len: nat, name: Option<Str>)
    requires offset < count <= |buffer|
    ensures name.Some? <==> Framed(buffer[offset..count])
    ensures name.Some? ==>
              && len == DeclaredLen(buffer[offset..count]) && 0 < len <= count - offset
              && name.value == FirstName(buffer[offset..count])
  {
    if count - offset < 19 { return 0, None; }
    len, name := RecordBody(buffer, count, offset);
  }

  /** One record as `DirectorySnapshot::identities` checks it, 20 bytes first. */
  method IdentitiesRecord(buffer: seq<byte>, count: nat, offset: nat) returns (len: nat, name: Option<Str>)
    requires offset < count <= |buffer|
    ensures name.Some? <==> Framed(buffer[offset..count])
    ensures name.Some? ==>
              && len == DeclaredLen(buffer[offset..count]) && 0 < len <= count - offset
              && name.value == FirstName(buffer[offset..count])
  {
    if count - offset < 20 { return 0, None; }
    len, name := RecordBody(buffer, count, offset);
  }

  /** The checks the two walkers share. */
  method RecordBody(buffer: seq<byte>, count: nat, offset: nat) returns (len: nat, name: Option<Str>)
    requires offset + 19 <= count <= |buffer|
    ensures name.Some? <==> Framed(buffer[offset..count])
    ensures name.Some? ==>
              && len == DeclaredLen(buffer[offset..count]) && 0 < len <= count - offset
              && name.value == FirstName(buffer[offset..count])
  {
    hide IsUtf8;
    ghost var window := buffer[offset..count];
    len := U16(buffer[offset + 16], buffer[offset + 17]);
    DeclaredLenBytes(window);
    if len < 20 || len > count - offset { return len, None; }
    var nameBytes := buffer[offset + 19..offset + len];
    SubSlice(buffer, offset, count, HEADER_SIZE, len);
    var n := 0;
    while n < |nameBytes| && nameBytes[n] != 0
      invariant n <= NameLength(nameBytes)
    {
      NameLengthBeyond(nameBytes, n);
      n := n + 1;
    }
    assert n == NameLength(nameBytes);
    if n == |nameBytes| { return len, None; }
    if !IsUtf8(nameBytes[..n]) { return len, None; }
    name := Some(nameBytes[..n]);
  }

  lemma DeclaredLenBytes(bytes: seq<byte>)
    requires |bytes| >= 18
    ensures DeclaredLen(bytes) == U16(bytes[16], bytes[17])
  {
    var field := bytes[16..18];
    assert field[1..][1..] == [];
    assert FromLe(field) == field[0] + 256 * FromLe(field[1..]);
    assert FromLe(field[1..]) == field[1] + 256 * FromLe(field[1..][1..]);
  }

  lemma NameLengthBeyond(bytes: seq<byte>, n: nat)
    requires n < |bytes| && bytes[n] != 0 && n <= NameLength(bytes)
    ensures n < NameLength(bytes)
  {
  }

  const DOT: seq<byte> := [0x2E]
  const DOTDOT: seq<byte> := [0x2E, 0x2E]

  /** What the walkers do not report. */
  predicate IsDots(name: seq<byte>) {
    name == DOT || name == DOTDOT
  }

  function Visible(names: seq<Str>): seq<Str> {
    if names == [] then []
    else (if IsDots(names[0]) then [] else [names[0]]) + Visible(names[1..])
  }

  /** The inner loop of `list`: prints the visible names in order until the end of the
      batch or the first bad framing, and never looks past the returned count. */
  method ListBatch(buffer: seq<byte>, count: nat, printed: seq<Str>) returns (output: seq<Str>, ok: bool)
    requires count <= |buffer|
    ensures output == printed + Visible(Walk(buffer[..count]).names)
    ensures ok == Walk(buffer[..count]).clean
  {
    hide Framed, FirstName, IsUtf8, DeclaredLen;
    var offset := 0;
    output := printed;
    assert buffer[0..count] == buffer[..count];
    while offset < count
      invariant offset <= count
      invariant output + Visible(Walk(buffer[offset..count]).names) == printed + Visible(Walk(buffer[..count]).names)
      invariant Walk(buffer[offset..count]).clean == Walk(buffer[..count]).clean
    {
      var len, name := ListRecord(buffer, count, offset);
      ghost var rest := buffer[offset..count];
      if name.None? {
        assert Walk(rest) == Walked([], false);
        return output, false;
      }
      WalkStep(buffer, count, offset, len, name.value);
      if !IsDots(name.value) {
        output := output + [name.value];
      }
      offset := offset + len;
    }
    assert buffer[offset..count] == [];
    ok := true;
  }

  // ----- Identities -----------------------------------------------------------------

  predicate IsDigit(b: byte) {
    0x30 <= b <= 0x39
  }

  function DigitValue(b: int): nat
    requires 0x30 <= b <= 0x39
  {
    b - 0x30
  }

  /** The number a string of digits denotes. */
  function DigitsValue(digits: seq<byte>): nat
    requires forall i :: 0 <= i < |digits| ==> IsDigit(digits[i])
  {
    if digits == [] then 0
    else
      assert IsDigit(digits[|digits| - 1]);
      10 * DigitsValue(digits[..|digits| - 1]) + DigitValue(digits[|digits| - 1])
  }

  function AfterSign(text: seq<byte>): seq<byte> {
    if text != [] && text[0] == 0x2B then text[1..] else text
  }

  /** `str::parse::<u64>`: digits after an optional plus sign, in range. */
  function ParseU64(text: seq<byte>): Option<Word> {
    var digits := AfterSign(text);
    if digits == [] || (exists i :: 0 <= i < |digits| && !IsDigit(digits[i])) then None
    else if DigitsValue(digits) >= U64 then None
    else Some(DigitsValue(digits))
  }

  /** `u64::to_string`. */
  function Decimal(n: nat): (text: Str)
    ensures |text| >= 1 && forall i :: 0 <= i < |text| ==> IsDigit(text[i])
  {
    if n < 10 then DigitsAreUtf8([0x30 + n]); [0x30 + n]
    else
      var text := Decimal(n / 10) + [0x30 + n % 10];
      DigitsAreUtf8(text);
      text
  }

  lemma {:induction false} DigitsAreUtf8(text: seq<byte>)
    requires forall i :: 0 <= i < |text| ==> IsDigit(text[i])
    ensures IsUtf8(text)
  {
    if text != [] {
      assert ScalarLength(text) == 1;
      DigitsAreUtf8(text[1..]);
    }
  }

  lemma {:induction false} DecimalValue(n: nat)
    ensures DigitsValue(Decimal(n)) == n
  {
    if n >= 10 {
      DecimalValue(n / 10);
      var text := Decimal(n);
      assert text[..|text| - 1] == Decimal(n / 10);
    } else {
      assert Decimal(n)[..0] == [];
    }
  }

  /** Printing an identity and parsing it back. */
  lemma ParseDecimal(n: Word)
    ensures ParseU64(Decimal(n)) == Some(n)
  {
    DecimalValue(n);
  }

  /** The other way: digits are leading zeros and then the decimal text of their value. */
  lemma {:induction false} DigitsAreDecimal(digits: seq<byte>) returns (zeros: nat)
    requires digits != [] && forall i :: 0 <= i < |digits| ==> IsDigit(digits[i])
    ensures zeros < |digits| && digits[zeros..] == Decimal(DigitsValue(digits))
    ensures forall i :: 0 <= i < zeros ==> digits[i] == 0x30
    decreases |digits|
  {
    var n := |digits| - 1;
    assert IsDigit(digits[n]);
    if n == 0 {
      zeros := 0;
      assert digits[..0] == [] && digits[0..] == [digits[0]];
    } else {
      var front := digits[..n];
      zeros := DigitsAreDecimal(front);
      assert digits[zeros..] == front[zeros..] + [digits[n]];
      if DigitsValue(front) == 0 {
        assert front[zeros..] == [0x30];
        assert zeros == n - 1 && front[zeros] == 0x30;
        zeros := n;
      }
    }
  }

  /** What parses is an optional plus sign, leading zeros and the decimal text. */
  lemma ParsedIsDecimal(text: seq<byte>)
    requires ParseU64(text).Some?
    ensures exists k: nat :: k < |text| && text[k..] == Decimal(ParseU64(text).value)
              && forall i :: 0 <= i < k ==> text[i] == 0x30 || (i == 0 && text[i] == 0x2B)
  {
    var digits := AfterSign(text);
    var plus := |text| - |digits|;
    var zeros := DigitsAreDecimal(digits);
    assert text[plus + zeros..] == digits[zeros..];
    assert forall i :: plus <= i < plus + zeros ==> text[i] == digits[i - plus];
  }

  /** Twenty digits are enough for a `u64`. */
  lemma {:induction false} DecimalLength(n: nat, digits: nat)
    requires digits > 0 && n < Pow10(digits)
    ensures |Decimal(n)| <= digits
  {
    if n >= 10 { DecimalLength(n / 10, digits - 1); }
  }

  function Pow10(k: nat): nat {
    if k == 0 then 1 else 10 * Pow10(k - 1)
  }

  /** The parsed visible names, or None if one of them is not a number. */
  function Parsed(names: seq<Str>): Option<seq<Word>> {
    if names == [] then Some([])
    else
      match ParseU64(names[0])
      case None => None
      case Some(n) =>
        match Parsed(names[1..])
        case None => None
        case Some(rest) => Some([n] + rest)
  }

  /** What reading `bytes` adds to the identities read before it. */
  function Collected(before: seq<Word>, bytes: seq<byte>): Option<seq<Word>> {
    var walked := Walk(bytes);
    if walked.clean && Parsed(Visible(walked.names)).Some? then Some(before + Parsed(Visible(walked.names)).value)
    else None
  }

  lemma CollectedStep(before: seq<Word>, buffer: seq<byte>, count: nat, offset: nat, len: nat, name: Str)
    requires offset < count <= |buffer| && Framed(buffer[offset..count])
    requires len == DeclaredLen(buffer[offset..count]) && name == FirstName(buffer[offset..count])
    requires 0 < len <= count - offset
    ensures Collected(before, buffer[offset..count]) ==
            if IsDots(name) then Collected(before, buffer[offset + len..count])
            else if ParseU64(name).None? then None
            else Collected(before + [ParseU64(name).value], buffer[offset + len..count])
  {
    hide Framed, FirstName, IsUtf8, DeclaredLen, ParseU64, Walk;
    WalkStep(buffer, count, offset, len, name);
    var here, rest := Walk(buffer[offset..count]), Walk(buffer[offset + len..count]);
    if IsDots(name) {
      assert Visible(here.names) == Visible(rest.names);
    } else {
      assert Visible(here.names)[1..] == Visible(rest.names);
      if ParseU64(name).Some? && Parsed(Visible(rest.names)).Some? {
        var n, tail := ParseU64(name).value, Parsed(Visible(rest.names)).value;
        assert before + ([n] + tail) == before + [n] + tail;
      }
    }
  }

  /** The inner loop of `identities`: the numbers of the visible names, or EIO. */
  method IdentitiesBatch(buffer: seq<byte>, count: nat, before: seq<Word>) returns (r: Option<seq<Word>>)
    requires count <= |buffer|
    ensures r == Collected(before, buffer[..count])
  {
    hide Framed, FirstName, IsUtf8, DeclaredLen, ParseU64;
    var offset := 0;
    var identities := before;
    assert buffer[0..count] == buffer[..count];
    while offset < count
      invariant offset <= count
      invariant Collected(identities, buffer[offset..count]) == Collected(before, buffer[..count])
    {
      var len, name := IdentitiesRecord(buffer, count, offset);
      if name.None? {
        assert Walk(buffer[offset..count]) == Walked([], false);
        return None;
      }
      CollectedStep(identities, buffer, count, offset, len, name.value);
      if !IsDots(name.value) {
        match ParseU64(name.value) {
          case None => return None;
          case Some(n) => identities := identities + [n];
        }
      }
      offset := offset + len;
    }
    assert buffer[offset..count] == [] && identities + [] == identities;
    r := Some(identities);
  }

  /** What one framed record adds to the walk. */
  lemma WalkStep(buffer: seq<byte>, count: nat, offset: nat, len: nat, name: Str)
    requires offset < count <= |buffer| && Framed(buffer[offset..count])
    requires len == DeclaredLen(buffer[offset..count]) && name == FirstName(buffer[offset..count])
    requires 0 < len <= count - offset
    ensures var rest := Walk(buffer[offset + len..count]);
            var here := Walk(buffer[offset..count]);
            && here.names == [name] + rest.names && here.clean == rest.clean
            && Visible(here.names) == (if IsDots(name) then [] else [name]) + Visible(rest.names)
  {
    hide Framed, FirstName, IsUtf8;
    var window := buffer[offset..count];
    assert window[len..] == buffer[offset + len..count];
    assert Walk(window).names[1..] == Walk(window[len..]).names;
  }
}
