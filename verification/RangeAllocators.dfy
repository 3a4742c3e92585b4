/** The allocator of address ranges: free ranges indexed by start and by length. */
module RangeAllocators {
  import opened Arithmetic
  import opened Bytes

  datatype Range = Range(start: nat, len: nat) {
    function End(): nat {
      start + len
    }

    predicate Has(address: nat) {
      start <= address < End()
    }
  }

  /** The range types the allocator is used with keep their end, or their last page, in a
      machine word. */
  type Block = r: Range | r.End() < U64 witness Range(0, 0)

  datatype RangeAllocError = FreeingExistingRange

  type FreeMap = map<nat, Range>

  // ----- The free ranges as a set of addresses ----------------------------------------

  /** Keys are starts, ranges are non-empty and end below the word size, and between two
      free ranges there is at least one address that is not free. */
  ghost predicate Normal(m: FreeMap) {
    && (forall s <- m :: m[s].start == s && m[s].len > 0 && m[s].End() < U64)
    && forall s, t :: s in m && t in m && s < t ==> m[s].End() < t
  }

  ghost predicate Covers(m: FreeMap, address: nat) {
    exists s :: s in m && m[s].Has(address)
  }

  /** The index by length holds exactly the ranges of the index by start. */
  ghost predicate Synced(m: FreeMap, lengths: map<nat, set<Range>>) {
    && (forall l <- lengths :: lengths[l] != {})
    && (forall l, r :: l in lengths && r in lengths[l] ==> r.len == l && r.start in m && m[r.start] == r)
    && forall s <- m :: m[s].start == s && m[s].len in lengths && m[s] in lengths[m[s].len]
  }

  /** The same free addresses give the same free ranges. */
  lemma NormalIsCanonical(m: FreeMap, n: FreeMap)
    requires Normal(m) && Normal(n)
    requires forall address: nat :: Covers(m, address) <==> Covers(n, address)
    ensures m == n
  {
    forall s | s in m ensures s in n && n[s] == m[s] { SameRange(m, n, s); }
    forall s | s in n ensures s in m { SameRange(n, m, s); }
  }

  lemma SameRange(m: FreeMap, n: FreeMap, s: nat)
    requires Normal(m) && Normal(n) && s in m
    requires forall address: nat :: Covers(m, address) <==> Covers(n, address)
    ensures s in n && n[s] == m[s]
  {
    assert forall a: nat :: s <= a < s + m[s].len ==> m[s].Has(a);
    var t := BlockInOneRange(n, s, m[s].len);
    assert forall a: nat :: t <= a < n[t].End() ==> n[t].Has(a);
    var u := BlockInOneRange(m, t, n[t].len);
    assert m[u].Has(s) && m[s].Has(s);
    OneRange(m, u, s, s);
  }

  /** Two free ranges that share an address are the same. */
  lemma OneRange(m: FreeMap, s: nat, t: nat, address: nat)
    requires Normal(m) && s in m && t in m && m[s].Has(address) && m[t].Has(address)
    ensures s == t
  {
  }

  /** The address after a free range is not free. */
  lemma GapAfter(m: FreeMap, s: nat)
    requires Normal(m) && s in m
    ensures !Covers(m, m[s].End())
  {
  }

  /** A block of free addresses lies inside a single free range. */
  lemma BlockInOneRange(m: FreeMap, start: nat, len: nat) returns (s: nat)
    requires Normal(m) && len > 0
    requires forall address: nat :: start <= address < start + len ==> Covers(m, address)
    ensures s in m && m[s].start <= start && start + len <= m[s].End()
  {
    assert Covers(m, start);
    s :| s in m && m[s].Has(start);
    GapAfter(m, s);
  }

  /** No free range touches [lo, hi], not even at an end. */
  ghost predicate Apart(m: FreeMap, lo: nat, hi: nat) {
    forall s <- m :: m[s].End() < lo || hi < s
  }

  lemma JoinedIsNormal(m: FreeMap, lo: nat, hi: nat)
    requires Normal(m) && lo < hi < U64 && Apart(m, lo, hi)
    ensures Normal(m[lo := Range(lo, hi - lo)])
  {
  }

  lemma JoinedCovers(m: FreeMap, lo: nat, hi: nat, x: nat)
    requires Normal(m) && lo < hi < U64 && Apart(m, lo, hi)
    ensures Covers(m[lo := Range(lo, hi - lo)], x) <==> Covers(m, x) || lo <= x < hi
  {
    var j := m[lo := Range(lo, hi - lo)];
    if Covers(m, x) {
      var t :| t in m && m[t].Has(x);
      assert j[t].Has(x);
    }
    if lo <= x < hi { assert j[lo].Has(x); }
  }

  lemma RemovedCovers(m: FreeMap, s: nat, x: nat)
    requires Normal(m) && s in m
    ensures Normal(m - {s}) && (Covers(m - {s}, x) <==> Covers(m, x) && !m[s].Has(x))
  {
    if Covers(m, x) && !m[s].Has(x) {
      var t :| t in m && m[t].Has(x);
      assert (m - {s})[t].Has(x);
    }
    if Covers(m - {s}, x) {
      var t :| t in m - {s} && (m - {s})[t].Has(x);
      assert m[t].Has(x);
      if m[s].Has(x) { OneRange(m, s, t, x); }
    }
  }

  /** Taking [from, to) out of the free range at `s`. */
  function Carved(m: FreeMap, s: nat, from: nat, to: nat): FreeMap
    requires s in m && s <= from < to <= m[s].End()
  {
    var without := m - {s};
    var before := if from > s then without[s := Range(s, from - s)] else without;
    if to < m[s].End() then before[to := Range(to, m[s].End() - to)] else before
  }

  lemma CarvedCovers(m: FreeMap, s: nat, from: nat, to: nat, x: nat)
    requires Normal(m) && s in m && s <= from < to <= m[s].End()
    ensures Normal(Carved(m, s, from, to))
    ensures Covers(Carved(m, s, from, to), x) <==> Covers(m, x) && !(from <= x < to)
  {
    hide Covers, Normal, Apart;
    var end, without := m[s].End(), m - {s};
    var prefix := Range(s, from - s);
    RemovedCovers(m, s, x);
    HasCovers(m, s, x);
    Bounded(m, s);
    if from > s {
      ApartWithout(m, s, s, from);
      JoinedIsNormal(without, s, from);
      JoinedCovers(without, s, from, x);
    }
    if to < end {
      ApartWithout(m, s, to, end);
      ApartJoined(without, to, end, prefix);
      var before := if from > s then without[s := prefix] else without;
      JoinedIsNormal(before, to, end);
      JoinedCovers(before, to, end, x);
    }
  }

  lemma Bounded(m: FreeMap, s: nat)
    requires Normal(m) && s in m
    ensures m[s].start == s && m[s].End() < U64
  {
  }

  lemma HasCovers(m: FreeMap, s: nat, x: nat)
    requires s in m
    ensures m[s].Has(x) ==> Covers(m, x)
  {
  }

  lemma ApartWithout(m: FreeMap, s: nat, lo: nat, hi: nat)
    requires Normal(m) && s in m && s <= lo < hi <= m[s].End()
    ensures Apart(m - {s}, lo, hi)
  {
  }

  lemma ApartJoined(m: FreeMap, lo: nat, hi: nat, r: Range)
    requires Apart(m, lo, hi) && r.End() < lo
    ensures Apart(m[r.start := r], lo, hi)
  {
  }

  // ----- Alignment --------------------------------------------------------------------------

  /** `align_up`, with its two ways to fail. */
  function TryAlignUp(value: nat, align: nat): Option<nat> {
    if align == 0 then None
    else if value % align == 0 then Some(value)
    else if value + (align - value % align) >= U64 then None
    else Some(value + (align - value % align))
  }

  /** The least multiple at or above the value. */
  lemma TryAlignUpIsLeast(value: nat, align: nat, x: nat)
    requires align > 0 && x >= value && x % align == 0
    ensures value % align == 0 || value + (align - value % align) <= x
  {
    var rem, q, p := value % align, value / align, x / align;
    assert value == q * align + rem && x == p * align;
    assert (p - q) * align == p * align - q * align;
    MulAtLeast(p - q, align);
  }

  lemma TryAlignUpAligned(value: nat, align: nat)
    requires TryAlignUp(value, align).Some?
    ensures TryAlignUp(value, align).value >= value && TryAlignUp(value, align).value % align == 0
  {
    var rem, q := value % align, value / align;
    if rem != 0 {
      assert value + (align - rem) == (q + 1) * align;
      MulMod(q + 1, align);
    }
  }

  /** It fails exactly when no multiple at or above the value fits a word. */
  lemma TryAlignUpExact(value: Word, align: nat)
    requires align > 0
    ensures TryAlignUp(value, align).None? <==> forall x: nat :: x >= value && x % align == 0 ==> x >= U64
  {
    if TryAlignUp(value, align).None? {
      forall x: nat | x >= value && x % align == 0 ensures x >= U64 { TryAlignUpIsLeast(value, align, x); }
    } else {
      TryAlignUpAligned(value, align);
    }
  }

  /** `try_alloc_in_range`: where an aligned block goes in a free range, if it fits. */
  function TryAllocInRange(range: Range, length: nat, align: nat): Option<nat> {
    if range.End() >= U64 then None
    else
      var start := TryAlignUp(range.start, align);
      if start.None? || start.value + length >= U64 || start.value + length > range.End() then None
      else start
  }

  /** It finds room exactly when the range has an aligned block of that length. */
  lemma FitsExactly(range: Range, length: nat, align: nat)
    requires align > 0
    ensures TryAllocInRange(range, length, align).Some? ==>
              var at := TryAllocInRange(range, length, align).value;
              range.End() < U64 && range.start <= at && at + length <= range.End() && at % align == 0
    ensures TryAllocInRange(range, length, align).None? && range.End() < U64 ==>
              forall x: nat :: range.start <= x && x % align == 0 ==> x + length > range.End()
  {
    if TryAllocInRange(range, length, align).Some? {
      TryAlignUpAligned(range.start, align);
    } else if range.End() < U64 {
      forall x: nat | range.start <= x && x % align == 0 ensures x + length > range.End() {
        TryAlignUpIsLeast(range.start, align, x);
      }
    }
  }

  // ----- Ordered lookups ----------------------------------------------------------------------

  /** `range(from..).next()` of an ordered map, on its keys. */
  method LeastFrom(keys: set<nat>, from: nat) returns (r: Option<nat>)
    ensures r.None? ==> forall k <- keys :: k < from
    ensures r.Some? ==> r.value in keys && from <= r.value && forall k <- keys :: from <= k ==> r.value <= k
  {
    var rest := keys;
    r := None;
    while rest != {}
      invariant rest <= keys
      invariant r.None? ==> forall k :: k in keys && k !in rest ==> k < from
      invariant r.Some? ==> r.value in keys && from <= r.value
      invariant r.Some? ==> forall k :: k in keys && k !in rest && from <= k ==> r.value <= k
      decreases |rest|
    {
      var k :| k in rest;
      rest := rest - {k};
      if from <= k && (r.None? || k < r.value) { r := Some(k); }
    }
  }

  /** `range(..below).next_back()`. */
  method GreatestBelow(keys: set<nat>, below: nat) returns (r: Option<nat>)
    ensures r.None? ==> forall k <- keys :: k >= below
    ensures r.Some? ==> r.value in keys && r.value < below && forall k <- keys :: k < below ==> k <= r.value
  {
    var rest := keys;
    r := None;
    while rest != {}
      invariant rest <= keys
      invariant r.None? ==> forall k :: k in keys && k !in rest ==> k >= below
      invariant r.Some? ==> r.value in keys && r.value < below
      invariant r.Some? ==> forall k :: k in keys && k !in rest && k < below ==> k <= r.value
      decreases |rest|
    {
      var k :| k in rest;
      rest := rest - {k};
      if k < below && (r.None? || r.value < k) { r := Some(k); }
    }
  }

  /** Some range of the bucket, in no particular order, that has room. */
  method FindFit(bucket: set<Range>, length: nat, align: nat) returns (r: Option<Range>)
    ensures r.None? ==> forall range <- bucket :: TryAllocInRange(range, length, align).None?
    ensures r.Some? ==> r.value in bucket && TryAllocInRange(r.value, length, align).Some?
  {
    hide TryAllocInRange;
    var rest := bucket;
    while rest != {}
      invariant rest <= bucket
      invariant forall range :: range in bucket && range !in rest ==> TryAllocInRange(range, length, align).None?
      decreases |rest|
    {
      var range :| range in rest;
      if TryAllocInRange(range, length, align).Some? { return Some(range); }
      rest := rest - {range};
    }
    return None;
  }

  // ----- The allocator ------------------------------------------------------------------------

  /** Every address of the block is free. */
  ghost predicate FreeBlock(m: FreeMap, start: nat, len: nat) {
    forall x: nat :: start <= x < start + len ==> Covers(m, x)
  }

  /** The range at `s` has room, and no shorter one does. */
  ghost predicate BestFit(m: FreeMap, s: nat, length: nat, align: nat) {
    && s in m && TryAllocInRange(m[s], length, align).Some?
    && forall t <- m :: TryAllocInRange(m[t], length, align).Some? ==> m[s].len <= m[t].len
  }

  /** No aligned address lies between the start of the range and the block. */
  ghost predicate Lowest(start: nat, align: nat, at: nat)
    requires align > 0
  {
    start <= at && forall x: nat :: start <= x && x % align == 0 ==> at <= x
  }

  ghost predicate Overlaps(m: FreeMap, range: Range) {
    exists s :: s in m && s < range.End() && range.start < m[s].End()
  }

  lemma RemovedSync(m: FreeMap, lengths: map<nat, set<Range>>, range: Range)
    requires Synced(m, lengths) && range.start in m && m[range.start] == range
    ensures range.len in lengths
    ensures var bucket := lengths[range.len] - {range};
            Synced(m - {range.start}, if bucket == {} then lengths - {range.len} else lengths[range.len := bucket])
  {
    var bucket := lengths[range.len] - {range};
    var after := if bucket == {} then lengths - {range.len} else lengths[range.len := bucket];
    forall s | s in m && s != range.start ensures m[s].len in after && m[s] in after[m[s].len] {
      if m[s].len == range.len { assert m[s] in bucket; }
    }
  }

  class RangeAllocator {
    var byStart: FreeMap
    var byLength: map<nat, set<Range>>

    ghost predicate Valid()
      reads this
    {
      Normal(byStart) && Synced(byStart, byLength)
    }

    constructor ()
      ensures Valid() && byStart == map[]
    {
      byStart, byLength := map[], map[];
    }

    method InsertFreeRange(range: Range)
      requires Synced(byStart, byLength) && range.start !in byStart
      modifies this
      ensures Synced(byStart, byLength) && byStart == old(byStart)[range.start := range]
    {
      byStart := byStart[range.start := range];
      var bucket := if range.len in byLength then byLength[range.len] else {};
      byLength := byLength[range.len := bucket + {range}];
    }

    method RemoveFreeRange(range: Range)
      requires Synced(byStart, byLength) && range.start in byStart && byStart[range.start] == range
      modifies this
      ensures Synced(byStart, byLength) && byStart == old(byStart) - {range.start}
    {
      RemovedSync(byStart, byLength, range);
      byStart := byStart - {range.start};
      var bucket := byLength[range.len] - {range};
      byLength := if bucket == {} then byLength - {range.len} else byLength[range.len := bucket];
    }

    /** The search of `allocate_aligned`: lengths in ascending order, so the shortest range
        with room wins. */
    method Select(length: nat, align: nat) returns (r: Option<Range>)
      requires Valid() && length > 0
      ensures r.None? ==> forall t <- byStart :: TryAllocInRange(byStart[t], length, align).None?
      ensures r.Some? ==> BestFit(byStart, r.value.start, length, align) && byStart[r.value.start] == r.value
    {
      hide TryAllocInRange, Normal;
      var from := length;
      ghost var left := set l | l in byLength.Keys && l >= from;
      TooShort(byStart, length, align);
      while true
        invariant length <= from
        invariant forall t <- byStart :: byStart[t].len < from ==> TryAllocInRange(byStart[t], length, align).None?
        invariant left == set l | l in byLength.Keys && l >= from
        decreases |left|
      {
        var next := LeastFrom(byLength.Keys, from);
        if next.None? { return None; }
        var fit := FindFit(byLength[next.value], length, align);
        if fit.Some? { return fit; }
        left := left - {next.value};
        from := next.value + 1;
      }
    }

    /** `allocate_aligned`. A block is handed out exactly when some aligned block of that
        length is free; it comes out of the free addresses and nothing else changes. */
    method AllocateAligned(length: nat, align: nat) returns (r: Option<Range>)
      requires Valid()
      modifies this
      ensures Valid()
      ensures r.None? ==> byStart == old(byStart) && byLength == old(byLength)
      ensures r.None? && length > 0 && align > 0 ==>
                forall x: nat :: x % align == 0 ==> !FreeBlock(old(byStart), x, length)
      ensures r.Some? ==>
                && r.value.len == length > 0 && align > 0 && r.value.start % align == 0
                && FreeBlock(old(byStart), r.value.start, length)
                && (exists s :: BestFit(old(byStart), s, length, align) && old(byStart)[s].Has(r.value.start)
                                && Lowest(old(byStart)[s].start, align, r.value.start))
                && forall x: nat :: Covers(byStart, x) <==> Covers(old(byStart), x) && !r.value.Has(x)
    {
      hide Normal, Covers, TryAllocInRange, Synced, Carved, FreeBlock, BestFit, Lowest;
      if length == 0 { return None; }
      var selected := Select(length, align);
      if selected.None? {
        if align > 0 { NowhereToPut(byStart, length, align); }
        return None;
      }
      var range := selected.value;
      BestFits(byStart, range.start, length, align);
      var start := TryAllocInRange(range, length, align).value;
      Placed(byStart, range, length, align);
      CarvedNormal(byStart, range.start, start, start + length);
      TakeOut(range, start, start + length);
      return Some(Range(start, length));
    }

    /** Replaces a free range by what is left of it on either side of the block. */
    method TakeOut(range: Range, from: nat, to: nat)
      requires Valid() && range.start in byStart && byStart[range.start] == range
      requires range.start <= from < to <= range.End()
      modifies this
      ensures Synced(byStart, byLength) && byStart == Carved(old(byStart), range.start, from, to)
    {
      hide Synced;
      if to < range.End() { NoKeyInside(byStart, range.start, to); }
      RemoveFreeRange(range);
      if from > range.start { InsertFreeRange(Range(range.start, from - range.start)); }
      if to < range.End() { InsertFreeRange(Range(to, range.End() - to)); }
    }

    /** `free`: rejects exactly what overlaps a free range, and otherwise adds exactly the
        range's addresses. A rejection leaves the allocator as it was if and only if no free
        range ends where the rejected range starts; one that does is lost. */
    method Free(range: Block) returns (r: Result<(), RangeAllocError>)
      requires Valid()
      modifies this
      ensures Valid()
      ensures r.Err? <==> range.len > 0 && Overlaps(old(byStart), range)
      ensures r.Ok? ==> forall x: nat :: Covers(byStart, x) <==> Covers(old(byStart), x) || range.Has(x)
      ensures r.Err? ==> byStart == Spared(old(byStart), range.start)
      ensures r.Err? ==> (byStart == old(byStart) <==> forall s <- old(byStart) :: old(byStart)[s].End() != range.start)
    {
      hide Normal, Covers, Synced, Overlaps, Spared;
      SparedIsAll(byStart, range.start);
      if range.len == 0 { return Ok(()); }
      var start, len, end := range.start, range.len, range.End();
      var prevKey := GreatestBelow(byStart.Keys, start);
      var nextKey := LeastFrom(byStart.Keys, start);
      var prev := if prevKey.Some? then Some(byStart[prevKey.value]) else None;
      var next := if nextKey.Some? then Some(byStart[nextKey.value]) else None;
      NeighboursFound(byStart, prevKey, nextKey, start);
      if prev.Some? {
        if prev.value.End() > start {
          RejectedByPrev(byStart, range, prev, next);
          return Err(FreeingExistingRange);
        } else if prev.value.End() == start {
          start := prev.value.start;
          len := len + prev.value.len;
          RemoveFreeRange(prev.value);
        }
      }
      if next.Some? {
        if next.value.start < end {
          RejectedByNext(old(byStart), range, prev, next);
          return Err(FreeingExistingRange);
        } else if next.value.start == end {
          len := len + next.value.len;
          RemoveFreeRange(next.value);
        }
      }
      Accepted(old(byStart), range, prev, next);
      assert Merged(range, prev, next) == Range(start, len);
      InsertFreeRange(Range(start, len));
      return Ok(());
    }
  }

  /** The free ranges on either side of an address. */
  ghost predicate Neighbours(m: FreeMap, prev: Option<Range>, next: Option<Range>, start: nat) {
    && (prev.Some? ==> prev.value.start in m && m[prev.value.start] == prev.value && prev.value.start < start)
    && (next.Some? ==> next.value.start in m && m[next.value.start] == next.value && start <= next.value.start)
    && (forall s <- m :: s < start ==> prev.Some? && s <= prev.value.start)
    && (forall s <- m :: start <= s ==> next.Some? && next.value.start <= s)
  }

  lemma NeighboursFound(m: FreeMap, prev: Option<nat>, next: Option<nat>, start: nat)
    requires Normal(m)
    requires prev.None? ==> forall k <- m.Keys :: k >= start
    requires prev.Some? ==>
               prev.value in m.Keys && prev.value < start && forall k <- m.Keys :: k < start ==> k <= prev.value
    requires next.None? ==> forall k <- m.Keys :: k < start
    requires next.Some? ==>
               next.value in m.Keys && start <= next.value && forall k <- m.Keys :: start <= k ==> next.value <= k
    ensures Neighbours(m, if prev.Some? then Some(m[prev.value]) else None,
                       if next.Some? then Some(m[next.value]) else None, start)
  {
  }

  /** Without the ranges that end at `start`. */
  function Spared(m: FreeMap, start: nat): FreeMap {
    map s | s in m && m[s].End() != start :: m[s]
  }

  lemma SparedIsAll(m: FreeMap, start: nat)
    ensures Spared(m, start) == m <==> forall s <- m :: m[s].End() != start
  {
    if exists s <- m :: m[s].End() == start {
      var s :| s in m && m[s].End() == start;
      assert s !in Spared(m, start);
    }
  }

  /** At most one range ends at an address, and it is the previous neighbour. */
  lemma SparedIs(m: FreeMap, prev: Option<Range>, next: Option<Range>, start: nat)
    requires Normal(m) && Neighbours(m, prev, next, start)
    ensures Spared(m, start) == if prev.Some? && prev.value.End() == start then m - {prev.value.start} else m
  {
  }

  lemma RejectedByPrev(m: FreeMap, range: Range, prev: Option<Range>, next: Option<Range>)
    requires Normal(m) && Neighbours(m, prev, next, range.start) && range.len > 0
    requires prev.Some? && prev.value.End() > range.start
    ensures Overlaps(m, range) && Spared(m, range.start) == m
  {
    SparedIs(m, prev, next, range.start);
  }

  lemma RejectedByNext(m: FreeMap, range: Range, prev: Option<Range>, next: Option<Range>)
    requires Normal(m) && Neighbours(m, prev, next, range.start) && range.len > 0
    requires next.Some? && next.value.start < range.End()
    ensures Overlaps(m, range)
    ensures Spared(m, range.start) ==
            if prev.Some? && prev.value.End() == range.start then m - {prev.value.start} else m
    ensures Normal(Spared(m, range.start))
  {
    SparedIs(m, prev, next, range.start);
  }

  predicate JoinsPrev(range: Range, prev: Option<Range>) {
    prev.Some? && prev.value.End() == range.start
  }

  predicate JoinsNext(range: Range, next: Option<Range>) {
    next.Some? && next.value.start == range.End()
  }

  /** The free ranges that do not merge with `range`. */
  function Others(m: FreeMap, range: Range, prev: Option<Range>, next: Option<Range>): FreeMap {
    var m1 := if JoinsPrev(range, prev) then m - {prev.value.start} else m;
    if JoinsNext(range, next) then m1 - {next.value.start} else m1
  }

  /** The range together with the neighbours it touches. */
  function Merged(range: Range, prev: Option<Range>, next: Option<Range>): Range {
    var lo := if JoinsPrev(range, prev) then prev.value.start else range.start;
    var hi := if JoinsNext(range, next) then next.value.End() else range.End();
    Range(lo, if lo <= hi then hi - lo else 0)
  }

  ghost predicate Separate(m: FreeMap, range: Range, prev: Option<Range>, next: Option<Range>) {
    && Normal(m) && Neighbours(m, prev, next, range.start) && 0 < range.len && range.End() < U64
    && (prev.Some? ==> prev.value.End() <= range.start)
    && (next.Some? ==> range.End() <= next.value.start)
  }

  lemma OthersCover(m: FreeMap, range: Range, prev: Option<Range>, next: Option<Range>, x: nat)
    requires Separate(m, range, prev, next)
    ensures var others := Others(m, range, prev, next);
            && Normal(others)
            && (Covers(others, x) || Merged(range, prev, next).Has(x) <==> Covers(m, x) || range.Has(x))
  {
    hide Covers, Normal;
    var m1 := if JoinsPrev(range, prev) then m - {prev.value.start} else m;
    if JoinsPrev(range, prev) {
      RemovedCovers(m, prev.value.start, x);
      HasCovers(m, prev.value.start, x);
    }
    if JoinsNext(range, next) {
      RemovedCovers(m1, next.value.start, x);
      HasCovers(m1, next.value.start, x);
    }
  }

  /** A free that is not rejected: the neighbours it touches merge with it. */
  lemma Accepted(m: FreeMap, range: Range, prev: Option<Range>, next: Option<Range>)
    requires Separate(m, range, prev, next)
    ensures !Overlaps(m, range)
    ensures var merged := Merged(range, prev, next);
            var after := Others(m, range, prev, next)[merged.start := merged];
            && merged.start !in Others(m, range, prev, next) && Normal(after)
            && forall x: nat :: Covers(after, x) <==> Covers(m, x) || range.Has(x)
  {
    hide Covers, Normal, Others;
    var merged, others := Merged(range, prev, next), Others(m, range, prev, next);
    NoOverlap(m, range, prev, next);
    ApartFrom(m, range, prev, next);
    OthersCover(m, range, prev, next, 0);
    JoinedIsNormal(others, merged.start, merged.End());
    forall x: nat ensures Covers(others[merged.start := merged], x) <==> Covers(m, x) || range.Has(x) {
      OthersCover(m, range, prev, next, x);
      JoinedCovers(others, merged.start, merged.End(), x);
    }
  }

  lemma NoOverlap(m: FreeMap, range: Range, prev: Option<Range>, next: Option<Range>)
    requires Normal(m) && Neighbours(m, prev, next, range.start)
    requires prev.Some? ==> prev.value.End() <= range.start
    requires next.Some? ==> range.End() <= next.value.start
    ensures !Overlaps(m, range)
  {
  }

  lemma OneApart(m: FreeMap, range: Range, prev: Option<Range>, next: Option<Range>, s: nat)
    requires Separate(m, range, prev, next) && s in m
    requires JoinsPrev(range, prev) ==> s != prev.value.start
    requires JoinsNext(range, next) ==> s != next.value.start
    ensures var merged := Merged(range, prev, next);
            (m[s].End() < merged.start || merged.End() < s) && s != merged.start
  {
    if s < range.start {
      assert s <= prev.value.start;
    } else {
      assert next.value.start <= s;
    }
  }

  lemma MergedBounds(m: FreeMap, range: Range, prev: Option<Range>, next: Option<Range>)
    requires Separate(m, range, prev, next)
    ensures Merged(range, prev, next).start < Merged(range, prev, next).End() < U64
  {
  }

  lemma ApartFrom(m: FreeMap, range: Range, prev: Option<Range>, next: Option<Range>)
    requires Separate(m, range, prev, next)
    ensures var merged, others := Merged(range, prev, next), Others(m, range, prev, next);
            && merged.start < merged.End() < U64 && merged.start !in others
            && Apart(others, merged.start, merged.End())
  {
    hide Separate, Merged;
    var merged, others := Merged(range, prev, next), Others(m, range, prev, next);
    MergedBounds(m, range, prev, next);
    forall s | s in others
      ensures s in m && others[s] == m[s] && (m[s].End() < merged.start || merged.End() < s) && s != merged.start
    {
      OneApart(m, range, prev, next, s);
    }
  }

  /** No range has room, so no aligned block is free. */
  lemma NowhereToPut(m: FreeMap, length: nat, align: nat)
    requires Normal(m) && length > 0 && align > 0
    requires forall t <- m :: TryAllocInRange(m[t], length, align).None?
    ensures forall x: nat :: x % align == 0 ==> !FreeBlock(m, x, length)
  {
    hide TryAllocInRange, Covers;
    forall x: nat | x % align == 0 ensures !FreeBlock(m, x, length) {
      if FreeBlock(m, x, length) {
        var s := BlockInOneRange(m, x, length);
        FitsExactly(m[s], length, align);
      }
    }
  }

  lemma BestFits(m: FreeMap, s: nat, length: nat, align: nat)
    requires BestFit(m, s, length, align)
    ensures s in m && TryAllocInRange(m[s], length, align).Some?
  {
  }

  lemma NoKeyInside(m: FreeMap, s: nat, key: nat)
    requires Normal(m) && s in m && s < key < m[s].End()
    ensures key !in m
  {
  }

  /** Where the selected range puts the block. */
  lemma Placed(m: FreeMap, range: Range, length: nat, align: nat)
    requires Normal(m) && length > 0 && range.start in m && m[range.start] == range
    requires TryAllocInRange(range, length, align).Some?
    ensures var at := TryAllocInRange(range, length, align).value;
            && align > 0 && at % align == 0 && range.start <= at && at + length <= range.End()
            && range.Has(at) && FreeBlock(m, at, length) && Lowest(range.start, align, at)
  {
    FitsExactly(range, length, align);
    var at := TryAllocInRange(range, length, align).value;
    forall x: nat | range.start <= x && x % align == 0 ensures at <= x { TryAlignUpIsLeast(range.start, align, x); }
    assert forall x: nat :: at <= x < at + length ==> range.Has(x);
  }

  lemma CarvedNormal(m: FreeMap, s: nat, from: nat, to: nat)
    requires Normal(m) && s in m && s <= from < to <= m[s].End()
    ensures Normal(Carved(m, s, from, to))
    ensures forall x: nat :: Covers(Carved(m, s, from, to), x) <==> Covers(m, x) && !(from <= x < to)
  {
    hide Normal, Covers, Carved;
    CarvedCovers(m, s, from, to, 0);
    forall x: nat ensures Covers(Carved(m, s, from, to), x) <==> Covers(m, x) && !(from <= x < to) {
      CarvedCovers(m, s, from, to, x);
    }
  }

  lemma TooShort(m: FreeMap, length: nat, align: nat)
    requires Normal(m)
    ensures forall t <- m :: m[t].len < length ==> TryAllocInRange(m[t], length, align).None?
  {
    forall t | t in m && m[t].len < length ensures TryAllocInRange(m[t], length, align).None? {
      if TryAlignUp(m[t].start, align).Some? { TryAlignUpAligned(m[t].start, align); }
    }
  }

  // ----- Across operations ----------------------------------------------------------------------

  /** A free is rejected exactly when one of its addresses is already free. */
  lemma OverlapsExactly(m: FreeMap, range: Range)
    requires Normal(m) && range.len > 0
    ensures Overlaps(m, range) <==> exists x: nat :: range.Has(x) && Covers(m, x)
  {
    if Overlaps(m, range) {
      var s :| s in m && s < range.End() && range.start < m[s].End();
      var x := if s < range.start then range.start else s;
      assert m[s].Has(x) && range.Has(x);
      assert Covers(m, x);
    }
  }

  /** Freeing what was just allocated is never rejected and restores the allocator's free
      ranges exactly, split or not. */
  method AllocateAndFree(allocator: RangeAllocator, length: nat, align: nat) returns (r: Option<Range>)
    requires allocator.Valid()
    modifies allocator
    ensures allocator.Valid() && allocator.byStart == old(allocator.byStart)
  {
    hide Covers, Normal, Overlaps, Synced;
    r := allocator.AllocateAligned(length, align);
    if r.None? { return; }
    InBounds(old(allocator.byStart), r.value.start, length);
    OverlapsExactly(allocator.byStart, r.value);
    ghost var m := old(allocator.byStart);
    assert forall x: nat :: r.value.Has(x) ==> Covers(m, x);
    var freed := allocator.Free(r.value);
    NormalIsCanonical(allocator.byStart, m);
  }

  lemma InBounds(m: FreeMap, start: nat, len: nat)
    requires Normal(m) && len > 0 && FreeBlock(m, start, len)
    ensures start + len < U64
  {
    var s := BlockInOneRange(m, start, len);
  }

  /** Ten addresses at 0 and ten at 20 are freed; the rejected free of [10, 25) then loses the
      first ten, so that only one block of ten is left to allocate. */
  method RejectionCanLoseARange() returns (r: Result<(), RangeAllocError>, first: Option<Range>, second: Option<Range>)
    ensures r.Err? && first == Some(Range(20, 10)) && second == None
  {
    hide Normal, Covers, Synced, TryAllocInRange, BestFit, FreeBlock, Overlaps;
    var allocator := new RangeAllocator();
    NothingFree();
    OverlapsExactly(allocator.byStart, Range(0, 10));
    var low := allocator.Free(Range(0, 10));
    OverlapsExactly(allocator.byStart, Range(20, 10));
    var high := allocator.Free(Range(20, 10));
    TwoRanges(allocator.byStart);
    r := allocator.Free(Range(10, 15));
    OneRangeLeft(allocator.byStart);
    first := allocator.AllocateAligned(10, 1);
    assert 20 % 1 == 0;
    NoBlockLeft(allocator.byStart);
    second := allocator.AllocateAligned(10, 1);
  }

  lemma NothingFree()
    ensures Normal(map[]) && forall x: nat :: !Covers(map[], x)
  {
  }

  lemma OneRangeLeft(m: FreeMap)
    requires m == map[20 := Range(20, 10)]
    ensures FreeBlock(m, 20, 10) && forall x: nat :: FreeBlock(m, x, 10) ==> x == 20
    ensures forall x: nat :: Covers(m, x) <==> 20 <= x < 30
  {
    forall x: nat ensures Covers(m, x) <==> 20 <= x < 30 { assert m[20].Has(x) <==> Covers(m, x); }
    forall x: nat | FreeBlock(m, x, 10) ensures x == 20 { assert Covers(m, x) && Covers(m, x + 9); }
  }

  lemma NoBlockLeft(m: FreeMap)
    requires forall x: nat :: !Covers(m, x)
    ensures forall x: nat :: !FreeBlock(m, x, 10)
  {
    forall x: nat ensures !FreeBlock(m, x, 10) { assert !Covers(m, x); }
  }

  function Both(): FreeMap {
    map[0 := Range(0, 10), 20 := Range(20, 10)]
  }

  lemma BothCover(x: nat)
    ensures Covers(Both(), x) <==> 0 <= x < 10 || 20 <= x < 30
  {
    if x < 10 { assert Both()[0].Has(x); }
    if 20 <= x < 30 { assert Both()[20].Has(x); }
  }

  lemma BothAreNormal()
    ensures Normal(Both())
  {
  }

  lemma BothRejected()
    ensures Overlaps(Both(), Range(10, 15)) && Spared(Both(), 10) == map[20 := Range(20, 10)]
  {
    assert 20 in Both() && 20 < Range(10, 15).End() && 10 < Both()[20].End();
  }

  lemma TwoRanges(m: FreeMap)
    requires Normal(m) && forall x: nat :: Covers(m, x) <==> 0 <= x < 10 || 20 <= x < 30
    ensures Overlaps(m, Range(10, 15)) && Spared(m, 10) == map[20 := Range(20, 10)]
  {
    hide Covers, Normal, Both, Overlaps, Spared;
    BothAreNormal();
    BothRejected();
    forall x: nat ensures Covers(m, x) <==> Covers(Both(), x) { BothCover(x); }
    NormalIsCanonical(m, Both());
  }

  // ----- Whole sessions ---------------------------------------------------------------------------

  /** What a client does next: ask for a block, or give back one of those it holds. */
  datatype Request = Allocate(length: nat, align: nat) | Release(index: nat)

  ghost predicate Held(blocks: seq<Range>, x: nat) {
    exists i :: 0 <= i < |blocks| && blocks[i].Has(x)
  }

  ghost predicate Disjoint(blocks: seq<Range>) {
    forall i, j, x: nat :: 0 <= i < j < |blocks| ==> !(blocks[i].Has(x) && blocks[j].Has(x))
  }

  /** The free addresses and the held blocks are apart and make up the pool. */
  ghost predicate Conserved(pool: FreeMap, free: FreeMap, blocks: seq<Range>) {
    && Disjoint(blocks)
    && (forall i :: 0 <= i < |blocks| ==> blocks[i].len > 0 && blocks[i].End() < U64)
    && (forall x: nat :: !(Covers(free, x) && Held(blocks, x)))
    && forall x: nat :: Covers(pool, x) <==> Covers(free, x) || Held(blocks, x)
  }

  lemma AllocationConserves(pool: FreeMap, free: FreeMap, after: FreeMap, blocks: seq<Range>, block: Range)
    requires Conserved(pool, free, blocks) && block.len > 0 && block.End() < U64
    requires forall x: nat :: block.Has(x) ==> Covers(free, x)
    requires forall x: nat :: Covers(after, x) <==> Covers(free, x) && !block.Has(x)
    ensures Conserved(pool, after, blocks + [block])
  {
    hide Covers;
    var more := blocks + [block];
    forall x: nat ensures Held(more, x) <==> Held(blocks, x) || block.Has(x) { HeldMore(blocks, block, x); }
    forall i, j, x: nat | 0 <= i < j < |more| ensures !(more[i].Has(x) && more[j].Has(x)) {
      if j == |blocks| && more[i].Has(x) { assert Held(blocks, x); }
    }
  }

  lemma HeldMore(blocks: seq<Range>, block: Range, x: nat)
    ensures Held(blocks + [block], x) <==> Held(blocks, x) || block.Has(x)
  {
    var more := blocks + [block];
    if Held(blocks, x) {
      var i :| 0 <= i < |blocks| && blocks[i].Has(x);
      assert more[i].Has(x);
    }
    if block.Has(x) { assert more[|blocks|].Has(x); }
  }

  function Without(blocks: seq<Range>, index: nat): seq<Range>
    requires index < |blocks|
  {
    blocks[..index] + blocks[index + 1..]
  }

  lemma HeldLess(blocks: seq<Range>, index: nat, x: nat)
    requires index < |blocks| && Disjoint(blocks)
    ensures Held(Without(blocks, index), x) <==> Held(blocks, x) && !blocks[index].Has(x)
  {
    var rest := Without(blocks, index);
    if Held(rest, x) {
      var i :| 0 <= i < |rest| && rest[i].Has(x);
      var j := if i < index then i else i + 1;
      assert blocks[j].Has(x);
    }
    if Held(blocks, x) && !blocks[index].Has(x) {
      var i :| 0 <= i < |blocks| && blocks[i].Has(x);
      var j := if i < index then i else i - 1;
      assert rest[j].Has(x);
    }
  }

  lemma ReleaseConserves(pool: FreeMap, free: FreeMap, after: FreeMap, blocks: seq<Range>, index: nat)
    requires Conserved(pool, free, blocks) && index < |blocks|
    requires forall x: nat :: Covers(after, x) <==> Covers(free, x) || blocks[index].Has(x)
    ensures Conserved(pool, after, Without(blocks, index))
  {
    hide Covers;
    var rest := Without(blocks, index);
    forall x: nat ensures Held(rest, x) <==> Held(blocks, x) && !blocks[index].Has(x) { HeldLess(blocks, index, x); }
    forall x: nat | blocks[index].Has(x) ensures Held(blocks, x) {}
  }

  /** An allocation that succeeds has the length and the alignment asked for. */
  predicate Answers(request: Request, result: Option<Range>) {
    match request
    case Allocate(length, align) =>
      result.Some? ==> result.value.len == length > 0 && align > 0 && result.value.start % align == 0
    case Release(_) => result.None?
  }

  /** Over any sequence of requests from any starting pool the blocks handed out are disjoint
      from each other and from the free addresses, all of them together are exactly the
      pool, and giving a block back is never rejected; with nothing held the free ranges
      are those of the start. */
  method Session(allocator: RangeAllocator, requests: seq<Request>)
    returns (blocks: seq<Range>, results: seq<Option<Range>>)
    requires allocator.Valid()
    modifies allocator
    ensures allocator.Valid() && Conserved(old(allocator.byStart), allocator.byStart, blocks)
    ensures blocks == [] ==> allocator.byStart == old(allocator.byStart)
    ensures |results| == |requests| && forall n :: 0 <= n < |requests| ==> Answers(requests[n], results[n])
  {
    hide Covers, Normal, Synced, Overlaps, Conserved, BestFit;
    ghost var pool := allocator.byStart;
    blocks, results := [], [];
    NothingHeld(pool);
    for n := 0 to |requests|
      invariant allocator.Valid() && Conserved(pool, allocator.byStart, blocks)
      invariant |results| == n && forall i :: 0 <= i < n ==> Answers(requests[i], results[i])
    {
      match requests[n]
      case Allocate(length, align) =>
        ghost var free := allocator.byStart;
        var block := allocator.AllocateAligned(length, align);
        if block.Some? {
          InBounds(free, block.value.start, length);
          AllocationConserves(pool, free, allocator.byStart, blocks, block.value);
          blocks := blocks + [block.value];
        }
        results := results + [block];
      case Release(index) =>
        if index < |blocks| {
          ghost var free := allocator.byStart;
          HeldIsNotFree(pool, free, blocks, index);
          var freed := allocator.Free(blocks[index]);
          ReleaseConserves(pool, free, allocator.byStart, blocks, index);
          blocks := Without(blocks, index);
        }
        results := results + [None];
    }
    if blocks == [] { AllReturned(pool, allocator.byStart); }
  }

  lemma NothingHeld(pool: FreeMap)
    ensures Conserved(pool, pool, [])
  {
  }

  lemma HeldIsNotFree(pool: FreeMap, free: FreeMap, blocks: seq<Range>, index: nat)
    requires Normal(free) && Conserved(pool, free, blocks) && index < |blocks|
    ensures blocks[index].len > 0 && blocks[index].End() < U64 && !Overlaps(free, blocks[index])
  {
    hide Covers, Normal;
    OverlapsExactly(free, blocks[index]);
    forall x: nat | blocks[index].Has(x) ensures !Covers(free, x) { assert Held(blocks, x); }
  }

  lemma AllReturned(pool: FreeMap, free: FreeMap)
    requires Normal(pool) && Normal(free) && Conserved(pool, free, [])
    ensures free == pool
  {
    hide Covers, Normal;
    NormalIsCanonical(free, pool);
  }
}
