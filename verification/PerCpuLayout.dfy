/** Boot-time layout of per-CPU storage: one page-aligned copy of the template per CPU. */
module PerCpuLayout {
  import opened Arithmetic
  import opened Bits
  import opened Bytes

  /** Round up to a multiple of the page size. */
  function AlignUp(size: nat, page: nat): nat
    requires page > 0
  {
    (size + page - 1) / page * page
  }

  lemma AlignUpBounds(size: nat, page: nat)
    requires page > 0
    ensures AlignUp(size, page) % page == 0 && AlignUp(size, page) / page * page == AlignUp(size, page)
    ensures size <= AlignUp(size, page) < size + page
  {
    var q := (size + page - 1) / page;
    assert size + page - 1 == q * page + (size + page - 1) % page;
    assert AlignUp(size, page) == q * page;
    MulMod(q, page);
  }

  /** For a power of two this is what the source computes with a mask. */
  lemma AlignUpIsMask(size: nat, k: nat)
    requires k <= 64 && size + Pow2(k) - 1 < U64
    ensures Pow2(k) <= U64 && And(size + Pow2(k) - 1, U64 - Pow2(k)) == AlignUp(size, Pow2(k))
  {
    hide Pow2, And, AlignDown;
    WordSize();
    MaskRoundsDown(size + Pow2(k) - 1, k, 64);
    AlignDownDivides(size + Pow2(k) - 1, Pow2(k));
  }

  /** `to_virt_addr` of a virtual page number. */
  function VirtAddr(vpn: nat, page: nat): nat {
    vpn * page
  }

  predicate PageAligned(address: nat, page: nat)
    requires page > 0
  {
    address % page == 0
  }

  // ----- Areas ------------------------------------------------------------------

  /** The address of CPU `i`'s area. */
  function Base(start: nat, stride: nat, i: nat): nat {
    start + i * stride
  }

  /** The template with the CPU's own number in the core-local field at its front. */
  function Personal(template: seq<byte>, cpu: nat): (area: seq<byte>)
    requires |template| >= 8
    ensures |area| == |template|
  {
    ToLe(cpu, 8) + template[8..]
  }

  lemma NextBase(start: nat, stride: nat, i: nat)
    ensures Base(start, stride, 0) == start && Base(start, stride, i + 1) == Base(start, stride, i) + stride
  {
    assert (i + 1) * stride == i * stride + stride;
  }

  /** Areas of different CPUs do not overlap, whatever the stride. */
  lemma AreasDisjoint(start: nat, stride: nat, i: nat, j: nat)
    requires i < j
    ensures Base(start, stride, i) + stride <= Base(start, stride, j)
  {
    MulMonotone(i + 1, j, stride);
    assert (i + 1) * stride == i * stride + stride;
  }

  /** The areas exactly tile what was allocated: every address lies in one area. */
  lemma AreasTile(start: nat, stride: nat, ncpus: nat, address: nat)
    requires stride > 0
    ensures start <= address < start + ncpus * stride <==>
            exists i :: 0 <= i < ncpus && Base(start, stride, i) <= address < Base(start, stride, i) + stride
  {
    if start <= address < start + ncpus * stride {
      var i := (address - start) / stride;
      assert i * stride <= address - start < i * stride + stride;
      if i >= ncpus { MulMonotone(ncpus, i, stride); assert false; }
      assert Base(start, stride, i) <= address < Base(start, stride, i) + stride;
    }
    if i :| 0 <= i < ncpus && Base(start, stride, i) <= address < Base(start, stride, i) + stride {
      MulMonotone(i + 1, ncpus, stride);
      assert (i + 1) * stride == i * stride + stride;
    }
  }

  /** A per-CPU variable: where its stub lies in the template. */
  datatype Variable = Variable(offset: nat, size: nat) {
    predicate In(templateSize: nat) {
      offset + size <= templateSize
    }
  }

  /** `PerCpu::get`: the stub's offset carried over to the CPU's area. */
  function Get(base: nat, v: Variable): nat {
    base + v.offset
  }

  predicate Apart(a: nat, aSize: nat, b: nat, bSize: nat) {
    a + aSize <= b || b + bSize <= a
  }

  /** Different (CPU, variable) pairs never overlap. */
  lemma VariablesNeverOverlap(start: nat, size: nat, page: nat, i: nat, v: Variable, j: nat, w: Variable)
    requires page > 0 && v.In(size) && w.In(size)
    requires i != j || Apart(v.offset, v.size, w.offset, w.size)
    ensures var stride := AlignUp(size, page);
            Apart(Get(Base(start, stride, i), v), v.size, Get(Base(start, stride, j), w), w.size)
  {
    AlignUpBounds(size, page);
    var stride := AlignUp(size, page);
    if i < j {
      AreasDisjoint(start, stride, i, j);
    } else if j < i {
      AreasDisjoint(start, stride, j, i);
    }
  }

  // ----- bsp_init ------------------------------------------------------------------

  class Boot {
    var mem: array<byte>            // the direct map, by virtual address
    var bases: seq<nat>             // PERCPU_BASES
    var currentBase: nat            // the boot CPU's per-CPU base register
    var ready: bool                 // PERCPU_STORAGE_READY

    /** The area at `base` holds CPU `cpu`'s copy. */
    ghost predicate AreaHolds(base: nat, template: seq<byte>, cpu: nat)
      reads this`mem, mem
      requires |template| >= 8
    {
      base + |template| <= mem.Length && mem[base..base + |template|] == Personal(template, cpu)
    }

    /** `get` stays inside the CPU's area, finds there what the template says of the variable,
        and at the front the CPU's own number. */
    ghost predicate InPlace(base: nat, template: seq<byte>, cpu: Word, v: Variable)
      reads this`mem, mem
    {
      var at := Get(base, v);
      && base <= at && at + v.size <= base + |template| && at + v.size <= mem.Length
      && (v.offset >= 8 && v.offset + v.size <= |template| ==>
            mem[at..at + v.size] == template[v.offset..v.offset + v.size])
      && (v == Variable(0, 8) ==> FromLe(mem[at..at + 8]) == cpu)
    }

    lemma AreaIsInPlace(base: nat, template: seq<byte>, cpu: Word, v: Variable)
      requires |template| >= 8 && AreaHolds(base, template, cpu) && v.In(|template|)
      ensures InPlace(base, template, cpu, v)
    {
      hide ToLe, FromLe;
      var area := mem[base..base + |template|];
      var at := Get(base, v);
      SubSlice(mem[..], base, base + |template|, v.offset, v.offset + v.size);
      assert mem[..][base..base + |template|] == area && mem[..][at..at + v.size] == mem[at..at + v.size];
      if v.offset >= 8 {
        assert area[v.offset..v.offset + v.size] == template[v.offset..v.offset + v.size];
      } else if v == Variable(0, 8) {
        assert area[0..8] == ToLe(cpu, 8);
        SpanValues();
        FromToLe(cpu, 8);
      }
    }

    /** Copy the template and write the CPU number over its front. */
    method InitArea(base: nat, template: seq<byte>, cpu: nat)
      requires |template| >= 8 && base + |template| <= mem.Length
      modifies mem
      ensures mem[base..base + |template|] == Personal(template, cpu)
      ensures forall a :: 0 <= a < mem.Length && !(base <= a < base + |template|) ==> mem[a] == old(mem[a])
    {
      forall k | 0 <= k < |template| { mem[base + k] := template[k]; }
      var id := ToLe(cpu, 8);
      forall k | 0 <= k < 8 { mem[base + k] := id[k]; }
    }

    /** One turn of the loop: the areas before stay as they are. */
    method InitCpu(i: nat, base: nat, template: seq<byte>, bsp: nat)
      requires |template| >= 8 && i < |bases| && base + |template| <= mem.Length
      requires forall k :: 0 <= k < i ==> bases[k] + |template| <= base && AreaHolds(bases[k], template, k)
      modifies this`currentBase, this`bases, mem
      ensures bases == old(bases)[i := base]
      ensures forall k :: 0 <= k <= i ==> AreaHolds(bases[k], template, k)
      ensures forall a :: 0 <= a < mem.Length && !(base <= a < base + |template|) ==> mem[a] == old(mem[a])
      ensures currentBase == if i == bsp then base else old(currentBase)
    {
      InitArea(base, template, i);
      forall k | 0 <= k < i ensures AreaHolds(bases[k], template, k) {
        assert mem[bases[k]..bases[k] + |template|] == old(mem[bases[k]..bases[k] + |template|]);
      }
      bases := bases[i := base];
      if i == bsp { currentBase := base; }
    }

    /** `first` is the page the allocator returned for `AlignUp(|template|) * ncpus`
        bytes; the memory it denotes is the caller's to give. */
    method BspInit(bsp: nat, ncpus: Word, template: seq<byte>, page: nat, first: nat)
      requires page > 0 && |template| >= 8 && 0 < ncpus <= |bases|
      requires Base(VirtAddr(first, page), AlignUp(|template|, page), ncpus) <= mem.Length
      modifies this`currentBase, this`ready, this`bases, mem
      ensures ready && |bases| == |old(bases)|
      ensures forall i :: 0 <= i < ncpus ==> bases[i] == Base(VirtAddr(first, page), AlignUp(|template|, page), i)
      ensures forall i :: 0 <= i < ncpus ==> PageAligned(bases[i], page) && AreaHolds(bases[i], template, i)
      ensures bases[ncpus..] == old(bases[ncpus..])
      ensures forall a :: 0 <= a < VirtAddr(first, page) && a < mem.Length ==> mem[a] == old(mem[a])
      ensures forall a :: Base(VirtAddr(first, page), AlignUp(|template|, page), ncpus) <= a < mem.Length ==>
                mem[a] == old(mem[a])
      ensures bsp < ncpus ==> currentBase == bases[bsp]
      ensures forall i, v: Variable :: 0 <= i < ncpus && v.In(|template|) ==> InPlace(bases[i], template, i, v)
    {
      hide AlignUp, Base, Personal, AreaHolds, InPlace, VirtAddr, PageAligned;
      var stride := AlignUp(|template|, page);
      AlignUpBounds(|template|, page);
      ghost var start := VirtAddr(first, page);
      NextBase(start, stride, 0);
      var vpn: nat := first;
      for i := 0 to ncpus
        invariant |bases| == |old(bases)| && VirtAddr(vpn, page) == Base(start, stride, i)
        invariant forall k :: 0 <= k < i ==>
                    bases[k] == Base(start, stride, k) && bases[k] + stride <= VirtAddr(vpn, page)
        invariant forall k :: 0 <= k < i ==> PageAligned(bases[k], page) && AreaHolds(bases[k], template, k)
        invariant bases[ncpus..] == old(bases[ncpus..])
        invariant forall a :: 0 <= a < mem.Length && (a < start || Base(start, stride, ncpus) <= a) ==>
                    mem[a] == old(mem[a])
        invariant bsp < i ==> currentBase == bases[bsp]
      {
        var base := VirtAddr(vpn, page);
        AreasDisjoint(start, stride, i, ncpus);
        if 0 < i { AreasDisjoint(start, stride, 0, i); }
        NextBase(start, stride, i);
        InitCpu(i, base, template, bsp);
        PageStep(vpn, stride, page);
        vpn := vpn + stride / page;
      }
      ready := true;
      AllInPlace(template, ncpus);
    }

    lemma AllInPlace(template: seq<byte>, ncpus: Word)
      requires |template| >= 8 && ncpus <= |bases|
      requires forall i :: 0 <= i < ncpus ==> AreaHolds(bases[i], template, i)
      ensures forall i, v: Variable :: 0 <= i < ncpus && v.In(|template|) ==> InPlace(bases[i], template, i, v)
    {
      hide AreaHolds, InPlace;
      forall i, v: Variable | 0 <= i < ncpus && v.In(|template|) ensures InPlace(bases[i], template, i, v) {
        AreaIsInPlace(bases[i], template, i, v);
      }
    }
  }

  lemma PageStep(vpn: nat, stride: nat, page: nat)
    requires page > 0 && stride / page * page == stride
    ensures VirtAddr(vpn + stride / page, page) == VirtAddr(vpn, page) + stride
    ensures PageAligned(VirtAddr(vpn, page), page)
  {
    MulMod(vpn, page);
  }

  /** The pages asked of the allocator are exactly the areas. */
  lemma AllocatedPages(size: nat, page: nat, ncpus: nat)
    requires page > 0
    ensures AlignUp(size, page) * ncpus / page * page == AlignUp(size, page) * ncpus
  {
    AlignUpBounds(size, page);
    var q := AlignUp(size, page) / page;
    assert AlignUp(size, page) * ncpus == (q * ncpus) * page;
    MulMod(q * ncpus, page);
  }
}
