/** The fixed-size `cpu_set_t` and the mathematical set of CPU numbers it stands for. */
module CpuSets {
  import opened Bits
  import opened Bytes

  const CPU_SETSIZE: nat := 1024
  const WORD_BITS: nat := 64
  const WORDS: nat := 16

  /** `count_ones`. */
  function CountOnes(w: nat): nat {
    if w == 0 then 0 else w % 2 + CountOnes(w / 2)
  }

  // ----- The set of members ---------------------------------------------------------------

  /** The members among the low `n` bits of a word whose lowest bit stands for `base`. */
  function WordMembers(w: nat, n: nat, base: nat): set<nat> {
    if n == 0 then {}
    else (if w % 2 == 1 then {base} else {}) + WordMembers(w / 2, n - 1, base + 1)
  }

  lemma {:induction false} InWord(w: nat, n: nat, base: nat, cpu: nat)
    ensures cpu in WordMembers(w, n, base) <==> base <= cpu < base + n && Bit(w, cpu - base)
  {
    if n > 0 { InWord(w / 2, n - 1, base + 1, cpu); }
  }

  /** `count_ones` counts the members of one word. */
  lemma {:induction false} WordCount(w: nat, n: nat, base: nat)
    requires w < Pow2(n)
    ensures |WordMembers(w, n, base)| == CountOnes(w)
  {
    if n > 0 {
      WordCount(w / 2, n - 1, base + 1);
      InWord(w / 2, n - 1, base + 1, base);
    }
  }

  /** The members of consecutive words. */
  function Members(words: seq<Word>, base: nat): set<nat> {
    if words == [] then {} else WordMembers(words[0], WORD_BITS, base) + Members(words[1..], base + WORD_BITS)
  }

  lemma {:induction false} InWords(words: seq<Word>, base: nat, cpu: nat)
    ensures cpu in Members(words, base) <==>
            base <= cpu < base + 64 * |words| && Bit(words[(cpu - base) / 64], (cpu - base) % 64)
  {
    if words != [] {
      InWord(words[0], 64, base, cpu);
      InWords(words[1..], base + 64, cpu);
      if cpu >= base + 64 {
        assert (cpu - base) / 64 == (cpu - (base + 64)) / 64 + 1;
        assert (cpu - base) % 64 == (cpu - (base + 64)) % 64;
      }
    }
  }

  function TotalOnes(words: seq<Word>): nat {
    if words == [] then 0 else CountOnes(words[0]) + TotalOnes(words[1..])
  }

  /** The summed popcounts are the cardinality. */
  lemma {:induction false} CountIsCardinality(words: seq<Word>, base: nat)
    ensures |Members(words, base)| == TotalOnes(words)
  {
    hide Pow2, WordMembers, CountOnes;
    if words != [] {
      var here, rest := WordMembers(words[0], 64, base), Members(words[1..], base + 64);
      WordSize();
      WordCount(words[0], 64, base);
      CountIsCardinality(words[1..], base + 64);
      forall cpu | cpu in here ensures cpu !in rest {
        InWord(words[0], 64, base, cpu);
        InWords(words[1..], base + 64, cpu);
      }
      assert here !! rest;
    }
  }

  lemma {:induction false} SomeBit(w: nat, n: nat) returns (k: nat)
    requires 0 < w < Pow2(n)
    ensures k < n && Bit(w, k)
  {
    if w % 2 == 1 {
      k := 0;
    } else {
      k := SomeBit(w / 2, n - 1);
      k := k + 1;
    }
  }

  lemma {:induction false} TotalAppend(words: seq<Word>, last: Word)
    ensures TotalOnes(words + [last]) == TotalOnes(words) + CountOnes(last)
  {
    hide CountOnes;
    if words != [] {
      assert (words + [last])[1..] == words[1..] + [last];
      TotalAppend(words[1..], last);
    }
  }

  lemma InFull(words: seq<Word>, cpu: nat)
    requires forall i :: 0 <= i < |words| ==> words[i] == Pow2(64) - 1
    ensures cpu in Members(words, 0) <==> cpu < 64 * |words|
  {
    hide Pow2, Bit, Members;
    InWords(words, 0, cpu);
    AllOnes(64, cpu % 64);
  }

  // ----- The type --------------------------------------------------------------------------

  class CpuSet {
    const bits: array<Word>

    ghost predicate Valid()
      reads this
    {
      bits.Length == WORDS
    }

    ghost function Contents(): set<nat>
      reads this, bits
    {
      Members(bits[..], 0)
    }

    constructor Empty()
      ensures Valid() && fresh(bits) && Contents() == {}
    {
      hide Pow2;
      bits := new Word[WORDS](_ => 0);
      new;
      forall cpu | cpu in Contents() ensures false {
        InWords(bits[..], 0, cpu);
        ZeroBits(cpu % 64);
      }
    }

    constructor Full()
      ensures Valid() && fresh(bits) && forall cpu: nat :: cpu in Contents() <==> cpu < CPU_SETSIZE
    {
      hide Pow2;
      WordSize();
      bits := new Word[WORDS](_ => Pow2(64) - 1);
      new;
      forall cpu: nat ensures cpu in Contents() <==> cpu < CPU_SETSIZE {
        InFull(bits[..], cpu);
      }
    }

    /** Adds exactly one member. */
    method Set(cpu: nat)
      requires Valid() && cpu < CPU_SETSIZE
      modifies bits
      ensures Contents() == old(Contents()) + {cpu}
    {
      hide Pow2, Or, Bit;
      var i, k := cpu / WORD_BITS, cpu % WORD_BITS;
      WordSize();
      SmallPower(k, 64);
      OrBound(bits[i], Pow2(k), 64);
      bits[i] := Or(bits[i], Pow2(k));
      forall c: nat ensures c in Contents() <==> c in old(Contents()) || c == cpu {
        InWords(bits[..], 0, c);
        InWords(old(bits[..]), 0, c);
        OrBits(old(bits[i]), Pow2(k), c % 64);
        PowerBits(k, c % 64);
      }
    }

    method Contains(cpu: nat) returns (r: bool)
      requires Valid() && cpu < CPU_SETSIZE
      ensures r <==> cpu in Contents()
    {
      hide Pow2, And, Bit;
      InWords(bits[..], 0, cpu);
      MaskBit(bits[cpu / WORD_BITS], cpu % WORD_BITS);
      return And(bits[cpu / WORD_BITS], Pow2(cpu % WORD_BITS)) != 0;
    }

    /** The sum of the words' popcounts is the number of members. */
    method Count() returns (n: nat)
      requires Valid()
      ensures n == |Contents()|
    {
      hide Pow2, CountOnes;
      n := 0;
      for i := 0 to bits.Length
        invariant n == TotalOnes(bits[..i])
      {
        assert bits[..i + 1] == bits[..i] + [bits[i]];
        TotalAppend(bits[..i], bits[i]);
        n := n + CountOnes(bits[i]);
      }
      assert bits[..bits.Length] == bits[..];
      CountIsCardinality(bits[..], 0);
    }

    method IsEmpty() returns (r: bool)
      requires Valid()
      ensures r <==> Contents() == {}
    {
      hide Pow2, Bit;
      for i := 0 to bits.Length
        invariant forall j :: 0 <= j < i ==> bits[j] == 0
      {
        if bits[i] != 0 {
          WordSize();
          ghost var k := SomeBit(bits[i], 64);
          InWords(bits[..], 0, 64 * i + k);
          return false;
        }
      }
      forall cpu | cpu in Contents() ensures false {
        InWords(bits[..], 0, cpu);
        ZeroBits(cpu % 64);
      }
      return true;
    }
  }

  /** Any sequence of `set` calls from the empty set: exactly the CPUs named. */
  method SetAll(cpus: seq<nat>) returns (s: CpuSet)
    requires forall cpu <- cpus :: cpu < CPU_SETSIZE
    ensures s.Valid() && fresh(s) && s.Contents() == set cpu | cpu in cpus
  {
    s := new CpuSet.Empty();
    for i := 0 to |cpus|
      invariant s.Valid() && fresh(s.bits) && s.Contents() == set cpu | cpu in cpus[..i]
    {
      assert cpus[i] in cpus;
      s.Set(cpus[i]);
      assert cpus[..i + 1] == cpus[..i] + [cpus[i]];
    }
    assert cpus[..|cpus|] == cpus;
  }
}
