/** Bin numbering of the vendored ptmalloc, for its three configurations. */
module BinIndexing {

  const NBINS := 128
  const NSMALLBINS := 64
  const PREV_INUSE := 1

  /** SIZE_SZ and MALLOC_ALIGNMENT: 8 and 16; 4 and 8; 4 and 16. */
  datatype Config = Lp64 | Ilp32 | Ilp32Big {
    function SizeSz(): nat { if Lp64? then 8 else 4 }
    function Alignment(): nat { if Ilp32? then 8 else 16 }
    function HeaderSize(): nat { 2 * SizeSz() }
    function Correction(): nat { if Alignment() > HeaderSize() then 1 else 0 }
    function MinLargeSize(): nat { (NSMALLBINS - Correction()) * Alignment() }
    /** MINSIZE: four words, aligned */
    function MinSize(): nat { if Lp64? then 32 else 16 }
  }

  predicate InSmallbinRange(c: Config, sz: nat) { sz < c.MinLargeSize() }

  function SmallbinIndex(c: Config, sz: nat): nat {
    (if c.Alignment() == 16 then sz / 16 else sz / 8) + c.Correction()
  }

  /** The part of the large-bin index that the three configurations share. */
  function LargebinTail(sz: nat): nat {
    if sz / 512 <= 20 then 91 + sz / 512
    else if sz / 4096 <= 10 then 110 + sz / 4096
    else if sz / 32768 <= 4 then 119 + sz / 32768
    else if sz / 262144 <= 2 then 124 + sz / 262144
    else 126
  }

  function LargebinIndex(c: Config, sz: nat): nat {
    match c
    case Lp64 => if sz / 64 <= 48 then 48 + sz / 64 else LargebinTail(sz)
    case Ilp32 => if sz / 64 <= 38 then 56 + sz / 64 else LargebinTail(sz)
    case Ilp32Big => if sz / 64 <= 45 then 49 + sz / 64 else LargebinTail(sz)
  }

  function BinIndex(c: Config, sz: nat): nat {
    if InSmallbinRange(c, sz) then SmallbinIndex(c, sz) else LargebinIndex(c, sz)
  }

  /** Larger sizes never have a smaller bin, across the seam of small and large bins and every change of spacing. */
  lemma {:induction false} BinIndexMonotone(c: Config, a: nat, b: nat)
    requires a <= b
    ensures BinIndex(c, a) <= BinIndex(c, b)
  {
    assert a / 64 <= b / 64 && a / 512 <= b / 512 && a / 4096 <= b / 4096;
    assert a / 32768 <= b / 32768 && a / 262144 <= b / 262144;
    TailMonotone(a, b);
  }

  lemma {:induction false} TailMonotone(a: nat, b: nat)
    requires a <= b
    ensures LargebinTail(a) <= LargebinTail(b)
  {
  }

  /** Every legal chunk size has a bin; bins 0, 1 and 127 stay unused.  A small bin has one size only. */
  lemma {:induction false} BinIndexRange(c: Config, sz: nat)
    requires c.MinSize() <= sz
    ensures 2 <= BinIndex(c, sz) <= 126
    ensures InSmallbinRange(c, sz) <==> BinIndex(c, sz) < NSMALLBINS
  {
  }

  /** Large bins by their spacing: 64 bytes, then 512, 4096, 32768 and 262144, with all that is larger in the last. */
  lemma {:induction false} LargeBinSpacing(sz: nat)
    ensures 1024 <= sz && sz + 64 < 3136 ==> BinIndex(Lp64, sz + 64) == BinIndex(Lp64, sz) + 1
    ensures 3584 <= sz && sz + 512 < 10752 ==> BinIndex(Lp64, sz + 512) == BinIndex(Lp64, sz) + 1
    ensures 12288 <= sz && sz + 4096 < 45056 ==> BinIndex(Lp64, sz + 4096) == BinIndex(Lp64, sz) + 1
    ensures 65536 <= sz && sz + 32768 < 163840 ==> BinIndex(Lp64, sz + 32768) == BinIndex(Lp64, sz) + 1
    ensures 262144 <= sz && sz + 262144 < 786432 ==> BinIndex(Lp64, sz + 262144) == BinIndex(Lp64, sz) + 1
    ensures sz >= 786432 ==> BinIndex(Lp64, sz) == 126
  {
    if 1024 <= sz && sz + 64 < 3136 { Shifted(sz, 64); }
    if 3584 <= sz && sz + 512 < 10752 { Shifted(sz, 512); }
    if 12288 <= sz && sz + 4096 < 45056 { Shifted(sz, 4096); }
    if 65536 <= sz && sz + 32768 < 163840 { Shifted(sz, 32768); }
    if 262144 <= sz && sz + 262144 < 786432 { Shifted(sz, 262144); }
  }

  lemma {:induction false} Shifted(sz: nat, d: nat)
    requires d == 64 || d == 512 || d == 4096 || d == 32768 || d == 262144
    ensures (sz + d) / d == sz / d + 1
  {
  }

  /** The last small bin and both sides of every change of spacing, in each configuration. */
  lemma {:induction false} BinSeams()
    ensures BinIndex(Lp64, 32) == 2 && BinIndex(Lp64, 1008) == 63 && BinIndex(Lp64, 1024) == 64
    ensures BinIndex(Lp64, 3120) == 96 && BinIndex(Lp64, 3136) == 97
    ensures BinIndex(Ilp32, 16) == 2 && BinIndex(Ilp32, 504) == 63 && BinIndex(Ilp32, 512) == 64
    ensures BinIndex(Ilp32, 2488) == 94 && BinIndex(Ilp32, 2496) == 95
    ensures BinIndex(Ilp32Big, 16) == 2 && BinIndex(Ilp32Big, 992) == 63 && BinIndex(Ilp32Big, 1008) == 64
    ensures BinIndex(Ilp32Big, 2928) == 94 && BinIndex(Ilp32Big, 2944) == 96
    ensures forall c: Config :: BinIndex(c, 3584) == 98 && BinIndex(c, 10736) == 111 && BinIndex(c, 10752) == 112
    ensures forall c: Config :: BinIndex(c, 45040) == 120 && BinIndex(c, 45056) == 120 && BinIndex(c, 65536) == 121
    ensures forall c: Config :: BinIndex(c, 163824) == 123 && BinIndex(c, 163840) == 124 && BinIndex(c, 262144) == 125
    ensures forall c: Config :: BinIndex(c, 524272) == 125 && BinIndex(c, 524288) == 126
  {
  }

  lemma {:induction false} SmallBinHasOneSize(c: Config, a: nat, b: nat)
    requires a % c.Alignment() == 0 && b % c.Alignment() == 0
    requires InSmallbinRange(c, a) && BinIndex(c, a) == BinIndex(c, b) < NSMALLBINS && c.MinSize() <= b
    ensures a == b
  {
  }
}
