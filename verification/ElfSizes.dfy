/** The sizes reported for an ELF file: memory, code, read-only data, data and bss, each in whole pages. */
module ElfSizes {
  import Text
  import opened Bits
  import opened ElfFile

  // ---- rounding by masks

  /** `x & -a` */
  function RoundDown(x: nat, a: nat): nat {
    And(x, 0 - (a as int))
  }

  /** `(x + a - 1) & -a`; masking with zero leaves nothing. */
  function RoundUp(x: nat, a: nat): nat {
    if a == 0 then 0 else And(x + a - 1, 0 - (a as int))
  }

  /** With an alignment that is a power of two, the masks give the nearest multiples below and above. */
  lemma {:induction false} RoundsToMultiples(x: nat, k: nat)
    ensures var a := Pow2(k);
            && RoundDown(x, a) == x / a * a && RoundUp(x, a) == (x + a - 1) / a * a
            && RoundDown(x, a) <= x < RoundDown(x, a) + a
            && x <= RoundUp(x, a) < x + a
  {
    var a := Pow2(k);
    AndNegativePow2(x, k);
    AndNegativePow2(x + a - 1, k);
    NearestBelow(x, a);
    NearestBelow(x + a - 1, a);
  }

  lemma {:induction false} NearestBelow(x: nat, a: nat)
    requires a > 0
    ensures x / a * a <= x < x / a * a + a
  {
  }

  lemma {:induction false} QuotientMonotone(x: nat, y: nat, a: nat)
    requires x <= y && a > 0
    ensures x / a * a <= y / a * a
  {
    var p, q := x / a, y / a;
    NearestBelow(x, a);
    NearestBelow(y, a);
    assert p > q ==> p * a >= (q + 1) * a;
    assert (q + 1) * a == q * a + a;
    assert p * a <= q * a;
  }

  lemma {:induction false} RoundUpMonotone(x: nat, y: nat, k: nat)
    requires x <= y
    ensures RoundUp(x, Pow2(k)) <= RoundUp(y, Pow2(k))
  {
    var a := Pow2(k);
    RoundsToMultiples(x, k);
    RoundsToMultiples(y, k);
    QuotientMonotone(x + a - 1, y + a - 1, a);
  }

  // ---- one segment

  function Start(p: Phdr): nat {
    RoundDown(p.vaddr, p.align)
  }

  function FileEnd(p: Phdr): nat {
    RoundUp(p.vaddr + p.filesz, p.align)
  }

  function MemEnd(p: Phdr): nat {
    RoundUp(p.vaddr + p.memsz, p.align)
  }

  /** `get_segment_size`: all of it, the part from the file, or the rest. */
  function SegmentSize(p: Phdr, file: bool, mem: bool): int {
    if file && mem then MemEnd(p) - Start(p)
    else if file then FileEnd(p) - Start(p)
    else MemEnd(p) - FileEnd(p)
  }

  predicate Executable(p: Phdr) {
    And(p.flags, PF_X) != 0
  }

  predicate Writable(p: Phdr) {
    And(p.flags, PF_W) != 0
  }

  predicate ReadOnly(p: Phdr) {
    p.flags == PF_R
  }

  // ---- the totals

  function Loads(phdrs: seq<Phdr>): seq<Phdr> {
    if phdrs == [] then []
    else Loads(phdrs[..|phdrs| - 1]) + if phdrs[|phdrs| - 1].kind == PT_LOAD then [phdrs[|phdrs| - 1]] else []
  }

  /** The size of one kind of segment part, over the segments of one kind. */
  function Total(loads: seq<Phdr>, pick: Phdr -> bool, size: Phdr -> int): int {
    if loads == [] then 0
    else
      var p := loads[|loads| - 1];
      Total(loads[..|loads| - 1], pick, size) + if pick(p) then size(p) else 0
  }

  function FilePart(p: Phdr): int {
    SegmentSize(p, true, false)
  }

  function BssPart(p: Phdr): int {
    SegmentSize(p, false, true)
  }

  function CodeSize(phdrs: seq<Phdr>): int {
    Total(Loads(phdrs), Executable, FilePart)
  }

  function RodataSize(phdrs: seq<Phdr>): int {
    Total(Loads(phdrs), ReadOnly, FilePart)
  }

  function DataSize(phdrs: seq<Phdr>): int {
    Total(Loads(phdrs), Writable, FilePart)
  }

  function BssSize(phdrs: seq<Phdr>): int {
    Total(Loads(phdrs), Writable, BssPart)
  }

  function MemorySize(phdrs: seq<Phdr>): Text.Result<int> {
    var loads := Loads(phdrs);
    if loads == [] then Text.Err("list index out of range")
    else Text.Ok(MemEnd(loads[|loads| - 1]) - Start(loads[0]))
  }

  // ---- how the totals add up

  /** Counted as code and again as data. */
  function Twice(p: Phdr): int {
    if Executable(p) && Writable(p) then FilePart(p) else 0
  }

  /** Counted nowhere. */
  function Missed(p: Phdr): int {
    if Writable(p) then 0
    else if Executable(p) || ReadOnly(p) then BssPart(p)
    else SegmentSize(p, true, true)
  }

  predicate All(p: Phdr) {
    true
  }

  /** What lies between one segment and the next. */
  function Gaps(loads: seq<Phdr>): int {
    if |loads| <= 1 then 0
    else Gaps(loads[..|loads| - 1]) + Start(loads[|loads| - 1]) - MemEnd(loads[|loads| - 2])
  }

  function Counted(loads: seq<Phdr>): int {
    Total(loads, Executable, FilePart) + Total(loads, ReadOnly, FilePart) +
    Total(loads, Writable, FilePart) + Total(loads, Writable, BssPart)
  }

  lemma {:induction false} OneMoreSegment(loads: seq<Phdr>)
    requires loads != []
    ensures var p, before := loads[|loads| - 1], loads[..|loads| - 1];
            Counted(loads) + Total(loads, All, Missed) - Total(loads, All, Twice)
            == Counted(before) + Total(before, All, Missed) - Total(before, All, Twice) + MemEnd(p) - Start(p)
  {
  }

  function Span(p: Phdr): int {
    SegmentSize(p, true, true)
  }

  /** Data and bss together are the whole spans of the writable segments. */
  lemma {:induction false} DataAndBssAreSpans(loads: seq<Phdr>)
    ensures Total(loads, Writable, FilePart) + Total(loads, Writable, BssPart) == Total(loads, Writable, Span)
  {
    if loads != [] { DataAndBssAreSpans(loads[..|loads| - 1]); }
  }

  lemma {:induction false} LoadsAddUp(loads: seq<Phdr>)
    requires loads != []
    ensures Counted(loads) + Total(loads, All, Missed) - Total(loads, All, Twice) + Gaps(loads)
            == MemEnd(loads[|loads| - 1]) - Start(loads[0])
  {
    OneMoreSegment(loads);
    if |loads| > 1 { LoadsAddUp(loads[..|loads| - 1]); }
  }

  /** Every page of memory is accounted for: the four sizes, the gaps and the uncounted parts make up the memory
      size, except that segments both writable and executable are counted twice. */
  lemma {:induction false} SizesAddUp(phdrs: seq<Phdr>)
    ensures MemorySize(phdrs).Err? <==> forall p :: p in phdrs ==> p.kind != PT_LOAD
    ensures MemorySize(phdrs).Ok? ==>
              var loads := Loads(phdrs);
              CodeSize(phdrs) + RodataSize(phdrs) + DataSize(phdrs) + BssSize(phdrs)
              == MemorySize(phdrs).value + Total(loads, All, Twice) - Total(loads, All, Missed) - Gaps(loads)
  {
    LoadsAreLoads(phdrs);
    if Loads(phdrs) != [] { LoadsAddUp(Loads(phdrs)); }
  }

  lemma {:induction false} LoadsAreLoads(phdrs: seq<Phdr>)
    ensures forall p :: p in Loads(phdrs) <==> p in phdrs && p.kind == PT_LOAD
  {
    if phdrs != [] {
      var before := phdrs[..|phdrs| - 1];
      LoadsAreLoads(before);
      assert phdrs == before + [phdrs[|phdrs| - 1]];
    }
  }

  // ---- when the sum is within the memory size

  /** A segment the loader accepts: its alignment is a power of two and it has no more bytes in the file than in
      memory. */
  ghost predicate Loadable(p: Phdr) {
    p.filesz <= p.memsz && exists k: nat :: p.align == Pow2(k)
  }

  /** Segments in ascending order on separate pages. */
  ghost predicate Ascending(loads: seq<Phdr>) {
    forall i :: 0 < i < |loads| ==> MemEnd(loads[i - 1]) <= Start(loads[i])
  }

  lemma {:induction false} PartsArePositive(p: Phdr)
    requires Loadable(p)
    ensures FilePart(p) >= 0 && BssPart(p) >= 0 && Missed(p) >= 0 && Twice(p) >= 0
  {
    var k :| p.align == Pow2(k);
    RoundsToMultiples(p.vaddr, k);
    RoundsToMultiples(p.vaddr + p.filesz, k);
    RoundUpMonotone(p.vaddr + p.filesz, p.vaddr + p.memsz, k);
  }

  lemma {:induction false} TotalIsPositive(loads: seq<Phdr>, size: Phdr -> int)
    requires forall p :: p in loads ==> size(p) >= 0
    ensures Total(loads, All, size) >= 0
  {
    if loads != [] { TotalIsPositive(loads[..|loads| - 1], size); }
  }

  lemma {:induction false} TotalIsZero(loads: seq<Phdr>, size: Phdr -> int)
    requires forall p :: p in loads ==> size(p) == 0
    ensures Total(loads, All, size) == 0
  {
    if loads != [] { TotalIsZero(loads[..|loads| - 1], size); }
  }

  lemma {:induction false} GapsArePositive(loads: seq<Phdr>)
    requires Ascending(loads)
    ensures Gaps(loads) >= 0
  {
    if |loads| > 1 {
      var before := loads[..|loads| - 1];
      forall i | 0 < i < |before| ensures MemEnd(before[i - 1]) <= Start(before[i]) {
        assert before[i] == loads[i];
      }
      GapsArePositive(before);
    }
  }

  /** Without writable code, the four sizes together are at most the memory size. */
  lemma {:induction false} SizesAreWithinMemory(phdrs: seq<Phdr>)
    requires MemorySize(phdrs).Ok?
    requires forall p :: p in Loads(phdrs) ==> Loadable(p) && !(Executable(p) && Writable(p))
    requires Ascending(Loads(phdrs))
    ensures CodeSize(phdrs) + RodataSize(phdrs) + DataSize(phdrs) + BssSize(phdrs) <= MemorySize(phdrs).value
  {
    var loads := Loads(phdrs);
    forall p | p in loads ensures Missed(p) >= 0 { PartsArePositive(p); }
    TotalIsPositive(loads, Missed);
    TotalIsZero(loads, Twice);
    GapsArePositive(loads);
    SizesAddUp(phdrs);
  }

  /** A writable, executable segment of one byte is one byte of memory, but a byte of code and a byte of data. */
  lemma {:induction false} WritableCodeCountsTwice()
    ensures var phdrs := [Phdr(PT_LOAD, 7, 0, 0, 0, 1, 1, 1)];
            MemorySize(phdrs) == Text.Ok(1) && CodeSize(phdrs) == 1 && DataSize(phdrs) == 1
  {
    var p := Phdr(PT_LOAD, 7, 0, 0, 0, 1, 1, 1);
    AndAllOnes(0);
    AndAllOnes(1);
    assert And(7, 1) == 1 && And(7, 2) == 2;
    assert [p][..0] == [] && Loads([p]) == [p];
    OneSegment(p, Executable, FilePart);
    OneSegment(p, Writable, FilePart);
  }

  lemma {:induction false} OneSegment(p: Phdr, pick: Phdr -> bool, size: Phdr -> int)
    ensures Total([p], pick, size) == if pick(p) then size(p) else 0
  {
  }

  /** An alignment of zero, which the standard allows, makes a segment vanish from every size. */
  lemma {:induction false} ZeroAlignmentVanishes(p: Phdr, file: bool, mem: bool)
    requires p.align == 0
    ensures SegmentSize(p, file, mem) == 0
  {
    AndZero(p.vaddr);
  }

  /** The pages counted for a segment hold all of it, exactly when its alignment is not zero, or it ends at address
      zero and there is nothing to hold. */
  lemma {:induction false} SpanHoldsSegmentIff(p: Phdr)
    requires p.align == 0 || exists k: nat :: p.align == Pow2(k)
    ensures Start(p) <= p.vaddr && p.vaddr + p.memsz <= MemEnd(p) <==> p.align != 0 || p.vaddr + p.memsz == 0
  {
    if p.align == 0 {
      AndZero(p.vaddr);
    } else {
      var k :| p.align == Pow2(k);
      RoundsToMultiples(p.vaddr, k);
      RoundsToMultiples(p.vaddr + p.memsz, k);
    }
  }
}
