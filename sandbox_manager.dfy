/** The sandbox memory layout of the x86 executor: the size and offset macros
    of the sandbox header and the packed structs `util_t`, `actor_data_t` and
    `actor_code_t` built from them.

    Test-case code addresses sandbox memory with constant displacements from
    the base of `main_area` of actor 0, which r14 holds. Fields placed after
    `main_area` are reached with a positive displacement (the `*_OFFSET`
    macros of the actor data), fields of `util_t`, which is placed directly
    before the actor data, with a negative one (`r14 - *_OFFSET`).

    `L1D_ASSOCIATIVITY` (`assoc`) and `sizeof(measurement_t)` (`measurement`)
    come from headers outside this model and are parameters throughout. */
module SandboxManager {
  import opened PackedLayout

  // ---------------------------------------------------------------------------
  // Size macros
  // ---------------------------------------------------------------------------

  /** INT_MAX: the macros are C `int` expressions, and the offsets are
      emitted as 32-bit signed displacements, so each must stay at or below
      this bound. */
  const IntMax: int := 0x7FFF_FFFF

  /** The associativity for which every macro that depends on it, the largest
      being L1D_PRIMING_OFFSET, is still an `int`. */
  predicate AssocFits(assoc: nat)
  {
    8192 + assoc * 4096 <= IntMax
  }

  /** L1D_PRIMING_AREA_SIZE: one page per way of the L1D cache. */
  function L1dPrimingAreaSize(assoc: nat): (r: nat)
    ensures r % 4096 == 0 && r / 4096 == assoc
  {
    assoc * 4096
  }

  const MacroStackSize: nat := 64
  const UnderflowPadSize: nat := 4096 - MacroStackSize
  const MainAreaSize: nat := 4096
  const FaultyAreaSize: nat := 4096
  /** 8 64-bit general-purpose registers + 8 256-bit YMM registers. */
  const RegInitAreaSize: nat := 320
  const OverflowPadSize: nat := 4096 - RegInitAreaSize

  const MaxExpandedSectionSize: nat := 0x1000 * 2
  const MaxExpandedMacrosSize: nat := 0x1000

  // ---------------------------------------------------------------------------
  // Offset macros, w.r.t. the base of main_area (r14). The four util_t offsets
  // are subtracted from r14, the other four are added to it.
  // ---------------------------------------------------------------------------

  /** L1D_PRIMING_OFFSET: the priming area lies below `stored_rsp`, so its
      offset grows by one page per way. */
  function L1dPrimingOffset(assoc: nat): (r: nat)
    ensures r == 8192 + 4096 * assoc
    ensures r <= IntMax <==> AssocFits(assoc)
  {
    StoredRspOffset + L1dPrimingAreaSize(assoc)
  }

  const StoredRspOffset: nat := UtilOffset + 4096
  const MeasurementOffset: nat := UtilOffset + 4096 - 8
  const UtilOffset: nat := MacroStackTopOffset + MacroStackSize

  const MacroStackTopOffset: nat := UnderflowPadSize
  const MainAreaOffset: nat := 0
  const FaultyAreaOffset: nat := MainAreaSize
  const RegInitOffset: nat := FaultyAreaOffset + FaultyAreaSize
  const OverflowPadOffset: nat := RegInitOffset + RegInitAreaSize

  // ---------------------------------------------------------------------------
  // util_t
  // ---------------------------------------------------------------------------

  /** Modulus of C's `size_t` on x86-64. */
  const SizeTModulus: int := 0x1_0000_0000_0000_0000
  /** PTRDIFF_MAX: no C object may be larger than this. */
  const MaxObjectSize: int := 0x7FFF_FFFF_FFFF_FFFF

  /** The header compiles only when the measurement fits in the page it
      shares with `stored_rsp`. */
  predicate MeasurementFits(measurement: nat)
  {
    measurement <= 4096 - 8
  }

  /** Length of `util_t.unused`: `4096 - 8 - sizeof(measurement_t)`, computed
      in `size_t` because `sizeof` is unsigned. It completes the page exactly
      when the measurement fits; otherwise it wraps around to a length no C
      object can have, and the declaration is rejected. `measurement_t`, being
      a C object type, is itself no larger than the largest object. */
  function UnusedSize(measurement: nat): (r: nat)
    requires measurement <= MaxObjectSize
    ensures 8 + measurement + r == 4096 <==> MeasurementFits(measurement)
    ensures !MeasurementFits(measurement) ==> r > MaxObjectSize
  {
    (4096 - 8 - measurement) % SizeTModulus
  }

  /** Member indices of util_t. */
  const L1dPrimingArea: nat := 0
  const StoredRsp: nat := 1
  const LatestMeasurement: nat := 2
  const Unused: nat := 3

  /** util_t: the priming area followed by one page that holds the saved
      stack pointer and the latest measurement. */
  function UtilT(assoc: nat, measurement: nat): (r: seq<Field>)
    requires AssocFits(assoc) && MeasurementFits(measurement)
    ensures |r| == 4
    ensures SizeOf(r) == L1dPrimingAreaSize(assoc) + 4096
  {
    var r := [ Field("l1d_priming_area", L1dPrimingAreaSize(assoc)),
               Field("stored_rsp", 8),
               Field("latest_measurement", measurement),
               Field("unused", UnusedSize(measurement)) ];
    SizeOfAll4(r);
    r
  }

  lemma SizeOfAll4(r: seq<Field>)
    requires |r| == 4
    ensures SizeOf(r) == r[0].size + r[1].size + r[2].size + r[3].size
  {
    OffsetOfFirst(r);
    Contiguous(r, 0);
    Contiguous(r, 1);
    Contiguous(r, 2);
    Contiguous(r, 3);
    OffsetOfEnd(r);
  }

  // ---------------------------------------------------------------------------
  // actor_data_t
  // ---------------------------------------------------------------------------

  /** Member indices of actor_data_t. */
  const MacroStack: nat := 0
  const UnderflowPad: nat := 1
  const MainArea: nat := 2
  const FaultyArea: nat := 3
  const RegInitArea: nat := 4
  const OverflowPad: nat := 5

  /** actor_data_t: six regions that together make four whole pages. */
  function ActorDataT(): (r: seq<Field>)
    ensures |r| == 6
    ensures SizeOf(r) == 4 * 4096
  {
    var r := [ Field("macro_stack", MacroStackSize),
               Field("underflow_pad", UnderflowPadSize),
               Field("main_area", MainAreaSize),
               Field("faulty_area", FaultyAreaSize),
               Field("reg_init_area", RegInitAreaSize),
               Field("overflow_pad", OverflowPadSize) ];
    OffsetOfFirst(r);
    Contiguous(r, 0);
    Contiguous(r, 1);
    Contiguous(r, 2);
    Contiguous(r, 3);
    Contiguous(r, 4);
    Contiguous(r, 5);
    OffsetOfEnd(r);
    r
  }

  /** The register-initialisation area as the registers it holds: eight
      8-byte general-purpose registers and eight 32-byte YMM registers. The
      header gives only these counts; the order, GPRs first, is assumed. */
  function RegInitRegisters(): (r: seq<Field>)
    ensures |r| == 16
    ensures SizeOf(r) == RegInitAreaSize
  {
    var gprs, ymms := Repeat(Field("gpr", 8), 8), Repeat(Field("ymm", 32), 8);
    RepeatOffset(Field("gpr", 8), 8, 0);
    RepeatOffset(Field("ymm", 32), 8, 0);
    SizeOfAppend(gprs, ymms);
    gprs + ymms
  }

  // ---------------------------------------------------------------------------
  // actor_code_t
  // ---------------------------------------------------------------------------

  /** Member indices of actor_code_t. */
  const Section: nat := 0
  const Macros: nat := 1

  /** actor_code_t: room for the expanded code section and its macros,
      three pages in all. */
  function ActorCodeT(): (r: seq<Field>)
    ensures |r| == 2
    ensures SizeOf(r) == 0x3000
  {
    var r := [ Field("section", MaxExpandedSectionSize),
               Field("macros", MaxExpandedMacrosSize) ];
    OffsetOfFirst(r);
    Contiguous(r, 0);
    Contiguous(r, 1);
    OffsetOfEnd(r);
    r
  }

  // ---------------------------------------------------------------------------
  // util_t placed directly before actor_data_t
  // ---------------------------------------------------------------------------

  /** The memory of actor 0 as test-case code sees it: util_t immediately
      followed by actor_data_t. */
  function ActorMemory(assoc: nat, measurement: nat): (r: seq<Field>)
    requires AssocFits(assoc) && MeasurementFits(measurement)
    ensures |r| == 10
    ensures r[..4] == UtilT(assoc, measurement) && r[4..] == ActorDataT()
    ensures SizeOf(r) == L1dPrimingAreaSize(assoc) + 5 * 4096
  {
    SizeOfAppend(UtilT(assoc, measurement), ActorDataT());
    UtilT(assoc, measurement) + ActorDataT()
  }

  /** Index in ActorMemory of member `f` of actor_data_t. */
  function DataMember(f: nat): nat
  {
    4 + f
  }

  /** Displacement from the base of main_area (r14) to the start of member
      `i` of ActorMemory; `i == 10` gives the end of actor_data_t. */
  /** Members before main_area are reached by subtracting from r14, the
      others by adding to it. */
  function Displacement(assoc: nat, measurement: nat, i: nat): (r: int)
    requires AssocFits(assoc) && MeasurementFits(measurement) && i <= 10
    ensures r < 0 <==> i < DataMember(MainArea)
  {
    var layout := ActorMemory(assoc, measurement);
    OrderAroundMainArea(layout, i);
    OffsetOf(layout, i) - OffsetOf(layout, DataMember(MainArea))
  }

  /** Offsets grow with the member index, strictly across underflow_pad,
      the non-empty member just before main_area. */
  lemma OrderAroundMainArea(layout: seq<Field>, i: nat)
    requires |layout| == 10 && layout[4..] == ActorDataT() && i <= 10
    ensures OffsetOf(layout, i) < OffsetOf(layout, DataMember(MainArea))
            <==> i < DataMember(MainArea)
  {
    var main := DataMember(MainArea);
    assert layout[main - 1] == layout[4..][UnderflowPad];
    if i < main {
      if i < main - 1 {
        Disjoint(layout, i, main - 1);
      }
      Disjoint(layout, main - 1, main);
    } else if i > main {
      Disjoint(layout, main, i);
    }
  }

  /** The member of ActorMemory holding byte `r14 + disp`, or None when that
      byte lies outside util_t and actor_data_t. */
  function RegionAt(assoc: nat, measurement: nat, disp: int): (r: Option<Hit>)
    requires AssocFits(assoc) && MeasurementFits(measurement)
    ensures r.Some? ==> r.value.index < 10
                        && r.value.within < ActorMemory(assoc, measurement)[r.value.index].size
                        && Displacement(assoc, measurement, r.value.index) + r.value.within == disp
  {
    var layout := ActorMemory(assoc, measurement);
    Locate(layout, OffsetOf(layout, DataMember(MainArea)) + disp)
  }
}
