/** What the sandbox header promises about its layout, proved of the packed
    structs it declares: the regions are contiguous and fill whole pages, and
    every `*_OFFSET` macro is the displacement from main_area to the member it
    is named after. */
module SandboxProperties {
  import opened PackedLayout
  import opened SandboxManager

  // ---------------------------------------------------------------------------
  // The macros as the preprocessor evaluates them
  // ---------------------------------------------------------------------------

  /** L1D_PRIMING_OFFSET, the largest macro, stays an `int` exactly up to an
      associativity of 524285. */
  lemma AssocBound(assoc: nat)
    ensures AssocFits(assoc) <==> assoc <= 524285
  {
  }

  /** The offset macros evaluate to the displacements test-case code uses as
      immediates, and for an associativity that fits, every one of them, and
      L1D_PRIMING_AREA_SIZE, is a C `int`. */
  lemma MacroValues(assoc: nat)
    requires AssocFits(assoc)
    ensures MacroStackTopOffset == 4032 && UtilOffset == 4096
    ensures MeasurementOffset == 8184 && StoredRspOffset == 8192
    ensures L1dPrimingOffset(assoc) == 8192 + L1dPrimingAreaSize(assoc)
    ensures MainAreaOffset == 0 && FaultyAreaOffset == 4096
    ensures RegInitOffset == 8192 && OverflowPadOffset == 8512
    ensures L1dPrimingAreaSize(assoc) <= L1dPrimingOffset(assoc) <= IntMax
    ensures MaxExpandedSectionSize == 0x2000 && MaxExpandedMacrosSize == 0x1000
  {
  }

  // ---------------------------------------------------------------------------
  // The structs on their own
  // ---------------------------------------------------------------------------

  /** util_t: the priming area takes `assoc` pages, `stored_rsp` starts the
      page after it, `latest_measurement` follows `stored_rsp` directly, and
      `unused` pads that page to its end, so util_t is one page larger than
      the priming area. */
  lemma {:induction false} UtilTLayout(assoc: nat, measurement: nat)
    requires AssocFits(assoc) && MeasurementFits(measurement)
    ensures var u := UtilT(assoc, measurement);
      && u[L1dPrimingArea].name == "l1d_priming_area"
      && u[L1dPrimingArea].size == L1dPrimingAreaSize(assoc)
      && u[StoredRsp].name == "stored_rsp"
      && u[LatestMeasurement].name == "latest_measurement"
      && OffsetOf(u, L1dPrimingArea) == 0
      && OffsetOf(u, StoredRsp) == assoc * 4096
      && OffsetOf(u, LatestMeasurement) == OffsetOf(u, StoredRsp) + 8
      && OffsetOf(u, Unused) == OffsetOf(u, LatestMeasurement) + measurement
      && SizeOf(u) == L1dPrimingAreaSize(assoc) + 4096
  {
    var u := UtilT(assoc, measurement);
    OffsetOfFirst(u);
    Contiguous(u, 0);
    Contiguous(u, 1);
    Contiguous(u, 2);
    Contiguous(u, 3);
    OffsetOfEnd(u);
  }

  /** actor_data_t: each padding region completes the page of the region
      before it, main_area and faulty_area are whole pages, and the struct is
      exactly four pages. */
  lemma {:induction false} ActorDataTLayout()
    ensures MacroStackSize + UnderflowPadSize == 4096
    ensures RegInitAreaSize + OverflowPadSize == 4096
    ensures ActorDataT()[MacroStack].name == "macro_stack"
    ensures ActorDataT()[UnderflowPad].name == "underflow_pad"
    ensures ActorDataT()[MainArea].name == "main_area"
    ensures ActorDataT()[FaultyArea].name == "faulty_area"
    ensures ActorDataT()[RegInitArea].name == "reg_init_area"
    ensures ActorDataT()[OverflowPad].name == "overflow_pad"
    ensures OffsetOf(ActorDataT(), MacroStack) == 0
    ensures OffsetOf(ActorDataT(), UnderflowPad) == 64
    ensures OffsetOf(ActorDataT(), MainArea) == 4096
    ensures OffsetOf(ActorDataT(), FaultyArea) == 2 * 4096
    ensures OffsetOf(ActorDataT(), RegInitArea) == 3 * 4096
    ensures OffsetOf(ActorDataT(), OverflowPad) == 3 * 4096 + 320
    ensures SizeOf(ActorDataT()) == 4 * 4096
  {
    OffsetOfFirst(ActorDataT());
    Contiguous(ActorDataT(), 0);
    Contiguous(ActorDataT(), 1);
    Contiguous(ActorDataT(), 2);
    Contiguous(ActorDataT(), 3);
    Contiguous(ActorDataT(), 4);
    Contiguous(ActorDataT(), 5);
    OffsetOfEnd(ActorDataT());
  }

  /** The register-initialisation area holds exactly 8 GPRs and 8 YMM
      registers. The header gives only the counts; with the GPRs assumed to
      come first, they take its first 64 bytes, 8 apart, and the YMMs the
      rest, 32 apart. */
  lemma RegInitAreaHoldsRegisters(k: nat)
    requires k <= 8
    ensures SizeOf(RegInitRegisters()) == RegInitAreaSize == 8 * 8 + 8 * 32
    ensures k < 8 ==> RegInitRegisters()[k].size == 8 && RegInitRegisters()[8 + k].size == 32
    ensures OffsetOf(RegInitRegisters(), k) == 8 * k
    ensures OffsetOf(RegInitRegisters(), 8 + k) == 64 + 32 * k
  {
    var gprs, ymms := Repeat(Field("gpr", 8), 8), Repeat(Field("ymm", 32), 8);
    assert RegInitRegisters() == gprs + ymms;
    RepeatOffset(Field("gpr", 8), 8, k);
    RepeatOffset(Field("ymm", 32), 8, k);
    SizeOfAppend(gprs, ymms);
    OffsetOfAppend(gprs, ymms, k);
    assert (gprs + ymms)[..k] == gprs[..k];
  }

  /** actor_code_t: `section` is [0, 0x2000), `macros` is [0x2000, 0x3000),
      and the struct is 0x3000 bytes; a code byte lies in exactly one of the
      two. */
  lemma {:induction false} ActorCodeTLayout(pos: int)
    ensures ActorCodeT()[Section].name == "section"
    ensures ActorCodeT()[Macros].name == "macros"
    ensures OffsetOf(ActorCodeT(), Section) == 0
    ensures OffsetOf(ActorCodeT(), Macros) == 0x2000
    ensures SizeOf(ActorCodeT()) == 0x3000
    ensures InMember(Locate(ActorCodeT(), pos), Section) <==> 0 <= pos < 0x2000
    ensures InMember(Locate(ActorCodeT(), pos), Macros) <==> 0x2000 <= pos < 0x3000
    ensures 0 <= pos < 0x2000 ==> Locate(ActorCodeT(), pos) == Some(Hit(Section, pos))
    ensures 0x2000 <= pos < 0x3000 ==> Locate(ActorCodeT(), pos) == Some(Hit(Macros, pos - 0x2000))
  {
    OffsetOfFirst(ActorCodeT());
    Contiguous(ActorCodeT(), 0);
    Contiguous(ActorCodeT(), 1);
    OffsetOfEnd(ActorCodeT());
    if 0 <= pos < 0x2000 {
      LocateOffset(ActorCodeT(), Section, pos);
    } else if 0x2000 <= pos < 0x3000 {
      LocateOffset(ActorCodeT(), Macros, pos - 0x2000);
    }
  }

  // ---------------------------------------------------------------------------
  // util_t followed by actor_data_t, seen from r14
  // ---------------------------------------------------------------------------

  /** Offsets of the combined layout: util_t members where util_t puts them,
      actor_data_t members shifted by the size of util_t. */
  lemma ActorMemoryLayout(assoc: nat, measurement: nat, f: nat)
    requires AssocFits(assoc) && MeasurementFits(measurement) && f <= 6
    ensures var u := UtilT(assoc, measurement);
      && OffsetOf(ActorMemory(assoc, measurement), DataMember(f)) == SizeOf(u) + OffsetOf(ActorDataT(), f)
      && (f < 6 ==> ActorMemory(assoc, measurement)[DataMember(f)] == ActorDataT()[f])
  {
    OffsetOfAppend(UtilT(assoc, measurement), ActorDataT(), f);
  }

  lemma UtilMemberInMemory(assoc: nat, measurement: nat, i: nat)
    requires AssocFits(assoc) && MeasurementFits(measurement) && i <= 4
    ensures var u := UtilT(assoc, measurement);
      && OffsetOf(ActorMemory(assoc, measurement), i) == OffsetOf(u, i)
      && (i < 4 ==> ActorMemory(assoc, measurement)[i] == u[i])
  {
    var u := UtilT(assoc, measurement);
    assert (u + ActorDataT())[..i] == u[..i];
  }

  /** main_area sits one page into actor_data_t, which starts where util_t
      ends. */
  lemma MainAreaBase(assoc: nat, measurement: nat)
    requires AssocFits(assoc) && MeasurementFits(measurement)
    ensures OffsetOf(ActorMemory(assoc, measurement), DataMember(MainArea))
            == L1dPrimingAreaSize(assoc) + 2 * 4096
  {
    UtilTLayout(assoc, measurement);
    ActorDataTLayout();
    ActorMemoryLayout(assoc, measurement, MainArea);
  }

  /** MAIN_AREA_OFFSET, FAULTY_AREA_OFFSET, REG_INIT_OFFSET and
      OVERFLOW_PAD_OFFSET are r14's distance to the start of the member each
      is named after. */
  lemma ForwardOffsetsLand(assoc: nat, measurement: nat)
    requires AssocFits(assoc) && MeasurementFits(measurement)
    ensures Displacement(assoc, measurement, DataMember(MainArea)) == MainAreaOffset
    ensures Displacement(assoc, measurement, DataMember(FaultyArea)) == FaultyAreaOffset
    ensures Displacement(assoc, measurement, DataMember(RegInitArea)) == RegInitOffset
    ensures Displacement(assoc, measurement, DataMember(OverflowPad)) == OverflowPadOffset
    ensures MainAreaOffset == 0 && FaultyAreaOffset == 4096
    ensures RegInitOffset == 8192 && OverflowPadOffset == 8512
    ensures ActorMemory(assoc, measurement)[DataMember(MainArea)].name == "main_area"
    ensures ActorMemory(assoc, measurement)[DataMember(FaultyArea)].name == "faulty_area"
    ensures ActorMemory(assoc, measurement)[DataMember(RegInitArea)].name == "reg_init_area"
    ensures ActorMemory(assoc, measurement)[DataMember(OverflowPad)].name == "overflow_pad"
  {
    ActorDataTLayout();
    ActorMemoryLayout(assoc, measurement, MainArea);
    ActorMemoryLayout(assoc, measurement, FaultyArea);
    ActorMemoryLayout(assoc, measurement, RegInitArea);
    ActorMemoryLayout(assoc, measurement, OverflowPad);
  }

  /** r14 - UTIL_OFFSET is both the end of util_t and the start of
      macro_stack, and r14 - MACRO_STACK_TOP_OFFSET is the top (end) of
      macro_stack. */
  lemma UtilOffsetLands(assoc: nat, measurement: nat)
    requires AssocFits(assoc) && MeasurementFits(measurement)
    ensures Displacement(assoc, measurement, DataMember(MacroStack)) == -(UtilOffset as int)
    ensures OffsetOf(ActorMemory(assoc, measurement), DataMember(MacroStack))
            == SizeOf(UtilT(assoc, measurement))
    ensures Displacement(assoc, measurement, DataMember(MacroStack)) + MacroStackSize
            == -(MacroStackTopOffset as int)
    ensures Displacement(assoc, measurement, DataMember(UnderflowPad)) == -(MacroStackTopOffset as int)
  {
    ActorDataTLayout();
    ActorMemoryLayout(assoc, measurement, MainArea);
    ActorMemoryLayout(assoc, measurement, MacroStack);
    ActorMemoryLayout(assoc, measurement, UnderflowPad);
  }

  /** r14 - STORED_RSP_OFFSET is `util_t.stored_rsp`, and
      r14 - MEASUREMENT_OFFSET is `util_t.latest_measurement`, 8 bytes
      further; the measurement ends no later than util_t does, that is, at
      or below r14 - UTIL_OFFSET. */
  lemma UtilFieldOffsetsLand(assoc: nat, measurement: nat)
    requires AssocFits(assoc) && MeasurementFits(measurement)
    ensures ActorMemory(assoc, measurement)[StoredRsp].name == "stored_rsp"
    ensures ActorMemory(assoc, measurement)[LatestMeasurement].name == "latest_measurement"
    ensures Displacement(assoc, measurement, StoredRsp) == -(StoredRspOffset as int)
    ensures Displacement(assoc, measurement, LatestMeasurement) == -(MeasurementOffset as int)
    ensures -(MeasurementOffset as int) == -(StoredRspOffset as int) + 8
    ensures Displacement(assoc, measurement, LatestMeasurement) + measurement
            <= Displacement(assoc, measurement, DataMember(MacroStack))
            == -(UtilOffset as int)
  {
    UtilOffsetLands(assoc, measurement);
    UtilTLayout(assoc, measurement);
    MainAreaBase(assoc, measurement);
    UtilMemberInMemory(assoc, measurement, StoredRsp);
    UtilMemberInMemory(assoc, measurement, LatestMeasurement);
  }

  /** For every associativity, r14 - L1D_PRIMING_OFFSET is the start of
      util_t, where the priming area of `assoc` pages begins. */
  lemma L1dPrimingOffsetLands(assoc: nat, measurement: nat)
    requires AssocFits(assoc) && MeasurementFits(measurement)
    ensures ActorMemory(assoc, measurement)[L1dPrimingArea].name == "l1d_priming_area"
    ensures ActorMemory(assoc, measurement)[L1dPrimingArea].size == assoc * 4096
    ensures OffsetOf(ActorMemory(assoc, measurement), L1dPrimingArea) == 0
    ensures Displacement(assoc, measurement, L1dPrimingArea) == -(L1dPrimingOffset(assoc) as int)
  {
    UtilTLayout(assoc, measurement);
    MainAreaBase(assoc, measurement);
    UtilMemberInMemory(assoc, measurement, L1dPrimingArea);
  }

  // ---------------------------------------------------------------------------
  // Which region an access r14 + disp touches
  // ---------------------------------------------------------------------------

  /** An access at r14 + disp lands in main_area, at offset disp of it,
      exactly when 0 <= disp < 4096. */
  lemma MainAreaAccess(assoc: nat, measurement: nat, disp: int)
    requires AssocFits(assoc) && MeasurementFits(measurement)
    ensures InMember(RegionAt(assoc, measurement, disp), DataMember(MainArea))
            <==> 0 <= disp < MainAreaSize
    ensures 0 <= disp < MainAreaSize
            ==> RegionAt(assoc, measurement, disp) == Some(Hit(DataMember(MainArea), disp))
  {
    ForwardOffsetsLand(assoc, measurement);
    ActorMemoryLayout(assoc, measurement, MainArea);
    if 0 <= disp < MainAreaSize {
      LocateOffset(ActorMemory(assoc, measurement), DataMember(MainArea), disp);
    }
  }

  /** An access at r14 + disp lands in faulty_area, at offset disp - 4096 of
      it, exactly when 4096 <= disp < 8192: the first displacement that
      faults is FAULTY_AREA_OFFSET = MAIN_AREA_SIZE. */
  lemma FaultyAreaAccess(assoc: nat, measurement: nat, disp: int)
    requires AssocFits(assoc) && MeasurementFits(measurement)
    ensures InMember(RegionAt(assoc, measurement, disp), DataMember(FaultyArea))
            <==> FaultyAreaOffset <= disp < FaultyAreaOffset + FaultyAreaSize
    ensures FaultyAreaOffset <= disp < FaultyAreaOffset + FaultyAreaSize
            ==> RegionAt(assoc, measurement, disp)
                == Some(Hit(DataMember(FaultyArea), disp - FaultyAreaOffset))
  {
    ForwardOffsetsLand(assoc, measurement);
    ActorMemoryLayout(assoc, measurement, FaultyArea);
    if FaultyAreaOffset <= disp < FaultyAreaOffset + FaultyAreaSize {
      LocateOffset(ActorMemory(assoc, measurement), DataMember(FaultyArea), disp - FaultyAreaOffset);
    }
  }

  /** Every displacement from r14 - L1D_PRIMING_OFFSET up to the end of
      overflow_pad reaches some member of util_t or actor_data_t, and no
      other displacement does. */
  lemma RegionBounds(assoc: nat, measurement: nat, disp: int)
    requires AssocFits(assoc) && MeasurementFits(measurement)
    ensures RegionAt(assoc, measurement, disp).Some?
            <==> -(L1dPrimingOffset(assoc) as int) <= disp < OverflowPadOffset + OverflowPadSize
  {
    var layout := ActorMemory(assoc, measurement);
    UtilTLayout(assoc, measurement);
    ActorDataTLayout();
    MainAreaBase(assoc, measurement);
    SizeOfAppend(UtilT(assoc, measurement), ActorDataT());
  }
}
