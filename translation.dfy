/** Decoding of the PAR_EL1 value produced by an AT (address translate) probe. */
module Translation {
  import opened CpuTypes

  /** The access an AT probe asks about: `at s1e?r` or `at s1e?w`. */
  datatype AccessKind = Read | Write

  /** The exception level the probe translates for: EL0 (user) or EL1 (kernel). */
  datatype ExceptionLevel = EL0 | EL1

  /** Outcome of a probe: the physical address, or a fault. */
  datatype TranslationResult = Translated(pa: PhysicalAddress) | Fault

  /** PAR_EL1.F, bit 0: the translation was aborted. */
  const FaultBit: Word := 0x1
  /** Bits 47..12 of PAR_EL1: the output address of the page frame. */
  const FrameMask: Word := 0xFFFF_FFFF_F000
  /** Bits 11..0 of an address: the offset inside a 4 KiB page. */
  const OffsetMask: Word := 0xFFF

  /**
   * The `privileged` flag selects the EL1 probe (`at s1e1w` / `at s1e1r`),
   * otherwise the EL0 one (`at s1e0w` / `at s1e0r`); kern_cpu.hpp:66-70 and 88-92.
   */
  function ProbeLevel(privileged: bool): (l: ExceptionLevel)
  {
    if privileged then EL1 else EL0
  }

  /**
   * The decoding shared by GetPhysicalAddressWritable and GetPhysicalAddressReadable:
   * a set fault bit means failure; otherwise the frame bits of PAR are joined to the
   * page offset of the probed virtual address.
   */
  function DecodePar(par: Word, va: Word): (r: TranslationResult)
    ensures r.Fault? <==> par & FaultBit == 1
    ensures r.Translated? ==> r.pa.bits & OffsetMask == va & OffsetMask
    ensures r.Translated? ==> r.pa.bits & FrameMask == par & FrameMask
    ensures r.Translated? ==> r.pa.bits >> 48 == 0
  {
    if par & FaultBit != 0 then Fault
    else Translated(PhysicalAddress((par & FrameMask) | (va & OffsetMask)))
  }

  /**
   * A successful decode keeps va's page offset, so the physical address is page
   * aligned exactly when the virtual address is.
   */
  lemma DecodeAlignedIffVaAligned(par: Word, va: Word)
    requires par & FaultBit == 0
    ensures IsAligned(DecodePar(par, va).pa.bits, PageSize) <==> IsAligned(va, PageSize)
  {
    var pa := DecodePar(par, va).pa.bits;
    assert pa & OffsetMask == va & OffsetMask;
    assert PageSize - 1 == OffsetMask;
  }

  /**
   * The three facts stated by DecodePar's contract determine the translated address:
   * a 48-bit address is the decode of (par, va) exactly when it carries the page
   * offset of va and the frame bits of a non-faulting par.
   */
  lemma DecodeCharacterized(par: Word, va: Word, pa: Word)
    ensures DecodePar(par, va) == Translated(PhysicalAddress(pa)) <==>
            par & FaultBit == 0 && pa & OffsetMask == va & OffsetMask &&
            pa & FrameMask == par & FrameMask && pa >> 48 == 0
  {
    if par & FaultBit == 0 && pa & OffsetMask == va & OffsetMask &&
       pa & FrameMask == par & FrameMask && pa >> 48 == 0
    {
      JoinedFromParts(par, va, pa);
    }
  }

  lemma JoinedFromParts(par: Word, va: Word, pa: Word)
    requires pa & OffsetMask == va & OffsetMask && pa & FrameMask == par & FrameMask && pa >> 48 == 0
    ensures pa == (par & FrameMask) | (va & OffsetMask)
  {
  }

  lemma DecodeParCases(par: Word, va: Word)
    ensures par & FaultBit != 0 ==> DecodePar(par, va) == Fault
    ensures par & FaultBit == 0 ==> DecodePar(par, va) == Translated(PhysicalAddress((par & FrameMask) | (va & OffsetMask)))
  {
  }
}
