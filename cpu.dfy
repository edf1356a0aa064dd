/**
 * One arm64 core as seen by the kernel's CPU-control helpers: the registers they
 * read and write, the PAR_EL1 result of the last AT probe, and the trace of the
 * barrier and maintenance instructions they issue.
 */
module Cpu {
  import opened CpuTypes
  import opened Translation
  import opened Instructions

  /** The translation hardware: the PAR_EL1 value an AT probe of (kind, level, va) produces. */
  type Mmu = (AccessKind, ExceptionLevel, Word) -> Word

  /** The caller's `KPhysicalAddress *out`; a null reference is a null pointer. */
  class PhysicalAddressCell {
    var value: PhysicalAddress

    constructor (initial: PhysicalAddress)
      ensures value == initial
    {
      value := initial;
    }
  }

  class Core {
    /** x18, the register reserved for the core-local region address. */
    var x18: Word
    /** TPIDR_EL1, the kernel's copy of the core-local region address. */
    var tpidrEl1: Word
    /** TPIDRRO_EL0, the user-readable thread-local region register. */
    var tpidrroEl0: Word
    /** PAR_EL1, written by each AT probe. */
    var parEl1: Word
    /** The current answers of the translation hardware. */
    const mmu: Mmu
    /** Every instruction issued so far, in order. */
    ghost var trace: seq<Instruction>

    ghost predicate Valid()
      reads this
    {
      Synchronized(trace)
    }

    constructor (mmu: Mmu)
      ensures Valid() && trace == [] && this.mmu == mmu
    {
      x18, tpidrEl1, tpidrroEl0, parEl1 := 0, 0, 0, 0;
      this.mmu := mmu;
      trace := [];
    }

    /** Appends one instruction; a discipline-neutral instruction keeps the core valid. */
    method Issue(i: Instruction)
      modifies this`trace
      ensures trace == old(trace) + [i]
      ensures old(Valid()) && !IsInvalidation(i) && !i.At? && i != MrsParEl1 ==> Valid()
    {
      trace := trace + [i];
      if old(Valid()) && !IsInvalidation(i) && !i.At? && i != MrsParEl1 {
        SynchronizedConcat(old(trace), [i]);
      }
    }

    method DataSynchronizationBarrier()
      modifies this`trace
      ensures trace == old(trace) + [DsbSy]
      ensures old(Valid()) ==> Valid()
    {
      Issue(DsbSy);
    }

    method DataSynchronizationBarrierInnerShareable()
      modifies this`trace
      ensures trace == old(trace) + [DsbIsh]
      ensures old(Valid()) ==> Valid()
    {
      Issue(DsbIsh);
    }

    method DataMemoryBarrier()
      modifies this`trace
      ensures trace == old(trace) + [DmbSy]
      ensures old(Valid()) ==> Valid()
    {
      Issue(DmbSy);
    }

    method InstructionMemoryBarrier()
      modifies this`trace
      ensures trace == old(trace) + [Isb]
      ensures old(Valid()) ==> Valid()
    {
      Issue(Isb);
    }

    method EnsureInstructionConsistency()
      modifies this`trace
      ensures trace == old(trace) + [DsbSy, Isb]
      ensures old(Valid()) ==> Valid()
    {
      DataSynchronizationBarrier();
      InstructionMemoryBarrier();
    }

    method InvalidateEntireInstructionCache()
      modifies this`trace
      ensures old(Valid()) ==> Valid()
      ensures trace == old(trace) + [IcIallu, DsbSy, Isb]
    {
      Issue(IcIallu);
      EnsureInstructionConsistency();
      assert trace == old(trace) + [IcIallu, DsbSy, Isb];
      if old(Valid()) {
        AppendInvalidation(old(trace), IcIallu);
      }
    }

    method InvalidateEntireTlb()
      modifies this`trace
      ensures old(Valid()) ==> Valid()
      ensures trace == old(trace) + [TlbiVmalle1is, DsbSy, Isb]
    {
      Issue(TlbiVmalle1is);
      EnsureInstructionConsistency();
      assert trace == old(trace) + [TlbiVmalle1is, DsbSy, Isb];
      if old(Valid()) {
        AppendInvalidation(old(trace), TlbiVmalle1is);
      }
    }

    /** The AT instruction: asks the translation hardware and records its answer in PAR_EL1. */
    method AddressTranslate(kind: AccessKind, level: ExceptionLevel, va: Word)
      modifies this`trace, this`parEl1
      ensures trace == old(trace) + [At(kind, level)]
      ensures parEl1 == mmu(kind, level, va)
    {
      Issue(At(kind, level));
      parEl1 := mmu(kind, level, va);
    }

    method GetParEl1() returns (par: Word)
      modifies this`trace
      ensures trace == old(trace) + [MrsParEl1]
      ensures par == parEl1
    {
      Issue(MrsParEl1);
      par := parEl1;
    }

    /** Probes va for a write access at EL1 (privileged) or EL0. */
    method GetPhysicalAddressWritable(out: PhysicalAddressCell?, addr: VirtualAddress, privileged: bool := false)
      returns (ok: bool)
      modifies this`trace, this`parEl1, out
      ensures old(Valid()) ==> Valid()
      ensures trace == old(trace) + [At(Write, ProbeLevel(privileged)), Isb, MrsParEl1]
      ensures parEl1 == mmu(Write, ProbeLevel(privileged), addr.bits)
      ensures ok <==> DecodePar(parEl1, addr.bits).Translated?
      ensures out != null && ok ==> out.value == DecodePar(parEl1, addr.bits).pa
      ensures out != null && !ok ==> out.value == old(out.value)
    {
      var va := addr.bits;
      if privileged {
        AddressTranslate(Write, EL1, va);
      } else {
        AddressTranslate(Write, EL0, va);
      }
      InstructionMemoryBarrier();
      var par := GetParEl1();
      assert trace == old(trace) + [At(Write, ProbeLevel(privileged)), Isb, MrsParEl1];
      if old(Valid()) {
        AppendProbe(old(trace), Write, ProbeLevel(privileged));
      }
      DecodeParCases(par, va);
      if par & FaultBit != 0 {
        return false;
      }
      if out != null {
        out.value := PhysicalAddress((par & FrameMask) | (va & OffsetMask));
      }
      return true;
    }

    /** Probes va for a read access at EL1 (privileged) or EL0. */
    method GetPhysicalAddressReadable(out: PhysicalAddressCell?, addr: VirtualAddress, privileged: bool := false)
      returns (ok: bool)
      modifies this`trace, this`parEl1, out
      ensures old(Valid()) ==> Valid()
      ensures trace == old(trace) + [At(Read, ProbeLevel(privileged)), Isb, MrsParEl1]
      ensures parEl1 == mmu(Read, ProbeLevel(privileged), addr.bits)
      ensures ok <==> DecodePar(parEl1, addr.bits).Translated?
      ensures out != null && ok ==> out.value == DecodePar(parEl1, addr.bits).pa
      ensures out != null && !ok ==> out.value == old(out.value)
    {
      var va := addr.bits;
      if privileged {
        AddressTranslate(Read, EL1, va);
      } else {
        AddressTranslate(Read, EL0, va);
      }
      InstructionMemoryBarrier();
      var par := GetParEl1();
      assert trace == old(trace) + [At(Read, ProbeLevel(privileged)), Isb, MrsParEl1];
      if old(Valid()) {
        AppendProbe(old(trace), Read, ProbeLevel(privileged));
      }
      DecodeParCases(par, va);
      if par & FaultBit != 0 {
        return false;
      }
      if out != null {
        out.value := PhysicalAddress((par & FrameMask) | (va & OffsetMask));
      }
      return true;
    }

    /** Hands a page to the page-clearing routine; the page must be non-null and page aligned. */
    method ClearPageToZero(page: Word)
      requires IsAligned(page, PageSize)
      requires page != 0
      modifies this`trace
      ensures old(Valid()) ==> Valid()
      ensures trace == old(trace) + [ClearPage(page)]
    {
      Issue(ClearPage(page));
    }

    method GetCoreLocalRegionAddress() returns (value: Word)
      ensures value == x18
    {
      value := x18;
    }

    method SetCoreLocalRegionAddress(value: Word)
      modifies this`x18, this`tpidrEl1
      ensures x18 == value && tpidrEl1 == value
    {
      x18 := value;
      tpidrEl1 := value;
    }

    method SwitchThreadLocalRegion(tlr: Word)
      modifies this`tpidrroEl0
      ensures tpidrroEl0 == tlr
    {
      tpidrroEl0 := tlr;
    }
  }

  /**
   * A caller's view of the register slots: after SetCoreLocalRegionAddress(v), switching
   * the thread-local region leaves the core-local address in place, and both copies hold v.
   */
  method CoreLocalRegionSurvivesThreadSwitch(core: Core, v: Word, tlr: Word) returns (got: Word)
    modifies core`x18, core`tpidrEl1, core`tpidrroEl0
    ensures got == v && core.x18 == v && core.tpidrEl1 == v && core.tpidrroEl0 == tlr
    ensures core.trace == old(core.trace) && core.parEl1 == old(core.parEl1)
  {
    core.SetCoreLocalRegionAddress(v);
    core.SwitchThreadLocalRegion(tlr);
    got := core.GetCoreLocalRegionAddress();
  }

  /** Each core keeps its own core-local region: setting one core's slot leaves another's alone. */
  method CoresKeepTheirOwnRegions(a: Core, b: Core, x: Word, y: Word) returns (gotA: Word, gotB: Word)
    requires a != b
    modifies a`x18, a`tpidrEl1, b`x18, b`tpidrEl1
    ensures gotA == x && gotB == y
  {
    a.SetCoreLocalRegionAddress(x);
    b.SetCoreLocalRegionAddress(y);
    gotA := a.GetCoreLocalRegionAddress();
    gotB := b.GetCoreLocalRegionAddress();
  }
}
