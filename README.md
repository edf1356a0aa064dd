# arm64 CPU-control helpers of the Mesosphère kernel, in Dafny

This project models `ams::kern::arm64::cpu`, the architecture layer of the
Mesosphère microkernel that the scheduler, memory manager and boot code call
for barriers, cache and TLB maintenance, address-translation probes and the
per-core region address. The file is almost entirely inline assembly, so the
model has three parts:

- **PAR_EL1 decoding** (`translation.dfy`, module `Translation`).
  `GetPhysicalAddressWritable` and `GetPhysicalAddressReadable` issue an
  `AT` probe and read PAR_EL1. If bit 0 (F) is set, the probe failed.
  Otherwise the physical address is `(par & 0xFFFFFFFFF000) | (va & 0xFFF)`.
  `DecodePar` is that decoding as a function over `bv64`. Its contract gives
  the fault case, the page offset taken from the virtual address, the frame
  bits taken from PAR, and the zero top 16 bits. `DecodeCharacterized` proves
  that these facts determine the result.
- **Instruction ordering** (`instructions.dfy`, module `Instructions`).
  Every instruction the helpers issue is an abstract event in a ghost trace.
  `Synchronized` is the discipline the helpers keep, written as a grammar:
  - an invalidation (`ic iallu`, `tlbi vmalle1is`) is followed directly by `dsb sy; isb`;
  - an `at` probe is followed directly by `isb`, then the read of PAR_EL1;
  - PAR_EL1 is never read in any other place.

  `SynchronizedIffEveryWellPlaced` proves that the grammar means the same as
  checking each instruction's neighbours. `SynchronizedConcat` proves that
  joining two synchronized traces gives a synchronized trace.
- **The core's registers** (`cpu.dfy`, module `Cpu`). The class `Core`
  holds `x18`, TPIDR_EL1, TPIDRRO_EL0, PAR_EL1 and the ghost trace. Each
  helper is a method that states exactly which instructions it appends and
  which registers it writes. The barrier, maintenance, probe and
  page-clearing helpers also keep `Synchronized` true
  (`old(Valid()) ==> Valid()`). `AddressTranslate` and `GetParEl1` are
  building blocks: each alone leaves a lone `At` or PAR_EL1 read in the
  trace, and the discipline holds only for the triple they form inside a
  probe. The register-slot methods do not touch the trace at all (their
  frames name only the registers they write). The probes write through
  `out: PhysicalAddressCell?`, where `null` stands for a null pointer.
- `types.dfy` (module `CpuTypes`) holds the address wrappers and the
  build-time constants.

The translation hardware is the `mmu` constant of a `Core`, fixed when the core is built. It is a function
from (access kind, exception level, virtual address) to the PAR_EL1 value
that `AT` leaves behind.

## Model

| member | source | states |
|---|---|---|
| `Translation.DecodePar` | libraries/libmesosphere/include/mesosphere/arch/arm64/kern_cpu.hpp:75-82 | the result is a fault exactly when bit 0 of PAR is set; on success the low 12 bits of the address equal those of va, bits 47..12 equal those of PAR, and bits 63..48 are zero |
| `Translation.DecodeAlignedIffVaAligned` | libraries/libmesosphere/include/mesosphere/arch/arm64/kern_cpu.hpp:80 | when PAR does not fault, the decoded address is page aligned exactly when va is, because it keeps va's page offset |
| `Translation.DecodeCharacterized` | libraries/libmesosphere/include/mesosphere/arch/arm64/kern_cpu.hpp:80 | a 64-bit value is the decoded address exactly when PAR does not fault and the value has va's page offset, PAR's frame bits and zero top bits, so the decoding is unique |
| `Instructions.SynchronizedConcat` | libraries/libmesosphere/include/mesosphere/arch/arm64/kern_cpu.hpp:52-60 | issuing one synchronized instruction sequence after another keeps the whole trace synchronized |
| `Instructions.AppendInvalidation` | libraries/libmesosphere/include/mesosphere/arch/arm64/kern_cpu.hpp:121-124 | an invalidation followed by DSB SY and ISB, appended to a synchronized trace, keeps it synchronized |
| `Instructions.AppendProbe` | libraries/libmesosphere/include/mesosphere/arch/arm64/kern_cpu.hpp:66-73 | an AT probe followed by ISB and the read of PAR_EL1, appended to a synchronized trace, keeps it synchronized |
| `Instructions.SynchronizedIffEveryWellPlaced` | libraries/libmesosphere/include/mesosphere/arch/arm64/kern_cpu.hpp:57-73 | a trace is synchronized exactly when every invalidation is directly followed by DSB SY then ISB, every AT by ISB then the PAR_EL1 read, and every PAR_EL1 read comes directly after an AT and an ISB (both directions) |
| `Cpu.Core.DataSynchronizationBarrier` | libraries/libmesosphere/include/mesosphere/arch/arm64/kern_cpu.hpp:36-38 | appends exactly `dsb sy` and keeps the discipline |
| `Cpu.Core.DataSynchronizationBarrierInnerShareable` | libraries/libmesosphere/include/mesosphere/arch/arm64/kern_cpu.hpp:40-42 | appends exactly `dsb ish` and keeps the discipline |
| `Cpu.Core.DataMemoryBarrier` | libraries/libmesosphere/include/mesosphere/arch/arm64/kern_cpu.hpp:44-46 | appends exactly `dmb sy` and keeps the discipline |
| `Cpu.Core.InstructionMemoryBarrier` | libraries/libmesosphere/include/mesosphere/arch/arm64/kern_cpu.hpp:48-50 | appends exactly `isb` and keeps the discipline |
| `Cpu.Core.EnsureInstructionConsistency` | libraries/libmesosphere/include/mesosphere/arch/arm64/kern_cpu.hpp:52-55 | appends exactly DSB SY then ISB, and nothing else |
| `Cpu.Core.InvalidateEntireInstructionCache` | libraries/libmesosphere/include/mesosphere/arch/arm64/kern_cpu.hpp:57-60 | appends exactly `ic iallu`, DSB SY, ISB, and keeps the trace synchronized |
| `Cpu.Core.AddressTranslate` | libraries/libmesosphere/include/mesosphere/arch/arm64/kern_cpu.hpp:66-70 | appends the AT event for the given access kind and level, and sets PAR_EL1 to the translation hardware's answer |
| `Cpu.Core.GetParEl1` | libraries/libmesosphere/include/mesosphere/arch/arm64/kern_cpu.hpp:73 | returns the current PAR_EL1 and records the read in the trace |
| `Cpu.Core.GetPhysicalAddressWritable` | libraries/libmesosphere/include/mesosphere/arch/arm64/kern_cpu.hpp:63-83 | issues a write probe at EL1 when privileged, otherwise at EL0, then ISB, then reads PAR; returns true exactly when the decode succeeds; writes the decoded address into a non-null `out` only on success; leaves `out` unchanged on failure; changes no other register |
| `Cpu.Core.GetPhysicalAddressReadable` | libraries/libmesosphere/include/mesosphere/arch/arm64/kern_cpu.hpp:85-105 | the same contract as the writable probe, with a read probe; the decoding of (PAR, va) is the same `DecodePar` |
| `Cpu.Core.ClearPageToZero` | libraries/libmesosphere/include/mesosphere/arch/arm64/kern_cpu.hpp:115-119 | requires the page to be non-null and aligned to the 4 KiB page size, then hands exactly that page to the page-clearing routine |
| `Cpu.Core.InvalidateEntireTlb` | libraries/libmesosphere/include/mesosphere/arch/arm64/kern_cpu.hpp:121-124 | appends exactly `tlbi vmalle1is`, DSB SY, ISB, and keeps the trace synchronized |
| `Cpu.Core.GetCoreLocalRegionAddress` | libraries/libmesosphere/include/mesosphere/arch/arm64/kern_cpu.hpp:126-130 | returns the value held in x18 and changes nothing |
| `Cpu.Core.SetCoreLocalRegionAddress` | libraries/libmesosphere/include/mesosphere/arch/arm64/kern_cpu.hpp:132-136 | sets both x18 and TPIDR_EL1 to the value and nothing else |
| `Cpu.Core.SwitchThreadLocalRegion` | libraries/libmesosphere/include/mesosphere/arch/arm64/kern_cpu.hpp:138-140 | sets TPIDRRO_EL0 and nothing else, so the core-local slot is untouched |
| `Cpu.CoreLocalRegionSurvivesThreadSwitch` | libraries/libmesosphere/include/mesosphere/arch/arm64/kern_cpu.hpp:126-140 | after setting the core-local region to v and switching the thread-local region, the region read back is v, TPIDR_EL1 is v, and the trace and PAR_EL1 are unchanged |
| `Cpu.CoresKeepTheirOwnRegions` | libraries/libmesosphere/include/mesosphere/arch/arm64/kern_cpu.hpp:126-136 | when two distinct cores each set their own region, each one reads back its own value |

## Left out

- Hardware semantics: the model does not capture what barriers, cache invalidation and TLB invalidation do to memory. They are opaque trace events. The model states only their order.
- Translation tables: the `AT` probe's answer is the `mmu` field, an arbitrary function. Page-table walks are not modelled. Neither are remapping and TLB staleness.
- `SynchronizeAllCores` (kern_cpu.hpp:108): this multicore rendezvous is only declared in this file, and its point is concurrency.
- `FlushEntireDataCacheShared`, `FlushEntireDataCacheLocal` (kern_cpu.hpp:112-113): they are only declared, with no body in this file.
- `Cpu.Core.ClearPageToZero`: the call to `ClearPageToZeroImpl` is recorded as a `ClearPage(page)` event. The model claims no zero-fill, because the code in this file does not establish one. `MESOSPHERE_ASSERT` is modelled as a precondition. The model does not capture builds where the assertion is compiled out.
- `PageSize` (0x1000) and `util::IsAligned` come from headers that are not part of this model. Alignment is written as a mask test, `page & (PageSize - 1) == 0`. For a power-of-two page size, that is the same as being a multiple of it.
- `GetParEl1`, `SetTpidrEl1` and `SetTpidrRoEl0` are accessors from a system-register header that is not part of this model. They are reads and writes of the `Core` fields. The PAR_EL1 read is also recorded as an `MrsParEl1` event, so that "ISB before the PAR read" can be stated.
- `x18` being overwritten by user-mode code between kernel entries is not modelled. A `Core` holds the kernel's view of its registers.
- `Translation.DecodePar`: the model does not prove the integer reading of the result (frame number × 4096 + page offset). The solver cannot relate 64-bit bit-vectors to integers at this size. The bit-level contract states the same composition with masks.
- Build-time constants (`InstructionCacheLineSize`, `DataCacheLineSize`, `NumCores`) are constants with no behaviour.
- The secure-monitor file-system service and the GPIO result-code declarations are outside this model. They are marshalling and static data.
