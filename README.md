# arm_gic interrupt identifiers in Dafny

A model of the interrupt-identifier layer of the `arm_gic` crate, a driver
for the ARM Generic Interrupt Controller (GIC) versions 2, 3 and 4. The
layer decides what an interrupt ID (INTID) is and which numeric range
belongs to which class of interrupt, following the INTID ranges of the ARM
Generic Interrupt Controller Architecture Specification (GICv3/v4, IHI 0069,
section 2.2 "INTIDs"):

- Software Generated Interrupts (SGI): 0..15
- Private Peripheral Interrupts (PPI): 16..31
- Shared Peripheral Interrupts (SPI): 32..1019
- special IDs: 1020..1023

The code's own classification treats every ID from 1020 up as special.

Files:

- `arm_gic.dfy` (module `ArmGic`): the `IntId` datatype over a 64-bit
  `usize`, the class constants, the constructors `Sgi`/`Ppi`/`Spi` (whose
  `assert!` becomes a `requires`), the predicates `IsSgi`/`IsPrivate`, the
  fallible `TranslateIrq` returning an `Option`, the classification made by
  the `Debug` rendering (`Describe`, returning a class and relative index or
  a special value instead of text), the `From` conversions to and from
  `usize` and to `u32`, and `TriggerMode` with its discriminants.
- `arm_gic_lemmas.dfy` (module `ArmGicLemmas`): range partitioning,
  constructor/classification agreement, the classification round trip, the
  unit test's values, the conversion round trips and truncation, and the
  exact set of IDs each constructor can return.
- `spi_bound.dfy` (module `SpiBound`): the SPI index bound (see Findings).

The SPI bound is modelled as the code has it: `spi` and `translate_irq`
accept every SPI index below 1020, so they can return IDs 32..1051. The
architecture defines 988 SPIs (IDs 32..1019), and the crate documents
`SPECIAL_START` (1020) as the first special interrupt ID
(src/lib.rs:48-49), so the intended bound is 988. The corrected
definitions live beside the as-written ones in `SpiBound`.

## Model

| member | source | states |
|---|---|---|
| `ArmGic.IntId.Sgi` | src/lib.rs:52-55 | defined only for indices below 16; the ID is an SGI |
| `ArmGic.IntId.Ppi` | src/lib.rs:58-61 | defined only for indices below 16; the ID is private but not an SGI, i.e. a PPI |
| `ArmGic.IntId.Spi` | src/lib.rs:64-67 | defined for indices below 1020; the ID is never private, and it stays below 1020 exactly when the index is below 988 |
| `ArmGic.IntId.IsSgi` | src/lib.rs:69-79 | every SGI is also private |
| `ArmGic.IntId.IsPrivate` | src/lib.rs:75-79 | an ID is private exactly when it lies in the SGI range [0, 16) or the PPI range [16, 32); `RangePartition` ties it to the IDs `sgi` and `ppi` return |
| `ArmGic.IntId.Describe` | src/lib.rs:144-155 | the classification is SGI, PPI, SPI or special exactly on the ranges given by `is_sgi`, `is_private` and 1020; a special ID is reported with its own value; every class/index result translates back to the ID |
| `ArmGic.TranslateIrq` | src/lib.rs:100-124 | `Some` exactly when the matching constructor's assertion holds (index < 16, < 16, < 1020), and then the value that constructor returns; otherwise `None` |
| `ArmGic.ToUsize` | src/lib.rs:164-168 | returns the wrapped value, from which the ID is rebuilt unchanged; inverse of `FromUsize` (`UsizeRoundTrip`) |
| `ArmGic.FromUsize` | src/lib.rs:170-174 | accepts every `usize` without a range check, and converting back gives the same integer |
| `ArmGic.ToU32` | src/lib.rs:158-162 | the result equals the value when it fits in 32 bits and is congruent to it modulo 2^32 always |
| `ArmGic.TriggerMode.Discriminant` | src/lib.rs:178-191 | the discriminant is 0 or 1, and 0 exactly for `Edge` |
| `ArmGicLemmas.RangePartition` | src/lib.rs:71-79 | `is_sgi` holds exactly for the IDs `sgi` returns, `is_private && !is_sgi` exactly for those `ppi` returns, `!is_private` below 1020 exactly for those `spi` returns below 1020, and an ID is special exactly when none of these holds; the three constructor images are pairwise disjoint |
| `ArmGicLemmas.ConstructorsDescribed` | src/lib.rs:52-67 | each constructor's ID classifies back to its class and index, except SPI indices 988..1019, which classify as special IDs |
| `ArmGicLemmas.DescribeRoundTrip` | src/lib.rs:144-155 | for every ID below 1020, classifying it and passing the index to the matching constructor rebuilds the ID |
| `ArmGicLemmas.TranslateIrqUnitTest` | src/lib.rs:131-141 | the nine values of the unit test of `translate_irq` |
| `ArmGicLemmas.UsizeRoundTrip` | src/lib.rs:164-174 | `usize` to `IntId` to `usize` and `IntId` to `usize` to `IntId` are identities |
| `ArmGicLemmas.ToU32Truncates` | src/lib.rs:158-162 | the `u32` conversion maps 2^32 + 5 and 5 to the same value |
| `ArmGicLemmas.SgiIdsAreSgiRange` | src/lib.rs:52-55 | `sgi` returns exactly the IDs 0..15 |
| `ArmGicLemmas.PpiIdsArePpiRange` | src/lib.rs:58-61 | `ppi` returns exactly the IDs 16..31 |
| `ArmGicLemmas.SpiIdsReachSpecial` | src/lib.rs:64-67 | `spi` returns exactly the IDs 32..1051, i.e. the SPI range plus the special IDs 1020..1051 |
| `SpiBound.SpiEntersSpecialRange` | src/lib.rs:64-67 | `spi(988)` is 1020 and classifies as special; `translate_irq` maps SPI 988 to 1020 and SPI 1019 to 1051 |
| `SpiBound.SpiChecked` | src/lib.rs:64-67 | with the index bounded by 988, it returns what `spi` returns, and the ID always classifies as the SPI it was built from |
| `SpiBound.TranslateIrqChecked` | src/lib.rs:116-122 | with the SPI bound 988, every result is below 1020 and classifies back to the class and index given; SGI and PPI translation is unchanged |
| `SpiBound.SpiCheckedIdsAreSpiRange` | src/lib.rs:64-67 | with the corrected bound, `spi` returns exactly 32..1019, and the three constructors together return exactly 0..1019 |

## Left out

- The `GenericArmGic` trait (src/lib.rs:197-221): it holds only signatures with no bodies and no contracts; its behaviour lives in the hardware backends. No acknowledge/complete state machine is modelled because no shown code implements one.
- The modules `gic_v2`, `gic_v3`, `sysregs` and `registers`: they program hardware registers through MMIO and system registers; they are not part of this model.
- The text written by the `Debug` impl: only the classification it prints is modelled, not the `Formatter` output.
- The derived `Eq`/`Ord` of `IntId`: Dafny's datatype equality is the same comparison by value; the ordering has no function of its own.
- Crate attributes, `no_std` and feature flags.

## Findings

| source | as written | input that shows it | evidently intended | confidence | as-written member | corrected member |
|---|---|---|---|---|---|---|
| src/lib.rs:64-67 and src/lib.rs:116-122 | the SPI index is checked against `SPECIAL_START` (1020), the first special ID | index 988: `spi(988)` and `translate_irq(988, SPI)` give 1020, a special ID, not an SPI | the index is checked against the number of SPIs, `GIC_MAX_IRQ - SPI_START` (988), so every result is an SPI | medium, not executed | `SpiBound.SpiEntersSpecialRange` | `SpiBound.SpiCheckedIdsAreSpiRange` |
