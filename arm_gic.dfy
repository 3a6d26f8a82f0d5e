/**
  The interrupt-identifier layer of an ARM Generic Interrupt Controller
  driver: the `IntId` value, its three class constructors, the fallible
  class translation, the diagnostic classification of an identifier and
  the integer conversions.

  INTID ranges follow the ARM Generic Interrupt Controller Architecture
  Specification (GICv3/v4, IHI 0069, section 2.2 "INTIDs"): SGIs are
  0..15, PPIs 16..31, SPIs 32..1019, and 1020..1023 are the
  architecture's special IDs. The code classifies every ID from 1020 up
  as special.
 */
module ArmGic {

  /** The target is aarch64, so `usize` is 64 bits wide. */
  const USIZE_LIMIT: int := 0x1_0000_0000_0000_0000
  const U32_LIMIT: int := 0x1_0000_0000

  newtype usize = x: int | 0 <= x < USIZE_LIMIT
  newtype u32 = x: int | 0 <= x < U32_LIMIT

  datatype Option<+T> = None | Some(value: T)

  /** Maximum number of interrupts supported by the GIC. */
  const GIC_MAX_IRQ: usize := 1020

  /** First ID of each class, and the first special ID. */
  const SGI_START: usize := 0
  const PPI_START: usize := 16
  const SPI_START: usize := 32
  const SPECIAL_START: usize := 1020

  /** The classes of interrupt the GIC handles. */
  datatype InterruptType = SGI | PPI | SPI

  /** What the diagnostic rendering of an identifier shows: its class and
      the index relative to that class, or the raw value of a special ID. */
  datatype Description = Class(ty: InterruptType, index: usize) | Special(value: usize)

  /** An interrupt ID. Any `usize` is representable; only the class
      constructors check ranges. */
  datatype IntId = IntId(value: usize) {

    /** Software Generated Interrupt number `sgi`; the source asserts
        `sgi < 16` and panics otherwise. */
    static function Sgi(sgi: usize): (id: IntId)
      requires sgi < PPI_START
      ensures id.IsSgi()
    {
      IntId(SGI_START + sgi)
    }

    /** Private Peripheral Interrupt number `ppi`; asserts `ppi < 16`. */
    static function Ppi(ppi: usize): (id: IntId)
      requires ppi < SPI_START - PPI_START
      ensures id.IsPrivate() && !id.IsSgi()
    {
      IntId(PPI_START + ppi)
    }

    /** Shared Peripheral Interrupt number `spi`. The assertion bounds the
        index by the first special ID rather than by the number of SPIs,
        so the 32 largest accepted indices give special IDs. */
    static function Spi(spi: usize): (id: IntId)
      requires spi < SPECIAL_START
      ensures !id.IsPrivate()
      ensures id.value < SPECIAL_START <==> spi < SPECIAL_START - SPI_START
    {
      IntId(SPI_START + spi)
    }

    /** Whether this is a Software Generated Interrupt. */
    function IsSgi(): (r: bool)
      ensures r ==> IsPrivate()
    {
      value < PPI_START
    }

    /** Whether this ID is private to a core, i.e. an SGI or a PPI. */
    function IsPrivate(): (r: bool)
      ensures r <==> (SGI_START <= value < PPI_START) || (PPI_START <= value < SPI_START)
    {
      value < SPI_START
    }

    /** The classification made by the `Debug` rendering. */
    function Describe(): (d: Description)
      ensures (d.Class? && d.ty == SGI) <==> IsSgi()
      ensures (d.Class? && d.ty == PPI) <==> IsPrivate() && !IsSgi()
      ensures (d.Class? && d.ty == SPI) <==> !IsPrivate() && value < SPECIAL_START
      ensures d == Special(value) <==> value >= SPECIAL_START
      ensures d.Class? ==> TranslateIrq(d.index, d.ty) == Some(value)
    {
      if value < PPI_START then Class(SGI, value - SGI_START)
      else if value < SPI_START then Class(PPI, value - PPI_START)
      else if value < SPECIAL_START then Class(SPI, value - SPI_START)
      else Special(value)
    }
  }

  /** Translate an interrupt of a given class to a GIC INTID; the fallible
      counterpart of the constructors: `Some` exactly when the matching
      constructor's assertion would hold, and then that constructor's ID. */
  function TranslateIrq(id: usize, intType: InterruptType): (r: Option<usize>)
    ensures intType == SGI ==> (r.Some? <==> id < PPI_START)
    ensures intType == SGI && r.Some? ==> r.value == IntId.Sgi(id).value
    ensures intType == PPI ==> (r.Some? <==> id < SPI_START - PPI_START)
    ensures intType == PPI && r.Some? ==> r.value == IntId.Ppi(id).value
    ensures intType == SPI ==> (r.Some? <==> id < SPECIAL_START)
    ensures intType == SPI && r.Some? ==> r.value == IntId.Spi(id).value
  {
    match intType
    case SGI => if id < PPI_START then Some(id) else None
    case PPI => if id < SPI_START - PPI_START then Some(id + PPI_START) else None
    case SPI => if id < SPECIAL_START then Some(id + SPI_START) else None
  }

  /** `From<IntId> for usize`. */
  function ToUsize(intId: IntId): (id: usize)
    ensures IntId(id) == intId
  {
    intId.value
  }

  /** `From<usize> for IntId`: total, no range check. */
  function FromUsize(id: usize): (intId: IntId)
    ensures ToUsize(intId) == id
  {
    IntId(id)
  }

  /** `From<IntId> for u32`: an `as` cast, keeping the low 32 bits. */
  function ToU32(intId: IntId): (w: u32)
    ensures intId.value as int < U32_LIMIT ==> w as int == intId.value as int
    ensures (intId.value as int - w as int) % U32_LIMIT == 0
  {
    (intId.value as int % U32_LIMIT) as u32
  }

  /** Interrupt trigger mode, with the discriminants `Edge = 0`, `Level = 1`. */
  datatype TriggerMode = Edge | Level {
    function Discriminant(): (d: nat)
      ensures d < 2
      ensures d == 0 <==> this == Edge
    {
      match this
      case Edge => 0
      case Level => 1
    }
  }
}
