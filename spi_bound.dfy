/**
  The bound on SPI indices. `spi` and `translate_irq` accept every SPI
  index below 1020, the first special ID, although only 1020 - 32 = 988
  SPIs exist; indices 988..1019 yield the special IDs 1020..1051. This
  module exhibits that input and gives the bound that keeps every result
  inside the SPI range [32, 1020).
 */
module SpiBound {
  import opened ArmGic
  import opened ArmGicLemmas

  /** As written: the largest accepted SPI indices produce special IDs,
      which the classification then reports as special, not as SPIs. */
  lemma SpiEntersSpecialRange()
    ensures IntId.Spi(988).value == SPECIAL_START
    ensures IntId.Spi(988).Describe() == Special(1020)
    ensures TranslateIrq(988, SPI) == Some(1020)
    ensures TranslateIrq(1019, SPI) == Some(1051)
  {
  }

  /** The number of SPIs the architecture defines. */
  const SPI_COUNT: usize := GIC_MAX_IRQ - SPI_START

  /** `spi` with its index bounded by the number of SPIs: on that domain
      it agrees with `spi`, and the result is always an SPI that
      classifies back to the index it came from. */
  function SpiChecked(spi: usize): (id: IntId)
    requires spi < SPI_COUNT
    ensures id == IntId.Spi(spi)
    ensures id.Describe() == Class(SPI, spi)
  {
    IntId(SPI_START + spi)
  }

  /** `translate_irq` with the same bound for SPIs: every result is a
      non-special ID whose classification is the class and index given. */
  function TranslateIrqChecked(id: usize, intType: InterruptType): (r: Option<usize>)
    ensures intType != SPI ==> r == TranslateIrq(id, intType)
    ensures intType == SPI ==> (r.Some? <==> id < SPI_COUNT)
    ensures r.Some? ==> r.value < SPECIAL_START && IntId(r.value).Describe() == Class(intType, id)
  {
    if intType == SPI && id >= SPI_COUNT then None else TranslateIrq(id, intType)
  }

  ghost function SpiCheckedIds(): (ids: set<IntId>)
  {
    set i: usize | 0 <= i < SPI_COUNT :: SpiChecked(i)
  }

  /** With the corrected bound the SPI constructor reaches exactly the SPI
      range [32, 1020), so the three constructors together reach exactly
      the non-special IDs [0, 1020). */
  lemma SpiCheckedIdsAreSpiRange()
    ensures SpiCheckedIds() == IdRange(SPI_START, SPECIAL_START)
    ensures SgiIds() + PpiIds() + SpiCheckedIds() == IdRange(0, SPECIAL_START)
  {
    forall id | id in IdRange(SPI_START, SPECIAL_START) ensures id in SpiCheckedIds() {
      assert id == SpiChecked(id.value - SPI_START);
    }
    SgiIdsAreSgiRange();
    PpiIdsArePpiRange();
  }
}
