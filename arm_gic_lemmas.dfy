/**
  Properties of the interrupt-identifier layer: how the constructors, the
  translation and the diagnostic classification fit together, the unit
  test's values, the conversions, and the ID ranges each constructor
  reaches.
 */
module ArmGicLemmas {
  import opened ArmGic

  /** `is_sgi`, `is_private` and the first special ID split the IDs into
      the classes the constructors produce: an ID is an SGI exactly when
      `sgi` returns it, a PPI exactly when `ppi` does, an SPI exactly when
      `spi` returns it below 1020, and special exactly when none of them
      does. The three constructor images are pairwise disjoint. */
  lemma RangePartition(id: IntId)
    ensures id.IsSgi() <==> id in SgiIds()
    ensures id.IsPrivate() && !id.IsSgi() <==> id in PpiIds()
    ensures !id.IsPrivate() && id.value < SPECIAL_START <==> id in SpiIds() && id.value < SPECIAL_START
    ensures id.value >= SPECIAL_START <==>
              id !in SgiIds() && id !in PpiIds() && !(id in SpiIds() && id.value < SPECIAL_START)
    ensures SgiIds() !! PpiIds() && PpiIds() !! SpiIds() && SgiIds() !! SpiIds()
  {
    SgiIdsAreSgiRange();
    PpiIdsArePpiRange();
    SpiIdsReachSpecial();
  }

  /** Each constructor's ID is classified back to the class and index it
      was built from; an SPI index of 988 or more gives a special ID. */
  lemma ConstructorsDescribed(i: usize)
    ensures i < PPI_START ==> IntId.Sgi(i).Describe() == Class(SGI, i)
    ensures i < SPI_START - PPI_START ==> IntId.Ppi(i).Describe() == Class(PPI, i)
    ensures i < SPECIAL_START - SPI_START ==> IntId.Spi(i).Describe() == Class(SPI, i)
    ensures SPECIAL_START - SPI_START <= i < SPECIAL_START ==>
              IntId.Spi(i).Describe() == Special(SPI_START + i)
  {
  }

  /** Classifying any ID below 1020 and feeding the index back through the
      matching constructor gives the same ID. */
  lemma DescribeRoundTrip(g: usize)
    requires g < SPECIAL_START
    ensures match IntId(g).Describe()
            case Class(SGI, n) => n < PPI_START && IntId.Sgi(n) == IntId(g)
            case Class(PPI, n) => n < SPI_START - PPI_START && IntId.Ppi(n) == IntId(g)
            case Class(SPI, n) => n < SPECIAL_START && IntId.Spi(n) == IntId(g)
            case Special(_) => false
  {
  }

  /** The values the unit test of `translate_irq` checks. */
  lemma TranslateIrqUnitTest()
    ensures TranslateIrq(0, SGI) == Some(0)
    ensures TranslateIrq(0, PPI) == Some(16)
    ensures TranslateIrq(0, SPI) == Some(32)
    ensures TranslateIrq(16, SGI) == None
    ensures TranslateIrq(16, PPI) == None
    ensures TranslateIrq(16, SPI) == Some(48)
    ensures TranslateIrq(32, SGI) == None
    ensures TranslateIrq(32, PPI) == None
    ensures TranslateIrq(32, SPI) == Some(64)
  {
  }

  /** `usize` to `IntId` and back is the identity in both directions. */
  lemma UsizeRoundTrip(id: usize, intId: IntId)
    ensures ToUsize(FromUsize(id)) == id
    ensures FromUsize(ToUsize(intId)) == intId
  {
  }

  /** The `u32` conversion is lossy above 2^32 - 1: two different IDs can
      convert to the same `u32`. */
  lemma ToU32Truncates()
    ensures ToU32(FromUsize(U32_LIMIT as usize + 5)) == ToU32(FromUsize(5)) == 5
  {
  }

  /** The IDs with values in [lo, hi). */
  ghost function IdRange(lo: usize, hi: usize): (ids: set<IntId>)
    ensures forall id :: id in ids <==> lo <= id.value < hi
  {
    set g: usize | lo <= g < hi :: IntId(g)
  }

  /** The IDs each constructor can return. */
  ghost function SgiIds(): (ids: set<IntId>)
  {
    set i: usize | 0 <= i < PPI_START :: IntId.Sgi(i)
  }

  ghost function PpiIds(): (ids: set<IntId>)
  {
    set i: usize | 0 <= i < SPI_START - PPI_START :: IntId.Ppi(i)
  }

  ghost function SpiIds(): (ids: set<IntId>)
  {
    set i: usize | 0 <= i < SPECIAL_START :: IntId.Spi(i)
  }

  /** `sgi` reaches exactly the SGI range [0, 16). */
  lemma SgiIdsAreSgiRange()
    ensures SgiIds() == IdRange(SGI_START, PPI_START)
  {
    forall id | id in IdRange(SGI_START, PPI_START) ensures id in SgiIds() {
      assert id == IntId.Sgi(id.value);
    }
  }

  /** `ppi` reaches exactly the PPI range [16, 32). */
  lemma PpiIdsArePpiRange()
    ensures PpiIds() == IdRange(PPI_START, SPI_START)
  {
    forall id | id in IdRange(PPI_START, SPI_START) ensures id in PpiIds() {
      assert id == IntId.Ppi(id.value - PPI_START);
    }
  }

  /** `spi` reaches [32, 1052): the SPI range and the 32 special IDs
      1020..1051 above it. */
  lemma SpiIdsReachSpecial()
    ensures SpiIds() == IdRange(SPI_START, SPECIAL_START) + IdRange(SPECIAL_START, SPECIAL_START + SPI_START)
  {
    var reached := IdRange(SPI_START, SPECIAL_START) + IdRange(SPECIAL_START, SPECIAL_START + SPI_START);
    forall id | id in reached ensures id in SpiIds() {
      assert id == IntId.Spi(id.value - SPI_START);
    }
  }
}
