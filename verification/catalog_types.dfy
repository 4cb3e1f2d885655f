/**
 Basic vocabulary of the deep-sky-object catalog: 32-bit catalog numbers,
 the wrap-around counter used for automatic numbering, the four object
 kinds and the object record itself.
 */
module CatalogTypes {

  datatype Option<T> = None | Some(value: T)

  /** Number of distinct values of a 32-bit unsigned integer. */
  const NumberRange: int := 0x1_0000_0000

  /** AstroCatalog::IndexNumber, a 32-bit unsigned catalog number. */
  type CatalogNumber = x: int | 0 <= x < 0x1_0000_0000

  /** The reserved "no such object" catalog number. */
  const InvalidIndex: CatalogNumber := 0xFFFF_FFFF

  /** Placeholder magnitude of an object whose catalog entry gives none. */
  const DefaultAbsMagnitude: real := -1000.0

  /** The four concrete deep-sky object classes a catalog record can create. */
  datatype DsoKind = Galaxy | Globular | Nebula | OpenCluster

  /** A deep-sky object as the database sees it: its class, its catalog
      number and its absolute magnitude (all other fields belong to the
      subtype loaders and are not modelled). */
  datatype Dso = Dso(kind: DsoKind, catalogNumber: CatalogNumber, absMag: real)

  /** Unsigned 32-bit post-decrement: the counter wraps from 0 to 0xFFFFFFFF. */
  function Decrement(n: CatalogNumber): (r: CatalogNumber)
    ensures (r + 1) % NumberRange == n
    ensures n > 0 ==> r < n
  {
    if n == 0 then 0xFFFF_FFFF else n - 1
  }

  /** The i-th number handed out by an automatic counter that starts at start
      (numbering from 0): start decremented i times. */
  function AutoNumber(start: CatalogNumber, i: nat): CatalogNumber
  {
    if i == 0 then start else Decrement(AutoNumber(start, i - 1))
  }

  /** Decrementing the counter once more yields the next automatic number. */
  lemma AutoNumberStep(start: CatalogNumber, i: nat)
    ensures AutoNumber(start, i + 1) == Decrement(AutoNumber(start, i))
  {
  }

  /** The i-th automatic number is start - i in 32-bit unsigned arithmetic. */
  lemma {:induction false} AutoNumberModular(start: CatalogNumber, i: nat)
    ensures AutoNumber(start, i) == (start - i) % NumberRange
  {
    if i > 0 {
      AutoNumberModular(start, i - 1);
      var a := AutoNumber(start, i - 1);
      var q := (start - (i - 1)) / NumberRange;
      assert start - (i - 1) == q * NumberRange + a;
      if a == 0 {
        assert start - i == (q - 1) * NumberRange + 0xFFFF_FFFF;
      } else {
        assert start - i == q * NumberRange + (a - 1);
      }
    }
  }

  /** Fewer than 2^32 automatic numbers in a row never repeat. */
  lemma AutoNumbersDistinct(start: CatalogNumber, i: nat, j: nat)
    requires i < j < NumberRange
    ensures AutoNumber(start, i) != AutoNumber(start, j)
  {
    AutoNumberModular(start, i);
    AutoNumberModular(start, j);
    var qi := (start - i) / NumberRange;
    var qj := (start - j) / NumberRange;
    assert start - i == qi * NumberRange + AutoNumber(start, i);
    assert start - j == qj * NumberRange + AutoNumber(start, j);
    if qi <= qj {
      assert start - i <= qj * NumberRange + AutoNumber(start, i);
    } else {
      assert qj * NumberRange <= (qi - 1) * NumberRange;
    }
  }

  /** As long as the counter has not wrapped, automatic numbers strictly decrease. */
  lemma AutoNumbersDecrease(start: CatalogNumber, i: nat, j: nat)
    requires i < j <= start
    ensures AutoNumber(start, j) < AutoNumber(start, i)
  {
    AutoNumberModular(start, i);
    AutoNumberModular(start, j);
    assert AutoNumber(start, i) == start - i;
    assert AutoNumber(start, j) == start - j;
  }
}
