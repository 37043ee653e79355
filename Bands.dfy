/** The arithmetic of the bands into which the blend operations cut one axis.

    The plain-PPM blend cuts an extent of e units among n images proportionally:
    image i owns [Cut(i), Cut(i+1)) with Cut(i) = floor(i*e/n).  The generic
    (crop/paste) blend gives every image the same width c = e div n: image i owns
    [i*c, (i+1)*c) and the last e mod n units belong to nobody. */
module Bands {

  // ---------------------------------------------------------------------------
  // Small facts about Euclidean division on non-negative numbers

  lemma MulLe(a: int, b: int, d: nat)
    requires a <= b
    ensures a * d <= b * d
  {
  }

  /** q*d <= a gives q <= a/d. */
  lemma DivLower(q: int, a: int, d: int)
    requires d > 0 && q * d <= a
    ensures q <= a / d
  {
    var r := a / d;
    if r < q {
      MulLe(r + 1, q, d);
    }
  }

  /** a < q*d gives a/d < q. */
  lemma DivUpper(q: int, a: int, d: int)
    requires d > 0 && a < q * d
    ensures a / d < q
  {
    var r := a / d;
    if r >= q {
      MulLe(q, r, d);
    }
  }

  lemma DivUnique(q: int, a: int, d: int)
    requires d > 0 && q * d <= a < q * d + d
    ensures a / d == q && a % d == a - q * d
  {
    DivLower(q, a, d);
    DivUpper(q + 1, a, d);
  }

  lemma ModSmall(x: int, m: int)
    requires 0 <= x < m
    ensures x % m == x
  {
    DivUnique(0, x, m);
  }

  lemma DivMonotone(a: int, b: int, d: int)
    requires d > 0 && a <= b
    ensures a / d <= b / d
  {
    DivLower(a / d, b, d);
  }

  // ---------------------------------------------------------------------------
  // Proportional bands (plain-PPM blend)

  /** Where band i starts: floor(i*extent/n). */
  function Cut(i: nat, extent: nat, n: nat): nat
    requires n >= 1
  {
    i * extent / n
  }

  lemma CutMonotone(i: nat, j: nat, extent: nat, n: nat)
    requires n >= 1 && i <= j
    ensures Cut(i, extent, n) <= Cut(j, extent, n)
  {
    MulLe(i, j, extent);
    DivMonotone(i * extent, j * extent, n);
  }

  /** The first band starts at 0 and the last one ends at the extent. */
  lemma CutEnds(extent: nat, n: nat)
    requires n >= 1
    ensures Cut(0, extent, n) == 0 && Cut(n, extent, n) == extent
  {
    DivUnique(extent, n * extent, n);
  }

  /** Every band but the one after the last starts inside the extent. */
  lemma CutInside(i: nat, extent: nat, n: nat)
    requires n >= 1 && i < n
    ensures Cut(i, extent, n) <= extent
    ensures extent >= 1 ==> Cut(i, extent, n) < extent && Cut(i + 1, extent, n) <= extent
  {
    CutMonotone(i, n, extent, n);
    CutMonotone(i + 1, n, extent, n);
    CutEnds(extent, n);
    if extent >= 1 {
      assert i * extent < extent * n by {
        MulLe(i + 1, n, extent);
      }
      DivUpper(extent, i * extent, n);
    }
  }

  /** The image whose band holds position k: the bands cover [0, extent). */
  function Owner(k: nat, extent: nat, n: nat): (o: nat)
    requires n >= 1 && k < extent
    ensures o < n
    ensures Cut(o, extent, n) <= k < Cut(o + 1, extent, n)
  {
    OwnerBounds(k, extent, n);
    ((k + 1) * n - 1) / extent
  }

  lemma OwnerBounds(k: nat, extent: nat, n: nat)
    requires n >= 1 && k < extent
    ensures ((k + 1) * n - 1) / extent < n
    ensures Cut(((k + 1) * n - 1) / extent, extent, n) <= k
    ensures k < Cut(((k + 1) * n - 1) / extent + 1, extent, n)
  {
    var x := (k + 1) * n - 1;
    var o := x / extent;
    assert o * extent <= x < o * extent + extent;
    OwnerStartsBefore(k, extent, n, o);
    OwnerEndsAfter(k, extent, n, o);
    MulLe(k + 1, extent, n);
    DivUpper(n, x, extent);
  }

  lemma OwnerStartsBefore(k: nat, extent: nat, n: nat, o: nat)
    requires n >= 1 && o * extent <= (k + 1) * n - 1
    ensures Cut(o, extent, n) <= k
  {
    DivUpper(k + 1, o * extent, n);
  }

  lemma OwnerEndsAfter(k: nat, extent: nat, n: nat, o: nat)
    requires n >= 1 && (k + 1) * n - 1 < o * extent + extent
    ensures k < Cut(o + 1, extent, n)
  {
    assert (o + 1) * extent == o * extent + extent;
    DivLower(k + 1, (o + 1) * extent, n);
  }

  /** Bands do not overlap: the owner of a position in band i is image i. */
  lemma {:induction false} OwnerUnique(i: nat, k: nat, extent: nat, n: nat)
    requires n >= 1 && i < n && Cut(i, extent, n) <= k < Cut(i + 1, extent, n)
    ensures k < extent && Owner(k, extent, n) == i
  {
    CutInside(i, extent, n);
    var o := Owner(k, extent, n);
    if o < i {
      CutMonotone(o + 1, i, extent, n);
    } else if o > i {
      CutMonotone(i + 1, o, extent, n);
    }
  }

  /** Three images over two columns: the first band is empty, the second image owns
      column 0 and the third column 1. */
  lemma ThreeBandsOverTwo()
    ensures Cut(0, 2, 3) == Cut(1, 2, 3) == 0
    ensures Owner(0, 2, 3) == 1 && Owner(1, 2, 3) == 2
  {
    OwnerUnique(1, 0, 2, 3);
    OwnerUnique(2, 1, 2, 3);
  }

  /** How many of the positions 0..k-1 the owner map gives to image i. */
  function OwnedCount(i: nat, k: nat, extent: nat, n: nat): nat
    requires n >= 1 && k <= extent
  {
    if k == 0 then 0
    else OwnedCount(i, k - 1, extent, n) + (if Owner(k - 1, extent, n) == i then 1 else 0)
  }

  /** Image i owns exactly the positions of [Cut(i), Cut(i+1)) that lie below k. */
  lemma {:induction false} OwnedCountIsBand(i: nat, k: nat, extent: nat, n: nat)
    requires n >= 1 && i < n && k <= extent
    ensures OwnedCount(i, k, extent, n) ==
      if k <= Cut(i, extent, n) then 0
      else if k <= Cut(i + 1, extent, n) then k - Cut(i, extent, n)
      else Cut(i + 1, extent, n) - Cut(i, extent, n)
  {
    CutMonotone(i, i + 1, extent, n);
    if k > 0 {
      OwnedCountIsBand(i, k - 1, extent, n);
      if Cut(i, extent, n) <= k - 1 < Cut(i + 1, extent, n) {
        OwnerUnique(i, k - 1, extent, n);
      } else {
        var o := Owner(k - 1, extent, n);
        assert o != i;
      }
    }
  }

  /** Positions owned by images 0..m-1 together. */
  function OwnedTotal(m: nat, extent: nat, n: nat): nat
    requires n >= 1 && m <= n
  {
    if m == 0 then 0 else OwnedTotal(m - 1, extent, n) + OwnedCount(m - 1, extent, extent, n)
  }

  /** Images 0..m-1 own exactly the positions before band m ... */
  lemma {:induction false} OwnedTotalIsCut(m: nat, extent: nat, n: nat)
    requires n >= 1 && m <= n
    ensures OwnedTotal(m, extent, n) == Cut(m, extent, n)
  {
    if m == 0 {
      CutEnds(extent, n);
    } else {
      OwnedTotalIsCut(m - 1, extent, n);
      OwnedCountIsBand(m - 1, extent, extent, n);
      CutMonotone(m - 1, m, extent, n);
      CutMonotone(m, n, extent, n);
      CutEnds(extent, n);
    }
  }

  /** ... so the owner counts of all n images add up to the extent: every position
      is owned by exactly one image. */
  lemma OwnersCoverExtent(extent: nat, n: nat)
    requires n >= 1
    ensures OwnedTotal(n, extent, n) == extent
  {
    OwnedTotalIsCut(n, extent, n);
    CutEnds(extent, n);
  }

  /** The marker after image i of a row (i*extent as a numerator over n), reduced modulo
      the extent the way the row loop reduces it, and the column range it produces. */
  lemma LeftoffColumns(i: nat, extent: nat, n: nat)
    requires n >= 1 && i < n && extent >= 1
    ensures (i * extent / n) % extent == Cut(i, extent, n)
    ensures ((i * extent + extent) / n) % (extent + 1) == Cut(i + 1, extent, n)
  {
    CutInside(i, extent, n);
    ModSmall(Cut(i, extent, n), extent);
    assert i * extent + extent == (i + 1) * extent;
    ModSmall(Cut(i + 1, extent, n), extent + 1);
  }

  /** Advancing the marker past image i: it moves on to the next band, and back to 0
      after the last image of the row. */
  lemma LeftoffAdvance(i: nat, extent: nat, n: nat)
    requires n >= 1 && i < n && extent >= 1
    ensures (i * extent + extent) % (extent * n) == if i + 1 < n then (i + 1) * extent else 0
  {
    assert i * extent + extent == (i + 1) * extent;
    if i + 1 < n {
      MulLe(i + 2, n, extent);
      ModSmall((i + 1) * extent, extent * n);
    } else {
      DivUnique(1, extent * n, extent * n);
    }
  }

  /** One pass of the image loop: with the marker at image i's numerator, the column
      range it yields is image i's band and the marker moves on as LeftoffAdvance says. */
  lemma LeftoffStep(i: nat, extent: nat, n: nat, leftoff: nat)
    requires n >= 1 && i < n && extent >= 1 && leftoff == i * extent
    ensures (leftoff / n) % extent == Cut(i, extent, n)
    ensures ((leftoff + extent) / n) % (extent + 1) == Cut(i + 1, extent, n)
    ensures Cut(i, extent, n) <= Cut(i + 1, extent, n) <= extent
    ensures (leftoff + extent) % (extent * n) == if i + 1 < n then (i + 1) * extent else 0
  {
    LeftoffColumns(i, extent, n);
    LeftoffAdvance(i, extent, n);
    CutMonotone(i, i + 1, extent, n);
    CutInside(i, extent, n);
  }

  // ---------------------------------------------------------------------------
  // Even bands (generic crop/paste blend)

  /** The common band width: int(extent / n). */
  function BandWidth(extent: nat, n: nat): nat
    requires n >= 1
  {
    extent / n
  }

  /** The n even bands fit in the extent and leave exactly extent mod n units over. */
  lemma EvenBandsFit(i: nat, extent: nat, n: nat)
    requires n >= 1 && i <= n
    ensures i * BandWidth(extent, n) <= n * BandWidth(extent, n) <= extent
    ensures extent - n * BandWidth(extent, n) == extent % n
  {
    MulLe(i, n, BandWidth(extent, n));
  }

  /** The crop/paste marker after image i, (leftoff + c) % extent, is (i+1)*c as long as
      another image follows: it never wraps inside the loop. */
  lemma EvenLeftoffAdvance(i: nat, extent: nat, n: nat)
    requires n >= 1 && i + 1 < n && extent >= 1
    ensures (i * BandWidth(extent, n) + BandWidth(extent, n)) % extent == (i + 1) * BandWidth(extent, n)
  {
    var c := BandWidth(extent, n);
    assert i * c + c == (i + 1) * c;
    MulLe(i + 2, n, c);
    EvenBandsFit(n, extent, n);
    assert (i + 1) * c < extent by {
      if c == 0 {
      } else {
        assert (i + 2) * c == (i + 1) * c + c;
      }
    }
    ModSmall((i + 1) * c, extent);
  }

  /** The far edge of box i, (leftoff + c) % (extent + 1), is (i+1)*c. */
  lemma EvenBoxEnd(i: nat, extent: nat, n: nat)
    requires n >= 1 && i < n
    ensures (i * BandWidth(extent, n) + BandWidth(extent, n)) % (extent + 1) == (i + 1) * BandWidth(extent, n)
  {
    var c := BandWidth(extent, n);
    assert i * c + c == (i + 1) * c;
    EvenBandsFit(i + 1, extent, n);
    ModSmall((i + 1) * c, extent + 1);
  }

  /** int(leftoff + h / n) for an integer leftoff is leftoff + int(h / n). */
  lemma FloorShift(a: nat, extent: nat, n: nat)
    requires n >= 1
    ensures (a * n + extent) / n == a + BandWidth(extent, n)
  {
    var q := extent / n;
    assert (a + q) * n == a * n + q * n;
    DivUnique(a + q, a * n + extent, n);
  }
}
