/**
 * Whether the window the namers walk is the window the counters were
 * written in. The current name takes its epoch from the period and its
 * index from the slice number, while the walk back treats N slices as
 * one epoch. The two agree when the period is exactly N slices; when the
 * truncated slice size leaves a remainder, the names read at the end of
 * a period are not the names recently counted under.
 */
module SliceAlignment {
  import opened SliceClock
  import opened Arithmetic

  /** Two identities with in-range indices and the same ordinal are the same identity. */
  lemma OrdinalDetermines(t: Timing, a: SliceId, b: SliceId)
    requires t.Valid()
    requires 0 <= a.index < t.numberOfSlices && 0 <= b.index < t.numberOfSlices
    requires Ordinal(t, a) == Ordinal(t, b)
    ensures a == b
  {
    DivUnique(Ordinal(t, a), t.numberOfSlices, a.epoch);
    DivUnique(Ordinal(t, b), t.numberOfSlices, b.epoch);
  }

  /**
   * The corrected current slice: epoch and index both from the slice
   * number, so that N consecutive slices make one epoch. Its ordinal is
   * the number of whole slices before `now`.
   */
  function AlignedSlice(t: Timing, now: int): (id: SliceId)
    requires t.Valid() && now >= 0
    ensures 0 <= id.index < t.numberOfSlices
    ensures Ordinal(t, id) == now / t.sliceSizeMillis
  {
    var slice := now / t.sliceSizeMillis;
    SliceId(slice / t.numberOfSlices, slice % t.numberOfSlices)
  }

  /**
   * With the corrected slice, position i of the walk is exactly the slice
   * that was current i slices ago, for every configuration.
   */
  lemma AlignedWindowHistory(t: Timing, now: int, i: int)
    requires t.Valid() && 0 <= i < t.numberOfSlices && now >= i * t.sliceSizeMillis
    ensures |Walk(t, AlignedSlice(t, now), t.numberOfSlices)| == t.numberOfSlices
    ensures Walk(t, AlignedSlice(t, now), t.numberOfSlices)[i] == AlignedSlice(t, now - i * t.sliceSizeMillis)
  {
    var id := AlignedSlice(t, now);
    WalkOrdinals(t, id, t.numberOfSlices);
    var size := t.sliceSizeMillis;
    assert size * i == i * size;
    DivShift(now, size, i);
    OrdinalDetermines(t, Walk(t, id, t.numberOfSlices)[i], AlignedSlice(t, now - i * size));
  }

  /** When the period is exactly N slices, the code's current slice is the corrected one. */
  lemma CurrentIsAlignedWhenDivisible(t: Timing, now: int)
    requires t.Valid() && now >= 0
    requires t.ratePeriodMillis == t.sliceSizeMillis * t.numberOfSlices
    ensures CurrentSlice(t, now) == AlignedSlice(t, now)
  {
    var size, n := t.sliceSizeMillis, t.numberOfSlices;
    var slice := now / size;
    var q, r := slice / n, slice % n;
    DivBounds(now, size);
    assert slice == q * n + r;
    assert q * (size * n) == (q * n) * size;
    assert slice * size == (q * n) * size + r * size;
    MulMono(r, n - 1, size);
    assert (n - 1) * size + size == size * n;
    DivUnique(now, size * n, q);
  }

  /**
   * So for a period that is a whole number of slices, the window the code
   * reads at `now` holds, at position i, the slice it counted into i slices
   * earlier.
   */
  lemma WindowHistoryWhenDivisible(t: Timing, now: int, i: int)
    requires t.Valid() && t.ratePeriodMillis == t.sliceSizeMillis * t.numberOfSlices
    requires 0 <= i < t.numberOfSlices && now >= i * t.sliceSizeMillis
    ensures |AllSlices(t, now)| == t.numberOfSlices
    ensures AllSlices(t, now)[i] == CurrentSlice(t, now - i * t.sliceSizeMillis)
  {
    CurrentIsAlignedWhenDivisible(t, now);
    CurrentIsAlignedWhenDivisible(t, now - i * t.sliceSizeMillis);
    AlignedWindowHistory(t, now, i);
  }

  /** The window walks down from the current slice's ordinal, so no slice numbered above it is read. */
  lemma AboveWindow(t: Timing, now: int, id: SliceId)
    requires t.Valid() && now >= 0
    requires Ordinal(t, id) > Ordinal(t, CurrentSlice(t, now))
    ensures id !in AllSlices(t, now)
  {
    AllSlicesWindow(t, now);
    var w := AllSlices(t, now);
    forall i | 0 <= i < |w|
      ensures w[i] != id
    {
      assert Ordinal(t, w[i]) < Ordinal(t, id);
    }
  }

  /**
   * As written, with a 300 second period in 7 slices (42 s each, 294 s in
   * all): 42 s before 299 s the code counted into slice 0_6, but the window
   * it reads at 299 s is 0_0 and -1_6 down to -1_1, so that slice (and every
   * slice counted in the 252 s before it) is missed although it lies
   * inside the period.
   */
  lemma MisalignedWindow(t: Timing)
    requires t == FromSeconds(300, 7)
    ensures t == Timing(300000, 7, 42000)
    ensures CurrentSlice(t, 257000) == SliceId(0, 6)
    ensures SliceId(0, 6) !in AllSlices(t, 299000)
  {
    assert t == Timing(300000, 7, 42000) by {
      DivUnique(300, 7, 42);
    }
    assert CurrentSlice(t, 257000) == SliceId(0, 6) by {
      DivUnique(257000, 300000, 0);
      DivUnique(257000, 42000, 6);
    }
    assert CurrentSlice(t, 299000) == SliceId(0, 0) by {
      DivUnique(299000, 300000, 0);
      DivUnique(299000, 42000, 7);
    }
    AboveWindow(t, 299000, SliceId(0, 6));
  }
  /**
   * The effect lasts for most of every later epoch. Same configuration: at
   * 590 s the current slice is 1_0, and the window behind it is 0_6 down to
   * 0_1, the previous epoch's slices. Slice 0_1 (counted 506 to 548 s
   * earlier) is read, and slice 1_2, counted into at 400 s, is not.
   */
  lemma PreviousEpochWindow(t: Timing)
    requires t == FromSeconds(300, 7)
    ensures CurrentSlice(t, 590000) == SliceId(1, 0)
    ensures |AllSlices(t, 590000)| == 7 && AllSlices(t, 590000)[6] == SliceId(0, 1)
    ensures CurrentSlice(t, 42000) == SliceId(0, 1)
    ensures CurrentSlice(t, 400000) == SliceId(1, 2)
    ensures SliceId(1, 2) !in AllSlices(t, 590000)
  {
    assert t == Timing(300000, 7, 42000) by {
      DivUnique(300, 7, 42);
    }
    assert CurrentSlice(t, 590000) == SliceId(1, 0) by {
      DivUnique(590000, 300000, 1);
      DivUnique(590000, 42000, 14);
      DivUnique(14, 7, 2);
    }
    assert CurrentSlice(t, 42000) == SliceId(0, 1) by {
      DivUnique(42000, 300000, 0);
      DivUnique(42000, 42000, 1);
    }
    assert CurrentSlice(t, 400000) == SliceId(1, 2) by {
      DivUnique(400000, 300000, 1);
      DivUnique(400000, 42000, 9);
      DivUnique(9, 7, 1);
    }
    AllSlicesWindow(t, 590000);
    OrdinalDetermines(t, AllSlices(t, 590000)[6], SliceId(0, 1));
    AboveWindow(t, 590000, SliceId(1, 2));
  }
}
