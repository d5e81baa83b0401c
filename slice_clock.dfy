/**
 * The arithmetic shared by every slice-namer revision: the wall clock
 * (milliseconds) is turned into a slice identity (epoch, slice index),
 * the window is walked backward one slice at a time, and identities are
 * written as "<epoch>_<index>".
 */
module SliceClock {
  import opened Wrappers
  import Decimal

  /** The three numbers a namer's constructor stores. */
  datatype Timing = Timing(ratePeriodMillis: int, numberOfSlices: int, sliceSizeMillis: int) {
    predicate Valid() {
      numberOfSlices >= 1 && sliceSizeMillis >= 1000 && ratePeriodMillis >= 1000
    }
  }

  /** A slice identity: which whole window (epoch) and which slice inside it. */
  datatype SliceId = SliceId(epoch: int, index: int)

  /**
   * The constructor derivation of every namer: the period in milliseconds,
   * and the slice size as whole seconds (Java's truncating division of two
   * positive numbers) times 1000. The slice size is the largest whole number
   * of seconds such that numberOfSlices slices fit in the period.
   */
  function FromSeconds(ratePeriodSeconds: int, numberOfSlices: int): (t: Timing)
    requires 1 <= numberOfSlices <= ratePeriodSeconds
    ensures t.Valid()
    ensures t.numberOfSlices == numberOfSlices && t.ratePeriodMillis == ratePeriodSeconds * 1000
    ensures t.sliceSizeMillis % 1000 == 0
    ensures t.sliceSizeMillis * numberOfSlices <= t.ratePeriodMillis
    ensures t.ratePeriodMillis < (t.sliceSizeMillis + 1000) * numberOfSlices
  {
    var q := ratePeriodSeconds / numberOfSlices;
    assert q * numberOfSlices <= ratePeriodSeconds < (q + 1) * numberOfSlices;
    assert q * 1000 * numberOfSlices == q * numberOfSlices * 1000;
    assert (q * 1000 + 1000) * numberOfSlices == (q + 1) * numberOfSlices * 1000;
    Timing(ratePeriodSeconds * 1000, numberOfSlices, q * 1000)
  }

  /**
   * The slice containing `now`: the epoch is the number of whole periods
   * before `now`, the index is the slice number modulo the slice count.
   */
  function CurrentSlice(t: Timing, now: int): (id: SliceId)
    requires t.Valid() && now >= 0
    ensures 0 <= id.index < t.numberOfSlices
    ensures 0 <= id.epoch && id.epoch * t.ratePeriodMillis <= now < (id.epoch + 1) * t.ratePeriodMillis
  {
    SliceId(now / t.ratePeriodMillis, (now / t.sliceSizeMillis) % t.numberOfSlices)
  }

  /** One step backward: the index drops by one, wrapping from 0 to N-1 into the previous epoch. */
  function Prev(t: Timing, id: SliceId): SliceId {
    if id.index == 0 then SliceId(id.epoch - 1, t.numberOfSlices - 1) else SliceId(id.epoch, id.index - 1)
  }

  /** The position of a slice on a single time line of slices (a reference numbering for the walk). */
  function Ordinal(t: Timing, id: SliceId): int {
    id.epoch * t.numberOfSlices + id.index
  }

  /** `k` identities, starting at `id` and each the predecessor of the one before. */
  function Walk(t: Timing, id: SliceId, k: nat): seq<SliceId>
    decreases k
  {
    if k == 0 then [] else [id] + Walk(t, Prev(t, id), k - 1)
  }

  /** The slice count's worth of identities, most recent first, starting at the current slice. */
  function AllSlices(t: Timing, now: int): seq<SliceId>
    requires t.Valid() && now >= 0
  {
    Walk(t, CurrentSlice(t, now), t.numberOfSlices)
  }

  /** "<epoch>_<index>", each part as Java renders a long. */
  function SliceName(id: SliceId): string {
    Decimal.IntToString(id.epoch) + "_" + Decimal.IntToString(id.index)
  }

  /** The names of `Walk(t, id, k)`, in the same order. */
  function WalkNames(t: Timing, id: SliceId, k: nat): seq<string>
    decreases k
  {
    if k == 0 then [] else [SliceName(id)] + WalkNames(t, Prev(t, id), k - 1)
  }

  /** The names of all slices of the window ending at `now`, most recent first. */
  function AllSliceNames(t: Timing, now: int): seq<string>
    requires t.Valid() && now >= 0
  {
    WalkNames(t, CurrentSlice(t, now), t.numberOfSlices)
  }

  /** The first position of `c` in `s`, or -1. */
  function IndexOf(s: string, c: char): (i: int)
    ensures -1 <= i < |s|
    ensures i >= 0 ==> s[i] == c && c !in s[..i]
    ensures i == -1 ==> c !in s
    decreases |s|
  {
    if |s| == 0 then -1
    else if s[0] == c then 0
    else
      var k := IndexOf(s[1..], c);
      if k < 0 then -1 else k + 1
  }

  /** Splits a name at its first '_' and reads both halves as integers. */
  function ParseSliceName(s: string): Option<SliceId> {
    var u := IndexOf(s, '_');
    if u < 0 then None
    else
      match (Decimal.ParseInt(s[..u]), Decimal.ParseInt(s[u + 1..]))
      case (Some(e), Some(k)) => Some(SliceId(e, k))
      case _ => None
  }

  /** A slice name is split at its one '_' back into the epoch and the index. */
  lemma SliceNameRoundTrip(id: SliceId)
    ensures ParseSliceName(SliceName(id)) == Some(id)
  {
    var a := Decimal.IntToString(id.epoch);
    var b := Decimal.IntToString(id.index);
    var s := a + "_" + b;
    Decimal.IntToStringShape(id.epoch);
    assert s[|a|] == '_';
    var u := IndexOf(s, '_');
    assert u == |a|;
    assert s[..u] == a && s[u + 1..] == b;
    Decimal.IntRoundTrip(id.epoch);
    Decimal.IntRoundTrip(id.index);
  }

  /** A slice name holds only digits, '-' and '_'; in particular no '~'. */
  lemma SliceNameChars(id: SliceId)
    ensures forall k :: 0 <= k < |SliceName(id)| ==>
              Decimal.IsDigit(SliceName(id)[k]) || SliceName(id)[k] == '-' || SliceName(id)[k] == '_'
    ensures '~' !in SliceName(id)
  {
    Decimal.IntToStringShape(id.epoch);
    Decimal.IntToStringShape(id.index);
  }

  /** Different identities get different names. */
  lemma SliceNameInjective(a: SliceId, b: SliceId)
    requires SliceName(a) == SliceName(b)
    ensures a == b
  {
    SliceNameRoundTrip(a);
    SliceNameRoundTrip(b);
  }

  /**
   * The walk from `id`: `k` identities, each the predecessor of the one
   * before, every index in [0, N), and the ordinals consecutive and
   * decreasing from that of `id`.
   */
  lemma {:induction false} WalkOrdinals(t: Timing, id: SliceId, k: nat)
    requires t.Valid() && 0 <= id.index < t.numberOfSlices
    ensures |Walk(t, id, k)| == k
    ensures forall i :: 0 <= i < k - 1 ==> Walk(t, id, k)[i + 1] == Prev(t, Walk(t, id, k)[i])
    ensures forall i :: 0 <= i < k ==>
              0 <= Walk(t, id, k)[i].index < t.numberOfSlices &&
              Ordinal(t, Walk(t, id, k)[i]) == Ordinal(t, id) - i
    decreases k
  {
    if k > 0 {
      var p := Prev(t, id);
      if id.index == 0 {
        assert (id.epoch - 1) * t.numberOfSlices == id.epoch * t.numberOfSlices - t.numberOfSlices;
      }
      assert Ordinal(t, p) == Ordinal(t, id) - 1;
      WalkOrdinals(t, p, k - 1);
      var w := Walk(t, id, k);
      assert w == [id] + Walk(t, p, k - 1);
      forall i | 1 <= i < k
        ensures w[i] == Walk(t, p, k - 1)[i - 1]
      {
      }
    }
  }

  /** `WalkNames` holds the names of `Walk`, position by position. */
  lemma {:induction false} WalkNamesAt(t: Timing, id: SliceId, k: nat)
    ensures |WalkNames(t, id, k)| == |Walk(t, id, k)| == k
    ensures forall i :: 0 <= i < k ==> WalkNames(t, id, k)[i] == SliceName(Walk(t, id, k)[i])
    decreases k
  {
    if k > 0 {
      WalkNamesAt(t, Prev(t, id), k - 1);
    }
  }

  /**
   * The walk over the window: N identities, the first the current slice,
   * each the predecessor of the one before, every index in [0, N), and the
   * ordinals consecutive and decreasing, so that all N are distinct.
   */
  lemma AllSlicesWindow(t: Timing, now: int)
    requires t.Valid() && now >= 0
    ensures |AllSlices(t, now)| == t.numberOfSlices
    ensures AllSlices(t, now)[0] == CurrentSlice(t, now)
    ensures forall i :: 0 <= i < t.numberOfSlices - 1 ==> AllSlices(t, now)[i + 1] == Prev(t, AllSlices(t, now)[i])
    ensures forall i :: 0 <= i < t.numberOfSlices ==>
              0 <= AllSlices(t, now)[i].index < t.numberOfSlices &&
              Ordinal(t, AllSlices(t, now)[i]) == Ordinal(t, CurrentSlice(t, now)) - i
    ensures forall i, j :: 0 <= i < j < t.numberOfSlices ==> AllSlices(t, now)[i] != AllSlices(t, now)[j]
  {
    WalkOrdinals(t, CurrentSlice(t, now), t.numberOfSlices);
  }

  /**
   * The names of the window: N of them, the first the current slice's name,
   * each one parsing back to its identity, and no two alike.
   */
  lemma AllSliceNamesWindow(t: Timing, now: int)
    requires t.Valid() && now >= 0
    ensures |AllSliceNames(t, now)| == |AllSlices(t, now)| == t.numberOfSlices
    ensures AllSliceNames(t, now)[0] == SliceName(CurrentSlice(t, now))
    ensures forall i :: 0 <= i < t.numberOfSlices ==> ParseSliceName(AllSliceNames(t, now)[i]) == Some(AllSlices(t, now)[i])
    ensures forall i, j :: 0 <= i < j < t.numberOfSlices ==> AllSliceNames(t, now)[i] != AllSliceNames(t, now)[j]
  {
    AllSlicesWindow(t, now);
    WalkNamesAt(t, CurrentSlice(t, now), t.numberOfSlices);
    var slices := AllSlices(t, now);
    var names := AllSliceNames(t, now);
    forall i | 0 <= i < t.numberOfSlices
      ensures ParseSliceName(names[i]) == Some(slices[i])
    {
      SliceNameRoundTrip(slices[i]);
    }
    forall i, j | 0 <= i < j < t.numberOfSlices
      ensures names[i] != names[j]
    {
      if names[i] == names[j] {
        SliceNameInjective(slices[i], slices[j]);
      }
    }
  }
}
