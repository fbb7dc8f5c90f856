/** Wander points: a ring buffer of map positions a player's wandering
    creatures may head for, refilled a few slabs at a time by a cursor that
    sweeps the slab map and wraps around at its end. */
module WanderPoints {
  import opened Common
  import opened MapGeometry

  /** A subtile position stored in the ring. */
  datatype WanderPoint = WanderPoint(stlX: nat, stlY: nat)

  /** The position a subtile number decodes to. */
  function PointOf(stlNum: nat, tilesX: nat): WanderPoint
  {
    WanderPoint(StlNumDecodeX(stlNum, tilesX), StlNumDecodeY(stlNum, tilesX))
  }

  function PointsOf(stlNums: seq<nat>, tilesX: nat): (r: seq<WanderPoint>)
    ensures |r| == |stlNums|
    ensures forall j :: 0 <= j < |stlNums| ==> r[j] == PointOf(stlNums[j], tilesX)
  {
    if |stlNums| == 0 then [] else [PointOf(stlNums[0], tilesX)] + PointsOf(stlNums[1..], tilesX)
  }

  /** The most recent `size` elements of `s` (all of them when there are
      fewer): what a ring of that size still holds. */
  function Window<T>(s: seq<T>, size: nat): (r: seq<T>)
    ensures |r| == Min(|s|, size)
  {
    if |s| <= size then s else s[|s| - size..]
  }

  /** Adding to a full ring drops the oldest element. */
  function Push<T>(recent: seq<T>, x: T, size: nat): seq<T>
    requires size > 0
  {
    if |recent| < size then recent + [x] else recent[1..] + [x]
  }

  /** Pushing onto a window of a history gives the window of the longer
      history. */
  lemma PushWindow<T>(s: seq<T>, x: T, size: nat)
    requires size > 0
    ensures Push(Window(s, size), x, size) == Window(s + [x], size)
  {
    if |s| >= size {
      assert Window(s, size)[1..] + [x] == (s + [x])[|s| + 1 - size..];
    }
  }

  function PushAll<T>(recent: seq<T>, xs: seq<T>, size: nat): seq<T>
    requires size > 0
    decreases |xs|
  {
    if |xs| == 0 then recent else PushAll(Push(recent, xs[0], size), xs[1..], size)
  }

  /** However many points are added, the ring holds the most recent ones:
      the window of the whole history. */
  lemma {:induction false} PushAllWindow<T>(s: seq<T>, xs: seq<T>, size: nat)
    requires size > 0
    ensures PushAll(Window(s, size), xs, size) == Window(s + xs, size)
    decreases |xs|
  {
    if |xs| > 0 {
      var s' := s + [xs[0]];
      calc {
        PushAll(Window(s, size), xs, size);
        PushAll(Push(Window(s, size), xs[0], size), xs[1..], size);
        { PushWindow(s, xs[0], size); }
        PushAll(Window(s', size), xs[1..], size);
        { PushAllWindow(s', xs[1..], size); }
        Window(s' + xs[1..], size);
        { assert s' + xs[1..] == s + xs; }
        Window(s + xs, size);
      }
    }
  }

  /** The ring slot written `back + 1` additions before the one that left
      the insertion index at `insert`. */
  function Slot(insert: nat, back: nat, size: nat): (r: nat)
    requires insert < size && back < size
    ensures r < size
  {
    if back < insert then insert - 1 - back else insert - 1 - back + size
  }

  /** The insertion index after one addition. */
  function NextInsert(insert: nat, size: nat): (r: nat)
    requires insert < size
    ensures r == (insert + 1) % size
  {
    if insert + 1 == size then 0 else insert + 1
  }

  /** Position of sample `i` of `count` points when only `maxToStore` of
      them are kept: floor(0.1 + i * count / maxToStore), computed exactly. */
  function SampleIndex(i: nat, count: nat, maxToStore: nat): nat
    requires maxToStore > 0
  {
    (maxToStore + 10 * i * count) / (10 * maxToStore)
  }

  /** Samples are evenly spread: each lies inside the list and lies past the
      previous one. */
  lemma SampleIndexBounds(i: nat, count: nat, maxToStore: nat)
    requires 0 < maxToStore < count && i < maxToStore
    ensures SampleIndex(i, count, maxToStore) < count
    ensures i + 1 < maxToStore ==> SampleIndex(i, count, maxToStore) < SampleIndex(i + 1, count, maxToStore)
  {
    var d := 10 * maxToStore;
    var a := maxToStore + 10 * i * count;
    var q := a / d;
    assert q * d <= a;
    // the last sample is short of the end of the list
    MulLe(i, maxToStore - 1, 10 * count);
    assert 10 * i * count == i * (10 * count);
    assert (maxToStore - 1) * (10 * count) == 10 * maxToStore * count - 10 * count;
    assert a < count * d by {
      assert count * d == 10 * maxToStore * count;
    }
    MulLe(count, q, d);
    // consecutive samples are more than one step apart
    var a' := maxToStore + 10 * (i + 1) * count;
    assert a' == a + 10 * count;
    assert a' >= a + d;
    assert (q + 1) * d == q * d + d;
    DivAtLeast(a', d, q + 1);
  }

  /** Sample `i` of the list. */
  function SampleAt(stlNums: seq<nat>, count: nat, maxToStore: nat, i: nat): nat
    requires count <= |stlNums| && 0 < maxToStore < count && i < maxToStore
  {
    SampleIndexBounds(i, count, maxToStore);
    stlNums[SampleIndex(i, count, maxToStore)]
  }

  /** The points store_wander_points_up_to adds, in order: all of them, or
      `maxToStore` evenly spaced ones. */
  function Selected(stlNums: seq<nat>, count: nat, maxToStore: int): (r: seq<nat>)
    requires count <= |stlNums|
    ensures count <= maxToStore ==> r == stlNums[..count]
    ensures count > maxToStore ==> |r| == (if maxToStore > 0 then maxToStore else 0)
    ensures count > maxToStore && maxToStore > 0 ==>
              forall i :: 0 <= i < maxToStore ==> r[i] == SampleAt(stlNums, count, maxToStore, i)
  {
    if count <= maxToStore then stlNums[..count]
    else if maxToStore <= 0 then []
    else seq(maxToStore, i requires 0 <= i < maxToStore => SampleAt(stlNums, count, maxToStore, i))
  }

  /** The maximal number of points one update collects (LOCAL_LIST_SIZE). */
  const LOCAL_LIST_SIZE: nat := 20

  /** Outcome of one cursor sweep: the subtiles found, where the cursor
      stopped, and whether the sweep stopped because the local list was full. */
  datatype Scan = Scan(found: seq<nat>, cursor: nat, full: bool)

  /** The sweep of wander_point_update from slab `slbNum` after `i` of
      `numCheck` steps, on a map of `slabCount` slabs. */
  function ScanFrom(posValid: nat -> bool, tilesX: nat, slabCount: nat, start: nat, numCheck: nat,
                    stopAtMax: bool, maxFound: int, slbNum: nat, i: nat, found: seq<nat>): (r: Scan)
    requires tilesX > 0 && slbNum < slabCount && i <= numCheck
    decreases numCheck - i
  {
    if i == numCheck then Scan(found, slbNum, false)
    else
      var stlNum := SlabCentreSubtile(slbNum, tilesX);
      if posValid(stlNum) && |found| >= LOCAL_LIST_SIZE then Scan(found, slbNum, true)
      else
        var found' := if posValid(stlNum) then found + [stlNum] else found;
        if posValid(stlNum) && stopAtMax && |found'| == maxFound then Scan(found', (numCheck + start) % slabCount, false)
        else
          var next := if slbNum + 1 >= slabCount then 0 else slbNum + 1;
          ScanFrom(posValid, tilesX, slabCount, start, numCheck, stopAtMax, maxFound, next, i + 1, found')
  }

  /** The sweep keeps at most LOCAL_LIST_SIZE points, all of them valid
      positions, leaves the cursor on the map, and unless the list filled up
      moves the cursor exactly `numCheck` slabs on, wrapping at the end. */
  lemma {:induction false} ScanProperties(posValid: nat -> bool, tilesX: nat, slabCount: nat, start: nat,
      numCheck: nat, stopAtMax: bool, maxFound: int, slbNum: nat, i: nat, found: seq<nat>)
    requires tilesX > 0 && slbNum < slabCount && i <= numCheck
    requires |found| <= LOCAL_LIST_SIZE && forall j :: 0 <= j < |found| ==> posValid(found[j])
    requires slbNum == (start + i) % slabCount
    ensures var r := ScanFrom(posValid, tilesX, slabCount, start, numCheck, stopAtMax, maxFound, slbNum, i, found);
            && |r.found| <= LOCAL_LIST_SIZE
            && (forall j :: 0 <= j < |r.found| ==> posValid(r.found[j]))
            && r.cursor < slabCount
            && (!r.full ==> r.cursor == (start + numCheck) % slabCount)
    decreases numCheck - i
  {
    if i == numCheck {
    } else {
      var stlNum := SlabCentreSubtile(slbNum, tilesX);
      if posValid(stlNum) && |found| >= LOCAL_LIST_SIZE {
      } else {
        var found' := if posValid(stlNum) then found + [stlNum] else found;
        if posValid(stlNum) && stopAtMax && |found'| == maxFound {
        } else {
          var next := if slbNum + 1 >= slabCount then 0 else slbNum + 1;
          ModNext(start + i, slabCount);
          ScanProperties(posValid, tilesX, slabCount, start, numCheck, stopAtMax, maxFound, next, i + 1, found');
        }
      }
    }
  }

  /** Stepping a wrapping cursor is adding one modulo the map size. */
  lemma ModNext(x: nat, n: nat)
    requires n > 0
    ensures (if x % n + 1 >= n then 0 else x % n + 1) == (x + 1) % n
  {
    var q, r := x / n, x % n;
    assert x == q * n + r;
    if r + 1 >= n {
      assert x + 1 == (q + 1) * n;
      ModOfMultiple(q + 1, n);
    } else {
      ModSmallRemainder(q, r + 1, n);
    }
  }

  lemma ModOfMultiple(k: nat, n: nat)
    requires n > 0
    ensures (k * n) % n == 0
  {
    ModSmallRemainder(k, 0, n);
  }

  lemma ModSmallRemainder(q: nat, r: nat, n: nat)
    requires r < n
    ensures (q * n + r) % n == r
  {
    var x := q * n + r;
    var q', r' := x / n, x % n;
    assert q' * n + r' == q * n + r;
    assert (q + 1) * n == q * n + n;
    assert (q' + 1) * n == q' * n + n;
    MulLe(q + 1, q', n);
    MulLe(q' + 1, q, n);
  }

  /** The ring of wander points of one player.  `Recent` is the sequence of
      stored points from oldest to newest. */
  class Wander {
    const points: array<WanderPoint>
    var pointInsertIdx: nat
    var pointsCount: nat
    var lastCheckedSlbNum: nat
    var numCheckPerRun: nat
    var maxFoundPerCheck: int
    /** Stop a sweep as soon as `maxFoundPerCheck` points are found
        (wdrfield_14 != 0 in the source). */
    var stopAtMaxFound: bool
    ghost var Recent: seq<WanderPoint>

    ghost predicate Valid()
      reads this, points
    {
      && points.Length > 0
      && pointInsertIdx < points.Length
      && pointsCount <= points.Length
      && |Recent| == pointsCount
      && forall j :: 0 <= j < pointsCount ==>
           Recent[j] == points[Slot(pointInsertIdx, pointsCount - 1 - j, points.Length)]
    }

    /** The wander ring as wander_point_initialise leaves it before its first
        sweep: empty, cursor at slab 0, 20 slabs per update and 4 points per
        sweep. */
    constructor (size: nat)
      requires size > 0
      ensures Valid() && fresh(points) && points.Length == size
      ensures Recent == [] && lastCheckedSlbNum == 0 && numCheckPerRun == 20
      ensures maxFoundPerCheck == 4 && !stopAtMaxFound
    {
      points := new WanderPoint[size](_ => WanderPoint(0, 0));
      pointInsertIdx, pointsCount, lastCheckedSlbNum := 0, 0, 0;
      numCheckPerRun, maxFoundPerCheck, stopAtMaxFound := 20, 4, false;
      Recent := [];
    }

    /** wander_point_add: store the position of `stlNum` at the insertion
        index, advance the index around the ring, count up to the ring size. */
    method Add(stlNum: nat, tilesX: nat)
      requires Valid()
      modifies this`pointInsertIdx, this`pointsCount, this`Recent, points
      ensures Valid()
      ensures Recent == Push(old(Recent), PointOf(stlNum, tilesX), points.Length)
      ensures pointInsertIdx == (old(pointInsertIdx) + 1) % points.Length
      ensures pointsCount == if old(pointsCount) < points.Length then old(pointsCount) + 1 else old(pointsCount)
    {
      var i := pointInsertIdx;
      points[i] := PointOf(stlNum, tilesX);
      pointInsertIdx := NextInsert(i, points.Length);
      if pointsCount < points.Length {
        pointsCount := pointsCount + 1;
      }
      Recent := Push(Recent, PointOf(stlNum, tilesX), points.Length);
      forall j | 0 <= j < pointsCount
        ensures Recent[j] == points[Slot(pointInsertIdx, pointsCount - 1 - j, points.Length)]
      {
        if j < pointsCount - 1 {
          assert Slot(pointInsertIdx, pointsCount - 1 - j, points.Length)
              == Slot(i, pointsCount - 2 - j, points.Length) != i;
        }
      }
    }

    /** The sampling loop of store_wander_points_up_to. */
    method AddSamples(stlNums: seq<nat>, count: nat, maxToStore: nat, tilesX: nat)
      requires Valid() && count <= |stlNums| && 0 < maxToStore < count
      modifies this`pointInsertIdx, this`pointsCount, this`Recent, points
      ensures Valid()
      ensures Recent == PushAll(old(Recent), PointsOf(Selected(stlNums, count, maxToStore), tilesX), points.Length)
    {
      ghost var sel := PointsOf(Selected(stlNums, count, maxToStore), tilesX);
      for i := 0 to maxToStore
        invariant Valid()
        invariant Recent == PushAll(old(Recent), sel[..i], points.Length)
      {
        assert sel[..i + 1] == sel[..i] + [sel[i]];
        PushAllSnoc(old(Recent), sel[..i], sel[i], points.Length);
        Add(SampleAt(stlNums, count, maxToStore, i), tilesX);
      }
      assert sel[..maxToStore] == sel;
    }

    /** The add-all loop of store_wander_points_up_to. */
    method AddFirst(stlNums: seq<nat>, count: nat, tilesX: nat)
      requires Valid() && count <= |stlNums|
      modifies this`pointInsertIdx, this`pointsCount, this`Recent, points
      ensures Valid()
      ensures Recent == PushAll(old(Recent), PointsOf(stlNums[..count], tilesX), points.Length)
    {
      ghost var sel := PointsOf(stlNums[..count], tilesX);
      for i := 0 to count
        invariant Valid()
        invariant Recent == PushAll(old(Recent), sel[..i], points.Length)
      {
        assert sel[..i + 1] == sel[..i] + [sel[i]];
        PushAllSnoc(old(Recent), sel[..i], sel[i], points.Length);
        Add(stlNums[i], tilesX);
      }
      assert sel[..count] == sel;
    }

    /** store_wander_points_up_to: add the first `count` subtiles of
        `stlNums`, or, when there are more than `maxToStore`, `maxToStore`
        evenly spaced ones (nothing at all when this ring's per-sweep
        maximum is not positive). */
    method StoreUpTo(stlNums: seq<nat>, count: nat, maxToStore: int, tilesX: nat) returns (r: bool)
      requires Valid() && count <= |stlNums|
      modifies this`pointInsertIdx, this`pointsCount, this`Recent, points
      ensures Valid() && r
      ensures count > maxToStore && maxFoundPerCheck <= 0 ==> Recent == old(Recent)
      ensures !(count > maxToStore && maxFoundPerCheck <= 0) ==>
                Recent == PushAll(old(Recent), PointsOf(Selected(stlNums, count, maxToStore), tilesX), points.Length)
    {
      if count > maxToStore {
        if maxFoundPerCheck <= 0 {
          return true;
        }
        ModSmallRemainder(0, pointInsertIdx, points.Length);
        pointInsertIdx := pointInsertIdx % points.Length;
        if maxToStore > 0 {
          AddSamples(stlNums, count, maxToStore, tilesX);
        } else {
          assert PointsOf(Selected(stlNums, count, maxToStore), tilesX) == [];
        }
      } else {
        AddFirst(stlNums, count, tilesX);
      }
      return true;
    }

    /** wander_point_update: sweep `numCheckPerRun` slabs from the cursor,
        collecting the centres of those `posValid` accepts, move the cursor
        on, and store what was found.  Always returns 1. */
    method Update(posValid: nat -> bool, tilesX: nat, tilesY: nat) returns (r: int)
      requires Valid() && tilesX * tilesY > 0 && lastCheckedSlbNum < tilesX * tilesY
      modifies this`pointInsertIdx, this`pointsCount, this`Recent, this`lastCheckedSlbNum, points
      ensures Valid() && r == 1
      ensures var scan := ScanFrom(posValid, tilesX, tilesX * tilesY, old(lastCheckedSlbNum), numCheckPerRun,
                                   stopAtMaxFound, maxFoundPerCheck, old(lastCheckedSlbNum), 0, []);
              && lastCheckedSlbNum == scan.cursor
              && (|scan.found| == 0 || (|scan.found| > maxFoundPerCheck && maxFoundPerCheck <= 0) ==> Recent == old(Recent))
              && (|scan.found| > 0 && !(|scan.found| > maxFoundPerCheck && maxFoundPerCheck <= 0) ==>
                    Recent == PushAll(old(Recent),
                                      PointsOf(Selected(scan.found, |scan.found|, maxFoundPerCheck), tilesX),
                                      points.Length))
    {
      var slabCount: nat := tilesX * tilesY;
      WidthPositive(0, tilesX, tilesY);
      ghost var goal := ScanFrom(posValid, tilesX, slabCount, lastCheckedSlbNum, numCheckPerRun,
                                 stopAtMaxFound, maxFoundPerCheck, lastCheckedSlbNum, 0, []);
      var slbNum: nat := lastCheckedSlbNum;
      var found: seq<nat> := [];
      var i: nat := 0;
      while i < numCheckPerRun
        invariant i <= numCheckPerRun && slbNum < slabCount
        invariant ScanFrom(posValid, tilesX, slabCount, lastCheckedSlbNum, numCheckPerRun,
                           stopAtMaxFound, maxFoundPerCheck, slbNum, i, found) == goal
        decreases numCheckPerRun - i
      {
        var stlNum := SlabCentreSubtile(slbNum, tilesX);
        if posValid(stlNum) {
          if |found| >= LOCAL_LIST_SIZE {
            break;
          }
          found := found + [stlNum];
          if stopAtMaxFound && |found| == maxFoundPerCheck {
            slbNum := (numCheckPerRun + lastCheckedSlbNum) % slabCount;
            break;
          }
        }
        slbNum := slbNum + 1;
        if slbNum >= slabCount {
          slbNum := 0;
        }
        i := i + 1;
      }
      lastCheckedSlbNum := slbNum;
      if |found| <= 0 {
        return 1;
      }
      var _ := StoreUpTo(found, |found|, maxFoundPerCheck, tilesX);
      return 1;
    }
  }

  /** Pushing one more element after a batch. */
  lemma {:induction false} PushAllSnoc<T>(recent: seq<T>, xs: seq<T>, x: T, size: nat)
    requires size > 0
    ensures PushAll(recent, xs + [x], size) == Push(PushAll(recent, xs, size), x, size)
    decreases |xs|
  {
    if |xs| == 0 {
      assert [] + [x] == [x];
      assert [x][1..] == [];
    } else {
      assert (xs + [x])[0] == xs[0];
      assert (xs + [x])[1..] == xs[1..] + [x];
      PushAllSnoc(Push(recent, xs[0], size), xs[1..], x, size);
    }
  }

  /** The ring always holds the most recent points added since it was
      empty, however often it has wrapped. */
  lemma RingHoldsLatest(added: seq<WanderPoint>, size: nat)
    requires size > 0
    ensures PushAll([], added, size) == Window(added, size)
  {
    PushAllWindow([], added, size);
    assert [] + added == added;
  }
}
