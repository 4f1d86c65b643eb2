/**
 * The list of time points on the capture screen. Times are captured into the
 * first point that has none yet, or into a new point at the end; finished
 * points can be hidden, which saves them to a temporary directory (or keeps
 * them in memory when that write fails); the review brings every hidden point
 * back and orders the whole list by raw time.
 */
module TimePointsAdapters {
  import opened Strings
  import opened TimePoints
  import opened Sorting

  // ---------------------------------------------------------------------------
  // The list, as values

  /** What `setTime` makes of a point. */
  function SetTimeOf(p: Point, t: Long): Point
  {
    Point(t, p.participant, false, p.participant != "")
  }

  /** The position of the first empty point, or |ps| when there is none. */
  function FirstEmpty(ps: seq<Point>): (k: nat)
    ensures k <= |ps|
    ensures k < |ps| ==> ps[k].isEmpty
    ensures forall j | 0 <= j < k :: !ps[j].isEmpty
  {
    if ps == [] || ps[0].isEmpty then 0 else 1 + FirstEmpty(ps[1..])
  }

  /** The first empty point is the one with no empty point before it. */
  lemma FirstEmptyAt(ps: seq<Point>, k: nat)
    requires k <= |ps| && (k < |ps| ==> ps[k].isEmpty)
    requires forall j | 0 <= j < k :: !ps[j].isEmpty
    ensures FirstEmpty(ps) == k
  {
  }

  /** What `updateTime(t)` makes of the list. */
  function UpdatedTimes(ps: seq<Point>, t: Long): seq<Point>
  {
    var k := FirstEmpty(ps);
    if k < |ps| then ps[k := SetTimeOf(ps[k], t)] else ps + [Point(t, "", false, false)]
  }
  /** The update once the first empty point is known to be at `k` (|ps| when there is none). */
  lemma UpdatedTimesAt(ps: seq<Point>, k: nat, t: Long)
    requires k <= |ps| && (k < |ps| ==> ps[k].isEmpty)
    requires forall j | 0 <= j < k :: !ps[j].isEmpty
    ensures UpdatedTimes(ps, t) == if k < |ps| then ps[k := SetTimeOf(ps[k], t)] else ps + [Point(t, "", false, false)]
  {
    FirstEmptyAt(ps, k);
  }


  function CountEmpty(ps: seq<Point>): nat
  {
    if ps == [] then 0 else (if ps[0].isEmpty then 1 else 0) + CountEmpty(ps[1..])
  }

  /**
   * A captured time lands on the first empty point, or on a new point at
   * the end when there is none; every point that already has a time keeps
   * it, and nothing else moves.
   */
  lemma UpdateTimeKeepsCaptured(ps: seq<Point>, t: Long)
    ensures var r, k := UpdatedTimes(ps, t), FirstEmpty(ps);
      && (|r| == |ps| <==> k < |ps|)
      && (|r| == |ps| + 1 <==> k == |ps|)
      && k < |r| && r[k].rawTime == t && !r[k].isEmpty
      && (forall i | 0 <= i < |ps| && i != k :: r[i] == ps[i])
      && (forall i | 0 <= i < |ps| && !ps[i].isEmpty :: r[i] == ps[i])
  {
  }

  lemma {:induction false} CountEmptyZero(ps: seq<Point>)
    ensures CountEmpty(ps) == 0 <==> FirstEmpty(ps) == |ps|
  {
    if ps != [] {
      CountEmptyZero(ps[1..]);
    }
  }

  lemma {:induction false} CountEmptyAppend(ps: seq<Point>, p: Point)
    ensures CountEmpty(ps + [p]) == CountEmpty(ps) + (if p.isEmpty then 1 else 0)
  {
    if ps != [] {
      assert (ps + [p])[1..] == ps[1..] + [p];
      CountEmptyAppend(ps[1..], p);
    } else {
      assert [p][1..] == [];
    }
  }

  lemma {:induction false} CountEmptyFill(ps: seq<Point>, k: nat, p: Point)
    requires k < |ps| && ps[k].isEmpty && !p.isEmpty
    ensures CountEmpty(ps[k := p]) == CountEmpty(ps) - 1
  {
    if k > 0 {
      assert ps[k := p][1..] == ps[1..][k - 1 := p];
      CountEmptyFill(ps[1..], k - 1, p);
    } else {
      assert ps[k := p][1..] == ps[1..];
    }
  }

  /** Each captured time uses up one empty point, while there is one. */
  lemma UpdateTimeUsesOneEmpty(ps: seq<Point>, t: Long)
    ensures CountEmpty(UpdatedTimes(ps, t)) == if CountEmpty(ps) == 0 then 0 else CountEmpty(ps) - 1
  {
    var k := FirstEmpty(ps);
    CountEmptyZero(ps);
    if k < |ps| {
      CountEmptyFill(ps, k, SetTimeOf(ps[k], t));
    } else {
      CountEmptyAppend(ps, Point(t, "", false, false));
    }
  }

  /** `hasUnready`: nothing captured at all, or some listed point not ready. */
  predicate Unready(ps: seq<Point>, hidden: nat)
  {
    |ps| + hidden == 0 || exists i | 0 <= i < |ps| :: !ps[i].isReady
  }

  /** A time captured into a new point, or into a point without a range, leaves the list unready. */
  lemma CaptureNeedsRange(ps: seq<Point>, t: Long, hidden: nat)
    requires FirstEmpty(ps) == |ps| || ps[FirstEmpty(ps)].participant == ""
    ensures Unready(UpdatedTimes(ps, t), hidden)
  {
    var r, k := UpdatedTimes(ps, t), FirstEmpty(ps);
    assert k < |r| && !r[k].isReady;
  }

  /** `f` applied to each element in order; None as soon as one application is None. */
  function Traverse<A, B>(f: A -> Option<B>, xs: seq<A>): (r: Option<seq<B>>)
    ensures r.Some? ==> |r.value| == |xs|
  {
    if xs == [] then Some([])
    else
      match f(xs[0])
      case None => None
      case Some(y) =>
        match Traverse(f, xs[1..])
        case None => None
        case Some(ys) => Some([y] + ys)
  }

  /** The traversal succeeds exactly when every application does, and then holds their results. */
  lemma {:induction false} TraverseEach<A, B>(f: A -> Option<B>, xs: seq<A>)
    ensures Traverse(f, xs).Some? <==> forall i | 0 <= i < |xs| :: f(xs[i]).Some?
    ensures Traverse(f, xs).Some? ==> forall i | 0 <= i < |xs| :: Some(Traverse(f, xs).value[i]) == f(xs[i])
    decreases |xs|
  {
    if xs != [] {
      TraverseEach(f, xs[1..]);
      forall i | 1 <= i < |xs| ensures xs[1..][i - 1] == xs[i] {
      }
    }
  }

  /** The lines of the temporary directory parsed in order; None if any line does not parse. */
  function ParseAll(lines: seq<string>): (r: Option<seq<Point>>)
    ensures r.Some? ==> |r.value| == |lines|
  {
    Traverse(Parse, lines)
  }

  /** The read-back succeeds exactly when every line parses, and then holds each line's point. */
  lemma ParseAllEach(lines: seq<string>)
    ensures ParseAll(lines).Some? <==> forall i | 0 <= i < |lines| :: Parse(lines[i]).Some?
    ensures ParseAll(lines).Some? ==> forall i | 0 <= i < |lines| :: Some(ParseAll(lines).value[i]) == Parse(lines[i])
  {
    TraverseEach(Parse, lines);
  }

  /** The serialized forms of points, in order. */
  function SerializeAll(tps: seq<TimePoint>): (r: seq<string>)
    reads tps
    ensures |r| == |tps| && forall i | 0 <= i < |tps| :: r[i] == Serialize(tps[i])
  {
    if tps == [] then [] else [Serialize(tps[0])] + SerializeAll(tps[1..])
  }

  /** A point after a save to the temporary directory and a read back. */
  function Restored(p: Point): Point
  {
    Point(p.rawTime, p.participant, false, p.participant != "")
  }

  /**
   * Points written to the temporary directory come back with their raw times
   * and participant ranges, in the same order, when no range holds `%`.
   */
  lemma SavedPointsReadBack(tps: seq<TimePoint>)
    requires forall i | 0 <= i < |tps| :: SERIALIZE_DELIMITER !in tps[i].participant
    ensures ParseAll(SerializeAll(tps)).Some?
    ensures forall i | 0 <= i < |tps| :: ParseAll(SerializeAll(tps)).value[i] == Restored(tps[i].View())
  {
    var lines := SerializeAll(tps);
    forall i | 0 <= i < |tps| ensures Parse(lines[i]) == Some(Restored(tps[i].View())) {
      ParseSerialize(tps[i]);
    }
    ParseAllEach(lines);
  }

  // ---------------------------------------------------------------------------
  // Distinct objects

  /** No element occurs twice. */
  predicate Distinct<T(==)>(s: seq<T>)
  {
    s == [] || (s[0] !in s[1..] && Distinct(s[1..]))
  }

  /** Distinct exactly when every element is counted at most once. */
  lemma {:induction false} DistinctCounts<T>(s: seq<T>)
    ensures Distinct(s) <==> forall x :: multiset(s)[x] <= 1
    decreases |s|
  {
    if s != [] {
      MultisetCons(s);
      DistinctCounts(s[1..]);
      if forall x :: multiset(s)[x] <= 1 {
        assert multiset(s[1..])[s[0]] == 0;
        assert forall x :: multiset(s[1..])[x] <= multiset(s)[x];
      }
    }
  }

  /** Two positions of a distinct sequence hold different elements. */
  lemma DistinctAt<T>(s: seq<T>, i: nat, j: nat)
    requires Distinct(s) && i < |s| && j < |s| && i != j
    ensures s[i] != s[j]
  {
    DistinctCounts(s);
    if s[i] == s[j] {
      if i < j { TwiceCounted(s, i, j); } else { TwiceCounted(s, j, i); }
    }
  }

  lemma TwiceCounted<T>(s: seq<T>, i: nat, j: nat)
    requires i < j < |s| && s[i] == s[j]
    ensures multiset(s)[s[i]] >= 2
  {
    assert s == s[..i] + [s[i]] + s[i + 1..j] + [s[j]] + s[j + 1..];
  }

  /** A reordering of distinct elements is distinct. */
  lemma DistinctPermutation<T>(a: seq<T>, b: seq<T>)
    requires Distinct(a) && multiset(a) == multiset(b)
    ensures Distinct(b)
  {
    DistinctCounts(a);
    DistinctCounts(b);
  }

  /**
   * Distinct elements, together with distinct elements none of which is
   * among them, in any order, are distinct.
   */
  lemma DistinctUnion<T>(a: seq<T>, c: seq<T>, r: seq<T>)
    requires Distinct(a) && Distinct(c) && forall x | x in c :: x !in a
    requires multiset(r) == multiset(a) + multiset(c)
    ensures Distinct(r)
  {
    DistinctCounts(a);
    DistinctCounts(c);
    forall x ensures multiset(r)[x] <= 1 {
      if x in c {
        assert multiset(a)[x] == 0;
      } else {
        assert multiset(c)[x] == 0;
      }
    }
    DistinctCounts(r);
  }

  // ---------------------------------------------------------------------------
  // Ordering by raw time

  /** The raw time of each listed point. */
  function RawTimes(tps: seq<TimePoint>): (m: map<TimePoint, int>)
    reads tps
    ensures forall tp | tp in tps :: tp in m && m[tp] == tp.rawTime
  {
    map tp | tp in tps :: tp.rawTime
  }

  /** The sort key of `compareTo`, for points whose raw times `m` records. */
  function ByRawTime(m: map<TimePoint, int>): TimePoint -> int
  {
    tp => if tp in m then m[tp] else 0
  }

  /** Sorting by raw time keeps the points and puts their raw times in order. */
  lemma SortedByRawTime(all: seq<TimePoint>, m: map<TimePoint, int>)
    requires forall tp | tp in all :: tp in m && m[tp] == tp.rawTime
    ensures var r := SortBy(all, ByRawTime(m));
      && multiset(r) == multiset(all)
      && forall i, j | 0 <= i < j < |r| :: r[i].rawTime <= r[j].rawTime
  {
    var r := SortBy(all, ByRawTime(m));
    SortBySorted(all, ByRawTime(m));
    forall i | 0 <= i < |r| ensures ByRawTime(m)(r[i]) == r[i].rawTime {
      assert r[i] in multiset(all);
    }
  }

  // ---------------------------------------------------------------------------
  // The adapter

  class TimePointsAdapter {
    /** The points on the screen, in screen order. */
    var timePoints: seq<TimePoint>
    /** Hidden points whose save to the temporary directory failed. */
    var saveFailedTimePoints: seq<TimePoint>
    /** The contents of the temporary directory: one serialized point per file. */
    var tempDir: seq<string>
    var maxParticipant: Int32
    var isReviewMode: bool
    /** How many points have been hidden. */
    var hiddenTimepoints: nat

    /** The listed and the held-back points are distinct objects. */
    ghost predicate Valid()
      reads this
    {
      Distinct(timePoints + saveFailedTimePoints)
    }

    /** An empty list, with whatever the temporary directory already holds. */
    constructor (leftovers: seq<string>)
      ensures Valid()
      ensures timePoints == [] && saveFailedTimePoints == [] && tempDir == leftovers
      ensures maxParticipant == -1 && !isReviewMode && hiddenTimepoints == 0
    {
      timePoints := [];
      saveFailedTimePoints := [];
      tempDir := leftovers;
      maxParticipant := -1;
      isReviewMode := false;
      hiddenTimepoints := 0;
    }

    /** `destroy`: both lists and the temporary directory are emptied. */
    method Destroy()
      modifies this`timePoints, this`saveFailedTimePoints, this`tempDir
      ensures Valid()
      ensures timePoints == [] && saveFailedTimePoints == [] && tempDir == []
    {
      timePoints := [];
      saveFailedTimePoints := [];
      tempDir := [];
    }

    method SetMaxParticipant(maxParticipant: Int32)
      modifies this`maxParticipant
      ensures this.maxParticipant == maxParticipant
    {
      this.maxParticipant := maxParticipant;
    }

    /** `addTimePoint`: the point goes to the end and nothing else changes. */
    method AddTimePoint(tp: TimePoint)
      requires Valid() && tp !in timePoints && tp !in saveFailedTimePoints
      modifies this`timePoints
      ensures Valid()
      ensures timePoints == old(timePoints) + [tp]
    {
      DistinctUnion(timePoints + saveFailedTimePoints, [tp], timePoints + [tp] + saveFailedTimePoints);
      timePoints := timePoints + [tp];
    }

    /** `updateTime`: the time goes into the first empty point, or into a new point at the end. */
    method UpdateTime(rawTime: Long)
      requires Valid()
      modifies this`timePoints, set tp | tp in timePoints
      ensures Valid()
      ensures Views(timePoints) == UpdatedTimes(old(Views(timePoints)), rawTime)
      ensures |timePoints| == |old(timePoints)| ==> timePoints == old(timePoints)
      ensures |timePoints| > |old(timePoints)| ==>
        timePoints[..|old(timePoints)|] == old(timePoints) && fresh(timePoints[|old(timePoints)|])
    {
      var firstEmptyTimePointPos := FirstEmptyPosition();
      if firstEmptyTimePointPos >= 0 {
        FillFirstEmpty(firstEmptyTimePointPos, rawTime);
      } else {
        AppendTime(rawTime);
      }
    }

    /** The first empty point, at `k`, takes the time. */
    method FillFirstEmpty(k: nat, rawTime: Long)
      requires Valid() && k < |timePoints| && timePoints[k].isEmpty
      requires forall j | 0 <= j < k :: !timePoints[j].isEmpty
      modifies timePoints[k]
      ensures Views(timePoints) == UpdatedTimes(old(Views(timePoints)), rawTime)
    {
      UpdatedTimesAt(Views(timePoints), k, rawTime);
      SetTimeAt(k, rawTime);
    }

    /** A new point holding only `rawTime`, added at the end. */
    method AppendTime(rawTime: Long)
      requires Valid() && forall j | 0 <= j < |timePoints| :: !timePoints[j].isEmpty
      modifies this`timePoints
      ensures Valid()
      ensures Views(timePoints) == UpdatedTimes(old(Views(timePoints)), rawTime)
      ensures |timePoints| == |old(timePoints)| + 1 && timePoints[..|old(timePoints)|] == old(timePoints)
      ensures fresh(timePoints[|old(timePoints)|])
    {
      ghost var ps := Views(timePoints);
      UpdatedTimesAt(ps, |ps|, rawTime);
      var tp := new TimePoint.FromTime(rawTime);
      AddTimePoint(tp);
      assert timePoints[..|timePoints| - 1] == old(timePoints);
      assert Views(timePoints) == ps + [tp.View()];
    }

    /** `timePoints.get(k).setTime(rawTime)`: only the point at `k` changes. */
    method SetTimeAt(k: nat, rawTime: Long)
      requires Valid() && k < |timePoints|
      modifies timePoints[k]
      ensures Views(timePoints) == old(Views(timePoints))[k := SetTimeOf(old(timePoints[k].View()), rawTime)]
    {
      ghost var ps := Views(timePoints);
      var tp := timePoints[k];
      tp.SetTime(rawTime);
      forall j | 0 <= j < |timePoints| && j != k ensures timePoints[j] != tp {
        assert (timePoints + saveFailedTimePoints)[j] == timePoints[j];
        DistinctAt(timePoints + saveFailedTimePoints, j, k);
      }
      assert Views(timePoints) == ps[k := SetTimeOf(ps[k], rawTime)];
    }

    /** The scan of `updateTime` for the first point without a time; -1 when there is none. */
    method FirstEmptyPosition() returns (k: int)
      ensures -1 <= k < |timePoints|
      ensures k >= 0 ==> timePoints[k].isEmpty
      ensures forall j | 0 <= j < |timePoints| && (k < 0 || j < k) :: !timePoints[j].isEmpty
    {
      k := -1;
      var tpSize := |timePoints|;
      var i := 0;
      while i < tpSize
        invariant 0 <= i <= tpSize
        invariant forall j | 0 <= j < i :: !timePoints[j].isEmpty
        decreases tpSize - i
      {
        if timePoints[i].isEmpty {
          k := i;
          break;
        }
        i := i + 1;
      }
    }

    /** `hasUnready`: true when nothing was captured or some listed point is not ready. */
    method HasUnready() returns (r: bool)
      ensures r == Unready(Views(timePoints), hiddenTimepoints)
    {
      if |timePoints| + hiddenTimepoints == 0 {
        return true;
      }
      var i := 0;
      while i < |timePoints|
        invariant 0 <= i <= |timePoints|
        invariant forall j | 0 <= j < i :: timePoints[j].isReady
        decreases |timePoints| - i
      {
        if !timePoints[i].isReady {
          ghost var ps := Views(timePoints);
          assert !ps[i].isReady;
          return true;
        }
        i := i + 1;
      }
      ghost var ps := Views(timePoints);
      assert forall j | 0 <= j < |ps| :: ps[j].isReady;
      return false;
    }

    /**
     * `saveTimepoint`: the point is written to the temporary directory, or
     * held in memory when the write fails (`written` is the outcome of the
     * write); either way one more point counts as hidden.
     */
    method SaveTimepoint(timePoint: TimePoint, written: bool)
      requires Valid() && timePoint !in timePoints && timePoint !in saveFailedTimePoints
      modifies this`tempDir, this`saveFailedTimePoints, this`hiddenTimepoints
      ensures Valid()
      ensures hiddenTimepoints == old(hiddenTimepoints) + 1
      ensures written ==> tempDir == old(tempDir) + [Serialize(timePoint)] && saveFailedTimePoints == old(saveFailedTimePoints)
      ensures !written ==> tempDir == old(tempDir) && saveFailedTimePoints == old(saveFailedTimePoints) + [timePoint]
    {
      if written {
        tempDir := tempDir + [Serialize(timePoint)];
      } else {
        DistinctUnion(timePoints + saveFailedTimePoints, [timePoint], timePoints + (saveFailedTimePoints + [timePoint]));
        saveFailedTimePoints := saveFailedTimePoints + [timePoint];
      }
      hiddenTimepoints := hiddenTimepoints + 1;
    }

    /**
     * `getSavedTimePoints`: the points read back from the temporary
     * directory (`read`, new objects in the directory's order), then the
     * points held in memory; both stores are emptied. None where a file does
     * not deserialize, and then nothing has changed.
     */
    method GetSavedTimePoints() returns (r: Option<seq<TimePoint>>, ghost read: seq<TimePoint>)
      requires Valid()
      modifies this`saveFailedTimePoints, this`tempDir
      ensures r.Some? <==> ParseAll(old(tempDir)).Some?
      ensures r.None? ==> unchanged(this)
      ensures r.Some? ==> r.value == read + old(saveFailedTimePoints)
      ensures r.Some? ==> Views(read) == ParseAll(old(tempDir)).value
      ensures r.Some? ==> Distinct(timePoints + r.value)
      ensures r.Some? ==> saveFailedTimePoints == [] && tempDir == []
    {
      var got := DeserializeAll(tempDir, timePoints + saveFailedTimePoints);
      if got.None? {
        return None, [];
      }
      var result := got.value;
      label Read:
      var all := TakeSaved(result);
      TimePoints.ViewsUnchanged@Read(result);
      read := result;
      r := Some(all);
    }

    /** The points read back followed by the points held in memory; both stores emptied. */
    method TakeSaved(read: seq<TimePoint>) returns (r: seq<TimePoint>)
      requires Valid() && Distinct(read)
      requires forall tp | tp in read :: tp !in timePoints + saveFailedTimePoints
      modifies this`saveFailedTimePoints, this`tempDir
      ensures r == read + old(saveFailedTimePoints)
      ensures Distinct(timePoints + r)
      ensures saveFailedTimePoints == [] && tempDir == []
    {
      DistinctUnion(timePoints + saveFailedTimePoints, read, timePoints + (read + saveFailedTimePoints));
      r := read + saveFailedTimePoints;
      saveFailedTimePoints := [];
      tempDir := [];
    }

    /**
     * `showReview`: the hidden points are added back and the whole list is
     * sorted by raw time with a stable sort; the adapter enters review mode.
     * `read` are the points read back from the temporary directory; `key`
     * records the raw time of every point sorted. When a saved file does not
     * deserialize nothing changes (`ok` is false where the source throws).
     * `SortedByRawTime` states what the sort promises of the new list.
     */
    method ShowReview() returns (ok: bool, ghost read: seq<TimePoint>, ghost key: map<TimePoint, int>)
      requires Valid()
      modifies this`timePoints, this`saveFailedTimePoints, this`tempDir, this`isReviewMode
      ensures Valid()
      ensures ok <==> ParseAll(old(tempDir)).Some?
      ensures !ok ==> unchanged(this)
      ensures ok ==> Views(read) == ParseAll(old(tempDir)).value
      ensures ok ==> forall tp | tp in old(timePoints) + (read + old(saveFailedTimePoints)) :: tp in key && key[tp] == tp.rawTime
      ensures ok ==> timePoints == SortBy(old(timePoints) + (read + old(saveFailedTimePoints)), ByRawTime(key))
      ensures ok ==> isReviewMode && saveFailedTimePoints == [] && tempDir == []
    {
      var s;
      s, read := GetSavedTimePoints();
      if s.None? {
        return false, [], map[];
      }
      key := EnterReview(s.value, read);
      ok := true;
    }

    /** The sorted list of all points, in review mode; the points' own fields are untouched. */
    method EnterReview(saved: seq<TimePoint>, ghost read: seq<TimePoint>) returns (ghost key: map<TimePoint, int>)
      requires Distinct(timePoints + saved) && saveFailedTimePoints == []
      modifies this`timePoints, this`isReviewMode
      ensures Valid()
      ensures Views(read) == old(Views(read))
      ensures forall tp | tp in old(timePoints) + saved :: tp in key && key[tp] == tp.rawTime
      ensures timePoints == SortBy(old(timePoints) + saved, ByRawTime(key))
      ensures isReviewMode
    {
      label Read:
      key := AddAllSorted(saved);
      TimePoints.ViewsUnchanged@Read(read);
      isReviewMode := true;
    }

    /**
     * `addAll` of the saved points followed by `Collections.sort`; `key`
     * records the raw time of every point sorted.
     */
    method AddAllSorted(saved: seq<TimePoint>) returns (ghost key: map<TimePoint, int>)
      requires Distinct(timePoints + saved) && saveFailedTimePoints == []
      modifies this`timePoints
      ensures Valid()
      ensures forall tp | tp in old(timePoints) + saved :: tp in key && key[tp] == tp.rawTime
      ensures timePoints == SortBy(old(timePoints) + saved, ByRawTime(key))
    {
      var all := timePoints + saved;
      var times := RawTimes(all);
      var sorted := SortBy(all, ByRawTime(times));
      key := times;
      SortKeepsDistinct(all, sorted, key);
      assert sorted + [] == sorted;
      timePoints := sorted;
    }
  }

  /** What `getSavedTimePoints` makes of the files of the temporary directory. */
  method DeserializeAll(lines: seq<string>, ghost existing: seq<TimePoint>) returns (r: Option<seq<TimePoint>>)
    ensures r.Some? <==> ParseAll(lines).Some?
    ensures r.Some? ==> Views(r.value) == ParseAll(lines).value
    ensures r.Some? ==> |r.value| == |lines| && Distinct(r.value)
    ensures r.Some? ==> forall tp | tp in r.value :: tp !in existing
  {
    ghost var expected := seq(|lines|, j requires 0 <= j < |lines| => Parse(lines[j]));
    var result, parsed := DeserializeEach(lines, expected, existing);
    ParseAllEach(lines);
    if |result| < |lines| {
      return None;
    }
    assert parsed == ParseAll(lines).value;
    return Some(result);
  }

  /**
   * `result` are new points, none of them among `existing` and no two the
   * same, whose states `parsed` are what the first lines parse to.
   */
  ghost predicate ReadSoFar(expected: seq<Option<Point>>, existing: seq<TimePoint>, result: seq<TimePoint>, parsed: seq<Point>)
    reads result
  {
    && |result| == |parsed| <= |expected|
    && (forall j | 0 <= j < |result| :: expected[j] == Some(parsed[j]))
    && Views(result) == parsed
    && (forall tp | tp in result :: tp !in existing)
    && Distinct(result)
  }

  /**
   * The loop over the files: new points for the lines before the first one
   * that does not deserialize, or for all of them; `parsed` are their states.
   */
  method DeserializeEach(lines: seq<string>, ghost expected: seq<Option<Point>>, ghost existing: seq<TimePoint>)
    returns (result: seq<TimePoint>, ghost parsed: seq<Point>)
    requires |expected| == |lines| && forall j | 0 <= j < |lines| :: expected[j] == Parse(lines[j])
    ensures |result| <= |lines| && ReadSoFar(expected, existing, result, parsed)
    ensures |result| < |lines| ==> expected[|result|].None?
  {
    result, parsed := [], [];
    var i := 0;
    while i < |lines|
      invariant 0 <= i <= |lines| && |result| == i
      invariant ReadSoFar(expected, existing, result, parsed)
      decreases |lines| - i
    {
      var tp := ReadNext(lines[i], expected, existing, result, parsed);
      if tp.None? {
        return;
      }
      result := result + [tp.value];
      parsed := parsed + [tp.value.View()];
      i := i + 1;
    }
  }

  /** One file of the temporary directory: a new point after those already read, or None. */
  method ReadNext(line: string, ghost expected: seq<Option<Point>>, ghost existing: seq<TimePoint>,
                  result: seq<TimePoint>, ghost parsed: seq<Point>)
    returns (r: Option<TimePoint>)
    requires ReadSoFar(expected, existing, result, parsed)
    requires |result| < |expected| && expected[|result|] == Parse(line)
    ensures r.None? <==> expected[|result|].None?
    ensures r.Some? ==> fresh(r.value) && ReadSoFar(expected, existing, result + [r.value], parsed + [r.value.View()])
  {
    label Before:
    r := Deserialize(line);
    if r.Some? {
      ViewsUnchanged@Before(result);
      ViewsSnoc(result, r.value);
      DistinctUnion(result, [r.value], result + [r.value]);
      var next := parsed + [r.value.View()];
      forall j | 0 <= j < |result| + 1 ensures expected[j] == Some(next[j]) {
        if j < |result| {
          assert next[j] == parsed[j];
        }
      }
    }
  }

  /** Sorting distinct points gives distinct points. */
  lemma SortKeepsDistinct(all: seq<TimePoint>, sorted: seq<TimePoint>, m: map<TimePoint, int>)
    requires Distinct(all) && sorted == SortBy(all, ByRawTime(m))
    ensures Distinct(sorted)
  {
    DistinctPermutation(all, sorted);
  }

}
