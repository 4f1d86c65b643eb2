/**
 * A time point: one captured checkpoint record, a raw time in milliseconds
 * and the participant range text it belongs to. A point starts empty, becomes
 * non-empty once a time is set, and is ready when it is non-empty and has a
 * participant range. It is stored as the one-line text `participant%rawTime`.
 */
module TimePoints {
  import opened Strings

  const SERIALIZE_DELIMITER: char := '%'

  /** What can be observed of a time point: its raw time, range text and flags. */
  datatype Point = Point(rawTime: Long, participant: string, isEmpty: bool, isReady: bool)

  class TimePoint {
    var rawTime: Long
    var participant: string
    var isEmpty: bool
    var isReady: bool

    function View(): Point
      reads this
    {
      Point(rawTime, participant, isEmpty, isReady)
    }

    /** An empty placeholder point: no time and no participant, not ready. */
    constructor ()
      ensures View() == Point(0, "", true, false)
    {
      rawTime, participant, isEmpty, isReady := 0, "", true, false;
    }

    /**
     * The copy constructor: it sets the time first, while the participant is
     * still the initial "", and copies the participant afterwards, so the copy
     * is non-empty but never ready.
     */
    constructor Copy(other: TimePoint)
      ensures View() == Point(other.rawTime, other.participant, false, false)
    {
      rawTime, participant, isEmpty, isReady := 0, "", true, false;
      new;
      SetTime(other.rawTime);
      participant := other.participant;
    }

    /** A point with a time and no participant: non-empty, not ready. */
    constructor FromTime(rawTime: Long)
      ensures View() == Point(rawTime, "", false, false)
    {
      this.rawTime, participant, isEmpty, isReady := 0, "", true, false;
      new;
      SetTime(rawTime);
    }

    /** A point with both a time and a participant range. */
    constructor WithParticipant(rawTime: Long, participant: string)
      ensures View() == Point(rawTime, participant, false, participant != "")
    {
      this.rawTime, this.participant, isEmpty, isReady := rawTime, participant, false, false;
      new;
      SetReady();
    }

    /** Readiness is recomputed from the participant and the empty flag. */
    method SetReady()
      modifies this
      ensures isReady == (participant != "" && !isEmpty)
      ensures rawTime == old(rawTime) && participant == old(participant) && isEmpty == old(isEmpty)
    {
      isReady := participant != "" && !isEmpty;
    }

    method SetTime(t: Long)
      modifies this
      ensures View() == Point(t, old(participant), false, old(participant) != "")
    {
      rawTime := t;
      isEmpty := false;
      SetReady();
    }

    /** Changes only the participant; a point that is still empty stays not ready. */
    method SetParticipant(p: string)
      modifies this
      ensures View() == Point(old(rawTime), p, old(isEmpty), p != "" && !old(isEmpty))
    {
      participant := p;
      SetReady();
    }

    /** `compareTo`: the sign of the comparison of the raw times (`Long.compare`). */
    function CompareTo(other: TimePoint): (r: int)
      reads this, other
      ensures r == -1 || r == 0 || r == 1
      ensures r < 0 <==> rawTime < other.rawTime
      ensures r == 0 <==> rawTime == other.rawTime
    {
      if rawTime < other.rawTime then -1 else if rawTime == other.rawTime then 0 else 1
    }
  }

  /** The observable states of a list of points, in list order. */
  function Views(tps: seq<TimePoint>): (r: seq<Point>)
    reads tps
    ensures |r| == |tps|
    ensures forall i :: 0 <= i < |tps| ==> r[i] == tps[i].View()
  {
    if tps == [] then [] else [tps[0].View()] + Views(tps[1..])
  }

  /** The states of a list with one more point at the end. */
  lemma ViewsSnoc(tps: seq<TimePoint>, tp: TimePoint)
    ensures Views(tps + [tp]) == Views(tps) + [tp.View()]
  {
    var a, b := Views(tps + [tp]), Views(tps) + [tp.View()];
    assert |a| == |b|;
    forall i | 0 <= i < |a| ensures a[i] == b[i] {
      if i < |tps| {
        assert (tps + [tp])[i] == tps[i];
      }
    }
  }

  twostate lemma ViewsUnchanged(tps: seq<TimePoint>)
    requires forall tp | tp in tps :: unchanged(tp)
    ensures Views(tps) == old(Views(tps))
  {
    var a, b := old(Views(tps)), Views(tps);
    assert |a| == |b|;
    forall i | 0 <= i < |tps| ensures a[i] == b[i] {
      assert tps[i] in tps;
    }
  }

  /**
   * `serialize`: the participant text, the delimiter, then a text that
   * `Long.parseLong` reads back as the raw time.
   */
  function Serialize(tp: TimePoint): (r: string)
    reads tp
    ensures |r| > |tp.participant| && r[..|tp.participant|] == tp.participant
    ensures r[|tp.participant|] == SERIALIZE_DELIMITER
    ensures ParseLong(r[|tp.participant| + 1..]) == Some(tp.rawTime)
  {
    var r := tp.participant + [SERIALIZE_DELIMITER] + IntToString(tp.rawTime);
    assert r[|tp.participant| + 1..] == IntToString(tp.rawTime);
    ParseLongOfToString(tp.rawTime);
    r
  }

  /**
   * What `deserialize` builds from a line: the line is split at `%`, the first
   * segment becomes the participant and the second must be a decimal `long`;
   * further segments are ignored. None where `deserialize` throws.
   */
  function Parse(line: string): Option<Point>
  {
    var parts := Split(line, {SERIALIZE_DELIMITER});
    if |parts| < 2 then None
    else
      match ParseLong(parts[1])
      case None => None
      case Some(t) => Some(Point(t, parts[0], false, parts[0] != ""))
  }

  /** `deserialize`: a new point built from a line, or None where Java throws. */
  method Deserialize(line: string) returns (r: Option<TimePoint>)
    ensures r.None? <==> Parse(line).None?
    ensures r.Some? ==> fresh(r.value) && Parse(line) == Some(r.value.View())
  {
    var parts := Split(line, {SERIALIZE_DELIMITER});
    if |parts| < 2 {
      return None;
    }
    var t := ParseLong(parts[1]);
    if t.None? {
      return None;
    }
    var tp := new TimePoint.WithParticipant(t.value, parts[0]);
    return Some(tp);
  }

  lemma SplitTwo(p: string, d: string)
    requires SERIALIZE_DELIMITER !in p && SERIALIZE_DELIMITER !in d && d != ""
    ensures Split(p + [SERIALIZE_DELIMITER] + d, {SERIALIZE_DELIMITER}) == [p, d]
  {
    var seps := {SERIALIZE_DELIMITER};
    var line := p + [SERIALIZE_DELIMITER] + d;
    assert Join([p, d], SERIALIZE_DELIMITER) == line;
    PiecesOfJoin([p, d], SERIALIZE_DELIMITER, seps);
    assert line[|p|] == SERIALIZE_DELIMITER;
  }

  /**
   * Round trip: for a participant without `%`, deserializing the serialized
   * point restores its raw time and participant; the result is non-empty and
   * ready exactly when the participant is non-empty.
   */
  lemma ParseSerialize(tp: TimePoint)
    requires SERIALIZE_DELIMITER !in tp.participant
    ensures Parse(Serialize(tp)) == Some(Point(tp.rawTime, tp.participant, false, tp.participant != ""))
  {
    var d := IntToString(tp.rawTime);
    assert SERIALIZE_DELIMITER !in d by {
      if tp.rawTime >= 0 {
        assert AllDigits(d);
      } else {
        assert d == "-" + NatToString(-(tp.rawTime as int));
        assert AllDigits(d[1..]);
      }
    }
    SplitTwo(tp.participant, d);
    ParseLongOfToString(tp.rawTime);
  }

  /** A line without a delimiter, or with nothing after it, does not deserialize. */
  lemma ParseNeedsSecondSegment(p: string)
    requires SERIALIZE_DELIMITER !in p
    ensures Parse(p) == None
    ensures Parse(p + [SERIALIZE_DELIMITER]) == None
  {
    var seps := {SERIALIZE_DELIMITER};
    assert FreeOf(p, seps);
    var line := p + [SERIALIZE_DELIMITER];
    assert line[|p|] == SERIALIZE_DELIMITER;
    assert Join([p, ""], SERIALIZE_DELIMITER) == line;
    PiecesOfJoin([p, ""], SERIALIZE_DELIMITER, seps);
    assert DropTrailingEmpty([p, ""]) == DropTrailingEmpty([p]);
  }

  /** Segments after the second are ignored. */
  lemma ParseIgnoresExtraSegments(p: string, d: string, x: string)
    requires SERIALIZE_DELIMITER !in p && SERIALIZE_DELIMITER !in d && SERIALIZE_DELIMITER !in x
    requires d != ""
    ensures Parse(p + [SERIALIZE_DELIMITER] + d + [SERIALIZE_DELIMITER] + x)
         == Parse(p + [SERIALIZE_DELIMITER] + d)
  {
    var seps := {SERIALIZE_DELIMITER};
    var line := p + [SERIALIZE_DELIMITER] + d + [SERIALIZE_DELIMITER] + x;
    assert [p, d, x][1..] == [d, x];
    assert Join([d, x], SERIALIZE_DELIMITER) == d + [SERIALIZE_DELIMITER] + x;
    assert Join([p, d, x], SERIALIZE_DELIMITER) == line;
    PiecesOfJoin([p, d, x], SERIALIZE_DELIMITER, seps);
    assert line[|p|] == SERIALIZE_DELIMITER;
    SplitTwo(p, d);
  }

  /** A second segment that is not a decimal `long` makes deserialization fail. */
  lemma ParseRejectsBadTime(p: string, d: string)
    requires SERIALIZE_DELIMITER !in p && SERIALIZE_DELIMITER !in d && d != ""
    requires ParseLong(d).None?
    ensures Parse(p + [SERIALIZE_DELIMITER] + d) == None
  {
    SplitTwo(p, d);
  }
}
