/**
 * The protocol builder: it collects meta elements and time points and renders
 * the protocol document, a meta block between `%META_START%` and
 * `%META_END%` followed by one line `id=t1;t2;...;` per participant, each
 * participant's times in ascending order. The order of the participant lines
 * follows the iteration order of a hash map and is left unspecified: the
 * methods that write them return that order as a ghost value.
 */
module Protocols {
  import opened Strings
  import opened Sorting
  import opened TimePoints
  import opened ParticipantRanges

  const META_KEY_TIME_PATTERN: string := "TIME_PATTERN"
  const META_KEY_TIME_ZONE: string := "TIME_ZONE"
  const META_KEY_EVENT_NAME: string := "EVENT_NAME"
  const META_KEY_LAPS_COUNT: string := "LAPS_COUNT"
  const META_KEY_CHECKPOINTS_COUNT: string := "CHECKPOINTS_COUNT"
  const META_KEY_POINT_ID: string := "POINT_ID"
  const KEY_VALUE_DELIMITER: string := "="
  const VALUES_DELIMITER: string := ";"
  const META_BLOCK_START: string := "%META_START%"
  const META_BLOCK_END: string := "%META_END%"

  /** The time pattern and time zone of the app's time formatter. */
  const TIME_PATTERN: string := "HH:mm:ss.SSS"
  const TIME_ZONE: string := "GMT"

  function MetaElement(key: string, value: string): string
  {
    key + KEY_VALUE_DELIMITER + value
  }

  /** Each element on a line of its own: a line break before each. */
  function OnNewLines(xs: seq<string>): string
  {
    if xs == [] then "" else OnNewLines(xs[..|xs| - 1]) + "\n" + xs[|xs| - 1]
  }

  /** The meta block: the start marker, the elements in order, the end marker. */
  function MetaBlock(metas: seq<string>): string
  {
    META_BLOCK_START + OnNewLines(metas) + "\n" + META_BLOCK_END
  }

  /** A participant's times, each followed by `;`. */
  function TimesText(ts: seq<int>): string
  {
    if ts == [] then "" else TimesText(ts[..|ts| - 1]) + IntToString(ts[|ts| - 1]) + VALUES_DELIMITER
  }

  /** The line of one participant, without its leading line break: `id=` and the sorted times. */
  function ParticipantLine(p: int, times: seq<int>): string
  {
    IntToString(p) + KEY_VALUE_DELIMITER + TimesText(SortBy(times, Identity))
  }

  /** The participant lines in the given order. */
  function ParticipantLines(order: seq<int>, m: Timelines): seq<string>
    requires forall p | p in order :: p in m
  {
    if order == [] then []
    else ParticipantLines(order[..|order| - 1], m) + [ParticipantLine(order[|order| - 1], m[order[|order| - 1]])]
  }

  /** `order` lists every key of the map exactly once. */
  predicate IsOrderOf(order: seq<int>, keys: set<int>)
  {
    (forall p | p in order :: p in keys) &&
    (forall p | p in keys :: p in order) &&
    (forall i, j :: 0 <= i < j < |order| ==> order[i] != order[j])
  }

  /** The protocol document for these meta elements and participants, lines in `order`. */
  function Document(metas: seq<string>, order: seq<int>, m: Timelines): string
    requires forall p | p in order :: p in m
  {
    MetaBlock(metas) + OnNewLines(ParticipantLines(order, m))
  }

  class Builder {
    var timePoints: seq<TimePoint>
    var metaElements: seq<string>
    /** The text written so far (the string builder). */
    var data: string

    constructor ()
      ensures timePoints == [] && metaElements == [] && data == ""
    {
      timePoints, metaElements, data := [], [], "";
    }

    method AddTimepoints(tps: seq<TimePoint>)
      modifies this`timePoints
      ensures timePoints == old(timePoints) + tps
    {
      timePoints := timePoints + tps;
    }

    method AddMetaElement(key: string, value: string)
      modifies this`metaElements
      ensures metaElements == old(metaElements) + [MetaElement(key, value)]
    {
      metaElements := metaElements + [key + KEY_VALUE_DELIMITER + value];
    }

    method AddEventName(eventName: string)
      modifies this`metaElements
      ensures metaElements == old(metaElements) + [MetaElement(META_KEY_EVENT_NAME, eventName)]
    {
      AddMetaElement(META_KEY_EVENT_NAME, eventName);
    }

    method AddLapsCount(lapsCount: Int32)
      modifies this`metaElements
      ensures metaElements == old(metaElements) + [MetaElement(META_KEY_LAPS_COUNT, IntToString(lapsCount))]
    {
      AddMetaElement(META_KEY_LAPS_COUNT, IntToString(lapsCount));
    }

    method AddCheckPointsCount(checkPointsCount: Int32)
      modifies this`metaElements
      ensures metaElements == old(metaElements) + [MetaElement(META_KEY_CHECKPOINTS_COUNT, IntToString(checkPointsCount))]
    {
      AddMetaElement(META_KEY_CHECKPOINTS_COUNT, IntToString(checkPointsCount));
    }

    method AddPointId(pointId: Int32)
      modifies this`metaElements
      ensures metaElements == old(metaElements) + [MetaElement(META_KEY_POINT_ID, IntToString(pointId))]
    {
      AddMetaElement(META_KEY_POINT_ID, IntToString(pointId));
    }

    /** Appends the meta block of the elements added so far. */
    method WriteMeta()
      modifies this`data
      ensures data == old(data) + MetaBlock(metaElements)
    {
      data := data + META_BLOCK_START;
      var k := 0;
      while k < |metaElements|
        invariant 0 <= k <= |metaElements|
        invariant data == old(data) + META_BLOCK_START + OnNewLines(metaElements[..k])
      {
        assert metaElements[..k + 1][..k] == metaElements[..k];
        data := data + "\n" + metaElements[k];
        k := k + 1;
      }
      assert metaElements[..k] == metaElements;
      data := data + "\n" + META_BLOCK_END;
    }

    /**
     * The participant map of the time points added so far, or None where
     * reading a range throws. Ranges must not reach Integer.MAX_VALUE, at
     * which the expansion loop never ends.
     */
    method GetParticipants() returns (r: Option<Timelines>)
      requires forall tp | tp in timePoints :: Expandable(tp.participant)
      ensures r == Aggregate(Views(timePoints), RangeParticipants)
    {
      ghost var points := Views(timePoints);
      var resultMap: Timelines := map[];
      var k := 0;
      while k < |timePoints|
        invariant 0 <= k <= |timePoints|
        invariant Aggregate(points[..k], RangeParticipants) == Some(resultMap)
      {
        var timePoint := timePoints[k];
        var time := timePoint.rawTime;
        assert points[k] == timePoint.View();
        var participantSet := ExpandRange(timePoint.participant);
        AggregateSnoc(points, k, RangeParticipants);
        if participantSet.None? {
          AggregateFails(points, k, RangeParticipants);
          assert points == Views(timePoints);
          return None;
        }
        resultMap := AddToAll(resultMap, participantSet.value, time);
        k := k + 1;
      }
      assert points[..k] == points;
      return Some(resultMap);
    }

    /**
     * One entry of writeParticipants: the times are sorted ascending, then a
     * line break, the participant number, `=` and each time followed by `;`.
     */
    method AppendParticipant(participant: int, times: seq<int>)
      modifies this`data
      ensures data == old(data) + "\n" + ParticipantLine(participant, times)
    {
      var participantTimes := SortBy(times, Identity);
      var head := IntToString(participant) + KEY_VALUE_DELIMITER;
      AppendAssoc(old(data) + "\n", IntToString(participant), KEY_VALUE_DELIMITER);
      data := data + "\n" + IntToString(participant) + KEY_VALUE_DELIMITER;
      ghost var lineStart := data;
      var j := 0;
      while j < |participantTimes|
        invariant 0 <= j <= |participantTimes|
        invariant data == lineStart + TimesText(participantTimes[..j])
      {
        TimesTextSnoc(participantTimes, j);
        AppendAssoc(lineStart, TimesText(participantTimes[..j]), IntToString(participantTimes[j]) + VALUES_DELIMITER);
        AppendAssoc(data, IntToString(participantTimes[j]), VALUES_DELIMITER);
        data := data + IntToString(participantTimes[j]) + VALUES_DELIMITER;
        j := j + 1;
      }
      assert participantTimes[..j] == participantTimes;
      AppendAssoc(old(data) + "\n", head, TimesText(participantTimes));
    }

    /** Appends the participant lines of `m`, in an order of the map's choosing. */
    method WriteParticipants(m: Timelines) returns (ghost order: seq<int>)
      modifies this`data
      ensures IsOrderOf(order, m.Keys)
      ensures data == old(data) + OnNewLines(ParticipantLines(order, m))
    {
      order := [];
      var rest := m.Keys;
      while rest != {}
        invariant forall p :: p in order <==> p in m && p !in rest
        invariant rest <= m.Keys
        invariant forall i, j :: 0 <= i < j < |order| ==> order[i] != order[j]
        invariant data == old(data) + OnNewLines(ParticipantLines(order, m))
        decreases rest
      {
        HasMember(rest);
        var participant :| participant in rest;
        ghost var written := OnNewLines(ParticipantLines(order, m));
        AppendParticipant(participant, m[participant]);
        ParticipantLinesSnoc(order, participant, m);
        AppendAssoc(old(data), written + "\n", ParticipantLine(participant, m[participant]));
        AppendAssoc(old(data), written, "\n");
        order := order + [participant];
        rest := rest - {participant};
      }
    }

    /**
     * Adds the time pattern and time zone meta elements, writes the meta
     * block and then the participant lines, and returns the text written so
     * far; None where reading a range throws, after the meta block is written.
     */
    method Create() returns (r: Option<string>, ghost participants: Option<Timelines>, ghost order: seq<int>)
      requires forall tp | tp in timePoints :: Expandable(tp.participant)
      modifies this`data, this`metaElements
      ensures metaElements == old(metaElements) + CreateMeta()
      ensures participants == Aggregate(old(Views(timePoints)), RangeParticipants)
      ensures participants.None? ==> r.None? && data == old(data) + MetaBlock(metaElements)
      ensures participants.Some? ==>
        IsOrderOf(order, participants.value.Keys) &&
        r == Some(data) && data == old(data) + Document(metaElements, order, participants.value)
    {
      ghost var points := Views(timePoints);
      AddMetaElement(META_KEY_TIME_PATTERN, TIME_PATTERN);
      AddMetaElement(META_KEY_TIME_ZONE, TIME_ZONE);
      assert metaElements == old(metaElements) + CreateMeta();
      assert Views(timePoints) == points;
      r, participants, order := WriteDocument();
    }

    /** The part of `create` after the meta elements are added. */
    method WriteDocument() returns (r: Option<string>, ghost participants: Option<Timelines>, ghost order: seq<int>)
      requires forall tp | tp in timePoints :: Expandable(tp.participant)
      modifies this`data
      ensures participants == Aggregate(old(Views(timePoints)), RangeParticipants)
      ensures participants.None? ==> r.None? && data == old(data) + MetaBlock(metaElements)
      ensures participants.Some? ==>
        IsOrderOf(order, participants.value.Keys) &&
        r == Some(data) && data == old(data) + Document(metaElements, order, participants.value)
    {
      label Start:
      WriteMeta();
      ViewsUnchanged@Start(timePoints);
      var read := GetParticipants();
      participants := read;
      if read.None? {
        return None, participants, [];
      }
      var m := read.value;
      order := WriteParticipants(m);
      AppendAssoc(old(data), MetaBlock(metaElements), OnNewLines(ParticipantLines(order, m)));
      return Some(data), participants, order;
    }
  }

  lemma TimesTextSnoc(ts: seq<int>, j: int)
    requires 0 <= j < |ts|
    ensures TimesText(ts[..j + 1]) == TimesText(ts[..j]) + (IntToString(ts[j]) + VALUES_DELIMITER)
  {
    assert ts[..j + 1][..j] == ts[..j];
  }

  lemma ParticipantLinesSnoc(order: seq<int>, p: int, m: Timelines)
    requires forall q | q in order :: q in m
    requires p in m
    ensures OnNewLines(ParticipantLines(order + [p], m))
         == OnNewLines(ParticipantLines(order, m)) + "\n" + ParticipantLine(p, m[p])
  {
    assert (order + [p])[..|order|] == order;
    var ls := ParticipantLines(order, m) + [ParticipantLine(p, m[p])];
    assert ls[..|ls| - 1] == ParticipantLines(order, m);
  }

  /**
   * The loop over one point's participant set: each participant's list gets
   * the time, a list being started where there is none. The set is visited in
   * an order of its own choosing.
   */
  method AddToAll(resultMap: Timelines, participantSet: set<int>, time: int) returns (r: Timelines)
    ensures r == AddTime(resultMap, participantSet, time)
  {
    r := resultMap;
    AddTimeNone(resultMap, time);
    var rest := participantSet;
    ghost var done: set<int> := {};
    while rest != {}
      invariant rest + done == participantSet && rest !! done
      invariant r == AddTime(resultMap, done, time)
      decreases rest
    {
      HasMember(rest);
      var participant :| participant in rest;
      AddTimeStep(resultMap, done, participant, time);
      if participant !in r {
        r := r[participant := []];
      }
      r := r[participant := r[participant] + [time]];
      rest, done := rest - {participant}, done + {participant};
    }
  }

  /** A non-empty set has a member to pick. */
  lemma HasMember(s: set<int>)
    requires s != {}
    ensures exists x :: x in s
  {
    assert (forall x :: x !in s) ==> s == {};
  }

  lemma AddTimeNone(m: Timelines, t: int)
    ensures AddTime(m, {}, t) == m
  {
    var e := AddTime(m, {}, t);
    assert e.Keys == m.Keys;
    forall q | q in e ensures e[q] == m[q] { }
  }

  lemma AddTimeStep(m: Timelines, done: set<int>, p: int, t: int)
    requires p !in done
    ensures var m1 := AddTime(m, done, t);
      AddTime(m, done + {p}, t) == m1[p := (if p in m1 then m1[p] else []) + [t]]
  {
    var m1 := AddTime(m, done, t);
    var lhs, rhs := AddTime(m, done + {p}, t), m1[p := (if p in m1 then m1[p] else []) + [t]];
    assert lhs.Keys == rhs.Keys;
    forall q | q in lhs ensures lhs[q] == rhs[q] { }
  }

  /**
   * The document the finish button builds from a fresh builder: event name,
   * laps count, checkpoints count, point id, then the time pattern and time
   * zone that `create` adds.
   */
  method BuildProtocol(eventName: string, lapsCount: Int32, checkPointsCount: Int32, pointId: Int32,
                       timePoints: seq<TimePoint>)
    returns (r: Option<string>, ghost participants: Option<Timelines>, ghost order: seq<int>)
    requires forall tp | tp in timePoints :: Expandable(tp.participant)
    ensures participants == Aggregate(Views(timePoints), RangeParticipants)
    ensures participants.None? <==> r.None?
    ensures r.Some? ==>
      IsOrderOf(order, participants.value.Keys) &&
      r.value == Document(StandardMeta(eventName, lapsCount, checkPointsCount, pointId), order, participants.value)
  {
    ghost var points := Views(timePoints);
    var builder := NewBuilder(eventName, lapsCount, checkPointsCount, pointId, timePoints);
    ViewsUnchanged(timePoints);
    assert Views(builder.timePoints) == points;
    r, participants, order := builder.Create();
    assert participants == Aggregate(points, RangeParticipants);
    assert builder.metaElements == StandardMeta(eventName, lapsCount, checkPointsCount, pointId);
    ViewsUnchanged(timePoints);
    if r.Some? {
      var doc := Document(builder.metaElements, order, participants.value);
      assert "" + doc == doc;
    }
  }

  /** The chain of builder calls of the finish button, before `create`. */
  method NewBuilder(eventName: string, lapsCount: Int32, checkPointsCount: Int32, pointId: Int32,
                    timePoints: seq<TimePoint>)
    returns (builder: Builder)
    ensures fresh(builder)
    ensures builder.metaElements == EventMeta(eventName, lapsCount, checkPointsCount, pointId)
    ensures builder.timePoints == timePoints && builder.data == ""
  {
    builder := new Builder();
    builder.AddEventName(eventName);
    builder.AddLapsCount(lapsCount);
    builder.AddCheckPointsCount(checkPointsCount);
    builder.AddPointId(pointId);
    builder.AddTimepoints(timePoints);
  }

  /** The meta elements of a protocol built by the finish button, in order. */
  function StandardMeta(eventName: string, lapsCount: Int32, checkPointsCount: Int32, pointId: Int32): seq<string>
  {
    EventMeta(eventName, lapsCount, checkPointsCount, pointId) + CreateMeta()
  }

  /** The elements the finish button adds: event name, laps, checkpoints, point id. */
  function EventMeta(eventName: string, lapsCount: Int32, checkPointsCount: Int32, pointId: Int32): seq<string>
  {
    [ MetaElement(META_KEY_EVENT_NAME, eventName),
      MetaElement(META_KEY_LAPS_COUNT, IntToString(lapsCount)),
      MetaElement(META_KEY_CHECKPOINTS_COUNT, IntToString(checkPointsCount)),
      MetaElement(META_KEY_POINT_ID, IntToString(pointId)) ]
  }

  /** The elements `create` adds: the time pattern and the time zone. */
  function CreateMeta(): seq<string>
  {
    [MetaElement(META_KEY_TIME_PATTERN, TIME_PATTERN), MetaElement(META_KEY_TIME_ZONE, TIME_ZONE)]
  }
}
