/**
 * Participant ranges and their aggregation into per-participant timelines,
 * as the protocol builder computes them. A range text is a comma-separated
 * list of tokens; a token is a number `n` or a range `a-b` (split at the first
 * hyphen, endpoints swapped when reversed, every integer in between). Each
 * time point's time is appended once to the list of every participant of its
 * range.
 *
 * The folds over tokens and over points take the reading of one item as a
 * parameter, so that what is proved about them holds for any reading and is
 * then applied to the one the app uses.
 */
module ParticipantRanges {
  import opened Strings
  import opened Sorting
  import opened TimePoints

  const RANGES_SEPARATOR: char := ','
  const RANGE_DASH: char := '-'

  /** Participant number to the times recorded for it. */
  type Timelines = map<int, seq<int>>

  function Min(a: int, b: int): int { if a <= b then a else b }
  function Max(a: int, b: int): int { if a <= b then b else a }

  /** Every integer from lo to hi inclusive. */
  function Between(lo: int, hi: int): (r: set<int>)
    ensures forall i :: i in r <==> lo <= i <= hi
    decreases hi - lo
  {
    if lo > hi then {} else Between(lo, hi - 1) + {hi}
  }

  /** The tokens of a range text: `text.split(",")`. */
  function Tokens(text: string): seq<string>
  {
    Split(text, {RANGES_SEPARATOR})
  }

  /** The participants of one token, or None where `Integer.parseInt` throws. */
  function TokenParticipants(token: string): Option<set<int>>
  {
    var dash := IndexOf(token, RANGE_DASH);
    if dash >= 0 then
      match (ParseInt(token[..dash]), ParseInt(token[dash + 1..]))
      case (Some(a), Some(b)) => Some(Between(Min(a, b), Max(a, b)))
      case _ => None
    else
      match ParseInt(token)
      case Some(n) => Some({n})
      case None => None
  }

  /** The union of the sets `part` gives the items, or None if it fails on one of them. */
  function UnionOf<T>(items: seq<T>, part: T -> Option<set<int>>): Option<set<int>>
  {
    if items == [] then Some({})
    else
      match (UnionOf(items[..|items| - 1], part), part(items[|items| - 1]))
      case (Some(ps), Some(qs)) => Some(ps + qs)
      case _ => None
  }

  /** The participant set of a range text. */
  function RangeParticipants(text: string): Option<set<int>>
  {
    UnionOf(Tokens(text), TokenParticipants)
  }

  /**
   * A range token whose upper endpoint is Integer.MAX_VALUE: the expansion
   * loop `i <= endRange` never ends for it.
   */
  predicate ReachesIntMax(token: string)
  {
    var dash := IndexOf(token, RANGE_DASH);
    dash >= 0 &&
    match (ParseInt(token[..dash]), ParseInt(token[dash + 1..]))
    case (Some(a), Some(b)) => Max(a, b) == INT_MAX
    case _ => false
  }

  /** The expansion of this text terminates. */
  predicate Expandable(text: string)
  {
    forall t | t in Tokens(text) :: !ReachesIntMax(t)
  }

  lemma UnionOfFails<T>(items: seq<T>, part: T -> Option<set<int>>, k: int)
    requires 0 <= k < |items| && part(items[k]).None?
    ensures UnionOf(items, part).None?
    decreases |items|
  {
    if k < |items| - 1 {
      UnionOfFails(items[..|items| - 1], part, k);
    }
  }

  /** Adds every integer from `lo` to `hi` to `acc`, counting upwards. */
  method AddBetween(acc: set<int>, lo: Int32, hi: Int32) returns (r: set<int>)
    requires hi < INT_MAX
    ensures r == acc + Between(lo, hi)
  {
    r := acc;
    var i: Int32 := lo;
    while i <= hi
      invariant lo <= i
      invariant i <= hi + 1 || (lo > hi && i == lo)
      invariant r == acc + Between(lo, i - 1)
    {
      r := r + {i};
      i := i + 1;
    }
  }

  /** One token of the expansion loop: a range (ends swapped if reversed) or a single number. */
  method ExpandToken(range: string) returns (r: Option<set<int>>)
    requires !ReachesIntMax(range)
    ensures r == TokenParticipants(range)
  {
    var dashIndex := IndexOf(range, RANGE_DASH);
    if dashIndex >= 0 {
      var s := ParseInt(range[..dashIndex]);
      var e := ParseInt(range[dashIndex + 1..]);
      if s.None? || e.None? {
        return None;
      }
      var startRange, endRange := s.value, e.value;
      if startRange > endRange {
        startRange, endRange := endRange, startRange;
      }
      var participants := AddBetween({}, startRange, endRange);
      assert participants == Between(Min(s.value, e.value), Max(s.value, e.value));
      return Some(participants);
    } else {
      var n := ParseInt(range);
      if n.None? {
        return None;
      }
      return Some({n.value});
    }
  }

  /**
   * The expansion loop of getParticipants: the tokens in order, each adding
   * its participants to one set; the first token that does not parse ends it.
   */
  method ExpandRange(text: string) returns (r: Option<set<int>>)
    requires Expandable(text)
    ensures r == RangeParticipants(text)
  {
    var participantSet: set<int> := {};
    var ranges := Tokens(text);
    var k := 0;
    while k < |ranges|
      invariant 0 <= k <= |ranges|
      invariant UnionOf(ranges[..k], TokenParticipants) == Some(participantSet)
    {
      ExpandableToken(text, k);
      var token := ExpandToken(ranges[k]);
      if token.None? {
        UnionOfFails(ranges, TokenParticipants, k);
        return None;
      }
      UnionOfStep(ranges, TokenParticipants, k, participantSet);
      participantSet := participantSet + token.value;
      k := k + 1;
    }
    assert ranges[..k] == ranges;
    return Some(participantSet);
  }

  lemma ExpandableToken(text: string, k: nat)
    requires Expandable(text) && k < |Tokens(text)|
    ensures !ReachesIntMax(Tokens(text)[k])
  {
    assert Tokens(text)[k] in Tokens(text);
  }

  /** The union over one more item, when that item has participants. */
  lemma UnionOfStep<T>(items: seq<T>, part: T -> Option<set<int>>, k: nat, acc: set<int>)
    requires k < |items| && UnionOf(items[..k], part) == Some(acc) && part(items[k]).Some?
    ensures UnionOf(items[..k + 1], part) == Some(acc + part(items[k]).value)
  {
    assert items[..k + 1][..k] == items[..k];
  }

  /** The union is defined iff `part` succeeds on every item. */
  lemma {:induction false} UnionOfDefined<T>(items: seq<T>, part: T -> Option<set<int>>)
    ensures UnionOf(items, part).Some? <==> forall x | x in items :: part(x).Some?
    decreases |items|
  {
    if items != [] {
      var init := items[..|items| - 1];
      UnionOfDefined(init, part);
      assert items == init + [items[|items| - 1]];
    }
  }

  /** When it is defined, a participant is in the union iff the set of some item holds it. */
  lemma {:induction false} UnionOfMember<T>(items: seq<T>, part: T -> Option<set<int>>, p: int)
    requires UnionOf(items, part).Some?
    ensures p in UnionOf(items, part).value <==>
      exists x | x in items :: part(x).Some? && p in part(x).value
    decreases |items|
  {
    if items != [] {
      var init := items[..|items| - 1];
      UnionOfMember(init, part, p);
      assert items == init + [items[|items| - 1]];
    }
  }

  /** The order of the items (of the tokens in a range text) does not matter. */
  lemma UnionOrderIrrelevant<T>(a: seq<T>, b: seq<T>, part: T -> Option<set<int>>)
    requires multiset(a) == multiset(b)
    ensures UnionOf(a, part) == UnionOf(b, part)
  {
    SameElements(a, b);
    UnionOfDefined(a, part);
    UnionOfDefined(b, part);
    if UnionOf(a, part).Some? {
      forall p ensures p in UnionOf(a, part).value <==> p in UnionOf(b, part).value {
        UnionOfMember(a, part, p);
        UnionOfMember(b, part, p);
      }
      assert UnionOf(a, part).value == UnionOf(b, part).value;
    }
  }

  lemma NoDashInNumber(n: nat)
    ensures RANGE_DASH !in NatToString(n)
  {
    var s := NatToString(n);
    forall j | 0 <= j < |s| ensures s[j] != RANGE_DASH {
      assert IsDigit(s[j]);
    }
  }

  lemma IndexOfDash(a: nat, b: string)
    ensures IndexOf(NatToString(a) + [RANGE_DASH] + b, RANGE_DASH) == |NatToString(a)|
  {
    var na := NatToString(a);
    var s := na + [RANGE_DASH] + b;
    var i := IndexOf(s, RANGE_DASH);
    NoDashInNumber(a);
    assert forall j | 0 <= j < |na| :: s[j] == na[j];
    assert s[|na|] == RANGE_DASH;
  }

  lemma RangeTokenOf(x: nat, y: nat)
    requires x <= INT_MAX && y <= INT_MAX
    ensures TokenParticipants(NatToString(x) + [RANGE_DASH] + NatToString(y))
         == Some(Between(Min(x, y), Max(x, y)))
  {
    var t := NatToString(x) + [RANGE_DASH] + NatToString(y);
    IndexOfDash(x, NatToString(y));
    assert t[..|NatToString(x)|] == NatToString(x);
    assert t[|NatToString(x)| + 1..] == NatToString(y);
    ParseIntToString(x, INT_MIN, INT_MAX);
    ParseIntToString(y, INT_MIN, INT_MAX);
  }

  /**
   * A token `a-b` contributes every integer between the smaller and the
   * larger endpoint, inclusive; `b-a` contributes the same set.
   */
  lemma RangeToken(a: nat, b: nat)
    requires a <= INT_MAX && b <= INT_MAX
    ensures TokenParticipants(NatToString(a) + [RANGE_DASH] + NatToString(b))
         == Some(Between(Min(a, b), Max(a, b)))
    ensures TokenParticipants(NatToString(a) + [RANGE_DASH] + NatToString(b))
         == TokenParticipants(NatToString(b) + [RANGE_DASH] + NatToString(a))
  {
    RangeTokenOf(a, b);
    RangeTokenOf(b, a);
  }

  /** A token without a hyphen contributes exactly its own number. */
  lemma NumberToken(n: nat)
    requires n <= INT_MAX
    ensures TokenParticipants(NatToString(n)) == Some({n})
  {
    NoDashInNumber(n);
    ParseIntToString(n, INT_MIN, INT_MAX);
  }

  /** An empty range text is one empty token, which `Integer.parseInt` rejects. */
  lemma EmptyRangeFails()
    ensures RangeParticipants("") == None
  {
    assert Tokens("") == [""];
    UnionOfFails([""], TokenParticipants, 0);
  }

  // ---------------------------------------------------------------------------
  // Aggregation

  /** Appends `t` to the list of every participant of `ps`, starting lists as needed. */
  function AddTime(m: Timelines, ps: set<int>, t: int): (r: Timelines)
    ensures r.Keys == m.Keys + ps
  {
    map p | p in m.Keys + ps :: (if p in m then m[p] else []) + (if p in ps then [t] else [])
  }

  /**
   * The map getParticipants builds from the points in list order (before its
   * lists are sorted), reading each point's range with `ranges`; None where
   * reading a range throws.
   */
  function Aggregate(points: seq<Point>, ranges: string -> Option<set<int>>): Option<Timelines>
  {
    if points == [] then Some(map[])
    else
      var last := points[|points| - 1];
      match (Aggregate(points[..|points| - 1], ranges), ranges(last.participant))
      case (Some(m), Some(ps)) => Some(AddTime(m, ps, last.rawTime))
      case _ => None
  }

  /** One more point: Aggregate of a longer prefix in terms of the shorter one. */
  lemma AggregateSnoc(points: seq<Point>, k: int, ranges: string -> Option<set<int>>)
    requires 0 <= k < |points|
    ensures Aggregate(points[..k + 1], ranges) ==
      match (Aggregate(points[..k], ranges), ranges(points[k].participant))
      case (Some(m), Some(ps)) => Some(AddTime(m, ps, points[k].rawTime))
      case _ => None
  {
    assert points[..k + 1][..k] == points[..k];
  }

  /** A point whose range does not read makes the whole aggregation fail. */
  lemma AggregateFails(points: seq<Point>, k: int, ranges: string -> Option<set<int>>)
    requires 0 <= k < |points| && ranges(points[k].participant).None?
    ensures Aggregate(points, ranges).None?
  {
    AggregateMeaning(points, ranges);
    assert points[k] in points;
  }

  predicate AllRead(points: seq<Point>, ranges: string -> Option<set<int>>)
  {
    forall pt | pt in points :: ranges(pt.participant).Some?
  }

  /** The participants a point's range lists; none where the range does not read. */
  function Of(pt: Point, ranges: string -> Option<set<int>>): set<int>
  {
    match ranges(pt.participant)
    case Some(ps) => ps
    case None => {}
  }

  /** Whether `p` is in the range of some point. */
  predicate Listed(p: int, points: seq<Point>, ranges: string -> Option<set<int>>)
  {
    exists pt | pt in points :: p in Of(pt, ranges)
  }

  /** The times of the points whose range contains `p`, in point order. */
  function TimesOf(p: int, points: seq<Point>, ranges: string -> Option<set<int>>): seq<int>
  {
    if points == [] then []
    else
      (if p in Of(points[0], ranges) then [points[0].rawTime] else [])
      + TimesOf(p, points[1..], ranges)
  }

  lemma {:induction false} TimesOfAppend(p: int, a: seq<Point>, b: seq<Point>, ranges: string -> Option<set<int>>)
    ensures TimesOf(p, a + b, ranges) == TimesOf(p, a, ranges) + TimesOf(p, b, ranges)
    decreases |a|
  {
    if a != [] {
      assert (a + b)[1..] == a[1..] + b;
      TimesOfAppend(p, a[1..], b, ranges);
    } else {
      assert a + b == b;
    }
  }

  lemma {:induction false} TimesOfUnlisted(p: int, points: seq<Point>, ranges: string -> Option<set<int>>)
    requires !Listed(p, points, ranges)
    ensures TimesOf(p, points, ranges) == []
    decreases |points|
  {
    if points != [] {
      assert points[0] in points;
      assert forall pt | pt in points[1..] :: pt in points;
      TimesOfUnlisted(p, points[1..], ranges);
    }
  }

  /**
   * What getParticipants computes: it fails iff some range fails to read;
   * otherwise its keys are exactly the participants some range lists, and
   * each one's list holds, in point order, the time of every point whose range
   * contains it, once per point (equal times from different points all stay).
   */
  lemma {:induction false} AggregateMeaning(points: seq<Point>, ranges: string -> Option<set<int>>)
    ensures Aggregate(points, ranges).Some? <==> AllRead(points, ranges)
    ensures Aggregate(points, ranges).Some? ==>
      forall p :: (p in Aggregate(points, ranges).value <==> Listed(p, points, ranges)) &&
                  (p in Aggregate(points, ranges).value ==>
                     Aggregate(points, ranges).value[p] == TimesOf(p, points, ranges))
    decreases |points|
  {
    if points != [] {
      var init, last := points[..|points| - 1], points[|points| - 1];
      AggregateMeaning(init, ranges);
      assert points == init + [last];
      if AllRead(points, ranges) {
        assert AllRead(init, ranges);
        AggregateStep(init, last, ranges);
      }
    }
  }

  /** The step of AggregateMeaning: one more point appends its time to its participants' lists. */
  lemma AggregateStep(init: seq<Point>, last: Point, ranges: string -> Option<set<int>>)
    requires ranges(last.participant).Some?
    requires Aggregate(init, ranges).Some?
    requires forall p :: (p in Aggregate(init, ranges).value <==> Listed(p, init, ranges)) &&
                         (p in Aggregate(init, ranges).value ==>
                            Aggregate(init, ranges).value[p] == TimesOf(p, init, ranges))
    ensures Aggregate(init + [last], ranges).Some?
    ensures forall p :: (p in Aggregate(init + [last], ranges).value <==> Listed(p, init + [last], ranges)) &&
                        (p in Aggregate(init + [last], ranges).value ==>
                           Aggregate(init + [last], ranges).value[p] == TimesOf(p, init + [last], ranges))
  {
    var points := init + [last];
    assert points[..|init|] == init && points[|init|] == last;
    var m := Aggregate(init, ranges).value;
    var ps := ranges(last.participant).value;
    assert Of(last, ranges) == ps;
    assert Aggregate(points, ranges) == Some(AddTime(m, ps, last.rawTime));
    forall p
      ensures p in Aggregate(points, ranges).value <==> Listed(p, points, ranges)
      ensures p in Aggregate(points, ranges).value ==> Aggregate(points, ranges).value[p] == TimesOf(p, points, ranges)
    {
      TimesOfAppend(p, init, [last], ranges);
      assert TimesOf(p, [last], ranges) == (if p in ps then [last.rawTime] else []) + TimesOf(p, [], ranges);
      if p !in m {
        TimesOfUnlisted(p, init, ranges);
      }
    }
  }

  /** Taking out the point at `k`: its times and those of the others make up all the times. */
  lemma TimesOfRemove(p: int, b: seq<Point>, k: int, ranges: string -> Option<set<int>>)
    requires 0 <= k < |b|
    ensures multiset(TimesOf(p, b, ranges))
         == multiset(TimesOf(p, [b[k]], ranges)) + multiset(TimesOf(p, b[..k] + b[k + 1..], ranges))
  {
    var front, x, back := b[..k], b[k], b[k + 1..];
    assert b == front + [x] + back;
    TimesOfAppend(p, front, [x], ranges);
    TimesOfAppend(p, front + [x], back, ranges);
    TimesOfAppend(p, front, back, ranges);
  }

  lemma {:induction false} TimesOfPermutation(p: int, a: seq<Point>, b: seq<Point>, ranges: string -> Option<set<int>>)
    requires multiset(a) == multiset(b)
    ensures multiset(TimesOf(p, a, ranges)) == multiset(TimesOf(p, b, ranges))
    decreases |a|
  {
    if a == [] {
      assert |b| == |multiset(b)| == 0;
    } else {
      var x := a[0];
      assert x in multiset(b);
      var k :| 0 <= k < |b| && b[k] == x;
      TimesOfRemove(p, b, k, ranges);
      var rest := b[..k] + b[k + 1..];
      MultisetRemove(b, k);
      MultisetCons(a);
      TimesOfPermutation(p, a[1..], rest, ranges);
      TimesOfAppend(p, [x], a[1..], ranges);
    }
  }

  lemma SortedTimesOfPermutation(p: int, a: seq<Point>, b: seq<Point>, ranges: string -> Option<set<int>>)
    requires multiset(a) == multiset(b)
    ensures SortBy(TimesOf(p, a, ranges), Identity) == SortBy(TimesOf(p, b, ranges), Identity)
  {
    TimesOfPermutation(p, a, b, ranges);
    SortDependsOnlyOnElements(TimesOf(p, a, ranges), TimesOf(p, b, ranges));
  }

  /**
   * The order of the points does not matter: a reordering gives the same
   * participants, each with the same times, and after the ascending sort that
   * writeParticipants applies, the same lists.
   */
  lemma AggregateOrderIrrelevant(a: seq<Point>, b: seq<Point>, ranges: string -> Option<set<int>>)
    requires multiset(a) == multiset(b)
    ensures Aggregate(a, ranges).Some? <==> Aggregate(b, ranges).Some?
    ensures Aggregate(a, ranges).Some? ==>
      Aggregate(a, ranges).value.Keys == Aggregate(b, ranges).value.Keys &&
      forall p | p in Aggregate(a, ranges).value ::
        SortBy(Aggregate(a, ranges).value[p], Identity) == SortBy(Aggregate(b, ranges).value[p], Identity)
  {
    SameElements(a, b);
    AggregateMeaning(a, ranges);
    AggregateMeaning(b, ranges);
    assert AllRead(a, ranges) <==> AllRead(b, ranges);
    if Aggregate(a, ranges).Some? {
      var ma, mb := Aggregate(a, ranges).value, Aggregate(b, ranges).value;
      forall p ensures p in ma <==> p in mb {
        assert Listed(p, a, ranges) <==> Listed(p, b, ranges);
      }
      assert ma.Keys == mb.Keys;
      forall p | p in ma ensures SortBy(ma[p], Identity) == SortBy(mb[p], Identity) {
        SortedTimesOfPermutation(p, a, b, ranges);
      }
    }
  }

  lemma UnionOfOne<T>(x: T, part: T -> Option<set<int>>)
    ensures UnionOf([x], part) == part(x)
  {
    assert [x][..0] == [];
    if part(x).Some? {
      assert {} + part(x).value == part(x).value;
    }
  }

  lemma UnionOfTwo<T>(x: T, y: T, part: T -> Option<set<int>>)
    requires part(x).Some? && part(y).Some?
    ensures UnionOf([x, y], part) == Some(part(x).value + part(y).value)
  {
    assert [x, y][..1] == [x];
    UnionOfOne(x, part);
  }

  lemma TokensOfOneToThree()
    ensures Tokens("1-3") == ["1-3"]
    ensures TokenParticipants("1-3") == Some({1, 2, 3})
  {
    assert FreeOf("1-3", {RANGES_SEPARATOR});
    assert "1-3" == NatToString(1) + [RANGE_DASH] + NatToString(3);
    RangeTokenOf(1, 3);
    assert Between(1, 3) == {1, 2, 3};
  }

  /** `"1-3"` reads as participants 1, 2 and 3. */
  lemma OneToThree()
    ensures RangeParticipants("1-3") == Some({1, 2, 3})
  {
    TokensOfOneToThree();
    UnionOfOne("1-3", TokenParticipants);
  }

  /** A participant listed twice in one range, `1-3,2`, is in the record's set once. */
  lemma DuplicateInRange()
    ensures RangeParticipants("1-3,2") == Some({1, 2, 3})
  {
    var seps := {RANGES_SEPARATOR};
    assert Join(["1-3", "2"], RANGES_SEPARATOR) == "1-3,2";
    PiecesOfJoin(["1-3", "2"], RANGES_SEPARATOR, seps);
    assert "1-3,2"[3] == RANGES_SEPARATOR;
    assert Tokens("1-3,2") == ["1-3", "2"];
    TokensOfOneToThree();
    assert "2" == NatToString(2);
    NumberToken(2);
    UnionOfTwo("1-3", "2", TokenParticipants);
    assert {1, 2, 3} + {2} == {1, 2, 3};
  }

  lemma AggregateOne(pt: Point, ranges: string -> Option<set<int>>)
    requires ranges(pt.participant).Some?
    ensures Aggregate([pt], ranges) == Some(AddTime(map[], ranges(pt.participant).value, pt.rawTime))
  {
    assert [pt][..0] == [];
  }

  /** So the record's time is added to that participant's list once. */
  lemma DuplicateTimeOnce(t: Long)
    ensures Aggregate([Point(t, "1-3,2", false, true)], RangeParticipants)
         == Some(map[1 := [t], 2 := [t], 3 := [t]])
  {
    DuplicateInRange();
    AggregateOne(Point(t, "1-3,2", false, true), RangeParticipants);
    var r := AddTime(map[], {1, 2, 3}, t);
    var expected := map[1 := [t], 2 := [t], 3 := [t]];
    assert r.Keys == {1, 2, 3} == expected.Keys;
    forall k | k in r ensures r[k] == expected[k] { }
    assert r == expected;
  }

  /** `"2,4"` reads as participants 2 and 4. */
  lemma TwoAndFour()
    ensures RangeParticipants("2,4") == Some({2, 4})
  {
    var seps := {RANGES_SEPARATOR};
    assert Join(["2", "4"], RANGES_SEPARATOR) == "2,4";
    PiecesOfJoin(["2", "4"], RANGES_SEPARATOR, seps);
    assert "2,4"[1] == RANGES_SEPARATOR;
    assert Tokens("2,4") == ["2", "4"];
    assert "2" == NatToString(2) && "4" == NatToString(4);
    NumberToken(2);
    NumberToken(4);
    UnionOfTwo("2", "4", TokenParticipants);
    assert {2} + {4} == {2, 4};
  }

  lemma AddTimeAt(m: Timelines, ps: set<int>, t: int, p: int)
    requires p in m || p in ps
    ensures AddTime(m, ps, t)[p] == (if p in m then m[p] else []) + (if p in ps then [t] else [])
  {
  }

  lemma AggregateTwo(a: Point, b: Point, ranges: string -> Option<set<int>>)
    requires ranges(a.participant).Some? && ranges(b.participant).Some?
    ensures Aggregate([a, b], ranges)
         == Some(AddTime(AddTime(map[], ranges(a.participant).value, a.rawTime), ranges(b.participant).value, b.rawTime))
  {
    assert [a, b][..1] == [a];
    AggregateOne(a, ranges);
  }

  lemma TwoRecords(t1: int, t2: int)
    ensures AddTime(AddTime(map[], {1, 2, 3}, t1), {2, 4}, t2)
         == map[1 := [t1], 2 := [t1, t2], 3 := [t1], 4 := [t2]]
  {
    var m1 := AddTime(map[], {1, 2, 3}, t1);
    var r := AddTime(m1, {2, 4}, t2);
    var expected := map[1 := [t1], 2 := [t1, t2], 3 := [t1], 4 := [t2]];
    assert r.Keys == expected.Keys;
    forall k | k in r ensures r[k] == expected[k] {
      AddTimeAt(m1, {2, 4}, t2, k);
      if k != 4 {
        AddTimeAt(map[], {1, 2, 3}, t1, k);
      }
    }
  }

  /**
   * The records `("1-3", 100)` and `("2,4", 50)` give 1: [100], 2: [100, 50],
   * 3: [100] and 4: [50].
   */
  lemma WorkedExample()
    ensures Aggregate([Point(100, "1-3", false, true), Point(50, "2,4", false, true)], RangeParticipants)
         == Some(map[1 := [100], 2 := [100, 50], 3 := [100], 4 := [50]])
  {
    OneToThree();
    TwoAndFour();
    AggregateTwo(Point(100, "1-3", false, true), Point(50, "2,4", false, true), RangeParticipants);
    TwoRecords(100, 50);
  }

  /** Participant 2's list of the worked example is written sorted. */
  lemma WorkedExampleSorted()
    ensures SortBy([100, 50], Identity) == [50, 100]
  {
    assert SortBy([50], Identity) == [50];
  }
}
