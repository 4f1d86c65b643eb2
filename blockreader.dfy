/**
 * The block scan of the application's file reader: the lines of a file are
 * skipped up to and including the first line equal to the start line, and
 * the lines after it are collected up to, and not including, the first line
 * equal to the stop line. Lines are compared whole, by equality. The file is
 * the sequence of its lines.
 */
module ApplicationFileManager {
  import opened Strings

  /** The index of the first line equal to `start`, or |lines| when there is none. */
  function StartIndex(lines: seq<string>, start: string): (k: nat)
    ensures k <= |lines|
    ensures k < |lines| ==> lines[k] == start
    ensures forall j | 0 <= j < k :: lines[j] != start
  {
    if lines == [] then 0
    else if lines[0] == start then 0
    else
      1 + StartIndex(lines[1..], start)
  }

  /** The lines before the first line equal to `stop`, all of them when there is none. */
  function UntilStop(lines: seq<string>, stop: string): (r: seq<string>)
    ensures stop !in r
  {
    if lines == [] || lines[0] == stop then [] else [lines[0]] + UntilStop(lines[1..], stop)
  }

  /** The collected lines are a prefix of the rest of the file, cut at the stop line if there is one. */
  lemma {:induction false} UntilStopPrefix(lines: seq<string>, stop: string)
    ensures var r := UntilStop(lines, stop);
      && |r| <= |lines| && r == lines[..|r|]
      && (|r| < |lines| ==> lines[|r|] == stop)
    decreases |lines|
  {
    if lines != [] && lines[0] != stop {
      UntilStopPrefix(lines[1..], stop);
    }
  }

  /** What `readFile(file, startLine, stopLine)` returns for a file with these lines. */
  function ReadBlock(lines: seq<string>, start: string, stop: string): seq<string>
  {
    var k := StartIndex(lines, start);
    if k == |lines| then [] else UntilStop(lines[k + 1..], stop)
  }

  /** `readFile`: the lines of the file between the first start line and the next stop line. */
  method ReadFile(lines: seq<string>, startLine: string, stopLine: string) returns (result: seq<string>)
    ensures result == ReadBlock(lines, startLine, stopLine)
  {
    var from := SkipThroughStart(lines, startLine);
    result := CollectUntilStop(lines, from, stopLine);
  }

  /** The first loop of `readFile`: the position just after the first start line, or |lines|. */
  method SkipThroughStart(lines: seq<string>, startLine: string) returns (i: nat)
    ensures i == if StartIndex(lines, startLine) == |lines| then |lines| else StartIndex(lines, startLine) + 1
  {
    ghost var k := StartIndex(lines, startLine);
    i := 0;
    while i < |lines|
      invariant 0 <= i <= k
      decreases |lines| - i
    {
      var line := lines[i];
      i := i + 1;
      if line == startLine {
        return;
      }
    }
  }

  /** The second loop of `readFile`: the lines from `from` up to the next stop line. */
  method CollectUntilStop(lines: seq<string>, from: nat, stopLine: string) returns (result: seq<string>)
    requires from <= |lines|
    ensures result == UntilStop(lines[from..], stopLine)
  {
    result := [];
    var i := from;
    while i < |lines|
      invariant from <= i <= |lines|
      invariant UntilStop(lines[from..], stopLine) == result + UntilStop(lines[i..], stopLine)
      decreases |lines| - i
    {
      var line := lines[i];
      if line == stopLine {
        CollectStop(result, lines, i, stopLine);
        return;
      }
      CollectStep(result, lines, i, stopLine);
      result := result + [line];
      i := i + 1;
    }
    assert result + [] == result;
  }

  /** A line other than the stop line moves from the rest of the file to the result. */
  lemma CollectStep(result: seq<string>, lines: seq<string>, i: nat, stop: string)
    requires i < |lines| && lines[i] != stop
    ensures result + UntilStop(lines[i..], stop) == (result + [lines[i]]) + UntilStop(lines[i + 1..], stop)
  {
    assert lines[i..][1..] == lines[i + 1..];
    AppendAssoc(result, [lines[i]], UntilStop(lines[i + 1..], stop));
  }

  /** At the stop line nothing more is collected. */
  lemma CollectStop(result: seq<string>, lines: seq<string>, i: nat, stop: string)
    requires i < |lines| && lines[i] == stop
    ensures result + UntilStop(lines[i..], stop) == result
  {
    assert result + [] == result;
  }

  /** Every line up to and including the first start line is skipped. */
  lemma SkipsThroughStart(pre: seq<string>, rest: seq<string>, start: string, stop: string)
    requires start !in pre
    ensures ReadBlock(pre + [start] + rest, start, stop) == UntilStop(rest, stop)
  {
    var lines := pre + [start] + rest;
    AppendAssoc(pre, [start], rest);
    StartIndexAt(pre, [start] + rest, start);
    assert lines[|pre| + 1..] == rest;
  }

  lemma {:induction false} StartIndexAt(pre: seq<string>, rest: seq<string>, start: string)
    requires start !in pre && rest != [] && rest[0] == start
    ensures StartIndex(pre + rest, start) == |pre|
    decreases |pre|
  {
    if pre != [] {
      assert (pre + rest)[1..] == pre[1..] + rest;
      StartIndexAt(pre[1..], rest, start);
    }
  }

  /** Without a start line the result is empty. */
  lemma NoStartLine(lines: seq<string>, start: string, stop: string)
    requires start !in lines
    ensures ReadBlock(lines, start, stop) == []
  {
  }

  /** The collected lines end before the first stop line that follows. */
  lemma {:induction false} StopsAtStop(body: seq<string>, tail: seq<string>, stop: string)
    requires stop !in body
    ensures UntilStop(body + [stop] + tail, stop) == body
    decreases |body|
  {
    if body != [] {
      assert (body + [stop] + tail)[1..] == body[1..] + [stop] + tail;
      StopsAtStop(body[1..], tail, stop);
    }
  }

  /** Without a later stop line the result runs to the end of the file. */
  lemma {:induction false} NoStopLine(rest: seq<string>, stop: string)
    requires stop !in rest
    ensures UntilStop(rest, stop) == rest
    decreases |rest|
  {
    if rest != [] {
      NoStopLine(rest[1..], stop);
    }
  }

  /** The block between the first start line and the next stop line, in file order. */
  lemma BlockBetweenMarkers(pre: seq<string>, body: seq<string>, tail: seq<string>, start: string, stop: string)
    requires start !in pre && stop !in body
    ensures ReadBlock(pre + [start] + body + [stop] + tail, start, stop) == body
  {
    assert pre + [start] + body + [stop] + tail == pre + [start] + (body + [stop] + tail);
    SkipsThroughStart(pre, body + [stop] + tail, start, stop);
    StopsAtStop(body, tail, stop);
  }

  /** Markers match whole lines only: a line that merely contains one is data. */
  lemma WholeLineMarkers(start: string, stop: string)
    requires start != stop
    ensures ReadBlock([start + "x", start, stop + "x", stop], start, stop) == [stop + "x"]
  {
    assert start + "x" != start by { assert |start + "x"| != |start|; }
    assert stop + "x" != stop by { assert |stop + "x"| != |stop|; }
    BlockBetweenMarkers([start + "x"], [stop + "x"], [], start, stop);
    assert [start + "x"] + [start] + [stop + "x"] + [stop] + [] == [start + "x", start, stop + "x", stop];
  }
}
