/**
 * The Java library behaviour the app relies on when it turns values into text
 * and back: decimal printing (`String.valueOf`) and parsing
 * (`Integer.parseInt`, `Long.parseLong`), `String.indexOf`, `String.split`
 * on a one-character pattern, `String.replace`, and the line splitting that
 * `BufferedReader.readLine` performs.
 */
module Strings {

  datatype Option<+T> = None | Some(value: T)

  const INT_MIN: int := -0x8000_0000
  const INT_MAX: int := 0x7FFF_FFFF
  const LONG_MIN: int := -0x8000_0000_0000_0000
  const LONG_MAX: int := 0x7FFF_FFFF_FFFF_FFFF

  /** Java `int`. */
  type Int32 = x: int | -0x8000_0000 <= x <= 0x7FFF_FFFF
  /** Java `long`. */
  type Long = x: int | -0x8000_0000_0000_0000 <= x <= 0x7FFF_FFFF_FFFF_FFFF

  /** Concatenation regrouped; stated once so that long appends need not rediscover it. */
  lemma AppendAssoc<T>(a: seq<T>, b: seq<T>, c: seq<T>)
    ensures (a + b) + c == a + (b + c)
  {
  }

  // ---------------------------------------------------------------------------
  // Decimal numbers

  predicate IsDigit(c: char) { '0' <= c <= '9' }

  predicate AllDigits(s: string) { forall i :: 0 <= i < |s| ==> IsDigit(s[i]) }

  function DigitChar(d: nat): (c: char)
    requires d < 10
    ensures IsDigit(c) && c as int - '0' as int == d
  {
    ('0' as int + d) as char
  }

  /** Decimal digits of `n`, most significant first, without leading zeros. */
  function NatToString(n: nat): (s: string)
    ensures |s| >= 1 && AllDigits(s)
    ensures s[0] == '0' ==> n == 0
    decreases n
  {
    if n < 10 then [DigitChar(n)] else NatToString(n / 10) + [DigitChar(n % 10)]
  }

  /** The number a string of decimal digits denotes, or None if some character is not a digit. */
  function DigitsOf(s: string): Option<nat>
    decreases |s|
  {
    if s == [] then Some(0)
    else
      match DigitsOf(s[..|s| - 1])
      case None => None
      case Some(v) =>
        if IsDigit(s[|s| - 1]) then Some(10 * v + (s[|s| - 1] as int - '0' as int)) else None
  }

  lemma {:induction false} DigitsOfNatToString(n: nat)
    ensures DigitsOf(NatToString(n)) == Some(n)
    decreases n
  {
    if n >= 10 {
      DigitsOfNatToString(n / 10);
      var s := NatToString(n);
      assert s[..|s| - 1] == NatToString(n / 10);
    }
  }

  /** Java's decimal rendering of an integer (`String.valueOf`, string concatenation). */
  function IntToString(n: int): (s: string)
    ensures |s| >= 1
    ensures n >= 0 <==> IsDigit(s[0])
  {
    if n < 0 then "-" + NatToString(-n) else NatToString(n)
  }

  /**
   * Java's `Integer.parseInt` / `Long.parseLong` for the range [lo, hi]: an
   * optional sign `-` or `+`, then at least one ASCII digit `0`-`9`, and the value
   * must lie in range; anything else is a NumberFormatException (None).
   */
  function ParseDecimal(s: string, lo: int, hi: int): (r: Option<int>)
    ensures r.Some? ==> lo <= r.value <= hi
    ensures r.Some? ==> |s| > 0
  {
    if |s| == 0 then None
    else
      var digits := if s[0] == '-' || s[0] == '+' then s[1..] else s;
      if |digits| == 0 then None
      else
        match DigitsOf(digits)
        case None => None
        case Some(d) =>
          var v: int := if s[0] == '-' then -(d as int) else d;
          if lo <= v <= hi then Some(v) else None
  }

  /** `Integer.parseInt`. */
  function ParseInt(s: string): Option<Int32>
  {
    match ParseDecimal(s, INT_MIN, INT_MAX)
    case None => None
    case Some(v) => Some(v)
  }

  /** `Long.parseLong`. */
  function ParseLong(s: string): Option<Long>
  {
    match ParseDecimal(s, LONG_MIN, LONG_MAX)
    case None => None
    case Some(v) => Some(v)
  }

  /** Printing an integer and parsing it back gives the integer again. */
  lemma ParseIntToString(n: int, lo: int, hi: int)
    requires lo <= n <= hi
    ensures ParseDecimal(IntToString(n), lo, hi) == Some(n)
  {
    var s := IntToString(n);
    if n < 0 {
      assert s[1..] == NatToString(-n);
      DigitsOfNatToString(-n);
    } else {
      DigitsOfNatToString(n);
    }
  }

  lemma ParseIntOfToString(n: Int32)
    ensures ParseInt(IntToString(n)) == Some(n)
  {
    ParseIntToString(n, INT_MIN, INT_MAX);
  }

  lemma ParseLongOfToString(n: Long)
    ensures ParseLong(IntToString(n)) == Some(n)
  {
    ParseIntToString(n, LONG_MIN, LONG_MAX);
  }

  // ---------------------------------------------------------------------------
  // Searching, splitting and replacing

  /** `String.indexOf(char)`: the first position of `c`, or -1. */
  function IndexOf(s: string, c: char): (i: int)
    ensures -1 <= i < |s|
    ensures i >= 0 ==> s[i] == c && c !in s[..i]
    ensures i == -1 <==> c !in s
  {
    if |s| == 0 then -1
    else if s[0] == c then 0
    else
      var j := IndexOf(s[1..], c);
      assert s[1..][..if j < 0 then 0 else j] == s[1..if j < 0 then 1 else j + 1];
      if j < 0 then -1 else j + 1
  }

  predicate FreeOf(s: string, seps: set<char>)
  {
    forall i :: 0 <= i < |s| ==> s[i] !in seps
  }

  /** Every piece of `s` between two separator characters, none removed. */
  function Pieces(s: string, seps: set<char>): (r: seq<string>)
    ensures |r| >= 1
    ensures forall i :: 0 <= i < |r| ==> FreeOf(r[i], seps)
    decreases |s|
  {
    if s == [] then [""]
    else
      var rest := Pieces(s[1..], seps);
      if s[0] in seps then [""] + rest
      else [[s[0]] + rest[0]] + rest[1..]
  }

  function DropTrailingEmpty(ps: seq<string>): (r: seq<string>)
    ensures |r| <= |ps| && r == ps[..|r|]
    ensures forall i :: |r| <= i < |ps| ==> ps[i] == ""
    ensures r != [] ==> r[|r| - 1] != ""
  {
    if ps != [] && ps[|ps| - 1] == "" then DropTrailingEmpty(ps[..|ps| - 1]) else ps
  }

  /**
   * `String.split` with a pattern that matches exactly one character of
   * `seps` (`","`, `"%"`, `"[,-]"`): a string without any separator is
   * returned whole, even when empty; otherwise the pieces between separators,
   * with trailing empty pieces removed.
   */
  function Split(s: string, seps: set<char>): (r: seq<string>)
    ensures forall i :: 0 <= i < |r| ==> FreeOf(r[i], seps)
  {
    if FreeOf(s, seps) then [s] else DropTrailingEmpty(Pieces(s, seps))
  }

  /** Joins pieces with the separator `sep` between each two of them. */
  function Join(ps: seq<string>, sep: char): string
    requires |ps| >= 1
  {
    if |ps| == 1 then ps[0] else ps[0] + [sep] + Join(ps[1..], sep)
  }

  lemma {:induction false} PiecesPrefix(a: string, b: string, seps: set<char>)
    requires FreeOf(a, seps)
    ensures Pieces(a + b, seps) == [a + Pieces(b, seps)[0]] + Pieces(b, seps)[1..]
    decreases |a|
  {
    if a != [] {
      assert (a + b)[1..] == a[1..] + b;
      PiecesPrefix(a[1..], b, seps);
      assert [a[0]] + (a[1..] + Pieces(b, seps)[0]) == a + Pieces(b, seps)[0];
    } else {
      var pb := Pieces(b, seps);
      assert a + b == b && a + pb[0] == pb[0];
      assert [pb[0]] + pb[1..] == pb;
    }
  }

  /** Splitting a joined sequence of separator-free pieces gives the pieces back. */
  lemma {:induction false} PiecesOfJoin(ps: seq<string>, sep: char, seps: set<char>)
    requires |ps| >= 1 && sep in seps
    requires forall i :: 0 <= i < |ps| ==> FreeOf(ps[i], seps)
    ensures Pieces(Join(ps, sep), seps) == ps
    decreases |ps|
  {
    if |ps| == 1 {
      PiecesPrefix(ps[0], "", seps);
      assert ps[0] + "" == ps[0];
    } else {
      var tail := Join(ps[1..], sep);
      PiecesOfJoin(ps[1..], sep, seps);
      PiecesPrefix(ps[0], [sep] + tail, seps);
      assert ps[0] + [sep] + tail == ps[0] + ([sep] + tail);
      var st := [sep] + tail;
      assert st[0] == sep && st[1..] == tail;
      assert Pieces(st, seps) == [""] + ps[1..];
      assert ps[0] + "" == ps[0];
    }
  }

  /**
   * `String.replace(target, replacement)`: every non-overlapping occurrence
   * of `target`, scanning from the left, is replaced.
   */
  function Replace(s: string, target: string, rep: string): string
    requires |target| > 0
    decreases |s|
  {
    if |s| < |target| then s
    else if s[..|target|] == target then rep + Replace(s[|target|..], target, rep)
    else [s[0]] + Replace(s[1..], target, rep)
  }

  predicate OccursAt(target: string, s: string, i: int)
  {
    0 <= i <= |s| - |target| && s[i..i + |target|] == target
  }

  ghost predicate Occurs(target: string, s: string)
  {
    exists i :: OccursAt(target, s, i)
  }

  /** Replacing a string that does not occur changes nothing. */
  lemma {:induction false} ReplaceAbsent(s: string, target: string, rep: string)
    requires |target| > 0 && !Occurs(target, s)
    ensures Replace(s, target, rep) == s
    decreases |s|
  {
    if |s| >= |target| {
      assert !OccursAt(target, s, 0);
      assert s[0..|target|] == s[..|target|];
      forall i | OccursAt(target, s[1..], i) ensures false {
        assert s[1..][i..i + |target|] == s[i + 1..i + 1 + |target|];
        assert OccursAt(target, s, i + 1);
      }
      ReplaceAbsent(s[1..], target, rep);
    }
  }

  // ---------------------------------------------------------------------------
  // Lines, as BufferedReader.readLine delivers them

  predicate IsLineBreak(c: char) { c == '\n' || c == '\r' }

  predicate NoLineBreak(s: string) { forall i :: 0 <= i < |s| ==> !IsLineBreak(s[i]) }

  /** Position of the first line break, or |s| if there is none. */
  function FirstBreak(s: string): (i: nat)
    ensures i <= |s|
    ensures i < |s| ==> IsLineBreak(s[i])
    ensures NoLineBreak(s[..i])
  {
    if s == [] then 0
    else if IsLineBreak(s[0]) then 0
    else
      var j := FirstBreak(s[1..]);
      assert s[..j + 1] == [s[0]] + s[1..][..j];
      j + 1
  }

  /**
   * The lines `readLine` returns while `ready()` holds: a line ends at `\n`,
   * `\r` or `\r\n`; a final line without terminator is still returned, and
   * text that ends with a terminator has no empty last line.
   */
  function Lines(s: string): seq<string>
    decreases |s|
  {
    if s == [] then []
    else
      var i := FirstBreak(s);
      if i == |s| then [s]
      else
        var skip := if s[i] == '\r' && i + 1 < |s| && s[i + 1] == '\n' then 2 else 1;
        [s[..i]] + Lines(s[i + skip..])
  }

  lemma {:induction false} FirstBreakOf(a: string, b: string)
    requires NoLineBreak(a)
    ensures FirstBreak(a + b) == |a| + FirstBreak(b)
    decreases |a|
  {
    if a == [] {
      assert a + b == b;
    } else {
      assert (a + b)[0] == a[0];
      assert (a + b)[1..] == a[1..] + b;
      FirstBreakOf(a[1..], b);
    }
  }

  /** A line, a `\n`, and more text: the line comes first and the rest follows. */
  lemma LinesCons(line: string, rest: string)
    requires NoLineBreak(line)
    ensures Lines(line + "\n" + rest) == [line] + Lines(rest)
  {
    var s := line + "\n" + rest;
    FirstBreakOf(line, "\n" + rest);
    assert line + "\n" + rest == line + ("\n" + rest);
    assert s[..|line|] == line;
    assert s[|line| + 1..] == rest;
  }

  lemma LinesSingle(line: string)
    requires NoLineBreak(line) && line != []
    ensures Lines(line) == [line]
  {
    FirstBreakOf(line, "");
    assert line + "" == line;
  }

  /**
   * Lines joined by `\n` read back as the same lines, when none holds a line
   * break and the last is not empty.
   */
  lemma {:induction false} LinesOfJoin(ps: seq<string>)
    requires |ps| >= 1
    requires forall i :: 0 <= i < |ps| ==> NoLineBreak(ps[i])
    requires ps[|ps| - 1] != []
    ensures Lines(Join(ps, '\n')) == ps
    decreases |ps|
  {
    if |ps| == 1 {
      LinesSingle(ps[0]);
    } else {
      LinesOfJoin(ps[1..]);
      LinesCons(ps[0], Join(ps[1..], '\n'));
      assert [ps[0]] + ps[1..] == ps;
    }
  }
}
