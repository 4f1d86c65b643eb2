/**
 * File-name escaping: every character of the reserved class is deleted from
 * the name. The class is Java's `\s` (space, tab, line feed, vertical tab,
 * form feed, carriage return) and the characters `| \ ? * < " : > + [ ] / '`.
 * Each match is one character and the replacement is empty, so the regular
 * expression replacement is a character filter.
 */
module FileUtils {
  import opened Strings

  /** The whitespace characters of Java's `\s` outside Unicode mode. */
  predicate Whitespace(c: char)
  {
    c == ' ' || c == '\t' || c == '\n' || c == '\U{000B}' || c == '\U{000C}' || c == '\r'
  }

  /** The characters a file name must not hold: whitespace and `| \ ? * < " : > + [ ] / '`. */
  predicate Reserved(c: char)
  {
    Whitespace(c) || c == '|' || c == '\\' || c == '?' || c == '*' || c == '<' || c == '"' || c == ':'
    || c == '>' || c == '+' || c == '[' || c == ']' || c == '/' || c == '\''
  }

  /** A name without reserved characters. */
  predicate Safe(name: string)
  {
    forall i | 0 <= i < |name| :: !Reserved(name[i])
  }

  /** `escape`: the name with every reserved character deleted. */
  function Escape(name: string): (r: string)
    ensures Safe(r)
    ensures |r| <= |name|
    decreases |name|
  {
    if name == [] then []
    else
      var rest := Escape(name[1..]);
      if Reserved(name[0]) then rest else [name[0]] + rest
  }

  /** One character is kept exactly when it is not reserved. */
  lemma EscapeChar(c: char)
    ensures Escape([c]) == if Reserved(c) then [] else [c]
  {
    assert [c][1..] == [];
  }

  /** Escaping works piece by piece: the kept characters stay in their order. */
  lemma {:induction false} EscapeAppend(a: string, b: string)
    ensures Escape(a + b) == Escape(a) + Escape(b)
    decreases |a|
  {
    if a != [] {
      assert (a + b)[0] == a[0];
      assert (a + b)[1..] == a[1..] + b;
      EscapeAppend(a[1..], b);
    } else {
      assert a + b == b;
    }
  }

  /** Every character that is not reserved keeps its number of occurrences; reserved ones are gone. */
  lemma {:induction false} EscapeCounts(name: string, c: char)
    ensures multiset(Escape(name))[c] == if Reserved(c) then 0 else multiset(name)[c]
    decreases |name|
  {
    if name != [] {
      EscapeCounts(name[1..], c);
      assert name == [name[0]] + name[1..];
    }
  }

  /** A name without reserved characters is returned unchanged. */
  lemma {:induction false} EscapeKeepsSafe(name: string)
    requires Safe(name)
    ensures Escape(name) == name
    decreases |name|
  {
    if name != [] {
      assert name[0] == name[0 + 0];
      assert Safe(name[1..]) by {
        forall i | 0 <= i < |name[1..]| ensures !Reserved(name[1..][i]) {
          assert name[1..][i] == name[i + 1];
        }
      }
      EscapeKeepsSafe(name[1..]);
    }
  }

  /** Escaping an escaped name changes nothing. */
  lemma EscapeIdempotent(name: string)
    ensures Escape(Escape(name)) == Escape(name)
  {
    EscapeKeepsSafe(Escape(name));
  }

  /** A name made only of reserved characters escapes to the empty name. */
  lemma {:induction false} EscapeAllReserved(name: string)
    requires forall i | 0 <= i < |name| :: Reserved(name[i])
    ensures Escape(name) == ""
    decreases |name|
  {
    if name != [] {
      assert forall i | 0 <= i < |name[1..]| :: name[1..][i] == name[i + 1];
      EscapeAllReserved(name[1..]);
    }
  }

  /** A name holding a reserved character gets strictly shorter. */
  lemma {:induction false} EscapeShortens(name: string, k: nat)
    requires k < |name| && Reserved(name[k])
    ensures |Escape(name)| < |name|
    decreases |name|
  {
    if k > 0 {
      assert name[1..][k - 1] == name[k];
      EscapeShortens(name[1..], k - 1);
    }
  }

  /** A concrete name: the space and the slash are removed. */
  lemma EscapeExample()
    ensures Escape("a b/c") == "abc"
  {
  }
}
