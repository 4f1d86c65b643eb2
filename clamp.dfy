/**
 * The participant-number ceiling applied when a range field loses focus. The
 * text is a cleaned range such as `1-3,7`: numbers separated by `,` or `-`.
 * When a ceiling is set (it is not negative) and the text is not empty, every
 * number above the ceiling is to be brought down to the ceiling.
 */
module ParticipantClamp {
  import opened Strings

  /** The characters the range text is split at (`split("[,-]")`). */
  const RANGE_SEPARATORS: set<char> := {',', '-'}

  // ---------------------------------------------------------------------------
  // As written: textual replacement of each over-ceiling token

  /**
   * The loop over the tokens of the text as it was before any replacement:
   * a token that does not parse as an `int` throws (None); a token above the
   * ceiling has every occurrence of it in the current text replaced by the
   * ceiling.
   */
  function ReplaceOver(text: string, tokens: seq<string>, ceiling: Int32): Option<string>
    decreases |tokens|
  {
    if tokens == [] then Some(text)
    else
      match ParseInt(tokens[0])
      case None => None
      case Some(v) =>
        var next := if v > ceiling then Replace(text, tokens[0], IntToString(ceiling)) else text;
        ReplaceOver(next, tokens[1..], ceiling)
  }

  /** The clamp step of `onFocusChange` as written; None where it throws. */
  function ClampAsWritten(text: string, ceiling: Int32): Option<string>
  {
    if ceiling >= 0 && text != "" then ReplaceOver(text, Split(text, RANGE_SEPARATORS), ceiling) else Some(text)
  }

  /** The clamp loop of `onFocusChange`, over the tokens of the text before clamping. */
  method ClampParticipants(text: string, maxParticipant: Int32) returns (r: Option<string>)
    ensures r == ClampAsWritten(text, maxParticipant)
  {
    if maxParticipant >= 0 && text != "" {
      var participants := Split(text, RANGE_SEPARATORS);
      var current := text;
      var i := 0;
      while i < |participants|
        invariant 0 <= i <= |participants|
        invariant ReplaceOver(text, participants, maxParticipant) == ReplaceOver(current, participants[i..], maxParticipant)
        decreases |participants| - i
      {
        var participantNumber := participants[i];
        assert participants[i..][1..] == participants[i + 1..];
        var v := ParseInt(participantNumber);
        if v.None? {
          return None;
        }
        if v.value > maxParticipant {
          current := Replace(current, participantNumber, IntToString(maxParticipant));
        }
        i := i + 1;
      }
      return Some(current);
    }
    return Some(text);
  }

  /** Without a ceiling, or on empty text, the text is kept as it is. */
  lemma NoCeilingKeepsText(text: string, ceiling: Int32)
    requires ceiling < 0 || text == ""
    ensures ClampAsWritten(text, ceiling) == Some(text)
  {
  }

  // ---------------------------------------------------------------------------
  // Intended: each number above the ceiling becomes the ceiling

  /** Position of the first separator, or |s| if there is none. */
  function FirstSeparator(s: string): (i: nat)
    ensures i <= |s|
    ensures i < |s| ==> s[i] in RANGE_SEPARATORS
    ensures FreeOf(s[..i], RANGE_SEPARATORS)
  {
    if s == [] then 0
    else if s[0] in RANGE_SEPARATORS then 0
    else
      var j := FirstSeparator(s[1..]);
      assert s[..j + 1] == [s[0]] + s[1..][..j];
      j + 1
  }

  /** A token of decimal digits whose value is above the ceiling. */
  predicate Above(token: string, ceiling: nat)
  {
    match DigitsOf(token)
    case None => false
    case Some(v) => v > ceiling
  }

  /** One token under the ceiling. */
  function ClampToken(token: string, ceiling: nat): (r: string)
    ensures !Above(r, ceiling)
    ensures !Above(token, ceiling) ==> r == token
    ensures FreeOf(token, RANGE_SEPARATORS) ==> FreeOf(r, RANGE_SEPARATORS)
  {
    if Above(token, ceiling) then
      DigitsOfNatToString(ceiling);
      NatToString(ceiling)
    else token
  }

  /** Every token of the text clamped, and the separators between them kept. */
  function ClampIntended(text: string, ceiling: nat): string
    decreases |text|
  {
    var i := FirstSeparator(text);
    if i == |text| then ClampToken(text, ceiling)
    else ClampToken(text[..i], ceiling) + [text[i]] + ClampIntended(text[i + 1..], ceiling)
  }

  function ClampAll(tokens: seq<string>, ceiling: nat): (r: seq<string>)
    ensures |r| == |tokens|
    ensures forall i | 0 <= i < |r| :: r[i] == ClampToken(tokens[i], ceiling)
  {
    if tokens == [] then [] else [ClampToken(tokens[0], ceiling)] + ClampAll(tokens[1..], ceiling)
  }

  /** A separator-free token, a separator and the rest: the token is the first piece. */
  lemma PiecesAtSeparator(token: string, c: char, rest: string)
    requires FreeOf(token, RANGE_SEPARATORS) && c in RANGE_SEPARATORS
    ensures Pieces(token + [c] + rest, RANGE_SEPARATORS) == [token] + Pieces(rest, RANGE_SEPARATORS)
  {
    PiecesPrefix(token, [c] + rest, RANGE_SEPARATORS);
    assert token + [c] + rest == token + ([c] + rest);
    assert ([c] + rest)[1..] == rest;
    assert token + "" == token;
  }

  lemma PiecesOfToken(token: string)
    requires FreeOf(token, RANGE_SEPARATORS)
    ensures Pieces(token, RANGE_SEPARATORS) == [token]
  {
    PiecesPrefix(token, "", RANGE_SEPARATORS);
    assert token + "" == token;
  }

  /**
   * The intended clamp works token by token: the tokens of the result are the
   * tokens of the text, each brought under the ceiling, in the same places.
   */
  lemma {:induction false} ClampIntendedPieces(text: string, ceiling: nat)
    ensures Pieces(ClampIntended(text, ceiling), RANGE_SEPARATORS) == ClampAll(Pieces(text, RANGE_SEPARATORS), ceiling)
    decreases |text|
  {
    var i := FirstSeparator(text);
    if i == |text| {
      assert text[..i] == text;
      PiecesOfToken(text);
      PiecesOfToken(ClampToken(text, ceiling));
    } else {
      var token, rest := text[..i], text[i + 1..];
      assert text == token + [text[i]] + rest;
      PiecesAtSeparator(token, text[i], rest);
      PiecesAtSeparator(ClampToken(token, ceiling), text[i], ClampIntended(rest, ceiling));
      ClampIntendedPieces(rest, ceiling);
    }
  }

  /** After the intended clamp no number in the text is above the ceiling. */
  lemma ClampIntendedBounded(text: string, ceiling: nat)
    ensures forall t | t in Pieces(ClampIntended(text, ceiling), RANGE_SEPARATORS) :: !Above(t, ceiling)
  {
    ClampIntendedPieces(text, ceiling);
  }

  /** Numbers at or below the ceiling are left alone, so clamping twice is clamping once. */
  lemma {:induction false} ClampIntendedKeepsSmall(text: string, ceiling: nat)
    requires forall t | t in Pieces(text, RANGE_SEPARATORS) :: !Above(t, ceiling)
    ensures ClampIntended(text, ceiling) == text
    decreases |text|
  {
    var i := FirstSeparator(text);
    if i == |text| {
      assert text[..i] == text;
      PiecesOfToken(text);
    } else {
      var token, rest := text[..i], text[i + 1..];
      assert text == token + [text[i]] + rest;
      PiecesAtSeparator(token, text[i], rest);
      assert token in Pieces(text, RANGE_SEPARATORS);
      ClampIntendedKeepsSmall(rest, ceiling);
    }
  }

  lemma ClampIntendedIdempotent(text: string, ceiling: nat)
    ensures ClampIntended(ClampIntended(text, ceiling), ceiling) == ClampIntended(text, ceiling)
  {
    ClampIntendedBounded(text, ceiling);
    ClampIntendedKeepsSmall(ClampIntended(text, ceiling), ceiling);
  }

  // ---------------------------------------------------------------------------
  // Where the two differ

  lemma SplitSixSixteen()
    ensures Split("6,16", RANGE_SEPARATORS) == ["6", "16"]
  {
    assert Join(["6", "16"], ',') == "6,16";
    PiecesOfJoin(["6", "16"], ',', RANGE_SEPARATORS);
    assert "6,16"[1] == ',';
  }

  /**
   * The textual replacement reaches into other numbers: with ceiling 5,
   * replacing `6` turns `16` into `15`, and `16` no longer occurs when its own
   * turn comes, so 15 stays above the ceiling.
   */
  lemma ClampAsWrittenMissesSixteen()
    ensures ClampAsWritten("6,16", 5) == Some("5,15")
  {
    SplitSixSixteen();
    assert IntToString(6) == "6";
    assert IntToString(16) == "16" by {
      assert NatToString(16) == NatToString(1) + [DigitChar(6)];
    }
    ParseIntOfToString(6);
    ParseIntOfToString(16);
    assert IntToString(5) == "5";
    ReplaceSix();
    ReplaceSixteen();
  }

  /** Replacing `6` by `5` in `6,16` also changes the 6 inside 16. */
  lemma ReplaceSix()
    ensures Replace("6,16", "6", "5") == "5,15"
  {
    assert Replace("6", "6", "5") == "5";
    assert Replace("16", "6", "5") == "1" + Replace("6", "6", "5");
    assert Replace(",16", "6", "5") == "," + Replace("16", "6", "5");
  }

  lemma ReplaceSixteen()
    ensures Replace("5,15", "16", "5") == "5,15"
  {
    assert Replace("5", "16", "5") == "5";
    assert "15"[..2] != "16" && "15"[1..] == "5";
    assert Replace("15", "16", "5") == "1" + Replace("5", "16", "5");
    assert Replace(",15", "16", "5") == "," + Replace("15", "16", "5");
  }

  /** The intended clamp brings both numbers down. */
  lemma ClampIntendedSixSixteen()
    ensures ClampIntended("6,16", 5) == "5,5"
  {
    assert FirstSeparator("6,16") == 1;
    assert "6,16"[..1] == "6" && "6,16"[2..] == "16";
    assert FirstSeparator("16") == 2;
    assert DigitsOf("6") == Some(6);
    assert DigitsOf("16") == Some(16) by {
      assert "16"[..1] == "1";
    }
    assert NatToString(5) == "5";
  }

  /** The value of the ten-digit number used below. */
  lemma LongNumber()
    ensures FreeOf("3000000000", RANGE_SEPARATORS)
    ensures DigitsOf("3000000000") == Some(3000000000)
  {
    assert DigitsOf("3") == Some(3);
    assert DigitsOf("30") == Some(30) by { assert "30"[..1] == "3"; }
    assert DigitsOf("300") == Some(300) by { assert "300"[..2] == "30"; }
    assert DigitsOf("3000") == Some(3000) by { assert "3000"[..3] == "300"; }
    assert DigitsOf("30000") == Some(30000) by { assert "30000"[..4] == "3000"; }
    assert DigitsOf("300000") == Some(300000) by { assert "300000"[..5] == "30000"; }
    assert DigitsOf("3000000") == Some(3000000) by { assert "3000000"[..6] == "300000"; }
    assert DigitsOf("30000000") == Some(30000000) by { assert "30000000"[..7] == "3000000"; }
    assert DigitsOf("300000000") == Some(300000000) by { assert "300000000"[..8] == "30000000"; }
    assert "3000000000"[..9] == "300000000";
  }

  /** A number longer than an `int` makes the as-written clamp throw. */
  lemma ClampAsWrittenOverflows()
    ensures ClampAsWritten("3000000000", 5) == None
  {
    LongNumber();
  }

  /** Text without a separator is one token. */
  lemma ClampIntendedToken(token: string, ceiling: nat)
    requires FreeOf(token, RANGE_SEPARATORS)
    ensures ClampIntended(token, ceiling) == ClampToken(token, ceiling)
  {
  }

  /** The intended clamp brings a number of any length down to the ceiling. */
  lemma ClampIntendedLong()
    ensures ClampIntended("3000000000", 5) == "5"
  {
    LongNumber();
    ClampIntendedToken("3000000000", 5);
    assert NatToString(5) == "5";
  }
}
