/**
 * The event configuration: six settings of an event, the form fields they are
 * edited through, and the text block that carries them between devices. The
 * block is a start line, one `KEY=VALUE` line per setting and an end line; a
 * file may hold other text around it, and only the first such block is read.
 */
module EventConfigurations {
  import opened Strings
  import opened ApplicationFileManager

  const MOBILE_BLOCK_START: string := "%MOBILE_START%"
  const MOBILE_BLOCK_END: string := "%MOBILE_END%"
  const KEY_VALUE_DELIMITER: char := '='
  const KEY_MAX_PARTICIPANT: string := "MAX_PARTICIPANT"
  const KEY_AUTO_SYNC_DELAY: string := "AUTO_SYNC_DELAY"
  const KEY_MANUAL_SYNC_DELAY: string := "MANUAL_SYNC_DELAY"
  const KEY_LAPS_COUNT: string := "LAPS_COUNT"
  const KEY_CHECKPOINTS_COUNT: string := "CHECKPOINTS_COUNT"
  const KEY_EVENT_NAME: string := "EVENT_NAME"

  /** The numeric settings. */
  datatype NumberField = MaxParticipant | AutoSyncDelay | ManualSyncDelay | LapsCount | CheckPointsCount

  /** The fields of the configuration form: the event name and the numeric settings. */
  datatype Field = EventName | Number(which: NumberField)

  /** The values an event configuration holds. */
  datatype Settings = Settings(
    eventName: string,
    maxParticipant: Int32,
    autoSyncDelay: Int32,
    manualSyncDelay: Int32,
    lapsCount: Int32,
    checkPointsCount: Int32)

  /** A configuration that nothing has been set on. */
  const DEFAULTS: Settings := Settings("New event", 0, 1, 10, 1, 1)

  /** The order in which the fields are written in the block. */
  const BLOCK_ORDER: seq<Field> := [EventName, Number(MaxParticipant), Number(AutoSyncDelay), Number(ManualSyncDelay),
                                    Number(LapsCount), Number(CheckPointsCount)]

  /** The order in which `setFields` reads the numeric fields. */
  const NUMBER_ORDER: seq<NumberField> := [MaxParticipant, AutoSyncDelay, ManualSyncDelay, LapsCount, CheckPointsCount]

  function Get(s: Settings, n: NumberField): Int32
  {
    match n
    case MaxParticipant => s.maxParticipant
    case AutoSyncDelay => s.autoSyncDelay
    case ManualSyncDelay => s.manualSyncDelay
    case LapsCount => s.lapsCount
    case CheckPointsCount => s.checkPointsCount
  }

  /** `s` with the numeric setting `n` replaced by `v`. */
  function Set(s: Settings, n: NumberField, v: Int32): (r: Settings)
    ensures Get(r, n) == v
    ensures forall m :: m != n ==> Get(r, m) == Get(s, m)
    ensures r.eventName == s.eventName
  {
    match n
    case MaxParticipant => s.(maxParticipant := v)
    case AutoSyncDelay => s.(autoSyncDelay := v)
    case ManualSyncDelay => s.(manualSyncDelay := v)
    case LapsCount => s.(lapsCount := v)
    case CheckPointsCount => s.(checkPointsCount := v)
  }

  /** Settings are equal when their names and all numeric settings are. */
  lemma SettingsEqual(s: Settings, t: Settings)
    requires s.eventName == t.eventName
    requires forall n :: Get(s, n) == Get(t, n)
    ensures s == t
  {
    assert Get(s, MaxParticipant) == Get(t, MaxParticipant);
    assert Get(s, AutoSyncDelay) == Get(t, AutoSyncDelay);
    assert Get(s, ManualSyncDelay) == Get(t, ManualSyncDelay);
    assert Get(s, LapsCount) == Get(t, LapsCount);
    assert Get(s, CheckPointsCount) == Get(t, CheckPointsCount);
  }

  /** The key a field is written under in the block. */
  function KeyName(f: Field): (k: string)
    ensures |k| > 0 && KEY_VALUE_DELIMITER !in k && k[0] != '%' && NoLineBreak(k)
  {
    match f
    case EventName => KEY_EVENT_NAME
    case Number(MaxParticipant) => KEY_MAX_PARTICIPANT
    case Number(AutoSyncDelay) => KEY_AUTO_SYNC_DELAY
    case Number(ManualSyncDelay) => KEY_MANUAL_SYNC_DELAY
    case Number(LapsCount) => KEY_LAPS_COUNT
    case Number(CheckPointsCount) => KEY_CHECKPOINTS_COUNT
  }

  /** The field a key names, if any: the `switch` over the keys of the block. */
  function KeyField(key: string): (r: Option<Field>)
    ensures r.Some? ==> KeyName(r.value) == key
    ensures forall f :: KeyName(f) == key ==> r == Some(f)
  {
    if key == KEY_MAX_PARTICIPANT then Some(Number(MaxParticipant))
    else if key == KEY_AUTO_SYNC_DELAY then Some(Number(AutoSyncDelay))
    else if key == KEY_MANUAL_SYNC_DELAY then Some(Number(ManualSyncDelay))
    else if key == KEY_LAPS_COUNT then Some(Number(LapsCount))
    else if key == KEY_CHECKPOINTS_COUNT then Some(Number(CheckPointsCount))
    else if key == KEY_EVENT_NAME then Some(EventName)
    else None
  }

  /** How a field shows a setting: the name as it is, a number in decimal. */
  function FieldText(s: Settings, f: Field): string
  {
    match f
    case EventName => s.eventName
    case Number(n) => IntToString(Get(s, n))
  }

  // ---------------------------------------------------------------------------
  // Form fields

  /** `getFields`: every field with the text of its setting. */
  function Fields(s: Settings): (r: map<Field, string>)
    ensures forall f :: f in r && r[f] == FieldText(s, f)
  {
    EveryFieldInBlock();
    map f: Field | f in BLOCK_ORDER :: FieldText(s, f)
  }

  /** Where a field stands in the block. */
  function Position(f: Field): (i: nat)
    ensures i < |BLOCK_ORDER| && BLOCK_ORDER[i] == f
  {
    match f
    case EventName => 0
    case Number(MaxParticipant) => 1
    case Number(AutoSyncDelay) => 2
    case Number(ManualSyncDelay) => 3
    case Number(LapsCount) => 4
    case Number(CheckPointsCount) => 5
  }

  /** No field stands twice in the block. */
  lemma PositionOf(i: nat)
    requires i < |BLOCK_ORDER|
    ensures Position(BLOCK_ORDER[i]) == i
  {
  }

  lemma EveryFieldInBlock()
    ensures forall f :: f in BLOCK_ORDER
  {
    forall f ensures f in BLOCK_ORDER {
      var i := Position(f);
    }
  }

  /** A numeric field's text parsed with `Integer.parseInt`; a missing field fails like an unparsable one. */
  function ReadNumber(fields: map<Field, string>, n: NumberField): Option<Int32>
  {
    if Number(n) in fields then ParseInt(fields[Number(n)]) else None
  }

  /** The position of the first field in `ns` that does not read as a number, or |ns|. */
  function FirstUnread(fields: map<Field, string>, ns: seq<NumberField>): (k: nat)
    ensures k <= |ns|
    ensures forall i | 0 <= i < k :: ReadNumber(fields, ns[i]).Some?
    ensures k < |ns| ==> ReadNumber(fields, ns[k]).None?
  {
    if ns == [] || ReadNumber(fields, ns[0]).None? then 0 else 1 + FirstUnread(fields, ns[1..])
  }

  /**
   * The numeric fields `ns` read in order into `s`, stopping at the first one
   * that does not parse; the flag says whether all of them did. The fields
   * read before the failure keep their new values.
   */
  function SetNumbers(s: Settings, fields: map<Field, string>, ns: seq<NumberField>): (Settings, bool)
    decreases |ns|
  {
    if ns == [] then (s, true)
    else
      match ReadNumber(fields, ns[0])
      case None => (s, false)
      case Some(v) => SetNumbers(Set(s, ns[0], v), fields, ns[1..])
  }

  /**
   * The fields before the first unreadable one hold the numbers read from
   * them, every other numeric setting is left as it was, the name is not
   * touched, and the flag is true exactly when no field failed.
   */
  lemma {:induction false} SetNumbersReads(s: Settings, fields: map<Field, string>, ns: seq<NumberField>)
    ensures var r, k := SetNumbers(s, fields, ns), FirstUnread(fields, ns);
      && (r.1 <==> k == |ns|)
      && r.0.eventName == s.eventName
      && (forall n | n in ns[..k] :: ReadNumber(fields, n) == Some(Get(r.0, n)))
      && (forall n | n !in ns[..k] :: Get(r.0, n) == Get(s, n))
    decreases |ns|
  {
    if ns != [] && ReadNumber(fields, ns[0]).Some? {
      var v := ReadNumber(fields, ns[0]).value;
      SetNumbersReads(Set(s, ns[0], v), fields, ns[1..]);
      assert ns[..FirstUnread(fields, ns)] == [ns[0]] + ns[1..][..FirstUnread(fields, ns[1..])];
    }
  }

  /** A field that does not read ends the update with the settings as they are. */
  lemma NumberFails(s: Settings, fields: map<Field, string>, ns: seq<NumberField>, goal: (Settings, bool))
    requires ns != [] && ReadNumber(fields, ns[0]).None?
    requires goal == SetNumbers(s, fields, ns)
    ensures goal == (s, false)
  {
  }

  /** A field that reads is stored, and the update goes on with the next one. */
  lemma NumberRead(s: Settings, fields: map<Field, string>, ns: seq<NumberField>, goal: (Settings, bool))
    requires ns != [] && ReadNumber(fields, ns[0]).Some?
    requires goal == SetNumbers(s, fields, ns)
    ensures goal == SetNumbers(Set(s, ns[0], ReadNumber(fields, ns[0]).value), fields, ns[1..])
  {
  }

  /**
   * `setFields`: the name is taken first, then each numeric field in turn;
   * a field that is missing or does not parse ends the update there, with the
   * earlier assignments kept, and the result is false.
   */
  function SetFieldsOf(s: Settings, fields: map<Field, string>): (r: (Settings, bool))
    requires EventName in fields
  {
    SetNumbers(s.(eventName := fields[EventName]), fields, NUMBER_ORDER)
  }

  /** setFields succeeds exactly when every numeric field parses, and then holds exactly the fields' values. */
  lemma SetFieldsSucceeds(s: Settings, fields: map<Field, string>)
    requires EventName in fields
    ensures var r := SetFieldsOf(s, fields);
      && (r.1 <==> forall n :: ReadNumber(fields, n).Some?)
      && r.0.eventName == fields[EventName]
      && (r.1 ==> forall n :: ReadNumber(fields, n) == Some(Get(r.0, n)))
  {
    var r := SetFieldsOf(s, fields);
    var k := FirstUnread(fields, NUMBER_ORDER);
    SetNumbersReads(s.(eventName := fields[EventName]), fields, NUMBER_ORDER);
    forall n ensures n in NUMBER_ORDER {
      match n
      case MaxParticipant => assert NUMBER_ORDER[0] == n;
      case AutoSyncDelay => assert NUMBER_ORDER[1] == n;
      case ManualSyncDelay => assert NUMBER_ORDER[2] == n;
      case LapsCount => assert NUMBER_ORDER[3] == n;
      case CheckPointsCount => assert NUMBER_ORDER[4] == n;
    }
    if r.1 {
      assert NUMBER_ORDER[..k] == NUMBER_ORDER;
    }
  }

  /** A maximum participant that does not parse fails with only the name changed. */
  lemma BadMaxParticipant(s: Settings, fields: map<Field, string>)
    requires EventName in fields && ReadNumber(fields, MaxParticipant).None?
    ensures SetFieldsOf(s, fields) == (s.(eventName := fields[EventName]), false)
  {
    var t := s.(eventName := fields[EventName]);
    var r := SetFieldsOf(s, fields);
    assert FirstUnread(fields, NUMBER_ORDER) == 0;
    SetNumbersReads(t, fields, NUMBER_ORDER);
    SettingsEqual(r.0, t);
  }

  /** Setting the fields a configuration shows gives the same configuration back, and succeeds. */
  lemma SetFieldsOfFields(s: Settings)
    ensures SetFieldsOf(s, Fields(s)) == (s, true)
  {
    var fields := Fields(s);
    forall n ensures ReadNumber(fields, n) == Some(Get(s, n)) {
      ParseIntOfToString(Get(s, n));
    }
    SetFieldsSucceeds(s, fields);
    SettingsEqual(SetFieldsOf(s, fields).0, s);
  }

  // ---------------------------------------------------------------------------
  // The text block

  function Entry(key: string, value: string): string
  {
    key + [KEY_VALUE_DELIMITER] + value
  }

  function Line(s: Settings, f: Field): string
  {
    Entry(KeyName(f), FieldText(s, f))
  }

  /** The lines between the markers, in the order `getStringData` writes them. */
  function BlockLines(s: Settings): (r: seq<string>)
    ensures |r| == |BLOCK_ORDER|
    ensures forall i | 0 <= i < |r| :: r[i] == Line(s, BLOCK_ORDER[i])
  {
    seq(|BLOCK_ORDER|, i requires 0 <= i < |BLOCK_ORDER| => Line(s, BLOCK_ORDER[i]))
  }

  /** `getStringData`: the start marker, the six lines and the end marker, separated by `\n`. */
  function StringData(s: Settings): string
  {
    Join([MOBILE_BLOCK_START] + BlockLines(s) + [MOBILE_BLOCK_END], '\n')
  }

  /**
   * One value applied to `s` under `key`: a numeric key takes the value only
   * if it parses (otherwise the whole read fails), the name key takes it as
   * it is, and any other key is ignored.
   */
  function Assign(s: Settings, key: string, value: string): (r: Option<Settings>)
    ensures r.None? <==> KeyField(key).Some? && KeyField(key).value.Number? && ParseInt(value).None?
    ensures r.Some? ==> forall f | KeyField(key) != Some(f) :: Agrees(r.value, s, f)
    ensures r.Some? && KeyField(key) == Some(EventName) ==> r.value.eventName == value
    ensures r.Some? && KeyField(key).Some? && KeyField(key).value.Number? ==>
      ParseInt(value) == Some(Get(r.value, KeyField(key).value.which))
  {
    match KeyField(key)
    case None => Some(s)
    case Some(EventName) => Some(s.(eventName := value))
    case Some(Number(n)) =>
      match ParseInt(value)
      case None => None
      case Some(v) => Some(Set(s, n, v))
  }

  /**
   * One line of the block: split at its first `=` into key and value; a line
   * without `=` makes the read fail.
   */
  function DecodeLine(s: Settings, line: string): (r: Option<Settings>)
    ensures KEY_VALUE_DELIMITER !in line ==> r.None?
  {
    var d := IndexOf(line, KEY_VALUE_DELIMITER);
    if d < 0 then None else Assign(s, line[..d], line[d + 1..])
  }

  /** The lines of the block applied in order, failing at the first line that fails. */
  function DecodeLines(s: Settings, lines: seq<string>): Option<Settings>
    decreases |lines|
  {
    if lines == [] then Some(s)
    else
      match DecodeLine(s, lines[0])
      case None => None
      case Some(t) => DecodeLines(t, lines[1..])
  }

  /** What reading a configuration file with these lines produces. */
  function Decode(fileLines: seq<string>): Option<Settings>
  {
    DecodeLines(DEFAULTS, ReadBlock(fileLines, MOBILE_BLOCK_START, MOBILE_BLOCK_END))
  }

  /** The key is everything before the first `=`; later `=` belong to the value. */
  lemma DecodeEntry(s: Settings, key: string, value: string)
    requires KEY_VALUE_DELIMITER !in key
    ensures DecodeLine(s, Entry(key, value)) == Assign(s, key, value)
  {
    var line := Entry(key, value);
    assert line[..|key|] == key;
    assert line[|key|] == KEY_VALUE_DELIMITER;
    assert line[..|key|] == key;
    assert line[|key| + 1..] == value;
  }

  /** Reading the lines of `a` and then those of `b` is reading `a + b`. */
  lemma {:induction false} DecodeLinesAppend(s: Settings, a: seq<string>, b: seq<string>)
    ensures DecodeLines(s, a + b) == match DecodeLines(s, a) case None => None case Some(t) => DecodeLines(t, b)
    decreases |a|
  {
    if a == [] {
      assert a + b == b;
    } else {
      assert (a + b)[0] == a[0];
      assert (a + b)[1..] == a[1..] + b;
      match DecodeLine(s, a[0])
      case None =>
      case Some(t) => DecodeLinesAppend(t, a[1..], b);
    }
  }

  /** A line without `=` anywhere in the block makes the whole read fail. */
  lemma {:induction false} LineWithoutDelimiter(s: Settings, lines: seq<string>, i: nat)
    requires i < |lines| && KEY_VALUE_DELIMITER !in lines[i]
    ensures DecodeLines(s, lines) == None
    decreases i
  {
    if i > 0 {
      match DecodeLine(s, lines[0])
      case None =>
      case Some(t) => LineWithoutDelimiter(t, lines[1..], i - 1);
    }
  }

  /** When a key appears on several lines, the last one decides. */
  lemma LastNameWins(s: Settings, lines: seq<string>, name: string)
    requires DecodeLines(s, lines).Some?
    ensures DecodeLines(s, lines + [Entry(KEY_EVENT_NAME, name)]).Some?
    ensures DecodeLines(s, lines + [Entry(KEY_EVENT_NAME, name)]).value.eventName == name
  {
    var t := DecodeLines(s, lines).value;
    DecodeLinesAppend(s, lines, [Entry(KEY_EVENT_NAME, name)]);
    DecodeEntry(t, KEY_EVENT_NAME, name);
    assert KeyField(KEY_EVENT_NAME) == Some(EventName);
  }

  /** The value of the last line of `lines` whose key is `key`; None when no line has that key. */
  function LastValue(lines: seq<string>, key: string): Option<string>
    decreases |lines|
  {
    if lines == [] then None
    else
      var line := lines[|lines| - 1];
      var d := IndexOf(line, KEY_VALUE_DELIMITER);
      if 0 <= d && line[..d] == key then Some(line[d + 1..]) else LastValue(lines[..|lines| - 1], key)
  }

  /** Field `f` of `x` holds what the text `value` says: the name itself, or the number it parses to. */
  predicate Holds(x: Settings, f: Field, value: string)
  {
    match f
    case EventName => x.eventName == value
    case Number(n) => ParseInt(value) == Some(Get(x, n))
  }

  /**
   * The key rules of a block read onto `s`: each field holds the value of the
   * last line written under its key, and a field whose key no line uses keeps
   * its value from `s`.
   */
  lemma {:induction false} LastLineDecides(s: Settings, lines: seq<string>, f: Field)
    requires DecodeLines(s, lines).Some?
    ensures match LastValue(lines, KeyName(f))
      case None => Agrees(DecodeLines(s, lines).value, s, f)
      case Some(v) => Holds(DecodeLines(s, lines).value, f, v)
    decreases |lines|
  {
    if lines == [] {
      return;
    }
    var init, line := lines[..|lines| - 1], lines[|lines| - 1];
    assert lines == init + [line];
    DecodeLinesAppend(s, init, [line]);
    var t := DecodeLines(s, init).value;
    var d := IndexOf(line, KEY_VALUE_DELIMITER);
    var u := DecodeLines(s, lines).value;
    assert DecodeLine(t, line) == Some(u);
    var key := line[..d];
    if key == KeyName(f) {
      assert KeyField(key) == Some(f);
    } else {
      assert KeyField(key) != Some(f);
      assert Agrees(u, t, f);
      LastLineDecides(s, init, f);
    }
  }

  /** A file whose block never names a field gives that field its default. */
  lemma MissingKeyKeepsDefault(fileLines: seq<string>, f: Field)
    requires Decode(fileLines).Some?
    requires LastValue(ReadBlock(fileLines, MOBILE_BLOCK_START, MOBILE_BLOCK_END), KeyName(f)) == None
    ensures Agrees(Decode(fileLines).value, DEFAULTS, f)
  {
    LastLineDecides(DEFAULTS, ReadBlock(fileLines, MOBILE_BLOCK_START, MOBILE_BLOCK_END), f);
  }

  /**
   * A file whose block names the event, gives the maximum participant twice
   * and leaves out every other key: the later maximum wins and the other
   * settings, the laps count among them, keep their defaults.
   */
  lemma RepeatedAndMissingKeys()
    ensures Decode([MOBILE_BLOCK_START, Entry(KEY_EVENT_NAME, "Race"), Entry(KEY_MAX_PARTICIPANT, "50"),
                    Entry(KEY_MAX_PARTICIPANT, "60"), MOBILE_BLOCK_END])
      == Some(Settings("Race", 60, 1, 10, 1, 1))
  {
    var body := [Entry(KEY_EVENT_NAME, "Race"), Entry(KEY_MAX_PARTICIPANT, "50"), Entry(KEY_MAX_PARTICIPANT, "60")];
    EntryNotMarker(KEY_MAX_PARTICIPANT, "50");
    EntryNotMarker(KEY_MAX_PARTICIPANT, "60");
    EntryNotMarker(KEY_EVENT_NAME, "Race");
    BlockBetweenMarkers([], body, [], MOBILE_BLOCK_START, MOBILE_BLOCK_END);
    assert [] + [MOBILE_BLOCK_START] + body + [MOBILE_BLOCK_END] + []
      == [MOBILE_BLOCK_START, Entry(KEY_EVENT_NAME, "Race"), Entry(KEY_MAX_PARTICIPANT, "50"),
          Entry(KEY_MAX_PARTICIPANT, "60"), MOBILE_BLOCK_END];
    ExampleBody(body);
  }

  /** A line written under a key is never the end marker. */
  lemma EntryNotMarker(key: string, value: string)
    requires |key| > 0 && key[0] != '%'
    ensures Entry(key, value) != MOBILE_BLOCK_END
  {
    assert Entry(key, value)[0] == key[0];
  }

  lemma ExampleBody(body: seq<string>)
    requires body == [Entry(KEY_EVENT_NAME, "Race"), Entry(KEY_MAX_PARTICIPANT, "50"), Entry(KEY_MAX_PARTICIPANT, "60")]
    ensures DecodeLines(DEFAULTS, body) == Some(Settings("Race", 60, 1, 10, 1, 1))
  {
    var s1 := DEFAULTS.(eventName := "Race");
    DecodeNameLine(DEFAULTS, "Race");
    DecodeFirst(DEFAULTS, body, s1);
    FiftyAndSixty();
    assert body[1..] == [Entry(KEY_MAX_PARTICIPANT, IntToString(50)), Entry(KEY_MAX_PARTICIPANT, IntToString(60))];
    TwoMaxLines(s1, 50, 60);
  }

  lemma FiftyAndSixty()
    ensures IntToString(50) == "50" && IntToString(60) == "60"
  {
  }

  /** Two maximum-participant lines: the second one decides. */
  lemma TwoMaxLines(s: Settings, a: Int32, b: Int32)
    ensures DecodeLines(s, [Entry(KEY_MAX_PARTICIPANT, IntToString(a)), Entry(KEY_MAX_PARTICIPANT, IntToString(b))])
      == Some(s.(maxParticipant := b))
  {
    var lines := [Entry(KEY_MAX_PARTICIPANT, IntToString(a)), Entry(KEY_MAX_PARTICIPANT, IntToString(b))];
    var s2 := s.(maxParticipant := a);
    DecodeMaxLine(s, IntToString(a), a);
    DecodeFirst(s, lines, s2);
    DecodeMaxLine(s2, IntToString(b), b);
    DecodeFirst(s2, lines[1..], s2.(maxParticipant := b));
    assert lines[1..][1..] == [];
  }

  /** A first line that decodes hands its result to the rest of the block. */
  lemma DecodeFirst(s: Settings, lines: seq<string>, t: Settings)
    requires lines != [] && DecodeLine(s, lines[0]) == Some(t)
    ensures DecodeLines(s, lines) == DecodeLines(t, lines[1..])
  {
  }

  /** A name line sets the name. */
  lemma DecodeNameLine(s: Settings, name: string)
    ensures DecodeLine(s, Entry(KEY_EVENT_NAME, name)) == Some(s.(eventName := name))
  {
    DecodeEntry(s, KEY_EVENT_NAME, name);
    assert KeyField(KEY_EVENT_NAME) == Some(EventName);
  }

  /** A maximum-participant line whose value is the decimal text of `n` sets the maximum to `n`. */
  lemma DecodeMaxLine(s: Settings, value: string, n: Int32)
    requires value == IntToString(n)
    ensures DecodeLine(s, Entry(KEY_MAX_PARTICIPANT, value)) == Some(s.(maxParticipant := n))
  {
    DecodeEntry(s, KEY_MAX_PARTICIPANT, value);
    assert KeyField(KEY_MAX_PARTICIPANT) == Some(Number(MaxParticipant));
    ParseIntOfToString(n);
  }

  /** The lines a configuration writes, read onto any settings, give that configuration. */
  lemma DecodeBlockLines(x: Settings, s: Settings)
    ensures DecodeLines(x, BlockLines(s)) == Some(s)
  {
    DecodeBlockFrom(x, s, 0);
  }

  /** `x` holds what `s` holds in field `f`. */
  predicate Agrees(x: Settings, s: Settings, f: Field)
  {
    match f
    case EventName => x.eventName == s.eventName
    case Number(n) => Get(x, n) == Get(s, n)
  }

  /** `x` with field `f` taken from `s`. */
  function Take(x: Settings, s: Settings, f: Field): (y: Settings)
    ensures Agrees(y, s, f)
    ensures forall g | g != f :: Agrees(y, s, g) == Agrees(x, s, g)
  {
    match f
    case EventName => x.(eventName := s.eventName)
    case Number(n) => Set(x, n, Get(s, n))
  }

  /** A written line read onto `x` takes that field from the configuration that wrote it. */
  lemma DecodeWrittenLine(x: Settings, s: Settings, f: Field)
    ensures DecodeLine(x, Line(s, f)) == Some(Take(x, s, f))
  {
    DecodeEntry(x, KeyName(f), FieldText(s, f));
    if f.Number? {
      ParseIntOfToString(Get(s, f.which));
    }
  }

  /** Settings that agree in every field of the block are equal. */
  lemma AgreesEverywhere(x: Settings, s: Settings)
    requires forall j | 0 <= j < |BLOCK_ORDER| :: Agrees(x, s, BLOCK_ORDER[j])
    ensures x == s
  {
    forall n ensures Get(x, n) == Get(s, n) {
      assert Agrees(x, s, BLOCK_ORDER[Position(Number(n))]);
    }
    assert Agrees(x, s, BLOCK_ORDER[0]);
    SettingsEqual(x, s);
  }

  lemma {:induction false} DecodeBlockFrom(x: Settings, s: Settings, i: nat)
    requires i <= |BLOCK_ORDER|
    requires forall j | 0 <= j < i :: Agrees(x, s, BLOCK_ORDER[j])
    ensures DecodeLines(x, BlockLines(s)[i..]) == Some(s)
    decreases |BLOCK_ORDER| - i
  {
    var ls := BlockLines(s);
    if i == |BLOCK_ORDER| {
      AgreesEverywhere(x, s);
      assert ls[i..] == [];
    } else {
      var f := BLOCK_ORDER[i];
      var y := Take(x, s, f);
      DecodeWrittenLine(x, s, f);
      assert ls[i..][0] == Line(s, f);
      assert ls[i..][1..] == ls[i + 1..];
      TakeExtendsAgreement(x, s, i);
      DecodeBlockFrom(y, s, i + 1);
    }
  }

  /** Taking field `i` from `s` keeps the agreement on the fields before it. */
  lemma TakeExtendsAgreement(x: Settings, s: Settings, i: nat)
    requires i < |BLOCK_ORDER|
    requires forall j | 0 <= j < i :: Agrees(x, s, BLOCK_ORDER[j])
    ensures forall j | 0 <= j < i + 1 :: Agrees(Take(x, s, BLOCK_ORDER[i]), s, BLOCK_ORDER[j])
  {
    forall j | 0 <= j < i + 1 ensures Agrees(Take(x, s, BLOCK_ORDER[i]), s, BLOCK_ORDER[j]) {
      if j < i {
        PositionOf(j);
        PositionOf(i);
      }
    }
  }

  lemma IntToStringNoBreak(n: int)
    ensures NoLineBreak(IntToString(n))
  {
    var t := IntToString(n);
    forall i | 0 <= i < |t| ensures !IsLineBreak(t[i]) {
      if n < 0 {
        assert i > 0 ==> t[i] == NatToString(-n)[i - 1];
      }
    }
  }

  /** The text of the block splits back into the start marker, the six lines and the end marker. */
  lemma LinesOfStringData(s: Settings)
    requires NoLineBreak(s.eventName)
    ensures Lines(StringData(s)) == [MOBILE_BLOCK_START] + BlockLines(s) + [MOBILE_BLOCK_END]
  {
    BlockWithoutBreaks(s, BlockLines(s));
    LinesOfJoin([MOBILE_BLOCK_START] + BlockLines(s) + [MOBILE_BLOCK_END]);
  }

  lemma BlockWithoutBreaks(s: Settings, body: seq<string>)
    requires NoLineBreak(s.eventName) && body == BlockLines(s)
    ensures var ps := [MOBILE_BLOCK_START] + body + [MOBILE_BLOCK_END];
      forall i :: 0 <= i < |ps| ==> NoLineBreak(ps[i])
  {
    var ps := [MOBILE_BLOCK_START] + body + [MOBILE_BLOCK_END];
    forall i | 0 <= i < |ps| ensures NoLineBreak(ps[i]) {
      if 1 <= i <= |body| {
        var f := BLOCK_ORDER[i - 1];
        assert ps[i] == body[i - 1] == Line(s, f);
        if f.Number? {
          IntToStringNoBreak(Get(s, f.which));
        }
        NoLineBreakInEntry(KeyName(f), FieldText(s, f));
      }
    }
  }

  lemma NoLineBreakInEntry(key: string, value: string)
    requires NoLineBreak(key) && NoLineBreak(value)
    ensures NoLineBreak(Entry(key, value))
  {
  }

  /**
   * A configuration written with `getStringData` and read back from a file
   * holding that text gives the same configuration, when its name has no
   * line break.
   */
  lemma StringDataRoundTrip(s: Settings)
    requires NoLineBreak(s.eventName)
    ensures Decode(Lines(StringData(s))) == Some(s)
  {
    var body := BlockLines(s);
    LinesOfStringData(s);
    forall i | 0 <= i < |body| ensures body[i] != MOBILE_BLOCK_END {
      assert body[i][0] != MOBILE_BLOCK_END[0];
    }
    BlockBetweenMarkers([], body, [], MOBILE_BLOCK_START, MOBILE_BLOCK_END);
    assert [] + [MOBILE_BLOCK_START] + body + [MOBILE_BLOCK_END] + [] == [MOBILE_BLOCK_START] + body + [MOBILE_BLOCK_END];
    DecodeBlockLines(DEFAULTS, s);
  }

  // ---------------------------------------------------------------------------
  // The configuration object

  class EventConfiguration {
    var eventName: string
    var maxParticipant: Int32
    var autoSyncDelay: Int32
    var manualSyncDelay: Int32
    var lapsCount: Int32
    var checkPointsCount: Int32

    function View(): Settings
      reads this
    {
      Settings(eventName, maxParticipant, autoSyncDelay, manualSyncDelay, lapsCount, checkPointsCount)
    }

    /** A configuration with the default values, as a builder without a file makes it. */
    constructor ()
      ensures View() == DEFAULTS
    {
      eventName := "New event";
      maxParticipant := 0;
      autoSyncDelay := 1;
      manualSyncDelay := 10;
      lapsCount := 1;
      checkPointsCount := 1;
    }

    function GetFields(): (r: map<Field, string>)
      reads this
      ensures forall f :: f in r
      ensures SetFieldsOf(View(), r) == (View(), true)
    {
      SetFieldsOfFields(View());
      Fields(View())
    }

    function GetStringData(): (r: string)
      reads this
      ensures NoLineBreak(eventName) ==> Decode(Lines(r)) == Some(View())
    {
      var r := StringData(View());
      assert NoLineBreak(eventName) ==> Decode(Lines(r)) == Some(View()) by {
        if NoLineBreak(eventName) {
          StringDataRoundTrip(View());
        }
      }
      r
    }

    /** `setFields`: the name first, then each number in turn, stopping at the first that fails. */
    method SetFields(fieldsMap: map<Field, string>) returns (ok: bool)
      requires EventName in fieldsMap
      modifies this
      ensures (View(), ok) == SetFieldsOf(old(View()), fieldsMap)
    {
      ghost var goal := SetFieldsOf(View(), fieldsMap);
      eventName := fieldsMap[EventName];
      ghost var rest := NUMBER_ORDER;
      var v := ReadNumber(fieldsMap, MaxParticipant);
      if v.None? {
        NumberFails(View(), fieldsMap, rest, goal);
        return false;
      }
      NumberRead(View(), fieldsMap, rest, goal);
      maxParticipant := v.value;
      rest := rest[1..];
      v := ReadNumber(fieldsMap, AutoSyncDelay);
      if v.None? {
        NumberFails(View(), fieldsMap, rest, goal);
        return false;
      }
      NumberRead(View(), fieldsMap, rest, goal);
      autoSyncDelay := v.value;
      rest := rest[1..];
      v := ReadNumber(fieldsMap, ManualSyncDelay);
      if v.None? {
        NumberFails(View(), fieldsMap, rest, goal);
        return false;
      }
      NumberRead(View(), fieldsMap, rest, goal);
      manualSyncDelay := v.value;
      rest := rest[1..];
      v := ReadNumber(fieldsMap, LapsCount);
      if v.None? {
        NumberFails(View(), fieldsMap, rest, goal);
        return false;
      }
      NumberRead(View(), fieldsMap, rest, goal);
      lapsCount := v.value;
      rest := rest[1..];
      v := ReadNumber(fieldsMap, CheckPointsCount);
      if v.None? {
        NumberFails(View(), fieldsMap, rest, goal);
        return false;
      }
      NumberRead(View(), fieldsMap, rest, goal);
      checkPointsCount := v.value;
      rest := rest[1..];
      assert rest == [];
      return true;
    }

    /** One line of the block, as the file builder applies it; nothing changes when it fails. */
    method ApplyLine(line: string) returns (ok: bool)
      modifies this
      ensures ok <==> DecodeLine(old(View()), line).Some?
      ensures View() == if ok then DecodeLine(old(View()), line).value else old(View())
    {
      var d := IndexOf(line, KEY_VALUE_DELIMITER);
      if d < 0 {
        return false;
      }
      var key := line[..d];
      var value := line[d + 1..];
      if key == KEY_EVENT_NAME {
        eventName := value;
      } else if key == KEY_MAX_PARTICIPANT || key == KEY_AUTO_SYNC_DELAY || key == KEY_MANUAL_SYNC_DELAY
             || key == KEY_LAPS_COUNT || key == KEY_CHECKPOINTS_COUNT {
        var v := ParseInt(value);
        if v.None? {
          return false;
        }
        if key == KEY_MAX_PARTICIPANT {
          maxParticipant := v.value;
        } else if key == KEY_AUTO_SYNC_DELAY {
          autoSyncDelay := v.value;
        } else if key == KEY_MANUAL_SYNC_DELAY {
          manualSyncDelay := v.value;
        } else if key == KEY_LAPS_COUNT {
          lapsCount := v.value;
        } else {
          checkPointsCount := v.value;
        }
      }
      ok := true;
    }
  }

  /**
   * The builder over a file: the first block between the markers is read and
   * each line applied to a default configuration; a line without `=` or a
   * number that does not parse makes the whole build fail.
   */
  method FromFile(fileLines: seq<string>) returns (r: Option<EventConfiguration>)
    ensures r.Some? <==> Decode(fileLines).Some?
    ensures r.Some? ==> fresh(r.value) && r.value.View() == Decode(fileLines).value
  {
    var data := ReadFile(fileLines, MOBILE_BLOCK_START, MOBILE_BLOCK_END);
    var c := new EventConfiguration();
    var i := 0;
    while i < |data|
      invariant 0 <= i <= |data|
      invariant DecodeLines(DEFAULTS, data) == DecodeLines(c.View(), data[i..])
      decreases |data| - i
    {
      var ok := c.ApplyLine(data[i]);
      if !ok {
        return None;
      }
      i := i + 1;
    }
    return Some(c);
  }
}
