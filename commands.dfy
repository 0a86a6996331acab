/** The setter half of the firmware 1.3 command set: each setter's arguments
    turned into the one command line it hands to the box, or the error it throws
    before anything is sent. How a command is delivered and acknowledged is not
    part of this module; `DeliveryOf` only records which way each setter takes. */
module Commands {
  import opened JsText
  import Util

  /** The default bounds of _validateNumber. */
  const DEFAULT_MAX: int := 9999
  const DEFAULT_MIN: int := 0
  /** The upper bound setBoxId passes. */
  const MAX_BOX_ID: int := 255
  /** The number of camera channels: delays, focus flags and shutter flags. */
  const CHANNELS: nat := 6

  datatype CommandError =
    | UnexpectedDelayCount        // 'Unexpected number of delays'
    | UnexpectedFocusFlagCount    // 'Unexpected number of focus enable flags'
    | UnexpectedShutterFlagCount  // 'Unexpected number of shutter enable flags'
    | InvalidNameCharacters       // 'Invalid characters in box name ...'

  /** One call of a setter, with its arguments. The rest arguments of the
      six-channel setters are a sequence of any length. */
  datatype Command =
    | ReleaseShutter
    | StartFocus
    | StopFocus
    | SetBulbTime(bulbTime: int)
    | SetSequencerDelays(delays: seq<int>)
    | EnableFocusOutput(focus: seq<bool>)
    | EnableShutterOutput(shutter: seq<bool>)
    | SetBoxId(id: int)
    | SetBoxName(name: string)
    | EnableFrontLight(light: bool)
    | SetMode(sequencerMode: bool)
    | SetInputDelay(inputDelay: int)
    | SetLinkDelay(linkDelay: int)
    | EnableLink(link: bool)

  /** How a setter hands its command over: through sendCommand (releaseShutter,
      setSequencerDelays), through an awaited sendTenFourCommand, or through a
      sendTenFourCommand whose promise is dropped (enableFrontLight, setMode). */
  datatype Delivery = Plain | TenFour | TenFourUnawaited

  function DeliveryOf(c: Command): Delivery
  {
    match c
    case ReleaseShutter | SetSequencerDelays(_) => Plain
    case EnableFrontLight(_) | SetMode(_) => TenFourUnawaited
    case _ => TenFour
  }

  /** The command letter each setter's line starts with. */
  function Letter(c: Command): char
  {
    match c
    case ReleaseShutter => 'S'
    case StartFocus => 'F'
    case StopFocus => 'F'
    case SetBulbTime(_) => 'b'
    case SetSequencerDelays(_) => 'd'
    case EnableFocusOutput(_) => 'f'
    case EnableShutterOutput(_) => 's'
    case SetBoxId(_) => 'i'
    case SetBoxName(_) => 'n'
    case EnableFrontLight(_) => 'l'
    case SetMode(_) => 'm'
    case SetInputDelay(_) => 'z'
    case SetLinkDelay(_) => 'x'
    case EnableLink(_) => 'k'
  }

  /** A command the box reads as one line: no line feed and no carriage return. */
  predicate SingleLine(s: string)
  {
    forall i :: 0 <= i < |s| ==> s[i] != '\n' && s[i] != '\r'
  }

  // ---------------------------------------------------------------------------
  // Numbers

  /** _validateNumber on an integer argument below 1e21 in magnitude, which
      parseInt returns unchanged: raised to min, then lowered to max. (From
      1e21 on, String writes the number with an exponent and parseInt keeps
      only its leading digits; such arguments are not modelled.) */
  function ValidateNumber(value: int, max: int, min: int): (r: int)
    ensures r <= max
    ensures min <= max ==> min <= r
    ensures min <= value <= max ==> r == value
    ensures value < min ==> r == Util.Min(max, min)
    ensures value > max ==> r == max
  {
    Util.Min(max, Util.Max(min, value))
  }

  /** The clamped value of a four-digit setter, zero-padded: toFixed(0).padStart(4, '0'). */
  function FourDigits(value: int): (s: string)
    ensures |s| == 4
    ensures forall i :: 0 <= i < 4 ==> IsDigit(s[i])
  {
    var n: nat := ValidateNumber(value, DEFAULT_MAX, DEFAULT_MIN);
    PadStartDecimal(n, '0');
    PadStart(Decimal(n), 4, '0')
  }

  /** setBulbTime, setInputDelay and setLinkDelay: the letter, then the value
      clamped to [0, 9999] in decimal, left-padded with '0' to four digits. */
  function PaddedNumberCommand(letter: char, value: int): (r: string)
    ensures |r| == 5 && r[0] == letter
    ensures forall i :: 1 <= i < 5 ==> IsDigit(r[i])
  {
    [letter] + FourDigits(value)
  }

  /** setBoxId: 'i', then the id clamped to [0, 255] in decimal, unpadded. */
  function BoxIdCommand(id: int): (r: string)
    ensures 2 <= |r| <= 4 && r[0] == 'i'
    ensures forall i :: 1 <= i < |r| ==> IsDigit(r[i])
    ensures r[1] == '0' ==> |r| == 2
  {
    var n: nat := ValidateNumber(id, MAX_BOX_ID, DEFAULT_MIN);
    DecimalWidth(n);
    DecimalLeadingDigit(n);
    "i" + Decimal(n)
  }

  // ---------------------------------------------------------------------------
  // Six-channel arrays

  /** One field of setSequencerDelays: the clamped delay in decimal,
      left-padded with spaces to width 4. */
  function DelayField(value: int): (s: string)
    ensures |s| == 4
    ensures forall i :: 0 <= i < 4 ==> IsDigit(s[i]) || s[i] == ' '
    ensures var n: nat := ValidateNumber(value, DEFAULT_MAX, DEFAULT_MIN);
      |Decimal(n)| <= 4 && s == Repeat(' ', 4 - |Decimal(n)|) + Decimal(n)
  {
    var n: nat := ValidateNumber(value, DEFAULT_MAX, DEFAULT_MIN);
    DecimalWidth(n);
    PadStartDecimal(n, ' ');
    PadStart(Decimal(n), 4, ' ')
  }

  function DelayFields(delays: seq<int>): (fields: seq<string>)
    ensures |fields| == |delays|
    ensures forall i :: 0 <= i < |delays| ==> fields[i] == DelayField(delays[i])
  {
    if delays == [] then [] else [DelayField(delays[0])] + DelayFields(delays[1..])
  }

  /** setSequencerDelays: exactly six delays, each as a four-wide field,
      joined by single spaces after the letter 'd'. */
  function SequencerDelaysCommand(delays: seq<int>): (r: Result<string, CommandError>)
    ensures r.Err? <==> |delays| != CHANNELS
    ensures r.Err? ==> r.error == UnexpectedDelayCount
    ensures r.Ok? ==> |r.value| >= 1 && r.value[0] == 'd'
  {
    if |delays| != CHANNELS then Err(UnexpectedDelayCount)
    else Ok("d" + Join(DelayFields(delays), " "))
  }

  function FlagDigits(flags: seq<bool>): (digits: seq<string>)
    ensures |digits| == |flags|
    ensures forall i :: 0 <= i < |flags| ==> digits[i] == (if flags[i] then "1" else "0")
  {
    if flags == [] then [] else [if flags[0] then "1" else "0"] + FlagDigits(flags[1..])
  }

  /** enableFocusOutput and enableShutterOutput as written: exactly six flags,
      each as '1' or '0', joined by Array#join's default separator ','. */
  function EnableCommand(letter: char, flags: seq<bool>, miscount: CommandError): (r: Result<string, CommandError>)
    ensures r.Err? <==> |flags| != CHANNELS
    ensures r.Err? ==> r.error == miscount
    ensures r.Ok? ==> |r.value| >= 1 && r.value[0] == letter
  {
    if |flags| != CHANNELS then Err(miscount)
    else Ok([letter] + Join(FlagDigits(flags), ","))
  }

  /** The enable array as the command table beside these setters documents it
      (<f111000>): one digit per flag and no separator. */
  function PackedEnableCommand(letter: char, flags: seq<bool>): (r: string)
    ensures |r| == |flags| + 1 && r[0] == letter
    ensures forall i :: 0 <= i < |flags| ==> r[i + 1] == (if flags[i] then '1' else '0')
    decreases |flags|
  {
    if flags == [] then [letter]
    else PackedEnableCommand(letter, flags[..|flags| - 1]) + [if flags[|flags| - 1] then '1' else '0']
  }

  // ---------------------------------------------------------------------------
  // The box name

  /** The characters setBoxName refuses: '[', ']', line feed and carriage return. */
  predicate ForbiddenInName(c: char)
  {
    c == '[' || c == ']' || c == '\n' || c == '\r'
  }

  function HasForbidden(name: string): (b: bool)
    ensures b <==> exists i :: 0 <= i < |name| && ForbiddenInName(name[i])
  {
    if name == [] then false
    else ForbiddenInName(name[0]) || (assert forall i :: 0 < i < |name| ==> name[i] == name[1..][i - 1]; HasForbidden(name[1..]))
  }

  /** setBoxName: refused when the name holds a forbidden character; otherwise
      'n' followed by the name unchanged. */
  function BoxNameCommand(name: string): (r: Result<string, CommandError>)
    ensures r.Err? <==> exists i :: 0 <= i < |name| && ForbiddenInName(name[i])
    ensures r.Err? ==> r.error == InvalidNameCharacters
    ensures r.Ok? ==> |r.value| >= 1 && r.value[0] == 'n' && r.value[1..] == name
  {
    if HasForbidden(name) then Err(InvalidNameCharacters) else Ok("n" + name)
  }

  // ---------------------------------------------------------------------------
  // All setters

  /** The command line each setter passes on, or the error it throws first. */
  function Encode(c: Command): (r: Result<string, CommandError>)
    ensures r.Err? <==>
      (c.SetSequencerDelays? && |c.delays| != CHANNELS) ||
      (c.EnableFocusOutput? && |c.focus| != CHANNELS) ||
      (c.EnableShutterOutput? && |c.shutter| != CHANNELS) ||
      (c.SetBoxName? && exists i :: 0 <= i < |c.name| && ForbiddenInName(c.name[i]))
    ensures r.Ok? ==> |r.value| >= 1 && r.value[0] == Letter(c)
  {
    match c
    case ReleaseShutter => Ok("S")
    case StartFocus => Ok("F1")
    case StopFocus => Ok("F0")
    case SetBulbTime(t) => Ok(PaddedNumberCommand('b', t))
    case SetSequencerDelays(ds) => SequencerDelaysCommand(ds)
    case EnableFocusOutput(fs) => EnableCommand('f', fs, UnexpectedFocusFlagCount)
    case EnableShutterOutput(fs) => EnableCommand('s', fs, UnexpectedShutterFlagCount)
    case SetBoxId(id) => Ok(BoxIdCommand(id))
    case SetBoxName(name) => BoxNameCommand(name)
    case EnableFrontLight(on) => Ok(if on then "l1" else "l0")
    case SetMode(sequencer) => Ok(if sequencer then "m2" else "m0")
    case SetInputDelay(d) => Ok(PaddedNumberCommand('z', d))
    case SetLinkDelay(d) => Ok(PaddedNumberCommand('x', d))
    case EnableLink(on) => Ok(if on then "k1" else "k0")
  }

  // ---------------------------------------------------------------------------
  // Lemmas

  /** Every command a setter sends is a single line: the box never sees a
      second command hidden inside one argument. */
  lemma EncodeSingleLine(c: Command)
    requires Encode(c).Ok?
    ensures SingleLine(Encode(c).value)
  {
    match c
    case SetBulbTime(t) => DigitsLine(PaddedNumberCommand('b', t));
    case SetSequencerDelays(ds) => DelaysLine(ds);
    case EnableFocusOutput(fs) => FlagsLine('f', fs);
    case EnableShutterOutput(fs) => FlagsLine('s', fs);
    case SetBoxId(id) => DigitsLine(BoxIdCommand(id));
    case SetBoxName(name) => assert Encode(c).value == "n" + name;
    case SetInputDelay(d) => DigitsLine(PaddedNumberCommand('z', d));
    case SetLinkDelay(d) => DigitsLine(PaddedNumberCommand('x', d));
    case _ =>
  }

  /** A letter followed by digits is one line. */
  lemma DigitsLine(s: string)
    requires |s| >= 1 && s[0] != '\n' && s[0] != '\r'
    requires forall i :: 1 <= i < |s| ==> IsDigit(s[i])
    ensures SingleLine(s)
  {
  }

  lemma {:induction false} JoinSingleLine(parts: seq<string>, sep: string)
    requires SingleLine(sep)
    requires forall k :: 0 <= k < |parts| ==> SingleLine(parts[k])
    ensures SingleLine(Join(parts, sep))
    decreases |parts|
  {
    if |parts| > 1 {
      JoinSingleLine(parts[1..], sep);
    }
  }

  lemma DelaysLine(delays: seq<int>)
    requires |delays| == CHANNELS
    ensures SequencerDelaysCommand(delays).Ok? && SingleLine(SequencerDelaysCommand(delays).value)
  {
    var fields := DelayFields(delays);
    JoinSingleLine(fields, " ");
  }

  lemma FlagsLine(letter: char, flags: seq<bool>)
    requires |flags| == CHANNELS && letter != '\n' && letter != '\r'
    ensures forall e :: EnableCommand(letter, flags, e).Ok? && SingleLine(EnableCommand(letter, flags, e).value)
  {
    JoinSingleLine(FlagDigits(flags), ",");
  }

  /** The box reads a four-digit setter's argument back as the clamped value. */
  lemma PaddedNumberRoundTrip(letter: char, value: int)
    ensures ParseInt(PaddedNumberCommand(letter, value)[1..], 10) == Num(ValidateNumber(value, DEFAULT_MAX, DEFAULT_MIN))
  {
    var n: nat := ValidateNumber(value, DEFAULT_MAX, DEFAULT_MIN);
    PadStartDecimal(n, '0');
    ParseIntZeroPadded(4 - |Decimal(n)|, n, 10);
    assert PaddedNumberCommand(letter, value)[1..] == FourDigits(value);
  }

  /** The box reads setBoxId's argument back as the clamped id. */
  lemma BoxIdRoundTrip(id: int)
    ensures ParseInt(BoxIdCommand(id)[1..], 10) == Num(ValidateNumber(id, MAX_BOX_ID, DEFAULT_MIN))
  {
    var n: nat := ValidateNumber(id, MAX_BOX_ID, DEFAULT_MIN);
    ParseIntDecimal(0, n, [], 10);
    assert Repeat(' ', 0) + Decimal(n) + [] == Decimal(n);
    assert BoxIdCommand(id)[1..] == Decimal(n);
  }

  /** Each delay field reads back as the clamped delay. */
  lemma DelayFieldRoundTrip(value: int)
    ensures ParseInt(DelayField(value), 10) == Num(ValidateNumber(value, DEFAULT_MAX, DEFAULT_MIN))
  {
    var n: nat := ValidateNumber(value, DEFAULT_MAX, DEFAULT_MIN);
    PadStartDecimal(n, ' ');
    ParseIntDecimal(4 - |Decimal(n)|, n, [], 10);
    assert Repeat(' ', 4 - |Decimal(n)|) + Decimal(n) + [] == DelayField(value);
  }

  /** Each four-digit setter's examples: 15 gives b0015, -5 is raised to 0 and
      99999 lowered to 9999. */
  lemma PaddedNumberExamples()
    ensures PaddedNumberCommand('b', 15) == "b0015"
    ensures PaddedNumberCommand('b', -5) == "b0000"
    ensures PaddedNumberCommand('b', 99999) == "b9999"
  {
    assert Decimal(15) == "15";
    assert Decimal(9999) == "9999";
  }

  /** A fixed-width reading of the body the encoder sends: fields of width 4
      separated by single spaces, each parsed as a decimal integer. It does
      not accept the unpadded form of the firmware's own example (d8 23 456
      99 32 1); the firmware's parser is not part of this model. */
  function ReadDelays(body: string): Option<seq<JsNumber>>
  {
    match SplitFixed(body, 4, ' ')
    case None => None
    case Some(fields) => Some(ParseFields(fields))
  }

  function ParseFields(fields: seq<string>): (ns: seq<JsNumber>)
    ensures |ns| == |fields|
    ensures forall i :: 0 <= i < |fields| ==> ns[i] == ParseInt(fields[i], 10)
  {
    if fields == [] then [] else [ParseInt(fields[0], 10)] + ParseFields(fields[1..])
  }

  /** A d command is the letter followed by the six space-padded fields, one
      per delay, separated by single spaces; it reads back as the six clamped
      delays, in order. */
  lemma SequencerDelaysRoundTrip(delays: seq<int>)
    requires |delays| == CHANNELS
    ensures var r := SequencerDelaysCommand(delays);
      r.Ok? && |r.value| == 5 * CHANNELS && SplitFixed(r.value[1..], 4, ' ') == Some(DelayFields(delays))
    ensures var r := SequencerDelaysCommand(delays);
      r.Ok? && ReadDelays(r.value[1..]).Some? && |ReadDelays(r.value[1..]).value| == CHANNELS &&
      forall i :: 0 <= i < CHANNELS ==>
        ReadDelays(r.value[1..]).value[i] == Num(ValidateNumber(delays[i], DEFAULT_MAX, DEFAULT_MIN))
  {
    var fields := DelayFields(delays);
    SplitFixedJoin(fields, 4, ' ');
    SplitFixedLength(Join(fields, " "), 4, ' ', fields);
    forall i | 0 <= i < CHANNELS {
      DelayFieldRoundTrip(delays[i]);
    }
    var body := Join(fields, " ");
    assert ("d" + body)[1..] == body;
  }

  /** The setters without a numeric or list argument send fixed strings:
      releaseShutter S, startFocus F1, stopFocus F0, enableFrontLight l1 or l0,
      setMode m2 (sequencer) or m0 (simple), enableLink k1 or k0. Each on/off
      pair differs only in its last character. */
  lemma FixedCommands(on: bool)
    ensures Encode(ReleaseShutter) == Ok("S")
    ensures Encode(StartFocus) == Ok("F1") && Encode(StopFocus) == Ok("F0")
    ensures Encode(EnableFrontLight(on)) == Ok(if on then "l1" else "l0")
    ensures Encode(SetMode(on)) == Ok(if on then "m2" else "m0")
    ensures Encode(EnableLink(on)) == Ok(if on then "k1" else "k0")
  {
  }

  /** An enable command as written reads back, split on ',', as one '1' or '0'
      per flag, in order; it is 12 characters long. */
  lemma EnableRoundTrip(letter: char, flags: seq<bool>, miscount: CommandError)
    requires |flags| == CHANNELS
    ensures var r := EnableCommand(letter, flags, miscount);
      r.Ok? && |r.value| == 2 * CHANNELS &&
      SplitFixed(r.value[1..], 1, ',') == Some(FlagDigits(flags))
  {
    var digits := FlagDigits(flags);
    SplitFixedJoin(digits, 1, ',');
    SplitFixedLength(Join(digits, ","), 1, ',', digits);
    var body := Join(digits, ",");
    assert ([letter] + body)[1..] == body;
  }

  /** The length of a string cut into fields of a fixed width. */
  lemma {:induction false} SplitFixedLength(s: string, width: nat, sep: char, fields: seq<string>)
    requires SplitFixed(s, width, sep) == Some(fields)
    ensures |fields| >= 1 && |s| == |fields| * (width + 1) - 1
    decreases |s|
  {
    if |s| != width {
      var rest := SplitFixed(s[width + 1..], width, sep).value;
      SplitFixedLength(s[width + 1..], width, sep, rest);
    }
  }

  /** The enable command as written is never the documented packed form: for six
      flags it is twelve characters, the packed one seven. */
  lemma EnableNotPacked(letter: char, flags: seq<bool>, miscount: CommandError)
    requires |flags| == CHANNELS
    ensures EnableCommand(letter, flags, miscount).Ok?
    ensures EnableCommand(letter, flags, miscount).value != PackedEnableCommand(letter, flags)
  {
    EnableRoundTrip(letter, flags, miscount);
  }

  lemma JoinSix(c0: char, c1: char, c2: char, c3: char, c4: char, c5: char)
    ensures Join([[c0], [c1], [c2], [c3], [c4], [c5]], ",") ==
      [c0, ',', c1, ',', c2, ',', c3, ',', c4, ',', c5]
  {
    JoinCons([c4], [[c5]], ",");
    JoinCons([c3], [[c4], [c5]], ",");
    JoinCons([c2], [[c3], [c4], [c5]], ",");
    JoinCons([c1], [[c2], [c3], [c4], [c5]], ",");
    JoinCons([c0], [[c1], [c2], [c3], [c4], [c5]], ",");
  }

  lemma LetterJoinSix(letter: char, c0: char, c1: char, c2: char, c3: char, c4: char, c5: char)
    ensures [letter] + Join([[c0], [c1], [c2], [c3], [c4], [c5]], ",") ==
      [letter, c0, ',', c1, ',', c2, ',', c3, ',', c4, ',', c5]
  {
    JoinSix(c0, c1, c2, c3, c4, c5);
  }

  /** The example of the command table: three focus outputs on, three off. */
  lemma EnableExample()
    ensures EnableCommand('f', [true, true, true, false, false, false], UnexpectedFocusFlagCount) == Ok("f1,1,1,0,0,0")
  {
    var flags := [true, true, true, false, false, false];
    assert FlagDigits(flags) == [['1'], ['1'], ['1'], ['0'], ['0'], ['0']];
    LetterJoinSix('f', '1', '1', '1', '0', '0', '0');
  }

  /** The same flags in the documented packed form. */
  lemma PackedExample()
    ensures PackedEnableCommand('f', [true, true, true, false, false, false]) == "f111000"
  {
    var flags := [true, true, true, false, false, false];
    var p := PackedEnableCommand('f', flags);
    assert flags[0] && flags[1] && flags[2] && !flags[3] && !flags[4] && !flags[5];
    assert p == ['f', '1', '1', '1', '0', '0', '0'];
  }

  /** setBoxId's argument reads back as the clamped id. */
  lemma BoxIdExamples()
    ensures BoxIdCommand(34) == "i34"
    ensures BoxIdCommand(-1) == "i0"
    ensures BoxIdCommand(300) == "i255"
  {
    assert Decimal(34) == "34";
    assert Decimal(255) == "255";
  }
}
