/** The getter half of the firmware 1.3 command set: the query each getter
    sends and how it decodes the reply text it is given. The replies have the
    shape `Label:[value]`; _parseStructuredResponse finds it with the pattern
    `Label:\[(?<value>.*)\]`. Labels are matched literally (the one escaped
    label, `freeMemory\(\)`, stands for the literal text `freeMemory()`). */
module Responses {
  import opened JsText

  /** The characters a regular-expression `.` does not match. */
  predicate IsLineTerminator(c: char)
  {
    c == '\n' || c == '\r' || c == '\U{2028}' || c == '\U{2029}'
  }

  predicate NoLineTerminator(s: string)
  {
    forall i :: 0 <= i < |s| ==> !IsLineTerminator(s[i])
  }

  /** Length of the first line of s: the index of its first line terminator, or |s|. */
  function LineEnd(s: string): (k: nat)
    ensures k <= |s|
    ensures NoLineTerminator(s[..k])
    ensures k < |s| ==> IsLineTerminator(s[k])
  {
    if s == [] || IsLineTerminator(s[0]) then 0
    else
      var k := 1 + LineEnd(s[1..]);
      assert forall i :: 1 <= i < k ==> s[..k][i] == s[1..][..k - 1][i - 1];
      k
  }

  /** Index of the last ']' in s, if there is one. */
  function LastClose(s: string): (k: Option<nat>)
    ensures k.Some? ==> k.value < |s| && s[k.value] == ']'
    ensures k.Some? ==> forall i :: k.value < i < |s| ==> s[i] != ']'
    ensures k.None? ==> forall i :: 0 <= i < |s| ==> s[i] != ']'
  {
    if s == [] then None
    else if s[|s| - 1] == ']' then Some(|s| - 1)
    else LastClose(s[..|s| - 1])
  }

  /** What the pattern captures when its match starts at position p: the text
      after `label:[` up to the last ']' on the same line (`.*` is greedy and
      stops at a line terminator). None when the pattern does not match there. */
  function MatchAt(response: string, tag: string, p: nat): (v: Option<string>)
    requires p <= |response|
    ensures v.Some? ==> NoLineTerminator(v.value)
  {
    var opening := tag + ":[";
    if !StartsWith(response[p..], opening) then None
    else
      var after := response[p..][|opening|..];
      var line := after[..LineEnd(after)];
      match LastClose(line)
      case None => None
      case Some(k) =>
        assert forall i :: 0 <= i < k ==> line[..k][i] == line[i];
        Some(line[..k])
  }

  /** The leftmost match at or after position p. */
  function FirstMatch(response: string, tag: string, p: nat): Option<string>
    requires p <= |response|
    decreases |response| - p
  {
    match MatchAt(response, tag, p)
    case Some(v) => Some(v)
    case None => if p == |response| then None else FirstMatch(response, tag, p + 1)
  }

  datatype ResponseError =
    | UnexpectedFormat   // 'Unexpected response format'
    | UndefinedValue     // a method called on the undefined value (a TypeError)

  /** _parseStructuredResponse as evidently intended (returning the named group):
      the capture of the leftmost match, or the error when nothing matches. */
  function ParseStructuredResponse(response: string, tag: string): (r: Result<string, ResponseError>)
    ensures r.Ok? <==> exists p :: 0 <= p <= |response| && MatchAt(response, tag, p).Some?
    ensures r.Err? ==> r.error == UnexpectedFormat
    ensures r.Ok? ==> NoLineTerminator(r.value)
    ensures r.Ok? ==> exists p :: (0 <= p <= |response| && MatchAt(response, tag, p) == Some(r.value) &&
                                   forall q :: 0 <= q < p ==> MatchAt(response, tag, q).None?)
  {
    FirstMatchSpec(response, tag, 0);
    match FirstMatch(response, tag, 0)
    case Some(v) => Ok(v)
    case None => Err(UnexpectedFormat)
  }

  /** _parseStructuredResponse as written: on a match it returns the match
      object's `value` property, which a match object does not have, so the
      result is undefined (None). */
  function ParseStructuredResponseAsWritten(response: string, tag: string): (r: Result<Option<string>, ResponseError>)
    ensures r.Ok? <==> ParseStructuredResponse(response, tag).Ok?
    ensures r.Ok? ==> r.value.None?
  {
    match FirstMatch(response, tag, 0)
    case Some(_) => Ok(None)
    case None => Err(UnexpectedFormat)
  }

  // ---------------------------------------------------------------------------
  // Getters

  datatype Getter =
    | BoxName | BoxId | BulbTime | SequencerDelays | FocusOutput | ShutterOutput
    | FreeMemory | FrontLightEnabled | SimpleMode | SequencerMode | InputDelay
    | LinkDelay | LinkEnabled | FirmwareVersion

  /** The query command each getter sends: one letter. */
  function Query(g: Getter): (q: string)
    ensures |q| == 1
  {
    match g
    case BoxName => "N"
    case BoxId => "I"
    case BulbTime => "B"
    case SequencerDelays => "D"
    case FocusOutput => "V"
    case ShutterOutput => "G"
    case FreeMemory => "E"
    case FrontLightEnabled => "L"
    case SimpleMode | SequencerMode => "M"
    case InputDelay => "Z"
    case LinkDelay => "X"
    case LinkEnabled => "K"
    case FirmwareVersion => "p"
  }

  /** The tag of the structured reply each getter expects (none for the
      firmware version, which is read from the raw reply). */
  function Label(g: Getter): string
  {
    match g
    case BoxName => "BoxName"
    case BoxId => "BoxID"
    case BulbTime => "BulbTime"
    case SequencerDelays => "Delays"
    case FocusOutput => "FocusArray"
    case ShutterOutput => "ShutterArray"
    case FreeMemory => "freeMemory()"
    case FrontLightEnabled => "Light"
    case SimpleMode | SequencerMode => "Mode"
    case InputDelay => "InDelayMils"
    case LinkDelay => "LinkDelayMils"
    case LinkEnabled => "chainEnable"
    case FirmwareVersion => ""
  }

  /** What a getter resolves to. */
  datatype Reading =
    | Text(text: string)
    | Numbers(numbers: seq<JsNumber>)
    | Flags(flags: seq<bool>)
    | Number(number: JsNumber)
    | Flag(flag: bool)
    | Version(version: Option<string>)
    | Undefined

  /** The flag lists: true exactly for the tokens "EN". */
  function EnabledFlags(tokens: seq<string>): (flags: seq<bool>)
    ensures |flags| == |tokens|
    ensures forall i :: 0 <= i < |tokens| ==> (flags[i] <==> tokens[i] == "EN")
  {
    if tokens == [] then [] else [tokens[0] == "EN"] + EnabledFlags(tokens[1..])
  }

  /** The delay list as evidently intended: every token read as a decimal integer. */
  function ParseDecimals(tokens: seq<string>): (ns: seq<JsNumber>)
    ensures |ns| == |tokens|
    ensures forall i :: 0 <= i < |tokens| ==> ns[i] == ParseInt(tokens[i], 0)
  {
    if tokens == [] then [] else [ParseInt(tokens[0], 0)] + ParseDecimals(tokens[1..])
  }

  /** The delay list as written, `.map(parseInt)`: map passes each token's index
      as parseInt's radix. `from` is the index of tokens[0]. */
  function ParseIndexedRadix(tokens: seq<string>, from: nat): (ns: seq<JsNumber>)
    ensures |ns| == |tokens|
    ensures forall i :: 0 <= i < |tokens| ==> ns[i] == ParseInt(tokens[i], from + i)
  {
    if tokens == [] then [] else [ParseInt(tokens[0], from)] + ParseIndexedRadix(tokens[1..], from + 1)
  }

  /** The second space-separated token of the raw reply, undefined (None) when
      there is none. */
  function SecondToken(reply: string): (r: Option<string>)
    ensures r.Some? <==> |Split(reply, ' ')| >= 2
    ensures r.Some? ==> ' ' !in r.value
  {
    var parts := Split(reply, ' ');
    if |parts| >= 2 then Some(parts[1]) else None
  }

  /** What each structured getter makes of the value: the text itself, the
      space-separated tokens read in decimal or compared with "EN", a number, or
      a comparison. */
  function Interpret(g: Getter, v: string): (r: Reading)
    ensures g in {BoxName, BoxId, BulbTime} ==> r == Text(v)
    ensures g == SequencerDelays ==>
      r.Numbers? && |r.numbers| == |Split(v, ' ')| &&
      forall i :: 0 <= i < |r.numbers| ==> r.numbers[i] == ParseInt(Split(v, ' ')[i], 0)
    ensures g in {FocusOutput, ShutterOutput} ==>
      r.Flags? && |r.flags| == |Split(v, ' ')| &&
      forall i :: 0 <= i < |r.flags| ==> (r.flags[i] <==> Split(v, ' ')[i] == "EN")
    ensures g in {FreeMemory, InputDelay, LinkDelay} ==> r == Number(ParseInt(v, 0))
    ensures g in {FrontLightEnabled, LinkEnabled} ==> (r.Flag? && (r.flag <==> v == "EN"))
    ensures g == SimpleMode ==> (r.Flag? && (r.flag <==> v == "0"))
    ensures g == SequencerMode ==> (r.Flag? && (r.flag <==> v == "2"))
  {
    match g
    case BoxName | BoxId | BulbTime => Text(v)
    case SequencerDelays => Numbers(ParseDecimals(Split(v, ' ')))
    case FocusOutput | ShutterOutput => Flags(EnabledFlags(Split(v, ' ')))
    case FreeMemory | InputDelay | LinkDelay => Number(ParseInt(v, 0))
    case FrontLightEnabled | LinkEnabled => Flag(v == "EN")
    case SimpleMode => Flag(v == "0")
    case SequencerMode => Flag(v == "2")
    case FirmwareVersion => Version(None)
  }

  /** Each getter's decoding of the reply, with the structured parse evidently
      intended and the delay tokens read in decimal. */
  function Decode(g: Getter, reply: string): (r: Result<Reading, ResponseError>)
    ensures g != FirmwareVersion ==> (r.Ok? <==> ParseStructuredResponse(reply, Label(g)).Ok?)
    ensures g == FirmwareVersion ==> r == Ok(Version(SecondToken(reply)))
  {
    if g == FirmwareVersion then Ok(Version(SecondToken(reply)))
    else
      match ParseStructuredResponse(reply, Label(g))
      case Err(e) => Err(e)
      case Ok(v) => Ok(Interpret(g, v))
  }

  /** Each getter as written: every structured getter meets the undefined value
      of line 91 — the text getters resolve to it, the list and number getters
      call a method on it (split, or parseInt's string conversion which yields
      NaN), and the comparisons are false. */
  function DecodeAsWritten(g: Getter, reply: string): (r: Result<Reading, ResponseError>)
    ensures g != FirmwareVersion ==>
      (r.Err? <==> (ParseStructuredResponse(reply, Label(g)).Err? || g in {SequencerDelays, FocusOutput, ShutterOutput}))
    ensures r.Err? && g != FirmwareVersion && ParseStructuredResponse(reply, Label(g)).Ok? ==> r.error == UndefinedValue
    ensures r.Ok? && g in {BoxName, BoxId, BulbTime} ==> r.value == Undefined
    ensures r.Ok? && g in {FreeMemory, InputDelay, LinkDelay} ==> r.value == Number(NaN)
    ensures r.Ok? && g in {FrontLightEnabled, SimpleMode, SequencerMode, LinkEnabled} ==> r.value == Flag(false)
    ensures g == FirmwareVersion ==> r == Decode(g, reply)
  {
    if g == FirmwareVersion then Ok(Version(SecondToken(reply)))
    else
      match ParseStructuredResponseAsWritten(reply, Label(g))
      case Err(e) => Err(e)
      case Ok(_) =>
        match g
        case BoxName | BoxId | BulbTime => Ok(Undefined)
        case SequencerDelays | FocusOutput | ShutterOutput => Err(UndefinedValue)
        case FreeMemory | InputDelay | LinkDelay => Ok(Number(NaN))
        case _ => Ok(Flag(false))
  }

  // ---------------------------------------------------------------------------
  // Lemmas

  /** Only the two mode getters share a query; every other getter's letter
      tells which getter sent it. */
  lemma QueryDistinguishes(g1: Getter, g2: Getter)
    ensures Query(g1) == Query(g2) <==>
      g1 == g2 || (g1 in {SimpleMode, SequencerMode} && g2 in {SimpleMode, SequencerMode})
  {
  }

  lemma FirstMatchSpec(response: string, tag: string, p: nat)
    requires p <= |response|
    ensures FirstMatch(response, tag, p).Some? <==>
      exists q :: p <= q <= |response| && MatchAt(response, tag, q).Some?
    ensures FirstMatch(response, tag, p).Some? ==>
      exists q :: p <= q <= |response| && MatchAt(response, tag, q) == FirstMatch(response, tag, p) &&
        forall j :: p <= j < q ==> MatchAt(response, tag, j).None?
  {
    if FirstMatch(response, tag, p).Some? {
      var q := FirstMatchAt(response, tag, p);
    } else if exists q :: p <= q <= |response| && MatchAt(response, tag, q).Some? {
      var q :| p <= q <= |response| && MatchAt(response, tag, q).Some?;
      FirstMatchFrom(response, tag, p, q);
    }
  }

  /** A match at q is found by a search that starts at or before q. */
  lemma {:induction false} FirstMatchFrom(response: string, tag: string, p: nat, q: nat)
    requires p <= q <= |response| && MatchAt(response, tag, q).Some?
    ensures FirstMatch(response, tag, p).Some?
    decreases q - p
  {
    if p < q && MatchAt(response, tag, p).None? {
      FirstMatchFrom(response, tag, p + 1, q);
    }
  }

  /** Where the leftmost match starts. */
  lemma {:induction false} FirstMatchAt(response: string, tag: string, p: nat) returns (q: nat)
    requires p <= |response| && FirstMatch(response, tag, p).Some?
    ensures p <= q <= |response| && MatchAt(response, tag, q) == FirstMatch(response, tag, p)
    ensures forall j :: p <= j < q ==> MatchAt(response, tag, j).None?
    decreases |response| - p
  {
    if MatchAt(response, tag, p).Some? {
      q := p;
    } else {
      assert p < |response|;
      assert FirstMatch(response, tag, p) == FirstMatch(response, tag, p + 1);
      q := FirstMatchAt(response, tag, p + 1);
      forall j | p <= j < q
        ensures MatchAt(response, tag, j).None?
      {
        if j > p {
          assert p + 1 <= j < q;
        }
      }
    }
  }

  lemma {:induction false} LineEndBefore(x: string, rest: string)
    requires NoLineTerminator(x)
    requires rest == [] || IsLineTerminator(rest[0])
    ensures LineEnd(x + rest) == |x|
    decreases |x|
  {
    if x != [] {
      assert (x + rest)[1..] == x[1..] + rest;
      LineEndBefore(x[1..], rest);
    }
  }

  /** A reply that is exactly `tag:[v]`, followed by nothing or by the end of
      its line, decodes to v — whatever brackets v holds, as long as v is one
      line. */
  lemma StructuredRoundTrip(tag: string, v: string, rest: string)
    requires NoLineTerminator(v)
    requires rest == [] || IsLineTerminator(rest[0])
    ensures ParseStructuredResponse(tag + ":[" + v + "]" + rest, tag) == Ok(v)
  {
    var opening := tag + ":[";
    var response := opening + v + "]" + rest;
    assert response == opening + (v + "]" + rest);
    assert response[0..] == response;
    assert StartsWith(response[0..], opening);
    var after := response[0..][|opening|..];
    assert after == (v + "]") + rest;
    LineEndBefore(v + "]", rest);
    var line := after[..LineEnd(after)];
    assert line == v + "]";
    assert line[..|v|] == v;
    assert MatchAt(response, tag, 0) == Some(v);
  }

  /** The finding at line 91: wherever the intended parse finds a value, the
      written one returns undefined instead. */
  lemma AsWrittenLosesValue(tag: string, v: string)
    requires NoLineTerminator(v)
    ensures ParseStructuredResponse(tag + ":[" + v + "]", tag) == Ok(v)
    ensures ParseStructuredResponseAsWritten(tag + ":[" + v + "]", tag) == Ok(None)
  {
    StructuredRoundTrip(tag, v, []);
    assert tag + ":[" + v + "]" + [] == tag + ":[" + v + "]";
  }

  /** The tokens of a list reply: one per item, each followed by a space, so
      that splitting on ' ' leaves one empty token at the end. */
  function SpaceTerminated(items: seq<string>): (s: string)
  {
    Join(items + [""], " ")
  }

  function Decimals(ns: seq<nat>): (ds: seq<string>)
    ensures |ds| == |ns|
    ensures forall i :: 0 <= i < |ns| ==> ds[i] == Decimal(ns[i])
  {
    if ns == [] then [] else [Decimal(ns[0])] + Decimals(ns[1..])
  }

  lemma {:induction false} JoinNoLineTerminator(parts: seq<string>, sep: string)
    requires NoLineTerminator(sep)
    requires forall k :: 0 <= k < |parts| ==> NoLineTerminator(parts[k])
    ensures NoLineTerminator(Join(parts, sep))
    decreases |parts|
  {
    if |parts| > 1 {
      JoinNoLineTerminator(parts[1..], sep);
    }
  }

  /** A structured getter decodes the reply `Label:[v]` as its reading of v. */
  lemma DecodeStructured(g: Getter, v: string)
    requires g != FirmwareVersion && NoLineTerminator(v)
    ensures Decode(g, Label(g) + ":[" + v + "]") == Ok(Interpret(g, v))
  {
    StructuredRoundTrip(Label(g), v, []);
    assert Label(g) + ":[" + v + "]" + [] == Label(g) + ":[" + v + "]";
  }

  /** Space-terminated items split back into the items and one empty token. */
  lemma SpaceTerminatedSplit(items: seq<string>)
    requires forall k :: 0 <= k < |items| ==> ' ' !in items[k] && NoLineTerminator(items[k])
    ensures Split(SpaceTerminated(items), ' ') == items + [""]
    ensures NoLineTerminator(SpaceTerminated(items))
  {
    var parts := items + [""];
    assert forall k :: 0 <= k < |parts| ==> ' ' !in parts[k] && NoLineTerminator(parts[k]);
    JoinNoLineTerminator(parts, " ");
    SplitJoin(parts, ' ');
  }

  lemma DecimalsPlain(ns: seq<nat>)
    ensures forall k :: 0 <= k < |ns| ==> ' ' !in Decimals(ns)[k] && NoLineTerminator(Decimals(ns)[k])
  {
    forall k | 0 <= k < |ns| ensures ' ' !in Decimals(ns)[k] && NoLineTerminator(Decimals(ns)[k]) {
      var d := Decimal(ns[k]);
      assert forall i :: 0 <= i < |d| ==> IsDigit(d[i]);
    }
  }

  /** Decimal parsing reads back decimal renderings; the empty token is NaN. */
  lemma ParseDecimalsBack(ns: seq<nat>)
    ensures var got := ParseDecimals(Decimals(ns) + [""]);
      |got| == |ns| + 1 && got[|ns|] == NaN &&
      forall i :: 0 <= i < |ns| ==> got[i] == Num(ns[i])
  {
    var tokens := Decimals(ns) + [""];
    forall i | 0 <= i < |ns| ensures ParseInt(tokens[i], 0) == Num(ns[i]) {
      DecimalToken(ns[i]);
    }
    ParseIntEmpty();
  }

  lemma DecimalToken(n: nat)
    ensures ParseInt(Decimal(n), 0) == Num(n)
  {
    var d := Decimal(n);
    assert Repeat(' ', 0) + d + [] == d;
    ParseIntDecimal(0, n, [], 0);
  }

  lemma ParseIntEmpty()
    ensures ParseInt("", 0) == NaN
  {
  }

  /** A delay reply in the documented form (`Delays:[12 23 34 45 56 67 ]`)
      decodes, with decimal parsing, to the delays in order followed by one NaN
      for the empty token after the trailing space. */
  lemma DelaysReplyDecodes(ns: seq<nat>)
    ensures var r := Decode(SequencerDelays, Label(SequencerDelays) + ":[" + SpaceTerminated(Decimals(ns)) + "]");
      r.Ok? && r.value.Numbers? && |r.value.numbers| == |ns| + 1 &&
      (forall i :: 0 <= i < |ns| ==> r.value.numbers[i] == Num(ns[i])) &&
      r.value.numbers[|ns|] == NaN
  {
    var v := SpaceTerminated(Decimals(ns));
    DecimalsPlain(ns);
    SpaceTerminatedSplit(Decimals(ns));
    DecodeStructured(SequencerDelays, v);
    assert Interpret(SequencerDelays, v) == Numbers(ParseDecimals(Decimals(ns) + [""]));
    ParseDecimalsBack(ns);
  }

  function FlagTokens(flags: seq<bool>): (tokens: seq<string>)
    ensures |tokens| == |flags|
    ensures forall i :: 0 <= i < |flags| ==> tokens[i] == if flags[i] then "EN" else "DIS"
  {
    if flags == [] then [] else [if flags[0] then "EN" else "DIS"] + FlagTokens(flags[1..])
  }

  /** A flag reply in the documented form (`FocusArray:[EN EN EN DIS DIS DIS ]`)
      decodes to the flags in order followed by one false for the empty token
      after the trailing space. */
  lemma FlagsReplyDecodes(g: Getter, flags: seq<bool>)
    requires g == FocusOutput || g == ShutterOutput
    ensures Decode(g, Label(g) + ":[" + SpaceTerminated(FlagTokens(flags)) + "]") == Ok(Flags(flags + [false]))
  {
    var tokens := FlagTokens(flags);
    FlagTokensPlain(flags);
    SpaceTerminatedSplit(tokens);
    DecodeStructured(g, SpaceTerminated(tokens));
    assert Interpret(g, SpaceTerminated(tokens)) == Flags(EnabledFlags(tokens + [""]));
    EnabledFlagsBack(flags);
  }

  lemma FlagTokensPlain(flags: seq<bool>)
    ensures forall k :: 0 <= k < |flags| ==> ' ' !in FlagTokens(flags)[k] && NoLineTerminator(FlagTokens(flags)[k])
  {
    assert ' ' !in "EN" && NoLineTerminator("EN");
    assert ' ' !in "DIS" && NoLineTerminator("DIS");
  }

  lemma EnabledFlagsBack(flags: seq<bool>)
    ensures EnabledFlags(FlagTokens(flags) + [""]) == flags + [false]
  {
    var got := EnabledFlags(FlagTokens(flags) + [""]);
    assert forall i :: 0 <= i < |flags| ==> got[i] == flags[i];
  }

  /** The finding at line 207: `.map(parseInt)` reads the second delay in radix
      1, which parseInt rejects, so it is NaN whatever the box sent; decimal
      parsing reads it. */
  lemma IndexedRadixLosesSecondDelay(tokens: seq<string>)
    requires |tokens| >= 2
    ensures ParseIndexedRadix(tokens, 0)[1] == NaN
    ensures ParseIndexedRadix(tokens, 0)[0] == ParseDecimals(tokens)[0]
  {
  }

  /** On the documented reply the written decoding keeps only the first delay. */
  lemma IndexedRadixExample()
    ensures ParseDecimals(["12", "23", "34", "45", "56", "67", ""])[1] == Num(23)
    ensures ParseIndexedRadix(["12", "23", "34", "45", "56", "67", ""], 0)[1] == NaN
  {
    var tokens := ["12", "23", "34", "45", "56", "67", ""];
    IndexedRadixLosesSecondDelay(tokens);
    DecimalExample();
  }

  lemma DecimalExample()
    ensures ParseInt("23", 0) == Num(23)
  {
    var d := Decimal(23);
    assert d == "23";
    assert Repeat(' ', 0) + d + [] == d;
    ParseIntDecimal(0, 23, [], 0);
  }

  /** The firmware version is the word after the first space. */
  lemma FirmwareVersionRoundTrip(word: string, version: string, rest: string)
    requires ' ' !in word && ' ' !in version
    requires rest == [] || rest[0] == ' '
    ensures Decode(FirmwareVersion, word + " " + version + rest) == Ok(Version(Some(version)))
  {
    SplitSecondField(word, ' ', version, rest);
    assert word + [' '] + version + rest == word + " " + version + rest;
  }
}
