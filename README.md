# ESPER trigger box driver — a Dafny model

This project models the driver for the ESPER multi-camera trigger box, which
talks to the box over a serial line.

The driver comes in two generations:

- **Firmware 1.2** (`TriggerBox12` over `TriggerBoxLowLevel`). When the port
  opens, the driver runs a handshake (`validate`), then emits `ready` if the
  handshake succeeded.
  - `parseIdentity` is installed as a `data` listener. It reads the box's
    announce lines (`GreenTriggerBox:[34]`, `TriggerBox:[34]`) into `mode` and
    `boxId`.
  - The handshake keeps sending the probe `*calling_ESPER_triggerBox` until the
    identity is complete or 100 probes were sent.
  - It then sends `^` until no line has arrived for 200 ms.
  - It answers `true` exactly when fewer than 100 probes were needed.
- **Firmware 1.3** (`TriggerBox13`). It runs the same handshake through the
  `repeatUntil` combinator. It adds:
  - a command encoder per setter: clamping, zero padding, six-channel arrays,
    box-name checks;
  - a decoder per getter, for replies of the form `Label:[value]`.

## Modules

| module | file | what it models |
|---|---|---|
| `Util` | `util.dfy` | `repeatUntil`, run on a script of test answers. |
| `JsText` | `js_text.dfy` | The JavaScript built-ins the driver relies on: `toFixed(0)`/`toString` on integers, `padStart`, `split`, `join`, and the global `parseInt`. |
| `LowLevel` | `trigger_box_low_level.dfy` | The connection class, its line ingest, and the validate loop. |
| `Commands` | `commands.dfy` | The 1.3 setters' command lines. |
| `Responses` | `responses.dfy` | The structured-reply parse and the 1.3 getters. |
| `TriggerBox13` | `trigger_box13.dfy` | The 1.3 handshake, the connection handler, and the setters' hand-over. |
| `TriggerBox12` | `trigger_box12.dfy` | The 1.2 `open` handler. |

## Oracles

The serial line and the clock are oracles.

- `windows(j)` is the list of lines (with their `Date.now()` stamps) that the
  parser delivers before the j-th check of a polling loop.
- `clock(j)` is `Date.now()` at that check.

Every loop method is proved against a specification function of these
oracles:

- `ProbeAnswers`, `QuietAnswers` and `SettleAnswers` list the answers of the
  loop checks.
- `Util.Calls` is the number of calls `repeatUntil` makes on a given answer
  list.
- `After` is the link state once the first k windows have been ingested.

Each method's `ensures` ties its count, its final state and everything it
wrote to these functions. The lemmas state what the functions imply: the
bound, that the loop stops at the first pass, and the verdict.

## How the files are read

The 1.3 class calls some members that the low-level class does not define
under those names:

- `_setupParser`, `_lastMessageTime` and a two-argument `sendCommand` are read
  here as the low-level `setupParser`, `lastMessageTime` and `sendCommand`.
  Read strictly, `this._lastMessageTime` is undefined, so
  `Date.now() - this._lastMessageTime > 200` is always false and every 1.3
  handshake would end in the second `repeatUntil` throwing.
- `sendTenFourCommand` is reduced to handing the command over
  (`TriggerBox13.TriggerBox13.Issue`).

The low-level constructor's `open` handler calls `setupParser` and
`validate`, never `_onConnection`. Nothing in the files calls
`_onConnection`; the model keeps it as its own method.

## Behaviour recorded as written

- **`repeatUntil` tests the counter, not the result.** After the loop,
  `repeatUntil` throws whenever its counter reached `maxRetries`. So a test
  that passes on exactly the last allowed call still throws:
  - `Util.LastAttemptPassThrows` states this;
  - `Util.ThrowsDespitePass` gives the exact condition;
  - `Util.ImmediatePassThrows` shows it with `maxRetries == 1`.

  The handshakes use this behaviour as written.
- **The 200 ms test differs between generations.**
  - The low-level quiet-down loop continues while less than 200 ms have
    passed.
  - The 1.3 settle test passes only when more than 200 ms have passed.
  - At exactly 200 ms, or before any line was timed, the two disagree
    (`TriggerBox13.SettledStricterThanQuiet`).
- **The enable setters do not send the documented form.** The command table
  beside them shows `<f111000>`, but `join()` uses its default `,` separator,
  so `f1,1,1,0,0,0` is what is sent (`Commands.EnableNotPacked`,
  `Commands.EnableExample`, `Commands.PackedExample`). Whether the firmware
  accepts commas cannot be told from the driver, so the encoder is kept as
  written.
- **List replies end in a space.** The documented list replies end with a
  space before `]`, so `split(' ')` yields one extra empty token at the end.
  That token decodes to `NaN` for the delays and to `false` for the flags
  (`Responses.DelaysReplyDecodes`, `Responses.FlagsReplyDecodes`).
- **`isSimpleMode` compares with the bare `0`.** It compares the value with
  `0`, while the comment beside it shows `Mode:[ 0 ]`. The model compares
  with `0`, as the code does.
- **The box-name check and the reply pattern disagree on line terminators.**
  `setBoxName` refuses only `[`, `]`, `\n` and `\r`. The reply pattern's `.`
  also stops at U+2028 and U+2029, so a name that holds one of those is
  accepted but cannot be read back in full.

## Model

| member | source | states |
|---|---|---|
| Util.RepeatUntil | lib/other/util.js:8-24 | The loop makes `Calls(answers, maxRetries)` calls: up to and including the first pass, never more than max(1, maxRetries). It waits once between each two calls. It throws exactly when its final count reached maxRetries. |
| Util.FirstPass | lib/other/util.js:14 | The index of the first passing answer (or the script length). Every earlier answer fails. |
| Util.Calls | lib/other/util.js:10-18 | The test runs at least once and at most max(1, maxRetries) times. |
| Util.CallsBounds | lib/other/util.js:13-18 | The same bounds, stated for callers. |
| Util.CallsStopAtFirstPass | lib/other/util.js:14-18 | No call follows a passing one. The loop stops only on a pass or at the bound. |
| Util.CallsUnique | lib/other/util.js:14-18 | Conversely, a count that stops at the first pass, or at the bound, is the number of calls. |
| Util.FirstPassOutcome | lib/other/util.js:8-24 | A test that first passes on call k runs min(k, max(1, maxRetries)) times. repeatUntil returns normally exactly when k < maxRetries. |
| Util.LastAttemptPassThrows | lib/other/util.js:21-23 | A pass on exactly the last allowed call still throws. |
| Util.SmallBoundThrows | lib/other/util.js:10-23 | With maxRetries <= 1 the test runs once and repeatUntil throws. |
| Util.NeverPassesExhausts | lib/other/util.js:14-23 | A test that never passes runs exactly maxRetries times, then repeatUntil throws. |
| Util.ThrowsDespitePass | lib/other/util.js:14-23 | Throwing although the last call passed happens exactly when the first pass is call max(1, maxRetries). |
| Util.ImmediatePassThrows | lib/other/util.js:21-23 | One allowed call, which passes, still throws. |
| JsText.Decimal | lib/TriggerBox13.js:113 | The integer rendering `toFixed(0)` gives is non-empty and all digits. |
| JsText.DecimalValue | lib/TriggerBox13.js:113 | The positional value of that rendering is the number itself. |
| JsText.DecimalLeadingDigit | lib/TriggerBox13.js:145 | Only zero is rendered with a leading '0'. |
| JsText.DecimalWidth | lib/TriggerBox13.js:113 | Numbers below 10, 100, 1000 and 10000 render in at most 1, 2, 3 and 4 digits. |
| JsText.IndexOf | lib/TriggerBoxLowLevel.js:80 | The first occurrence of the character, or the length when it does not occur. No earlier character matches. |
| JsText.Split | lib/TriggerBoxLowLevel.js:80 | `split` yields at least one part, and no part holds the separator. |
| JsText.JoinSplit | lib/TriggerBox13.js:207 | Joining the parts of a split with the separator gives the string back. |
| JsText.SplitJoin | lib/TriggerBox13.js:207 | Splitting a join of separator-free parts gives the parts back. |
| JsText.IndexOfAfter | lib/TriggerBoxLowLevel.js:80 | The separator after a separator-free prefix is found right after that prefix. |
| JsText.SplitSecondField | lib/TriggerBoxLowLevel.js:80 | `split(c)[1]` is the text between the first and the second separator. |
| JsText.SplitFixedJoin | lib/TriggerBox13.js:121-124 | Fields of one width joined by a separator cut back into the same fields. |
| JsText.ParseIntNaN | lib/TriggerBoxLowLevel.js:80 | `ParseInt`, the global parseInt: NaN for a radix outside 0 and 2..36, NaN when nothing follows the white space and sign, and a negative result only after a leading '-'. The same function serves the getters (lib/TriggerBox13.js, lines 207, 227, 250 and 256). |
| JsText.TrimStart | lib/TriggerBoxLowLevel.js:80 | parseInt's white-space skip never lengthens its input. |
| JsText.DigitRun | lib/TriggerBoxLowLevel.js:80 | parseInt reads the longest prefix of digits of the radix. |
| JsText.DigitRunPrefix | lib/TriggerBoxLowLevel.js:80 | Digits followed by a non-digit form a run of exactly that length. |
| JsText.DigitsValueLeadingZeros | lib/TriggerBox13.js:113 | Leading zeros do not change the value of a digit string. |
| JsText.TrimStartSpaces | lib/TriggerBox13.js:121 | Leading spaces are skipped by parseInt. |
| JsText.ReadDigitsDecimal | lib/TriggerBoxLowLevel.js:80 | A decimal rendering followed by a terminator reads back in full; a leading 0 never turns into a hexadecimal prefix. |
| JsText.ParseIntDecimal | lib/TriggerBoxLowLevel.js:80 | parseInt reads back a decimal rendering after any run of spaces, before any text that cannot continue the number. |
| JsText.PadStartDecimal | lib/TriggerBox13.js:121 | `padStart(4, fill)` on at most four digits is the fill followed by the digits, four characters in all. |
| JsText.ParseIntZeroPadded | lib/TriggerBox13.js:113 | parseInt reads back a zero-padded decimal rendering. |
| Commands.ValidateNumber | lib/TriggerBox13.js:82-86 | `_validateNumber` on an integer: never above max; at least min when min <= max; unchanged inside the range; min(max, min) below it; max above it. |
| Commands.FourDigits | lib/TriggerBox13.js:113 | The clamped value padded to exactly four digits. |
| Commands.PaddedNumberCommand | lib/TriggerBox13.js:110-114 | setBulbTime, setInputDelay and setLinkDelay send their letter and then exactly four digits. |
| Commands.PaddedNumberRoundTrip | lib/TriggerBox13.js:113 | The four digits read back as the value clamped to [0, 9999]. |
| Commands.PaddedNumberExamples | lib/TriggerBox13.js:110-114 | 15 is sent as b0015, -5 as b0000 and 99999 as b9999. |
| Commands.BoxIdCommand | lib/TriggerBox13.js:142-146 | setBoxId sends 'i' and then 1 to 3 digits, unpadded; a leading '0' only for 0. |
| Commands.BoxIdRoundTrip | lib/TriggerBox13.js:144-145 | The digits read back as the id clamped to [0, 255]. |
| Commands.BoxIdExamples | lib/TriggerBox13.js:141-146 | 34 is sent as i34, -1 as i0 and 300 as i255. |
| Commands.DelayField | lib/TriggerBox13.js:121 | Each delay field is the clamped delay's decimal digits, left-padded with spaces to exactly four characters. |
| Commands.DelayFields | lib/TriggerBox13.js:121 | One field per delay, in order. |
| Commands.DelayFieldRoundTrip | lib/TriggerBox13.js:121 | Each field reads back as the clamped delay. |
| Commands.SequencerDelaysCommand | lib/TriggerBox13.js:118-125 | Throws 'Unexpected number of delays' exactly when there are not six delays. Otherwise sends a line starting with 'd'. |
| Commands.ParseFields | lib/TriggerBox13.js:116-125 | A fixed-width reading of what the encoder sends: each four-character field parsed as a decimal integer, in order. |
| Commands.SequencerDelaysRoundTrip | lib/TriggerBox13.js:118-125 | A d command is 30 characters: 'd', then exactly the six space-padded delay fields, one per delay in order, separated by single spaces. Read with the fixed-width reading, it gives back the six clamped delays in order. |
| Commands.DelaysLine | lib/TriggerBox13.js:118-125 | A d command is one line. |
| Commands.FlagDigits | lib/TriggerBox13.js:130 | One '1' or '0' per flag, in order. |
| Commands.EnableCommand | lib/TriggerBox13.js:128-132 | Throws the miscount error exactly when there are not six flags. Otherwise sends a line starting with the setter's letter. |
| Commands.EnableRoundTrip | lib/TriggerBox13.js:128-139 | The command as written is 12 characters and splits on ',' into one digit per flag, in order. |
| Commands.FlagsLine | lib/TriggerBox13.js:128-139 | An enable command is one line. |
| Commands.PackedEnableCommand | lib/TriggerBox13.js:127 | The documented packed form: the letter, then exactly one digit per flag. |
| Commands.EnableNotPacked | lib/TriggerBox13.js:127-132 | The command as written never equals the documented packed form. |
| Commands.EnableExample | lib/TriggerBox13.js:127-131 | Three focus outputs on and three off are sent as f1,1,1,0,0,0. |
| Commands.PackedExample | lib/TriggerBox13.js:127 | The documented form of the same flags is f111000. |
| Commands.HasForbidden | lib/TriggerBox13.js:151 | True exactly when the name holds '[', ']', a line feed or a carriage return. |
| Commands.BoxNameCommand | lib/TriggerBox13.js:149-156 | Throws exactly on a forbidden character. Otherwise sends 'n' followed by the name unchanged. |
| Commands.Encode | lib/TriggerBox13.js:98-183 | A setter throws exactly on a wrong delay count, a wrong flag count, or a forbidden name character. Every other call sends a line starting with its command letter. |
| Commands.FixedCommands | lib/TriggerBox13.js:98-107 | releaseShutter sends S, startFocus F1 and stopFocus F0. enableFrontLight sends l1 or l0, setMode m2 for sequencer mode or m0, and enableLink k1 or k0 (lines 159-182). |
| Commands.EncodeSingleLine | lib/TriggerBox13.js:98-183 | Every command a setter sends is a single line. |
| Responses.Query | lib/TriggerBox13.js:186-267 | Each getter sends a one-letter query. |
| Responses.QueryDistinguishes | lib/TriggerBox13.js:186-267 | Two getters send the same query exactly when they are the same getter or both mode getters. |
| Responses.LineEnd | lib/TriggerBox13.js:89 | The pattern's `.` runs up to the first line terminator. |
| Responses.LastClose | lib/TriggerBox13.js:89 | The greedy `.*\]` ends at the last ']' of that line. |
| Responses.MatchAt | lib/TriggerBox13.js:89 | What the pattern captures when its match starts at a given position; the capture is always one line. |
| Responses.FirstMatchSpec | lib/TriggerBox13.js:89 | The search finds a match exactly when there is one, and returns the leftmost. |
| Responses.FirstMatchFrom | lib/TriggerBox13.js:89 | A match at q is found by any search starting at or before q. |
| Responses.FirstMatchAt | lib/TriggerBox13.js:89 | The leftmost match starts at a position with no match before it. |
| Responses.ParseStructuredResponse | lib/TriggerBox13.js:88-95 | The corrected parse. It succeeds exactly when the pattern matches somewhere, and returns the leftmost match's capture. Otherwise it throws 'Unexpected response format'. |
| Responses.ParseStructuredResponseAsWritten | lib/TriggerBox13.js:88-95 | The parse as written. It succeeds on the same replies as the corrected parse but always returns undefined. |
| Responses.StructuredRoundTrip | lib/TriggerBox13.js:88-95 | A reply `tag:[v]` that ends there or at a line terminator parses to v, whatever brackets v holds. |
| Responses.AsWrittenLosesValue | lib/TriggerBox13.js:91 | On `tag:[v]` the corrected parse returns v and the written one returns undefined. |
| Responses.EnabledFlags | lib/TriggerBox13.js:214 | Each token maps to true exactly when it is "EN". |
| Responses.ParseDecimals | lib/TriggerBox13.js:207 | Corrected delay decoding: every token read with parseInt's default radix. |
| Responses.ParseIndexedRadix | lib/TriggerBox13.js:207 | `.map(parseInt)` as written: token i is read with radix i. |
| Responses.SecondToken | lib/TriggerBox13.js:268 | `split(' ')[1]`: defined exactly when there is a second token, which holds no space. |
| Responses.Interpret | lib/TriggerBox13.js:186-263 | Each getter's reading of the captured value: the text itself for the name, id and bulb time; one decimal parse per space-separated token for the delays; one flag per token, true exactly for EN, for the outputs; a parseInt for the numbers; and the comparison with EN, 0 or 2 for the flag getters. |
| Responses.Decode | lib/TriggerBox13.js:186-269 | A structured getter succeeds exactly when its label's pattern matches the reply. The firmware version is the reply's second token. |
| Responses.DecodeAsWritten | lib/TriggerBox13.js:186-263 | The getters as written fail when the parse fails. The delay and flag getters also fail on a matching reply, because they call `split` on undefined. On a matching reply the text getters resolve undefined, the number getters NaN and the comparison getters false. The firmware version is read as in the corrected decoder. |
| Responses.DecodeStructured | lib/TriggerBox13.js:186-263 | A structured getter decodes `Label:[v]` as its own reading of v. |
| Responses.SpaceTerminatedSplit | lib/TriggerBox13.js:203-207 | A space-terminated list splits into its items plus one empty token. |
| Responses.DecimalsPlain | lib/TriggerBox13.js:203 | Decimal tokens hold no space and no line terminator. |
| Responses.ParseDecimalsBack | lib/TriggerBox13.js:207 | Decimal tokens decode back to their numbers; the trailing empty token is NaN. |
| Responses.DecimalToken | lib/TriggerBox13.js:207 | parseInt with no radix reads a decimal token back. |
| Responses.ParseIntEmpty | lib/TriggerBox13.js:207 | parseInt of the empty token is NaN. |
| Responses.DelaysReplyDecodes | lib/TriggerBox13.js:203-208 | A delay reply in the documented form decodes to the delays in order, then one NaN. |
| Responses.FlagTokens | lib/TriggerBox13.js:210 | The documented reply tokens: "EN" for an enabled output, "DIS" otherwise. |
| Responses.FlagTokensPlain | lib/TriggerBox13.js:210 | Those tokens hold no space and no line terminator. |
| Responses.EnabledFlagsBack | lib/TriggerBox13.js:214 | The tokens plus the trailing empty one decode to the flags, then false. |
| Responses.FlagsReplyDecodes | lib/TriggerBox13.js:210-222 | A focus or shutter reply in the documented form decodes to the flags in order, then one false. |
| Responses.IndexedRadixLosesSecondDelay | lib/TriggerBox13.js:207 | As written, the second delay is read in radix 1 and is NaN whatever was sent. The first delay reads as with decimal parsing. |
| Responses.IndexedRadixExample | lib/TriggerBox13.js:203-207 | On the documented reply, the second delay is 23 with decimal parsing and NaN as written. |
| Responses.DecimalExample | lib/TriggerBox13.js:203 | The token "23" reads as 23. |
| Responses.FirmwareVersionRoundTrip | lib/TriggerBox13.js:265-269 | `Version x.x` yields `x.x`, whatever follows after another space. |
| LowLevel.IngestAll | lib/TriggerBoxLowLevel.js:99-102 | Ingesting lines never attaches or detaches anything. Without a parser nothing changes. Without the listener the identity is kept. A complete identity stays complete. |
| LowLevel.After | lib/TriggerBoxLowLevel.js:99-102 | The same, across the windows of a loop. |
| LowLevel.ProbeAnswers | lib/TriggerBoxLowLevel.js:51-53 | The answers of the 100 possible probe checks: answer j is whether the identity is complete at probe check j. |
| LowLevel.QuietAnswers | lib/TriggerBoxLowLevel.js:67 | One answer per quiet-down check. |
| LowLevel.QuietAnswersAt | lib/TriggerBoxLowLevel.js:67 | Answer j is whether the line is quiet at check j. |
| LowLevel.ProbeCount | lib/TriggerBoxLowLevel.js:48-57 | A probe loop stopping at the first complete identity, or at 100, sends repeatUntil's count of probes. |
| LowLevel.QuietCount | lib/TriggerBoxLowLevel.js:67-70 | A quiet-down loop stopping at the first quiet check makes the count of checks its answers call for. |
| LowLevel.IdentifyPrefixes | lib/TriggerBoxLowLevel.js:76-83 | `Identify`: a line announces an identity exactly when it starts with GreenTriggerBox: or TriggerBox:, and the mode is green exactly for the first prefix. |
| LowLevel.IngestEffect | lib/TriggerBoxLowLevel.js:99-102 | `Ingest`, the data handler: nothing changes without a parser; otherwise lastMessageTime becomes the arrival time, and the identity is absorbed from the line only while the listener is on. |
| LowLevel.IdFieldAnnounce | lib/TriggerBoxLowLevel.js:80 | `parseInt(split(':')[1].slice(1))` of an announce line is the bracketed number. |
| LowLevel.AnnounceParts | lib/TriggerBoxLowLevel.js:78-83 | An announce line starts with its mode's prefix and carries its number in the id field. |
| LowLevel.IdentifyAnnounce | lib/TriggerBoxLowLevel.js:76-85 | An announce line is recognised with exactly its mode and boxId. |
| LowLevel.AbsorbAllOrNothing | lib/TriggerBoxLowLevel.js:76-85 | `Absorb`, parseIdentity's effect: on an unknown line the identity is unchanged; otherwise both fields become the announced mode and boxId, so a complete identity stays complete. It changes something exactly on a known prefix, and 'green' is chosen exactly for the GreenTriggerBox: prefix. |
| LowLevel.IngestSilent | lib/TriggerBoxLowLevel.js:99-102 | Lines without a known prefix leave the identity as it was. |
| LowLevel.AfterSilent | lib/TriggerBoxLowLevel.js:99-102 | The same, across every window of a loop. |
| LowLevel.ProbeBound | lib/TriggerBoxLowLevel.js:48-57 | At least one probe is sent, and at most 100. |
| LowLevel.ValidatedImpliesComplete | lib/TriggerBoxLowLevel.js:51-73 | Fewer than 100 probes (a true verdict) means the identity was complete when the loop stopped. |
| LowLevel.SilentBoxExhausts | lib/TriggerBoxLowLevel.js:48-57 | A box that never announces gets exactly 100 probes, and the cleared identity stays cleared. |
| LowLevel.AnnounceAfterFirstProbe | lib/TriggerBoxLowLevel.js:44-57 | An announce line after the first probe ends the loop at once, with exactly the announced mode and boxId. |
| LowLevel.SilentBoxNeverReady | lib/TriggerBoxLowLevel.js:48-73 | A box that never announces gets all 100 probes, and validate never returns true for it, however the line behaves afterwards. |
| LowLevel.AnnounceThenQuietReady | lib/TriggerBoxLowLevel.js:44-73 | A box that announces after the first probe, on a line quiet at the first check, validates after one probe and one check, returning true. |
| LowLevel.TriggerBoxLowLevel.constructor | lib/TriggerBoxLowLevel.js:10-24 | The port object exists but is not open yet. There is no parser, no listener and no identity, and nothing has been written or emitted. |
| LowLevel.TriggerBoxLowLevel.TransportOpened | lib/TriggerBoxLowLevel.js:27 | The port's open event leaves the port open. |
| LowLevel.TriggerBoxLowLevel.Emit | lib/TriggerBoxLowLevel.js:33 | An event is appended to the emitted events. |
| LowLevel.TriggerBoxLowLevel.SendCommand | lib/TriggerBoxLowLevel.js:119-137 | Rejects, writing nothing, exactly when the port is not open. Otherwise writes the command and a line feed. |
| LowLevel.TriggerBoxLowLevel.SetupParser | lib/TriggerBoxLowLevel.js:88-103 | Throws, changing nothing, without a port. Otherwise lastMessageTime becomes -1 and the parser is attached. |
| LowLevel.TriggerBoxLowLevel.Close | lib/TriggerBoxLowLevel.js:106-117 | Emits 'close' unless an open port's close reports an error, which throws instead. The port ends closed except in that case. |
| LowLevel.TriggerBoxLowLevel.ParseIdentity | lib/TriggerBoxLowLevel.js:76-85 | The identity becomes Absorb of the old one and the line. The 1.2 copy (lib/TriggerBox12.js:64-73) is the same code and is modelled by this member. |
| LowLevel.TriggerBoxLowLevel.ReceiveLine | lib/TriggerBoxLowLevel.js:99-102 | One delivered line goes to the listener and then stamps lastMessageTime, as Ingest says. |
| LowLevel.TriggerBoxLowLevel.Deliver | lib/TriggerBoxLowLevel.js:98-102 | A batch of lines changes the link as IngestAll says. |
| LowLevel.TriggerBoxLowLevel.Exchange | lib/TriggerBoxLowLevel.js:55-56 | One round writes one more copy of the command and ingests the next window. |
| LowLevel.TriggerBoxLowLevel.QuietDown | lib/TriggerBoxLowLevel.js:67-70 | Stops at the first quiet check. It writes one '^' per noisy check, and ends in the state after that many windows. |
| LowLevel.TriggerBoxLowLevel.ProbeLoop | lib/TriggerBoxLowLevel.js:48-57 | Sends exactly repeatUntil's count of probes on the probe answers, and ends in the state after that many windows. |
| LowLevel.TriggerBoxLowLevel.Handshake | lib/TriggerBoxLowLevel.js:48-73 | Probe loop, listener off, quiet-down loop. The verdict is whether fewer than 100 probes were sent. The final link is the start link after all the windows of both loops. The writes are the probes followed by one stop token per noisy check. |
| LowLevel.TriggerBoxLowLevel.Validate | lib/TriggerBoxLowLevel.js:38-74 | Clears the identity. On a closed port it throws 'Error in validate loop' without writing. Otherwise it runs the handshake from the cleared, listening state and detaches the listener. A true verdict implies a complete identity. The 1.2 copy (lib/TriggerBox12.js:26-62) is the same code and is modelled by this member. |
| LowLevel.TriggerBoxLowLevel.OnOpen | lib/TriggerBoxLowLevel.js:27-35 | Sets up the parser (throwing without a port), validates from the freshly opened link, and emits 'ready' exactly on a true verdict. The verdict, the final link (identity included) and the writes are those of the handshake from that link; a closed port writes nothing and emits nothing. |
| TriggerBox13.SettleAnswers | lib/TriggerBox13.js:53-56 | The answers of the 100 possible settle tests: answer j is whether more than 200 ms had passed at test j. |
| TriggerBox13.SettleCount | lib/TriggerBox13.js:53-56 | A settle loop stopping at the first passing test, or at 100, makes repeatUntil's count of calls. |
| TriggerBox13.SettledStricterThanQuiet | lib/TriggerBox13.js:55 | The 1.3 test passes only where the low-level loop would stop. At exactly 200 ms, or with no timestamp, it fails where the low-level loop stops. |
| TriggerBox13.ProbePhaseVerdict | lib/TriggerBox13.js:44-47 | The probe phase returns normally exactly when fewer than 100 probes were sent. It then leaves a complete identity. |
| TriggerBox13.HandshakeSound | lib/TriggerBox13.js:36-57 | A resolved _validate leaves a complete identity, and neither phase makes more than 100 calls. |
| TriggerBox13.SilentBoxNeverConnects | lib/TriggerBox13.js:44-47 | A box that never announces gets all 100 probes, the probe phase throws, and only probes are written. |
| TriggerBox13.AnnounceThenSettledConnects | lib/TriggerBox13.js:44-56 | A box that announces after the first probe, on a line quiet for more than 200 ms at the first test, resolves after one probe and one stop token. |
| TriggerBox13.TriggerBox13.constructor | lib/TriggerBoxLowLevel.js:10-24 | The connection starts unopened and unconnected, with nothing issued. |
| TriggerBox13.TriggerBox13.ProbeUntil | lib/TriggerBox13.js:44-47 | Sends exactly repeatUntil's count of probes on the probe answers, and throws exactly when repeatUntil throws on them. |
| TriggerBox13.TriggerBox13.SettleUntil | lib/TriggerBox13.js:53-56 | Sends exactly repeatUntil's count of stop tokens on the settle answers, and throws exactly when repeatUntil throws on them. |
| TriggerBox13.TriggerBox13.Handshake | lib/TriggerBox13.js:44-56 | A throwing probe phase skips the settle phase and leaves the listener attached. Otherwise the listener is detached and the settle phase decides the result. |
| TriggerBox13.TriggerBox13.Validate | lib/TriggerBox13.js:34-57 | Clears the identity and attaches the listener. A closed port rejects the first probe, leaving the listener attached. Success implies a complete identity. At most 100 probes and 100 stop tokens are sent. |
| TriggerBox13.TriggerBox13.SetupAndValidate | lib/TriggerBox13.js:15-26 | The parser setup and the wrapped validate of _onConnection: a missing port throws unwrapped; otherwise the result, the final link and the writes are those of the handshake from the freshly opened link, with a rejection wrapped as 'Validation failed'. |
| TriggerBox13.TriggerBox13.OnConnection | lib/TriggerBox13.js:15-27 | A missing port throws from the parser setup, unwrapped. Any validate failure becomes 'Validation failed'. On success the box is marked connected and 'ready' is emitted, with a complete identity. The result, final link and writes are the handshake's from the freshly opened link. |
| TriggerBox13.TriggerBox13.Issue | lib/TriggerBox13.js:97-183 | A setter hands over exactly its encoded command, with its delivery, or throws its encoding error having handed over nothing. |
| TriggerBox13.TriggerBox13.Get | lib/TriggerBox13.js:186-269 | A getter hands over exactly its query and resolves with the corrected decoding of the reply (`Responses.Decode`). As written, the getters resolve as `Responses.DecodeAsWritten` states: undefined, NaN or false, or a TypeError for the list getters. |
| TriggerBox12.TriggerBox12.constructor | lib/TriggerBox12.js:11-13 | The 1.2 connection starts like the low-level one. |
| TriggerBox12.TriggerBox12.SetupAndValidate | lib/TriggerBox12.js:16-18 | The base open handler's setupParser (lib/TriggerBoxLowLevel.js, line 29) followed by the 1.2 validate: the verdict, final link and writes are the handshake's from the freshly opened link; a closed port throws without writing. |
| TriggerBox12.TriggerBox12.OnOpen | lib/TriggerBox12.js:16-23 | After the base handler's setupParser, validates and emits 'ready' exactly on a true verdict, which implies a complete identity. The verdict, final link and writes are the handshake's from the freshly opened link. A closed port throws without writing. |

## Left out

- Timers: the 200 ms and 100 ms waits are not timed. The loops count their
  waits, and the arrival of lines is given by the `windows`/`ticks` oracles.
- Serial I/O: the port is its open flag plus a log of writes. The connection
  error callback of the port constructor (lib/TriggerBoxLowLevel.js:19-24) is
  not modelled.
- `LowLevel.TriggerBoxLowLevel.SendCommand`: does not model the write
  callback reporting an error (lib/TriggerBoxLowLevel.js:129-131), which is
  I/O.
- `LowLevel.TriggerBoxLowLevel.Validate`: the port is taken to stay open or
  closed for the whole handshake. A port that closes between two probes, and
  the rethrow that would then follow, are not modelled.
- `LowLevel.TriggerBoxLowLevel.QuietDown`: the quiet-down loop has no bound in
  the source. Here it stops after `fuel` stop tokens and reports
  `StillQuieting`, so a line that never goes quiet is represented only up to
  that bound.
- `TriggerBox13.TriggerBox13.ProbeUntil`, `TriggerBox13.TriggerBox13.SettleUntil`,
  `TriggerBox13.TriggerBox13.Handshake` and `TriggerBox13.TriggerBox13.Validate`:
  the port is taken to stay open for the whole handshake once the first probe
  is accepted. A `sendCommand` rejection inside a `repeatUntil` test, which
  would reject `_validate` mid-loop, is not modelled.
- `Commands.ValidateNumber`: only integer arguments below 1e21 in magnitude
  are modelled. From 1e21 on, `String` renders the number with an exponent
  and `parseInt` keeps only its leading digits, which the model does not
  follow. The parseInt of strings and fractions, the `Math.floor` fallback
  for NaN, and floating point are left out too.
- `Commands.ReadDelays`: the fixed-width reading is the driver's own framing.
  The firmware's parser is not part of this model, so whether it also takes
  the unpadded form of the command table is not stated.
- `startFocus`'s `waitAfter` delay is a timer and is left out.
- `TriggerBox13.TriggerBox13.Issue`: `sendTenFourCommand` is not defined by
  the classes in the model, so its acknowledgement is not modelled. The model
  records the encoded command and whether the setter awaits it.
- Getter replies: the base `sendCommand` resolves with no value. The reply a
  getter parses is therefore a parameter of `Responses.Decode`.
- The regular expression is modelled for these labels only: a literal label
  followed by `:[`, with `.` excluding the four line terminators.
- `parseInt`'s white space covers the ASCII spaces, U+00A0, U+2028, U+2029
  and U+FEFF. The other Zs code points are not modelled.
- The 1.2 class registers a second `open` handler beside the base one, so two
  validates run at once when the port opens. Their interleaving is
  concurrency and is not modelled; `TriggerBox12.TriggerBox12.OnOpen` is its
  own handler alone.
- Event-emitter options, other `data` listeners, and `console.error` logging
  are left out.
- lib/triggerBoxFactory.js, lib/index.js, releaseShutters.js and terminal.js
  are not part of this model.

## Findings

| source | as written | input that shows it | evidently intended | confidence | as-written member | corrected member |
|---|---|---|---|---|---|---|
| lib/TriggerBox13.js:91 | `_parseStructuredResponse` returns `labelMatch.value`, which a match object does not have, so every matching reply yields undefined | `BoxName:[Example Name]` for getBoxName resolves undefined; `Delays:[12 23 ]` makes getSequencerDelays call `split` on undefined | return the named capture group `value` | high; not executed | Responses.ParseStructuredResponseAsWritten (Responses.AsWrittenLosesValue, Responses.DecodeAsWritten) | Responses.ParseStructuredResponse (Responses.StructuredRoundTrip, Responses.Decode, TriggerBox13.TriggerBox13.Get) |
| lib/TriggerBox13.js:207 | `.map(parseInt)` passes each token's index as the radix | `Delays:[12 23 34 45 56 67 ]` reads 23 in radix 1, giving NaN | read every delay in decimal | high; not executed | Responses.ParseIndexedRadix (Responses.IndexedRadixLosesSecondDelay, Responses.IndexedRadixExample) | Responses.ParseDecimals (Responses.DelaysReplyDecodes, Responses.Decode, TriggerBox13.TriggerBox13.Get) |
