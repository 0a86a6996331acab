/** The connection object shared by both firmware generations: identity parsing,
    the counted probe loop of the handshake, the quiet-down loop, line ingest,
    writes and close. The serial port is reduced to its open flag and a log of
    what was written; received lines and the clock are oracles handed to the
    loops that wait on them. */
module LowLevel {
  import opened JsText
  import Util

  /** Most probes a handshake sends. */
  const MAX_VALIDATE_TRIES: nat := 100
  /** The probe that puts the box into its announce mode. */
  const PROBE: string := "*calling_ESPER_triggerBox"
  /** The token that stops the announce mode. */
  const STOP_ANNOUNCE: string := "^"
  /** The probe and the stop token as written to the port. */
  const PROBE_LINE: string := PROBE + "\n"
  const STOP_LINE: string := STOP_ANNOUNCE + "\n"
  /** Milliseconds of silence the quiet-down phase waits for. */
  const QUIET_GAP: int := 200

  datatype Mode = Green | Blue

  /** What an announce line carries. */
  datatype Announce = Announce(mode: Mode, boxId: JsNumber)

  /** The mode and boxId fields; None stands for a deleted (undefined) field. */
  datatype Identity = Identity(mode: Option<Mode>, boxId: Option<JsNumber>)
  {
    /** typeof mode === 'string' && typeof boxId === 'number' (NaN is a number). */
    predicate Complete() { mode.Some? && boxId.Some? }
  }

  const Cleared: Identity := Identity(None, None)

  /** A received line and the Date.now() reading taken when it was ingested. */
  datatype Arrival = Arrival(text: string, at: int)

  /** What line ingest reads and writes: whether the parser is attached, whether
      the identity listener is on, the identity fields and lastMessageTime. */
  datatype Link = Link(attached: bool, listening: bool, identity: Identity, lastMessageTime: Option<int>)

  datatype Signal = Ready | Closed

  datatype Error =
    | NotOpen                      // sendCommand on a port that is not open
    | NoUart                       // setupParser without a serial port object
    | ValidateLoop(cause: Error)   // 'Error in validate loop'
    | CloseFailed                  // the close callback reported an error
    | MaxRetriesExceeded           // repeatUntil ran out of tries
    | ValidationFailed(cause: Error)

  /** What validate() does: return a verdict, throw, or (only because the
      quiet-down loop has no bound) still be looping when the fuel ran out. */
  datatype ValidateOutcome = Returned(validated: bool) | Threw(error: Error) | StillQuieting

  // ---------------------------------------------------------------------------
  // Identity lines

  /** parseInt(line.split(':')[1].slice(1)): the text after the first colon, up to
      the next one, without its first character, read as an integer. */
  function IdField(line: string): JsNumber
    requires ':' in line
  {
    ParseInt(DropFirst(Split(line, ':')[1]), 0)
  }

  /** The prefixes of the two announce lines. */
  const GREEN_PREFIX: string := "GreenTriggerBox:"
  const BLUE_PREFIX: string := "TriggerBox:"

  /** The mode and boxId a line announces, if it starts with a known prefix. */
  function Identify(line: string): Option<Announce>
  {
    if StartsWith(line, GREEN_PREFIX) then
      assert line[15] == ':';
      Some(Announce(Green, IdField(line)))
    else if StartsWith(line, BLUE_PREFIX) then
      assert line[10] == ':';
      Some(Announce(Blue, IdField(line)))
    else None
  }

  function Prefix(m: Mode): string
  {
    if m == Green then GREEN_PREFIX else BLUE_PREFIX
  }

  /** The effect of parseIdentity on the identity fields. */
  function Absorb(id: Identity, line: string): Identity
  {
    match Identify(line)
    case Some(a) => Identity(Some(a.mode), Some(a.boxId))
    case None => id
  }

  /** The line the box sends in announce mode. */
  function AnnounceLine(m: Mode, n: nat): string
  {
    Prefix(m) + "[" + Decimal(n) + "]"
  }

  // ---------------------------------------------------------------------------
  // Line ingest

  /** The parser's data handler: emit the line to the identity listener, if on,
      then record the time. Without a parser no line is delivered at all. */
  function Ingest(st: Link, a: Arrival): Link
  {
    if !st.attached then st
    else st.(identity := if st.listening then Absorb(st.identity, a.text) else st.identity,
             lastMessageTime := Some(a.at))
  }

  function IngestAll(st: Link, lines: seq<Arrival>): (r: Link)
    ensures r.attached == st.attached && r.listening == st.listening
    ensures !st.attached ==> r == st
    ensures !st.listening ==> r.identity == st.identity
    ensures st.identity.Complete() ==> r.identity.Complete()
    decreases |lines|
  {
    if lines == [] then st else Ingest(IngestAll(st, lines[..|lines| - 1]), lines[|lines| - 1])
  }

  /** The link once every line received before the k-th loop check has been
      ingested, when `windows(j)` holds the lines that arrive between check j-1
      and check j. */
  function After(st: Link, windows: nat -> seq<Arrival>, k: nat): (r: Link)
    ensures r.attached == st.attached && r.listening == st.listening
    ensures !st.attached ==> r == st
    ensures !st.listening ==> r.identity == st.identity
    ensures st.identity.Complete() ==> r.identity.Complete()
  {
    if k == 0 then st else IngestAll(After(st, windows, k - 1), windows(k - 1))
  }

  /** The link as the handshake starts it: identity deleted, listener attached. */
  function ProbeStart(st: Link): Link
  {
    st.(listening := true, identity := Cleared)
  }

  /** Whether the identity is complete at the j-th probe check (0-based). */
  predicate ProbeAt(st0: Link, windows: nat -> seq<Arrival>, j: nat)
  {
    After(st0, windows, j + 1).identity.Complete()
  }

  /** The answers the handshake's loop condition sees, one per probe check. */
  function ProbeAnswers(st0: Link, windows: nat -> seq<Arrival>): (a: seq<bool>)
    ensures |a| == MAX_VALIDATE_TRIES
    ensures forall j :: 0 <= j < MAX_VALIDATE_TRIES ==> a[j] == ProbeAt(st0, windows, j)
  {
    seq(MAX_VALIDATE_TRIES, j requires 0 <= j => ProbeAt(st0, windows, j))
  }

  /** The quiet-down loop condition Date.now() - lastMessageTime < 200; it is false
      while lastMessageTime is undefined (the subtraction gives NaN). */
  predicate Noisy(lastMessageTime: Option<int>, now: int)
  {
    lastMessageTime.Some? && now - lastMessageTime.value < QUIET_GAP
  }

  /** The answers of the first n quiet-down checks. */
  function QuietAnswers(st: Link, ticks: nat -> seq<Arrival>, clock: nat -> int, n: nat): (a: seq<bool>)
    ensures |a| == n
  {
    if n == 0 then [] else QuietAnswers(st, ticks, clock, n - 1) + [QuietAt(st, ticks, clock, n - 1)]
  }

  lemma {:induction false} QuietAnswersAt(st: Link, ticks: nat -> seq<Arrival>, clock: nat -> int, n: nat, j: nat)
    requires j < n
    ensures QuietAnswers(st, ticks, clock, n)[j] == QuietAt(st, ticks, clock, j)
  {
    if j < n - 1 {
      QuietAnswersAt(st, ticks, clock, n - 1, j);
    }
  }

  /** Likewise for the probe loop, which stops once the identity is complete or
      MAX_VALIDATE_TRIES probes were sent. */
  lemma ProbeCount(st0: Link, windows: nat -> seq<Arrival>, count: nat)
    requires 1 <= count <= MAX_VALIDATE_TRIES
    requires forall j :: 0 <= j < count - 1 ==> !ProbeAt(st0, windows, j)
    requires ProbeAt(st0, windows, count - 1) || count >= MAX_VALIDATE_TRIES
    ensures Probes(st0, windows) == count
  {
    var pa := ProbeAnswers(st0, windows);
    assert forall j :: 0 <= j < count - 1 ==> !Util.Answer(pa, j);
    Util.CallsUnique(pa, MAX_VALIDATE_TRIES, count);
  }

  /** A quiet-down loop that stops at the first quiet check, or once the fuel is
      spent, made the number of checks its answers call for. */
  lemma QuietCount(st: Link, ticks: nat -> seq<Arrival>, clock: nat -> int, fuel: nat, checks: nat)
    requires 1 <= checks <= fuel + 1
    requires NoisyBefore(st, ticks, clock, checks - 1)
    requires QuietAt(st, ticks, clock, checks - 1) || checks >= fuel + 1
    ensures Quiets(st, ticks, clock, fuel) == checks
    ensures Quieted(st, ticks, clock, fuel) == QuietAt(st, ticks, clock, checks - 1)
  {
    var qa := QuietAnswers(st, ticks, clock, fuel + 1);
    forall j | 0 <= j < checks - 1 ensures !Util.Answer(qa, j) {
      QuietAnswersAt(st, ticks, clock, fuel + 1, j);
    }
    QuietAnswersAt(st, ticks, clock, fuel + 1, checks - 1);
    Util.CallsUnique(qa, fuel + 1, checks);
  }

  /** Every one of the first n quiet-down checks finds the line noisy. */
  predicate NoisyBefore(st: Link, ticks: nat -> seq<Arrival>, clock: nat -> int, n: nat)
  {
    forall j :: 0 <= j < n ==> !QuietAt(st, ticks, clock, j)
  }

  lemma NoisyBeforeExtend(st: Link, ticks: nat -> seq<Arrival>, clock: nat -> int, n: nat)
    requires NoisyBefore(st, ticks, clock, n) && !QuietAt(st, ticks, clock, n)
    ensures NoisyBefore(st, ticks, clock, n + 1)
  {
  }

  /** Whether the j-th quiet-down check (0-based) finds the line quiet. */
  predicate QuietAt(st: Link, ticks: nat -> seq<Arrival>, clock: nat -> int, j: nat)
  {
    !Noisy(After(st, ticks, j + 1).lastMessageTime, clock(j))
  }

  /** The link as validate starts it right after setupParser: parser attached,
      listener on, identity deleted, lastMessageTime -1. */
  const OPENED_START: Link := Link(true, true, Cleared, Some(-1))

  /** The number of probes validate sends from the link st0. */
  function Probes(st0: Link, windows: nat -> seq<Arrival>): nat
  {
    Util.Calls(ProbeAnswers(st0, windows), MAX_VALIDATE_TRIES)
  }

  /** The link once the probe loop has ended and the listener is detached. */
  function Probed(st0: Link, windows: nat -> seq<Arrival>): Link
  {
    After(st0, windows, Probes(st0, windows)).(listening := false)
  }

  /** The number of checks the quiet-down loop makes from the link st. */
  function Quiets(st: Link, ticks: nat -> seq<Arrival>, clock: nat -> int, fuel: nat): nat
  {
    Util.Calls(QuietAnswers(st, ticks, clock, fuel + 1), fuel + 1)
  }

  /** Whether the quiet-down loop from the link st ends on a quiet check
      rather than on spent fuel. */
  predicate Quieted(st: Link, ticks: nat -> seq<Arrival>, clock: nat -> int, fuel: nat)
  {
    Util.Answer(QuietAnswers(st, ticks, clock, fuel + 1), Quiets(st, ticks, clock, fuel) - 1)
  }

  /** The number of quiet-down checks that follow the probe loop. */
  function QuietChecks(st0: Link, windows: nat -> seq<Arrival>, ticks: nat -> seq<Arrival>, clock: nat -> int, fuel: nat): nat
  {
    Quiets(Probed(st0, windows), ticks, clock, fuel)
  }

  /** What validate returns on an open port: whether fewer than 100 probes were
      sent, once the line is quiet. */
  function Verdict(st0: Link, windows: nat -> seq<Arrival>, ticks: nat -> seq<Arrival>, clock: nat -> int, fuel: nat): ValidateOutcome
  {
    if Quieted(Probed(st0, windows), ticks, clock, fuel)
    then Returned(Probes(st0, windows) < MAX_VALIDATE_TRIES)
    else StillQuieting
  }

  /** The link when validate returns on an open port: after the probe loop,
      with the listener detached, and then the quiet-down checks. */
  function ValidateLink(st0: Link, windows: nat -> seq<Arrival>, ticks: nat -> seq<Arrival>, clock: nat -> int, fuel: nat): Link
  {
    After(Probed(st0, windows), ticks, QuietChecks(st0, windows, ticks, clock, fuel))
  }

  /** The lines validate writes on an open port: every probe, then a stop
      line for each quiet-down check after the first. */
  function ValidateWrites(st0: Link, windows: nat -> seq<Arrival>, ticks: nat -> seq<Arrival>, clock: nat -> int, fuel: nat): seq<string>
  {
    Copies(PROBE_LINE, Probes(st0, windows)) + Copies(STOP_LINE, QuietChecks(st0, windows, ticks, clock, fuel) - 1)
  }

  /** The validate specification spelled out in the two loops' counts. */
  lemma HandshakeSpec(st0: Link, windows: nat -> seq<Arrival>, ticks: nat -> seq<Arrival>, clock: nat -> int, fuel: nat)
    ensures var after := Probed(st0, windows);
      QuietChecks(st0, windows, ticks, clock, fuel) == Quiets(after, ticks, clock, fuel) &&
      Verdict(st0, windows, ticks, clock, fuel) ==
        (if Quieted(after, ticks, clock, fuel) then Returned(Probes(st0, windows) < MAX_VALIDATE_TRIES) else StillQuieting) &&
      ValidateLink(st0, windows, ticks, clock, fuel) == After(after, ticks, Quiets(after, ticks, clock, fuel)) &&
      ValidateWrites(st0, windows, ticks, clock, fuel) ==
        Copies(PROBE_LINE, Probes(st0, windows)) + Copies(STOP_LINE, Quiets(after, ticks, clock, fuel) - 1)
  {
  }

  lemma AppendAssoc(a: seq<string>, b: seq<string>, c: seq<string>)
    ensures a + b + c == a + (b + c)
  {
  }

  /** k copies of one written command. */
  function Copies(s: string, k: nat): seq<string>
  {
    if k == 0 then [] else Copies(s, k - 1) + [s]
  }

  // ---------------------------------------------------------------------------
  // Lemmas

  /** The boxId field of a line made of a colon-terminated prefix and a
      bracketed decimal number, followed by colon-free text. */
  lemma IdFieldAnnounce(p: string, n: nat, rest: string)
    requires ':' !in p && ':' !in rest
    ensures var line := p + [':'] + ("[" + Decimal(n) + "]" + rest);
      ':' in line && IdField(line) == Num(n)
  {
    var q := "[" + Decimal(n) + "]" + rest;
    BracketedDecimal(n, rest);
    assert p + [':'] + q + [] == p + [':'] + q;
    SplitSecondField(p, ':', q, []);
    ParseIntDecimal(0, n, "]" + rest, 0);
  }

  /** A bracketed decimal followed by colon-free text has no colon, and
      dropping its bracket leaves the digits. */
  lemma BracketedDecimal(n: nat, rest: string)
    requires ':' !in rest
    ensures var q := "[" + Decimal(n) + "]" + rest;
      ':' !in q && DropFirst(q) == Repeat(' ', 0) + Decimal(n) + ("]" + rest)
  {
    var d := Decimal(n);
    var tail := d + ("]" + rest);
    forall i | 0 <= i < |d|
      ensures d[i] != ':'
    {
      assert IsDigit(d[i]);
    }
    assert ':' !in tail;
    var q := "[" + d + "]" + rest;
    assert q == ['['] + tail;
    assert DropFirst(q) == tail;
    assert Repeat(' ', 0) + d + ("]" + rest) == tail;
  }

  lemma StartsWithPrefix(p: string, s: string)
    ensures StartsWith(p + s, p)
  {
    assert (p + s)[..|p|] == p;
  }

  lemma StartsWithExtend(p: string, s: string, t: string)
    requires StartsWith(s, p)
    ensures StartsWith(s + t, p)
  {
    assert (s + t)[..|p|] == s[..|p|];
  }

  /** Announce lines are recognised with their mode and boxId, whatever colon-free
      text follows the closing bracket. */
  lemma IdentifyAnnounce(m: Mode, n: nat, rest: string)
    requires ':' !in rest
    ensures Identify(AnnounceLine(m, n) + rest) == Some(Announce(m, Num(n)))
  {
    var line := AnnounceLine(m, n) + rest;
    AnnounceParts(m, n, rest);
    if m == Blue {
      StartsWithHead(line, BLUE_PREFIX);
      DiffersAtHead(line, GREEN_PREFIX);
    }
  }

  lemma StartsWithHead(s: string, p: string)
    requires |p| > 0 && StartsWith(s, p)
    ensures |s| > 0 && s[0] == p[0]
  {
    assert s[..|p|][0] == s[0];
  }

  lemma DiffersAtHead(s: string, p: string)
    requires |p| > 0 && |s| > 0 && s[0] != p[0]
    ensures !StartsWith(s, p)
  {
    if |p| <= |s| {
      assert s[..|p|][0] != p[0];
    }
  }

  lemma AnnounceParts(m: Mode, n: nat, rest: string)
    requires ':' !in rest
    ensures ':' in AnnounceLine(m, n) + rest
    ensures StartsWith(AnnounceLine(m, n) + rest, Prefix(m))
    ensures IdField(AnnounceLine(m, n) + rest) == Num(n)
  {
    var p := Prefix(m);
    var name := p[..|p| - 1];
    var d := Decimal(n);
    var line := AnnounceLine(m, n) + rest;
    assert line == p + ("[" + d + "]" + rest) by {
      ConcatAssoc(p + "[" + d, "]", rest);
      ConcatAssoc(p + "[", d, "]" + rest);
      ConcatAssoc(p, "[", d + ("]" + rest));
      ConcatAssoc("[" + d, "]", rest);
      ConcatAssoc("[", d, "]" + rest);
    }
    assert p == name + [':'] && ':' !in name;
    IdFieldAnnounce(name, n, rest);
    StartsWithPrefix(p, "[" + d + "]" + rest);
  }

  /** parseIdentity either sets both fields or neither: it never clears or
      half-sets the identity, and a line without a known prefix changes nothing. */
  /** A line announces an identity exactly when it starts with one of the two
      prefixes, and the mode is green exactly for the GreenTriggerBox: one. */
  lemma IdentifyPrefixes(line: string)
    ensures Identify(line).Some? <==> StartsWith(line, GREEN_PREFIX) || StartsWith(line, BLUE_PREFIX)
    ensures Identify(line).Some? ==> (Identify(line).value.mode == Green <==> StartsWith(line, GREEN_PREFIX))
  {
    if StartsWith(line, GREEN_PREFIX) {
      assert line[..11] != BLUE_PREFIX by { assert line[0] == 'G'; }
    }
  }

  lemma AbsorbAllOrNothing(id: Identity, line: string)
    ensures Identify(line).None? ==> Absorb(id, line) == id
    ensures Identify(line).Some? ==> Absorb(id, line).Complete()
    ensures Identify(line).Some? ==>
      Absorb(id, line).mode == Some(Identify(line).value.mode) &&
      Absorb(id, line).boxId == Some(Identify(line).value.boxId)
    ensures id.Complete() ==> Absorb(id, line).Complete()
    ensures (StartsWith(line, GREEN_PREFIX) || StartsWith(line, BLUE_PREFIX)) <==> Identify(line).Some?
    ensures Identify(line).Some? ==>
      (Absorb(id, line).mode == Some(Green) <==> StartsWith(line, GREEN_PREFIX))
  {
    IdentifyPrefixes(line);
  }

  /** One line through the data handler: nothing happens without a parser;
      otherwise the line is stamped with its arrival time and, only while the
      identity listener is on, absorbed into the identity. */
  lemma IngestEffect(st: Link, a: Arrival)
    ensures var r := Ingest(st, a);
      r.attached == st.attached && r.listening == st.listening &&
      (!st.attached ==> r == st) &&
      (st.attached ==> r.lastMessageTime == Some(a.at)) &&
      (!st.listening ==> r.identity == st.identity) &&
      (st.attached && st.listening ==> r.identity == Absorb(st.identity, a.text))
  {
  }

  /** Lines without a known prefix leave the identity as it was. */
  lemma {:induction false} IngestSilent(st: Link, lines: seq<Arrival>)
    requires forall i :: 0 <= i < |lines| ==> Identify(lines[i].text).None?
    ensures IngestAll(st, lines).identity == st.identity
    decreases |lines|
  {
    if lines != [] {
      IngestSilent(st, lines[..|lines| - 1]);
    }
  }

  lemma {:induction false} AfterSilent(st: Link, windows: nat -> seq<Arrival>, k: nat)
    requires forall j: nat, i :: 0 <= i < |windows(j)| ==> Identify(windows(j)[i].text).None?
    ensures After(st, windows, k).identity == st.identity
  {
    if k > 0 {
      AfterSilent(st, windows, k - 1);
      IngestSilent(After(st, windows, k - 1), windows(k - 1));
    }
  }

  /** At most MAX_VALIDATE_TRIES probes are sent, and at least one. */
  lemma ProbeBound(st0: Link, windows: nat -> seq<Arrival>)
    ensures 1 <= Util.Calls(ProbeAnswers(st0, windows), MAX_VALIDATE_TRIES) <= MAX_VALIDATE_TRIES
  {
    Util.CallsBounds(ProbeAnswers(st0, windows), MAX_VALIDATE_TRIES);
  }

  /** Stopping before the bound means the identity is complete. */
  lemma ValidatedImpliesComplete(st0: Link, windows: nat -> seq<Arrival>)
    ensures var n := Util.Calls(ProbeAnswers(st0, windows), MAX_VALIDATE_TRIES);
      n < MAX_VALIDATE_TRIES ==> After(st0, windows, n).identity.Complete()
  {
    var pa := ProbeAnswers(st0, windows);
    Util.CallsStopAtFirstPass(pa, MAX_VALIDATE_TRIES);
    Util.CallsBounds(pa, MAX_VALIDATE_TRIES);
    var n := Util.Calls(pa, MAX_VALIDATE_TRIES);
  }

  /** A box that never announces gets exactly MAX_VALIDATE_TRIES probes, and the
      cleared identity stays cleared. */
  lemma SilentBoxExhausts(st0: Link, windows: nat -> seq<Arrival>)
    requires st0.identity == Cleared
    requires forall j: nat, i :: 0 <= i < |windows(j)| ==> Identify(windows(j)[i].text).None?
    ensures Util.Calls(ProbeAnswers(st0, windows), MAX_VALIDATE_TRIES) == MAX_VALIDATE_TRIES
    ensures After(st0, windows, MAX_VALIDATE_TRIES).identity == Cleared
  {
    var pa := ProbeAnswers(st0, windows);
    forall j | 0 <= j < |pa| ensures !pa[j] {
      AfterSilent(st0, windows, j + 1);
    }
    Util.NeverPassesExhausts(pa, MAX_VALIDATE_TRIES);
    AfterSilent(st0, windows, MAX_VALIDATE_TRIES);
  }

  /** An announce line received after the first probe ends the probe loop at once
      with exactly the announced mode and boxId. */
  lemma AnnounceAfterFirstProbe(st0: Link, windows: nat -> seq<Arrival>, m: Mode, n: nat, rest: string, t: int)
    requires st0.attached && st0.listening
    requires ':' !in rest
    requires windows(0) == [Arrival(AnnounceLine(m, n) + rest, t)]
    ensures Util.Calls(ProbeAnswers(st0, windows), MAX_VALIDATE_TRIES) == 1
    ensures After(st0, windows, 1).identity == Identity(Some(m), Some(Num(n)))
  {
    IdentifyAnnounce(m, n, rest);
    var lines := windows(0);
    assert lines[..0] == [];
    assert After(st0, windows, 1) == IngestAll(st0, lines) == Ingest(st0, lines[0]);
    ProbeCount(st0, windows, 1);
  }

  /** A box that never announces never validates: whatever the line does
      afterwards, validate does not return true. */
  lemma SilentBoxNeverReady(st0: Link, windows: nat -> seq<Arrival>, ticks: nat -> seq<Arrival>, clock: nat -> int, fuel: nat)
    requires st0.identity == Cleared
    requires forall j: nat, i :: 0 <= i < |windows(j)| ==> Identify(windows(j)[i].text).None?
    ensures Probes(st0, windows) == MAX_VALIDATE_TRIES
    ensures Verdict(st0, windows, ticks, clock, fuel) != Returned(true)
  {
    SilentBoxExhausts(st0, windows);
  }

  /** Conversely, a box that announces after the first probe, on a line that
      is quiet at the first check, validates after one probe and no stop token. */
  lemma AnnounceThenQuietReady(st0: Link, windows: nat -> seq<Arrival>, ticks: nat -> seq<Arrival>, clock: nat -> int,
                               fuel: nat, m: Mode, n: nat, rest: string, t: int)
    requires st0.attached && st0.listening
    requires ':' !in rest
    requires windows(0) == [Arrival(AnnounceLine(m, n) + rest, t)]
    requires QuietAt(Probed(st0, windows), ticks, clock, 0)
    ensures Probes(st0, windows) == 1 && QuietChecks(st0, windows, ticks, clock, fuel) == 1
    ensures Verdict(st0, windows, ticks, clock, fuel) == Returned(true)
  {
    AnnounceAfterFirstProbe(st0, windows, m, n, rest, t);
    QuietCount(Probed(st0, windows), ticks, clock, fuel, 1);
  }

  // ---------------------------------------------------------------------------
  // The connection object

  class TriggerBoxLowLevel {
    const portPath: string
    /** Whether a serial port object exists (this.uart). */
    var hasUart: bool
    /** this.uart.isOpen */
    var uartOpen: bool
    /** Whether setupParser has piped the port into the line parser. */
    var parserAttached: bool
    /** Whether parseIdentity is registered as a 'data' listener. */
    var identityListener: bool
    var mode: Option<Mode>
    var boxId: Option<JsNumber>
    var lastMessageTime: Option<int>
    /** Everything written to the port, in order. */
    var written: seq<string>
    /** The 'ready' and 'close' events emitted, in order. */
    var signals: seq<Signal>

    function CurrentIdentity(): Identity
      reads this`mode, this`boxId
    {
      Identity(mode, boxId)
    }

    function LinkState(): Link
      reads this`parserAttached, this`identityListener, this`mode, this`boxId, this`lastMessageTime
    {
      Link(parserAttached, identityListener, CurrentIdentity(), lastMessageTime)
    }

    /** The port is opened asynchronously: it is not open yet. */
    constructor (commPortPath: string)
      ensures portPath == commPortPath
      ensures hasUart && !uartOpen && !parserAttached && !identityListener
      ensures mode == None && boxId == None && lastMessageTime == None
      ensures written == [] && signals == []
    {
      portPath := commPortPath;
      hasUart, uartOpen, parserAttached, identityListener := true, false, false, false;
      mode, boxId, lastMessageTime := None, None, None;
      written, signals := [], [];
    }

    /** The port's 'open' event. */
    method TransportOpened()
      modifies this`uartOpen
      ensures uartOpen
    {
      uartOpen := true;
    }

    method Emit(s: Signal)
      modifies this`signals
      ensures signals == old(signals) + [s]
    {
      signals := signals + [s];
    }

    /** Rejects without writing when the port is not open; otherwise writes the
        command and a line feed. */
    method SendCommand(command: string) returns (ok: bool)
      modifies this`written
      ensures ok == uartOpen
      ensures written == old(written) + (if ok then [command + "\n"] else [])
    {
      if !uartOpen {
        return false;
      }
      written := written + [command + "\n"];
      ok := true;
    }

    /** Throws without a port; otherwise starts lastMessageTime at -1 and attaches
        the line parser. */
    method SetupParser() returns (ok: bool)
      modifies this`parserAttached, this`lastMessageTime
      ensures ok == hasUart
      ensures ok ==> parserAttached && lastMessageTime == Some(-1)
      ensures !ok ==> parserAttached == old(parserAttached) && lastMessageTime == old(lastMessageTime)
    {
      if !hasUart {
        return false;
      }
      lastMessageTime := Some(-1);
      parserAttached := true;
      ok := true;
    }

    /** Emits 'close' right away when the port is not open; otherwise closes it
        and emits 'close' from the callback, unless the callback reports an
        error, which it throws instead. */
    method Close(closeFails: bool) returns (ok: bool)
      modifies this`uartOpen, this`signals
      ensures ok == !(old(uartOpen) && closeFails)
      ensures uartOpen == (old(uartOpen) && closeFails)
      ensures signals == old(signals) + (if ok then [Closed] else [])
    {
      if uartOpen {
        if closeFails {
          return false;
        }
        uartOpen := false;
      }
      signals := signals + [Closed];
      ok := true;
    }

    /** The 'data' listener installed by validate. */
    method ParseIdentity(line: string)
      modifies this`mode, this`boxId
      ensures CurrentIdentity() == Absorb(old(CurrentIdentity()), line)
    {
      if StartsWith(line, GREEN_PREFIX) {
        assert line[15] == ':';
        mode := Some(Green);
        boxId := Some(IdField(line));
      } else if StartsWith(line, BLUE_PREFIX) {
        assert line[10] == ':';
        mode := Some(Blue);
        boxId := Some(IdField(line));
      }
    }

    /** One line from the parser: emitted to the listener, then timestamped. */
    method ReceiveLine(a: Arrival)
      modifies this`mode, this`boxId, this`lastMessageTime
      ensures LinkState() == Ingest(old(LinkState()), a)
    {
      if parserAttached {
        if identityListener {
          ParseIdentity(a.text);
        }
        lastMessageTime := Some(a.at);
      }
    }

    method Deliver(lines: seq<Arrival>)
      modifies this`mode, this`boxId, this`lastMessageTime
      ensures LinkState() == IngestAll(old(LinkState()), lines)
    {
      var i := 0;
      while i < |lines|
        invariant 0 <= i <= |lines|
        invariant LinkState() == IngestAll(old(LinkState()), lines[..i])
      {
        ReceiveLine(lines[i]);
        assert lines[..i + 1][..i] == lines[..i];
        i := i + 1;
      }
      assert lines[..i] == lines;
    }

    /** One round of a polling loop: the command, then the lines that arrive
        before the next check. `sent` counts the copies of the command already
        written since `w0`. */
    method Exchange(ghost st: Link, ghost w0: seq<string>, ghost sent: nat, command: string,
                    windows: nat -> seq<Arrival>, k: nat)
      requires uartOpen
      requires LinkState() == After(st, windows, k)
      requires written == w0 + Copies(command + "\n", sent)
      modifies this`mode, this`boxId, this`lastMessageTime, this`written
      ensures LinkState() == After(st, windows, k + 1)
      ensures written == w0 + Copies(command + "\n", sent + 1)
    {
      var ok := SendCommand(command);
      Deliver(windows(k));
    }

    /** The quiet-down loop: while fewer than 200 ms passed since the last line,
        send the stop token and wait. `ticks(j)` are the lines that arrive before
        the j-th check and `clock(j)` is Date.now() at it. In the source nothing
        is awaited between the last probe check, the listener's removal and the
        first quiet check, so no line can arrive there and `ticks(0)` is always
        empty; the contract holds for any `ticks(0)`, which only widens it. The
        loop has no bound in the source; here it stops after `fuel` stop tokens. */
    method QuietDown(ghost st: Link, ticks: nat -> seq<Arrival>, clock: nat -> int, fuel: nat) returns (settled: bool, checks: nat)
      requires uartOpen && LinkState() == st
      modifies this`mode, this`boxId, this`lastMessageTime, this`written
      ensures checks == Quiets(st, ticks, clock, fuel)
      ensures settled == Quieted(st, ticks, clock, fuel)
      ensures LinkState() == After(st, ticks, checks)
      ensures written == old(written) + Copies(STOP_LINE, checks - 1)
    {
      Deliver(ticks(0));
      assert After(st, ticks, 1) == IngestAll(st, ticks(0));
      checks := 1;
      while Noisy(lastMessageTime, clock(checks - 1)) && checks < fuel + 1
        invariant 1 <= checks <= fuel + 1
        invariant LinkState() == After(st, ticks, checks)
        invariant written == old(written) + Copies(STOP_LINE, checks - 1)
        invariant lastMessageTime == After(st, ticks, checks).lastMessageTime
        invariant NoisyBefore(st, ticks, clock, checks - 1)
        decreases fuel + 1 - checks
      {
        assert !QuietAt(st, ticks, clock, checks - 1);
        NoisyBeforeExtend(st, ticks, clock, checks - 1);
        Exchange(st, old(written), checks - 1, STOP_ANNOUNCE, ticks, checks);
        checks := checks + 1;
      }
      assert QuietAt(st, ticks, clock, checks - 1) || checks >= fuel + 1;
      QuietCount(st, ticks, clock, fuel, checks);
      settled := !Noisy(lastMessageTime, clock(checks - 1));
    }

    /** The probe loop of validate() on an open port: send the probe, then,
        while fewer than 100 probes were sent and the identity is incomplete,
        wait 200 ms and send it again. `windows(j)` are the lines that arrive
        before the j-th check of the loop condition. */
    method ProbeLoop(ghost st0: Link, windows: nat -> seq<Arrival>) returns (count: nat)
      requires uartOpen && LinkState() == st0
      modifies this`mode, this`boxId, this`lastMessageTime, this`written
      ensures count == Probes(st0, windows)
      ensures LinkState() == After(st0, windows, count)
      ensures written == old(written) + Copies(PROBE_LINE, count)
    {
      count := 1;
      var sent := SendCommand(PROBE);
      Deliver(windows(0));
      assert After(st0, windows, 1) == IngestAll(st0, windows(0));
      while count < MAX_VALIDATE_TRIES && !CurrentIdentity().Complete()
        invariant 1 <= count <= MAX_VALIDATE_TRIES
        invariant LinkState() == After(st0, windows, count)
        invariant written == old(written) + Copies(PROBE_LINE, count)
        invariant forall j :: 0 <= j < count - 1 ==> !ProbeAt(st0, windows, j)
        decreases MAX_VALIDATE_TRIES - count
      {
        Exchange(st0, old(written), count, PROBE, windows, count);
        count := count + 1;
      }
      ProbeCount(st0, windows, count);
    }

    /** The part of validate() after the first probe is accepted: the probe
        loop, the listener detached, then the quiet-down loop. */
    method Handshake(ghost st0: Link, windows: nat -> seq<Arrival>, ticks: nat -> seq<Arrival>, clock: nat -> int, fuel: nat)
      returns (outcome: ValidateOutcome, probes: nat, checks: nat)
      requires uartOpen && LinkState() == st0
      modifies this`mode, this`boxId, this`lastMessageTime, this`identityListener, this`written
      ensures !identityListener
      ensures probes == Probes(st0, windows) && checks == QuietChecks(st0, windows, ticks, clock, fuel)
      ensures outcome == Verdict(st0, windows, ticks, clock, fuel)
      ensures LinkState() == ValidateLink(st0, windows, ticks, clock, fuel)
      ensures written == old(written) + ValidateWrites(st0, windows, ticks, clock, fuel)
    {
      probes := ProbeLoop(st0, windows);
      identityListener := false;
      ghost var after := Probed(st0, windows);
      assert LinkState() == after;
      var settled;
      settled, checks := QuietDown(after, ticks, clock, fuel);
      outcome := if settled then Returned(probes < MAX_VALIDATE_TRIES) else StillQuieting;
      HandshakeSpec(st0, windows, ticks, clock, fuel);
      AppendAssoc(old(written), Copies(PROBE_LINE, probes), Copies(STOP_LINE, checks - 1));
    }

    /** validate(): delete mode and boxId, attach the identity listener, run the
        probe loop (a closed port rejects the first probe, which is rethrown as
        'Error in validate loop'), detach the listener, run the quiet-down loop,
        and answer whether fewer than 100 probes were sent. */
    method Validate(windows: nat -> seq<Arrival>, ticks: nat -> seq<Arrival>, clock: nat -> int, fuel: nat)
      returns (outcome: ValidateOutcome, probes: nat, checks: nat)
      modifies this`mode, this`boxId, this`lastMessageTime, this`identityListener, this`written
      ensures !identityListener
      ensures !uartOpen ==>
        outcome == Threw(ValidateLoop(NotOpen)) && probes == 0 && checks == 0 && written == old(written) &&
        CurrentIdentity() == Cleared && lastMessageTime == old(lastMessageTime)
      ensures uartOpen ==>
        var st0 := ProbeStart(old(LinkState()));
        probes == Probes(st0, windows) && checks == QuietChecks(st0, windows, ticks, clock, fuel) &&
        outcome == Verdict(st0, windows, ticks, clock, fuel) &&
        LinkState() == ValidateLink(st0, windows, ticks, clock, fuel) &&
        written == old(written) + ValidateWrites(st0, windows, ticks, clock, fuel)
      ensures outcome == Returned(true) ==> CurrentIdentity().Complete()
      ensures probes <= MAX_VALIDATE_TRIES
    {
      mode, boxId := None, None;
      identityListener := true;
      if !uartOpen {
        identityListener := false;
        return Threw(ValidateLoop(NotOpen)), 0, 0;
      }
      ghost var st0 := ProbeStart(old(LinkState()));
      ValidatedImpliesComplete(st0, windows);
      ProbeBound(st0, windows);
      outcome, probes, checks := Handshake(st0, windows, ticks, clock, fuel);
    }

    /** The port's 'open' handler: set up the parser, validate, and emit 'ready'
        only on a true verdict (a false one is only logged). */
    method OnOpen(windows: nat -> seq<Arrival>, ticks: nat -> seq<Arrival>, clock: nat -> int, fuel: nat)
      returns (outcome: ValidateOutcome)
      modifies this`mode, this`boxId, this`lastMessageTime, this`identityListener, this`written
      modifies this`parserAttached, this`signals
      ensures !hasUart ==> outcome == Threw(NoUart) && signals == old(signals) && written == old(written)
      ensures hasUart ==> parserAttached && !identityListener
      ensures hasUart && !uartOpen ==>
        outcome == Threw(ValidateLoop(NotOpen)) && written == old(written) && CurrentIdentity() == Cleared
      ensures hasUart && uartOpen ==>
        outcome == Verdict(OPENED_START, windows, ticks, clock, fuel) &&
        LinkState() == ValidateLink(OPENED_START, windows, ticks, clock, fuel) &&
        written == old(written) + ValidateWrites(OPENED_START, windows, ticks, clock, fuel)
      ensures signals == old(signals) + (if outcome == Returned(true) then [Ready] else [])
      ensures outcome == Returned(true) ==> CurrentIdentity().Complete()
    {
      var ok := SetupParser();
      if !ok {
        return Threw(NoUart);
      }
      assert ProbeStart(LinkState()) == OPENED_START;
      var probes, checks;
      outcome, probes, checks := Validate(windows, ticks, clock, fuel);
      ghost var link, id, w := LinkState(), CurrentIdentity(), written;
      assert outcome == Returned(true) ==> id.Complete();
      if outcome == Returned(true) {
        Emit(Ready);
      }
      assert LinkState() == link && CurrentIdentity() == id && written == w;
    }
  }
}
