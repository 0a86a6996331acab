/** The firmware 1.3 driver: the low-level connection plus a handshake built on
    repeatUntil, a connection handler that marks the box connected, and the
    setters, which encode a command and hand it to a transport this model does
    not include. The members the 1.3 driver calls but the low-level class does
    not define under those names (_setupParser, _lastMessageTime, a two-argument
    sendCommand) are read as the low-level setupParser, lastMessageTime and
    sendCommand. */
module TriggerBox13 {
  import opened JsText
  import Util
  import opened LowLevel
  import Commands
  import Responses

  /** The test of the second repeatUntil: more than QUIET_GAP ms since the last
      line. Without a timestamp the difference is NaN and the test fails. */
  predicate Settled(lastMessageTime: Option<int>, now: int)
  {
    lastMessageTime.Some? && now - lastMessageTime.value > QUIET_GAP
  }

  /** Whether the j-th call (0-based) of the settle test passes. */
  predicate SettledAt(st: Link, ticks: nat -> seq<Arrival>, clock: nat -> int, j: nat)
  {
    Settled(After(st, ticks, j + 1).lastMessageTime, clock(j))
  }

  /** The answers of the settle test, call by call. */
  function SettleAnswers(st: Link, ticks: nat -> seq<Arrival>, clock: nat -> int): (a: seq<bool>)
    ensures |a| == MAX_VALIDATE_TRIES
    ensures forall j :: 0 <= j < MAX_VALIDATE_TRIES ==> a[j] == SettledAt(st, ticks, clock, j)
  {
    seq(MAX_VALIDATE_TRIES, j requires 0 <= j => SettledAt(st, ticks, clock, j))
  }

  /** A settle loop that stops at the first passing call, or at the bound,
      made the number of calls repeatUntil makes. */
  lemma SettleCount(st: Link, ticks: nat -> seq<Arrival>, clock: nat -> int, count: nat)
    requires 1 <= count <= MAX_VALIDATE_TRIES
    requires forall j :: 0 <= j < count - 1 ==> !SettledAt(st, ticks, clock, j)
    requires SettledAt(st, ticks, clock, count - 1) || count >= MAX_VALIDATE_TRIES
    ensures Settles(st, ticks, clock) == count
  {
    var sa := SettleAnswers(st, ticks, clock);
    assert forall j :: 0 <= j < count - 1 ==> !Util.Answer(sa, j);
    Util.CallsUnique(sa, MAX_VALIDATE_TRIES, count);
  }

  /** The 1.3 settle test is stricter than the low-level quiet-down test: it
      passes only where the quiet-down loop would stop, and it fails where the
      low-level loop stops at exactly QUIET_GAP ms or before any line was timed. */
  lemma SettledStricterThanQuiet(last: Option<int>, now: int)
    ensures Settled(last, now) ==> !Noisy(last, now)
    ensures last.Some? && now - last.value == QUIET_GAP ==> !Settled(last, now) && !Noisy(last, now)
    ensures last.None? ==> !Settled(last, now) && !Noisy(last, now)
  {
  }

  /** A handshake that throws on the probe phase leaves the identity incomplete
      at every check; one that gets past it has a complete identity. */
  lemma ProbePhaseVerdict(st0: Link, windows: nat -> seq<Arrival>)
    ensures var n := Util.Calls(ProbeAnswers(st0, windows), MAX_VALIDATE_TRIES);
      !Util.Throws(ProbeAnswers(st0, windows), MAX_VALIDATE_TRIES) <==> n < MAX_VALIDATE_TRIES
    ensures var n := Util.Calls(ProbeAnswers(st0, windows), MAX_VALIDATE_TRIES);
      !Util.Throws(ProbeAnswers(st0, windows), MAX_VALIDATE_TRIES) ==> After(st0, windows, n).identity.Complete()
  {
    ValidatedImpliesComplete(st0, windows);
  }

  /** Whether the probe phase's repeatUntil throws. */
  predicate ProbeThrows(st0: Link, windows: nat -> seq<Arrival>)
  {
    Util.Throws(ProbeAnswers(st0, windows), MAX_VALIDATE_TRIES)
  }

  /** The number of settle tests the second repeatUntil makes from the link st. */
  function Settles(st: Link, ticks: nat -> seq<Arrival>, clock: nat -> int): nat
  {
    Util.Calls(SettleAnswers(st, ticks, clock), MAX_VALIDATE_TRIES)
  }

  /** Whether the second repeatUntil, started from the link st, throws. */
  predicate SettleThrows(st: Link, ticks: nat -> seq<Arrival>, clock: nat -> int)
  {
    Util.Throws(SettleAnswers(st, ticks, clock), MAX_VALIDATE_TRIES)
  }

  /** The number of settle tests after a probe phase that returned. */
  function SettleCalls(st0: Link, windows: nat -> seq<Arrival>, ticks: nat -> seq<Arrival>, clock: nat -> int): nat
  {
    Settles(Probed(st0, windows), ticks, clock)
  }

  /** How _validate ends on an open port: it rejects when either repeatUntil
      throws, and resolves otherwise. */
  function HandshakeResult(st0: Link, windows: nat -> seq<Arrival>, ticks: nat -> seq<Arrival>, clock: nat -> int): Result<(), Error>
  {
    if ProbeThrows(st0, windows) then Err(MaxRetriesExceeded)
    else if SettleThrows(Probed(st0, windows), ticks, clock) then Err(MaxRetriesExceeded)
    else Ok(())
  }

  /** The link when _validate ends: after the probe windows when the probe phase
      throws (listener still attached), else after the settle windows. */
  function HandshakeLink(st0: Link, windows: nat -> seq<Arrival>, ticks: nat -> seq<Arrival>, clock: nat -> int): Link
  {
    if ProbeThrows(st0, windows) then After(st0, windows, Probes(st0, windows))
    else After(Probed(st0, windows), ticks, SettleCalls(st0, windows, ticks, clock))
  }

  /** What _validate writes: the probes, then the stop tokens when the probe
      phase returned. */
  function HandshakeWrites(st0: Link, windows: nat -> seq<Arrival>, ticks: nat -> seq<Arrival>, clock: nat -> int): seq<string>
  {
    Copies(PROBE_LINE, Probes(st0, windows)) +
    (if ProbeThrows(st0, windows) then [] else Copies(STOP_LINE, SettleCalls(st0, windows, ticks, clock)))
  }

  /** A resolved _validate leaves a complete identity, and neither phase
      runs past its bound of 100 calls. */
  lemma HandshakeSound(st0: Link, windows: nat -> seq<Arrival>, ticks: nat -> seq<Arrival>, clock: nat -> int)
    ensures HandshakeResult(st0, windows, ticks, clock).Ok? ==> HandshakeLink(st0, windows, ticks, clock).identity.Complete()
    ensures Probes(st0, windows) <= MAX_VALIDATE_TRIES
    ensures SettleCalls(st0, windows, ticks, clock) <= MAX_VALIDATE_TRIES
  {
    ProbePhaseVerdict(st0, windows);
    ProbeBound(st0, windows);
    Util.CallsBounds(SettleAnswers(Probed(st0, windows), ticks, clock), MAX_VALIDATE_TRIES);
  }

  /** A box that never announces never connects: the probe phase sends all 100
      probes and throws. */
  lemma SilentBoxNeverConnects(st0: Link, windows: nat -> seq<Arrival>, ticks: nat -> seq<Arrival>, clock: nat -> int)
    requires st0.identity == Cleared
    requires forall j: nat, i :: 0 <= i < |windows(j)| ==> Identify(windows(j)[i].text).None?
    ensures ProbeThrows(st0, windows)
    ensures HandshakeResult(st0, windows, ticks, clock) == Err(MaxRetriesExceeded)
    ensures HandshakeWrites(st0, windows, ticks, clock) == Copies(PROBE_LINE, MAX_VALIDATE_TRIES)
  {
    SilentBoxExhausts(st0, windows);
  }

  /** Conversely, a box that announces after the first probe, on a line that
      has been quiet for more than 200 ms at the first settle test, connects
      after one probe and one stop token. */
  lemma AnnounceThenSettledConnects(st0: Link, windows: nat -> seq<Arrival>, ticks: nat -> seq<Arrival>, clock: nat -> int,
                                    m: Mode, n: nat, rest: string, t: int)
    requires st0.attached && st0.listening
    requires ':' !in rest
    requires windows(0) == [Arrival(AnnounceLine(m, n) + rest, t)]
    requires SettledAt(Probed(st0, windows), ticks, clock, 0)
    ensures HandshakeResult(st0, windows, ticks, clock) == Ok(())
    ensures HandshakeWrites(st0, windows, ticks, clock) == [PROBE_LINE, STOP_LINE]
  {
    AnnounceAfterFirstProbe(st0, windows, m, n, rest, t);
    assert Probes(st0, windows) == 1;
    assert !ProbeThrows(st0, windows);
    SettleCount(Probed(st0, windows), ticks, clock, 1);
    assert SettleCalls(st0, windows, ticks, clock) == 1;
    assert Copies(PROBE_LINE, 1) == [PROBE_LINE] && Copies(STOP_LINE, 1) == [STOP_LINE];
  }

  /** A command handed to the transport, and the way it was handed over. */
  datatype Sent = Sent(line: string, delivery: Commands.Delivery)

  class TriggerBox13 {
    const box: TriggerBoxLowLevel
    var connected: bool
    /** The commands the setters handed over, in order. */
    var issued: seq<Sent>

    constructor (commPortPath: string)
      ensures fresh(box) && box.portPath == commPortPath
      ensures box.hasUart && !box.uartOpen && !box.parserAttached && !box.identityListener
      ensures box.CurrentIdentity() == Cleared && box.lastMessageTime == None
      ensures box.written == [] && box.signals == []
      ensures !connected && issued == []
    {
      box := new TriggerBoxLowLevel(commPortPath);
      connected := false;
      issued := [];
    }

    /** The first repeatUntil of _validate: each call sends the probe and
        tests whether mode and boxId are set; `windows(j)` are the lines that
        arrive during the j-th call. */
    method ProbeUntil(ghost st0: Link, windows: nat -> seq<Arrival>) returns (threw: bool, calls: nat)
      requires box.uartOpen && box.LinkState() == st0
      modifies box`mode, box`boxId, box`lastMessageTime, box`written
      ensures calls == Probes(st0, windows)
      ensures threw <==> ProbeThrows(st0, windows)
      ensures box.LinkState() == After(st0, windows, calls)
      ensures box.written == old(box.written) + Copies(PROBE_LINE, calls)
    {
      box.Exchange(st0, old(box.written), 0, PROBE, windows, 0);
      var result := box.CurrentIdentity().Complete();
      var retryCount: nat := 1;
      while !result && retryCount < MAX_VALIDATE_TRIES
        invariant 1 <= retryCount <= MAX_VALIDATE_TRIES
        invariant box.LinkState() == After(st0, windows, retryCount)
        invariant box.written == old(box.written) + Copies(PROBE_LINE, retryCount)
        invariant result == ProbeAt(st0, windows, retryCount - 1)
        invariant forall j :: 0 <= j < retryCount - 1 ==> !ProbeAt(st0, windows, j)
        decreases MAX_VALIDATE_TRIES - retryCount
      {
        box.Exchange(st0, old(box.written), retryCount, PROBE, windows, retryCount);
        result := box.CurrentIdentity().Complete();
        retryCount := retryCount + 1;
      }
      ProbeCount(st0, windows, retryCount);
      calls := retryCount;
      threw := retryCount >= MAX_VALIDATE_TRIES;
    }

    /** The second repeatUntil of _validate: each call sends the stop token and
        tests whether more than QUIET_GAP ms passed since the last line;
        `ticks(j)` are the lines that arrive during the j-th call and
        `clock(j)` is Date.now() at its test. */
    method SettleUntil(ghost st: Link, ticks: nat -> seq<Arrival>, clock: nat -> int) returns (threw: bool, calls: nat)
      requires box.uartOpen && box.LinkState() == st
      modifies box`mode, box`boxId, box`lastMessageTime, box`written
      ensures calls == Settles(st, ticks, clock)
      ensures threw <==> SettleThrows(st, ticks, clock)
      ensures box.LinkState() == After(st, ticks, calls)
      ensures box.written == old(box.written) + Copies(STOP_LINE, calls)
    {
      box.Exchange(st, old(box.written), 0, STOP_ANNOUNCE, ticks, 0);
      var result := Settled(box.lastMessageTime, clock(0));
      var retryCount: nat := 1;
      while !result && retryCount < MAX_VALIDATE_TRIES
        invariant 1 <= retryCount <= MAX_VALIDATE_TRIES
        invariant box.LinkState() == After(st, ticks, retryCount)
        invariant box.written == old(box.written) + Copies(STOP_LINE, retryCount)
        invariant result == SettledAt(st, ticks, clock, retryCount - 1)
        invariant forall j :: 0 <= j < retryCount - 1 ==> !SettledAt(st, ticks, clock, j)
        decreases MAX_VALIDATE_TRIES - retryCount
      {
        box.Exchange(st, old(box.written), retryCount, STOP_ANNOUNCE, ticks, retryCount);
        result := Settled(box.lastMessageTime, clock(retryCount));
        retryCount := retryCount + 1;
      }
      SettleCount(st, ticks, clock, retryCount);
      calls := retryCount;
      threw := retryCount >= MAX_VALIDATE_TRIES;
    }

    /** _validate after the listener is attached on an open port: the probe
        phase (a throw leaves the listener attached), the listener detached,
        then the settle phase. */
    method Handshake(ghost st0: Link, windows: nat -> seq<Arrival>, ticks: nat -> seq<Arrival>, clock: nat -> int)
      returns (r: Result<(), Error>, probes: nat, checks: nat)
      requires box.uartOpen && box.LinkState() == st0
      modifies box`mode, box`boxId, box`lastMessageTime, box`identityListener, box`written
      ensures probes == Probes(st0, windows)
      ensures checks == if ProbeThrows(st0, windows) then 0 else SettleCalls(st0, windows, ticks, clock)
      ensures r == HandshakeResult(st0, windows, ticks, clock)
      ensures box.identityListener == (ProbeThrows(st0, windows) && old(box.identityListener))
      ensures box.LinkState() == HandshakeLink(st0, windows, ticks, clock)
      ensures box.written == old(box.written) + HandshakeWrites(st0, windows, ticks, clock)
    {
      var threw;
      threw, probes := ProbeUntil(st0, windows);
      if threw {
        return Err(MaxRetriesExceeded), probes, 0;
      }
      box.identityListener := false;
      threw, checks := SettleUntil(Probed(st0, windows), ticks, clock);
      r := if threw then Err(MaxRetriesExceeded) else Ok(());
      AppendAssoc(old(box.written), Copies(PROBE_LINE, probes), Copies(STOP_LINE, checks));
    }

    /** _validate: delete mode and boxId, attach the identity listener, then the
        two repeatUntil phases. A closed port rejects the first probe, which
        rejects _validate with the listener still attached. */
    method Validate(windows: nat -> seq<Arrival>, ticks: nat -> seq<Arrival>, clock: nat -> int)
      returns (r: Result<(), Error>, probes: nat, checks: nat)
      modifies box`mode, box`boxId, box`lastMessageTime, box`identityListener, box`written
      ensures !box.uartOpen ==>
        r == Err(NotOpen) && probes == 0 && checks == 0 && box.identityListener &&
        box.CurrentIdentity() == Cleared && box.written == old(box.written) &&
        box.lastMessageTime == old(box.lastMessageTime)
      ensures box.uartOpen ==>
        var st0 := ProbeStart(old(box.LinkState()));
        probes == Probes(st0, windows) &&
        checks == (if ProbeThrows(st0, windows) then 0 else SettleCalls(st0, windows, ticks, clock)) &&
        r == HandshakeResult(st0, windows, ticks, clock) &&
        box.identityListener == ProbeThrows(st0, windows) &&
        box.LinkState() == HandshakeLink(st0, windows, ticks, clock) &&
        box.written == old(box.written) + HandshakeWrites(st0, windows, ticks, clock)
      ensures r.Ok? ==> box.CurrentIdentity().Complete()
      ensures probes <= MAX_VALIDATE_TRIES && checks <= MAX_VALIDATE_TRIES
    {
      box.mode, box.boxId := None, None;
      box.identityListener := true;
      if !box.uartOpen {
        return Err(NotOpen), 0, 0;
      }
      ghost var st0 := ProbeStart(old(box.LinkState()));
      assert box.LinkState() == st0;
      HandshakeSound(st0, windows, ticks, clock);
      r, probes, checks := Handshake(st0, windows, ticks, clock);
    }

    /** _onConnection: set up the parser (a missing port throws from there,
        unwrapped), then validate; on success mark the box connected and emit
        'ready', otherwise reject with 'Validation failed' wrapping the cause. */
    method OnConnection(windows: nat -> seq<Arrival>, ticks: nat -> seq<Arrival>, clock: nat -> int)
      returns (r: Result<(), Error>)
      modifies box`mode, box`boxId, box`lastMessageTime, box`identityListener, box`written
      modifies box`parserAttached, box`signals, this`connected
      ensures !box.hasUart ==> r == Err(NoUart) && box.written == old(box.written)
      ensures box.hasUart ==> box.parserAttached
      ensures box.hasUart && !box.uartOpen ==>
        r == Err(ValidationFailed(NotOpen)) && box.written == old(box.written)
      ensures box.hasUart && box.uartOpen ==>
        r == (match HandshakeResult(OPENED_START, windows, ticks, clock)
              case Ok(_) => Ok(())
              case Err(e) => Err(ValidationFailed(e))) &&
        box.LinkState() == HandshakeLink(OPENED_START, windows, ticks, clock) &&
        box.written == old(box.written) + HandshakeWrites(OPENED_START, windows, ticks, clock)
      ensures connected == (old(connected) || r.Ok?)
      ensures box.signals == old(box.signals) + (if r.Ok? then [Ready] else [])
      ensures r.Ok? ==> box.CurrentIdentity().Complete()
    {
      r := SetupAndValidate(windows, ticks, clock);
      ghost var link, id, w := box.LinkState(), box.CurrentIdentity(), box.written;
      if r.Ok? {
        connected := true;
        box.Emit(Ready);
      }
      assert box.LinkState() == link && box.CurrentIdentity() == id && box.written == w;
    }

    /** The part of _onConnection before the box is marked connected: setup
        and validate, with validate's rejection wrapped. */
    method SetupAndValidate(windows: nat -> seq<Arrival>, ticks: nat -> seq<Arrival>, clock: nat -> int)
      returns (r: Result<(), Error>)
      modifies box`mode, box`boxId, box`lastMessageTime, box`identityListener, box`written, box`parserAttached
      ensures !box.hasUart ==> r == Err(NoUart) && box.written == old(box.written)
      ensures box.hasUart ==> box.parserAttached
      ensures box.hasUart && !box.uartOpen ==>
        r == Err(ValidationFailed(NotOpen)) && box.written == old(box.written)
      ensures box.hasUart && box.uartOpen ==>
        r == (match HandshakeResult(OPENED_START, windows, ticks, clock)
              case Ok(_) => Ok(())
              case Err(e) => Err(ValidationFailed(e))) &&
        box.LinkState() == HandshakeLink(OPENED_START, windows, ticks, clock) &&
        box.written == old(box.written) + HandshakeWrites(OPENED_START, windows, ticks, clock)
      ensures r.Ok? ==> box.CurrentIdentity().Complete()
    {
      var ok := box.SetupParser();
      if !ok {
        return Err(NoUart);
      }
      assert ProbeStart(box.LinkState()) == OPENED_START;
      var v, probes, checks := Validate(windows, ticks, clock);
      r := if v.Err? then Err(ValidationFailed(v.error)) else Ok(());
    }

    /** A setter call: its command is encoded and handed over, or the setter
        throws before anything is handed over. */
    method Issue(c: Commands.Command) returns (r: Result<(), Commands.CommandError>)
      modifies this`issued
      ensures Commands.Encode(c).Err? ==> r == Err(Commands.Encode(c).error) && issued == old(issued)
      ensures Commands.Encode(c).Ok? ==>
        r == Ok(()) && issued == old(issued) + [Sent(Commands.Encode(c).value, Commands.DeliveryOf(c))]
    {
      var e := Commands.Encode(c);
      if e.Err? {
        return Err(e.error);
      }
      issued := issued + [Sent(e.value, Commands.DeliveryOf(c))];
      r := Ok(());
    }

    /** A getter call: its query is handed over like a plain setter's command,
        and the reply the transport resolves with, a parameter here, is
        decoded by the corrected decoder `Responses.Decode` (the leftmost
        match's capture, delays read in decimal). As written, the getters
        resolve as `Responses.DecodeAsWritten` says instead. */
    method Get(g: Responses.Getter, reply: string) returns (r: Result<Responses.Reading, Responses.ResponseError>)
      modifies this`issued
      ensures issued == old(issued) + [Sent(Responses.Query(g), Commands.Plain)]
      ensures r == Responses.Decode(g, reply)
    {
      issued := issued + [Sent(Responses.Query(g), Commands.Plain)];
      r := Responses.Decode(g, reply);
    }
  }
}
