/** The firmware 1.2 driver. Its validate and parseIdentity repeat the
    low-level ones line for line, so they are the low-level members; what it
    adds is its own 'open' handler, which validates and emits 'ready' only on a
    true verdict. */
module TriggerBox12 {
  import opened JsText
  import opened LowLevel

  class TriggerBox12 {
    const box: TriggerBoxLowLevel

    constructor (commPortPath: string)
      ensures fresh(box) && box.portPath == commPortPath
      ensures box.hasUart && !box.uartOpen && !box.parserAttached && !box.identityListener
      ensures box.CurrentIdentity() == Cleared && box.lastMessageTime == None
      ensures box.written == [] && box.signals == []
    {
      box := new TriggerBoxLowLevel(commPortPath);
    }

    /** The port's 'open' event as the 1.2 class sees it. The base class's
        handler is registered first and runs setupParser synchronously before
        its own validate is started; the 1.2 handler then validates and emits
        'ready' on a true verdict and nothing otherwise (a false verdict is only
        logged). setupParser throwing without a port only rejects the base
        handler's promise, so the 1.2 handler runs either way. */
    method OnOpen(windows: nat -> seq<Arrival>, ticks: nat -> seq<Arrival>, clock: nat -> int, fuel: nat)
      returns (outcome: ValidateOutcome)
      modifies box`parserAttached, box`mode, box`boxId, box`lastMessageTime, box`identityListener, box`written, box`signals
      ensures box.hasUart ==> box.parserAttached
      ensures !box.identityListener
      ensures !box.uartOpen ==>
        outcome == Threw(ValidateLoop(NotOpen)) && box.written == old(box.written) && box.CurrentIdentity() == Cleared
      ensures box.hasUart && box.uartOpen ==>
        outcome == Verdict(OPENED_START, windows, ticks, clock, fuel) &&
        box.LinkState() == ValidateLink(OPENED_START, windows, ticks, clock, fuel) &&
        box.written == old(box.written) + ValidateWrites(OPENED_START, windows, ticks, clock, fuel)
      ensures box.signals == old(box.signals) + (if outcome == Returned(true) then [Ready] else [])
      ensures outcome == Returned(true) ==> box.CurrentIdentity().Complete()
    {
      outcome := SetupAndValidate(windows, ticks, clock, fuel);
      ghost var link, id, w := box.LinkState(), box.CurrentIdentity(), box.written;
      if outcome == Returned(true) {
        box.Emit(Ready);
      }
      assert box.LinkState() == link && box.CurrentIdentity() == id && box.written == w;
    }

    /** The part of the 'open' event before 'ready': the base handler's
        setupParser, then the 1.2 validate. */
    method SetupAndValidate(windows: nat -> seq<Arrival>, ticks: nat -> seq<Arrival>, clock: nat -> int, fuel: nat)
      returns (outcome: ValidateOutcome)
      modifies box`parserAttached, box`mode, box`boxId, box`lastMessageTime, box`identityListener, box`written
      ensures box.hasUart ==> box.parserAttached
      ensures !box.identityListener
      ensures !box.uartOpen ==>
        outcome == Threw(ValidateLoop(NotOpen)) && box.written == old(box.written) && box.CurrentIdentity() == Cleared
      ensures box.hasUart && box.uartOpen ==>
        outcome == Verdict(OPENED_START, windows, ticks, clock, fuel) &&
        box.LinkState() == ValidateLink(OPENED_START, windows, ticks, clock, fuel) &&
        box.written == old(box.written) + ValidateWrites(OPENED_START, windows, ticks, clock, fuel)
      ensures outcome == Returned(true) ==> box.CurrentIdentity().Complete()
    {
      var attached := box.SetupParser();
      assert attached ==> ProbeStart(box.LinkState()) == OPENED_START;
      var probes, checks;
      outcome, probes, checks := box.Validate(windows, ticks, clock, fuel);
    }
  }
}
