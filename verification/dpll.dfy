/**
 * The DPLL clock-quality monitor: per poll tick it combines the hardware
 * frequency and phase lock states with the states of the sources the DPLL
 * depends on, and classifies the interface as Locked or Freerun, starting a
 * holdover estimate when the reference is lost while in spec.
 */
module Dpll {
  import opened Wrappers
  import opened GoStrings
  import opened GoStrconv

  // Lock-state codes the hardware reports through sysfs.
  const DpllUnknown: int := -1
  const DpllInvalid: int := 0
  const DpllFreerun: int := 1
  const DpllLocked: int := 2
  const DpllLockedHoAcq: int := 3
  const DpllHoldover: int := 4

  // Defaults of the holdover parameters.
  const LocalMaxHoldoverOffset: Int64 := 1500  // ns
  const LocalHoldoverTimeout: Int64 := 14400   // s
  const MaxInSpecOffset: Int64 := 100          // ns

  /**
   * The clock states of the event package, which is not part of this model;
   * they are compared with `<`, in the order Unknown < Freerun < Holdover < Locked.
   */
  datatype PtpState = Unknown | Freerun | Holdover | Locked

  function Rank(s: PtpState): int {
    match s
    case Unknown => 0
    case Freerun => 1
    case Holdover => 2
    case Locked => 3
  }

  /**
   * getStateQuality: a lower number for a worse signal, after the automatic
   * selection order of ITU-T G.781 section 6.3.1. A code outside the table reads
   * the map's zero value.
   */
  function Quality(code: int): int {
    if code == DpllUnknown then -1
    else if code == DpllInvalid then 0
    else if code == DpllFreerun then 1
    else if code == DpllHoldover then 2
    else if code == DpllLocked then 3
    else if code == DpllLockedHoAcq then 4
    else 0
  }

  /** The table ranks the six states strictly, Holdover below Locked although its code is larger. */
  lemma QualityOrder()
    ensures Quality(DpllUnknown) < Quality(DpllInvalid) < Quality(DpllFreerun)
          < Quality(DpllHoldover) < Quality(DpllLocked) < Quality(DpllLockedHoAcq)
    ensures DpllHoldover > DpllLocked && Quality(DpllHoldover) < Quality(DpllLocked)
    ensures forall code :: code < DpllUnknown || code > DpllHoldover ==> Quality(code) == Quality(DpllInvalid)
  {
  }

  function Min(a: int, b: int): int {
    if a <= b then a else b
  }

  /** getWorseState: the argument of lower quality; on equal quality the frequency state. */
  function WorseState(pstate: int, fstate: int): (r: int)
    ensures r == pstate || r == fstate
    ensures Quality(r) == Min(Quality(pstate), Quality(fstate))
    ensures Quality(pstate) == Quality(fstate) ==> r == fstate
    ensures r == pstate && pstate != fstate ==> Quality(pstate) < Quality(fstate)
  {
    if Quality(pstate) < Quality(fstate) then pstate else fstate
  }

  /** isOffsetInRange: the acceptable window, closed at both ends. */
  predicate InRange(offset: int, min: int, max: int) {
    offset <= max && offset >= min
  }

  /** Both bounds belong to the window and the values just outside do not. */
  lemma {:induction false} InRangeBounds(min: int, max: int)
    requires min <= max
    ensures InRange(min, min, max) && InRange(max, min, max)
    ensures !InRange(min - 1, min, max) && !InRange(max + 1, min, max)
  {
  }

  /**
   * The holdover slope of NewDpll: int64 division (truncating) of the maximum
   * holdover offset by the timeout, then times 1000, with int64 wrap-around; a
   * zero timeout is Go's division-by-zero panic.
   */
  function Slope(maxOffset: Int64, timeout: Int64): (r: Option<Int64>)
    ensures r.None? <==> timeout == 0
  {
    if timeout == 0 then None else Some(Wrap64(Wrap64(GoDiv(maxOffset, timeout)) * 1000))
  }

  /** For non-negative inputs the quotient is truncated before the scaling, so the slope is a multiple of 1000 that is 0 whenever the offset is below the timeout. */
  lemma {:induction false} SlopeTruncatesFirst(maxOffset: Int64, timeout: Int64)
    requires 0 <= maxOffset && 0 < timeout
    requires (maxOffset / timeout) * 1000 < TwoTo63
    ensures Slope(maxOffset, timeout) == Some((maxOffset / timeout) * 1000)
    ensures Slope(maxOffset, timeout).value % 1000 == 0
    ensures Slope(maxOffset, timeout).value * timeout <= maxOffset * 1000
    ensures Slope(maxOffset, timeout).value == 0 <==> maxOffset < timeout
  {
    var q := maxOffset / timeout;
    DivFacts(maxOffset, timeout);
    assert GoDiv(maxOffset, timeout) == q;
    assert Wrap64(q) == q;
    assert Wrap64(q * 1000) == q * 1000;
    MulComm3(q, 1000, timeout);
    MulMono(q * timeout, maxOffset, 1000);
  }

  lemma {:induction false} DivFacts(a: int, b: int)
    requires 0 <= a && 0 < b
    ensures 0 <= a / b <= a && (a / b) * b <= a
    ensures a / b == 0 <==> a < b
  {
    var q, r := a / b, a % b;
    assert a == q * b + r && 0 <= r < b;
    if q < 0 {
      MulMono(q, -1, b);
      assert false;
    }
    MulMono(1, b, q);
    assert q * b >= q;
    if q >= 1 {
      MulMono(1, q, b);
    }
  }

  lemma {:induction false} MulComm3(x: int, y: int, z: int)
    ensures x * y * z == x * z * y
  {
  }

  /** With the default parameters 1500 ns and 14400 s the slope is 0. */
  lemma DefaultSlopeIsZero()
    ensures Slope(LocalMaxHoldoverOffset, LocalHoldoverTimeout) == Some(0)
  {
    SlopeTruncatesFirst(LocalMaxHoldoverOffset, LocalHoldoverTimeout);
  }

  /** A dependent source's answer; a query that timed out counts as Unknown. */
  function Reported(response: Option<PtpState>): PtpState {
    if response.None? then Unknown else response.value
  }

  /**
   * The dependent-source aggregate of one tick: the states collected in order,
   * then the lowest of them; Unknown when there are no dependents.
   */
  method LowestDependentState(responses: seq<Option<PtpState>>) returns (lowest: PtpState)
    ensures |responses| == 0 ==> lowest == Unknown
    ensures forall i :: 0 <= i < |responses| ==> Rank(lowest) <= Rank(Reported(responses[i]))
    ensures |responses| > 0 ==> exists i :: 0 <= i < |responses| && Reported(responses[i]) == lowest
  {
    var processStates: seq<PtpState> := [];
    var i := 0;
    while i < |responses|
      invariant 0 <= i <= |responses|
      invariant |processStates| == i
      invariant forall k :: 0 <= k < i ==> processStates[k] == Reported(responses[k])
    {
      processStates := processStates + [Reported(responses[i])];
      i := i + 1;
    }
    lowest := Unknown;
    var j := 0;
    while j < |processStates|
      invariant 0 <= j <= |processStates|
      invariant j == 0 ==> lowest == Unknown
      invariant forall k :: 0 <= k < j ==> Rank(lowest) <= Rank(processStates[k])
      invariant j > 0 ==> exists k :: 0 <= k < j && processStates[k] == lowest
    {
      if j == 0 || Rank(processStates[j]) < Rank(lowest) {
        lowest := processStates[j];
      }
      j := j + 1;
    }
  }

  /** What one tick decides: the new inSpec flag and state, and whether a holdover estimate starts. */
  datatype Verdict = Verdict(inSpec: bool, state: PtpState, startHoldover: bool)

  /**
   * The classification switch of a tick, on the combined hardware code. A code
   * outside the six known ones matches no case.
   */
  function Classify(combined: int, sourceLost: bool, inRange: bool, inSpec: bool, state: PtpState): (v: Verdict)
    ensures combined in {DpllFreerun, DpllInvalid, DpllUnknown} ==> v == Verdict(true, Freerun, false)
    ensures combined == DpllLocked ==>
      (v.inSpec && !v.startHoldover && (v.state == Locked <==> !sourceLost && inRange)
       && (v.state == Locked || v.state == Freerun))
    ensures combined in {DpllLockedHoAcq, DpllHoldover} ==>
      (if !sourceLost && inRange then v == Verdict(true, Locked, false)
       else if sourceLost && inSpec then v == Verdict(false, state, true)
       else v == Verdict(inSpec, Freerun, false))
    ensures combined !in {DpllUnknown, DpllInvalid, DpllFreerun, DpllLocked, DpllLockedHoAcq, DpllHoldover}
      ==> v == Verdict(inSpec, state, false)
  {
    if combined == DpllFreerun || combined == DpllInvalid || combined == DpllUnknown then
      Verdict(true, Freerun, false)
    else if combined == DpllLocked then
      Verdict(true, if !sourceLost && inRange then Locked else Freerun, false)
    else if combined == DpllLockedHoAcq || combined == DpllHoldover then
      if !sourceLost && inRange then Verdict(true, Locked, false)
      else if sourceLost && inSpec then Verdict(false, state, true)
      else Verdict(inSpec, Freerun, false)
    else Verdict(inSpec, state, false)
  }

  /** A tick moves the monitor into Locked only with its sources locked and the offset in range. */
  lemma {:induction false} EntersLockedOnlyWhenHealthy(combined: int, sourceLost: bool, inRange: bool, inSpec: bool, state: PtpState)
    requires state != Locked && Classify(combined, sourceLost, inRange, inSpec, state).state == Locked
    ensures !sourceLost && inRange
    ensures combined in {DpllLocked, DpllLockedHoAcq, DpllHoldover}
  {
  }

  /** A tick never itself sets Holdover: only the holdover estimate does. */
  lemma {:induction false} TickNeverSetsHoldover(combined: int, sourceLost: bool, inRange: bool, inSpec: bool, state: PtpState)
    ensures Classify(combined, sourceLost, inRange, inSpec, state).state == Holdover ==> state == Holdover
  {
  }

  /** A tick that starts a holdover leaves inSpec false, so the tick after it cannot start a second one. */
  lemma {:induction false} AtMostOneHoldoverStart(c1: int, c2: int, lost1: bool, lost2: bool, r1: bool, r2: bool,
                                inSpec: bool, state: PtpState)
    requires Classify(c1, lost1, r1, inSpec, state).startHoldover
    ensures var v := Classify(c1, lost1, r1, inSpec, state);
            !v.inSpec && !Classify(c2, lost2, r2, v.inSpec, v.state).startHoldover
  {
  }

  /** The events the monitor emits. */
  datatype DpllEvent =
    | Sample(iface: string, state: PtpState, frequencyStatus: int, offset: int, phaseStatus: int)  // WriteToLog, not Reset
    | Reset(iface: string)  // the terminal event: Reset, no state and no values

  /** The value of one sysfs attribute: 0 when it cannot be read, else Go's ParseInt result of the text without newlines. */
  function SysfsValue(content: Option<string>): (v: Int64)
    ensures content.None? ==> v == 0
  {
    if content.None? then 0 else ParseInt(ReplaceAll(content.value, "\n", ""), 10, 64).Value()
  }

  /** A number written with a closing newline reads back as itself. */
  lemma {:induction false} SysfsValueRoundTrip(n: Int64)
    ensures SysfsValue(Some(FormatInt(n) + "\n")) == n
  {
    var text := FormatInt(n);
    assert Join([text, ""], "\n") == text + "\n";
    SplitJoin([text, ""], "\n");
    assert Join([text, ""], "") == text;
    FormatParseRoundTrip(n, 64);
  }

  /** Text that is not a number reads as 0, a number beyond int64 as the bound it passes. */
  lemma {:induction false} SysfsValueErrors(content: string)
    ensures ParseInt(ReplaceAll(content, "\n", ""), 10, 64).SyntaxError? ==> SysfsValue(Some(content)) == 0
    ensures ParseInt(ReplaceAll(content, "\n", ""), 10, 64).RangeError? ==>
      SysfsValue(Some(content)) == TwoTo63 - 1 || SysfsValue(Some(content)) == -TwoTo63
  {
  }

  /**
   * sysfs: the phase state, frequency state and phase offset of an interface.
   * An empty interface name gives Invalid, Invalid, 0; otherwise each value is
   * read on its own from its file (None: the read failed).
   */
  method Sysfs(iface: string, frequencyFile: Option<string>, phaseFile: Option<string>, offsetFile: Option<string>)
    returns (phaseState: Int64, frequencyState: Int64, phaseOffset: Int64)
    ensures iface == [] ==> phaseState == DpllInvalid && frequencyState == DpllInvalid && phaseOffset == 0
    ensures iface != [] ==> frequencyState == SysfsValue(frequencyFile)
    ensures iface != [] ==> phaseState == SysfsValue(phaseFile)
    ensures iface != [] ==> phaseOffset == SysfsValue(offsetFile)
  {
    phaseState, frequencyState, phaseOffset := 0, 0, 0;
    if iface == [] {
      phaseState := DpllInvalid;
      frequencyState := DpllInvalid;
      phaseOffset := 0;
      return;
    }
    if frequencyFile.Some? {
      var contentStr := ReplaceAll(frequencyFile.value, "\n", "");
      frequencyState := ParseInt(contentStr, 10, 64).Value();
    }
    if phaseFile.Some? {
      var contentStr := ReplaceAll(phaseFile.value, "\n", "");
      phaseState := ParseInt(contentStr, 10, 64).Value();
    }
    if offsetFile.Some? {
      var contentStr := ReplaceAll(offsetFile.value, "\n", "");
      phaseOffset := ParseInt(contentStr, 10, 64).Value();
    }
  }

  /** DpllConfig: the monitor of one interface. */
  class Monitor {
    const iface: string
    const localMaxHoldoverOffset: Int64
    const localHoldoverTimeout: Int64
    const maxInSpecOffset: Int64
    const slope: Int64
    const dependingState: seq<string>
    var inSpec: bool
    var offset: Int64
    var state: PtpState
    var onHoldover: bool
    var sourceLost: bool
    // processConfig.GMThreshold, which nothing in the monitor assigns
    var gmMin: Int64
    var gmMax: Int64

    /** No code of the monitor sets onHoldover, so it stays false. */
    predicate Valid()
      reads this
    {
      !onHoldover
    }

    /** NewDpll. A zero timeout panics in the slope division (see Slope). */
    constructor (localMaxHoldoverOffset: Int64, localHoldoverTimeout: Int64, maxInSpecOffset: Int64,
                 iface: string, dependingState: seq<string>)
      requires localHoldoverTimeout != 0
      ensures Valid()
      ensures Slope(localMaxHoldoverOffset, localHoldoverTimeout) == Some(slope)
      ensures this.iface == iface && this.dependingState == dependingState
      ensures this.localMaxHoldoverOffset == localMaxHoldoverOffset
      ensures this.localHoldoverTimeout == localHoldoverTimeout
      ensures this.maxInSpecOffset == maxInSpecOffset
      ensures !inSpec && offset == 0 && state == Freerun && !sourceLost
      ensures gmMin == 0 && gmMax == 0
    {
      this.iface := iface;
      this.localMaxHoldoverOffset := localMaxHoldoverOffset;
      this.localHoldoverTimeout := localHoldoverTimeout;
      this.maxInSpecOffset := maxInSpecOffset;
      this.dependingState := dependingState;
      slope := Slope(localMaxHoldoverOffset, localHoldoverTimeout).value;
      inSpec := false;
      offset := 0;
      state := Freerun;
      onHoldover := false;
      sourceLost := false;
      gmMin, gmMax := 0, 0;
    }

    predicate IsOffsetInRange()
      reads this
    {
      InRange(offset, gmMin, gmMax)
    }

    /** The start of MonitorDpll: the monitor begins in spec. */
    method StartMonitoring()
      modifies this`inSpec
      ensures inSpec
    {
      inSpec := true;
    }

    /**
     * One poll tick of MonitorDpll, given the three hardware readings and the
     * answers of the dependent sources (None: the query timed out). Returns the
     * emitted event and whether a holdover estimate is started or cancelled.
     */
    method Tick(phaseStatus: Int64, frequencyStatus: Int64, phaseOffset: Int64, responses: seq<Option<PtpState>>)
      returns (ev: DpllEvent, startHoldover: bool, cancelHoldover: bool)
      requires Valid() && |responses| == |dependingState|
      modifies this
      ensures Valid()
      ensures sourceLost <==> !(|responses| > 0 && forall i :: 0 <= i < |responses| ==> responses[i] == Some(Locked))
      ensures Verdict(inSpec, state, startHoldover)
           == Classify(WorseState(phaseStatus, frequencyStatus), sourceLost, InRange(offset, gmMin, gmMax),
                       old(inSpec), old(state))
      ensures !cancelHoldover
      ensures offset == old(offset) && gmMin == old(gmMin) && gmMax == old(gmMax) && onHoldover == old(onHoldover)
      ensures ev == Sample(iface, Freerun, frequencyStatus, phaseOffset, phaseStatus)
    {
      var lowestState := LowestDependentState(responses);
      if lowestState == Locked {
        sourceLost := false;
      } else {
        sourceLost := true;
      }
      if |responses| > 0 && forall i :: 0 <= i < |responses| ==> responses[i] == Some(Locked) {
        assert Reported(responses[0]) == Locked;
      }
      startHoldover, cancelHoldover := false, false;
      var dpllStatus := WorseState(phaseStatus, frequencyStatus);
      if dpllStatus == DpllFreerun || dpllStatus == DpllInvalid || dpllStatus == DpllUnknown {
        inSpec := true;
        if onHoldover {
          cancelHoldover := true;
        }
        state := Freerun;
      } else if dpllStatus == DpllLocked {
        inSpec := true;
        if !sourceLost && IsOffsetInRange() {
          state := Locked;
        } else {
          state := Freerun;
        }
      } else if dpllStatus == DpllLockedHoAcq || dpllStatus == DpllHoldover {
        if !sourceLost && IsOffsetInRange() {
          inSpec := true;
          state := Locked;
          if onHoldover {
            // the source sets inSpec to true again here; it already is
            cancelHoldover := true;
          }
        } else if sourceLost && inSpec {
          inSpec := false;
          startHoldover := true;
        } else {
          state := Freerun;
        }
      }
      // the event carries the loop's own dpll_state, which stays Freerun
      ev := Sample(iface, Freerun, frequencyStatus, phaseOffset, phaseStatus);
    }

    /** The first write of the holdover estimate: the monitor enters Holdover. */
    method HoldoverBegin()
      modifies this`state
      ensures state == Holdover
    {
      state := Holdover;
    }

    /** A sample of the holdover estimate: the estimated offset (slope times elapsed time) replaces the offset. */
    method HoldoverSample(estimate: Int64)
      modifies this`offset
      ensures offset == estimate
    {
      offset := estimate;
    }

    /** The holdover estimate timed out: the monitor falls to Freerun. */
    method HoldoverExpire()
      modifies this`state
      ensures state == Freerun
    {
      state := Freerun;
    }

    /** The exit path of MonitorDpll: one terminal Reset event; no estimate is running to cancel. */
    method Exit() returns (ev: DpllEvent, cancelHoldover: bool)
      requires Valid()
      ensures ev == Reset(iface) && !cancelHoldover
    {
      ev := Reset(iface);
      cancelHoldover := false;
      if onHoldover {
        cancelHoldover := true;
      }
    }
  }
}
