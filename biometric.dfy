/**
 * The lock screen of components/BiometricSecurity.tsx: the `scanning` and
 * `success` flags, flipped by the scan button and by two timers. Each click
 * and each timer firing is one event, handled to completion before the next.
 * The timers still pending are part of the state, as counters.
 */
module Biometric {

  datatype ScanState = ScanState(
    scanning: bool,
    success: bool,
    scanTimers: nat,    // scan timers set by handleScan that have not fired
    unlockTimers: nat,  // onUnlock timers that have not fired
    unlockCalls: nat)   // how often onUnlock has been called

  const Initial: ScanState := ScanState(false, false, 0, 0, 0)

  datatype ScanEvent = ClickScan | ScanTimerFires | UnlockTimerFires

  /** The scan button is disabled while `scanning || success`. */
  predicate ScanEnabled(s: ScanState)
  {
    !(s.scanning || s.success)
  }

  /** What every reachable state satisfies. */
  predicate Inv(s: ScanState)
  {
    && !(s.scanning && s.success)
    && s.scanTimers <= 1
    && (s.scanning <==> s.scanTimers == 1)
    && s.unlockTimers + s.unlockCalls <= 1
    && (s.success <==> s.unlockTimers + s.unlockCalls == 1)
  }

  /** `handleScan`: sets `scanning` and starts the scan timer. */
  function HandleScan(s: ScanState): (t: ScanState)
    ensures t.scanning && t.scanTimers > 0
    ensures t.success == s.success && t.unlockTimers == s.unlockTimers && t.unlockCalls == s.unlockCalls
    ensures Inv(s) && ScanEnabled(s) ==> Inv(t)
  {
    s.(scanning := true, scanTimers := s.scanTimers + 1)
  }

  /** One event. A timer event with no timer of that kind pending cannot occur and changes nothing. */
  function Step(s: ScanState, e: ScanEvent): (t: ScanState)
    ensures Inv(s) ==> Inv(t)
    ensures e == ClickScan ==> t == if ScanEnabled(s) then HandleScan(s) else s
    ensures e == ScanTimerFires && s.scanTimers > 0 ==>
              t == s.(scanning := false, success := true, scanTimers := s.scanTimers - 1,
                      unlockTimers := s.unlockTimers + 1)
    ensures e == UnlockTimerFires && s.unlockTimers > 0 ==>
              t == s.(unlockTimers := s.unlockTimers - 1, unlockCalls := s.unlockCalls + 1)
    ensures (e == ScanTimerFires && s.scanTimers == 0) || (e == UnlockTimerFires && s.unlockTimers == 0) ==>
              t == s
    ensures Inv(s) && t.unlockCalls != s.unlockCalls ==>
              e == UnlockTimerFires && s.success && t.unlockCalls == s.unlockCalls + 1
  {
    match e
    case ClickScan => if ScanEnabled(s) then HandleScan(s) else s
    case ScanTimerFires =>
      if s.scanTimers == 0 then s
      else s.(scanning := false, success := true, scanTimers := s.scanTimers - 1,
              unlockTimers := s.unlockTimers + 1)
    case UnlockTimerFires =>
      if s.unlockTimers == 0 then s
      else s.(unlockTimers := s.unlockTimers - 1, unlockCalls := s.unlockCalls + 1)
  }

  function Run(s: ScanState, es: seq<ScanEvent>): ScanState
    decreases |es|
  {
    if es == [] then s else Run(Step(s, es[0]), es[1..])
  }

  /**
   * One click and the two timers unlock the screen: onUnlock is called
   * exactly once, with the scan over and successful.
   */
  lemma ScanUnlocks()
    ensures Step(Step(Step(Initial, ClickScan), ScanTimerFires), UnlockTimerFires)
         == ScanState(false, true, 0, 0, 1)
  {
    var s1, s2 := ScanState(true, false, 1, 0, 0), ScanState(false, true, 0, 1, 0);
    assert Step(Initial, ClickScan) == s1 by {}
    assert Step(s1, ScanTimerFires) == s2 by {}
    assert Step(s2, UnlockTimerFires) == ScanState(false, true, 0, 0, 1) by {}
  }

  /**
   * After any sequence of events from the start: the flags are never both
   * set, at most one scan is ever under way, and onUnlock has been called at
   * most once, and only once a scan has succeeded.
   */
  lemma {:induction false} RunKeepsInv(s: ScanState, es: seq<ScanEvent>)
    requires Inv(s)
    ensures Inv(Run(s, es))
    ensures Run(s, es).unlockCalls <= 1
    ensures Run(s, es).unlockCalls > 0 ==> Run(s, es).success
    decreases |es|
  {
    if es != [] {
      RunKeepsInv(Step(s, es[0]), es[1..]);
    }
  }

  /** The status line under the title. */
  function StatusText(s: ScanState): string
  {
    if s.scanning then "Autenticando Identidad..."
    else if s.success then "Acceso Concedido"
    else "Reconocimiento Facial Requerido"
  }

  /** In a reachable state each status text shows exactly when its flag says so. */
  lemma StatusTextFollowsFlags(s: ScanState)
    requires Inv(s)
    ensures StatusText(s) == "Autenticando Identidad..." <==> s.scanning
    ensures StatusText(s) == "Acceso Concedido" <==> s.success
    ensures StatusText(s) == "Reconocimiento Facial Requerido" <==> !s.scanning && !s.success
  {
  }

  /** The component's state; each handler is one event of Step. */
  class BiometricSecurity {
    var scanning: bool
    var success: bool
    var scanTimers: nat
    var unlockTimers: nat
    var unlockCalls: nat

    function State(): ScanState
      reads this
    {
      ScanState(scanning, success, scanTimers, unlockTimers, unlockCalls)
    }

    ghost predicate Valid()
      reads this
    {
      Inv(State())
    }

    constructor ()
      ensures State() == Initial && Valid()
    {
      scanning, success := false, false;
      scanTimers, unlockTimers, unlockCalls := 0, 0, 0;
    }

    /** A click on the scan button; a disabled button ignores it. */
    method ClickScan()
      requires Valid()
      modifies this
      ensures Valid()
      ensures State() == Step(old(State()), ScanEvent.ClickScan)
    {
      if !(scanning || success) {
        scanning := true;
        scanTimers := scanTimers + 1;
      }
    }

    /** The scan timer fires: scanning ends in success and onUnlock is scheduled. */
    method ScanTimerFires()
      requires Valid()
      modifies this
      ensures Valid()
      ensures State() == Step(old(State()), ScanEvent.ScanTimerFires)
    {
      if scanTimers > 0 {
        scanTimers := scanTimers - 1;
        scanning := false;
        success := true;
        unlockTimers := unlockTimers + 1;
      }
    }

    /** The unlock timer fires and calls onUnlock. */
    method UnlockTimerFires()
      requires Valid()
      modifies this
      ensures Valid()
      ensures State() == Step(old(State()), ScanEvent.UnlockTimerFires)
    {
      if unlockTimers > 0 {
        unlockTimers := unlockTimers - 1;
        unlockCalls := unlockCalls + 1;
      }
    }
  }
}
