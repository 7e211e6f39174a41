/**
 * The bank-linking wizard of components/PlaidConnection.tsx: the `step` and
 * `loading` fields, changed by the buttons of the three step views and by
 * the timers that `simulateProgress` and `finalize` start. Each click and
 * each timer firing is one event. The pending timers are part of the state,
 * as counters, and the calls to the onSuccess and onCancel callbacks are
 * recorded in it.
 */
module Plaid {

  datatype WizardState = WizardState(
    step: int,
    loading: bool,
    progressTimers: nat,         // simulateProgress timers that have not fired
    finalizeTimers: nat,         // finalize timers that have not fired
    successTokens: seq<string>,  // the tokens passed to onSuccess, in call order
    cancelCalls: nat)            // how often onCancel has been called

  const Initial: WizardState := WizardState(1, false, 0, 0, [], 0)

  /** The prefix of every public token handed to onSuccess. */
  const TokenPrefix: string := "public-sandbox-"

  /**
   * The events: the step-1 "Continuar" button, any of the step-2 bank
   * buttons, the step-3 "FINALIZAR" button, the close button, and the two
   * timers. A finalize timer carries the random part of its token.
   */
  datatype WizardEvent =
    | ClickContinue
    | ClickBank
    | ClickFinalize
    | ClickCancel
    | ProgressTimerFires
    | FinalizeTimerFires(randomPart: string)

  /** The step view rendered under the header; no view exists for another step. */
  datatype StepView = IntroView | BankView | ConfirmView | NoView

  function View(step: int): StepView
  {
    if step == 1 then IntroView
    else if step == 2 then BankView
    else if step == 3 then ConfirmView
    else NoView
  }

  /** "Continuar" is on the step-1 view and disabled while loading. */
  predicate ContinueEnabled(s: WizardState)
  {
    View(s.step) == IntroView && !s.loading
  }

  /** The bank buttons are on the step-2 view and have no loading guard. */
  predicate BankEnabled(s: WizardState)
  {
    View(s.step) == BankView
  }

  /** "FINALIZAR" is on the step-3 view and disabled while loading. */
  predicate FinalizeEnabled(s: WizardState)
  {
    View(s.step) == ConfirmView && !s.loading
  }

  /** simulateProgress: sets `loading` and starts a progress timer. */
  function StartProgress(s: WizardState): (t: WizardState)
    ensures t.loading && t.progressTimers > 0
    ensures t.step == s.step && t.finalizeTimers == s.finalizeTimers && t.successTokens == s.successTokens
    ensures Inv(s) && (ContinueEnabled(s) || BankEnabled(s)) ==> Inv(t)
  {
    s.(loading := true, progressTimers := s.progressTimers + 1)
  }

  /** finalize: sets `loading` and starts a finalize timer. */
  function StartFinalize(s: WizardState): (t: WizardState)
    ensures t.loading && t.finalizeTimers > 0
    ensures t.step == s.step && t.progressTimers == s.progressTimers && t.successTokens == s.successTokens
    ensures Inv(s) && FinalizeEnabled(s) ==> Inv(t)
  {
    s.(loading := true, finalizeTimers := s.finalizeTimers + 1)
  }

  /** One event. A timer event with no timer of that kind pending cannot occur and changes nothing. */
  function Step(s: WizardState, e: WizardEvent): (t: WizardState)
    ensures e == ClickCancel ==> t == s.(cancelCalls := s.cancelCalls + 1)
    ensures ((e == ClickContinue && !ContinueEnabled(s)) || (e == ClickBank && !BankEnabled(s))
             || (e == ClickFinalize && !FinalizeEnabled(s))) ==> t == s
    ensures ((e == ProgressTimerFires && s.progressTimers == 0)
             || (e.FinalizeTimerFires? && s.finalizeTimers == 0)) ==> t == s
    ensures s.loading && (e == ClickContinue || e == ClickFinalize) ==> t == s
    ensures t.step != s.step ==>
              e == ProgressTimerFires && t.step == s.step + 1 && !t.loading
    ensures t.finalizeTimers > s.finalizeTimers ==>
              e == ClickFinalize && View(s.step) == ConfirmView && t.loading
    ensures t.successTokens != s.successTokens ==>
              e.FinalizeTimerFires? && t.successTokens == s.successTokens + [TokenPrefix + e.randomPart]
              && t.step == s.step && !t.loading
    ensures (e == ClickContinue && ContinueEnabled(s)) || (e == ClickBank && BankEnabled(s)) ==>
              t == s.(loading := true, progressTimers := s.progressTimers + 1)
    ensures e == ClickFinalize && FinalizeEnabled(s) ==>
              t == s.(loading := true, finalizeTimers := s.finalizeTimers + 1)
    ensures e == ProgressTimerFires && s.progressTimers > 0 ==>
              t == s.(loading := false, step := s.step + 1, progressTimers := s.progressTimers - 1)
    ensures e.FinalizeTimerFires? && s.finalizeTimers > 0 ==>
              t == s.(loading := false, finalizeTimers := s.finalizeTimers - 1,
                      successTokens := s.successTokens + [TokenPrefix + e.randomPart])
  {
    match e
    case ClickContinue => if ContinueEnabled(s) then StartProgress(s) else s
    case ClickBank => if BankEnabled(s) then StartProgress(s) else s
    case ClickFinalize => if FinalizeEnabled(s) then StartFinalize(s) else s
    case ClickCancel => s.(cancelCalls := s.cancelCalls + 1)
    case ProgressTimerFires =>
      if s.progressTimers == 0 then s
      else s.(loading := false, step := s.step + 1, progressTimers := s.progressTimers - 1)
    case FinalizeTimerFires(randomPart) =>
      if s.finalizeTimers == 0 then s
      else s.(loading := false, finalizeTimers := s.finalizeTimers - 1,
              successTokens := s.successTokens + [TokenPrefix + randomPart])
  }

  function Run(s: WizardState, es: seq<WizardEvent>): WizardState
    decreases |es|
  {
    if es == [] then s else Run(Step(s, es[0]), es[1..])
  }

  /** What every reachable state satisfies. */
  predicate Inv(s: WizardState)
  {
    && s.step >= 1
    && (s.loading ==> s.progressTimers + s.finalizeTimers > 0)
    && (s.step == 1 ==> s.finalizeTimers == 0 && s.progressTimers <= 1
                        && (s.loading <==> s.progressTimers == 1))
    && (s.finalizeTimers > 0 || |s.successTokens| > 0 ==> s.step >= 3)
    && (forall i :: 0 <= i < |s.successTokens| ==> TokenPrefix <= s.successTokens[i])
  }

  lemma StepKeepsInv(s: WizardState, e: WizardEvent)
    requires Inv(s)
    ensures Inv(Step(s, e))
  {
    var t := Step(s, e);
    if e.FinalizeTimerFires? && s.finalizeTimers > 0 {
      assert t.successTokens == s.successTokens + [TokenPrefix + e.randomPart];
      assert TokenPrefix <= TokenPrefix + e.randomPart;
    }
  }

  /**
   * After any sequence of events from the start: `step` never drops below 1,
   * loading is set only while a timer is pending, at step 1 at most one
   * advance is ever pending, onSuccess has been reached only from step 3
   * onwards, and every token it received starts with "public-sandbox-".
   */
  lemma {:induction false} RunKeepsInv(s: WizardState, es: seq<WizardEvent>)
    requires Inv(s)
    ensures Inv(Run(s, es))
    decreases |es|
  {
    if es != [] {
      StepKeepsInv(s, es[0]);
      RunKeepsInv(Step(s, es[0]), es[1..]);
    }
  }

  /**
   * The bank buttons are not guarded: two clicks before the first timer fires
   * start two progress timers, and the second pushes `step` to 4, where no
   * step view is rendered.
   */
  lemma BankDoubleClickOvershoots()
    ensures var t := Run(Initial, [ClickContinue, ProgressTimerFires, ClickBank, ClickBank,
                                   ProgressTimerFires, ProgressTimerFires]);
      t.step == 4 && View(t.step) == NoView && !t.loading
  {
    var es := [ClickContinue, ProgressTimerFires, ClickBank, ClickBank,
               ProgressTimerFires, ProgressTimerFires];
    var s1 := Step(Initial, ClickContinue);
    var s2 := Step(s1, ProgressTimerFires);
    var s3 := Step(s2, ClickBank);
    var s4 := Step(s3, ClickBank);
    var s5 := Step(s4, ProgressTimerFires);
    var s6 := Step(s5, ProgressTimerFires);
    assert s6.step == 4 && !s6.loading;
    assert Run(s6, es[6..]) == s6;
    assert Run(s5, es[5..]) == s6;
    assert Run(s4, es[4..]) == s6;
    assert Run(s3, es[3..]) == s6;
    assert Run(s2, es[2..]) == s6;
    assert Run(s1, es[1..]) == s6;
  }

  /** The progress bar's width in percent: the step as a fraction of three, times 100. */
  function ProgressWidth(step: int): real
  {
    (step as real / 3.0) * 100.0
  }

  /** The bar is full exactly at step 3, and short of full before it. */
  lemma ProgressFullAtStepThree(step: int)
    ensures ProgressWidth(step) == 100.0 <==> step == 3
    ensures step < 3 ==> ProgressWidth(step) < 100.0
  {
  }

  /** The component's state; each handler is one event of Step. */
  class PlaidConnection {
    var step: int
    var loading: bool
    var progressTimers: nat
    var finalizeTimers: nat
    var successTokens: seq<string>
    var cancelCalls: nat

    function State(): WizardState
      reads this
    {
      WizardState(step, loading, progressTimers, finalizeTimers, successTokens, cancelCalls)
    }

    ghost predicate Valid()
      reads this
    {
      Inv(State())
    }

    constructor ()
      ensures State() == Initial && Valid()
    {
      step, loading := 1, false;
      progressTimers, finalizeTimers := 0, 0;
      successTokens, cancelCalls := [], 0;
    }

    method SimulateProgress()
      modifies this
      ensures State() == StartProgress(old(State()))
    {
      loading := true;
      progressTimers := progressTimers + 1;
    }

    method Finalize()
      modifies this
      ensures State() == StartFinalize(old(State()))
    {
      loading := true;
      finalizeTimers := finalizeTimers + 1;
    }

    method ClickContinue()
      requires Valid()
      modifies this
      ensures Valid() && State() == Step(old(State()), WizardEvent.ClickContinue)
    {
      StepKeepsInv(State(), WizardEvent.ClickContinue);
      if step == 1 && !loading {
        SimulateProgress();
      }
    }

    method ClickBank()
      requires Valid()
      modifies this
      ensures Valid() && State() == Step(old(State()), WizardEvent.ClickBank)
    {
      StepKeepsInv(State(), WizardEvent.ClickBank);
      if step == 2 {
        SimulateProgress();
      }
    }

    method ClickFinalize()
      requires Valid()
      modifies this
      ensures Valid() && State() == Step(old(State()), WizardEvent.ClickFinalize)
    {
      StepKeepsInv(State(), WizardEvent.ClickFinalize);
      if step == 3 && !loading {
        Finalize();
      }
    }

    /** The close button only calls onCancel. */
    method ClickCancel()
      requires Valid()
      modifies this
      ensures Valid() && State() == Step(old(State()), WizardEvent.ClickCancel)
    {
      StepKeepsInv(State(), WizardEvent.ClickCancel);
      cancelCalls := cancelCalls + 1;
    }

    /** A progress timer fires: `loading` is cleared and `step` goes up by one. */
    method ProgressTimerFires()
      requires Valid()
      modifies this
      ensures Valid() && State() == Step(old(State()), WizardEvent.ProgressTimerFires)
    {
      StepKeepsInv(State(), WizardEvent.ProgressTimerFires);
      if progressTimers > 0 {
        progressTimers := progressTimers - 1;
        loading := false;
        step := step + 1;
      }
    }

    /** A finalize timer fires: `loading` is cleared and onSuccess receives a fresh public token. */
    method FinalizeTimerFires(randomPart: string)
      requires Valid()
      modifies this
      ensures Valid() && State() == Step(old(State()), WizardEvent.FinalizeTimerFires(randomPart))
    {
      StepKeepsInv(State(), WizardEvent.FinalizeTimerFires(randomPart));
      if finalizeTimers > 0 {
        finalizeTimers := finalizeTimers - 1;
        loading := false;
        successTokens := successTokens + [TokenPrefix + randomPart];
      }
    }
  }
}
