/**
 * The activity classifier of `detectSessionState`: a three-state machine over the
 * ANSI-stripped text of each output chunk. Rules are tried in order and the first that
 * applies decides the new state, the update of the per-session `waitingWithBottomBorder`
 * flag and what happens to the pending busy-to-idle timer.
 */
module Classifier {
  import opened Text
  import opened Patterns

  datatype SessionState = Idle | Busy | WaitingInput

  /** The confirmation-prompt substrings, as written (including the bare "YES" and "NO"). */
  const WaitingPrompts: seq<string> := [
    "\U{2502} Do you want", "\U{2502} Would you like", "Do you want", "Would you like",
    "Continue?", "Proceed?", "(y/n)", "(Y/n)", "[y/N]", "YES", "NO", "[Y/n]",
    "1. Yes", "2. No"
  ]

  /** The four box-drawing bottom borders: └─+┘, ╰─+╯, ┗━+┛ and ╚═+╝. */
  const BottomBorders: seq<Pattern> := [
    BoxBottom('\U{2514}', '\U{2500}', '\U{2518}'),
    BoxBottom('\U{2570}', '\U{2500}', '\U{256F}'),
    BoxBottom('\U{2517}', '\U{2501}', '\U{251B}'),
    BoxBottom('\U{255A}', '\U{2550}', '\U{255D}')
  ]

  const InterruptHint: string := "esc to interrupt"

  /** `includesPromptBoxBottomBorder`: one of the border patterns matches somewhere. */
  predicate IncludesPromptBoxBottomBorder(s: string) {
    exists k | 0 <= k < |BottomBorders| :: FoundFrom(BottomBorders[k], s, 0)
  }

  /** The border test holds exactly when a corner, one or more fill glyphs and the closing corner of one style stand in a row. */
  lemma BottomBorderIff(s: string)
    ensures IncludesPromptBoxBottomBorder(s) <==>
      exists k, i: nat, j: nat | 0 <= k < |BottomBorders| ::
        BoxBottomAt(s, BottomBorders[k].left, BottomBorders[k].fill, BottomBorders[k].right, i, j)
  {
    forall k | 0 <= k < |BottomBorders| {
      BoxBottomFound(s, BottomBorders[k].left, BottomBorders[k].fill, BottomBorders[k].right);
    }
  }

  /** What the classifier detects in one stripped chunk. */
  datatype Signals = Signals(waitingPrompt: bool, bottomBorder: bool, escToInterrupt: bool)

  function SignalsOf(clean: string): Signals {
    Signals(
      ContainsAny(clean, WaitingPrompts),
      IncludesPromptBoxBottomBorder(clean),
      Contains(ToLower(clean), InterruptHint))
  }

  datatype FlagUpdate = KeepFlag | SetFlag(value: bool)

  /** CancelTimer deletes a pending timer; ArmTimer starts one unless one is already pending. */
  datatype TimerAction = KeepTimer | CancelTimer | ArmTimer

  datatype Verdict = Verdict(state: SessionState, flag: FlagUpdate, timer: TimerAction)

  /** The ordered rules of `detectSessionState`; `flagged` is `waitingWithBottomBorder.get(id) || false`. */
  function Transition(sig: Signals, current: SessionState, flagged: bool): Verdict {
    if sig.waitingPrompt then
      Verdict(WaitingInput, SetFlag(sig.bottomBorder), CancelTimer)
    else if current == WaitingInput && sig.bottomBorder && !sig.waitingPrompt && !flagged then
      Verdict(WaitingInput, SetFlag(true), CancelTimer)
    else if sig.escToInterrupt then
      Verdict(Busy, SetFlag(false), CancelTimer)
    else if current == Busy && !sig.escToInterrupt then
      Verdict(Busy, KeepFlag, ArmTimer)
    else
      Verdict(current, KeepFlag, KeepTimer)
  }

  function Classify(clean: string, current: SessionState, flagged: bool): Verdict {
    Transition(SignalsOf(clean), current, flagged)
  }

  // ---- Properties of the rules ----

  /** A waiting prompt wins over every other signal, whatever the prior state. */
  lemma WaitingPromptWins(sig: Signals, current: SessionState, flagged: bool)
    requires sig.waitingPrompt
    ensures Transition(sig, current, flagged) == Verdict(WaitingInput, SetFlag(sig.bottomBorder), CancelTimer)
  {
  }

  /** A redraw of the prompt box's bottom border keeps the session waiting, once. */
  lemma BorderRedraw(sig: Signals, flagged: bool)
    requires !sig.waitingPrompt && sig.bottomBorder && !sig.escToInterrupt
    ensures !flagged ==> Transition(sig, WaitingInput, flagged) == Verdict(WaitingInput, SetFlag(true), CancelTimer)
    ensures flagged ==> Transition(sig, WaitingInput, flagged) == Verdict(WaitingInput, KeepFlag, KeepTimer)
  {
  }

  /** The interrupt hint means busy, clears the flag and cancels the idle timer. */
  lemma InterruptHintMeansBusy(sig: Signals, current: SessionState, flagged: bool)
    requires !sig.waitingPrompt && sig.escToInterrupt
    requires !(current == WaitingInput && sig.bottomBorder && !flagged)
    ensures Transition(sig, current, flagged) == Verdict(Busy, SetFlag(false), CancelTimer)
  {
  }

  /** A busy session seeing no marker stays busy and asks for the idle timer. */
  lemma QuietBusyArmsTimer(sig: Signals, flagged: bool)
    requires !sig.waitingPrompt && !sig.escToInterrupt
    ensures Transition(sig, Busy, flagged) == Verdict(Busy, KeepFlag, ArmTimer)
  {
  }

  /** The new state, rule by rule folded into one statement per state. */
  lemma TransitionStates(sig: Signals, current: SessionState, flagged: bool)
    ensures var v := Transition(sig, current, flagged);
      && (v.state == Idle <==> current == Idle && !sig.waitingPrompt && !sig.escToInterrupt)
      && (v.state == WaitingInput <==>
            (sig.waitingPrompt || (current == WaitingInput && !sig.escToInterrupt) ||
             (current == WaitingInput && sig.bottomBorder && !flagged)))
      && (v.state == Busy <==>
            (!sig.waitingPrompt &&
             (current == Busy || (sig.escToInterrupt && !(current == WaitingInput && sig.bottomBorder && !flagged)))))
  {
  }

  /** Only a rule that leaves the session busy touches the idle timer without cancelling it. */
  lemma TimerActions(sig: Signals, current: SessionState, flagged: bool)
    ensures var v := Transition(sig, current, flagged);
      && (v.timer == ArmTimer ==> v.state == Busy && current == Busy)
      && (v.timer == KeepTimer ==> v.state == current && v.flag == KeepFlag && current != Busy)
      && (v.state != current ==> v.timer == CancelTimer)
  {
  }

  // ---- Properties of the text tests ----

  /** A chunk with any confirmation-prompt substring is classified waiting for input. */
  lemma PromptTextMeansWaiting(clean: string, k: nat, current: SessionState, flagged: bool)
    requires k < |WaitingPrompts| && Contains(clean, WaitingPrompts[k])
    ensures Classify(clean, current, flagged) == Verdict(WaitingInput, SetFlag(IncludesPromptBoxBottomBorder(clean)), CancelTimer)
  {
  }

  /** The interrupt hint is found in whatever ASCII case it is written. */
  lemma {:induction false} InterruptHintAnyCase(clean: string, hint: string)
    requires ToLower(hint) == InterruptHint && Contains(clean, hint)
    ensures SignalsOf(clean).escToInterrupt
  {
    ContainsIffOccurs(clean, hint);
    var i: nat :| OccursAt(clean, hint, i);
    var lower := ToLower(clean);
    assert lower[i..i + |hint|] == ToLower(clean[i..i + |hint|]);
    assert OccursAt(lower, InterruptHint, i);
    ContainsIffOccurs(lower, InterruptHint);
  }
}
