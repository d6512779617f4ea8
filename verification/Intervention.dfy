/**
 * The proactive-hint rule of app/services/intervention.py: a hint is offered
 * when mastery is below a threshold, or the learner has made too many
 * consecutive errors on the skill, or (when known) the answer took too long.
 * The three thresholds come from configuration and are parameters here.
 */
module Intervention {
  import opened Options

  datatype Thresholds = Thresholds(masteryThreshold: real, maxConsecutiveErrors: int, timeLimitMs: int)

  /** The rule that fired, in the order the checks are made. */
  datatype Reason = LowMastery | TooManyErrors | TooSlow

  /** The first rule that fires, or `None` when no intervention is needed. */
  function Trigger(t: Thresholds, timeTakenMs: Option<int>, mastery: real, consecutiveErrors: int): (r: Option<Reason>)
    ensures r == Some(LowMastery) <==> mastery < t.masteryThreshold
    ensures r == Some(TooManyErrors) <==>
              mastery >= t.masteryThreshold && consecutiveErrors >= t.maxConsecutiveErrors
    ensures r == Some(TooSlow) <==>
              mastery >= t.masteryThreshold && consecutiveErrors < t.maxConsecutiveErrors &&
              timeTakenMs.Some? && timeTakenMs.value > t.timeLimitMs
  {
    if mastery < t.masteryThreshold then Some(LowMastery)
    else if consecutiveErrors >= t.maxConsecutiveErrors then Some(TooManyErrors)
    else if timeTakenMs.Some? && timeTakenMs.value > t.timeLimitMs then Some(TooSlow)
    else None
  }

  /** `check_intervention`: whether any rule fires. */
  function CheckIntervention(t: Thresholds, timeTakenMs: Option<int>, mastery: real, consecutiveErrors: int): (r: bool)
    ensures r <==> Trigger(t, timeTakenMs, mastery, consecutiveErrors).Some?
  {
    if mastery < t.masteryThreshold then true
    else if consecutiveErrors >= t.maxConsecutiveErrors then true
    else if timeTakenMs.Some? && timeTakenMs.value > t.timeLimitMs then true
    else false
  }

  /** The decision does not depend on the order of the checks: it is the disjunction of the three rules. */
  lemma InterventionIsDisjunction(t: Thresholds, timeTakenMs: Option<int>, mastery: real, consecutiveErrors: int)
    ensures CheckIntervention(t, timeTakenMs, mastery, consecutiveErrors) <==>
              (mastery < t.masteryThreshold
               || consecutiveErrors >= t.maxConsecutiveErrors
               || (timeTakenMs.Some? && timeTakenMs.value > t.timeLimitMs))
  {
  }

  /** An unknown time never triggers on its own, and a time exactly at the limit does not count as slow. */
  lemma TimeRuleIsStrict(t: Thresholds, mastery: real, consecutiveErrors: int)
    ensures CheckIntervention(t, None, mastery, consecutiveErrors)
            == CheckIntervention(t, Some(t.timeLimitMs), mastery, consecutiveErrors)
    ensures CheckIntervention(t, None, mastery, consecutiveErrors)
            == (mastery < t.masteryThreshold || consecutiveErrors >= t.maxConsecutiveErrors)
  {
  }

  /** Worse evidence never withdraws an intervention: lower mastery, more errors, or a longer time. */
  lemma InterventionIsMonotone(t: Thresholds, time1: Option<int>, m1: real, e1: int,
                               time2: Option<int>, m2: real, e2: int)
    requires m2 <= m1 && e2 >= e1
    requires time1.Some? ==> time2.Some? && time2.value >= time1.value
    requires CheckIntervention(t, time1, m1, e1)
    ensures CheckIntervention(t, time2, m2, e2)
  {
  }
}
