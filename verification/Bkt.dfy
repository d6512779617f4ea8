/**
 * Bayesian Knowledge Tracing as app/services/bkt.py computes it: a two-state
 * (known / not known) posterior given the correctness of one answer, with guess
 * and slip probabilities, followed by the learning transition, each clamped into
 * [0, 1]. The parameters come from configuration and are plain values here.
 */
module Bkt {
  import SM = StateManager

  /** `p_l0` (prior mastery), `p_t` (learning), `p_g` (guess), `p_s` (slip). */
  datatype Params = Params(pL0: real, pT: real, pG: real, pS: real)

  predicate IsProbability(x: real)
  {
    0.0 <= x <= 1.0
  }

  predicate ValidParams(p: Params)
  {
    IsProbability(p.pL0) && IsProbability(p.pT) && IsProbability(p.pG) && IsProbability(p.pS)
  }

  /** A learner who knows the skill is at least as likely to answer correctly as one who guesses. */
  predicate Informative(p: Params)
  {
    Complement(p.pS) >= p.pG
  }

  /** `1.0 - x`: the probability of the complementary event. */
  function Complement(x: real): real
  {
    1.0 - x
  }

  /** `max(0.0, min(1.0, x))`. */
  function Clamp(x: real): (r: real)
    ensures IsProbability(r)
    ensures IsProbability(x) ==> r == x
    ensures x < 0.0 ==> r == 0.0
    ensures x > 1.0 ==> r == 1.0
  {
    if x < 0.0 then 0.0 else if x > 1.0 then 1.0 else x
  }

  /** P(evidence | known): `1 - p_s` for a correct answer, `p_s` for an incorrect one. */
  function LikelihoodKnown(p: Params, correct: bool): real
  {
    if correct then Complement(p.pS) else p.pS
  }

  /** P(evidence | not known): `p_g` for a correct answer, `1 - p_g` for an incorrect one. */
  function LikelihoodUnknown(p: Params, correct: bool): real
  {
    if correct then p.pG else Complement(p.pG)
  }

  /** P(evidence) by the law of total probability, from the two likelihoods and the prior. */
  function TotalEvidence(lk: real, lu: real, prior: real): real
  {
    lk * prior + lu * Complement(prior)
  }

  /**
   * The step both branches of `_calculate_posterior` take once the likelihoods
   * of the observed answer are known: the prior itself when the evidence has
   * probability 0, otherwise Bayes' rule clamped into [0, 1].
   */
  function BayesStep(lk: real, lu: real, prior: real): (r: real)
    ensures TotalEvidence(lk, lu, prior) == 0.0 ==> r == prior
    ensures TotalEvidence(lk, lu, prior) != 0.0 ==> IsProbability(r)
  {
    var probEvidence := lk * prior + lu * Complement(prior);
    if probEvidence == 0.0 then prior
    else Clamp(lk * prior / probEvidence)
  }

  /** `_calculate_posterior`: the correct branch uses `(1 - p_s, p_g)`, the incorrect one `(p_s, 1 - p_g)`. */
  function Posterior(p: Params, prior: real, correct: bool): (r: real)
    ensures r == BayesStep(LikelihoodKnown(p, correct), LikelihoodUnknown(p, correct), prior)
    ensures Evidence(p, prior, correct) == 0.0 ==> r == prior
    ensures Evidence(p, prior, correct) != 0.0 ==> IsProbability(r)
    ensures IsProbability(prior) ==> IsProbability(r)
  {
    if correct then BayesStep(Complement(p.pS), p.pG, prior)
    else BayesStep(p.pS, Complement(p.pG), prior)
  }

  /** P(evidence) for the parameters and the observed answer. */
  function Evidence(p: Params, prior: real, correct: bool): real
  {
    TotalEvidence(LikelihoodKnown(p, correct), LikelihoodUnknown(p, correct), prior)
  }

  // Real-arithmetic facts the proofs below use. Each takes plain variables so
  // that the solver sees every product as a product of two unknowns.

  lemma MulNonneg(a: real, b: real)
    requires 0.0 <= a && 0.0 <= b
    ensures 0.0 <= a * b
  {
  }

  lemma MulAtMost(a: real, x: real)
    requires IsProbability(a) && 0.0 <= x
    ensures a * x <= x
  {
  }

  lemma RatioAtLeast(a: real, e: real, q: real)
    requires e > 0.0 && a >= q * e
    ensures a / e >= q
  {
  }

  lemma RatioAtMost(a: real, e: real, q: real)
    requires e > 0.0 && a <= q * e
    ensures a / e <= q
  {
  }

  lemma RatioIsProbability(a: real, e: real)
    requires e > 0.0 && 0.0 <= a <= e
    ensures IsProbability(a / e)
  {
  }

  /** The evidence is a probability, and at least its "known" part. */
  lemma EvidenceBounds(lk: real, lu: real, w: real)
    requires IsProbability(lk) && IsProbability(lu) && IsProbability(w)
    ensures 0.0 <= lk * w <= TotalEvidence(lk, lu, w) <= 1.0
  {
    var rest := Complement(w);
    ScaledPart(lk, w);
    ScaledPart(lu, rest);
    PartsWithinWhole(lk * w, lu * rest, w);
  }

  /** A probability times a non-negative amount lies between 0 and that amount. */
  lemma ScaledPart(l: real, x: real)
    requires IsProbability(l) && 0.0 <= x
    ensures 0.0 <= l * x <= x
  {
    MulNonneg(l, x);
    MulAtMost(l, x);
  }

  /** Two parts bounded by `w` and `1 - w` add up to at most 1. */
  lemma PartsWithinWhole(known: real, unknown: real, w: real)
    requires 0.0 <= known <= w && 0.0 <= unknown <= Complement(w)
    ensures 0.0 <= known <= known + unknown <= 1.0
  {
  }

  /** The known part of the evidence exceeds `w` times the evidence by `w (1 - w) (lk - lu)`. */
  lemma KnownShareVersusPrior(lk: real, lu: real, w: real)
    requires IsProbability(w)
    ensures lk * w - w * TotalEvidence(lk, lu, w) == w * Complement(w) * (lk - lu)
    ensures w * Complement(w) >= 0.0
  {
    MulNonneg(w, Complement(w));
  }

  /** When the evidence is possible the clamp never bites: the step is exactly Bayes' rule. */
  lemma BayesStepIsRatio(lk: real, lu: real, w: real)
    requires IsProbability(lk) && IsProbability(lu) && IsProbability(w)
    requires TotalEvidence(lk, lu, w) != 0.0
    ensures BayesStep(lk, lu, w) == lk * w / TotalEvidence(lk, lu, w)
  {
    EvidenceBounds(lk, lu, w);
    RatioIsProbability(lk * w, TotalEvidence(lk, lu, w));
  }

  /** Evidence more likely when the skill is known raises the estimate; less likely lowers it. */
  lemma BayesStepDirection(lk: real, lu: real, w: real)
    requires IsProbability(lk) && IsProbability(lu) && IsProbability(w)
    ensures lk >= lu ==> BayesStep(lk, lu, w) >= w
    ensures lk <= lu ==> BayesStep(lk, lu, w) <= w
  {
    var e := TotalEvidence(lk, lu, w);
    if e != 0.0 {
      EvidenceBounds(lk, lu, w);
      KnownShareVersusPrior(lk, lu, w);
      var c := w * Complement(w);
      if lk >= lu {
        MulNonneg(c, lk - lu);
        RatioAtLeast(lk * w, e, w);
      } else {
        MulNonneg(c, lu - lk);
        assert c * (lu - lk) == -(c * (lk - lu));
        RatioAtMost(lk * w, e, w);
      }
    }
  }

  /** With valid parameters both likelihoods are probabilities. */
  lemma LikelihoodsAreProbabilities(p: Params, correct: bool)
    requires ValidParams(p)
    ensures IsProbability(LikelihoodKnown(p, correct)) && IsProbability(LikelihoodUnknown(p, correct))
  {
  }

  /**
   * The posterior is Bayes' rule: whenever the observed answer is possible, it
   * is P(answer | known) times the prior over P(answer), without clamping.
   */
  lemma PosteriorIsBayes(p: Params, prior: real, correct: bool)
    requires ValidParams(p) && IsProbability(prior)
    requires Evidence(p, prior, correct) != 0.0
    ensures Posterior(p, prior, correct) == LikelihoodKnown(p, correct) * prior / Evidence(p, prior, correct)
  {
    BayesStepIsRatio(LikelihoodKnown(p, correct), LikelihoodUnknown(p, correct), prior);
  }

  /**
   * When knowing the skill makes a correct answer at least as likely as
   * guessing, a correct answer never lowers the estimate and an incorrect one
   * never raises it.
   */
  lemma PosteriorDirection(p: Params, prior: real)
    requires ValidParams(p) && IsProbability(prior) && Informative(p)
    ensures Posterior(p, prior, true) >= prior
    ensures Posterior(p, prior, false) <= prior
  {
    BayesStepDirection(Complement(p.pS), p.pG, prior);
    BayesStepDirection(p.pS, Complement(p.pG), prior);
  }

  /** With valid inputs the posterior is a probability, whether or not the evidence is possible. */
  lemma PosteriorIsProbability(p: Params, prior: real, correct: bool)
    requires IsProbability(prior)
    ensures IsProbability(Posterior(p, prior, correct))
  {
  }

  /** The learning step moves a probability towards 1 and never past it. */
  lemma TransitionStaysBetween(post: real, t: real)
    requires IsProbability(post) && IsProbability(t)
    ensures post <= post + Complement(post) * t <= 1.0
  {
    MulNonneg(Complement(post), t);
    MulAtMost(t, Complement(post));
    assert t * Complement(post) == Complement(post) * t;
  }

  /** The learning transition `posterior + (1 - posterior) * p_t`, clamped. */
  function Learn(post: real, t: real): (r: real)
    ensures IsProbability(r)
  {
    Clamp(post + Complement(post) * t)
  }

  /** For probabilities the clamp after the learning step changes nothing, and learning never lowers the estimate. */
  lemma LearnIsUnclamped(post: real, t: real)
    requires IsProbability(post) && IsProbability(t)
    ensures Learn(post, t) == post + Complement(post) * t
    ensures post <= Learn(post, t)
  {
    TransitionStaysBetween(post, t);
  }

  /** The value `update_mastery` stores: the posterior followed by the learning transition. */
  function NextMastery(p: Params, prior: real, correct: bool): (r: real)
    ensures IsProbability(r)
  {
    Learn(Posterior(p, prior, correct), p.pT)
  }

  /** With valid inputs the clamp after the transition never bites and learning never lowers the posterior. */
  lemma NextMasteryAtLeastPosterior(p: Params, prior: real, correct: bool)
    requires ValidParams(p) && IsProbability(prior)
    ensures NextMastery(p, prior, correct) >= Posterior(p, prior, correct)
    ensures NextMastery(p, prior, correct)
            == Posterior(p, prior, correct) + Complement(Posterior(p, prior, correct)) * p.pT
  {
    PosteriorIsProbability(p, prior, correct);
    LearnIsUnclamped(Posterior(p, prior, correct), p.pT);
  }

  /** With an informative model a correct answer never lowers mastery, transition included. */
  lemma CorrectAnswerNeverLowersMastery(p: Params, prior: real)
    requires ValidParams(p) && IsProbability(prior) && Informative(p)
    ensures NextMastery(p, prior, true) >= prior
  {
    PosteriorDirection(p, prior);
    NextMasteryAtLeastPosterior(p, prior, true);
  }

  /** Full mastery is absorbing: once 1, any answer that can happen when the skill is known keeps it at 1. */
  lemma FullMasteryIsAbsorbing(p: Params, correct: bool)
    requires ValidParams(p) && LikelihoodKnown(p, correct) != 0.0
    ensures NextMastery(p, 1.0, correct) == 1.0
  {
    var lk := LikelihoodKnown(p, correct);
    LikelihoodsAreProbabilities(p, correct);
    assert Evidence(p, 1.0, correct) == lk;
    BayesStepIsRatio(lk, LikelihoodUnknown(p, correct), 1.0);
    assert Posterior(p, 1.0, correct) == lk / lk == 1.0;
  }

  /** The worked example for p_l0 = 0.2, p_t = 0.15, p_g = 0.2, p_s = 0.1: 0.2 becomes 0.6 after a correct answer. */
  lemma LearningGainExample()
    ensures NextMastery(Params(0.2, 0.15, 0.2, 0.1), 0.2, true) == 0.6
  {
    var p := Params(0.2, 0.15, 0.2, 0.1);
    assert TotalEvidence(0.9, 0.2, 0.2) == 0.34;
    assert Posterior(p, 0.2, true) == 0.18 / 0.34 == 9.0 / 17.0;
  }

  /** Every stored mastery is a probability. */
  predicate MasteriesAreProbabilities(s: SM.Store)
  {
    forall u, k :: u in s && k in s[u].bkt ==> IsProbability(s[u].bkt[k])
  }

  /**
   * `BKTService.update_mastery`: reads the prior (default `p_l0`), computes the
   * next mastery and writes exactly the `(user, skill)` entry.
   */
  function UpdateMastery(p: Params, s: SM.Store, user: string, skill: string, correct: bool): (r: SM.Store)
    ensures user in r && SM.OthersUnchanged(s, r, user)
    ensures r[user].bkt.Keys == SM.StateOf(s, user).bkt.Keys + {skill}
    ensures skill !in SM.StateOf(s, user).bkt ==> r[user].bkt[skill] == NextMastery(p, p.pL0, correct)
    ensures skill in SM.StateOf(s, user).bkt ==>
              r[user].bkt[skill] == NextMastery(p, SM.StateOf(s, user).bkt[skill], correct)
    ensures forall k :: k in SM.StateOf(s, user).bkt && k != skill ==>
              r[user].bkt[k] == SM.StateOf(s, user).bkt[k]
    ensures r[user].log == SM.StateOf(s, user).log
    ensures r[user].consecutiveErrors == SM.StateOf(s, user).consecutiveErrors
    ensures r[user] == SM.StateOf(s, user).(bkt := r[user].bkt)
  {
    var (s1, prior) := SM.GetBktMastery(s, user, skill, p.pL0);
    SM.UpdateBktMastery(s1, user, skill, NextMastery(p, prior, correct))
  }

  /**
   * Read back through `get_bkt_mastery`, an update moves the updated skill from
   * its reported prior to the next mastery and leaves every other skill as reported.
   */
  lemma UpdateThenRead(p: Params, s: SM.Store, user: string, skill: string, correct: bool, k: string)
    ensures SM.GetBktMastery(UpdateMastery(p, s, user, skill, correct), user, k, p.pL0).1
            == if k == skill then NextMastery(p, SM.GetBktMastery(s, user, skill, p.pL0).1, correct)
               else SM.GetBktMastery(s, user, k, p.pL0).1
  {
  }

  /** Updates keep every stored mastery within [0, 1]. */
  lemma UpdateKeepsMasteriesProbabilities(p: Params, s: SM.Store, user: string, skill: string, correct: bool)
    requires MasteriesAreProbabilities(s)
    ensures MasteriesAreProbabilities(UpdateMastery(p, s, user, skill, correct))
  {
    var r := UpdateMastery(p, s, user, skill, correct);
    forall u, k | u in r && k in r[u].bkt ensures IsProbability(r[u].bkt[k]) {
      if u != user {
        assert u in s && r[u] == s[u];
      } else if k != skill {
        assert k in SM.StateOf(s, user).bkt;
        assert user in s;
      }
    }
  }

  /** The prediction is the guess rate moved towards `1 - p_s` in proportion to `m`. */
  lemma PredictionBetween(m: real, slip: real, guess: real)
    requires IsProbability(m)
    ensures guess <= Complement(slip) ==>
              guess <= m * Complement(slip) + Complement(m) * guess <= Complement(slip)
    ensures Complement(slip) <= guess ==>
              Complement(slip) <= m * Complement(slip) + Complement(m) * guess <= guess
  {
    var d := Complement(slip) - guess;
    var md := m * d;
    assert m * Complement(slip) + Complement(m) * guess == guess + md;
    if d >= 0.0 {
      MulNonneg(m, d);
      MulAtMost(m, d);
    } else {
      var nd := -d;
      MulNonneg(m, nd);
      MulAtMost(m, nd);
      assert m * nd == -md;
    }
  }

  /** P(next answer correct | mastery `m`): `m * (1 - p_s) + (1 - m) * p_g`. */
  function Prediction(m: real, slip: real, guess: real): (r: real)
    ensures IsProbability(m) && guess <= Complement(slip) ==> guess <= r <= Complement(slip)
    ensures IsProbability(m) && Complement(slip) <= guess ==> Complement(slip) <= r <= guess
  {
    if IsProbability(m) then
      PredictionBetween(m, slip, guess);
      m * Complement(slip) + Complement(m) * guess
    else
      m * Complement(slip) + Complement(m) * guess
  }

  /** `predict_correct_probability`: the prediction for the stored mastery, or for `p_l0` when none is stored. */
  function PredictCorrectProbability(p: Params, s: SM.Store, user: string, skill: string): (r: (SM.Store, real))
    ensures r.0 == SM.GetUserState(s, user).0
    ensures skill !in SM.StateOf(s, user).bkt ==> r.1 == Prediction(p.pL0, p.pS, p.pG)
    ensures skill in SM.StateOf(s, user).bkt ==> r.1 == Prediction(SM.StateOf(s, user).bkt[skill], p.pS, p.pG)
    ensures ValidParams(p) && MasteriesAreProbabilities(s) && Informative(p) ==> p.pG <= r.1 <= Complement(p.pS)
    ensures ValidParams(p) && MasteriesAreProbabilities(s) && !Informative(p) ==> Complement(p.pS) <= r.1 <= p.pG
  {
    var (s1, m) := SM.GetBktMastery(s, user, skill, p.pL0);
    assert ValidParams(p) && MasteriesAreProbabilities(s) ==> IsProbability(m) by {
      if user in s && skill in s[user].bkt {
        assert m == s[user].bkt[skill];
      }
    }
    (s1, Prediction(m, p.pS, p.pG))
  }
  /** With an informative model a higher mastery never predicts a lower chance of a correct answer. */
  lemma PredictionMonotone(m1: real, m2: real, slip: real, guess: real)
    requires m1 <= m2 && guess <= Complement(slip)
    ensures Prediction(m1, slip, guess) <= Prediction(m2, slip, guess)
  {
    var d := Complement(slip) - guess;
    var gap := m2 - m1;
    MulNonneg(gap, d);
    assert Prediction(m2, slip, guess) - Prediction(m1, slip, guess) == gap * d;
  }

  /**
   * With an informative model, a correct answer never lowers the predicted
   * chance that the next answer on the same skill is correct.
   */
  lemma CorrectAnswerNeverLowersPrediction(p: Params, s: SM.Store, user: string, skill: string)
    requires ValidParams(p) && Informative(p) && MasteriesAreProbabilities(s)
    ensures PredictCorrectProbability(p, UpdateMastery(p, s, user, skill, true), user, skill).1
            >= PredictCorrectProbability(p, s, user, skill).1
  {
    var prior := SM.GetBktMastery(s, user, skill, p.pL0).1;
    assert IsProbability(prior) by {
      if skill in SM.StateOf(s, user).bkt {
        assert user in s && prior == s[user].bkt[skill];
      }
    }
    UpdateThenRead(p, s, user, skill, true, skill);
    CorrectAnswerNeverLowersMastery(p, prior);
    PredictionMonotone(prior, NextMastery(p, prior, true), p.pS, p.pG);
  }
}
