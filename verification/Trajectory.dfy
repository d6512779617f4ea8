/**
 * The dashboard's BKT mirror and trajectory replay (streamlit_app/queries.py):
 * a synchronous copy of the service's update, and a replay of a user's
 * chronological interaction history that records the mastery of every skill
 * after each interaction. Skipped questions (no answer) leave mastery alone.
 */
module Trajectory {
  import opened Options
  import SM = StateManager
  import Bkt

  /** The mirror's formula once the likelihoods `(givenKnown, givenUnknown)` of the answer are chosen. */
  function MirrorBayes(givenKnown: real, givenUnknown: real, prior: real): real
  {
    var probEvidence := givenKnown * prior + givenUnknown * Bkt.Complement(prior);
    if probEvidence == 0.0 then prior
    else Bkt.Clamp(givenKnown * prior / probEvidence)
  }

  /** `BKTCalculator._calculate_posterior`: choose the likelihoods first, then one Bayes step. */
  function MirrorPosterior(p: Bkt.Params, prior: real, correct: bool): real
  {
    if correct then MirrorBayes(Bkt.Complement(p.pS), p.pG, prior)
    else MirrorBayes(p.pS, Bkt.Complement(p.pG), prior)
  }

  /** `BKTCalculator.calculate_mastery_update`: posterior, then the learning transition, clamped. */
  function MirrorUpdate(p: Bkt.Params, prior: real, correct: bool): (r: real)
    ensures Bkt.IsProbability(r)
  {
    Bkt.Learn(MirrorPosterior(p, prior, correct), p.pT)
  }

  /** The mirror's formula is the service's Bayes step. */
  lemma MirrorBayesAgrees(givenKnown: real, givenUnknown: real, prior: real)
    ensures MirrorBayes(givenKnown, givenUnknown, prior) == Bkt.BayesStep(givenKnown, givenUnknown, prior)
  {
  }

  /** The mirror computes exactly what the service stores. */
  lemma MirrorAgreesWithService(p: Bkt.Params, prior: real, correct: bool)
    ensures MirrorPosterior(p, prior, correct) == Bkt.Posterior(p, prior, correct)
    ensures MirrorUpdate(p, prior, correct) == Bkt.NextMastery(p, prior, correct)
  {
    if correct {
      MirrorBayesAgrees(Bkt.Complement(p.pS), p.pG, prior);
    } else {
      MirrorBayesAgrees(p.pS, Bkt.Complement(p.pG), prior);
    }
  }

  /**
   * One row of the raw interaction history, in chronological order. `userAnswer`
   * is `None` when the question was skipped (`pd.notna(user_answer)` is false).
   */
  datatype HistoryRow = HistoryRow(skill: string, isCorrect: bool, userAnswer: Option<string>)
  {
    predicate Answered()
    {
      userAnswer.Some?
    }
  }

  type Snapshot = map<string, real>

  /** `history_df['skill'].unique()`. */
  function Skills(h: seq<HistoryRow>): (r: set<string>)
    ensures forall i :: 0 <= i < |h| ==> h[i].skill in r
    ensures forall k :: k in r ==> exists i :: 0 <= i < |h| && h[i].skill == k
  {
    set i | 0 <= i < |h| :: h[i].skill
  }

  /** Every skill of the history starts at `p_l0`. */
  function Initial(p: Bkt.Params, h: seq<HistoryRow>): (r: Snapshot)
    ensures r.Keys == Skills(h)
    ensures forall k :: k in r ==> r[k] == p.pL0
  {
    map k | k in Skills(h) :: p.pL0
  }

  /** One loop iteration: an answered row updates its skill, a skipped row changes nothing. */
  function Step(p: Bkt.Params, m: Snapshot, row: HistoryRow): (r: Snapshot)
    requires row.skill in m
    ensures r.Keys == m.Keys
    ensures forall k :: k in m && k != row.skill ==> r[k] == m[k]
    ensures !row.Answered() ==> r == m
    ensures row.Answered() ==> r[row.skill] == MirrorUpdate(p, m[row.skill], row.isCorrect)
  {
    if row.Answered() then m[row.skill := MirrorUpdate(p, m[row.skill], row.isCorrect)]
    else m
  }

  /** The mastery of every skill after the first `i` rows have been replayed. */
  function SnapshotAfter(p: Bkt.Params, h: seq<HistoryRow>, i: nat): (r: Snapshot)
    requires i <= |h|
    ensures r.Keys == Skills(h)
    decreases i
  {
    if i == 0 then Initial(p, h)
    else Step(p, SnapshotAfter(p, h, i - 1), h[i - 1])
  }

  /** The starting state followed by the snapshots after each of the first `n` rows. */
  function Snapshots(p: Bkt.Params, h: seq<HistoryRow>, n: nat): (r: seq<Snapshot>)
    requires n <= |h|
  {
    seq(n + 1, j requires 0 <= j <= n => SnapshotAfter(p, h, j))
  }

  /** One more row appends one more snapshot. */
  lemma SnapshotsGrow(p: Bkt.Params, h: seq<HistoryRow>, n: nat)
    requires n < |h|
    ensures Snapshots(p, h, n + 1) == Snapshots(p, h, n) + [SnapshotAfter(p, h, n + 1)]
  {
    var a := Snapshots(p, h, n + 1);
    var b := Snapshots(p, h, n) + [SnapshotAfter(p, h, n + 1)];
    assert |a| == |b|;
    forall j | 0 <= j < |a| ensures a[j] == b[j] {
      if j <= n {
        assert b[j] == Snapshots(p, h, n)[j];
      }
    }
  }

  /**
   * `get_skill_mastery_trajectory`: nothing for an empty history, otherwise the
   * starting state (interaction 0) followed by one snapshot per interaction.
   */
  function Replay(p: Bkt.Params, h: seq<HistoryRow>): (r: seq<Snapshot>)
    ensures |h| == 0 ==> r == []
    ensures |h| > 0 ==> |r| == |h| + 1
    ensures |h| > 0 ==> forall i :: 0 <= i <= |h| ==> r[i] == SnapshotAfter(p, h, i)
  {
    if |h| == 0 then [] else Snapshots(p, h, |h|)
  }

  /** The loop of `get_skill_mastery_trajectory`, building the snapshots in order. */
  method ComputeTrajectory(p: Bkt.Params, h: seq<HistoryRow>) returns (t: seq<Snapshot>)
    ensures t == Replay(p, h)
  {
    if |h| == 0 {
      return [];
    }
    var mastery := Initial(p, h);
    t := [mastery];
    var i := 0;
    while i < |h|
      invariant 0 <= i <= |h|
      invariant mastery == SnapshotAfter(p, h, i)
      invariant t == Snapshots(p, h, i)
    {
      SnapshotsGrow(p, h, i);
      mastery := Step(p, mastery, h[i]);
      t := t + [mastery];
      i := i + 1;
    }
  }

  /** Interaction 0 has every skill of the history, each at `p_l0`. */
  lemma ReplayStartsAtPrior(p: Bkt.Params, h: seq<HistoryRow>)
    requires |h| > 0
    ensures Replay(p, h)[0].Keys == Skills(h)
    ensures forall k :: k in Skills(h) ==> Replay(p, h)[0][k] == p.pL0
  {
  }

  /** A skipped interaction repeats the previous snapshot; an answered one changes only its skill. */
  lemma ReplayStepEffect(p: Bkt.Params, h: seq<HistoryRow>, i: nat)
    requires i < |h|
    ensures !h[i].Answered() ==> Replay(p, h)[i + 1] == Replay(p, h)[i]
    ensures h[i].Answered() ==>
              Replay(p, h)[i + 1] == Replay(p, h)[i][h[i].skill := MirrorUpdate(p, Replay(p, h)[i][h[i].skill], h[i].isCorrect)]
  {
    assert Replay(p, h)[i + 1] == Step(p, SnapshotAfter(p, h, i), h[i]);
  }

  /** With a valid prior every snapshot holds probabilities only. */
  lemma {:induction false} SnapshotsAreProbabilities(p: Bkt.Params, h: seq<HistoryRow>, i: nat)
    requires i <= |h| && Bkt.IsProbability(p.pL0)
    ensures forall k :: k in SnapshotAfter(p, h, i) ==> Bkt.IsProbability(SnapshotAfter(p, h, i)[k])
  {
    if i > 0 {
      SnapshotsAreProbabilities(p, h, i - 1);
    }
  }

  /** The mastery the service reports for `(user, skill)`: the stored value, `p_l0` when none. */
  function StoredMastery(p: Bkt.Params, s: SM.Store, user: string, skill: string): real
  {
    SM.GetBktMastery(s, user, skill, p.pL0).1
  }

  /** The service's store after `update_mastery` ran for every answered row among the first `n`, in order. */
  function ServiceReplay(p: Bkt.Params, s: SM.Store, user: string, h: seq<HistoryRow>, n: nat): SM.Store
    requires n <= |h|
  {
    if n == 0 then s
    else
      var before := ServiceReplay(p, s, user, h, n - 1);
      var row := h[n - 1];
      if row.Answered() then Bkt.UpdateMastery(p, before, user, row.skill, row.isCorrect) else before
  }

  /** One replayed row and one service update agree on every skill they agreed on before. */
  lemma StepAgreesWithService(p: Bkt.Params, m: Snapshot, st: SM.Store, user: string, row: HistoryRow, k: string)
    requires row.skill in m && k in m
    requires m[k] == StoredMastery(p, st, user, k) && m[row.skill] == StoredMastery(p, st, user, row.skill)
    ensures Step(p, m, row)[k]
            == StoredMastery(p, if row.Answered() then Bkt.UpdateMastery(p, st, user, row.skill, row.isCorrect) else st,
                             user, k)
  {
    if row.Answered() {
      MirrorAgreesWithService(p, m[row.skill], row.isCorrect);
      Bkt.UpdateThenRead(p, st, user, row.skill, row.isCorrect, k);
    }
  }

  /**
   * The replay reconstructs what the service stored: for a user with no
   * stored masteries, every snapshot agrees, skill by skill, with the mastery
   * the service reports after the same interactions.
   */
  lemma {:induction false} ReplayMatchesService(p: Bkt.Params, s: SM.Store, user: string, h: seq<HistoryRow>, i: nat)
    requires i <= |h| && SM.StateOf(s, user).bkt == map[]
    ensures forall k :: k in Skills(h) ==>
              SnapshotAfter(p, h, i)[k] == StoredMastery(p, ServiceReplay(p, s, user, h, i), user, k)
  {
    if i > 0 {
      ReplayMatchesService(p, s, user, h, i - 1);
      forall k | k in Skills(h)
        ensures SnapshotAfter(p, h, i)[k] == StoredMastery(p, ServiceReplay(p, s, user, h, i), user, k)
      {
        StepAgreesWithService(p, SnapshotAfter(p, h, i - 1), ServiceReplay(p, s, user, h, i - 1), user, h[i - 1], k);
      }
    }
  }
}
