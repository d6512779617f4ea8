/**
 * The personalisation service of app/services/personalization_service.py:
 * per-user hint preferences, initialised from the `User` model's defaults on
 * first use, and running feedback totals per hint style. Both live in the
 * user's record of the state manager's store.
 */
module Personalization {
  import opened Options
  import SM = StateManager

  type Preferences = map<string, string>

  /** `preferred_hint_style`'s default in the `User` model, and the fallback of `get_adaptive_hint_style`. */
  const DefaultHintStyle := "Worked Example"

  /** `User(username=user, password="").dict()`: the two given fields and the two defaulted ones. */
  function DefaultPreferences(user: string): (r: Preferences)
    ensures r.Keys == {"username", "password", "preferred_hint_style", "prior_knowledge"}
    ensures r["username"] == user && r["password"] == ""
    ensures r["preferred_hint_style"] == DefaultHintStyle && r["prior_knowledge"] == "Beginner"
  {
    map["username" := user, "password" := "", "preferred_hint_style" := DefaultHintStyle,
        "prior_knowledge" := "Beginner"]
  }

  /** `get_user_preferences`: the stored preferences, created from the defaults on first access. */
  function GetUserPreferences(s: SM.Store, user: string): (r: (SM.Store, Preferences))
    ensures user in r.0 && SM.OthersUnchanged(s, r.0, user)
    ensures r.0[user].preferences == Some(r.1)
    ensures SM.StateOf(s, user).preferences.Some? ==> r.1 == SM.StateOf(s, user).preferences.value
    ensures SM.StateOf(s, user).preferences.None? ==> r.1 == DefaultPreferences(user)
    ensures r.0[user] == SM.StateOf(s, user).(preferences := Some(r.1))
  {
    var st := SM.StateOf(s, user);
    match st.preferences
    case Some(prefs) => (SM.GetUserState(s, user).0, prefs)
    case None =>
      var prefs := DefaultPreferences(user);
      (s[user := st.(preferences := Some(prefs))], prefs)
  }

  /** Reading preferences twice is the same as reading them once: defaults are installed only once. */
  lemma GetUserPreferencesIdempotent(s: SM.Store, user: string)
    ensures GetUserPreferences(GetUserPreferences(s, user).0, user) == GetUserPreferences(s, user)
  {
  }

  /** `update_user_preferences`: `dict.update` of the (possibly just initialised) preferences. */
  function UpdateUserPreferences(s: SM.Store, user: string, update: Preferences): (r: (SM.Store, Preferences))
    ensures user in r.0 && SM.OthersUnchanged(s, r.0, user)
    ensures r.0[user].preferences == Some(r.1)
    ensures r.1.Keys == GetUserPreferences(s, user).1.Keys + update.Keys
    ensures forall k :: k in update ==> r.1[k] == update[k]
    ensures forall k :: k in GetUserPreferences(s, user).1 && k !in update ==> r.1[k] == GetUserPreferences(s, user).1[k]
    ensures r.0[user] == SM.StateOf(s, user).(preferences := Some(r.1))
  {
    var current := GetUserPreferences(s, user).1;
    var updated := current + update;
    assert updated.Keys == current.Keys + update.Keys;
    (s[user := SM.StateOf(s, user).(preferences := Some(updated))], updated)
  }

  /** `get_adaptive_hint_style`: the preferred style, "Worked Example" when the key is absent. */
  function GetAdaptiveHintStyle(s: SM.Store, user: string): (r: (SM.Store, string))
    ensures r.0 == GetUserPreferences(s, user).0
    ensures "preferred_hint_style" in GetUserPreferences(s, user).1 ==>
              r.1 == GetUserPreferences(s, user).1["preferred_hint_style"]
    ensures "preferred_hint_style" !in GetUserPreferences(s, user).1 ==> r.1 == DefaultHintStyle
  {
    var (s1, prefs) := GetUserPreferences(s, user);
    (s1, Lookup(prefs, "preferred_hint_style").GetOr(DefaultHintStyle))
  }

  /** A user who never set preferences gets worked examples. */
  lemma NewUserGetsWorkedExample(s: SM.Store, user: string)
    requires SM.StateOf(s, user).preferences.None?
    ensures GetAdaptiveHintStyle(s, user).1 == DefaultHintStyle
  {
  }

  /** The style set by the last update is the style used, and later reads keep it. */
  lemma UpdatedStyleIsUsed(s: SM.Store, user: string, update: Preferences)
    requires "preferred_hint_style" in update
    ensures GetAdaptiveHintStyle(UpdateUserPreferences(s, user, update).0, user).1 == update["preferred_hint_style"]
  {
  }

  /** Updating another user's preferences does not change this user's hint style. */
  lemma OtherUsersUpdatesAreInvisible(s: SM.Store, user: string, other: string, update: Preferences)
    requires other != user
    ensures GetAdaptiveHintStyle(UpdateUserPreferences(s, other, update).0, user).1 == GetAdaptiveHintStyle(s, user).1
  {
    var s1 := UpdateUserPreferences(s, other, update).0;
    assert SM.StateOf(s1, user) == SM.StateOf(s, user);
  }

  /** The running totals of one hint style, `{"total_rating": 0, "count": 0}` when unseen. */
  function ScoresFor(scores: Option<map<string, SM.FeedbackScore>>, style: string): SM.FeedbackScore
  {
    match scores
    case None => SM.FeedbackScore(0, 0)
    case Some(m) => Lookup(m, style).GetOr(SM.FeedbackScore(0, 0))
  }

  /** `record_feedback`: add `rating` to the style's total and 1 to its count. */
  function RecordFeedback(s: SM.Store, user: string, style: string, rating: int): (r: SM.Store)
    ensures user in r && SM.OthersUnchanged(s, r, user)
    ensures r[user].feedbackScores.Some?
    ensures ScoresFor(r[user].feedbackScores, style).totalRating
            == ScoresFor(SM.StateOf(s, user).feedbackScores, style).totalRating + rating
    ensures ScoresFor(r[user].feedbackScores, style).count
            == ScoresFor(SM.StateOf(s, user).feedbackScores, style).count + 1
    ensures forall other :: other != style ==>
              ScoresFor(r[user].feedbackScores, other) == ScoresFor(SM.StateOf(s, user).feedbackScores, other)
    ensures r[user] == SM.StateOf(s, user).(feedbackScores := r[user].feedbackScores)
  {
    var st := SM.StateOf(s, user);
    var current := ScoresFor(st.feedbackScores, style);
    var updated := SM.FeedbackScore(current.totalRating + rating, current.count + 1);
    s[user := st.(feedbackScores := Some(st.feedbackScores.GetOr(map[])[style := updated]))]
  }

  /** Sum of a sequence of ratings. */
  function Sum(ratings: seq<int>): int
  {
    if |ratings| == 0 then 0 else Sum(ratings[..|ratings| - 1]) + ratings[|ratings| - 1]
  }

  /** Recording each rating of `ratings` for `style`, in order. */
  function RecordAll(s: SM.Store, user: string, style: string, ratings: seq<int>): SM.Store
  {
    if |ratings| == 0 then s
    else RecordFeedback(RecordAll(s, user, style, ratings[..|ratings| - 1]), user, style, ratings[|ratings| - 1])
  }

  /**
   * The stored pair is exactly the sum and number of the ratings recorded, so
   * `total_rating / count` is their mean.
   */
  lemma {:induction false} RecordedTotalsAreSumAndCount(s: SM.Store, user: string, style: string, ratings: seq<int>)
    requires ScoresFor(SM.StateOf(s, user).feedbackScores, style) == SM.FeedbackScore(0, 0)
    ensures ScoresFor(SM.StateOf(RecordAll(s, user, style, ratings), user).feedbackScores, style)
            == SM.FeedbackScore(Sum(ratings), |ratings|)
  {
    if |ratings| > 0 {
      RecordedTotalsAreSumAndCount(s, user, style, ratings[..|ratings| - 1]);
    }
  }
}
