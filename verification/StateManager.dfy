/**
 * The in-memory per-user store of app/state_manager.py: for every user, the BKT
 * mastery per skill, a log of at most `MaxLogSize` entries, and the consecutive
 * error count per skill. The personalisation service keeps its preferences and
 * feedback scores in the same per-user record, so they live here too.
 *
 * The Python store is a process-wide `defaultdict`; here it is a value, and every
 * operation returns the store it leaves behind together with its result.
 */
module StateManager {
  import opened Options
  import PyStrings

  /** `MAX_LOG_SIZE`, also the `maxlen` of every user's log deque. */
  const MaxLogSize: nat := 100

  /** One interaction log entry; the timestamp comes from the clock and is left out. */
  datatype LogEntry = LogEntry(
    action: string,
    questionId: Option<int>,
    skill: Option<string>,
    userAnswer: Option<string>,
    isCorrect: Option<bool>,
    timeTakenMs: Option<int>)

  /** A style's running feedback sum: `{"total_rating": ..., "count": ...}`. */
  datatype FeedbackScore = FeedbackScore(totalRating: int, count: nat)

  /** One user's record. `preferences` and `feedbackScores` are absent until first used. */
  datatype UserState = UserState(
    bkt: map<string, real>,
    log: seq<LogEntry>,
    consecutiveErrors: map<string, nat>,
    preferences: Option<map<string, string>>,
    feedbackScores: Option<map<string, FeedbackScore>>)

  type Store = map<string, UserState>

  /** The record the `defaultdict` factory builds for a user seen for the first time. */
  const FreshUserState := UserState(map[], [], map[], None, None)

  /** The record `get_user_state` returns for `user`, without the side effect. */
  function StateOf(s: Store, user: string): UserState
  {
    if user in s then s[user] else FreshUserState
  }

  /** Every user other than `user` has the same record (or none) in `s` and `s'`. */
  predicate OthersUnchanged(s: Store, s': Store, user: string)
  {
    && (forall u :: u in s && u != user ==> u in s' && s'[u] == s[u])
    && (forall u :: u in s' && u != user ==> u in s)
  }

  /** The store invariant: no log is longer than `MaxLogSize`. */
  predicate LogsBounded(s: Store)
  {
    forall u :: u in s ==> |s[u].log| <= MaxLogSize
  }

  /** `get_user_state`: creates the user's record on first access, then returns it. */
  function GetUserState(s: Store, user: string): (r: (Store, UserState))
    ensures user in r.0 && r.1 == r.0[user] && r.1 == StateOf(s, user)
    ensures user in s ==> r.0 == s
    ensures user !in s ==> r.1 == FreshUserState
    ensures r.0.Keys == s.Keys + {user} && OthersUnchanged(s, r.0, user)
  {
    if user in s then (s, s[user])
    else (s[user := FreshUserState], FreshUserState)
  }

  /** A user's record is created at most once: a second access changes nothing. */
  lemma GetUserStateIdempotent(s: Store, user: string)
    ensures GetUserState(GetUserState(s, user).0, user) == GetUserState(s, user)
  {
  }

  /** `deque(maxlen=MaxLogSize).append(e)`: append, evicting the oldest entries beyond the bound. */
  function AppendBounded(log: seq<LogEntry>, e: LogEntry): (r: seq<LogEntry>)
    ensures |r| == if |log| + 1 <= MaxLogSize then |log| + 1 else MaxLogSize
    ensures r == (log + [e])[|log| + 1 - |r|..]
    ensures r[|r| - 1] == e
    ensures |log| < MaxLogSize ==> r == log + [e]
    ensures |log| == MaxLogSize ==> r == log[1..] + [e]
  {
    var l := log + [e];
    if |l| > MaxLogSize then l[|l| - MaxLogSize..] else l
  }

  /** The error-counter update `add_log_entry` performs for one entry. */
  function UpdateErrors(errors: map<string, nat>, e: LogEntry): map<string, nat>
  {
    if e.action == "answered" && e.skill.Some? then
      var skill := e.skill.value;
      if e.isCorrect == Some(true) then errors[skill := 0]
      else errors[skill := Lookup(errors, skill).GetOr(0) + 1]
    else errors
  }

  /** One user's record after logging `e`: the log and the error counters change, nothing else. */
  function Logged(st: UserState, e: LogEntry): (r: UserState)
    ensures r == st.(log := r.log, consecutiveErrors := r.consecutiveErrors)
    ensures |r.log| > 0 && r.log[|r.log| - 1] == e
    ensures |st.log| <= MaxLogSize ==> |r.log| <= MaxLogSize
    ensures |st.log| < MaxLogSize ==> r.log == st.log + [e]
    ensures |st.log| == MaxLogSize ==> r.log == st.log[1..] + [e]
  {
    st.(log := AppendBounded(st.log, e), consecutiveErrors := UpdateErrors(st.consecutiveErrors, e))
  }

  /**
   * `add_log_entry`. `entry` is `None` when building the entry raised (the
   * exception is caught and logged); the user's record is still created.
   */
  function AddLogEntry(s: Store, user: string, entry: Option<LogEntry>): (r: Store)
    ensures user in r && OthersUnchanged(s, r, user)
    ensures entry.None? ==> r == GetUserState(s, user).0
    ensures r[user].bkt == StateOf(s, user).bkt
    ensures r[user].preferences == StateOf(s, user).preferences
    ensures r[user].feedbackScores == StateOf(s, user).feedbackScores
    ensures entry.Some? ==> |r[user].log| > 0 && r[user].log[|r[user].log| - 1] == entry.value
    ensures |StateOf(s, user).log| <= MaxLogSize ==> |r[user].log| <= MaxLogSize
    ensures entry.Some? && |StateOf(s, user).log| < MaxLogSize ==>
              r[user].log == StateOf(s, user).log + [entry.value]
    ensures entry.Some? && |StateOf(s, user).log| == MaxLogSize ==>
              r[user].log == StateOf(s, user).log[1..] + [entry.value]
  {
    match entry
    case None => GetUserState(s, user).0
    case Some(e) => s[user := Logged(StateOf(s, user), e)]
  }

  /** Adding a log entry keeps every log within `MaxLogSize`. */
  lemma AddLogEntryKeepsLogsBounded(s: Store, user: string, entry: Option<LogEntry>)
    requires LogsBounded(s)
    ensures LogsBounded(AddLogEntry(s, user, entry))
  {
    var r := AddLogEntry(s, user, entry);
    forall u | u in r ensures |r[u].log| <= MaxLogSize {
      if u != user {
        assert u in s;
      }
    }
  }

  /** `get_consecutive_errors`: the counter for `skill`, 0 when it was never set. */
  function GetConsecutiveErrors(s: Store, user: string, skill: string): (r: (Store, nat))
    ensures r.0 == GetUserState(s, user).0
    ensures skill !in StateOf(s, user).consecutiveErrors ==> r.1 == 0
    ensures skill in StateOf(s, user).consecutiveErrors ==> r.1 == StateOf(s, user).consecutiveErrors[skill]
  {
    var (s1, st) := GetUserState(s, user);
    (s1, Lookup(st.consecutiveErrors, skill).GetOr(0))
  }

  /** The counter as `get_consecutive_errors` reports it, without the side effect. */
  function ErrorsOf(s: Store, user: string, skill: string): nat
  {
    GetConsecutiveErrors(s, user, skill).1
  }

  /** An "answered" entry that is correct resets its skill's counter to 0. */
  lemma CorrectAnswerResetsErrors(s: Store, user: string, e: LogEntry)
    requires e.action == "answered" && e.skill.Some? && e.isCorrect == Some(true)
    ensures ErrorsOf(AddLogEntry(s, user, Some(e)), user, e.skill.value) == 0
  {
  }

  /** An "answered" entry that is not correct adds exactly 1 to its skill's counter. */
  lemma IncorrectAnswerIncrementsErrors(s: Store, user: string, e: LogEntry)
    requires e.action == "answered" && e.skill.Some? && e.isCorrect != Some(true)
    ensures ErrorsOf(AddLogEntry(s, user, Some(e)), user, e.skill.value)
            == ErrorsOf(s, user, e.skill.value) + 1
  {
  }

  /**
   * Counters of other skills never move; entries that are not "answered", carry
   * no skill, or could not be built leave every counter unchanged.
   */
  lemma OtherCountersUnchanged(s: Store, user: string, entry: Option<LogEntry>, skill: string)
    requires entry.None? || entry.value.action != "answered" || entry.value.skill != Some(skill)
    ensures ErrorsOf(AddLogEntry(s, user, entry), user, skill) == ErrorsOf(s, user, skill)
  {
  }

  /** `get_bkt_mastery`: the stored mastery for `skill`, or `default` when unset. */
  function GetBktMastery(s: Store, user: string, skill: string, default: real): (r: (Store, real))
    ensures r.0 == GetUserState(s, user).0
    ensures skill !in StateOf(s, user).bkt ==> r.1 == default
    ensures skill in StateOf(s, user).bkt ==> r.1 == StateOf(s, user).bkt[skill]
  {
    var (s1, st) := GetUserState(s, user);
    (s1, Lookup(st.bkt, skill).GetOr(default))
  }

  /** `update_bkt_mastery`: stores `v` for `(user, skill)` and touches nothing else. */
  function UpdateBktMastery(s: Store, user: string, skill: string, v: real): (r: Store)
    ensures user in r && OthersUnchanged(s, r, user)
    ensures r[user].bkt.Keys == StateOf(s, user).bkt.Keys + {skill}
    ensures r[user].bkt[skill] == v
    ensures forall k :: k in StateOf(s, user).bkt && k != skill ==> r[user].bkt[k] == StateOf(s, user).bkt[k]
    ensures r[user].log == StateOf(s, user).log
    ensures r[user].consecutiveErrors == StateOf(s, user).consecutiveErrors
    ensures r[user].preferences == StateOf(s, user).preferences
    ensures r[user].feedbackScores == StateOf(s, user).feedbackScores
  {
    var (s1, st) := GetUserState(s, user);
    s1[user := st.(bkt := st.bkt[skill := v])]
  }

  /** Reading back after an update gives the stored value; other skills read as before. */
  lemma UpdateThenGetMastery(s: Store, user: string, skill: string, v: real, other: string, default: real)
    requires other != skill
    ensures GetBktMastery(UpdateBktMastery(s, user, skill, v), user, skill, default).1 == v
    ensures GetBktMastery(UpdateBktMastery(s, user, skill, v), user, other, default).1
            == GetBktMastery(s, user, other, default).1
  {
  }

  /**
   * `get_last_n_logs` as written: `list(log)[-n:]`. For `n > 0` this is the last
   * `min(n, len)` entries, but `-0` is `0`, so `n == 0` returns the whole log,
   * and a negative `n` drops the `-n` oldest entries instead.
   */
  function GetLastNLogsAsWritten(s: Store, user: string, n: int): (r: (Store, seq<LogEntry>))
    ensures r.0 == GetUserState(s, user).0
    ensures n > 0 && n <= |StateOf(s, user).log| ==> r.1 == StateOf(s, user).log[|StateOf(s, user).log| - n..]
    ensures n > |StateOf(s, user).log| ==> r.1 == StateOf(s, user).log
    ensures n == 0 ==> r.1 == StateOf(s, user).log
    ensures n < 0 ==> r.1 == StateOf(s, user).log[(if -n < |StateOf(s, user).log| then -n else |StateOf(s, user).log|)..]
  {
    var (s1, st) := GetUserState(s, user);
    (s1, st.log[PyStrings.SliceStart(-n, |st.log|)..])
  }

  /** With one entry in the log, asking for the last 0 entries returns that entry. */
  lemma LastZeroLogsReturnsEverything(e: LogEntry)
    ensures GetLastNLogsAsWritten(AddLogEntry(map[], "u", Some(e)), "u", 0).1 == [e]
  {
    var s := AddLogEntry(map[], "u", Some(e));
    assert StateOf(s, "u").log == [e];
  }

  /** With two entries in the log, asking for the last -1 entries drops the older one. */
  lemma NegativeCountDropsOldest(e1: LogEntry, e2: LogEntry)
    ensures GetLastNLogsAsWritten(AddLogEntry(AddLogEntry(map[], "u", Some(e1)), "u", Some(e2)), "u", -1).1 == [e2]
  {
    var s1 := AddLogEntry(map[], "u", Some(e1));
    assert StateOf(s1, "u").log == [e1];
    var s2 := AddLogEntry(s1, "u", Some(e2));
    assert StateOf(s2, "u").log == [e1, e2];
  }

  /**
   * `get_last_n_logs` as its name and docstring promise: the last `min(n, len)`
   * entries in chronological order, and none when `n <= 0`.
   */
  function GetLastNLogs(s: Store, user: string, n: int): (r: (Store, seq<LogEntry>))
    ensures r.0 == GetUserState(s, user).0
    ensures |r.1| == if n <= 0 then 0 else if n < |StateOf(s, user).log| then n else |StateOf(s, user).log|
    ensures r.1 == StateOf(s, user).log[|StateOf(s, user).log| - |r.1|..]
  {
    var (s1, st) := GetUserState(s, user);
    if n <= 0 then (s1, [])
    else (s1, st.log[PyStrings.SliceStart(-n, |st.log|)..])
  }

  /** The corrected reading agrees with the code whenever `n` is positive. */
  lemma LastNLogsAgreeForPositive(s: Store, user: string, n: int)
    requires n > 0
    ensures GetLastNLogs(s, user, n) == GetLastNLogsAsWritten(s, user, n)
  {
  }
}
