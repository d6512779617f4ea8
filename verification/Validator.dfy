/**
 * The output validator of run_and_validate_tests.py: it finds the JSON object
 * printed after an identifier in a captured block of text (by counting
 * braces), walks a dot-separated path into it, and runs the two kinds of
 * check an expected-results entry can ask for.
 *
 * `json.loads` is a parameter `parse`; a failed parse is `None`. Python's
 * `None` and JSON `null` are one value here, as they are after `json.loads`.
 */
module Validator {
  import opened Options
  import opened PyStrings

  datatype Json =
    | JNull
    | JBool(b: bool)
    | JNum(n: real)
    | JStr(s: string)
    | JArr(items: seq<Json>)
    | JObj(fields: map<string, Json>)

  /** The captured text and the identifiers whose JSON block has already been parsed. */
  datatype Validator = Validator(block: string, cache: map<string, Json>)

  /** A fresh validator for a block: nothing cached. */
  function NewValidator(block: string): (v: Validator)
    ensures v.block == block && v.cache == map[]
  {
    Validator(block, map[])
  }

  // ------------------------------------------------------------ brace matching

  /** Opening minus closing braces in `s[start..j]`. */
  function Depth(s: string, start: nat, j: nat): int
    requires start <= j <= |s|
    decreases j
  {
    if j == start then 0
    else Depth(s, start, j - 1) + (if s[j - 1] == '{' then 1 else if s[j - 1] == '}' then -1 else 0)
  }

  /** The first `k` in `[j, |s|]` at which the depth from `start` is back to 0. */
  function FirstBalanced(s: string, start: nat, j: nat): (r: Option<nat>)
    requires start < j <= |s| + 1
    ensures r.Some? ==> j <= r.value <= |s| && Depth(s, start, r.value) == 0
    ensures r.Some? ==> forall k :: j <= k < r.value ==> Depth(s, start, k) != 0
    ensures r.None? ==> forall k :: j <= k <= |s| ==> Depth(s, start, k) != 0
    decreases |s| + 1 - j
  {
    if j > |s| then None
    else if Depth(s, start, j) == 0 then Some(j)
    else FirstBalanced(s, start, j + 1)
  }

  /**
   * The end (exclusive) of the brace block opening at `start`: the first
   * point after it where as many braces have closed as opened, if any.
   */
  function BlockEnd(s: string, start: nat): (r: Option<nat>)
    requires start < |s|
    ensures r.Some? ==> start < r.value <= |s| && Depth(s, start, r.value) == 0
    ensures r.Some? ==> forall k :: start < k < r.value ==> Depth(s, start, k) != 0
    ensures r.None? ==> forall k :: start < k <= |s| ==> Depth(s, start, k) != 0
  {
    FirstBalanced(s, start, start + 1)
  }

  /** The brace-counting loop of `_find_json_after`. */
  method ScanBraces(s: string, start: nat) returns (end: Option<nat>)
    requires start < |s|
    ensures end == BlockEnd(s, start)
  {
    var braceCount := 0;
    var i := start;
    while i < |s|
      invariant start <= i <= |s|
      invariant braceCount == Depth(s, start, i)
      invariant forall k :: start < k <= i ==> Depth(s, start, k) != 0
    {
      if s[i] == '{' {
        braceCount := braceCount + 1;
      } else if s[i] == '}' {
        braceCount := braceCount - 1;
      }
      if braceCount == 0 {
        assert Depth(s, start, i + 1) == 0;
        end := Some(i + 1);
        assert BlockEnd(s, start).Some? && BlockEnd(s, start).value == i + 1;
        return;
      }
      i := i + 1;
    }
    return None;
  }

  /** Inside a block that opens with `{`, the depth stays positive until the block ends. */
  lemma {:induction false} BlockStaysOpen(s: string, start: nat, k: nat)
    requires start < k <= |s| && s[start] == '{'
    requires forall m :: start < m <= k ==> Depth(s, start, m) != 0
    ensures Depth(s, start, k) >= 1
    decreases k
  {
    if k > start + 1 {
      BlockStaysOpen(s, start, k - 1);
    }
  }

  // ------------------------------------------------------------ _find_json_after

  /**
   * `_find_json_after`: a cached result if there is one; otherwise the block
   * from the first `{` at or after where `identifier` starts, parsed, and
   * cached only when the parse succeeds. Every failure is `None`.
   */
  function FindJsonAfter(v: Validator, identifier: string, parse: string -> Option<Json>): (r: (Validator, Option<Json>))
    ensures r.0.block == v.block
    ensures identifier in v.cache ==> r == (v, Some(v.cache[identifier]))
    ensures identifier !in v.cache && !Contains(v.block, identifier) ==> r == (v, None)
    ensures r.1.None? ==> r.0 == v
    ensures r.1.Some? ==> r.0.cache == v.cache[identifier := r.1.value]
  {
    if identifier in v.cache then (v, Some(v.cache[identifier]))
    else
      match IndexFrom(v.block, identifier, 0)
      case None => (v, None)
      case Some(start) =>
        match IndexFrom(v.block, "{", start)
        case None => (v, None)
        case Some(open) =>
          match BlockEnd(v.block, open)
          case None => (v, None)
          case Some(end) =>
            match parse(v.block[open..end])
            case None => (v, None)
            case Some(j) => (v.(cache := v.cache[identifier := j]), Some(j))
  }

  /**
   * When a block is found, it is the text from the first `{` at or after the
   * identifier's first occurrence up to the brace that balances it, and that
   * text is what was parsed.
   */
  lemma FoundBlockIsBalanced(v: Validator, identifier: string, parse: string -> Option<Json>)
    requires identifier !in v.cache && FindJsonAfter(v, identifier, parse).1.Some?
    ensures exists start: nat, open: nat, end: nat ::
              && IndexFrom(v.block, identifier, 0) == Some(start)
              && start <= open < end <= |v.block|
              && v.block[open] == '{' && '{' !in v.block[start..open]
              && Depth(v.block, open, end) == 0
              && (forall k :: open < k < end ==> Depth(v.block, open, k) >= 1)
              && parse(v.block[open..end]) == FindJsonAfter(v, identifier, parse).1
  {
    var start := IndexFrom(v.block, identifier, 0).value;
    var open := IndexFrom(v.block, "{", start).value;
    var end := BlockEnd(v.block, open).value;
    FirstBraceFound(v.block, start, open);
    BlockDepthPositive(v.block, open, end);
  }

  /** `s.index("{", start)` finds a `{` with none between `start` and it. */
  lemma FirstBraceFound(s: string, start: nat, open: nat)
    requires IndexFrom(s, "{", start) == Some(open)
    ensures open < |s| && s[open] == '{' && '{' !in s[start..open]
  {
    assert s[open..open + 1] == "{";
    forall m | start <= m < open ensures s[m] != '{' {
      assert !Occurs(s, "{", m);
      assert s[m..m + 1] == [s[m]];
    }
    forall m | 0 <= m < open - start ensures s[start..open][m] != '{' {
      assert s[start..open][m] == s[start + m];
    }
  }

  /** Strictly inside a block opened by `{` and ending at `end`, the depth is at least 1. */
  lemma BlockDepthPositive(s: string, open: nat, end: nat)
    requires open < |s| && s[open] == '{' && BlockEnd(s, open) == Some(end)
    ensures forall k :: open < k < end ==> Depth(s, open, k) >= 1
  {
    forall k | open < k < end ensures Depth(s, open, k) >= 1 {
      BlockStaysOpen(s, open, k);
    }
  }

  /** A cached identifier is answered from the cache, whatever `parse` now does. */
  lemma FindIsCached(v: Validator, identifier: string, parse: string -> Option<Json>, parse': string -> Option<Json>)
    requires FindJsonAfter(v, identifier, parse).1.Some?
    ensures var (v1, j) := FindJsonAfter(v, identifier, parse);
            FindJsonAfter(v1, identifier, parse') == (v1, j)
  {
  }

  // ------------------------------------------------------------ _get_from_path

  /** One path component: an all-digit component is a list index, any other a key. */
  datatype Step = Index(i: nat) | Key(k: string)

  function ParseStep(part: string): (r: Step)
    ensures IsDigits(part) <==> r.Index?
    ensures r.Key? ==> r.k == part
  {
    if IsDigits(part) then Index(DigitsValue(part)) else Key(part)
  }

  /**
   * `operator.getitem` on a JSON value, `None` where Python raises `KeyError`,
   * `IndexError` or `TypeError`. An index into a string gives its character.
   */
  function GetItem(o: Json, step: Step): (r: Option<Json>)
    ensures o.JObj? && step.Key? ==> r == Lookup(o.fields, step.k)
    ensures o.JArr? && step.Index? ==> (r.Some? <==> step.i < |o.items|)
    ensures o.JArr? && step.Index? && step.i < |o.items| ==> r == Some(o.items[step.i])
    ensures o.JStr? && step.Index? ==> (r.Some? <==> step.i < |o.s|)
    ensures o.JStr? && step.Index? && step.i < |o.s| ==> r == Some(JStr([o.s[step.i]]))
    ensures r.Some? ==> (o.JObj? && step.Key?) || ((o.JArr? || o.JStr?) && step.Index?)
  {
    match o
    case JObj(fields) => if step.Key? then Lookup(fields, step.k) else None
    case JArr(items) => if step.Index? && step.i < |items| then Some(items[step.i]) else None
    case JStr(s) => if step.Index? && step.i < |s| then Some(JStr([s[step.i]])) else None
    case _ => None
  }

  /** `reduce(operator.getitem, steps, o)`, stopping at the first failure. */
  function Walk(o: Json, steps: seq<Step>): Option<Json>
    decreases |steps|
  {
    if |steps| == 0 then Some(o)
    else
      match GetItem(o, steps[0])
      case None => None
      case Some(o') => Walk(o', steps[1..])
  }

  /** The steps of a dot-separated path. */
  function PathSteps(path: string): (r: seq<Step>)
    ensures |r| == |Split(path, '.')|
    ensures forall i :: 0 <= i < |r| ==> r[i] == ParseStep(Split(path, '.')[i])
  {
    seq(|Split(path, '.')|, i requires 0 <= i < |Split(path, '.')| => ParseStep(Split(path, '.')[i]))
  }

  /** `_get_from_path`. */
  function GetFromPath(o: Json, path: string): Option<Json>
  {
    Walk(o, PathSteps(path))
  }

  /** Walking two paths in turn is walking their concatenation; a failure stops the walk. */
  lemma {:induction false} WalkConcat(o: Json, a: seq<Step>, b: seq<Step>)
    ensures Walk(o, a + b) == (if Walk(o, a).Some? then Walk(Walk(o, a).value, b) else None)
    decreases |a|
  {
    if |a| > 0 {
      assert (a + b)[0] == a[0];
      assert (a + b)[1..] == a[1..] + b;
      assert Walk(o, a + b) == (match GetItem(o, a[0]) case None => None case Some(o') => Walk(o', a[1..] + b));
      match GetItem(o, a[0])
      case None =>
      case Some(o') => WalkConcat(o', a[1..], b);
    } else {
      assert a + b == b;
    }
  }

  /** A one-step walk is a single `getitem`. */
  lemma WalkOne(o: Json, step: Step)
    ensures Walk(o, [step]) == GetItem(o, step)
  {
    assert [step][1..] == [];
  }

  lemma PathStepsConcat(p: string, q: string)
    ensures PathSteps(p + "." + q) == PathSteps(p) + PathSteps(q)
  {
    SplitConcat(p, '.', q);
    assert p + "." + q == p + ['.'] + q;
  }

  /**
   * `a.b` walks `a` and then `b` from where `a` ended; if `a` leads nowhere,
   * so does `a.b`.
   */
  lemma GetFromDottedPath(o: Json, p: string, q: string)
    ensures GetFromPath(o, p + "." + q)
            == (if GetFromPath(o, p).Some? then GetFromPath(GetFromPath(o, p).value, q) else None)
  {
    PathStepsConcat(p, q);
    WalkConcat(o, PathSteps(p), PathSteps(q));
  }

  /** A dot-free all-digit component indexes a list; it never looks a key up in an object. */
  lemma DigitComponentIndexes(items: seq<Json>, fields: map<string, Json>, part: string)
    requires IsDigits(part) && '.' !in part
    ensures GetFromPath(JArr(items), part) == (if DigitsValue(part) < |items| then Some(items[DigitsValue(part)]) else None)
    ensures GetFromPath(JObj(fields), part) == None
  {
    assert Split(part, '.') == [part];
    assert PathSteps(part) == [Index(DigitsValue(part))];
    WalkOne(JArr(items), Index(DigitsValue(part)));
    WalkOne(JObj(fields), Index(DigitsValue(part)));
  }

  /** Any other dot-free component is a key: it finds an object's field and fails on a list. */
  lemma KeyComponentLooksUp(items: seq<Json>, fields: map<string, Json>, part: string)
    requires !IsDigits(part) && '.' !in part
    ensures GetFromPath(JObj(fields), part) == Lookup(fields, part)
    ensures GetFromPath(JArr(items), part) == None
  {
    assert Split(part, '.') == [part];
    assert PathSteps(part) == [Key(part)];
    WalkOne(JArr(items), Key(part));
    WalkOne(JObj(fields), Key(part));
  }

  // ------------------------------------------------------------------ checks

  /** The exceptions the checks let escape. */
  datatype PyError = KeyError | TypeError | AttributeError

  /** A check either returns its verdict or raises. */
  datatype Outcome = Returned(passed: bool) | Raised(error: PyError)

  /** An expected-results check: a JSON object. */
  type CheckObj = map<string, Json>

  /** `path_str.split(':', 1)` unpacked into two names; `None` when there is no ':' (a `ValueError`). */
  function SplitOnce(s: string, c: char): (r: Option<(string, string)>)
    ensures r.None? <==> c !in s
    ensures r.Some? ==> c !in r.value.0 && s == r.value.0 + [c] + r.value.1
  {
    if c in s then
      var i := FirstIndexOf(s, c);
      assert s == s[..i] + [c] + s[i + 1..];
      Some((s[..i], s[i + 1..]))
    else None
  }

  /** `_check_string_contains`. */
  function CheckStringContains(v: Validator, check: CheckObj): (r: Outcome)
    ensures "value" !in check ==> r == Raised(KeyError)
    ensures "value" in check && check["value"].JStr? ==> r == Returned(Contains(v.block, check["value"].s))
    ensures "value" in check && !check["value"].JStr? ==> r == Raised(TypeError)
  {
    match Lookup(check, "value")
    case None => Raised(KeyError)
    case Some(value) => if value.JStr? then Returned(Contains(v.block, value.s)) else Raised(TypeError)
  }

  /** The value `_check_json_value_equals` compares: a missing path is `None`, i.e. `null`. */
  function Actual(found: Option<Json>): Json
  {
    found.GetOr(JNull)
  }

  /** `_check_json_value_equals`. */
  function CheckJsonValueEquals(v: Validator, check: CheckObj, parse: string -> Option<Json>): (r: (Validator, Outcome))
    ensures r.0.block == v.block
    ensures "path" !in check || "expected" !in check ==> r == (v, Raised(KeyError))
    ensures "path" in check && "expected" in check && !check["path"].JStr? ==> r == (v, Raised(AttributeError))
    ensures "path" in check && "expected" in check && check["path"].JStr? && ':' !in check["path"].s
            ==> r == (v, Returned(false))
    ensures r.1.Returned? && r.1.passed ==> "path" in check && check["path"].JStr? && ':' in check["path"].s
  {
    match Lookup(check, "path")
    case None => (v, Raised(KeyError))
    case Some(pathValue) =>
      match Lookup(check, "expected")
      case None => (v, Raised(KeyError))
      case Some(expected) =>
        if !pathValue.JStr? then (v, Raised(AttributeError))
        else
          match SplitOnce(pathValue.s, ':')
          case None => (v, Returned(false))
          case Some((identifier, jsonPath)) =>
            var (v1, found) := FindJsonAfter(v, identifier, parse);
            if found.None? || found == Some(JNull) then (v1, Returned(false))
            else (v1, Returned(Actual(GetFromPath(found.value, StripChar(jsonPath, '.'))) == expected))
  }

  /** `check`: dispatch on the `type` field; an unknown type fails without raising. */
  function Check(v: Validator, check: CheckObj, parse: string -> Option<Json>): (r: (Validator, Outcome))
    ensures r.0.block == v.block
    ensures Lookup(check, "type") == Some(JStr("string_contains")) ==> r == (v, CheckStringContains(v, check))
    ensures Lookup(check, "type") == Some(JStr("json_value_equals")) ==> r == CheckJsonValueEquals(v, check, parse)
    ensures Lookup(check, "type") != Some(JStr("string_contains")) && Lookup(check, "type") != Some(JStr("json_value_equals"))
            ==> r == (v, Returned(false))
  {
    var checkType := Lookup(check, "type");
    if checkType == Some(JStr("string_contains")) then (v, CheckStringContains(v, check))
    else if checkType == Some(JStr("json_value_equals")) then CheckJsonValueEquals(v, check, parse)
    else (v, Returned(false))
  }

  /** A `string_contains` check passes exactly when its value occurs in the block, and changes nothing. */
  lemma StringContainsPassesIff(v: Validator, check: CheckObj, parse: string -> Option<Json>, value: string)
    requires Lookup(check, "type") == Some(JStr("string_contains")) && Lookup(check, "value") == Some(JStr(value))
    ensures Check(v, check, parse) == (v, Returned(Contains(v.block, value)))
  {
  }

  /**
   * The identifier is everything before the first ':' and the path everything
   * after it, further colons included; the block is looked up by that identifier
   * and the path walked with its surrounding dots stripped.
   */
  lemma JsonCheckSplitsAtFirstColon(v: Validator, check: CheckObj, parse: string -> Option<Json>,
                                    identifier: string, jsonPath: string)
    requires "path" in check && "expected" in check
    requires check["path"] == JStr(identifier + ":" + jsonPath) && ':' !in identifier
    ensures var (v1, found) := FindJsonAfter(v, identifier, parse);
            CheckJsonValueEquals(v, check, parse)
            == (v1, Returned(found.Some? && found != Some(JNull)
                             && Actual(GetFromPath(found.value, StripChar(jsonPath, '.'))) == check["expected"]))
  {
    var s := identifier + ":" + jsonPath;
    assert s[|identifier|] == ':' && s[..|identifier|] == identifier && s[|identifier| + 1..] == jsonPath;
    FirstIndexUnique(s, ':', |identifier|);
  }

  /** A missing path and an explicit `null` are the same to the check: `expected: null` passes for both. */
  lemma MissingPathEqualsNull(v: Validator, check: CheckObj, parse: string -> Option<Json>, identifier: string, jsonPath: string)
    requires "path" in check && "expected" in check && check["expected"] == JNull
    requires check["path"] == JStr(identifier + ":" + jsonPath) && ':' !in identifier
    requires var found := FindJsonAfter(v, identifier, parse).1;
             found.Some? && found != Some(JNull) && GetFromPath(found.value, StripChar(jsonPath, '.')).None?
    ensures CheckJsonValueEquals(v, check, parse).1 == Returned(true)
  {
    JsonCheckSplitsAtFirstColon(v, check, parse, identifier, jsonPath);
  }
}
