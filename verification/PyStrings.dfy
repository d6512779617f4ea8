/**
 * The parts of Python's `str` and slice semantics the tutoring code relies on:
 * `strip()`, `strip(c)`, `lower()`, `isdigit()`, `split()`, `split(c)`,
 * `sub in s`, `s.index(sub, start)` and `xs[k:]` with a negative `k`.
 * Strings are sequences of code points (`seq<char>`).
 */
module PyStrings {
  import opened Options

  // ---------------------------------------------------------------- whitespace

  /**
   * The characters for which Python's `str.isspace()` holds: the ASCII
   * controls 0x09-0x0D and 0x1C-0x1F, the space, NEL, NBSP, and the Unicode
   * space separators and line/paragraph separators.
   */
  predicate IsSpace(c: char)
  {
    || '\U{0009}' <= c <= '\U{000D}'
    || '\U{001C}' <= c <= '\U{0020}'
    || c == '\U{0085}' || c == '\U{00A0}' || c == '\U{1680}'
    || '\U{2000}' <= c <= '\U{200A}'
    || c == '\U{2028}' || c == '\U{2029}' || c == '\U{202F}' || c == '\U{205F}' || c == '\U{3000}'
  }

  predicate AllSpace(s: string)
  {
    forall i :: 0 <= i < |s| ==> IsSpace(s[i])
  }

  /** `s.lstrip()`: the suffix of `s` left after dropping leading whitespace. */
  function LStrip(s: string): (r: string)
    ensures |r| <= |s| && r == s[|s| - |r|..]
    ensures AllSpace(s[..|s| - |r|])
    ensures |r| > 0 ==> !IsSpace(r[0])
  {
    if |s| > 0 && IsSpace(s[0]) then LStrip(s[1..]) else s
  }

  /** `s.rstrip()`: the prefix of `s` left after dropping trailing whitespace. */
  function RStrip(s: string): (r: string)
    ensures |r| <= |s| && r == s[..|r|]
    ensures AllSpace(s[|r|..])
    ensures |r| > 0 ==> !IsSpace(r[|r| - 1])
  {
    if |s| > 0 && IsSpace(s[|s| - 1]) then RStrip(s[..|s| - 1]) else s
  }

  /** `s.strip()`: `s` without leading and trailing whitespace. */
  function Strip(s: string): (r: string)
    ensures |r| <= |s|
    ensures |r| > 0 ==> !IsSpace(r[0]) && !IsSpace(r[|r| - 1])
  {
    RStrip(LStrip(s))
  }

  /** `s.strip()` is the slice `s[m..m + |s.strip()|]` for some `m`. */
  lemma StripIsSlice(s: string) returns (m: nat)
    ensures m + |Strip(s)| <= |s| && Strip(s) == s[m..m + |Strip(s)|]
  {
    m := |s| - |LStrip(s)|;
    assert s[m..][..|Strip(s)|] == s[m..m + |Strip(s)|];
  }

  /** A slice `t` of the prefix `p == s[..k]` is the same slice of `s`. */
  lemma SliceOfPrefix(s: string, k: nat, p: string, lo: nat, hi: nat, t: string)
    requires k <= |s| && p == s[..k] && lo <= hi <= k && t == p[lo..hi]
    ensures t == s[lo..hi]
  {
  }

  /** The stripped prefix `s[..k].strip()` is the slice `s[m..m + |s[..k].strip()|]` for some `m`. */
  lemma StripOfPrefixIsSlice(s: string, k: nat) returns (m: nat)
    requires k <= |s|
    ensures m + |Strip(s[..k])| <= k && Strip(s[..k]) == s[m..m + |Strip(s[..k])|]
  {
    var p := s[..k];
    m := StripIsSlice(p);
    SliceOfPrefix(s, k, p, m, m + |Strip(p)|, Strip(p));
  }

  lemma {:induction false} LStripSkipsSpace(ws: string, t: string)
    requires AllSpace(ws)
    ensures LStrip(ws + t) == LStrip(t)
    decreases |ws|
  {
    if |ws| > 0 {
      assert (ws + t)[1..] == ws[1..] + t;
      LStripSkipsSpace(ws[1..], t);
    } else {
      assert ws + t == t;
    }
  }

  lemma {:induction false} RStripSkipsSpace(t: string, ws: string)
    requires AllSpace(ws)
    ensures RStrip(t + ws) == RStrip(t)
    decreases |ws|
  {
    if |ws| > 0 {
      assert (t + ws)[..|t + ws| - 1] == t + ws[..|ws| - 1];
      RStripSkipsSpace(t, ws[..|ws| - 1]);
    } else {
      assert t + ws == t;
    }
  }

  /** Leading whitespace of `t` is stripped the same way when more text follows. */
  lemma {:induction false} LStripAppend(t: string, ws: string)
    requires !AllSpace(t)
    ensures LStrip(t + ws) == LStrip(t) + ws
    decreases |t|
  {
    if IsSpace(t[0]) {
      assert (t + ws)[1..] == t[1..] + ws;
      assert !AllSpace(t[1..]) by {
        var i :| 0 <= i < |t| && !IsSpace(t[i]);
        assert t[1..][i - 1] == t[i];
      }
      LStripAppend(t[1..], ws);
    }
  }

  lemma {:induction false} AllSpaceStripsToEmpty(s: string)
    requires AllSpace(s)
    ensures LStrip(s) == []
  {
    if |s| > 0 {
      AllSpaceStripsToEmpty(s[1..]);
    }
  }

  /** Surrounding whitespace never changes the result of `strip()`. */
  lemma StripIgnoresPadding(ws1: string, s: string, ws2: string)
    requires AllSpace(ws1) && AllSpace(ws2)
    ensures Strip(ws1 + s + ws2) == Strip(s)
  {
    assert ws1 + s + ws2 == ws1 + (s + ws2);
    LStripSkipsSpace(ws1, s + ws2);
    if AllSpace(s) {
      assert AllSpace(s + ws2) by {
        forall i | 0 <= i < |s + ws2| ensures IsSpace((s + ws2)[i]) {
          if i < |s| { assert (s + ws2)[i] == s[i]; } else { assert (s + ws2)[i] == ws2[i - |s|]; }
        }
      }
      AllSpaceStripsToEmpty(s + ws2);
      AllSpaceStripsToEmpty(s);
    } else {
      LStripAppend(s, ws2);
      RStripSkipsSpace(LStrip(s), ws2);
    }
  }

  /** A string with no whitespace at either end is its own `strip()`. */
  lemma StripOfTrimmed(s: string)
    requires |s| > 0 ==> !IsSpace(s[0]) && !IsSpace(s[|s| - 1])
    ensures Strip(s) == s
  {
  }

  /** `s.lstrip(c)`: the suffix of `s` left after dropping leading copies of `c`. */
  function LStripChar(s: string, c: char): (r: string)
    ensures |r| <= |s| && r == s[|s| - |r|..]
    ensures forall i :: 0 <= i < |s| - |r| ==> s[i] == c
    ensures |r| > 0 ==> r[0] != c
  {
    if |s| > 0 && s[0] == c then
      var r := LStripChar(s[1..], c);
      assert s[1..][|s| - 1 - |r|..] == s[|s| - |r|..];
      r
    else s
  }

  /** `s.rstrip(c)`: the prefix of `s` left after dropping trailing copies of `c`. */
  function RStripChar(s: string, c: char): (r: string)
    ensures |r| <= |s| && r == s[..|r|]
    ensures forall i :: |r| <= i < |s| ==> s[i] == c
    ensures |r| > 0 ==> r[|r| - 1] != c
  {
    if |s| > 0 && s[|s| - 1] == c then RStripChar(s[..|s| - 1], c) else s
  }

  /** `s.strip(c)` for a single character `c`, as in `path.strip('.')`. */
  function StripChar(s: string, c: char): (r: string)
    ensures |r| <= |s|
    ensures |r| > 0 ==> r[0] != c && r[|r| - 1] != c
  {
    RStripChar(LStripChar(s, c), c)
  }

  // --------------------------------------------------------------- case, digits

  /** `c.lower()` for ASCII letters; other characters are left as they are. */
  function LowerChar(c: char): char
  {
    if 'A' <= c <= 'Z' then (c as int + 32) as char else c
  }

  /** `s.lower()`, ASCII letters only. */
  function Lower(s: string): (r: string)
    ensures |r| == |s|
    ensures forall i :: 0 <= i < |s| ==> r[i] == LowerChar(s[i])
  {
    seq(|s|, i requires 0 <= i < |s| => LowerChar(s[i]))
  }

  predicate IsDigitChar(c: char)
  {
    '0' <= c <= '9'
  }

  /** `s.isdigit()` over ASCII digits: non-empty and digits only. */
  predicate IsDigits(s: string)
  {
    |s| > 0 && forall i :: 0 <= i < |s| ==> IsDigitChar(s[i])
  }

  /** The decimal value of a string of ASCII digits. */
  function DigitsValue(s: string): nat
    requires forall i :: 0 <= i < |s| ==> IsDigitChar(s[i])
  {
    if |s| == 0 then 0
    else
      assert IsDigitChar(s[|s| - 1]);
      DigitsValue(s[..|s| - 1]) * 10 + (s[|s| - 1] as int - '0' as int)
  }

  /** Python's `int(s)` for a decimal literal: surrounding whitespace, an optional sign, digits. */
  function ParseInt(s: string): (r: Option<int>)
    ensures r.Some? ==> |Strip(s)| > 0
  {
    var t := Strip(s);
    if |t| > 0 && (t[0] == '+' || t[0] == '-') && IsDigits(t[1..]) then
      var magnitude: int := DigitsValue(t[1..]);
      Some(if t[0] == '-' then -magnitude else magnitude)
    else if IsDigits(t) then Some(DigitsValue(t))
    else None
  }

  // ------------------------------------------------------------------ substrings

  /** `t` occurs in `s` starting at index `k`. */
  predicate Occurs(s: string, t: string, k: int)
  {
    0 <= k && k + |t| <= |s| && s[k..k + |t|] == t
  }

  /** `s.find(t, start)`: the first index at or after `start` where `t` occurs. */
  function IndexFrom(s: string, t: string, start: nat): (r: Option<nat>)
    ensures r.Some? ==> start <= r.value && r.value + |t| <= |s| && Occurs(s, t, r.value)
    ensures r.Some? ==> forall k :: start <= k < r.value ==> !Occurs(s, t, k)
    ensures r.None? ==> forall k :: start <= k ==> !Occurs(s, t, k)
    decreases |s| - start
  {
    if start + |t| > |s| then None
    else if s[start..start + |t|] == t then Some(start)
    else IndexFrom(s, t, start + 1)
  }

  /** Python's `t in s`. */
  predicate Contains(s: string, t: string)
  {
    IndexFrom(s, t, 0).Some?
  }

  lemma OccursContains(s: string, t: string, k: int)
    requires Occurs(s, t, k)
    ensures Contains(s, t)
  {
  }

  /** An occurrence inside a slice is an occurrence in the whole string. */
  lemma OccursInSlice(s: string, lo: nat, hi: nat, t: string, k: int)
    requires lo <= hi <= |s|
    requires Occurs(s[lo..hi], t, k)
    ensures Occurs(s, t, lo + k)
  {
    assert s[lo..hi][k..k + |t|] == t;
    assert s[lo + k..lo + k + |t|] == t by {
      forall j | 0 <= j < |t| ensures s[lo + k..lo + k + |t|][j] == t[j] {
        assert s[lo..hi][k..k + |t|][j] == s[lo + k + j];
      }
    }
  }

  /** An occurrence inside a suffix is an occurrence in the whole string. */
  lemma OccursInSuffix(s: string, lo: nat, t: string, k: int)
    requires lo <= |s|
    requires Occurs(s[lo..], t, k)
    ensures Occurs(s, t, lo + k)
  {
    assert s[lo..] == s[lo..|s|];
    OccursInSlice(s, lo, |s|, t, k);
  }

  /** `c in s` for a single character: the first index of `c`. */
  function FirstIndexOf(s: string, c: char): (r: nat)
    requires c in s
    ensures r < |s| && s[r] == c && c !in s[..r]
  {
    if s[0] == c then 0
    else
      var r := FirstIndexOf(s[1..], c);
      assert s[..r + 1] == [s[0]] + s[1..][..r];
      r + 1
  }

  // --------------------------------------------------------------------- split

  /** `s.split(c)`: the pieces between occurrences of `c` (always at least one). */
  function Split(s: string, c: char): (r: seq<string>)
    ensures |r| >= 1
    ensures forall i :: 0 <= i < |r| ==> c !in r[i]
    decreases |s|
  {
    if c !in s then [s]
    else
      var i := FirstIndexOf(s, c);
      [s[..i]] + Split(s[i + 1..], c)
  }

  /** `c.join(parts)`. */
  function Join(parts: seq<string>, c: char): string
  {
    if |parts| == 0 then []
    else if |parts| == 1 then parts[0]
    else parts[0] + [c] + Join(parts[1..], c)
  }

  /** Splitting and re-joining at the same separator gives back the string. */
  lemma {:induction false} SplitJoin(s: string, c: char)
    ensures Join(Split(s, c), c) == s
    decreases |s|
  {
    if c in s {
      var i := FirstIndexOf(s, c);
      SplitJoin(s[i + 1..], c);
      JoinCons(s[..i], Split(s[i + 1..], c), c);
      SliceAround(s, i);
    }
  }

  /** Joining a piece in front of a non-empty piece list puts one separator between them. */
  lemma JoinCons(x: string, rest: seq<string>, c: char)
    requires |rest| >= 1
    ensures Join([x] + rest, c) == x + [c] + Join(rest, c)
  {
    assert ([x] + rest)[0] == x;
    assert ([x] + rest)[1..] == rest;
  }

  /** A string is its prefix, the character at `i` and its suffix, put back together. */
  lemma SliceAround(s: string, i: nat)
    requires i < |s|
    ensures s[..i] + [s[i]] + s[i + 1..] == s
  {
  }

  /** The first index of `c` is the one index before which `c` does not occur. */
  lemma {:induction false} FirstIndexUnique(s: string, c: char, i: nat)
    requires i < |s| && s[i] == c && c !in s[..i]
    ensures FirstIndexOf(s, c) == i
    decreases i
  {
    if i > 0 {
      assert s[0] == s[..i][0];
      assert s[1..][..i - 1] == s[1..i];
      assert forall j :: 0 <= j < i - 1 ==> s[1..i][j] == s[..i][j + 1];
      FirstIndexUnique(s[1..], c, i - 1);
    }
  }

  /** Splitting at the first separator, found by any means. */
  lemma SplitAt(s: string, c: char, i: nat)
    requires i < |s| && s[i] == c && c !in s[..i]
    ensures Split(s, c) == [s[..i]] + Split(s[i + 1..], c)
  {
    FirstIndexUnique(s, c, i);
  }

  /** Splitting `a.b` gives the pieces of `a` followed by the pieces of `b`. */
  lemma {:induction false} SplitConcat(a: string, c: char, b: string)
    ensures Split(a + [c] + b, c) == Split(a, c) + Split(b, c)
    decreases |a|
  {
    if c in a {
      var i := FirstIndexOf(a, c);
      SplitJoinedInLeft(a, c, b, i);
      SplitConcat(a[i + 1..], c, b);
      calc {
        Split(a + [c] + b, c);
        [a[..i]] + Split(a[i + 1..] + [c] + b, c);
        [a[..i]] + (Split(a[i + 1..], c) + Split(b, c));
        { ConsAppend(a[..i], Split(a[i + 1..], c), Split(b, c)); }
        ([a[..i]] + Split(a[i + 1..], c)) + Split(b, c);
      }
    } else {
      SplitJoinedAfterLeft(a, c, b);
    }
  }

  /** Regrouping a piece list, kept apart from the pieces' own postconditions. */
  lemma ConsAppend(x: string, y: seq<string>, z: seq<string>)
    ensures [x] + (y + z) == ([x] + y) + z
  {
  }

  /** When `a` holds a separator at `i`, both `a` and `a.b` lose the same first piece there. */
  lemma SplitJoinedInLeft(a: string, c: char, b: string, i: nat)
    requires i < |a| && a[i] == c && c !in a[..i]
    ensures Split(a + [c] + b, c) == [a[..i]] + Split(a[i + 1..] + [c] + b, c)
    ensures Split(a, c) == [a[..i]] + Split(a[i + 1..], c)
  {
    var s := a + [c] + b;
    assert s[..i] == a[..i];
    assert s[i + 1..] == a[i + 1..] + [c] + b;
    SplitAt(s, c, i);
    SplitAt(a, c, i);
  }

  /** When `a` has no separator, the joining one ends the first piece of `a.b`. */
  lemma SplitJoinedAfterLeft(a: string, c: char, b: string)
    requires c !in a
    ensures Split(a + [c] + b, c) == [a] + Split(b, c)
  {
    var s := a + [c] + b;
    assert s[..|a|] == a;
    assert s[|a| + 1..] == b;
    SplitAt(s, c, |a|);
  }

  // --------------------------------------------------------------- split()

  /** The first index at or after `i` that does not hold whitespace (or `|s|`). */
  function SkipSpace(s: string, i: nat): (r: nat)
    requires i <= |s|
    ensures i <= r <= |s|
    ensures r < |s| ==> !IsSpace(s[r])
    decreases |s| - i
  {
    if i < |s| && IsSpace(s[i]) then SkipSpace(s, i + 1) else i
  }

  /** The first index at or after `i` that holds whitespace (or `|s|`). */
  function WordEnd(s: string, i: nat): (r: nat)
    requires i <= |s|
    ensures i <= r <= |s|
    ensures forall j :: i <= j < r ==> !IsSpace(s[j])
    decreases |s| - i
  {
    if i < |s| && !IsSpace(s[i]) then WordEnd(s, i + 1) else i
  }

  /** The words of `s[i..]`, each one a slice `s[a..b]` of maximal non-whitespace run. */
  function WordsFrom(s: string, i: nat): (r: seq<string>)
    requires i <= |s|
    ensures forall j :: 0 <= j < |r| ==> |r[j]| > 0
    decreases |s| - i
  {
    var a := SkipSpace(s, i);
    if a == |s| then []
    else
      var b := WordEnd(s, a);
      [s[a..b]] + WordsFrom(s, b)
  }

  /** `s.split()`: the maximal runs of non-whitespace characters, in order. */
  function Words(s: string): (r: seq<string>)
    ensures forall j :: 0 <= j < |r| ==> |r[j]| > 0
  {
    WordsFrom(s, 0)
  }

  /** Every word of `s[i..]` occurs in `s`; `k` is where the `n`-th one starts. */
  lemma {:induction false} WordFromOccurs(s: string, i: nat, n: nat) returns (k: nat)
    requires i <= |s| && n < |WordsFrom(s, i)|
    ensures Occurs(s, WordsFrom(s, i)[n], k)
    decreases |s| - i
  {
    var a := SkipSpace(s, i);
    var b := WordEnd(s, a);
    assert WordsFrom(s, i) == [s[a..b]] + WordsFrom(s, b);
    if n == 0 {
      k := a;
    } else {
      assert WordsFrom(s, i)[n] == WordsFrom(s, b)[n - 1];
      k := WordFromOccurs(s, b, n - 1);
    }
  }

  /** Every word of `s` occurs in `s`. */
  lemma WordsOccur(s: string, n: nat)
    requires n < |Words(s)|
    ensures Contains(s, Words(s)[n])
  {
    var k := WordFromOccurs(s, 0, n);
    OccursContains(s, Words(s)[n], k);
  }

  // --------------------------------------------------------------- slicing

  /** The start index Python uses for `xs[k:]` on a sequence of length `len`. */
  function SliceStart(k: int, len: nat): (r: nat)
    ensures r <= len
    ensures k >= 0 ==> r == if k < len then k else len
    ensures k < 0 ==> r == if len + k < 0 then 0 else len + k
  {
    if k >= 0 then (if k < len then k else len)
    else (if len + k < 0 then 0 else len + k)
  }
}
