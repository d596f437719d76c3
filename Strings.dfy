/**
 * The Python string builtins the core relies on, over `string` (= seq<char>):
 * the ordering of `sorted()` on strings, `sorted(set)`, `str.split`, `str.join`,
 * `str.startswith`, `str.replace`, and the ASCII part of `str.title()` and
 * `str.capitalize()`.
 */
module Strings {

  // ---------------------------------------------------------------------------
  // Ordering: Python compares strings code point by code point; a proper
  // prefix sorts first.
  // ---------------------------------------------------------------------------

  predicate LexLeq(a: string, b: string)
    decreases |a|
  {
    |a| == 0 || (|b| > 0 && (a[0] < b[0] || (a[0] == b[0] && LexLeq(a[1..], b[1..]))))
  }

  predicate LexLess(a: string, b: string) {
    LexLeq(a, b) && a != b
  }

  lemma {:induction false} LexLeqReflexive(a: string)
    ensures LexLeq(a, a)
  {
    if |a| > 0 {
      LexLeqReflexive(a[1..]);
    }
  }

  lemma {:induction false} LexLeqAntisymmetric(a: string, b: string)
    requires LexLeq(a, b) && LexLeq(b, a)
    ensures a == b
  {
    if |a| > 0 {
      LexLeqAntisymmetric(a[1..], b[1..]);
      assert a == [a[0]] + a[1..] && b == [b[0]] + b[1..];
    }
  }

  lemma {:induction false} LexLeqTransitive(a: string, b: string, c: string)
    requires LexLeq(a, b) && LexLeq(b, c)
    ensures LexLeq(a, c)
  {
    if |a| > 0 && a[0] == b[0] && b[0] == c[0] {
      LexLeqTransitive(a[1..], b[1..], c[1..]);
    }
  }

  lemma {:induction false} LexLeqTotal(a: string, b: string)
    ensures LexLeq(a, b) || LexLeq(b, a)
  {
    if |a| > 0 && |b| > 0 && a[0] == b[0] {
      LexLeqTotal(a[1..], b[1..]);
    }
  }

  ghost predicate StrictlyIncreasing(s: seq<string>) {
    forall i, j :: 0 <= i < j < |s| ==> LexLess(s[i], s[j])
  }

  /** Every non-empty finite set of strings has a least element. */
  lemma {:induction false} MinimumExists(s: set<string>)
    requires s != {}
    ensures exists m :: m in s && forall y :: y in s ==> LexLeq(m, y)
  {
    var x :| x in s;
    if s == {x} {
      LexLeqReflexive(x);
      assert forall y :: y in s ==> y == x;
    } else {
      MinimumExists(s - {x});
      var m :| m in s - {x} && forall y :: y in s - {x} ==> LexLeq(m, y);
      LexLeqTotal(m, x);
      if LexLeq(m, x) {
        assert forall y :: y in s ==> LexLeq(m, y);
      } else {
        forall y | y in s
          ensures LexLeq(x, y)
        {
          if y == x {
            LexLeqReflexive(x);
          } else {
            LexLeqTransitive(x, m, y);
          }
        }
      }
    }
  }

  /**
   * `sorted(items)` for a set of strings: the members in increasing order,
   * each exactly once.
   */
  method SortedList(items: set<string>) returns (out: seq<string>)
    ensures StrictlyIncreasing(out)
    ensures forall x :: x in out <==> x in items
    ensures |out| == |items|
  {
    var rest := items;
    out := [];
    while rest != {}
      invariant rest <= items
      invariant forall x :: x in items <==> x in rest || x in out
      invariant forall i :: 0 <= i < |out| ==> out[i] !in rest
      invariant StrictlyIncreasing(out)
      invariant forall i, y :: 0 <= i < |out| && y in rest ==> LexLess(out[i], y)
      invariant |out| + |rest| == |items|
      decreases |rest|
    {
      MinimumExists(rest);
      var m :| m in rest && forall y :: y in rest ==> LexLeq(m, y);
      out := out + [m];
      rest := rest - {m};
    }
  }

  /** Two strictly increasing lists of the same strings are the same list. */
  lemma {:induction false} SortedListUnique(s: seq<string>, t: seq<string>)
    requires StrictlyIncreasing(s) && StrictlyIncreasing(t)
    requires forall x :: x in s <==> x in t
    ensures s == t
  {
    if |s| > 0 {
      assert s[0] in s;
    }
    if |t| > 0 {
      assert t[0] in t;
    }
    if |s| > 0 && |t| > 0 {
      // the first elements are both the least element of the common set
      if s[0] != t[0] {
        assert s[0] in t && t[0] in s;
        var i :| 0 <= i < |t| && t[i] == s[0];
        var j :| 0 <= j < |s| && s[j] == t[0];
        assert LexLess(t[0], s[0]);
        assert LexLess(s[0], t[0]);
        LexLeqAntisymmetric(s[0], t[0]);
      }
      forall x
        ensures x in s[1..] <==> x in t[1..]
      {
        if x in s[1..] {
          var i :| 1 <= i < |s| && s[i] == x;
          assert LexLess(s[0], x);
          assert x in s;
          var j :| 0 <= j < |t| && t[j] == x;
          assert j != 0;
          assert x == t[1..][j - 1];
        }
        if x in t[1..] {
          var i :| 1 <= i < |t| && t[i] == x;
          assert LexLess(t[0], x);
          assert x in t;
          var j :| 0 <= j < |s| && s[j] == x;
          assert j != 0;
          assert x == s[1..][j - 1];
        }
      }
      SortedListUnique(s[1..], t[1..]);
      assert s == [s[0]] + s[1..] && t == [t[0]] + t[1..];
    }
  }

  // ---------------------------------------------------------------------------
  // str.split(sep) with a one-character separator, and sep.join(parts)
  // ---------------------------------------------------------------------------

  /**
   * `s.split(sep)`: the pieces between separators, empty pieces included;
   * never an empty list, and no piece holds the separator.
   */
  function Split(s: string, sep: char): (parts: seq<string>)
    ensures |parts| >= 1
    ensures forall i :: 0 <= i < |parts| ==> sep !in parts[i]
    decreases |s|
  {
    if |s| == 0 then [""]
    else
      var rest := Split(s[1..], sep);
      if s[0] == sep then [""] + rest else [[s[0]] + rest[0]] + rest[1..]
  }

  /** `sep.join(parts)` */
  function Join(parts: seq<string>, sep: string): string
  {
    if |parts| == 0 then ""
    else if |parts| == 1 then parts[0]
    else parts[0] + sep + Join(parts[1..], sep)
  }

  /** Joining the pieces of a split gives back the string. */
  lemma {:induction false} JoinSplit(s: string, sep: char)
    ensures Join(Split(s, sep), [sep]) == s
  {
    if |s| > 0 {
      var rest := Split(s[1..], sep);
      JoinSplit(s[1..], sep);
      if s[0] == sep {
        assert Join([""] + rest, [sep]) == "" + [sep] + Join(rest, [sep]);
      } else if |rest| > 1 {
        var parts := [[s[0]] + rest[0]] + rest[1..];
        assert parts[1..] == rest[1..];
        assert Join(rest, [sep]) == rest[0] + [sep] + Join(rest[1..], [sep]);
      }
      assert s == [s[0]] + s[1..];
    }
  }

  lemma {:induction false} SplitWithoutSeparator(p: string, sep: char)
    requires sep !in p
    ensures Split(p, sep) == [p]
  {
    if |p| > 0 {
      SplitWithoutSeparator(p[1..], sep);
      assert p == [p[0]] + p[1..];
    }
  }

  lemma {:induction false} SplitAtSeparator(p: string, sep: char, t: string)
    requires sep !in p
    ensures Split(p + [sep] + t, sep) == [p] + Split(t, sep)
  {
    var s := p + [sep] + t;
    if |p| == 0 {
      assert s[1..] == t;
    } else {
      assert s[1..] == p[1..] + [sep] + t;
      SplitAtSeparator(p[1..], sep, t);
      assert p == [p[0]] + p[1..];
    }
  }

  /** Splitting a join of separator-free pieces gives back the pieces. */
  lemma {:induction false} SplitJoin(parts: seq<string>, sep: char)
    requires |parts| >= 1
    requires forall i :: 0 <= i < |parts| ==> sep !in parts[i]
    ensures Split(Join(parts, [sep]), sep) == parts
  {
    if |parts| == 1 {
      SplitWithoutSeparator(parts[0], sep);
    } else {
      SplitJoin(parts[1..], sep);
      SplitAtSeparator(parts[0], sep, Join(parts[1..], [sep]));
      assert parts == [parts[0]] + parts[1..];
    }
  }

  // ---------------------------------------------------------------------------
  // str.startswith and str.replace
  // ---------------------------------------------------------------------------

  predicate StartsWith(s: string, prefix: string) {
    |prefix| <= |s| && s[..|prefix|] == prefix
  }

  /** `s[:stop]` under Python's slice rules: a negative stop counts from the end; both ends are clamped. */
  function PyPrefix(s: string, stop: int): (r: string)
    ensures |r| <= |s| && r == s[..|r|]
    ensures 0 <= stop <= |s| ==> |r| == stop
    ensures stop < 0 ==> |r| == if |s| + stop >= 0 then |s| + stop else 0
  {
    if stop >= |s| then s
    else if stop >= 0 then s[..stop]
    else if |s| + stop >= 0 then s[..|s| + stop]
    else ""
  }

  /** `pat` occurs somewhere in `s`. */
  predicate Occurs(s: string, pat: string)
    decreases |s|
  {
    StartsWith(s, pat) || (|s| > 0 && Occurs(s[1..], pat))
  }

  /** A one-character pattern occurs exactly where that character does. */
  lemma {:induction false} OccursChar(s: string, c: char)
    ensures Occurs(s, [c]) <==> c in s
    decreases |s|
  {
    if |s| > 0 {
      OccursChar(s[1..], c);
      assert s == [s[0]] + s[1..];
    }
  }

  /** `s.replace(pat, rep)`: every non-overlapping occurrence, scanning left to right. */
  function ReplaceAll(s: string, pat: string, rep: string): string
    requires |pat| > 0
    decreases |s|
  {
    if |s| < |pat| then s
    else if s[..|pat|] == pat then rep + ReplaceAll(s[|pat|..], pat, rep)
    else [s[0]] + ReplaceAll(s[1..], pat, rep)
  }

  /** Replacing a pattern that does not occur changes nothing. */
  lemma {:induction false} ReplaceAbsent(s: string, pat: string, rep: string)
    requires |pat| > 0 && !Occurs(s, pat)
    ensures ReplaceAll(s, pat, rep) == s
  {
    if |s| >= |pat| {
      ReplaceAbsent(s[1..], pat, rep);
      assert s == [s[0]] + s[1..];
    }
  }

  /** Replacing one character by another keeps the length and maps position by position. */
  lemma {:induction false} ReplaceCharAt(s: string, a: char, b: char)
    ensures |ReplaceAll(s, [a], [b])| == |s|
    ensures forall i :: 0 <= i < |s| ==>
      ReplaceAll(s, [a], [b])[i] == if s[i] == a then b else s[i]
  {
    if |s| > 0 {
      ReplaceCharAt(s[1..], a, b);
      var r := ReplaceAll(s, [a], [b]);
      var rest := ReplaceAll(s[1..], [a], [b]);
      assert r == [if s[0] == a then b else s[0]] + rest;
      forall i | 0 <= i < |s|
        ensures r[i] == if s[i] == a then b else s[i]
      {
        if i > 0 {
          assert r[i] == rest[i - 1] && s[i] == s[1..][i - 1];
        }
      }
    }
  }

  // ---------------------------------------------------------------------------
  // ASCII letter case: str.title() and str.capitalize()
  // ---------------------------------------------------------------------------

  predicate IsUpper(c: char) { 'A' <= c <= 'Z' }
  predicate IsLower(c: char) { 'a' <= c <= 'z' }
  predicate IsCased(c: char) { IsUpper(c) || IsLower(c) }

  function ToUpper(c: char): (u: char)
    ensures IsCased(u) == IsCased(c)
  {
    if IsLower(c) then (c as int - 32) as char else c
  }

  function ToLower(c: char): (l: char)
    ensures IsCased(l) == IsCased(c)
  {
    if IsUpper(c) then (c as int + 32) as char else c
  }

  function LowerAll(s: string): (r: string)
    ensures |r| == |s|
    ensures forall i :: 0 <= i < |s| ==> r[i] == ToLower(s[i])
  {
    seq(|s|, i requires 0 <= i < |s| => ToLower(s[i]))
  }

  /** What `title()` makes of the character `c`, given whether the character before it is cased. */
  function TitleChar(c: char, afterCased: bool): (d: char)
    ensures IsCased(d) == IsCased(c)
  {
    if !IsCased(c) then c else if afterCased then ToLower(c) else ToUpper(c)
  }

  /** `title()` from a position whose predecessor was cased (`prevCased`) or not. */
  function TitleFrom(s: string, prevCased: bool): (r: string)
    ensures |r| == |s|
    decreases |s|
  {
    if |s| == 0 then ""
    else [TitleChar(s[0], prevCased)] + TitleFrom(s[1..], IsCased(s[0]))
  }

  /** `s.title()`: each cased letter after an uncased character is upper case, every other one lower case. */
  function Title(s: string): string {
    TitleFrom(s, false)
  }

  /** Position by position, what `title()` does. */
  lemma {:induction false} TitleAt(s: string, prevCased: bool)
    ensures forall i :: 0 <= i < |s| ==>
      TitleFrom(s, prevCased)[i] == TitleChar(s[i], if i == 0 then prevCased else IsCased(s[i - 1]))
  {
    if |s| > 0 {
      TitleAt(s[1..], IsCased(s[0]));
      var r := TitleFrom(s, prevCased);
      var tail := TitleFrom(s[1..], IsCased(s[0]));
      assert r == [TitleChar(s[0], prevCased)] + tail;
      forall i | 1 <= i < |s|
        ensures r[i] == TitleChar(s[i], IsCased(s[i - 1]))
      {
        assert r[i] == tail[i - 1];
        assert s[i] == s[1..][i - 1];
        if i > 1 {
          assert s[i - 1] == s[1..][i - 2];
        }
      }
    }
  }

  /** `title()` is idempotent. */
  lemma {:induction false} TitleIdempotent(s: string, prevCased: bool)
    ensures TitleFrom(TitleFrom(s, prevCased), prevCased) == TitleFrom(s, prevCased)
  {
    if |s| > 0 {
      var r := TitleFrom(s, prevCased);
      TitleIdempotent(s[1..], IsCased(s[0]));
      assert r[1..] == TitleFrom(s[1..], IsCased(s[0]));
      assert IsCased(r[0]) == IsCased(s[0]);
      assert TitleChar(TitleChar(s[0], prevCased), prevCased) == TitleChar(s[0], prevCased);
    }
  }

  /** `s.capitalize()`: first character upper case, the rest lower case. */
  function Capitalize(s: string): (r: string)
    ensures |r| == |s|
    ensures |s| > 0 ==> r[0] == ToUpper(s[0])
    ensures forall i :: 1 <= i < |s| ==> r[i] == ToLower(s[i])
  {
    if |s| == 0 then "" else [ToUpper(s[0])] + LowerAll(s[1..])
  }
}
