/** The string operations the SQL rewriting relies on, with Python's meaning: `p in s`,
    `s.count(p)` and `s.replace(p, q)` (non-overlapping occurrences, left to right),
    `s.split(c)`, `c.join(parts)` and an ASCII `s.upper()`. */
module SqlText {

  predicate StartsWith(s: string, p: string) {
    |p| <= |s| && s[..|p|] == p
  }

  /** `p in s`. */
  predicate Contains(s: string, p: string)
    decreases |s|
  {
    StartsWith(s, p) || (s != [] && Contains(s[1..], p))
  }

  /** `s.count(p)` for a non-empty `p`. */
  function Count(s: string, p: string): nat
    requires |p| > 0
    decreases |s|
  {
    if |s| < |p| then 0
    else if StartsWith(s, p) then 1 + Count(s[|p|..], p)
    else Count(s[1..], p)
  }

  /** `s.replace(p, q)` for a non-empty `p`. */
  function Replace(s: string, p: string, q: string): string
    requires |p| > 0
    decreases |s|
  {
    if |s| < |p| then s
    else if StartsWith(s, p) then q + Replace(s[|p|..], p, q)
    else [s[0]] + Replace(s[1..], p, q)
  }

  lemma {:induction false} ContainsFits(s: string, p: string)
    requires Contains(s, p)
    ensures |p| <= |s|
    decreases |s|
  {
    if !StartsWith(s, p) {
      ContainsFits(s[1..], p);
    }
  }

  /** `count` finds an occurrence exactly when `in` does. */
  lemma {:induction false} CountPositiveIffContains(s: string, p: string)
    requires |p| > 0
    ensures Count(s, p) > 0 <==> Contains(s, p)
    decreases |s|
  {
    if s != [] && !StartsWith(s, p) {
      CountPositiveIffContains(s[1..], p);
      if Contains(s[1..], p) {
        ContainsFits(s[1..], p);
      }
    }
  }

  /** Replacing a pattern that does not occur changes nothing. */
  lemma {:induction false} ReplaceAbsent(s: string, p: string, q: string)
    requires |p| > 0 && !Contains(s, p)
    ensures Replace(s, p, q) == s
    decreases |s|
  {
    if |s| >= |p| {
      ReplaceAbsent(s[1..], p, q);
      assert [s[0]] + s[1..] == s;
    }
  }

  /** Replacing with a longer text adds at least one character per occurrence. */
  lemma {:induction false} ReplaceLength(s: string, p: string, q: string)
    requires 0 < |p| < |q|
    ensures |Replace(s, p, q)| >= |s| + Count(s, p)
    decreases |s|
  {
    if |s| >= |p| {
      if StartsWith(s, p) {
        ReplaceLength(s[|p|..], p, q);
      } else {
        ReplaceLength(s[1..], p, q);
      }
    }
  }

  /** Replacing with a longer text changes the string exactly when the pattern occurs. */
  lemma ReplaceChangesIffContains(s: string, p: string, q: string)
    requires 0 < |p| < |q|
    ensures Replace(s, p, q) != s <==> Contains(s, p)
    ensures Contains(s, p) ==> |Replace(s, p, q)| > |s|
  {
    ReplaceLength(s, p, q);
    CountPositiveIffContains(s, p);
    if !Contains(s, p) {
      ReplaceAbsent(s, p, q);
    }
  }

  /** Neither text having the character, the replacement does not introduce it. */
  lemma {:induction false} ReplaceKeepsOut(s: string, p: string, q: string, c: char)
    requires |p| > 0 && c !in s && c !in q
    ensures c !in Replace(s, p, q)
    decreases |s|
  {
    if |s| >= |p| {
      if StartsWith(s, p) {
        ReplaceKeepsOut(s[|p|..], p, q, c);
      } else {
        ReplaceKeepsOut(s[1..], p, q, c);
      }
    }
  }

  // ---------------------------------------------------------------------------
  // split and join

  /** `s.split(sep)`: always at least one part, and no part contains `sep`. */
  function Split(s: string, sep: char): (parts: seq<string>)
    ensures |parts| >= 1
    ensures forall i :: 0 <= i < |parts| ==> sep !in parts[i]
    decreases |s|
  {
    if s == [] then [""]
    else
      var rest := Split(s[1..], sep);
      if s[0] == sep then [""] + rest
      else [[s[0]] + rest[0]] + rest[1..]
  }

  /** `sep.join(parts)`. */
  function Join(parts: seq<string>, sep: string): string
    decreases |parts|
  {
    if parts == [] then ""
    else if |parts| == 1 then parts[0]
    else parts[0] + sep + Join(parts[1..], sep)
  }

  /** Joining the parts of a split gives the text back. */
  lemma {:induction false} JoinSplit(s: string, sep: char)
    ensures Join(Split(s, sep), [sep]) == s
    decreases |s|
  {
    if s != [] {
      var rest := Split(s[1..], sep);
      JoinSplit(s[1..], sep);
      if s[0] == sep {
        assert ([""] + rest)[1..] == rest;
      } else {
        var parts := [[s[0]] + rest[0]] + rest[1..];
        if |rest| > 1 {
          assert parts[1..] == rest[1..];
          assert Join(rest, [sep]) == rest[0] + [sep] + Join(rest[1..], [sep]);
        }
      }
    }
  }

  lemma {:induction false} SplitWithout(s: string, sep: char)
    requires sep !in s
    ensures Split(s, sep) == [s]
    decreases |s|
  {
    if s != [] {
      SplitWithout(s[1..], sep);
      assert [s[0]] + s[1..] == s;
    }
  }

  lemma {:induction false} SplitAt(a: string, b: string, sep: char)
    requires sep !in a
    ensures Split(a + [sep] + b, sep) == [a] + Split(b, sep)
    decreases |a|
  {
    if a == [] {
      assert a + [sep] + b == [sep] + b;
      assert ([sep] + b)[1..] == b;
    } else {
      SplitAt(a[1..], b, sep);
      assert (a + [sep] + b)[1..] == a[1..] + [sep] + b;
      assert [a[0]] + a[1..] == a;
    }
  }

  /** Splitting the join of parts that do not contain the separator gives the parts back. */
  lemma {:induction false} SplitJoin(parts: seq<string>, sep: char)
    requires |parts| >= 1
    requires forall i :: 0 <= i < |parts| ==> sep !in parts[i]
    ensures Split(Join(parts, [sep]), sep) == parts
    decreases |parts|
  {
    if |parts| == 1 {
      SplitWithout(parts[0], sep);
    } else {
      SplitJoin(parts[1..], sep);
      SplitAt(parts[0], Join(parts[1..], [sep]), sep);
      assert [parts[0]] + parts[1..] == parts;
    }
  }

  // ---------------------------------------------------------------------------
  // upper

  /** `str.upper()` on ASCII letters; every other character is left as it is. */
  function UpperChar(ch: char): char {
    if 'a' <= ch <= 'z' then (ch as int - 32) as char else ch
  }

  function Upper(s: string): (u: string)
    ensures |u| == |s|
  {
    seq(|s|, i requires 0 <= i < |s| => UpperChar(s[i]))
  }
}
