/** correcao_sql_v2.py: the rewriting of ambiguous SQL column references in the
    application's source text. A first pass replaces seven known query fragments
    everywhere; a second pass, line by line, prefixes the join columns of lines that
    look like part of a JOIN query. Both report what they changed. */
module SqlFix {
  import opened SqlText
  import Store

  /** One entry of the first pass's list: the fragment, its replacement and the text of
      the report entry. */
  datatype Fix = Fix(find: string, replace: string, description: string)

  /** One report entry. The message formatting is not modelled: an entry keeps the
      values the message is built from. */
  datatype Correction =
    | Specific(description: string, count: nat)
    | Prefixed(line: nat, find: string, replace: string)

  const SpecificFixes: seq<Fix> := [
    Fix("WHERE grupo_id", "WHERE d.grupo_id", "Corrigir WHERE grupo_id para d.grupo_id"),
    Fix("AND grupo_id", "AND d.grupo_id", "Corrigir AND grupo_id para d.grupo_id"),
    Fix("ORDER BY grupo_id", "ORDER BY d.grupo_id", "Corrigir ORDER BY grupo_id para d.grupo_id"),
    Fix("GROUP BY grupo_id", "GROUP BY d.grupo_id", "Corrigir GROUP BY grupo_id para d.grupo_id"),
    Fix("WHERE user_id", "WHERE d.user_id", "Corrigir WHERE user_id para d.user_id"),
    Fix("AND user_id", "AND d.user_id", "Corrigir AND user_id para d.user_id"),
    Fix("ORDER BY user_id", "ORDER BY d.user_id", "Corrigir ORDER BY user_id para d.user_id")
  ]

  /** The second pass's substitutions, in the dictionary's insertion order. */
  const Substitutions: seq<(string, string)> := [
    ("ON grupo_id = ", "ON d.grupo_id = "),
    ("ON user_id = ", "ON d.user_id = "),
    ("= grupo_id", "= d.grupo_id"),
    ("= user_id", "= d.user_id")
  ]

  const AmbiguousColumns: seq<string> := ["grupo_id", "user_id", "categoria_id"]

  /** Every fragment is non-empty and its replacement strictly longer (the replacements
      only insert a table prefix). */
  predicate Lengthening(fixes: seq<Fix>) {
    forall k :: 0 <= k < |fixes| ==> 0 < |fixes[k].find| < |fixes[k].replace|
  }

  predicate LengtheningPairs(subs: seq<(string, string)>) {
    forall k :: 0 <= k < |subs| ==> 0 < |subs[k].0| < |subs[k].1| && '\n' !in subs[k].1
  }

  lemma ConstantsLengthen()
    ensures Lengthening(SpecificFixes)
    ensures LengtheningPairs(Substitutions)
  {
  }

  // ---------------------------------------------------------------------------
  // corrigir_consultas_especificas

  /** The fixes applied in order to the running text: each fragment that occurs at its
      turn is replaced everywhere and reported once with its occurrence count. */
  function ApplyFixes(s: string, fixes: seq<Fix>): (string, seq<Correction>)
    requires Lengthening(fixes)
    decreases |fixes|
  {
    if fixes == [] then (s, [])
    else
      var (t, cs) := ApplyFixes(s, fixes[..|fixes| - 1]);
      var f := fixes[|fixes| - 1];
      if Contains(t, f.find) then (Replace(t, f.find, f.replace), cs + [Specific(f.description, Count(t, f.find))])
      else (t, cs)
  }

  /** The pass's return value: the new text and the report, or `(None, [])`. */
  function SpecificPass(content: string): (Store.Option<string>, seq<Correction>) {
    ConstantsLengthen();
    var (t, cs) := ApplyFixes(content, SpecificFixes);
    if cs != [] then (Store.Some(t), cs) else (Store.None, [])
  }

  method FixSpecificQueries(content: string) returns (result: Store.Option<string>, corrections: seq<Correction>)
    ensures (result, corrections) == SpecificPass(content)
  {
    ConstantsLengthen();
    corrections := [];
    var text := content;
    var i := 0;
    while i < |SpecificFixes|
      invariant 0 <= i <= |SpecificFixes|
      invariant (text, corrections) == ApplyFixes(content, SpecificFixes[..i])
    {
      var f := SpecificFixes[i];
      if Contains(text, f.find) {
        var count := Count(text, f.find);
        text := Replace(text, f.find, f.replace);
        corrections := corrections + [Specific(f.description, count)];
      }
      assert SpecificFixes[..i + 1][..i] == SpecificFixes[..i];
      i := i + 1;
    }
    assert SpecificFixes[..i] == SpecificFixes;
    if corrections != [] {
      result := Store.Some(text);
    } else {
      result := Store.None;
    }
  }

  /** The text is left as it was exactly when nothing is reported; otherwise it grew. Every
      entry reports a positive count, and there is at most one entry per fix. */
  lemma {:induction false} ApplyFixesFacts(s: string, fixes: seq<Fix>)
    requires Lengthening(fixes)
    ensures var (t, cs) := ApplyFixes(s, fixes);
      && (cs == [] ==> t == s)
      && (cs != [] ==> |t| > |s|)
      && |cs| <= |fixes|
      && (forall k :: 0 <= k < |cs| ==> cs[k].Specific? && cs[k].count > 0)
    decreases |fixes|
  {
    if fixes != [] {
      var init := fixes[..|fixes| - 1];
      ApplyFixesFacts(s, init);
      var (t, cs) := ApplyFixes(s, init);
      var f := fixes[|fixes| - 1];
      if Contains(t, f.find) {
        ReplaceLength(t, f.find, f.replace);
        CountPositiveIffContains(t, f.find);
      }
    }
  }

  /** The pass reports nothing exactly when none of the fragments occurs in the input. */
  lemma {:induction false} ApplyFixesNoneIff(s: string, fixes: seq<Fix>)
    requires Lengthening(fixes)
    ensures ApplyFixes(s, fixes).1 == [] <==> forall k :: 0 <= k < |fixes| ==> !Contains(s, fixes[k].find)
    decreases |fixes|
  {
    if fixes != [] {
      var init := fixes[..|fixes| - 1];
      ApplyFixesNoneIff(s, init);
      ApplyFixesFacts(s, init);
      var (t, cs) := ApplyFixes(s, init);
      if cs == [] {
        assert forall k :: 0 <= k < |init| ==> init[k] == fixes[k];
      } else {
        var k :| 0 <= k < |init| && Contains(s, init[k].find);
        assert fixes[k] == init[k];
      }
    }
  }

  // ---------------------------------------------------------------------------
  // adicionar_prefixos_tabela

  /** A line is rewritten when it mentions both FROM and JOIN (in any letter case), or
      when the line before it mentions JOIN and it names one of the ambiguous columns
      (in this exact case). */
  predicate Selected(lines: seq<string>, i: nat)
    requires i < |lines|
  {
    || (Contains(Upper(lines[i]), "FROM") && Contains(Upper(lines[i]), "JOIN"))
    || (i > 0 && Contains(Upper(lines[i - 1]), "JOIN")
        && exists k :: 0 <= k < |AmbiguousColumns| && Contains(lines[i], AmbiguousColumns[k]))
  }

  /** The substitutions applied in order to one line; a substitution that occurs is
      reported when the line now differs from the original line. */
  function RewriteLine(original: string, number: nat, subs: seq<(string, string)>): (string, seq<Correction>)
    requires LengtheningPairs(subs)
    decreases |subs|
  {
    if subs == [] then (original, [])
    else
      var (line, cs) := RewriteLine(original, number, subs[..|subs| - 1]);
      var (find, replace) := subs[|subs| - 1];
      if Contains(line, find) then
        var next := Replace(line, find, replace);
        if next != original then (next, cs + [Prefixed(number, find, replace)]) else (next, cs)
      else (line, cs)
  }

  /** The substitutions that fire on a line, in order: those whose fragment occurs in the
      line as the earlier substitutions left it. */
  function Fired(original: string, subs: seq<(string, string)>): (r: seq<(string, string)>)
    requires LengtheningPairs(subs)
    ensures |r| <= |subs|
    ensures forall k :: 0 <= k < |r| ==> r[k] in subs
    decreases |subs|
  {
    if subs == [] then []
    else
      var init := subs[..|subs| - 1];
      var (find, replace) := subs[|subs| - 1];
      Fired(original, init) + if Contains(RewriteLine(original, 0, init).0, find) then [(find, replace)] else []
  }

  /** The rewritten line does not depend on the line number, which only tags the report. */
  lemma {:induction false} RewriteLineNumber(original: string, number: nat, other: nat, subs: seq<(string, string)>)
    requires LengtheningPairs(subs)
    ensures RewriteLine(original, number, subs).0 == RewriteLine(original, other, subs).0
    decreases |subs|
  {
    if subs != [] {
      assert LengtheningPairs(subs[..|subs| - 1]);
      RewriteLineNumber(original, number, other, subs[..|subs| - 1]);
    }
  }

  /** Line `i` after the pass, and what it reported for it: the substitutions when the
      line is selected, the line itself otherwise. */
  function LineAt(lines: seq<string>, i: nat): (string, seq<Correction>)
    requires i < |lines|
  {
    ConstantsLengthen();
    if Selected(lines, i) then RewriteLine(lines[i], i + 1, Substitutions) else (lines[i], [])
  }

  /** The substitutions that fire on line `i` during the pass: none when it is not
      selected. */
  function FiredAt(lines: seq<string>, i: nat): seq<(string, string)>
    requires i < |lines|
  {
    ConstantsLengthen();
    if Selected(lines, i) then Fired(lines[i], Substitutions) else []
  }

  /** The first `n` lines after the pass, and what it reported for them. */
  function RewriteLines(lines: seq<string>, n: nat): (r: (seq<string>, seq<Correction>))
    requires n <= |lines|
    ensures |r.0| == n
    decreases n
  {
    if n == 0 then ([], [])
    else
      var (out, cs) := RewriteLines(lines, n - 1);
      var (line, more) := LineAt(lines, n - 1);
      (out + [line], cs + more)
  }

  /** The pass's return value: the rejoined text and the report, or `(None, [])`. */
  function AddPrefixes(content: string): (Store.Option<string>, seq<Correction>) {
    var lines := Split(content, '\n');
    var (out, cs) := RewriteLines(lines, |lines|);
    if cs != [] then (Store.Some(Join(out, "\n")), cs) else (Store.None, [])
  }

  /** The inner loop: the substitutions applied in order to one selected line. */
  method RewriteOneLine(original: string, number: nat) returns (line: string, found: seq<Correction>)
    ensures (line, found) == RewriteLine(original, number, Substitutions)
  {
    ConstantsLengthen();
    line := original;
    found := [];
    var j := 0;
    while j < |Substitutions|
      invariant 0 <= j <= |Substitutions|
      invariant (line, found) == RewriteLine(original, number, Substitutions[..j])
    {
      var (find, replace) := Substitutions[j];
      if Contains(line, find) {
        line := Replace(line, find, replace);
        if line != original {
          found := found + [Prefixed(number, find, replace)];
        }
      }
      assert Substitutions[..j + 1][..j] == Substitutions[..j];
      j := j + 1;
    }
    assert Substitutions[..j] == Substitutions;
  }

  method AddTablePrefixes(content: string) returns (result: Store.Option<string>, corrections: seq<Correction>)
    ensures (result, corrections) == AddPrefixes(content)
  {
    ConstantsLengthen();
    var lines := Split(content, '\n');
    var modified: seq<string> := [];
    corrections := [];
    var i := 0;
    while i < |lines|
      invariant 0 <= i <= |lines|
      invariant (modified, corrections) == RewriteLines(lines, i)
    {
      var line := lines[i];
      var found: seq<Correction> := [];
      if Selected(lines, i) {
        line, found := RewriteOneLine(lines[i], i + 1);
      }
      assert (line, found) == LineAt(lines, i);
      corrections := corrections + found;
      modified := modified + [line];
      i := i + 1;
    }
    if corrections != [] {
      result := Store.Some(Join(modified, "\n"));
    } else {
      result := Store.None;
    }
  }

  /** A line is reported exactly when it changed; a changed line only grew, every
      substitution that fires gives exactly one entry, in order, carrying the line's number,
      and no newline is introduced. */
  lemma {:induction false} RewriteLineFacts(original: string, number: nat, subs: seq<(string, string)>)
    requires LengtheningPairs(subs)
    ensures var (line, cs) := RewriteLine(original, number, subs);
      && (cs == [] <==> line == original)
      && |line| >= |original|
      && (cs != [] ==> |line| > |original|)
      && |cs| <= |subs|
      && (forall k :: 0 <= k < |cs| ==> cs[k].Prefixed? && cs[k].line == number)
      && |cs| == |Fired(original, subs)|
      && (forall k :: 0 <= k < |cs| ==> cs[k] == Prefixed(number, Fired(original, subs)[k].0, Fired(original, subs)[k].1))
      && ('\n' !in original ==> '\n' !in line)
    decreases |subs|
  {
    if subs != [] {
      var init := subs[..|subs| - 1];
      assert LengtheningPairs(init);
      RewriteLineFacts(original, number, init);
      RewriteLineNumber(original, number, 0, init);
      var (line, cs) := RewriteLine(original, number, init);
      var (find, replace) := subs[|subs| - 1];
      if Contains(line, find) {
        ReplaceChangesIffContains(line, find, replace);
        if '\n' !in line {
          ReplaceKeepsOut(line, find, replace, '\n');
        }
      }
    }
  }

  /** One line of the pass: reported exactly when it changed, only selected lines change,
      a changed line only grew, every entry carries the line's 1-based number, and no
      newline is introduced. */
  lemma LineAtFacts(lines: seq<string>, i: nat)
    requires i < |lines|
    ensures var (line, cs) := LineAt(lines, i);
      && (cs == [] <==> line == lines[i])
      && |line| >= |lines[i]|
      && (cs != [] ==> |line| > |lines[i]| && Selected(lines, i))
      && (!Selected(lines, i) ==> line == lines[i])
      && (forall k :: 0 <= k < |cs| ==> cs[k].Prefixed? && cs[k].line == i + 1)
      && ('\n' !in lines[i] ==> '\n' !in line)
  {
    ConstantsLengthen();
    if Selected(lines, i) {
      RewriteLineFacts(lines[i], i + 1, Substitutions);
    }
  }

  /** One line of the pass reports one entry per substitution that fires on it, in order,
      each tagged with the line's 1-based number. */
  lemma LineAtFired(lines: seq<string>, i: nat)
    requires i < |lines|
    ensures var cs := LineAt(lines, i).1;
      && |cs| == |FiredAt(lines, i)|
      && forall k :: 0 <= k < |cs| ==> cs[k] == Prefixed(i + 1, FiredAt(lines, i)[k].0, FiredAt(lines, i)[k].1)
  {
    ConstantsLengthen();
    if Selected(lines, i) {
      RewriteLineFacts(lines[i], i + 1, Substitutions);
    }
  }

  /** `out` has `n` lines, leaves every unselected line of `lines` as it was, shortens no
      line and holds no newline where the first `n` lines hold none. */
  predicate Kept(lines: seq<string>, out: seq<string>, n: nat)
    requires n <= |lines|
  {
    && |out| == n
    && (forall i :: 0 <= i < n && !Selected(lines, i) ==> out[i] == lines[i])
    && (forall i :: 0 <= i < n ==> |out[i]| >= |lines[i]|)
    && ((forall i :: 0 <= i < n ==> '\n' !in lines[i]) ==> forall i :: 0 <= i < n ==> '\n' !in out[i])
  }

  lemma KeptSnoc(lines: seq<string>, out: seq<string>, line: string, n: nat)
    requires 0 < n <= |lines| && Kept(lines, out, n - 1)
    requires |line| >= |lines[n - 1]|
    requires !Selected(lines, n - 1) ==> line == lines[n - 1]
    requires '\n' !in lines[n - 1] ==> '\n' !in line
    ensures Kept(lines, out + [line], n)
  {
    var out' := out + [line];
    forall i | 0 <= i < n - 1
      ensures out'[i] == out[i]
    {
    }
  }

  /** The pass keeps the number of lines, leaves every line it does not select as it was,
      never shortens a line and introduces no newline. */
  lemma {:induction false} RewriteLinesShape(lines: seq<string>, n: nat)
    requires n <= |lines|
    ensures Kept(lines, RewriteLines(lines, n).0, n)
    decreases n
  {
    if n > 0 {
      RewriteLinesShape(lines, n - 1);
      LineAtFacts(lines, n - 1);
      var out := RewriteLines(lines, n - 1).0;
      var line := LineAt(lines, n - 1).0;
      KeptSnoc(lines, out, line, n);
      assert RewriteLines(lines, n).0 == out + [line];
    }
  }

  lemma QuietSnoc(prefix: seq<string>, out: seq<string>, cs: seq<Correction>, line: string, more: seq<Correction>, original: string)
    requires |out| == |prefix|
    requires cs == [] <==> out == prefix
    requires more == [] <==> line == original
    ensures cs + more == [] <==> out + [line] == prefix + [original]
  {
    if out + [line] == prefix + [original] {
      assert (out + [line])[..|out|] == out && (prefix + [original])[..|out|] == prefix;
      assert (out + [line])[|out|] == line;
    }
  }

  /** Nothing is reported exactly when every line comes out as it went in. */
  lemma {:induction false} RewriteLinesQuiet(lines: seq<string>, n: nat)
    requires n <= |lines|
    ensures var (out, cs) := RewriteLines(lines, n);
      cs == [] <==> out == lines[..n]
    decreases n
  {
    if n > 0 {
      RewriteLinesQuiet(lines, n - 1);
      LineAtFacts(lines, n - 1);
      var (out, cs) := RewriteLines(lines, n - 1);
      var (line, more) := LineAt(lines, n - 1);
      QuietSnoc(lines[..n - 1], out, cs, line, more, lines[n - 1]);
      assert lines[..n] == lines[..n - 1] + [lines[n - 1]];
      assert RewriteLines(lines, n) == (out + [line], cs + more);
    }
  }

  /** A report entry that names one of the first `n` lines, by its 1-based number, that
      line is one the pass selects, and the entry is one its rewrite reported. */
  predicate Reports(lines: seq<string>, n: nat, c: Correction)
    requires n <= |lines|
  {
    c.Prefixed? && 1 <= c.line <= n && Selected(lines, c.line - 1) && c in LineAt(lines, c.line - 1).1
  }

  /** Every report entry carries the 1-based number of a line the pass selected, and is
      one of the substitutions the rewrite of that line reported. */
  lemma {:induction false} RewriteLinesReport(lines: seq<string>, n: nat)
    requires n <= |lines|
    ensures forall k :: 0 <= k < |RewriteLines(lines, n).1| ==> Reports(lines, n, RewriteLines(lines, n).1[k])
    decreases n
  {
    if n > 0 {
      RewriteLinesReport(lines, n - 1);
      LineAtFacts(lines, n - 1);
      var cs := RewriteLines(lines, n - 1).1;
      var more := LineAt(lines, n - 1).1;
      var all := RewriteLines(lines, n).1;
      assert all == cs + more;
      forall k | 0 <= k < |all|
        ensures Reports(lines, n, all[k])
      {
        if k >= |cs| {
          assert all[k] == more[k - |cs|];
        } else {
          assert all[k] == cs[k];
          assert Reports(lines, n - 1, cs[k]);
        }
      }
    }
  }

  lemma {:induction false} JoinLonger(a: seq<string>, b: seq<string>, sep: string)
    requires |a| == |b|
    requires forall i :: 0 <= i < |a| ==> |a[i]| >= |b[i]|
    ensures |Join(a, sep)| >= |Join(b, sep)|
    ensures (exists i :: 0 <= i < |a| && |a[i]| > |b[i]|) ==> |Join(a, sep)| > |Join(b, sep)|
    decreases |a|
  {
    if |a| > 1 {
      JoinLonger(a[1..], b[1..], sep);
      if exists i :: 0 <= i < |a| && |a[i]| > |b[i]| {
        var i :| 0 <= i < |a| && |a[i]| > |b[i]|;
        if i > 0 {
          assert |a[1..][i - 1]| > |b[1..][i - 1]|;
        }
      }
    }
  }

  /** A pass that reports something has lengthened some line. */
  lemma {:induction false} RewriteLinesGrow(lines: seq<string>, n: nat)
    requires n <= |lines|
    ensures var (out, cs) := RewriteLines(lines, n);
      |out| == n && (cs != [] ==> exists i :: 0 <= i < n && |out[i]| > |lines[i]|)
    decreases n
  {
    if n > 0 {
      RewriteLinesGrow(lines, n - 1);
      LineAtFacts(lines, n - 1);
      var (out, cs) := RewriteLines(lines, n - 1);
      var (line, more) := LineAt(lines, n - 1);
      var out' := out + [line];
      if cs != [] {
        var i :| 0 <= i < n - 1 && |out[i]| > |lines[i]|;
        assert |out'[i]| > |lines[i]|;
      } else if more != [] {
        assert |out'[n - 1]| > |lines[n - 1]|;
      }
    }
  }

  /** The prefix pass returns a text exactly when it reports something; with nothing
      reported the lines come out as they went in, and rejoining them gives the input. */
  lemma AddPrefixesNone(content: string)
    ensures var (result, cs) := AddPrefixes(content);
      var lines := Split(content, '\n');
      && (result.None? <==> cs == [])
      && (cs == [] ==> RewriteLines(lines, |lines|).0 == lines && Join(lines, "\n") == content)
  {
    var lines := Split(content, '\n');
    RewriteLinesQuiet(lines, |lines|);
    JoinSplit(content, '\n');
    assert lines[..|lines|] == lines;
  }

  /** A text the prefix pass returns has as many lines as the input, each line it did not
      select unchanged, and is longer than the input. */
  lemma AddPrefixesLines(content: string)
    ensures var (result, cs) := AddPrefixes(content);
      var lines := Split(content, '\n');
      result.Some? ==>
        var after := Split(result.value, '\n');
        && |after| == |lines|
        && (forall i :: 0 <= i < |lines| && !Selected(lines, i) ==> after[i] == lines[i])
        && |result.value| > |content|
  {
    var lines := Split(content, '\n');
    var (out, cs) := RewriteLines(lines, |lines|);
    if cs != [] {
      RewriteLinesShape(lines, |lines|);
      RewriteLinesGrow(lines, |lines|);
      SplitJoin(out, '\n');
      JoinSplit(content, '\n');
      JoinLonger(out, lines, "\n");
    }
  }

  // ---------------------------------------------------------------------------
  // corrigir_arquivo_main, lines 143-156

  /** The two passes chained as the main routine chains them: a pass's text is taken, and
      its report kept, only when it returned a non-empty text. */
  function FixMainContent(content: string): (string, seq<Correction>) {
    var (r1, c1) := SpecificPass(content);
    var (text, all) := if r1.Some? && r1.value != "" then (r1.value, c1) else (content, []);
    var (r2, c2) := AddPrefixes(text);
    if r2.Some? && r2.value != "" then (r2.value, all + c2) else (text, all)
  }

  /** The specific-pattern pass runs first and the prefix pass on its output; the report
      is the first pass's entries followed by the second's; and the file is rewritten
      (something is reported) exactly when its text changes. */
  lemma FixMainFacts(content: string)
    ensures var (text, cs) := FixMainContent(content);
      var mid := ApplyFixes(content, SpecificFixes).0;
      var (r2, c2) := AddPrefixes(mid);
      && cs == ApplyFixes(content, SpecificFixes).1 + c2
      && text == (if r2.Some? then r2.value else mid)
      && (text == content <==> cs == [])
  {
    ConstantsLengthen();
    ApplyFixesFacts(content, SpecificFixes);
    var mid := ApplyFixes(content, SpecificFixes).0;
    AddPrefixesNone(mid);
    AddPrefixesLines(mid);
  }
}
