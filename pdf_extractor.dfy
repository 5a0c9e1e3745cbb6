/**
 * Text extraction from a PDF (src/pdf_extractor.py). The document is a
 * sequence of page texts, page i being what the PDF library returns for page
 * i. The model covers the page-range check, the two page-selection loops and
 * the cleanup pipeline: three regular-expression substitutions, then a line
 * filter.
 */
module PdfExtractor {
  import opened Wrappers
  import opened Text

  // ---------------------------------------------------------------------------
  // Whitespace runs
  // ---------------------------------------------------------------------------

  /** Length of the longest prefix of s made of whitespace (the `\s*` of the
      regular expressions, taken greedily). */
  function WsRun(s: string): (n: nat)
    ensures n <= |s| && AllSpace(s[..n])
    ensures n == |s| || !IsSpace(s[n])
    decreases |s|
  {
    if s != [] && IsSpace(s[0]) then
      var m := WsRun(s[1..]);
      assert s[..1 + m] == [s[0]] + s[1..][..m];
      1 + m
    else 0
  }

  function CountChar(s: string, c: char): nat
    decreases |s|
  {
    if s == [] then 0 else (if s[0] == c then 1 else 0) + CountChar(s[1..], c)
  }

  /** Number of line breaks in the whitespace run at the front of s. */
  function NewlinesInRun(s: string): nat
  {
    CountChar(s[..WsRun(s)], '\n')
  }

  /** Index of the last occurrence of c in s. */
  function LastIndex(s: string, c: char): (i: nat)
    requires c in s
    ensures i < |s| && s[i] == c
    ensures forall j :: i < j < |s| ==> s[j] != c
    decreases |s|
  {
    if s[|s| - 1] == c then |s| - 1
    else
      assert c in s[..|s| - 1] by {
        var k :| 0 <= k < |s| && s[k] == c;
        assert s[..|s| - 1][k] == c;
      }
      LastIndex(s[..|s| - 1], c)
  }

  lemma CountCharAbsent(s: string, c: char)
    requires FreeOf(s, c)
    ensures CountChar(s, c) == 0
    decreases |s|
  {
    if s != [] {
      CountCharAbsent(s[1..], c);
    }
  }

  /** A whitespace character in front lengthens the run by one. */
  lemma RunCons(ch: char, t: string)
    requires IsSpace(ch)
    ensures WsRun([ch] + t) == 1 + WsRun(t)
    ensures NewlinesInRun([ch] + t) == (if ch == '\n' then 1 else 0) + NewlinesInRun(t)
  {
    var s := [ch] + t;
    assert s[1..] == t;
    var r := s[..WsRun(s)];
    assert r[0] == ch && r[1..] == t[..WsRun(t)];
  }

  /** A non-whitespace character in front leaves no run. */
  lemma RunStop(ch: char, t: string)
    requires !IsSpace(ch)
    ensures WsRun([ch] + t) == 0 && NewlinesInRun([ch] + t) == 0
  {
  }

  /** Inside the run at the front of s, the run from position j is its rest. */
  lemma {:induction false} WsRunSuffix(s: string, j: nat)
    requires j <= WsRun(s)
    ensures WsRun(s[j..]) == WsRun(s) - j
    decreases j
  {
    if j > 0 {
      assert IsSpace(s[..WsRun(s)][0]);
      assert WsRun(s) == 1 + WsRun(s[1..]);
      WsRunSuffix(s[1..], j - 1);
      assert s[1..][j - 1..] == s[j..];
    }
  }

  // ---------------------------------------------------------------------------
  // re.sub(r'\n\s*\n\s*\n+', '\n\n', text)
  // ---------------------------------------------------------------------------

  /** The regular expression is tried at each position from the left. It
      matches at a line break whose whitespace run holds at least three line
      breaks, and, being greedy, it extends to the last line break of that
      run; the match becomes "\n\n" and the scan resumes after it. Whitespace
      of the run before its first and after its last line break stays. */
  function CollapseBlankLines(s: string): string
    decreases |s|
  {
    if s == [] then []
    else if Collapses(s) then "\n\n" + CollapseBlankLines(s[Resume(s)..])
    else [s[0]] + CollapseBlankLines(s[1..])
  }

  /** The expression matches at the front of s. */
  predicate Collapses(s: string) {
    s != [] && s[0] == '\n' && NewlinesInRun(s) >= 3
  }

  /** Where the scan resumes after a match at the front: just past the last
      line break of the run, so that no line break is left before the next
      non-whitespace character. */
  function Resume(s: string): (j: nat)
    requires Collapses(s)
    ensures 1 <= j <= |s| && NewlinesInRun(s[j..]) == 0
  {
    var run := s[..WsRun(s)];
    assert run[0] == '\n';
    var j := LastIndex(run, '\n') + 1;
    assert NewlinesInRun(s[j..]) == 0 by {
      WsRunSuffix(s, j);
      assert s[j..][..WsRun(s[j..])] == run[j..];
      forall i | 0 <= i < |run[j..]| ensures run[j..][i] != '\n' {
        assert run[j..][i] == run[j + i];
      }
      CountCharAbsent(run[j..], '\n');
    }
    j
  }

  /** No whitespace run, from any position, holds three line breaks: the
      regular expression finds nothing to replace. */
  predicate NoBlankRuns(s: string) {
    forall i :: 0 <= i < |s| ==> NewlinesInRun(s[i..]) <= 2
  }

  /** The run at the front of the result holds as many line breaks as the
      input's, capped at two. */
  lemma {:induction false} CollapseBlankLinesFront(s: string)
    ensures NewlinesInRun(CollapseBlankLines(s)) ==
      (if NewlinesInRun(s) < 2 then NewlinesInRun(s) else 2)
    decreases |s|
  {
    if s == [] {
    } else if Collapses(s) {
      var rest := s[Resume(s)..];
      CollapseBlankLinesFront(rest);
      var o := CollapseBlankLines(rest);
      assert CollapseBlankLines(s) == [ '\n' ] + ([ '\n' ] + o);
      RunCons('\n', o);
      RunCons('\n', [ '\n' ] + o);
    } else {
      CollapseBlankLinesFront(s[1..]);
      assert s == [s[0]] + s[1..];
      if IsSpace(s[0]) {
        RunCons(s[0], s[1..]);
        RunCons(s[0], CollapseBlankLines(s[1..]));
      } else {
        RunStop(s[0], s[1..]);
        RunStop(s[0], CollapseBlankLines(s[1..]));
      }
    }
  }

  /** The collapse leaves no whitespace run with three line breaks. */
  lemma {:induction false} CollapseBlankLinesNoBlankRuns(s: string)
    ensures NoBlankRuns(CollapseBlankLines(s))
    decreases |s|
  {
    if s == [] {
    } else if Collapses(s) {
      var o' := CollapseBlankLines(s[Resume(s)..]);
      CollapseBlankLinesNoBlankRuns(s[Resume(s)..]);
      CollapseBlankLinesFront(s[Resume(s)..]);
      NoBlankRunsAfterMatch(o');
      assert CollapseBlankLines(s) == "\n\n" + o';
    } else {
      var o' := CollapseBlankLines(s[1..]);
      CollapseBlankLinesNoBlankRuns(s[1..]);
      CollapseBlankLinesFront(s);
      assert CollapseBlankLines(s) == [s[0]] + o';
      NoBlankRunsCons(s[0], o');
    }
  }

  /** The replacement "\n\n" followed by a text whose front run has no line
      break and which has no blank runs, has none either. */
  lemma NoBlankRunsAfterMatch(o': string)
    requires NoBlankRuns(o') && NewlinesInRun(o') == 0
    ensures NoBlankRuns("\n\n" + o')
  {
    var o1 := [ '\n' ] + o';
    RunCons('\n', o');
    NoBlankRunsCons('\n', o');
    RunCons('\n', o1);
    NoBlankRunsCons('\n', o1);
    assert "\n\n" + o' == [ '\n' ] + o1;
  }

  lemma NoBlankRunsCons(ch: char, o: string)
    requires NoBlankRuns(o) && NewlinesInRun([ch] + o) <= 2
    ensures NoBlankRuns([ch] + o)
  {
    var t := [ch] + o;
    forall i | 0 <= i < |t| ensures NewlinesInRun(t[i..]) <= 2 {
      if i == 0 {
        assert t[0..] == t;
      } else {
        assert t[i..] == o[i - 1..];
      }
    }
  }

  /** Text without such runs is left as it is. */
  lemma {:induction false} CollapseBlankLinesNoop(s: string)
    requires NoBlankRuns(s)
    ensures CollapseBlankLines(s) == s
    decreases |s|
  {
    if s != [] {
      assert NewlinesInRun(s[0..]) <= 2;
      assert s[0..] == s;
      assert NoBlankRuns(s[1..]) by {
        forall i | 0 <= i < |s[1..]| ensures NewlinesInRun(s[1..][i..]) <= 2 {
          assert s[1..][i..] == s[i + 1..];
        }
      }
      CollapseBlankLinesNoop(s[1..]);
    }
  }

  /** Collapsing twice is collapsing once. */
  lemma CollapseBlankLinesIdempotent(s: string)
    ensures CollapseBlankLines(CollapseBlankLines(s)) == CollapseBlankLines(s)
  {
    CollapseBlankLinesNoBlankRuns(s);
    CollapseBlankLinesNoop(CollapseBlankLines(s));
  }

  // ---------------------------------------------------------------------------
  // re.sub(r' +', ' ', text)
  // ---------------------------------------------------------------------------

  /** Length of the run of ' ' at the front of s. */
  function SpaceRun(s: string): (n: nat)
    ensures n <= |s| && (n == |s| || s[n] != ' ')
    ensures forall i :: 0 <= i < n ==> s[i] == ' '
    decreases |s|
  {
    if s != [] && s[0] == ' ' then 1 + SpaceRun(s[1..]) else 0
  }

  /** Every run of spaces becomes one space; the result is empty exactly when
      the input is, and begins with the same character. */
  function CollapseSpaces(s: string): (r: string)
    ensures r == [] <==> s == []
    ensures s != [] ==> r[0] == s[0]
    decreases |s|
  {
    if s == [] then []
    else if s[0] == ' ' then " " + CollapseSpaces(s[SpaceRun(s)..])
    else [s[0]] + CollapseSpaces(s[1..])
  }

  /** s with every occurrence of c deleted. */
  function Without(s: string, c: char): string
    decreases |s|
  {
    if s == [] then [] else (if s[0] == c then [] else [s[0]]) + Without(s[1..], c)
  }

  predicate NoDoubleSpace(s: string) {
    forall i :: 0 <= i < |s| - 1 ==> !(s[i] == ' ' && s[i + 1] == ' ')
  }

  lemma {:induction false} WithoutSpaceRun(s: string, n: nat)
    requires n <= SpaceRun(s)
    ensures Without(s, ' ') == Without(s[n..], ' ')
    decreases n
  {
    if n > 0 {
      WithoutSpaceRun(s[1..], n - 1);
      assert s[1..][n - 1..] == s[n..];
    }
  }

  /** The result has no two adjacent spaces, and only spaces were removed. */
  lemma {:induction false} CollapseSpacesShape(s: string)
    ensures NoDoubleSpace(CollapseSpaces(s))
    ensures Without(CollapseSpaces(s), ' ') == Without(s, ' ')
    decreases |s|
  {
    var r := CollapseSpaces(s);
    if s != [] {
      var t := if s[0] == ' ' then s[SpaceRun(s)..] else s[1..];
      CollapseSpacesShape(t);
      var r' := CollapseSpaces(t);
      assert r == [s[0]] + r';
      assert r[1..] == r';
      forall i | 0 <= i < |r| - 1 ensures !(r[i] == ' ' && r[i + 1] == ' ') {
        if i >= 1 {
          assert r[i] == r'[i - 1] && r[i + 1] == r'[i];
        }
      }
      if s[0] == ' ' {
        WithoutSpaceRun(s, SpaceRun(s));
      }
    }
  }

  // ---------------------------------------------------------------------------
  // re.sub(r'-\s*\n\s*', '', text)
  // ---------------------------------------------------------------------------

  /** A '-' followed by a whitespace run that holds a line break matches, and,
      the second `\s*` being greedy, the match runs to the end of that run; it
      is deleted and the scan resumes after it. */
  function Dehyphenate(s: string): string
    decreases |s|
  {
    if s == [] then []
    else if s[0] == '-' && NewlinesInRun(s[1..]) > 0 then Dehyphenate(s[1 + WsRun(s[1..])..])
    else [s[0]] + Dehyphenate(s[1..])
  }

  /** A front part without '-' is kept as it is. */
  lemma {:induction false} DehyphenateFree(a: string, t: string)
    requires FreeOf(a, '-')
    ensures Dehyphenate(a + t) == a + Dehyphenate(t)
    decreases |a|
  {
    if a == [] {
      assert a + t == t;
    } else {
      assert (a + t)[0] == a[0] != '-';
      assert (a + t)[1..] == a[1..] + t;
      assert a == [a[0]] + a[1..];
      assert FreeOf(a[1..], '-') by {
        forall i | 0 <= i < |a[1..]| ensures a[1..][i] != '-' {
          assert a[1..][i] == a[i + 1];
        }
      }
      DehyphenateFree(a[1..], t);
      calc {
        Dehyphenate(a + t);
        [a[0]] + Dehyphenate(a[1..] + t);
        [a[0]] + (a[1..] + Dehyphenate(t));
        ([a[0]] + a[1..]) + Dehyphenate(t);
      }
    }
  }

  /** Text without '-' is left as it is. */
  lemma DehyphenateNoop(s: string)
    requires FreeOf(s, '-')
    ensures Dehyphenate(s) == s
  {
    DehyphenateFree(s, []);
    assert s + [] == s;
  }

  /** The whitespace run at the front of x is unaffected by what follows x,
      as long as that does not start with whitespace. */
  lemma {:induction false} WsRunAppend(x: string, t: string)
    requires t == [] || !IsSpace(t[0])
    ensures WsRun(x + t) == WsRun(x)
    ensures NewlinesInRun(x + t) == NewlinesInRun(x)
    decreases |x|
  {
    if x == [] {
      assert x + t == t;
    } else {
      assert (x + t)[0] == x[0];
      assert (x + t)[1..] == x[1..] + t;
      WsRunAppend(x[1..], t);
    }
    assert (x + t)[..WsRun(x)] == x[..WsRun(x)];
  }

  /** The dehyphenation of a concatenation is the concatenation of the
      dehyphenations, when the second part does not start with whitespace:
      no match runs across the seam. */
  lemma {:induction false} DehyphenateAppend(a: string, t: string)
    requires t == [] || !IsSpace(t[0])
    ensures Dehyphenate(a + t) == Dehyphenate(a) + Dehyphenate(t)
    decreases |a|
  {
    if a == [] {
      assert a + t == t;
    } else if a[0] == '-' && NewlinesInRun(a[1..]) > 0 {
      var m := WsRun(a[1..]);
      DehyphenateMatch(a);
      DehyphenateSeamMatch(a, t, m);
      DehyphenateAppend(a[1 + m..], t);
    } else {
      DehyphenateSeamKeep(a, t);
      DehyphenateAppend(a[1..], t);
      SeqAssoc([a[0]], Dehyphenate(a[1..]), Dehyphenate(t));
    }
  }

  /** A match at the front of a + t, when t does not start with whitespace,
      is the match at the front of a. */
  lemma DehyphenateSeamMatch(a: string, t: string, m: nat)
    requires t == [] || !IsSpace(t[0])
    requires a != [] && a[0] == '-' && NewlinesInRun(a[1..]) > 0
    requires m == WsRun(a[1..])
    ensures 1 + m <= |a|
    ensures Dehyphenate(a + t) == Dehyphenate(a[1 + m..] + t)
  {
    SeamFacts(a, t, m);
    DehyphenateMatch(a + t);
  }

  /** The front of a + t, when a starts with a match and t does not start
      with whitespace, is the front of a. */
  lemma SeamFacts(a: string, t: string, m: nat)
    requires t == [] || !IsSpace(t[0])
    requires a != [] && NewlinesInRun(a[1..]) > 0
    requires m == WsRun(a[1..])
    ensures 1 + m <= |a|
    ensures (a + t)[0] == a[0] && NewlinesInRun((a + t)[1..]) > 0 && WsRun((a + t)[1..]) == m
    ensures (a + t)[1 + m..] == a[1 + m..] + t
  {
    var a1 := a[1..];
    assert (a + t)[1..] == a1 + t;
    WsRunAppend(a1, t);
    DropAppend(a, t, 1 + m);
  }

  lemma DropAppend(a: string, t: string, k: nat)
    requires k <= |a|
    ensures (a + t)[k..] == a[k..] + t
  {
  }

  /** A character kept at the front of a is kept at the front of a + t, when
      t does not start with whitespace. */
  lemma DehyphenateSeamKeep(a: string, t: string)
    requires t == [] || !IsSpace(t[0])
    requires a != [] && !(a[0] == '-' && NewlinesInRun(a[1..]) > 0)
    ensures Dehyphenate(a) == [a[0]] + Dehyphenate(a[1..])
    ensures Dehyphenate(a + t) == [a[0]] + Dehyphenate(a[1..] + t)
  {
    assert (a + t)[0] == a[0];
    assert (a + t)[1..] == a[1..] + t;
    WsRunAppend(a[1..], t);
  }

  /** Every line ending in '-', followed by optional whitespace, the line
      break and the next line's indentation, is joined to the next line: the
      hyphen and all that whitespace go, wherever the hyphen stands in the
      text. */
  lemma DehyphenateJoins(a: string, w: string, b: string)
    requires AllSpace(w) && '\n' in w
    requires b == [] || !IsSpace(b[0])
    ensures Dehyphenate(a + "-" + w + b) == Dehyphenate(a) + Dehyphenate(b)
  {
    var t := "-" + w + b;
    assert a + "-" + w + b == a + t;
    DehyphenateAppend(a, t);
    DehyphenateAtHyphen(w, b);
  }

  /** The match at a hyphen followed by a whitespace run with a line break. */
  lemma DehyphenateAtHyphen(w: string, b: string)
    requires AllSpace(w) && '\n' in w
    requires b == [] || !IsSpace(b[0])
    ensures Dehyphenate("-" + w + b) == Dehyphenate(b)
  {
    var u := w + b;
    var t := [ '-' ] + u;
    assert "-" + w + b == t;
    assert t[1..] == u;
    HyphenRun(w, b);
    DehyphenateMatch(t);
    assert WsRun(t[1..]) == |w|;
    assert t[1 + |w|..] == b;
    assert Dehyphenate(t) == Dehyphenate(b);
  }

  /** The run after the hyphen is w, and it holds a line break. */
  lemma HyphenRun(w: string, b: string)
    requires AllSpace(w) && '\n' in w
    requires b == [] || !IsSpace(b[0])
    ensures WsRun(w + b) == |w| && NewlinesInRun(w + b) > 0
  {
    WsRunSpaces(w, b);
    assert (w + b)[..|w|] == w;
    CountCharPositive(w, '\n');
  }

  /** One step of the scan at a match. */
  lemma DehyphenateMatch(s: string)
    requires s != [] && s[0] == '-' && NewlinesInRun(s[1..]) > 0
    ensures Dehyphenate(s) == Dehyphenate(s[1 + WsRun(s[1..])..])
  {
  }

  /** The whitespace run of w + b, for all-whitespace w and b not starting
      with whitespace, is w. */
  lemma {:induction false} WsRunSpaces(w: string, b: string)
    requires AllSpace(w)
    requires b == [] || !IsSpace(b[0])
    ensures WsRun(w + b) == |w|
    decreases |w|
  {
    if w == [] {
      assert w + b == b;
    } else {
      WsRunSpaces(w[1..], b);
      assert (w + b)[1..] == w[1..] + b;
    }
  }

  lemma {:induction false} CountCharPositive(s: string, c: char)
    requires c in s
    ensures CountChar(s, c) > 0
    decreases |s|
  {
    if s[0] != c {
      assert c in s[1..] by {
        var k :| 0 <= k < |s| && s[k] == c;
        assert s[1..][k - 1] == c;
      }
      CountCharPositive(s[1..], c);
    }
  }

  // ---------------------------------------------------------------------------
  // The line filter and the whole cleanup
  // ---------------------------------------------------------------------------

  /** The test a stripped line must pass to be kept: longer than three
      characters and not all digits (short lines and bare numbers are taken
      for page numbers, headers and footers). */
  predicate KeepLine(line: string) {
    |line| > 3 && !IsDigits(line)
  }

  /** What the output is made of: kept lines, with no surrounding whitespace. */
  predicate CleanLine(line: string) {
    KeepLine(line) && !IsSpace(line[0]) && !IsSpace(line[|line| - 1])
  }

  /** The stripped lines that pass the test, in order. */
  function KeptLines(lines: seq<string>): (kept: seq<string>)
    ensures |kept| <= |lines|
    decreases |lines|
  {
    if lines == [] then [] else KeptLines(lines[..|lines| - 1]) + Kept(lines[|lines| - 1])
  }

  /** What one line contributes: itself stripped, or nothing. */
  function Kept(line: string): (kept: seq<string>)
    ensures |kept| <= 1
  {
    var l := Strip(line);
    if KeepLine(l) then [l] else []
  }

  /** The lines left by the three substitutions. */
  function SubstitutedLines(text: string): seq<string>
  {
    Split(Dehyphenate(CollapseSpaces(CollapseBlankLines(text))), '\n')
  }

  /** `_clean_text`: the kept lines joined by line breaks, then stripped. */
  function Cleaned(text: string): string
  {
    Strip(Join(KeptLines(SubstitutedLines(text)), "\n"))
  }

  method CleanText(text: string) returns (r: string)
    ensures r == Cleaned(text)
  {
    var t := CollapseBlankLines(text);
    t := CollapseSpaces(t);
    t := Dehyphenate(t);
    var lines := Split(t, '\n');
    var cleanedLines: seq<string> := [];
    for k := 0 to |lines|
      invariant cleanedLines == KeptLines(lines[..k])
    {
      var line := Strip(lines[k]);
      KeptLinesSnoc(lines, k);
      if |line| > 3 && !IsDigits(line) {
        cleanedLines := cleanedLines + [line];
      }
    }
    assert lines[..|lines|] == lines;
    r := Strip(Join(cleanedLines, "\n"));
  }

  lemma KeptLinesSnoc(lines: seq<string>, k: nat)
    requires k < |lines|
    ensures KeptLines(lines[..k + 1]) == KeptLines(lines[..k]) + Kept(lines[k])
  {
    assert lines[..k + 1][..k] == lines[..k];
  }

  lemma KeptLinesUnfold(lines: seq<string>)
    requires lines != []
    ensures KeptLines(lines) == KeptLines(lines[..|lines| - 1]) + Kept(lines[|lines| - 1])
  {
  }

  /** The filter works line by line: filtering a concatenation is
      concatenating the filtered parts, so the kept lines stay in order. */
  lemma {:induction false} KeptLinesConcat(a: seq<string>, b: seq<string>)
    ensures KeptLines(a + b) == KeptLines(a) + KeptLines(b)
    decreases |b|
  {
    if b == [] {
      assert a + b == a;
    } else {
      var c := a + b;
      var b' := b[..|b| - 1];
      var e := Kept(b[|b| - 1]);
      assert c[..|c| - 1] == a + b';
      assert c[|c| - 1] == b[|b| - 1];
      KeptLinesUnfold(c);
      KeptLinesUnfold(b);
      KeptLinesConcat(a, b');
      SeqAssoc(KeptLines(a), KeptLines(b'), e);
    }
  }

  /** A line on its own is kept, stripped, exactly when it passes the test. */
  lemma KeptLinesOne(line: string)
    ensures KeptLines([line]) == (if KeepLine(Strip(line)) then [Strip(line)] else [])
  {
    assert [line][..0] == [];
  }

  /** Lines that are already clean all survive, unchanged. */
  lemma {:induction false} KeptLinesNoop(lines: seq<string>)
    requires forall k :: 0 <= k < |lines| ==> CleanLine(lines[k])
    ensures KeptLines(lines) == lines
    decreases |lines|
  {
    if lines != [] {
      var init := lines[..|lines| - 1];
      var l := lines[|lines| - 1];
      assert CleanLine(l);
      StripNoop(l);
      KeptLinesNoop(init);
      KeptLinesUnfold(lines);
      calc {
        KeptLines(lines);
        KeptLines(init) + Kept(l);
        init + [l];
        lines;
      }
    }
  }

  /** Every kept line passes the test and has no surrounding whitespace. */
  lemma {:induction false} KeptLinesClean(lines: seq<string>)
    ensures forall k :: 0 <= k < |KeptLines(lines)| ==> CleanLine(KeptLines(lines)[k])
    decreases |lines|
  {
    if lines != [] {
      StripEnds(lines[|lines| - 1]);
      KeptLinesClean(lines[..|lines| - 1]);
    }
  }

  /** Kept lines hold no character the input lines do not hold. */
  lemma {:induction false} KeptLinesFree(lines: seq<string>, c: char)
    requires forall k :: 0 <= k < |lines| ==> FreeOf(lines[k], c)
    ensures forall k :: 0 <= k < |KeptLines(lines)| ==> FreeOf(KeptLines(lines)[k], c)
    decreases |lines|
  {
    if lines != [] {
      var l := lines[|lines| - 1];
      StripFree(l, c);
      KeptLinesFree(lines[..|lines| - 1], c);
    }
  }

  /** The join of non-empty strings begins with the first one's first
      character and ends with the last one's last character. */
  lemma {:induction false} JoinEnds(xs: seq<string>, sep: string)
    requires |xs| >= 1
    requires forall k :: 0 <= k < |xs| ==> xs[k] != []
    ensures var j := Join(xs, sep);
      j != [] && j[0] == xs[0][0] && j[|j| - 1] == xs[|xs| - 1][|xs[|xs| - 1]| - 1]
    decreases |xs|
  {
    if |xs| > 1 {
      JoinEnds(xs[1..], sep);
      assert xs[1..][|xs| - 2] == xs[|xs| - 1];
    }
  }

  /** The cleaned text is the kept lines joined by line breaks (the final
      strip removes nothing), and splitting it at line breaks gives those
      lines back. */
  lemma CleanedIsJoin(text: string)
    ensures var kept := KeptLines(SubstitutedLines(text));
      && Cleaned(text) == Join(kept, "\n")
      && (Cleaned(text) == [] <==> kept == [])
      && (kept != [] ==> Split(Cleaned(text), '\n') == kept)
  {
    var lines := SubstitutedLines(text);
    var kept := KeptLines(lines);
    KeptLinesClean(lines);
    StripJoinNoop(kept);
    if kept != [] {
      KeptLinesSplit(text);
    }
  }

  /** Joining clean lines gives a text with nothing to strip. */
  lemma StripJoinNoop(kept: seq<string>)
    requires forall k :: 0 <= k < |kept| ==> CleanLine(kept[k])
    ensures Strip(Join(kept, "\n")) == Join(kept, "\n")
    ensures Join(kept, "\n") == [] <==> kept == []
  {
    var j := Join(kept, "\n");
    if kept != [] {
      JoinEnds(kept, "\n");
      assert CleanLine(kept[0]) && CleanLine(kept[|kept| - 1]);
      assert !IsSpace(j[0]) && !IsSpace(j[|j| - 1]);
    }
    StripNoop(j);
  }

  /** The kept lines hold no line break, so splitting their join gives them
      back. */
  lemma KeptLinesSplit(text: string)
    requires KeptLines(SubstitutedLines(text)) != []
    ensures var kept := KeptLines(SubstitutedLines(text));
      Split(Join(kept, "\n"), '\n') == kept
  {
    var lines := SubstitutedLines(text);
    var kept := KeptLines(lines);
    SplitPiecesFree(Dehyphenate(CollapseSpaces(CollapseBlankLines(text))), '\n');
    assert forall k :: 0 <= k < |lines| ==> FreeOf(lines[k], '\n');
    KeptLinesFree(lines, '\n');
    SplitJoin(kept, '\n');
  }

  /** Every line of the cleaned text is longer than three characters, is not
      all digits and has no surrounding whitespace; so no line is empty. The
      text itself has no surrounding whitespace. */
  lemma CleanedLines(text: string)
    ensures var r := Cleaned(text);
      && (r == [] || (!IsSpace(r[0]) && !IsSpace(r[|r| - 1])))
      && (r != [] ==> forall line :: line in Split(r, '\n') ==>
            |line| > 3 && !IsDigits(line) && Strip(line) == line)
  {
    CleanedIsJoin(text);
    var r := Cleaned(text);
    var kept := KeptLines(SubstitutedLines(text));
    KeptLinesClean(SubstitutedLines(text));
    if r != [] {
      JoinEnds(kept, "\n");
      forall line | line in Split(r, '\n')
        ensures |line| > 3 && !IsDigits(line) && Strip(line) == line
      {
        StripNoop(line);
      }
    }
  }

  /** Empty text cleans to empty text. */
  lemma CleanedEmpty()
    ensures Cleaned([]) == []
  {
    assert SubstitutedLines([]) == [[]];
    KeptLinesOne([]);
  }

  // ---------------------------------------------------------------------------
  // Page selection
  // ---------------------------------------------------------------------------

  /** The message of the error raised for a bad page range, as wrapped by the
      handler around the extraction. */
  function RangeError(start: int, end: int, count: nat): string
  {
    "Error extracting text from PDF: Page range " + IntToString(start) + "-" + IntToString(end)
      + " is invalid for PDF with " + NatToString(count) + " pages"
  }

  /** Pages start..end inclusive, in order; none when start > end. */
  function ChapterPages(doc: seq<string>, start: int, end: int): (pages: seq<string>)
    requires 0 <= start && end < |doc|
    ensures |pages| == (if start <= end then end - start + 1 else 0)
    ensures forall k :: 0 <= k < |pages| ==> pages[k] == doc[start + k]
  {
    if start > end then [] else doc[start..end + 1]
  }

  /** `extract_text_from_chapter`: a range starting before the first page or
      ending after the last is an error; otherwise the pages of the range are
      joined by line breaks and cleaned. An empty range (start > end) is not
      an error and gives the empty text. */
  method ExtractTextFromChapter(doc: seq<string>, start: int, end: int)
    returns (r: Result<string, string>)
    ensures r.Err? <==> start < 0 || end >= |doc|
    ensures r.Err? ==> r.error == RangeError(start, end, |doc|)
    ensures r.Ok? ==> r.value == Cleaned(Join(ChapterPages(doc, start, end), "\n"))
    ensures r.Ok? && start > end ==> r.value == []
  {
    if start < 0 || end >= |doc| {
      return Err(RangeError(start, end, |doc|));
    }
    var chunks: seq<string> := [];
    var p := start;
    while p <= end
      invariant start <= p && (p <= end + 1 || p == start)
      invariant |chunks| == p - start
      invariant forall k :: 0 <= k < |chunks| ==> chunks[k] == doc[start + k]
      decreases end - p
    {
      chunks := chunks + [doc[p]];
      p := p + 1;
    }
    assert chunks == ChapterPages(doc, start, end);
    var fullText := Join(chunks, "\n");
    var cleaned := CleanText(fullText);
    if start > end {
      CleanedEmpty();
    }
    return Ok(cleaned);
  }

  /** The in-range pages among the numbers, in their order, repeats kept. */
  function SelectPages(doc: seq<string>, pageNumbers: seq<int>): (pages: seq<string>)
    ensures |pages| <= |pageNumbers|
    decreases |pageNumbers|
  {
    if pageNumbers == [] then []
    else
      var n := pageNumbers[|pageNumbers| - 1];
      SelectPages(doc, pageNumbers[..|pageNumbers| - 1]) + (if 0 <= n < |doc| then [doc[n]] else [])
  }

  /** `extract_text_from_pages`: out-of-range numbers are skipped silently. */
  method ExtractTextFromPages(doc: seq<string>, pageNumbers: seq<int>) returns (text: string)
    ensures text == Cleaned(Join(SelectPages(doc, pageNumbers), "\n"))
  {
    var chunks: seq<string> := [];
    for k := 0 to |pageNumbers|
      invariant chunks == SelectPages(doc, pageNumbers[..k])
    {
      var n := pageNumbers[k];
      assert pageNumbers[..k + 1][..k] == pageNumbers[..k];
      if n < 0 || n >= |doc| {
        continue;
      }
      chunks := chunks + [doc[n]];
    }
    assert pageNumbers[..|pageNumbers|] == pageNumbers;
    var fullText := Join(chunks, "\n");
    text := CleanText(fullText);
  }

  /** Selection works number by number: selecting from a concatenation is
      concatenating the selections, so order and repeats are kept. */
  lemma {:induction false} SelectPagesConcat(doc: seq<string>, a: seq<int>, b: seq<int>)
    ensures SelectPages(doc, a + b) == SelectPages(doc, a) + SelectPages(doc, b)
    decreases |b|
  {
    if b == [] {
      assert a + b == a;
    } else {
      var c := a + b;
      assert c[..|c| - 1] == a + b[..|b| - 1];
      assert c[|c| - 1] == b[|b| - 1];
      SelectPagesConcat(doc, a, b[..|b| - 1]);
      var n := b[|b| - 1];
      SeqAssoc(SelectPages(doc, a), SelectPages(doc, b[..|b| - 1]), if 0 <= n < |doc| then [doc[n]] else []);
    }
  }

  /** A single number selects its page when in range and nothing otherwise. */
  lemma SelectPagesOne(doc: seq<string>, n: int)
    ensures SelectPages(doc, [n]) == (if 0 <= n < |doc| then [doc[n]] else [])
  {
    assert [n][..0] == [];
  }

  /** When every number is in range, the selection is those pages, one for
      each number. */
  lemma {:induction false} SelectPagesInRange(doc: seq<string>, pageNumbers: seq<int>)
    requires forall k :: 0 <= k < |pageNumbers| ==> 0 <= pageNumbers[k] < |doc|
    ensures |SelectPages(doc, pageNumbers)| == |pageNumbers|
    ensures forall k :: 0 <= k < |pageNumbers| ==> SelectPages(doc, pageNumbers)[k] == doc[pageNumbers[k]]
    decreases |pageNumbers|
  {
    if pageNumbers != [] {
      var init := pageNumbers[..|pageNumbers| - 1];
      var n := pageNumbers[|pageNumbers| - 1];
      var front := SelectPages(doc, init);
      var sel := SelectPages(doc, pageNumbers);
      SelectPagesInRange(doc, init);
      assert sel == front + [doc[n]];
      forall k | 0 <= k < |pageNumbers| ensures sel[k] == doc[pageNumbers[k]] {
        if k < |init| {
          assert sel[k] == front[k] && init[k] == pageNumbers[k];
        }
      }
    }
  }

  /** The numbers lo..hi inclusive, ascending. */
  function Range(lo: int, hi: int): (ns: seq<int>)
    ensures |ns| == (if lo <= hi then hi - lo + 1 else 0)
    ensures forall k :: 0 <= k < |ns| ==> ns[k] == lo + k
    decreases hi - lo
  {
    if lo > hi then [] else Range(lo, hi - 1) + [hi]
  }

  /** A valid chapter is the selection of the page numbers start..end. */
  lemma ChapterIsSelection(doc: seq<string>, start: int, end: int)
    requires 0 <= start && end < |doc|
    ensures ChapterPages(doc, start, end) == SelectPages(doc, Range(start, end))
  {
    var ns := Range(start, end);
    var a := ChapterPages(doc, start, end);
    SelectPagesInRange(doc, ns);
    var b := SelectPages(doc, ns);
    assert |a| == |b|;
    forall k | 0 <= k < |a| ensures a[k] == b[k] {
      assert ns[k] == start + k;
    }
  }
}
