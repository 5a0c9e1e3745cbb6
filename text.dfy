/**
 * The string primitives of the Python runtime that the pipeline relies on
 * (str.strip, str.lstrip, str.split, str.join, str.replace, str.lower,
 * str.isdigit, ordering of str values, decimal formatting of int), restricted
 * to ASCII. Each is written once here and shared by the three modules that
 * model the pipeline.
 */
module Text {

  // ---------------------------------------------------------------------------
  // Character classes (ASCII)
  // ---------------------------------------------------------------------------

  /** str.isspace and the regex class \s on ASCII: tab, LF, VT, FF, CR, the
      four separators 0x1C-0x1F, and the space. */
  predicate IsSpace(c: char) {
    c == ' ' || ('\t' <= c <= '\r') || ('\U{1C}' <= c <= '\U{1F}')
  }

  predicate IsDigit(c: char) { '0' <= c <= '9' }

  predicate IsUpper(c: char) { 'A' <= c <= 'Z' }

  predicate IsLower(c: char) { 'a' <= c <= 'z' }

  /** The cased characters of str.title on ASCII. */
  predicate IsLetter(c: char) { IsUpper(c) || IsLower(c) }

  /** The regex class \w on ASCII. */
  predicate IsWordChar(c: char) { IsLetter(c) || IsDigit(c) || c == '_' }

  function Upper(c: char): (u: char)
    ensures IsLetter(c) ==> IsUpper(u) && Lower(u) == Lower(c)
    ensures !IsLower(c) ==> u == c
  {
    if IsLower(c) then (c as int - 'a' as int + 'A' as int) as char else c
  }

  function Lower(c: char): (l: char)
    ensures IsLetter(c) ==> IsLower(l) && (IsLower(c) ==> l == c)
    ensures !IsUpper(c) ==> l == c
  {
    if IsUpper(c) then (c as int - 'A' as int + 'a' as int) as char else c
  }

  /** str.lower on ASCII. */
  function ToLower(s: string): (r: string)
    ensures |r| == |s|
    ensures forall i :: 0 <= i < |s| ==> r[i] == Lower(s[i])
  {
    if s == [] then [] else [Lower(s[0])] + ToLower(s[1..])
  }

  /** str.isdigit on ASCII: non-empty and every character a digit. */
  predicate IsDigits(s: string) {
    |s| > 0 && forall i :: 0 <= i < |s| ==> IsDigit(s[i])
  }

  predicate AllSpace(s: string) {
    forall i :: 0 <= i < |s| ==> IsSpace(s[i])
  }

  // ---------------------------------------------------------------------------
  // Stripping
  // ---------------------------------------------------------------------------

  /** str.lstrip(): the suffix left after every leading space is dropped. */
  function LStrip(s: string): (r: string)
    ensures |r| <= |s| && r == s[|s| - |r|..]
    ensures AllSpace(s[..|s| - |r|])
    ensures r == [] || !IsSpace(r[0])
  {
    if s != [] && IsSpace(s[0]) then LStrip(s[1..]) else s
  }

  /** str.rstrip(): the prefix left after every trailing space is dropped. */
  function RStrip(s: string): (r: string)
    ensures |r| <= |s| && r == s[..|r|]
    ensures AllSpace(s[|r|..])
    ensures r == [] || !IsSpace(r[|r| - 1])
  {
    if s != [] && IsSpace(s[|s| - 1]) then
      var r := RStrip(s[..|s| - 1]);
      assert s[|r|..] == s[..|s| - 1][|r|..] + [s[|s| - 1]];
      r
    else s
  }

  /** str.strip(). */
  function Strip(s: string): (r: string)
  {
    RStrip(LStrip(s))
  }

  /** Strip keeps a contiguous part of its input, that part neither starts nor
      ends with a space, and it is empty exactly when the input is all space. */
  lemma StripShape(s: string)
    ensures var r := Strip(s);
      && Occurs(s, r)
      && (r == [] || (!IsSpace(r[0]) && !IsSpace(r[|r| - 1])))
      && (r == [] <==> AllSpace(s))
  {
    StripOccurs(s);
    StripEnds(s);
    StripEmpty(s);
  }

  lemma StripOccurs(s: string)
    ensures Occurs(s, Strip(s))
  {
    var l := LStrip(s);
    var r := RStrip(l);
    var k := |s| - |l|;
    assert l == s[k..];
    assert r == l[..|r|];
    assert s[k..k + |r|] == r;
    assert OccursAt(s, r, k);
  }

  lemma StripEmpty(s: string)
    ensures Strip(s) == [] <==> AllSpace(s)
  {
    var l := LStrip(s);
    var r := RStrip(l);
    var k := |s| - |l|;
    assert l == s[k..];
    if r != [] {
      assert r == l[..|r|];
      assert r[0] == l[0] == s[k];
      assert !IsSpace(s[k]);
    } else {
      RStripKeepsFirst(l);
      assert k == |s|;
      forall i | 0 <= i < |s| ensures IsSpace(s[i]) {
        assert s[..k][i] == s[i];
      }
    }
  }

  /** A string starting with a non-space is not stripped away from the right. */
  lemma {:induction false} RStripKeepsFirst(l: string)
    ensures l == [] || IsSpace(l[0]) || RStrip(l) != []
    decreases |l|
  {
    if |l| > 1 {
      RStripKeepsFirst(l[..|l| - 1]);
    }
  }

  /** The strip of s neither starts nor ends with a space. */
  lemma StripEnds(s: string)
    ensures var r := Strip(s); r == [] || (!IsSpace(r[0]) && !IsSpace(r[|r| - 1]))
  {
    var l := LStrip(s);
    var r := RStrip(l);
    if r != [] {
      assert r[0] == l[0];
    }
  }

  /** Stripping adds no character. */
  lemma StripFree(s: string, c: char)
    requires FreeOf(s, c)
    ensures FreeOf(Strip(s), c)
  {
    var l := LStrip(s);
    var r := RStrip(l);
    var k := |s| - |l|;
    assert l == s[k..];
    assert r == l[..|r|];
    forall i | 0 <= i < |r| ensures r[i] != c {
      assert r[i] == l[i];
      assert l[i] == s[k + i];
    }
  }

  /** A string without surrounding spaces is its own strip. */
  lemma StripNoop(s: string)
    requires s == [] || (!IsSpace(s[0]) && !IsSpace(s[|s| - 1]))
    ensures Strip(s) == s
  {
  }

  /** str.lstrip(c) for one character c. */
  function LStripChar(s: string, c: char): (r: string)
    ensures |r| <= |s| && r == s[|s| - |r|..]
    ensures forall i :: 0 <= i < |s| - |r| ==> s[i] == c
    ensures r == [] || r[0] != c
  {
    if s != [] && s[0] == c then LStripChar(s[1..], c) else s
  }

  // ---------------------------------------------------------------------------
  // Searching, splitting, joining, replacing
  // ---------------------------------------------------------------------------

  /** pat occurs in s starting at position i. */
  predicate OccursAt(s: string, pat: string, i: int) {
    0 <= i && i + |pat| <= |s| && s[i..i + |pat|] == pat
  }

  predicate Occurs(s: string, pat: string) {
    exists i :: 0 <= i <= |s| - |pat| && OccursAt(s, pat, i)
  }

  /** sep.join(xs). */
  function Join(xs: seq<string>, sep: string): string
  {
    if |xs| == 0 then []
    else if |xs| == 1 then xs[0]
    else xs[0] + sep + Join(xs[1..], sep)
  }

  /** s.split(sep) for a non-empty separator: the pieces of s between the
      non-overlapping occurrences of sep, found left to right. */
  function SplitOn(s: string, sep: string): (pieces: seq<string>)
    requires |sep| > 0
    ensures |pieces| >= 1
    decreases |s|
  {
    if |s| < |sep| then [s]
    else if s[..|sep|] == sep then [[]] + SplitOn(s[|sep|..], sep)
    else
      var rest := SplitOn(s[1..], sep);
      [[s[0]] + rest[0]] + rest[1..]
  }

  /** s.split(c) for a single character. */
  function Split(s: string, c: char): (pieces: seq<string>)
  {
    SplitOn(s, [c])
  }

  /** s.replace(pat, rep) for a non-empty `pat`: every non-overlapping
      occurrence, found left to right, is replaced. */
  function Replace(s: string, pat: string, rep: string): string
    requires |pat| > 0
    decreases |s|
  {
    if |s| < |pat| then s
    else if s[..|pat|] == pat then rep + Replace(s[|pat|..], pat, rep)
    else [s[0]] + Replace(s[1..], pat, rep)
  }

  lemma JoinCons(x: string, xs: seq<string>, sep: string)
    requires |xs| >= 1
    ensures Join([x] + xs, sep) == x + sep + Join(xs, sep)
  {
    assert ([x] + xs)[1..] == xs;
  }

  lemma JoinPrepend(c: char, xs: seq<string>, sep: string)
    requires |xs| >= 1
    ensures Join([[c] + xs[0]] + xs[1..], sep) == [c] + Join(xs, sep)
  {
    if |xs| > 1 {
      assert ([[c] + xs[0]] + xs[1..])[1..] == xs[1..];
    }
  }

  /** Concatenation of sequences is associative (stated once, to be called
      where the solver would otherwise search for it). */
  lemma SeqAssoc<T>(a: seq<T>, b: seq<T>, c: seq<T>)
    ensures (a + b) + c == a + (b + c)
  {
  }

  /** Joining the pieces of a split with the separator gives back the string. */
  lemma {:induction false} JoinSplitOn(s: string, sep: string)
    requires |sep| > 0
    ensures Join(SplitOn(s, sep), sep) == s
    decreases |s|
  {
    if |s| < |sep| {
    } else if s[..|sep|] == sep {
      var t := s[|sep|..];
      var p := SplitOn(t, sep);
      assert SplitOn(s, sep) == [[]] + p;
      JoinSplitOn(t, sep);
      JoinCons([], p, sep);
      assert Join([[]] + p, sep) == sep + t;
      assert s == sep + t;
    } else {
      var t := s[1..];
      var p := SplitOn(t, sep);
      assert SplitOn(s, sep) == [[s[0]] + p[0]] + p[1..];
      JoinSplitOn(t, sep);
      JoinPrepend(s[0], p, sep);
      assert Join([[s[0]] + p[0]] + p[1..], sep) == [s[0]] + t;
      assert s == [s[0]] + t;
    }
  }

  /** str.replace agrees with its reference definition rep.join(s.split(pat)). */
  lemma {:induction false} ReplaceIsJoinOfSplit(s: string, pat: string, rep: string)
    requires |pat| > 0
    ensures Replace(s, pat, rep) == Join(SplitOn(s, pat), rep)
    decreases |s|
  {
    if |s| < |pat| {
    } else if s[..|pat|] == pat {
      ReplaceIsJoinOfSplit(s[|pat|..], pat, rep);
      JoinCons([], SplitOn(s[|pat|..], pat), rep);
    } else {
      ReplaceIsJoinOfSplit(s[1..], pat, rep);
      JoinPrepend(s[0], SplitOn(s[1..], pat), rep);
    }
  }

  /** Replacing a pattern that does not occur changes nothing. */
  lemma {:induction false} ReplaceAbsent(s: string, pat: string, rep: string)
    requires |pat| > 0
    requires !Occurs(s, pat)
    ensures Replace(s, pat, rep) == s
    decreases |s|
  {
    if |s| < |pat| {
    } else {
      assert !OccursAt(s, pat, 0);
      assert s[..|pat|] != pat;
      if Occurs(s[1..], pat) {
        var i :| 0 <= i <= |s[1..]| - |pat| && OccursAt(s[1..], pat, i);
        assert s[i + 1..i + 1 + |pat|] == s[1..][i..i + |pat|];
        assert OccursAt(s, pat, i + 1);
        assert false;
      }
      ReplaceAbsent(s[1..], pat, rep);
    }
  }

  /** s has no occurrence of the character c. */
  predicate FreeOf(s: string, c: char) {
    forall i :: 0 <= i < |s| ==> s[i] != c
  }

  /** A pattern cannot occur in a string lacking its first character. */
  lemma FreeOfNotOccurs(s: string, pat: string)
    requires |pat| > 0 && FreeOf(s, pat[0])
    ensures !Occurs(s, pat)
  {
    forall i | 0 <= i <= |s| - |pat| ensures !OccursAt(s, pat, i) {
      assert s[i..i + |pat|][0] == s[i];
    }
  }

  lemma FreeOfConcat(a: string, b: string, c: char)
    requires FreeOf(a, c) && FreeOf(b, c)
    ensures FreeOf(a + b, c)
  {
    forall i | 0 <= i < |a + b| ensures (a + b)[i] != c {
      if i >= |a| {
        assert (a + b)[i] == b[i - |a|];
      }
    }
  }

  /** An occurrence at the front is replaced and the scan goes on after it. */
  lemma ReplaceAtFront(pat: string, s: string, rep: string)
    requires |pat| > 0
    ensures Replace(pat + s, pat, rep) == rep + Replace(s, pat, rep)
  {
    assert (pat + s)[..|pat|] == pat;
    assert (pat + s)[|pat|..] == s;
  }

  /** A character where the pattern does not start is kept as it is. */
  lemma ReplaceSkipChar(c: char, s: string, pat: string, rep: string)
    requires |pat| > 0
    requires |[c] + s| >= |pat| ==> ([c] + s)[..|pat|] != pat
    ensures Replace([c] + s, pat, rep) == [c] + Replace(s, pat, rep)
  {
    assert ([c] + s)[1..] == s;
  }

  /** A front part that has '{' only in its first two places is kept as it
      is by the replacement of a pattern starting "{{" that does not start
      at its front. */
  lemma ReplaceSkipsBraced(m: string, r: string, pat: string, rep: string)
    requires |pat| >= 2 && pat[0] == '{' && pat[1] == '{'
    requires |m| >= 3 && FreeOf(m[2..], '{')
    requires |m + r| >= |pat| ==> (m + r)[..|pat|] != pat
    ensures Replace(m + r, pat, rep) == m + Replace(r, pat, rep)
  {
    var u := m[2..] + r;
    assert m + r == [m[0]] + ([m[1]] + u);
    ReplaceSkipChar(m[0], [m[1]] + u, pat, rep);
    if |[m[1]] + u| >= |pat| {
      assert ([m[1]] + u)[..|pat|][1] == m[2..][0] != pat[1];
    }
    ReplaceSkipChar(m[1], u, pat, rep);
    ReplaceAfterFree(m[2..], r, pat, rep);
    assert m == [m[0]] + ([m[1]] + m[2..]);
  }

  /** A front part lacking the pattern's first character is kept as it is. */
  lemma {:induction false} ReplaceAfterFree(a: string, s: string, pat: string, rep: string)
    requires |pat| > 0 && FreeOf(a, pat[0])
    ensures Replace(a + s, pat, rep) == a + Replace(s, pat, rep)
    decreases |a|
  {
    var t := a + s;
    if a == [] {
      assert t == s;
    } else if |t| < |pat| {
      assert Replace(s, pat, rep) == s;
    } else {
      assert t[..|pat|][0] == a[0];
      assert t[..|pat|] != pat;
      assert Replace(t, pat, rep) == [a[0]] + Replace(t[1..], pat, rep);
      assert t[1..] == a[1..] + s;
      assert FreeOf(a[1..], pat[0]) by {
        forall i | 0 <= i < |a[1..]| ensures a[1..][i] != pat[0] {
          assert a[1..][i] == a[i + 1];
        }
      }
      ReplaceAfterFree(a[1..], s, pat, rep);
      assert a == [a[0]] + a[1..];
    }
  }

  /** Replacing one character by another changes exactly its occurrences. */
  lemma {:induction false} ReplaceChar(s: string, c: char, d: char)
    ensures |Replace(s, [c], [d])| == |s|
    ensures forall i :: 0 <= i < |s| ==> Replace(s, [c], [d])[i] == if s[i] == c then d else s[i]
    decreases |s|
  {
    if |s| >= 1 {
      ReplaceChar(s[1..], c, d);
      var r := Replace(s, [c], [d]);
      var r1 := Replace(s[1..], [c], [d]);
      if s[..1] == [c] {
        assert r == [d] + r1;
      } else {
        assert s[0] != c;
        assert r == [s[0]] + r1;
      }
      forall i | 0 <= i < |s| ensures r[i] == if s[i] == c then d else s[i] {
        if i > 0 {
          assert r[i] == r1[i - 1] && s[i] == s[1..][i - 1];
        }
      }
    }
  }

  /** No piece of a split on a single character contains that character. */
  lemma {:induction false} SplitPiecesFree(s: string, c: char)
    ensures forall k, i :: 0 <= k < |Split(s, c)| && 0 <= i < |Split(s, c)[k]| ==> Split(s, c)[k][i] != c
    decreases |s|
  {
    if |s| < 1 {
    } else if s[..1] == [c] {
      SplitPiecesFree(s[1..], c);
      assert Split(s, c) == [[]] + Split(s[1..], c);
    } else {
      SplitPiecesFree(s[1..], c);
      var rest := Split(s[1..], c);
      assert Split(s, c) == [[s[0]] + rest[0]] + rest[1..];
    }
  }

  /** Splitting the join of pieces that do not contain the separator gives the
      pieces back. */
  lemma {:induction false} SplitJoin(xs: seq<string>, c: char)
    requires |xs| >= 1
    requires forall k, i :: 0 <= k < |xs| && 0 <= i < |xs[k]| ==> xs[k][i] != c
    ensures Split(Join(xs, [c]), c) == xs
    decreases |xs|, |xs[0]|
  {
    if xs[0] == [] {
      if |xs| == 1 {
      } else {
        var s := Join(xs, [c]);
        assert s == [c] + Join(xs[1..], [c]);
        assert s[..1] == [c];
        assert s[1..] == Join(xs[1..], [c]);
        SplitJoin(xs[1..], c);
        assert Split(s, c) == [[]] + xs[1..];
      }
    } else {
      var x := xs[0];
      var ys := [x[1..]] + xs[1..];
      assert ys[1..] == xs[1..];
      forall k, i | 0 <= k < |ys| && 0 <= i < |ys[k]| ensures ys[k][i] != c {
        if k == 0 { assert ys[k][i] == x[i + 1]; } else { assert ys[k] == xs[k]; }
      }
      SplitJoin(ys, c);
      var s := Join(xs, [c]);
      assert s == [x[0]] + Join(ys, [c]) by {
        if |xs| == 1 {
          assert x == [x[0]] + x[1..];
        } else {
          assert s == x + [c] + Join(xs[1..], [c]);
          assert Join(ys, [c]) == x[1..] + [c] + Join(xs[1..], [c]);
          assert x == [x[0]] + x[1..];
        }
      }
      assert s[..1] != [c] by { assert s[0] == x[0]; }
      assert s[1..] == Join(ys, [c]);
      var rest := Split(s[1..], c);
      assert rest == ys;
      assert [s[0]] + rest[0] == x;
    }
  }

  // ---------------------------------------------------------------------------
  // Ordering of str values (by code point, as Python's sorted compares them)
  // ---------------------------------------------------------------------------

  /** a < b in Python: lexicographic, a proper prefix being the smaller. */
  predicate StrLess(a: string, b: string)
    decreases |a|
  {
    if a == [] then b != []
    else if b == [] then false
    else if a[0] != b[0] then a[0] < b[0]
    else StrLess(a[1..], b[1..])
  }

  lemma {:induction false} StrLessIrreflexive(a: string)
    ensures !StrLess(a, a)
    decreases |a|
  {
    if a != [] { StrLessIrreflexive(a[1..]); }
  }

  lemma {:induction false} StrLessTransitive(a: string, b: string, c: string)
    requires StrLess(a, b) && StrLess(b, c)
    ensures StrLess(a, c)
    decreases |a|
  {
    if a != [] && a[0] == b[0] && b[0] == c[0] {
      StrLessTransitive(a[1..], b[1..], c[1..]);
    }
  }

  lemma {:induction false} StrLessTotal(a: string, b: string)
    requires a != b
    ensures StrLess(a, b) || StrLess(b, a)
    decreases |a|
  {
    if a != [] && b != [] && a[0] == b[0] {
      assert a == [a[0]] + a[1..] && b == [b[0]] + b[1..];
      StrLessTotal(a[1..], b[1..]);
    }
  }

  /** Strictly increasing: sorted and free of duplicates. */
  predicate StrictlySorted(xs: seq<string>) {
    forall i, j :: 0 <= i < j < |xs| ==> StrLess(xs[i], xs[j])
  }

  /** Insertion of x into a strictly sorted list, keeping it strictly sorted
      and dropping x if it is already there. */
  function Insert(x: string, xs: seq<string>): (r: seq<string>)
    requires StrictlySorted(xs)
    ensures StrictlySorted(r)
    ensures forall y :: y in r <==> y == x || y in xs
  {
    if xs == [] then [x]
    else if x == xs[0] then xs
    else if StrLess(x, xs[0]) then
      assert StrictlySorted([x] + xs) by {
        forall i, j | 0 <= i < j < |[x] + xs| ensures StrLess(([x] + xs)[i], ([x] + xs)[j]) {
          if i == 0 && j > 1 { StrLessTransitive(x, xs[0], xs[j - 1]); }
        }
      }
      [x] + xs
    else
      StrLessTotal(x, xs[0]);
      var tail := Insert(x, xs[1..]);
      assert StrictlySorted([xs[0]] + tail) by {
        forall i, j | 0 <= i < j < |[xs[0]] + tail| ensures StrLess(([xs[0]] + tail)[i], ([xs[0]] + tail)[j]) {
          if i == 0 {
            var y := tail[j - 1];
            assert y == x || y in xs[1..];
          }
        }
      }
      [xs[0]] + tail
  }

  /** sorted(set(xs)): the distinct elements of xs in increasing order. */
  function SortedSet(xs: seq<string>): (r: seq<string>)
    ensures StrictlySorted(r)
    ensures forall y :: y in r <==> y in xs
  {
    if xs == [] then [] else Insert(xs[|xs| - 1], SortedSet(xs[..|xs| - 1]))
  }

  /** Inserting an element greater than all others appends it. */
  lemma {:induction false} InsertGreatest(x: string, xs: seq<string>)
    requires StrictlySorted(xs)
    requires forall k :: 0 <= k < |xs| ==> StrLess(xs[k], x)
    ensures Insert(x, xs) == xs + [x]
    decreases |xs|
  {
    if xs != [] {
      StrLessIrreflexive(x);
      if StrLess(x, xs[0]) {
        StrLessTransitive(x, xs[0], x);
      }
      InsertGreatest(x, xs[1..]);
      assert [xs[0]] + (xs[1..] + [x]) == xs + [x];
    }
  }

  /** A list that is already strictly sorted is its own sorted(set(...)). */
  lemma {:induction false} SortedSetNoop(xs: seq<string>)
    requires StrictlySorted(xs)
    ensures SortedSet(xs) == xs
    decreases |xs|
  {
    if xs != [] {
      var init := xs[..|xs| - 1];
      SortedSetNoop(init);
      InsertGreatest(xs[|xs| - 1], init);
      assert init + [xs[|xs| - 1]] == xs;
    }
  }

  // ---------------------------------------------------------------------------
  // Decimal formatting of integers (str(n), f"{n}")
  // ---------------------------------------------------------------------------

  function DigitChar(d: nat): char
    requires d < 10
  {
    ('0' as int + d) as char
  }

  function NatToString(n: nat): string
    decreases n
  {
    if n < 10 then [DigitChar(n)] else NatToString(n / 10) + [DigitChar(n % 10)]
  }

  function IntToString(i: int): string
  {
    if i < 0 then "-" + NatToString(-i) else NatToString(i)
  }

  function DigitValue(c: char): nat
    requires IsDigit(c)
  {
    c as int - '0' as int
  }

  /** int(s) for a string of decimal digits. */
  function ParseNat(s: string): nat
    requires forall i :: 0 <= i < |s| ==> IsDigit(s[i])
    decreases |s|
  {
    if s == [] then 0 else ParseNat(s[..|s| - 1]) * 10 + DigitValue(s[|s| - 1])
  }

  /** The decimal form of n is a non-empty digit string with no superfluous
      leading zero, and reading it back gives n. */
  lemma {:induction false} NatToStringRoundTrip(n: nat)
    ensures IsDigits(NatToString(n))
    ensures NatToString(n)[0] == '0' ==> n == 0
    ensures ParseNat(NatToString(n)) == n
    decreases n
  {
    if n >= 10 {
      NatToStringRoundTrip(n / 10);
      var s := NatToString(n / 10) + [DigitChar(n % 10)];
      assert s[..|s| - 1] == NatToString(n / 10);
    }
  }
}
