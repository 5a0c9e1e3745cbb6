/**
 * The note generator: Capital Case filenames, wikilink extraction, the
 * formatting of links and tags, the placeholder substitution that renders a
 * note, the index note, the summary truncation of the map of content, and a
 * generator object whose output directory is a map from file name to
 * contents.
 *
 * The clock is a parameter (the timestamp text), the template file is passed
 * in as its contents, and the output directory is the `files` field.
 */
module NoteGenerator {
  import opened Wrappers
  import opened Text
  import opened Json
  import opened NoteTemplate

  // ---------------------------------------------------------------------------
  // Capital Case filenames
  // ---------------------------------------------------------------------------

  /** re.sub(r'[^\w\s]', '', s): every character that is neither a word
      character nor whitespace is deleted. */
  function RemoveSpecial(s: string): (r: string)
    ensures |r| <= |s|
    ensures forall i :: 0 <= i < |r| ==> IsWordChar(r[i]) || IsSpace(r[i])
  {
    if s == [] then []
    else if IsWordChar(s[0]) || IsSpace(s[0]) then [s[0]] + RemoveSpecial(s[1..])
    else RemoveSpecial(s[1..])
  }

  /** re.sub(r'\s+', ' ', s): every maximal run of whitespace becomes one space. */
  function CollapseWhitespace(s: string): (r: string)
    ensures r == [] <==> s == []
    ensures s != [] && !IsSpace(s[0]) ==> r[0] == s[0]
    ensures s != [] && IsSpace(s[0]) ==> r[0] == ' '
    decreases |s|
  {
    if s == [] then []
    else if IsSpace(s[0]) then " " + CollapseWhitespace(LStrip(s[1..]))
    else [s[0]] + CollapseWhitespace(s[1..])
  }

  /** str.title on ASCII, one position: a letter is upper-cased when it is the
      first character or follows a non-letter and lower-cased otherwise; any
      other character is kept. */
  function TitleChar(s: string, i: nat): char
    requires i < |s|
  {
    if !IsLetter(s[i]) then s[i]
    else if i == 0 || !IsLetter(s[i - 1]) then Upper(s[i])
    else Lower(s[i])
  }

  /** str.title on ASCII. */
  function Title(s: string): (r: string)
    ensures |r| == |s|
  {
    seq(|s|, i requires 0 <= i < |s| => TitleChar(s, i))
  }

  const UntitledNote := "Untitled Note"

  /** capital_case_filename (also reached through sanitize_filename). */
  function CapitalCaseFilename(title: string): string
  {
    var name := Title(Strip(CollapseWhitespace(RemoveSpecial(title))));
    if name == [] then UntitledNote else name
  }

  /** sanitize_filename, kept for backward compatibility, gives the same
      name as capital_case_filename. */
  function SanitizeFilename(title: string): (name: string)
    ensures name != [] && WellSpaced(name) && TitleCased(name)
    ensures CapitalCaseFilename(name) == name
  {
    CapitalCaseFilenameShape(title);
    CapitalCaseFilenameIdempotent(title);
    CapitalCaseFilename(title)
  }

  /** Word characters and spaces, no space directly after a space. */
  predicate SingleSpaced(s: string) {
    && (forall i :: 0 <= i < |s| ==> IsWordChar(s[i]) || s[i] == ' ')
    && (forall i :: 0 <= i < |s| ==> NoSpacePairAt(s, i))
  }

  /** The characters at i and i + 1, if both exist, are not both spaces. */
  predicate NoSpacePairAt(s: string, i: int) {
    0 <= i && i + 1 < |s| ==> s[i] != ' ' || s[i + 1] != ' '
  }

  /** Word characters separated by single spaces, with no space at either end. */
  predicate WellSpaced(s: string) {
    SingleSpaced(s) && (s != [] ==> s[0] != ' ' && s[|s| - 1] != ' ')
  }

  /** The str.title rule at position i: a letter is upper-case exactly when
      it is the first character or follows a non-letter. */
  predicate TitleRuleAt(s: string, i: int) {
    0 <= i < |s| && IsLetter(s[i]) ==> (IsUpper(s[i]) <==> (i == 0 || !IsLetter(s[i - 1])))
  }

  predicate TitleCased(s: string) {
    forall i :: 0 <= i < |s| ==> TitleRuleAt(s, i)
  }

  /** The word characters of s, in order, lower-cased: what a filename keeps
      of a title regardless of punctuation, spacing and case. */
  function Words(s: string): (w: string)
    ensures |w| <= |s|
  {
    if s == [] then []
    else if IsWordChar(s[0]) then [Lower(s[0])] + Words(s[1..])
    else Words(s[1..])
  }

  lemma {:induction false} WordsAppend(a: string, b: string)
    ensures Words(a + b) == Words(a) + Words(b)
    decreases |a|
  {
    if a != [] {
      assert (a + b)[0] == a[0] && (a + b)[1..] == a[1..] + b;
      WordsAppend(a[1..], b);
    } else {
      assert a + b == b;
    }
  }

  /** Two strings that agree position by position on being word characters,
      and on the lower case of those, have the same words. */
  lemma {:induction false} WordsPointwise(a: string, b: string)
    requires |a| == |b|
    requires forall i :: 0 <= i < |a| ==> IsWordChar(a[i]) == IsWordChar(b[i])
    requires forall i :: 0 <= i < |a| && IsWordChar(a[i]) ==> Lower(a[i]) == Lower(b[i])
    ensures Words(a) == Words(b)
    decreases |a|
  {
    if a != [] {
      WordsPointwise(a[1..], b[1..]);
    }
  }

  lemma {:induction false} WordsOfSpace(s: string)
    requires AllSpace(s)
    ensures Words(s) == []
    decreases |s|
  {
    if s != [] {
      WordsOfSpace(s[1..]);
    }
  }

  lemma {:induction false} RemoveSpecialWords(s: string)
    ensures Words(RemoveSpecial(s)) == Words(s)
    decreases |s|
  {
    if s != [] {
      RemoveSpecialWords(s[1..]);
    }
  }

  lemma LStripWords(s: string)
    ensures Words(LStrip(s)) == Words(s)
  {
    var k := |s| - |LStrip(s)|;
    assert s == s[..k] + LStrip(s);
    WordsAppend(s[..k], LStrip(s));
    WordsOfSpace(s[..k]);
  }

  lemma RStripWords(s: string)
    ensures Words(RStrip(s)) == Words(s)
  {
    var r := RStrip(s);
    assert s == r + s[|r|..];
    WordsAppend(r, s[|r|..]);
    WordsOfSpace(s[|r|..]);
  }

  lemma StripWords(s: string)
    ensures Words(Strip(s)) == Words(s)
  {
    LStripWords(s);
    RStripWords(LStrip(s));
  }

  /** Words of a string with one character in front. */
  lemma WordsCons(c: char, t: string)
    ensures Words([c] + t) == (if IsWordChar(c) then [Lower(c)] else []) + Words(t)
  {
    assert ([c] + t)[0] == c && ([c] + t)[1..] == t;
  }

  lemma {:induction false} CollapseWhitespaceWords(s: string)
    ensures Words(CollapseWhitespace(s)) == Words(s)
    decreases |s|
  {
    if s != [] {
      var t := if IsSpace(s[0]) then LStrip(s[1..]) else s[1..];
      var c := if IsSpace(s[0]) then ' ' else s[0];
      assert CollapseWhitespace(s) == [c] + CollapseWhitespace(t);
      CollapseWhitespaceWords(t);
      WordsCons(c, CollapseWhitespace(t));
      WordsCons(s[0], s[1..]);
      assert s == [s[0]] + s[1..];
      if IsSpace(s[0]) {
        LStripWords(s[1..]);
      }
    }
  }

  lemma TitleWords(s: string)
    ensures Words(Title(s)) == Words(s)
  {
    var r := Title(s);
    forall i | 0 <= i < |s| && IsWordChar(s[i]) ensures Lower(r[i]) == Lower(s[i]) {
      if IsLetter(s[i]) && !(i == 0 || !IsLetter(s[i - 1])) {
        assert Lower(Lower(s[i])) == Lower(s[i]);
      }
    }
    WordsPointwise(r, s);
  }

  predicate WordOrSpace(s: string) {
    forall i :: 0 <= i < |s| ==> IsWordChar(s[i]) || IsSpace(s[i])
  }

  lemma LStripWordOrSpace(s: string)
    requires WordOrSpace(s)
    ensures WordOrSpace(LStrip(s))
    ensures LStrip(s) == [] || IsWordChar(LStrip(s)[0])
  {
    var t := LStrip(s);
    var k := |s| - |t|;
    assert t == s[k..];
    forall i | 0 <= i < |t| ensures IsWordChar(t[i]) || IsSpace(t[i]) {
      assert t[i] == s[k + i];
    }
  }

  /** The output of CollapseWhitespace on a string of word characters and
      whitespace: word characters and single spaces. */
  lemma {:induction false} CollapseWhitespaceShape(s: string)
    requires WordOrSpace(s)
    ensures SingleSpaced(CollapseWhitespace(s))
    decreases |s|
  {
    if s != [] {
      var r := CollapseWhitespace(s);
      assert WordOrSpace(s[1..]) by {
        assert forall i :: 0 <= i < |s[1..]| ==> s[1..][i] == s[i + 1];
      }
      var t := s[1..];
      if IsSpace(s[0]) {
        t := LStrip(s[1..]);
        LStripWordOrSpace(s[1..]);
      }
      CollapseWhitespaceShape(t);
      var rest := CollapseWhitespace(t);
      assert r == [r[0]] + rest;
      assert IsWordChar(r[0]) || r[0] == ' ';
      assert r[0] == ' ' ==> rest == [] || rest[0] != ' ';
      forall i | 0 <= i < |r| ensures IsWordChar(r[i]) || r[i] == ' ' {
        if i > 0 {
          assert r[i] == rest[i - 1];
        }
      }
      forall i | 0 <= i < |r| ensures NoSpacePairAt(r, i) {
        if i > 0 {
          assert NoSpacePairAt(rest, i - 1);
        }
      }
      assert SingleSpaced(r);
    }
  }

  /** Stripping a single-spaced string leaves one with no space at either end. */
  lemma StripWellSpaced(s: string)
    requires SingleSpaced(s)
    ensures WellSpaced(Strip(s))
  {
    var r := Strip(s);
    StripShape(s);
    var k :| 0 <= k <= |s| - |r| && OccursAt(s, r, k);
    assert forall i :: 0 <= i < |r| ==> r[i] == s[k + i];
    forall i | 0 <= i < |r| ensures NoSpacePairAt(r, i) {
      assert NoSpacePairAt(s, k + i);
    }
  }

  /** Title keeps the length, keeps every letter the same letter up to case
      and every other character unchanged, and makes the str.title rule hold,
      whatever the text. */
  lemma TitleRule(s: string)
    ensures |Title(s)| == |s|
    ensures forall i :: 0 <= i < |s| ==>
      && IsLetter(Title(s)[i]) == IsLetter(s[i])
      && Lower(Title(s)[i]) == Lower(s[i])
      && (!IsLetter(s[i]) ==> Title(s)[i] == s[i])
    ensures TitleCased(Title(s))
  {
    var r := Title(s);
    forall i | 0 <= i < |s|
      ensures IsLetter(r[i]) == IsLetter(s[i]) && Lower(r[i]) == Lower(s[i])
      ensures !IsLetter(s[i]) ==> r[i] == s[i]
    {
    }
    forall i | 0 <= i < |r| ensures TitleRuleAt(r, i) {
    }
  }

  /** On a well-spaced name, as line 133 passes it, Title also keeps the name
      well-spaced. */
  lemma TitleShape(s: string)
    requires WellSpaced(s)
    ensures |Title(s)| == |s|
    ensures forall i :: 0 <= i < |s| ==>
      && IsLetter(Title(s)[i]) == IsLetter(s[i])
      && Lower(Title(s)[i]) == Lower(s[i])
      && (!IsLetter(s[i]) ==> Title(s)[i] == s[i])
    ensures WellSpaced(Title(s)) && TitleCased(Title(s))
  {
    TitleRule(s);
    var r := Title(s);
    forall i | 0 <= i < |s|
      ensures (r[i] == ' ') == (s[i] == ' ')
      ensures IsWordChar(r[i]) || r[i] == ' '
    {
    }
    forall i | 0 <= i < |r| ensures NoSpacePairAt(r, i) {
      assert NoSpacePairAt(s, i);
    }
  }

  /** A Capital Case filename is never empty, is made of word characters and
      single interior spaces, follows the str.title rule, and keeps the word
      characters of the title in order up to case; a title without any word
      character gives "Untitled Note". */
  lemma CapitalCaseFilenameShape(title: string)
    ensures var name := CapitalCaseFilename(title);
      && name != []
      && WellSpaced(name) && TitleCased(name)
      && (Words(title) != [] ==> Words(name) == Words(title))
      && (Words(title) == [] ==> name == UntitledNote)
  {
    var a := RemoveSpecial(title);
    var b := CollapseWhitespace(a);
    var c := Strip(b);
    var d := Title(c);
    CollapseWhitespaceShape(a);
    StripWellSpaced(b);
    TitleShape(c);
    RemoveSpecialWords(title);
    CollapseWhitespaceWords(a);
    StripWords(b);
    TitleWords(c);
    assert Words(d) == Words(title);
    if d != [] {
      assert Words(d) == [Lower(d[0])] + Words(d[1..]);
    }
    UntitledNoteShape();
  }

  lemma UntitledNoteShape()
    ensures WellSpaced(UntitledNote) && TitleCased(UntitledNote)
  {
    forall i | 0 <= i < |UntitledNote| ensures NoSpacePairAt(UntitledNote, i) && TitleRuleAt(UntitledNote, i) {
    }
  }

  lemma {:induction false} RemoveSpecialNoop(s: string)
    requires forall i :: 0 <= i < |s| ==> IsWordChar(s[i]) || s[i] == ' '
    ensures RemoveSpecial(s) == s
    decreases |s|
  {
    if s != [] {
      RemoveSpecialNoop(s[1..]);
    }
  }

  lemma {:induction false} CollapseWhitespaceNoop(s: string)
    requires SingleSpaced(s)
    ensures CollapseWhitespace(s) == s
    decreases |s|
  {
    if s != [] {
      var t := s[1..];
      forall i | 0 <= i < |t| ensures NoSpacePairAt(t, i) {
        assert NoSpacePairAt(s, i + 1);
      }
      CollapseWhitespaceNoop(t);
      assert s == [s[0]] + t;
      if s[0] == ' ' {
        assert NoSpacePairAt(s, 0);
        assert t == [] || !IsSpace(t[0]);
        assert LStrip(t) == t;
        assert CollapseWhitespace(s) == " " + CollapseWhitespace(LStrip(s[1..]));
        assert CollapseWhitespace(LStrip(s[1..])) == t;
        assert " " + t == s;
      } else {
        assert !IsSpace(s[0]);
        assert CollapseWhitespace(s) == [s[0]] + CollapseWhitespace(t);
      }
    }
  }

  lemma TitleNoop(s: string)
    requires TitleCased(s)
    ensures Title(s) == s
  {
    forall i | 0 <= i < |s| ensures Title(s)[i] == s[i] {
      assert TitleRuleAt(s, i);
    }
  }

  /** A name that already has the Capital Case shape is its own filename. */
  lemma CapitalCaseFilenameFixedPoint(name: string)
    requires name != [] && WellSpaced(name) && TitleCased(name)
    ensures CapitalCaseFilename(name) == name
  {
    RemoveSpecialNoop(name);
    CollapseWhitespaceNoop(name);
    StripNoop(name);
    TitleNoop(name);
  }

  /** capital_case_filename is idempotent. */
  lemma CapitalCaseFilenameIdempotent(title: string)
    ensures CapitalCaseFilename(CapitalCaseFilename(title)) == CapitalCaseFilename(title)
  {
    CapitalCaseFilenameShape(title);
    CapitalCaseFilenameFixedPoint(CapitalCaseFilename(title));
  }

  // ---------------------------------------------------------------------------
  // Wikilinks
  // ---------------------------------------------------------------------------

  /** The first position at or after i that holds ']', or |text| when there is none. */
  function FirstClose(text: string, i: nat): (j: nat)
    requires i <= |text|
    ensures i <= j <= |text|
    ensures j < |text| ==> text[j] == ']'
    ensures forall k :: i <= k < j ==> text[k] != ']'
    decreases |text| - i
  {
    if i == |text| || text[i] == ']' then i else FirstClose(text, i + 1)
  }

  /** re.findall(r'\[\[([^\]]+)\]\]', text): at the front, "[[" followed by
      one or more characters other than ']' and then "]]" is a match whose
      group is those characters, and the search goes on after it; otherwise
      the search goes on one character further. */
  function FindLinks(text: string): seq<string>
    decreases |text|
  {
    if |text| < 2 then []
    else if text[0] == '[' && text[1] == '[' then
      var j := FirstClose(text, 2);
      if j > 2 && j + 1 < |text| && text[j + 1] == ']' then [text[2..j]] + FindLinks(text[j + 2..])
      else FindLinks(text[1..])
    else FindLinks(text[1..])
  }

  /** What the group of the wikilink pattern can match: non-empty, without ']'. */
  predicate IsLinkTarget(x: string) {
    x != [] && forall i :: 0 <= i < |x| ==> x[i] != ']'
  }

  /** _extract_wikilinks: sorted(set(matches)). */
  function ExtractWikilinks(text: string): seq<string>
  {
    SortedSet(FindLinks(text))
  }

  lemma OccursInSuffix(s: string, k: nat, pat: string)
    requires k <= |s| && Occurs(s[k..], pat)
    ensures Occurs(s, pat)
  {
    var i :| 0 <= i <= |s[k..]| - |pat| && OccursAt(s[k..], pat, i);
    assert s[k + i..k + i + |pat|] == s[k..][i..i + |pat|];
    assert OccursAt(s, pat, k + i);
  }

  /** Every match is a link target and occurs in the text inside [[ and ]]. */
  lemma {:induction false} FindLinksShape(text: string)
    ensures forall x :: x in FindLinks(text) ==> IsLinkTarget(x) && Occurs(text, "[[" + x + "]]")
    decreases |text|
  {
    if |text| >= 2 {
      var j := FirstClose(text, 2);
      if text[0] == '[' && text[1] == '[' && j > 2 && j + 1 < |text| && text[j + 1] == ']' {
        var x := text[2..j];
        FindLinksShape(text[j + 2..]);
        forall y | y in FindLinks(text[j + 2..]) ensures Occurs(text, "[[" + y + "]]") {
          OccursInSuffix(text, j + 2, "[[" + y + "]]");
        }
        assert text[0..j + 2] == "[[" + x + "]]";
        assert OccursAt(text, "[[" + x + "]]", 0);
      } else {
        FindLinksShape(text[1..]);
        forall y | y in FindLinks(text[1..]) ensures Occurs(text, "[[" + y + "]]") {
          OccursInSuffix(text, 1, "[[" + y + "]]");
        }
      }
    }
  }

  /** _extract_wikilinks returns a strictly increasing list, that is sorted
      and free of duplicates, holding exactly the matches of the pattern; each
      is non-empty, has no ']', and occurs in the text as [[x]]. */
  lemma ExtractWikilinksShape(text: string)
    ensures var links := ExtractWikilinks(text);
      && StrictlySorted(links)
      && (forall x :: x in links <==> x in FindLinks(text))
      && (forall x :: x in links ==> IsLinkTarget(x) && Occurs(text, "[[" + x + "]]"))
  {
    FindLinksShape(text);
  }

  /** A wikilink at the front is found, and the search resumes after it. */
  lemma FindLinksAtFront(x: string, rest: string)
    requires IsLinkTarget(x)
    ensures FindLinks("[[" + x + "]]" + rest) == [x] + FindLinks(rest)
  {
    var text := "[[" + x + "]]" + rest;
    var j := |x| + 2;
    assert forall k :: 2 <= k < j ==> text[k] == x[k - 2];
    assert text[j] == ']' && text[j + 1] == ']';
    assert FirstClose(text, 2) == j;
    assert text[2..j] == x;
    assert text[j + 2..] == rest;
  }

  /** Text without '[' in front of the rest contributes no match. */
  lemma {:induction false} FindLinksSkip(a: string, rest: string)
    requires forall i :: 0 <= i < |a| ==> a[i] != '['
    ensures FindLinks(a + rest) == FindLinks(rest)
    decreases |a|
  {
    if a != [] {
      assert (a + rest)[0] == a[0];
      assert (a + rest)[1..] == a[1..] + rest;
      FindLinksSkip(a[1..], rest);
    } else {
      assert a + rest == rest;
    }
  }

  /** A summary mentioning the same concept twice yields that concept once. */
  lemma RepeatedWikilinkExample()
    ensures ExtractWikilinks("See [[Other]] and [[Other]]") == ["Other"]
  {
    var x := "Other";
    assert "See [[Other]] and [[Other]]" == "See " + ("[[" + x + "]]") + (" and " + ("[[" + x + "]]"));
    RepeatedWikilink("See ", x, " and ");
  }

  /** Text mentioning one link twice, with no other '[', yields it once. */
  lemma RepeatedWikilink(a: string, x: string, b: string)
    requires IsLinkTarget(x) && FreeOf(a, '[') && FreeOf(b, '[')
    ensures ExtractWikilinks(a + ("[[" + x + "]]") + (b + ("[[" + x + "]]"))) == [x]
  {
    var link := "[[" + x + "]]";
    var text := a + link + (b + link);
    assert text == a + (link + (b + (link + [])));
    FindLinksSkip(a, link + (b + (link + [])));
    FindLinksAtFront(x, b + (link + []));
    FindLinksSkip(b, link + []);
    FindLinksAtFront(x, []);
    assert FindLinks(text) == [x, x];
    assert [x, x][..1] == [x];
    assert SortedSet([x]) == [x];
    assert SortedSet([x, x]) == Insert(x, [x]);
  }

  // ---------------------------------------------------------------------------
  // Links and tags sections
  // ---------------------------------------------------------------------------

  function LinkLine(link: string): string
  {
    "- [[" + link + "]]"
  }

  function LinkLines(links: seq<string>): (lines: seq<string>)
    ensures |lines| == |links|
  {
    seq(|links|, k requires 0 <= k < |links| => LinkLine(links[k]))
  }

  const NoLinks := "- No direct links identified"

  /** The value of _format_links. */
  function LinksSection(links: seq<string>): string
  {
    if links == [] then NoLinks else Join(LinkLines(links), "\n")
  }

  /** For links without a line break, the links section of a non-empty list
      has exactly one line per link, in the order given. */
  lemma LinksSectionLines(links: seq<string>)
    requires links != []
    requires forall k, i :: 0 <= k < |links| && 0 <= i < |links[k]| ==> links[k][i] != '\n'
    ensures Split(LinksSection(links), '\n') == LinkLines(links)
  {
    var lines := LinkLines(links);
    forall k, i | 0 <= k < |lines| && 0 <= i < |lines[k]| ensures lines[k][i] != '\n' {
      if 4 <= i < 4 + |links[k]| {
        assert lines[k][i] == links[k][i - 4];
      }
    }
    SplitJoin(lines, '\n');
  }

  lemma LinksSectionCons(links: seq<string>)
    requires |links| > 1
    ensures LinksSection(links) == "- " + ("[[" + links[0] + "]]" + ("\n" + LinksSection(links[1..])))
  {
    assert LinkLines(links)[1..] == LinkLines(links[1..]);
  }

  lemma NoLinksHasNoLinks()
    ensures FindLinks(NoLinks) == []
  {
    assert forall i :: 0 <= i < |NoLinks| ==> NoLinks[i] != '[';
    FindLinksSkip(NoLinks, []);
    assert NoLinks + [] == NoLinks;
  }

  /** Reading the wikilinks back from the links section gives the links. */
  lemma {:induction false} LinksSectionLinks(links: seq<string>)
    requires forall k :: 0 <= k < |links| ==> IsLinkTarget(links[k])
    ensures FindLinks(LinksSection(links)) == links
    decreases |links|
  {
    if links == [] {
      NoLinksHasNoLinks();
    } else if |links| == 1 {
      var x := links[0];
      assert LinksSection(links) == "- " + ("[[" + x + "]]" + []);
      FindLinksSkip("- ", "[[" + x + "]]" + []);
      FindLinksAtFront(x, []);
    } else {
      var x := links[0];
      var rest := LinksSection(links[1..]);
      LinksSectionCons(links);
      FindLinksSkip("- ", "[[" + x + "]]" + ("\n" + rest));
      FindLinksAtFront(x, "\n" + rest);
      FindLinksSkip("\n", rest);
      LinksSectionLinks(links[1..]);
      assert links == [x] + links[1..];
    }
  }

  /** The links section built from a summary's wikilinks shows exactly those
      wikilinks again. */
  lemma LinksSectionOfSummary(summary: string)
    ensures ExtractWikilinks(LinksSection(ExtractWikilinks(summary))) == ExtractWikilinks(summary)
  {
    var links := ExtractWikilinks(summary);
    ExtractWikilinksShape(summary);
    LinksSectionLinks(links);
    SortedSetNoop(links);
  }

  /** A tag as _format_tags and _format_tags_yaml clean it: tag.strip().lstrip('#'). */
  function CleanTag(tag: string): string
  {
    LStripChar(Strip(tag), '#')
  }

  /** The images under f of the elements of xs that are not empty, in order. */
  function NonEmptyImages(f: string -> string, xs: seq<string>): (ys: seq<string>)
    ensures |ys| <= |xs|
    ensures forall i :: 0 <= i < |ys| ==> ys[i] != []
  {
    if xs == [] then []
    else
      var y := f(xs[|xs| - 1]);
      NonEmptyImages(f, xs[..|xs| - 1]) + (if y == [] then [] else [y])
  }

  /** Every non-empty image is kept. */
  lemma {:induction false} NonEmptyImagesComplete(f: string -> string, xs: seq<string>)
    ensures forall k :: 0 <= k < |xs| && f(xs[k]) != [] ==> f(xs[k]) in NonEmptyImages(f, xs)
    decreases |xs|
  {
    if xs != [] {
      var init := xs[..|xs| - 1];
      NonEmptyImagesComplete(f, init);
      assert forall k :: 0 <= k < |init| ==> xs[k] == init[k];
    }
  }

  /** y is the image under f of an element of xs. */
  predicate ImageOf(y: string, f: string -> string, xs: seq<string>) {
    exists k :: 0 <= k < |xs| && y == f(xs[k])
  }

  /** Everything kept is the image of an element. */
  lemma {:induction false} NonEmptyImagesSound(f: string -> string, xs: seq<string>)
    ensures forall i :: 0 <= i < |NonEmptyImages(f, xs)| ==> ImageOf(NonEmptyImages(f, xs)[i], f, xs)
    decreases |xs|
  {
    if xs != [] {
      var init := xs[..|xs| - 1];
      NonEmptyImagesSound(f, init);
      var ys := NonEmptyImages(f, xs);
      var zs := NonEmptyImages(f, init);
      forall i | 0 <= i < |ys| ensures ImageOf(ys[i], f, xs) {
        if i < |zs| {
          assert ImageOf(zs[i], f, init);
          var k :| 0 <= k < |init| && zs[i] == f(init[k]);
          assert ys[i] == f(xs[k]);
        } else {
          assert ys[i] == f(xs[|xs| - 1]);
        }
      }
    }
  }

  /** The cleaned tags that are not empty, in order. */
  function CleanTags(tags: seq<string>): seq<string>
  {
    NonEmptyImages(CleanTag, tags)
  }

  /** No cleaned tag is empty or starts with '#'. */
  lemma CleanTagsNoHash(tags: seq<string>)
    ensures forall i :: 0 <= i < |CleanTags(tags)| ==> CleanTags(tags)[i] != [] && CleanTags(tags)[i][0] != '#'
  {
    NonEmptyImagesSound(CleanTag, tags);
    forall i | 0 <= i < |CleanTags(tags)| ensures CleanTags(tags)[i][0] != '#' {
      assert ImageOf(CleanTags(tags)[i], CleanTag, tags);
    }
  }

  /** The cleaned tags are exactly the non-empty cleanings of the tags. */
  lemma CleanTagsMembers(tags: seq<string>)
    ensures forall i :: 0 <= i < |CleanTags(tags)| ==> ImageOf(CleanTags(tags)[i], CleanTag, tags)
    ensures forall k :: 0 <= k < |tags| && CleanTag(tags[k]) != [] ==> CleanTag(tags[k]) in CleanTags(tags)
  {
    NonEmptyImagesSound(CleanTag, tags);
    NonEmptyImagesComplete(CleanTag, tags);
  }

  /** A cleaned tag is a part of the stripped tag after its leading '#'s; it
      is empty exactly when the stripped tag is made of '#'s only, and
      otherwise it does not start with '#' and does not end with a space. */
  lemma CleanTagShape(tag: string)
    ensures var c := CleanTag(tag); var t := Strip(tag);
      && c == t[|t| - |c|..]
      && (c == [] <==> forall i :: 0 <= i < |t| ==> t[i] == '#')
      && (c != [] ==> c[0] != '#' && !IsSpace(c[|c| - 1]))
  {
    var t := Strip(tag);
    StripShape(tag);
    var c := CleanTag(tag);
    if c != [] {
      assert c[|c| - 1] == t[|t| - 1];
    }
  }

  function Hashtags(clean: seq<string>): (tokens: seq<string>)
    ensures |tokens| == |clean|
  {
    seq(|clean|, k requires 0 <= k < |clean| => "#" + clean[k])
  }

  /** The value of _format_tags. */
  function TagsLine(tags: seq<string>): string
  {
    if tags == [] then "" else Join(Hashtags(CleanTags(tags)), " ")
  }

  /** _format_tags gives "" exactly when no tag is left after cleaning. */
  lemma TagsLineEmpty(tags: seq<string>)
    ensures TagsLine(tags) == "" <==> CleanTags(tags) == []
  {
    var clean := CleanTags(tags);
    if clean != [] {
      var h := Hashtags(clean);
      assert tags != [];
      assert h[0] == "#" + clean[0];
      assert Join(h, " ")[0] == '#';
    }
  }

  /** _format_tags gives "" for no tags; otherwise, for tags whose cleaned
      forms have no inner space, its space-separated tokens are, in order,
      '#' followed by each non-empty cleaned tag, which never starts with '#'. */
  lemma TagsLineTokens(tags: seq<string>)
    requires CleanTags(tags) != []
    requires forall k, i :: 0 <= k < |CleanTags(tags)| && 0 <= i < |CleanTags(tags)[k]| ==> CleanTags(tags)[k][i] != ' '
    ensures var tokens := Split(TagsLine(tags), ' ');
      && |tokens| == |CleanTags(tags)|
      && forall k :: 0 <= k < |tokens| ==> |tokens[k]| >= 2 && tokens[k][0] == '#' && tokens[k][1] != '#' && tokens[k][1..] == CleanTags(tags)[k]
  {
    var clean := CleanTags(tags);
    CleanTagsNoHash(tags);
    var tokens := Hashtags(clean);
    forall k, i | 0 <= k < |tokens| && 0 <= i < |tokens[k]| ensures tokens[k][i] != ' ' {
      if i > 0 {
        assert tokens[k][i] == clean[k][i - 1];
      }
    }
    SplitJoin(tokens, ' ');
  }

  const DefaultTags: seq<string> := ["finance", "investing"]

  /** formatted_tags.insert(0, d) when d is missing. */
  function AddMissing(d: string, xs: seq<string>): seq<string>
  {
    if d in xs then xs else [d] + xs
  }

  /** xs with the first n default tags, taken in order, each inserted at the
      front when missing. */
  function AddDefaults(n: nat, xs: seq<string>): seq<string>
    requires n <= |DefaultTags|
  {
    if n == 0 then xs else AddMissing(DefaultTags[n - 1], AddDefaults(n - 1, xs))
  }

  /** The cleaned tags with "finance" and then "investing" each inserted at
      the front when missing. */
  function YamlTagList(tags: seq<string>): seq<string>
  {
    AddDefaults(|DefaultTags|, CleanTags(tags))
  }

  /** The value of _format_tags_yaml. */
  function TagsYaml(tags: seq<string>): string
  {
    if tags == [] then "finance, investing" else Join(YamlTagList(tags), ", ")
  }

  /** The YAML tag list holds both defaults and ends with the cleaned tags in
      their order; what comes before them are defaults the cleaned tags
      lacked, and when both were lacking they come as "investing", "finance". */
  lemma YamlTagListShape(tags: seq<string>)
    ensures var l := YamlTagList(tags); var c := CleanTags(tags);
      && "finance" in l && "investing" in l
      && |c| <= |l| <= |c| + 2 && l[|l| - |c|..] == c
      && (forall i :: 0 <= i < |l| - |c| ==> l[i] in DefaultTags && l[i] !in c)
      && ("finance" !in c && "investing" !in c ==> l == ["investing", "finance"] + c)
  {
    var c := CleanTags(tags);
    var f, v := DefaultTags[0], DefaultTags[1];
    assert f == "finance" && v == "investing";
    var l1 := AddMissing(f, c);
    var l := AddMissing(v, l1);
    assert AddDefaults(1, c) == l1;
    assert YamlTagList(tags) == AddDefaults(2, c) == l;
    assert f in l1;
    if f in c {
      assert l1 == c;
    } else {
      assert l1 == [f] + c && l1[1..] == c;
    }
    if v in l1 {
      assert l == l1;
    } else {
      assert l == [v] + l1 && l[1..] == l1;
      assert v !in c;
    }
  }

  /** The two ways of getting the default tags only: no tags at all gives
      "finance, investing", while tags that all clean to nothing (such as
      "#" or "  ") give the defaults in the opposite order. */
  lemma TagsYamlDefaultsOrder(tags: seq<string>)
    requires tags != []
    requires forall k :: 0 <= k < |tags| ==> CleanTag(tags[k]) == []
    ensures TagsYaml([]) == "finance, investing"
    ensures TagsYaml(tags) == "investing" + ", " + "finance"
  {
    var y := TagsYaml(tags);
    var l := YamlTagList(tags);
    assert y == Join(l, ", ");
    CleanTagsAllEmpty(tags);
    YamlTagListShape(tags);
    assert l == ["investing", "finance"];
    JoinPair(l, ", ");
  }

  lemma CleanTagsAllEmpty(tags: seq<string>)
    requires forall k :: 0 <= k < |tags| ==> CleanTag(tags[k]) == []
    ensures CleanTags(tags) == []
  {
    NonEmptyImagesNone(CleanTag, tags);
  }

  /** When every image is empty, nothing is kept. */
  lemma {:induction false} NonEmptyImagesNone(f: string -> string, xs: seq<string>)
    requires forall k :: 0 <= k < |xs| ==> f(xs[k]) == []
    ensures NonEmptyImages(f, xs) == []
    decreases |xs|
  {
    if xs != [] {
      var init := xs[..|xs| - 1];
      assert forall k :: 0 <= k < |init| ==> init[k] == xs[k];
      NonEmptyImagesNone(f, init);
    }
  }

  lemma JoinPair(l: seq<string>, sep: string)
    requires |l| == 2
    ensures Join(l, sep) == l[0] + sep + l[1]
  {
    assert l[1..] == [l[1]];
    assert Join(l[1..], sep) == l[1];
  }

  // ---------------------------------------------------------------------------
  // The index note
  // ---------------------------------------------------------------------------

  /** A note whose "title" is a string: what the index needs of each note. */
  predicate Titled(note: Json) {
    note.JObj? && "title" in note.fields && note.fields["title"].JStr?
  }

  function TitleOf(note: Json): string
    requires Titled(note)
  {
    note.fields["title"].s
  }

  /** The name of the index note (without ".md"): "index-" and the chapter
      lower-cased with spaces made hyphens, or "index" when no chapter is
      given. */
  function IndexFilename(chapter: Option<string>): string
  {
    if chapter.Some? && chapter.value != [] then "index-" + Replace(ToLower(chapter.value), " ", "-")
    else "index"
  }

  /** chapter_info or 'Generated Notes'. */
  function IndexLabel(chapter: Option<string>): string
  {
    if chapter.Some? && chapter.value != [] then chapter.value else "Generated Notes"
  }

  function IndexHeader(chapter: Option<string>, count: nat): string
  {
    "# Index: " + IndexLabel(chapter) + "\n\nGenerated " + NatToString(count)
    + " atomic notes from this chapter.\n\n## Notes\n\n"
  }

  /** The index line of a note: a wikilink to its file, then its title. */
  function IndexEntry(title: string): string
  {
    "- [[" + CapitalCaseFilename(title) + "]] - " + title + "\n"
  }

  /** The titles of the notes, in order. */
  function Titles(notes: seq<Json>): (titles: seq<string>)
    requires forall k :: 0 <= k < |notes| ==> Titled(notes[k])
    ensures |titles| == |notes|
    ensures forall k :: 0 <= k < |notes| ==> titles[k] == TitleOf(notes[k])
  {
    if notes == [] then []
    else
      var init := notes[..|notes| - 1];
      assert forall k :: 0 <= k < |init| ==> init[k] == notes[k];
      Titles(init) + [TitleOf(notes[|notes| - 1])]
  }

  function IndexEntries(titles: seq<string>): string
  {
    if titles == [] then []
    else IndexEntries(titles[..|titles| - 1]) + IndexEntry(titles[|titles| - 1])
  }

  /** The closing lines, naming the generator's own source file. */
  const IndexFooter := "\n---\n**Generated:** note_generator.py\n"

  /** The text of the index note. */
  function IndexContent(notes: seq<Json>, chapter: Option<string>): string
    requires forall k :: 0 <= k < |notes| ==> Titled(notes[k])
  {
    IndexHeader(chapter, |notes|) + IndexEntries(Titles(notes)) + IndexFooter
  }

  /** The file names of the titles, in order. */
  function Filenames(titles: seq<string>): (names: seq<string>)
    ensures |names| == |titles|
  {
    if titles == [] then []
    else Filenames(titles[..|titles| - 1]) + [CapitalCaseFilename(titles[|titles| - 1])]
  }

  /** The index file name starts with "index"; without a chapter it is just
      "index", otherwise "index-" followed by the chapter character by
      character, lower-cased and with each space made '-'; so it never holds
      a space or an upper-case letter. */
  lemma IndexFilenameShape(chapter: Option<string>)
    ensures var n := IndexFilename(chapter);
      && |n| >= 5 && n[..5] == "index"
      && (forall i :: 0 <= i < |n| ==> n[i] != ' ' && !IsUpper(n[i]))
      && (chapter.None? || chapter.value == [] ==> n == "index")
      && (chapter.Some? && chapter.value != [] ==>
            && |n| == 6 + |chapter.value| && n[..6] == "index-"
            && forall i :: 0 <= i < |chapter.value| ==>
                 n[6 + i] == if chapter.value[i] == ' ' then '-' else Lower(chapter.value[i]))
  {
    if chapter.Some? && chapter.value != [] {
      var c := chapter.value;
      var low := ToLower(c);
      ReplaceChar(low, ' ', '-');
      var n := IndexFilename(chapter);
      var r := Replace(low, " ", "-");
      assert n == "index-" + r;
      forall i | 0 <= i < |c|
        ensures n[6 + i] == if c[i] == ' ' then '-' else Lower(c[i])
      {
        assert n[6 + i] == r[i];
      }
      forall i | 0 <= i < |n| ensures n[i] != ' ' && !IsUpper(n[i]) {
        if i >= 6 {
          assert n[i] == r[i - 6];
        }
      }
    }
  }

  /** A Capital Case file name is a link target. */
  lemma FilenameIsLinkTarget(title: string)
    ensures IsLinkTarget(CapitalCaseFilename(title))
  {
    CapitalCaseFilenameShape(title);
    WellSpacedIsLinkTarget(CapitalCaseFilename(title));
  }

  lemma WellSpacedIsLinkTarget(name: string)
    requires name != [] && WellSpaced(name)
    ensures IsLinkTarget(name)
  {
    forall i | 0 <= i < |name| ensures name[i] != ']' {
      assert IsWordChar(name[i]) || name[i] == ' ';
    }
  }

  lemma EntryLinks(f: string, title: string, rest: string)
    requires IsLinkTarget(f) && FreeOf(title, '[')
    ensures FindLinks("- [[" + f + "]] - " + title + "\n" + rest) == [f] + FindLinks(rest)
  {
    var tail := " - " + title + "\n";
    assert FreeOf(tail, '[') by {
      FreeOfConcat(" - ", title, '[');
      FreeOfConcat(" - " + title, "\n", '[');
    }
    assert "- [[" + f + "]] - " + title + "\n" + rest == "- " + ("[[" + f + "]]" + (tail + rest));
    FindLinksSkip("- ", "[[" + f + "]]" + (tail + rest));
    FindLinksAtFront(f, tail + rest);
    FindLinksSkip(tail, rest);
  }

  lemma IndexEntryLinks(title: string, rest: string)
    requires FreeOf(title, '[')
    ensures FindLinks(IndexEntry(title) + rest) == [CapitalCaseFilename(title)] + FindLinks(rest)
  {
    FilenameIsLinkTarget(title);
    EntryLinks(CapitalCaseFilename(title), title, rest);
  }

  lemma {:induction false} IndexEntriesLinks(titles: seq<string>, rest: string)
    requires forall k :: 0 <= k < |titles| ==> FreeOf(titles[k], '[')
    ensures FindLinks(IndexEntries(titles) + rest) == Filenames(titles) + FindLinks(rest)
    decreases |titles|
  {
    if titles == [] {
      assert IndexEntries(titles) + rest == rest;
    } else {
      var init := titles[..|titles| - 1];
      var t := titles[|titles| - 1];
      var e := IndexEntry(t);
      assert IndexEntries(titles) + rest == IndexEntries(init) + (e + rest);
      assert forall k :: 0 <= k < |init| ==> init[k] == titles[k];
      IndexEntriesLinks(init, e + rest);
      IndexEntryLinks(t, rest);
      var f := CapitalCaseFilename(t);
      var fs := Filenames(init);
      var fl := FindLinks(rest);
      assert Filenames(titles) == fs + [f];
      assert FindLinks(IndexEntries(titles) + rest) == fs + ([f] + fl);
      SeqAssoc(fs, [f], fl);
    }
  }

  /** When neither the chapter nor any title holds '[', the index links,
      in order, to exactly the file names of the notes' titles. */
  lemma IndexContentLinks(notes: seq<Json>, chapter: Option<string>)
    requires forall k :: 0 <= k < |notes| ==> Titled(notes[k]) && FreeOf(TitleOf(notes[k]), '[')
    requires chapter.Some? ==> FreeOf(chapter.value, '[')
    ensures FindLinks(IndexContent(notes, chapter)) == Filenames(Titles(notes))
  {
    IndexPiecesLinks(notes, chapter);
  }

  /** The pieces of the index, header, entries and footer, link to the
      titles' file names. */
  lemma IndexPiecesLinks(notes: seq<Json>, chapter: Option<string>)
    requires forall k :: 0 <= k < |notes| ==> Titled(notes[k]) && FreeOf(TitleOf(notes[k]), '[')
    requires chapter.Some? ==> FreeOf(chapter.value, '[')
    ensures FindLinks(IndexHeader(chapter, |notes|) + IndexEntries(Titles(notes)) + IndexFooter) == Filenames(Titles(notes))
  {
    var titles := Titles(notes);
    IndexHeaderFree(chapter, |notes|);
    IndexPartsLinks(IndexHeader(chapter, |notes|), titles);
  }

  /** A header without '[' followed by the entries of the titles and the
      footer links to the titles' file names. */
  lemma IndexPartsLinks(h: string, titles: seq<string>)
    requires FreeOf(h, '[')
    requires forall k :: 0 <= k < |titles| ==> FreeOf(titles[k], '[')
    ensures FindLinks(h + IndexEntries(titles) + IndexFooter) == Filenames(titles)
  {
    var entries := IndexEntries(titles);
    SeqAssoc(h, entries, IndexFooter);
    FindLinksSkip(h, entries + IndexFooter);
    IndexEntriesLinks(titles, IndexFooter);
    FooterHasNoLinks();
    assert Filenames(titles) + [] == Filenames(titles);
  }

  lemma FooterHasNoLinks()
    ensures FindLinks(IndexFooter) == []
  {
    assert FreeOf(IndexFooter, '[');
    FindLinksSkip(IndexFooter, []);
    assert IndexFooter + [] == IndexFooter;
  }

  lemma IndexHeaderFree(chapter: Option<string>, count: nat)
    requires chapter.Some? ==> FreeOf(chapter.value, '[')
    ensures FreeOf(IndexHeader(chapter, count), '[')
  {
    NatToStringRoundTrip(count);
    var num := NatToString(count);
    assert FreeOf(num, '[');
    var lab := IndexLabel(chapter);
    var p1, p2, p3 := "# Index: ", "\n\nGenerated ", " atomic notes from this chapter.\n\n## Notes\n\n";
    assert FreeOf(p1, '[') && FreeOf(p2, '[') && FreeOf(p3, '[');
    FreeOfConcat(p1, lab, '[');
    FreeOfConcat(p1 + lab, p2, '[');
    FreeOfConcat(p1 + lab + p2, num, '[');
    FreeOfConcat(p1 + lab + p2 + num, p3, '[');
  }

  // ---------------------------------------------------------------------------
  // The map of content
  // ---------------------------------------------------------------------------

  /** The summary shown for a note in the map of content: a summary of at
      most 100 characters as it is, a longer one cut to its first 100
      characters followed by "...", so never more than 103 characters. */
  function MocSummary(summary: string): (shown: string)
    ensures |shown| <= 103
    ensures |summary| <= 100 ==> shown == summary
    ensures |summary| > 100 ==>
      |shown| == 103 && shown[..100] == summary[..100] && shown[100..] == "..."
  {
    if |summary| > 100 then summary[..100] + "..." else summary
  }

  // ---------------------------------------------------------------------------
  // Note data and the files written for it
  // ---------------------------------------------------------------------------

  /** The book named in every note. */
  const BookTitle := "A Random Walk Down Wall Street"

  /** What a note without "examples" shows in their place. */
  const NoExamples := "*No specific examples provided in the source material.*"

  /** The strings of a JSON list, or None when an element is not a string. */
  function StringsOf(items: seq<Json>): (r: Option<seq<string>>)
    ensures r.Some? <==> forall k :: 0 <= k < |items| ==> items[k].JStr?
    ensures r.Some? ==> |r.value| == |items| && forall k :: 0 <= k < |items| ==> r.value[k] == items[k].s
  {
    if items == [] then Some([])
    else
      var init := items[..|items| - 1];
      assert forall k :: 0 <= k < |init| ==> init[k] == items[k];
      var last := items[|items| - 1];
      match StringsOf(init)
      case None => None
      case Some(ss) => if last.JStr? then Some(ss + [last.s]) else None
  }

  /** Iterating a string: its characters, each as a string of its own. */
  function Chars(s: string): (cs: seq<string>)
    ensures |cs| == |s| && forall i :: 0 <= i < |s| ==> cs[i] == [s[i]]
  {
    seq(|s|, i requires 0 <= i < |s| => [s[i]])
  }

  /** The tags of a note as the tag formatting iterates them, or None when
      that iteration fails. A missing or falsy value gives no tags, a list
      must hold strings only (stripping anything else fails), a string is
      iterated by characters, and a true boolean or a non-zero number cannot
      be iterated. */
  function TagsOf(fields: map<string, Json>): Option<seq<string>>
  {
    if "tags" !in fields then Some([])
    else match fields["tags"]
      case JNull => Some([])
      case JBool(b) => if b then None else Some([])
      case JNum(n) => if n == 0.0 then Some([]) else None
      case JStr(s) => Some(Chars(s))
      case JArr(items) => StringsOf(items)
      case JObj(m) => if m == map[] then Some([]) else None
  }

  /** The examples of a note: the default text when missing, None when the
      value is not a string (it cannot be put into the template). */
  function ExamplesOf(fields: map<string, Json>): Option<string>
  {
    if "examples" !in fields then Some(NoExamples)
    else if fields["examples"].JStr? then Some(fields["examples"].s)
    else None
  }

  /** The note has a "title" and a "summary", and the title is a string: its
      file name can be computed. */
  predicate HasPath(fields: map<string, Json>) {
    "title" in fields && "summary" in fields && fields["title"].JStr?
  }

  /** The file of a note: its Capital Case title with ".md". */
  function NotePath(fields: map<string, Json>): string
    requires HasPath(fields)
  {
    CapitalCaseFilename(fields["title"].s) + ".md"
  }

  /** Everything the template needs is there and of the right type. */
  predicate Renderable(fields: map<string, Json>) {
    HasPath(fields) && fields["summary"].JStr? && TagsOf(fields).Some? && ExamplesOf(fields).Some?
  }

  /** The values put into the template for a note. */
  function NoteFill(fields: map<string, Json>, chapter: Option<string>, created: string): Fill
    requires Renderable(fields)
  {
    var summary := fields["summary"].s;
    Fill(fields["title"].s, summary, ExamplesOf(fields).value, LinksSection(ExtractWikilinks(summary)),
         ChapterLabel(chapter), TagsYaml(TagsOf(fields).value), BookTitle, created)
  }

  /** chapter_info or "Unknown". */
  function ChapterLabel(chapter: Option<string>): string
  {
    if chapter.Some? && chapter.value != [] then chapter.value else "Unknown"
  }

  /** What creating one note gives: the path reported, if any, and the
      output directory afterwards. */
  datatype Outcome = Outcome(path: Option<string>, files: map<string, string>)

  /** How a note is turned into text, given its clock reading. */
  type Render = (map<string, Json>, string) -> string

  /** The text of a renderable note: the template with the note's values. */
  function NoteText(template: string, fields: map<string, Json>, chapter: Option<string>, created: string): string
  {
    if Renderable(fields) then RenderNote(template, NoteFill(fields, chapter, created)) else []
  }

  /** The rendering of a generator with this template, for this chapter. */
  function Renderer(template: string, chapter: Option<string>): (render: Render)
    ensures forall fields, created :: Renderable(fields) ==>
      render(fields, created) == RenderNote(template, NoteFill(fields, chapter, created))
  {
    (fields, created) => NoteText(template, fields, chapter, created)
  }

  /** _create_single_note against an output directory: a note lacking its
      title or summary, or whose title is not a string, fails; a note whose
      file exists is reported without writing; otherwise the note is
      rendered and written, unless a value has the wrong type. So a note
      never overwrites a file, the only file it can add is its own path,
      which it reports, and it reports a path exactly when its file already
      exists or it can be rendered. */
  function SingleNote(files: map<string, string>, render: Render, fields: map<string, Json>, created: string): (o: Outcome)
    ensures forall p :: p in files ==> p in o.files && o.files[p] == files[p]
    ensures forall p :: p in o.files && p !in files ==> o.path == Some(p)
    ensures o.path.Some? <==> HasPath(fields) && (NotePath(fields) in files || Renderable(fields))
    ensures o.path.Some? ==> o.path.value == NotePath(fields) && o.path.value in o.files
    ensures HasPath(fields) && NotePath(fields) !in files && Renderable(fields) ==>
      o.files[NotePath(fields)] == render(fields, created)
  {
    if !HasPath(fields) then Outcome(None, files)
    else if NotePath(fields) in files then Outcome(Some(NotePath(fields)), files)
    else if !Renderable(fields) then Outcome(None, files)
    else Outcome(Some(NotePath(fields)), files[NotePath(fields) := render(fields, created)])
  }

  /** The paths reported and the output directory after a run over notes. */
  datatype Batch = Batch(created: seq<string>, files: map<string, string>)

  /** create_notes_from_data: the notes created one after the other, each
      with its own clock reading; a failing note is skipped. */
  function CreateAll(files: map<string, string>, render: Render, notes: seq<Json>, stamps: seq<string>): Batch
    requires |stamps| == |notes|
    requires forall k :: 0 <= k < |notes| ==> notes[k].JObj?
  {
    if notes == [] then Batch([], files)
    else
      var n := |notes| - 1;
      var b := CreateAll(files, render, notes[..n], stamps[..n]);
      var o := SingleNote(b.files, render, notes[n].fields, stamps[n]);
      Batch(b.created + (if o.path.Some? then [o.path.value] else []), o.files)
  }

  /** A note that can be rendered has its file in the directory. */
  predicate HasFile(fields: map<string, Json>, files: map<string, string>) {
    Renderable(fields) ==> NotePath(fields) in files
  }

  lemma HasFileGrows(fields: map<string, Json>, files: map<string, string>, more: map<string, string>)
    requires HasFile(fields, files) && files.Keys <= more.Keys
    ensures HasFile(fields, more)
  {
  }

  lemma SingleNoteHasFile(files: map<string, string>, render: Render, fields: map<string, Json>, created: string)
    ensures HasFile(fields, SingleNote(files, render, fields, created).files)
  {
  }

  /** A run over notes never overwrites a file; every file it adds is one it
      reports, every path it reports is a file afterwards, it reports at most
      one path per note, and every note that can be rendered has its file
      afterwards. */
  lemma {:induction false} CreateAllWritesOnce(files: map<string, string>, render: Render, notes: seq<Json>,
                                               stamps: seq<string>)
    requires |stamps| == |notes|
    requires forall k :: 0 <= k < |notes| ==> notes[k].JObj?
    ensures var b := CreateAll(files, render, notes, stamps);
      && (forall p :: p in files ==> p in b.files && b.files[p] == files[p])
      && (forall p :: p in b.files && p !in files ==> p in b.created)
      && (forall p :: p in b.created ==> p in b.files)
      && |b.created| <= |notes|
      && (forall k :: 0 <= k < |notes| ==> HasFile(notes[k].fields, b.files))
    decreases |notes|
  {
    if notes != [] {
      var n := |notes| - 1;
      var init := notes[..n];
      assert forall k :: 0 <= k < n ==> init[k] == notes[k];
      CreateAllWritesOnce(files, render, init, stamps[..n]);
      var b := CreateAll(files, render, init, stamps[..n]);
      var fields := notes[n].fields;
      var o := SingleNote(b.files, render, fields, stamps[n]);
      var created := b.created + (if o.path.Some? then [o.path.value] else []);
      assert CreateAll(files, render, notes, stamps) == Batch(created, o.files);
      forall p | p in o.files && p !in files ensures p in created {
        if p !in b.files {
          assert o.path == Some(p);
        }
      }
      forall k | 0 <= k < |notes| ensures HasFile(notes[k].fields, o.files) {
        if k < n {
          assert init[k] == notes[k];
          HasFileGrows(notes[k].fields, b.files, o.files);
        } else {
          assert k == n;
          SingleNoteHasFile(b.files, render, fields, stamps[n]);
        }
      }
    }
  }

  /** Running again over the same notes, at any later time, writes nothing:
      every file a note could write already exists. */
  lemma RerunWritesNothing(files: map<string, string>, render: Render, notes: seq<Json>,
                           stamps: seq<string>, later: seq<string>)
    requires |stamps| == |notes| && |later| == |notes|
    requires forall k :: 0 <= k < |notes| ==> notes[k].JObj?
    ensures var b := CreateAll(files, render, notes, stamps);
      CreateAll(b.files, render, notes, later).files == b.files
  {
    var b := CreateAll(files, render, notes, stamps);
    CreateAllWritesOnce(files, render, notes, stamps);
    AllWrittenKeeps(b.files, render, notes, later);
  }

  lemma {:induction false} AllWrittenKeeps(files: map<string, string>, render: Render, notes: seq<Json>,
                                           stamps: seq<string>)
    requires |stamps| == |notes|
    requires forall k :: 0 <= k < |notes| ==> notes[k].JObj?
    requires forall k :: 0 <= k < |notes| ==> HasFile(notes[k].fields, files)
    ensures CreateAll(files, render, notes, stamps).files == files
    decreases |notes|
  {
    if notes != [] {
      var n := |notes| - 1;
      var init := notes[..n];
      assert forall k :: 0 <= k < n ==> init[k] == notes[k];
      AllWrittenKeeps(files, render, init, stamps[..n]);
      assert HasFile(notes[n].fields, files);
    }
  }

  // ---------------------------------------------------------------------------
  // The formatting loops
  // ---------------------------------------------------------------------------

  lemma LinkLinesSnoc(links: seq<string>, k: nat)
    requires k < |links|
    ensures LinkLines(links[..k + 1]) == LinkLines(links[..k]) + [LinkLine(links[k])]
  {
    assert links[..k + 1][..k] == links[..k];
  }

  /** _format_links, building the list of lines one link at a time. */
  method FormatLinks(links: seq<string>) returns (r: string)
    ensures r == LinksSection(links)
  {
    if links == [] {
      return NoLinks;
    }
    var formatted: seq<string> := [];
    for k := 0 to |links|
      invariant formatted == LinkLines(links[..k])
    {
      LinkLinesSnoc(links, k);
      formatted := formatted + ["- [[" + links[k] + "]]"];
    }
    assert links[..|links|] == links;
    r := Join(formatted, "\n");
  }

  lemma CleanTagsSnoc(tags: seq<string>, k: nat)
    requires k < |tags|
    ensures CleanTags(tags[..k + 1]) == CleanTags(tags[..k]) + (if CleanTag(tags[k]) == [] then [] else [CleanTag(tags[k])])
  {
    assert tags[..k + 1][..k] == tags[..k];
    assert tags[..k + 1][k] == tags[k];
  }

  lemma HashtagsSnoc(clean: seq<string>, c: string)
    ensures Hashtags(clean + [c]) == Hashtags(clean) + ["#" + c]
  {
  }

  /** _format_tags, collecting the hashtags one tag at a time. */
  method FormatTags(tags: seq<string>) returns (r: string)
    ensures r == TagsLine(tags)
  {
    if tags == [] {
      return "";
    }
    var formatted: seq<string> := [];
    for k := 0 to |tags|
      invariant formatted == Hashtags(CleanTags(tags[..k]))
    {
      CleanTagsSnoc(tags, k);
      var clean := CleanTag(tags[k]);
      if clean != [] {
        HashtagsSnoc(CleanTags(tags[..k]), clean);
        formatted := formatted + ["#" + clean];
      } else {
        assert CleanTags(tags[..k + 1]) == CleanTags(tags[..k]) + [];
      }
    }
    assert tags[..|tags|] == tags;
    r := Join(formatted, " ");
  }

  /** _format_tags_yaml: the cleaned tags collected one at a time, then each
      default tag inserted at the front when missing. */
  method FormatTagsYaml(tags: seq<string>) returns (r: string)
    ensures r == TagsYaml(tags)
  {
    if tags == [] {
      return "finance, investing";
    }
    var formatted: seq<string> := [];
    for k := 0 to |tags|
      invariant formatted == CleanTags(tags[..k])
    {
      CleanTagsSnoc(tags, k);
      var clean := CleanTag(tags[k]);
      if clean != [] {
        formatted := formatted + [clean];
      } else {
        assert CleanTags(tags[..k + 1]) == CleanTags(tags[..k]) + [];
      }
    }
    assert tags[..|tags|] == tags;
    ghost var cleaned := formatted;
    var defaults := DefaultTags;
    for k := 0 to |defaults|
      invariant formatted == AddDefaults(k, cleaned)
    {
      if defaults[k] !in formatted {
        formatted := [defaults[k]] + formatted;
      }
    }
    r := Join(formatted, ", ");
  }

  // ---------------------------------------------------------------------------
  // The generator
  // ---------------------------------------------------------------------------

  /** A note generator: its template and its output directory, a map from
      file name to contents. */
  class NoteGenerator {
    /** The template, fixed when the generator is made. */
    const template: string
    var files: map<string, string>

    /** templateFile holds the template file's contents when a template path
        is given and the file exists; existing is the output directory. */
    constructor (templateFile: Option<string>, existing: map<string, string>)
      ensures template == (if templateFile.Some? then templateFile.value else DefaultTemplate)
      ensures files == existing
    {
      template := if templateFile.Some? then templateFile.value else DefaultTemplate;
      files := existing;
    }

    /** _create_single_note: the reported path (None where the source raises)
        and the new directory are those of SingleNote; created is the clock
        reading. */
    method CreateSingleNote(fields: map<string, Json>, chapter: Option<string>, created: string)
      returns (path: Option<string>)
      modifies this
      ensures path == SingleNote(old(files), Renderer(template, chapter), fields, created).path
      ensures files == SingleNote(old(files), Renderer(template, chapter), fields, created).files
    {
      if "title" !in fields || "summary" !in fields || !fields["title"].JStr? {
        return None;
      }
      var title := fields["title"].s;
      var filePath := CapitalCaseFilename(title) + ".md";
      if filePath in files {
        return Some(filePath);
      }
      var tags := TagsOf(fields);
      var examples := ExamplesOf(fields);
      if !fields["summary"].JStr? || tags.None? || examples.None? {
        return None;
      }
      var summary := fields["summary"].s;
      var links := ExtractWikilinks(summary);
      var linksText := FormatLinks(links);
      var tagsText := FormatTagsYaml(tags.value);
      var content := template;
      content := Replace(content, "{{TITLE}}", title);
      content := Replace(content, "{{SUMMARY}}", summary);
      content := Replace(content, "{{EXAMPLES}}", examples.value);
      content := Replace(content, "{{LINKS}}", linksText);
      content := Replace(content, "{{CHAPTER}}", ChapterLabel(chapter));
      content := Replace(content, "{{TAGS}}", tagsText);
      content := Replace(content, "{{BOOK_TITLE}}", BookTitle);
      content := Replace(content, "{{CREATED}}", created);
      assert content == RenderNote(template, NoteFill(fields, chapter, created));
      files := files[filePath := content];
      path := Some(filePath);
    }

    /** create_notes_from_data: every note created in turn, with stamps[k]
        the clock reading for note k; the paths reported are collected. */
    method CreateNotesFromData(notes: seq<Json>, chapter: Option<string>, stamps: seq<string>)
      returns (created: seq<string>)
      requires |stamps| == |notes|
      requires forall k :: 0 <= k < |notes| ==> notes[k].JObj?
      modifies this
      ensures created == CreateAll(old(files), Renderer(template, chapter), notes, stamps).created
      ensures files == CreateAll(old(files), Renderer(template, chapter), notes, stamps).files
    {
      created := [];
      ghost var render := Renderer(template, chapter);
      for k := 0 to |notes|
        invariant created == CreateAll(old(files), render, notes[..k], stamps[..k]).created
        invariant files == CreateAll(old(files), render, notes[..k], stamps[..k]).files
      {
        assert notes[..k + 1][..k] == notes[..k] && stamps[..k + 1][..k] == stamps[..k];
        var path := CreateSingleNote(notes[k].fields, chapter, stamps[k]);
        if path.Some? {
          created := created + [path.value];
        }
      }
      assert notes[..|notes|] == notes && stamps[..|stamps|] == stamps;
    }

    /** create_index_note: nothing for no notes; Err(k) when note k is the
        first without a string title (the source raises there and writes
        nothing); otherwise the index file is written and its name returned. */
    method CreateIndexNote(notes: seq<Json>, chapter: Option<string>) returns (r: Result<Option<string>, nat>)
      modifies this
      ensures r.Ok? <==> forall k :: 0 <= k < |notes| ==> Titled(notes[k])
      ensures notes == [] ==> r == Ok(None) && files == old(files)
      ensures notes != [] && r.Ok? ==>
        && r.value == Some(IndexFilename(chapter) + ".md")
        && files == old(files)[IndexFilename(chapter) + ".md" := IndexContent(notes, chapter)]
      ensures r.Err? ==>
        && r.error < |notes| && !Titled(notes[r.error])
        && (forall k :: 0 <= k < r.error ==> Titled(notes[k]))
        && files == old(files)
    {
      if notes == [] {
        return Ok(None);
      }
      var indexPath := IndexFilename(chapter) + ".md";
      var content := BuildIndex(notes, chapter);
      if content.Err? {
        return Err(content.error);
      }
      files := files[indexPath := content.value];
      r := Ok(Some(indexPath));
    }
  }

  /** The text of create_index_note, built as the source builds it: the
      header, the entries, then the footer. The first note without a title
      stops it, and its position is reported. */
  method BuildIndex(notes: seq<Json>, chapter: Option<string>) returns (r: Result<string, nat>)
    ensures r.Ok? <==> forall k :: 0 <= k < |notes| ==> Titled(notes[k])
    ensures r.Ok? ==> r.value == IndexContent(notes, chapter)
    ensures r.Err? ==>
      && r.error < |notes| && !Titled(notes[r.error])
      && (forall k :: 0 <= k < r.error ==> Titled(notes[k]))
  {
    var header := IndexHeader(chapter, |notes|);
    var entries := AppendEntries(notes);
    if entries.Err? {
      return Err(entries.error);
    }
    r := Ok(header + entries.value + IndexFooter);
  }

  /** The `content +=` loop of create_index_note: one entry per note while
      every note so far has a title. The first note without a title stops it,
      and its position is reported. */
  method AppendEntries(notes: seq<Json>) returns (r: Result<string, nat>)
    ensures r.Ok? <==> forall k :: 0 <= k < |notes| ==> Titled(notes[k])
    ensures r.Ok? ==> r.value == IndexEntries(Titles(notes))
    ensures r.Err? ==>
      && r.error < |notes| && !Titled(notes[r.error])
      && (forall k :: 0 <= k < r.error ==> Titled(notes[k]))
  {
    var content := "";
    for k := 0 to |notes|
      invariant forall j :: 0 <= j < k ==> Titled(notes[j])
      invariant content == IndexEntries(Titles(notes[..k]))
    {
      if !Titled(notes[k]) {
        return Err(k);
      }
      var title := TitleOf(notes[k]);
      IndexStep(notes, k);
      content := content + IndexEntry(title);
    }
    assert notes[..|notes|] == notes;
    return Ok(content);
  }

  lemma IndexStep(notes: seq<Json>, k: nat)
    requires k < |notes| && forall j :: 0 <= j <= k ==> Titled(notes[j])
    ensures IndexEntries(Titles(notes[..k + 1])) == IndexEntries(Titles(notes[..k])) + IndexEntry(TitleOf(notes[k]))
  {
    var front := notes[..k + 1];
    assert front[..k] == notes[..k];
    var ts := Titles(front);
    assert ts[..k] == Titles(notes[..k]);
    assert ts[k] == TitleOf(notes[k]);
  }
}
