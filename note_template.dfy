/**
 * The note template: the placeholder substitution that renders a note, the
 * default template, and what any template made of literal text and
 * placeholders renders to.
 */
module NoteTemplate {
  import opened Text

  // ---------------------------------------------------------------------------
  // Filling in the note template
  // ---------------------------------------------------------------------------

  /** The text put in for each placeholder of the template. */
  datatype Fill = Fill(title: string, summary: string, examples: string, links: string,
                       chapter: string, tags: string, bookTitle: string, created: string)

  /** The placeholder substitution of _create_single_note: each placeholder
      replaced in turn, in this order, in the text the previous step left. */
  function RenderNote(template: string, f: Fill): string
  {
    var c1 := Replace(template, "{{TITLE}}", f.title);
    var c2 := Replace(c1, "{{SUMMARY}}", f.summary);
    var c3 := Replace(c2, "{{EXAMPLES}}", f.examples);
    var c4 := Replace(c3, "{{LINKS}}", f.links);
    var c5 := Replace(c4, "{{CHAPTER}}", f.chapter);
    var c6 := Replace(c5, "{{TAGS}}", f.tags);
    var c7 := Replace(c6, "{{BOOK_TITLE}}", f.bookTitle);
    Replace(c7, "{{CREATED}}", f.created)
  }

  /** No value holds a '{', so none can form a placeholder. */
  predicate BraceFreeFill(f: Fill) {
    && FreeOf(f.title, '{') && FreeOf(f.summary, '{') && FreeOf(f.examples, '{') && FreeOf(f.links, '{')
    && FreeOf(f.chapter, '{') && FreeOf(f.tags, '{') && FreeOf(f.bookTitle, '{') && FreeOf(f.created, '{')
  }

  /** Every later placeholder replacement leaves a text without '{' alone. */
  lemma RenderAfterTitle(c1: string, f: Fill)
    requires FreeOf(c1, '{')
    ensures Replace(Replace(Replace(Replace(Replace(Replace(Replace(c1, "{{SUMMARY}}", f.summary),
      "{{EXAMPLES}}", f.examples), "{{LINKS}}", f.links), "{{CHAPTER}}", f.chapter), "{{TAGS}}", f.tags),
      "{{BOOK_TITLE}}", f.bookTitle), "{{CREATED}}", f.created) == c1
  {
    FreeOfNotOccurs(c1, "{{SUMMARY}}");
    ReplaceAbsent(c1, "{{SUMMARY}}", f.summary);
    RenderAfterSummary(c1, f);
  }

  /** A template without '{' comes out unchanged. */
  lemma RenderWithoutPlaceholders(template: string, f: Fill)
    requires FreeOf(template, '{')
    ensures RenderNote(template, f) == template
  {
    FreeOfNotOccurs(template, "{{TITLE}}");
    ReplaceAbsent(template, "{{TITLE}}", f.title);
    RenderAfterTitle(template, f);
  }

  /** A placeholder between texts without '{' is replaced by its value, and
      the texts around it are kept. */
  lemma RenderTitle(before: string, after: string, f: Fill)
    requires FreeOf(before, '{') && FreeOf(after, '{') && FreeOf(f.title, '{')
    ensures RenderNote(before + "{{TITLE}}" + after, f) == before + f.title + after
  {
    var p := "{{TITLE}}";
    assert before + p + after == before + (p + after);
    ReplaceAfterFree(before, p + after, p, f.title);
    ReplaceAtFront(p, after, f.title);
    FreeOfNotOccurs(after, p);
    ReplaceAbsent(after, p, f.title);
    var c1 := before + f.title + after;
    assert Replace(before + p + after, p, f.title) == c1;
    FreeOfConcat(before, f.title, '{');
    FreeOfConcat(before + f.title, after, '{');
    RenderAfterTitle(c1, f);
  }

  /** Values are substituted into the text as it stands, so a placeholder
      held by an earlier value is itself replaced by a later one: a title
      "{{SUMMARY}}" shows the summary. */
  lemma RenderRescansValues(f: Fill)
    requires f.title == "{{SUMMARY}}"
    requires FreeOf(f.summary, '{')
    ensures RenderNote("# {{TITLE}}", f) == "# " + f.summary
  {
    var t := "{{TITLE}}";
    var u := "{{SUMMARY}}";
    assert "# {{TITLE}}" == "# " + (t + []);
    ReplaceAfterFree("# ", t + [], t, f.title);
    ReplaceAtFront(t, [], f.title);
    var c1 := "# " + u;
    assert Replace("# {{TITLE}}", t, f.title) == c1 by {
      assert Replace([], t, f.title) == [];
      assert u + [] == u;
    }
    assert c1 == "# " + (u + []);
    ReplaceAfterFree("# ", u + [], u, f.summary);
    ReplaceAtFront(u, [], f.summary);
    assert Replace([], u, f.summary) == [];
    var c2 := "# " + f.summary;
    assert Replace(c1, u, f.summary) == c2;
    FreeOfConcat("# ", f.summary, '{');
    RenderAfterSummary(c2, f);
  }

  lemma RenderAfterSummary(c2: string, f: Fill)
    requires FreeOf(c2, '{')
    ensures Replace(Replace(Replace(Replace(Replace(Replace(c2, "{{EXAMPLES}}", f.examples),
      "{{LINKS}}", f.links), "{{CHAPTER}}", f.chapter), "{{TAGS}}", f.tags),
      "{{BOOK_TITLE}}", f.bookTitle), "{{CREATED}}", f.created) == c2
  {
    FreeOfNotOccurs(c2, "{{EXAMPLES}}");
    ReplaceAbsent(c2, "{{EXAMPLES}}", f.examples);
    FreeOfNotOccurs(c2, "{{LINKS}}");
    ReplaceAbsent(c2, "{{LINKS}}", f.links);
    FreeOfNotOccurs(c2, "{{CHAPTER}}");
    ReplaceAbsent(c2, "{{CHAPTER}}", f.chapter);
    FreeOfNotOccurs(c2, "{{TAGS}}");
    ReplaceAbsent(c2, "{{TAGS}}", f.tags);
    FreeOfNotOccurs(c2, "{{BOOK_TITLE}}");
    ReplaceAbsent(c2, "{{BOOK_TITLE}}", f.bookTitle);
    FreeOfNotOccurs(c2, "{{CREATED}}");
    ReplaceAbsent(c2, "{{CREATED}}", f.created);
  }

  // ---------------------------------------------------------------------------
  // Templates read as literal text between placeholders
  // ---------------------------------------------------------------------------

  /** The eight placeholders _create_single_note fills in. */
  datatype Placeholder = TitleSlot | SummarySlot | ExamplesSlot | LinksSlot
                       | ChapterSlot | TagsSlot | BookTitleSlot | CreatedSlot

  /** The position of a placeholder in the order of the replacements. */
  function Rank(p: Placeholder): nat
  {
    match p
    case TitleSlot => 0
    case SummarySlot => 1
    case ExamplesSlot => 2
    case LinksSlot => 3
    case ChapterSlot => 4
    case TagsSlot => 5
    case BookTitleSlot => 6
    case CreatedSlot => 7
  }

  function PlaceholderName(p: Placeholder): string
  {
    match p
    case TitleSlot => "TITLE"
    case SummarySlot => "SUMMARY"
    case ExamplesSlot => "EXAMPLES"
    case LinksSlot => "LINKS"
    case ChapterSlot => "CHAPTER"
    case TagsSlot => "TAGS"
    case BookTitleSlot => "BOOK_TITLE"
    case CreatedSlot => "CREATED"
  }

  /** How a placeholder is written in a template. */
  function Marker(p: Placeholder): string
  {
    "{{" + PlaceholderName(p) + "}}"
  }

  /** The value a note puts in for a placeholder. */
  function ValueOf(f: Fill, p: Placeholder): string
  {
    match p
    case TitleSlot => f.title
    case SummarySlot => f.summary
    case ExamplesSlot => f.examples
    case LinksSlot => f.links
    case ChapterSlot => f.chapter
    case TagsSlot => f.tags
    case BookTitleSlot => f.bookTitle
    case CreatedSlot => f.created
  }

  /** A piece of a template: literal text or a placeholder. */
  datatype Segment = Literal(text: string) | Slot(slot: Placeholder)

  /** The template as it is written. */
  function TemplateText(segs: seq<Segment>): string
  {
    if segs == [] then []
    else (match segs[0] case Literal(t) => t case Slot(p) => Marker(p)) + TemplateText(segs[1..])
  }

  /** The note the template describes: every literal kept and every
      placeholder replaced by its value. */
  function Filled(segs: seq<Segment>, f: Fill): string
  {
    if segs == [] then []
    else (match segs[0] case Literal(t) => t case Slot(p) => ValueOf(f, p)) + Filled(segs[1..], f)
  }

  /** Literal text without '{', so it cannot hold or start a placeholder. */
  predicate PlainSegments(segs: seq<Segment>) {
    forall i :: 0 <= i < |segs| && segs[i].Literal? ==> FreeOf(segs[i].text, '{')
  }

  /** Every template made of plain literal text and placeholders renders to
      the note it describes, when no value holds a '{'. */
  lemma RenderSegments(segs: seq<Segment>, f: Fill)
    requires PlainSegments(segs) && BraceFreeFill(f)
    ensures RenderNote(TemplateText(segs), f) == Filled(segs, f)
  {
    MarkersWritten();
    PartialNone(segs, f);
    PartialStep(segs, f, TitleSlot);
    PartialStep(segs, f, SummarySlot);
    PartialStep(segs, f, ExamplesSlot);
    PartialStep(segs, f, LinksSlot);
    PartialStep(segs, f, ChapterSlot);
    PartialStep(segs, f, TagsSlot);
    PartialStep(segs, f, BookTitleSlot);
    PartialStep(segs, f, CreatedSlot);
    PartialAll(segs, f);
  }

  lemma MarkersWritten()
    ensures Marker(TitleSlot) == "{{TITLE}}" && Marker(SummarySlot) == "{{SUMMARY}}"
    ensures Marker(ExamplesSlot) == "{{EXAMPLES}}" && Marker(LinksSlot) == "{{LINKS}}"
    ensures Marker(ChapterSlot) == "{{CHAPTER}}" && Marker(TagsSlot) == "{{TAGS}}"
    ensures Marker(BookTitleSlot) == "{{BOOK_TITLE}}" && Marker(CreatedSlot) == "{{CREATED}}"
  {
  }

  /** The text after the first n replacements: placeholders of rank below n
      hold their values, the others are still written out. */
  function Partial(segs: seq<Segment>, f: Fill, n: nat): string
  {
    if segs == [] then []
    else
      (match segs[0]
       case Literal(t) => t
       case Slot(p) => if Rank(p) < n then ValueOf(f, p) else Marker(p))
      + Partial(segs[1..], f, n)
  }

  lemma {:induction false} PartialNone(segs: seq<Segment>, f: Fill)
    ensures Partial(segs, f, 0) == TemplateText(segs)
    decreases |segs|
  {
    if segs != [] {
      PartialNone(segs[1..], f);
    }
  }

  lemma {:induction false} PartialAll(segs: seq<Segment>, f: Fill)
    ensures Partial(segs, f, 8) == Filled(segs, f)
    decreases |segs|
  {
    if segs != [] {
      PartialAll(segs[1..], f);
    }
  }

  lemma BraceFreeValue(f: Fill, p: Placeholder)
    requires BraceFreeFill(f)
    ensures FreeOf(ValueOf(f, p), '{')
  {
  }

  /** The replacement of the placeholder of rank n turns the text after n
      replacements into the text after n + 1. */
  lemma {:induction false} PartialStep(segs: seq<Segment>, f: Fill, p: Placeholder)
    requires PlainSegments(segs) && BraceFreeFill(f)
    ensures Replace(Partial(segs, f, Rank(p)), Marker(p), ValueOf(f, p)) == Partial(segs, f, Rank(p) + 1)
    decreases |segs|
  {
    var n := Rank(p);
    var m := Marker(p);
    var v := ValueOf(f, p);
    MarkerShape(p);
    if segs != [] {
      assert PlainSegments(segs[1..]) by {
        forall i | 0 <= i < |segs[1..]| && segs[1..][i].Literal? ensures FreeOf(segs[1..][i].text, '{') {
          assert segs[1..][i] == segs[i + 1];
        }
      }
      PartialStep(segs[1..], f, p);
      var rest := Partial(segs[1..], f, n);
      match segs[0]
      case Literal(t) =>
        assert FreeOf(segs[0].text, '{');
        ReplaceAfterFree(t, rest, m, v);
      case Slot(q) =>
        if Rank(q) < n {
          BraceFreeValue(f, q);
          ReplaceAfterFree(ValueOf(f, q), rest, m, v);
        } else if q == p {
          ReplaceAtFront(m, rest, v);
        } else {
          assert Rank(q) > n;
          ReplaceSkipsMarker(q, p, rest, v);
        }
    }
  }

  /** A placeholder is "{{", its name, then "}}"; names hold no brace. */
  lemma MarkerShape(p: Placeholder)
    ensures var m := Marker(p); var k := |PlaceholderName(p)|;
      && k > 0 && |m| == k + 4 && m[0] == '{' && m[1] == '{' && m[k + 2] == '}'
      && m[2..k + 2] == PlaceholderName(p)
      && forall j :: 2 <= j < k + 2 ==> m[j] != '{' && m[j] != '}'
  {
  }

  lemma PlaceholderNamesDiffer(p: Placeholder, q: Placeholder)
    requires p != q
    ensures PlaceholderName(p) != PlaceholderName(q)
  {
  }

  /** One placeholder never starts where another is written. */
  lemma MarkerNotAtOther(q: Placeholder, p: Placeholder, r: string)
    requires q != p && |Marker(q) + r| >= |Marker(p)|
    ensures (Marker(q) + r)[..|Marker(p)|] != Marker(p)
  {
    var mq, mp := Marker(q), Marker(p);
    var nq, np := PlaceholderName(q), PlaceholderName(p);
    MarkerShape(q);
    MarkerShape(p);
    var s := (mq + r)[..|mp|];
    if |nq| < |np| {
      assert s[|nq| + 2] == mq[|nq| + 2] == '}' != mp[|nq| + 2];
    } else if |nq| > |np| {
      assert s[|np| + 2] == mq[|np| + 2] != '}' == mp[|np| + 2];
    } else {
      PlaceholderNamesDiffer(q, p);
      var i :| 0 <= i < |nq| && nq[i] != np[i];
      assert mq[i + 2] == mq[2..|nq| + 2][i] == nq[i];
      assert mp[i + 2] == mp[2..|np| + 2][i] == np[i];
      assert s[i + 2] == mq[i + 2] != mp[i + 2];
    }
  }

  /** Replacing one placeholder passes over another unchanged. */
  lemma ReplaceSkipsMarker(q: Placeholder, p: Placeholder, r: string, v: string)
    requires q != p
    ensures Replace(Marker(q) + r, Marker(p), v) == Marker(q) + Replace(r, Marker(p), v)
  {
    var mq := Marker(q);
    MarkerShape(q);
    MarkerShape(p);
    assert FreeOf(mq[2..], '{') by {
      forall j | 0 <= j < |mq[2..]| ensures mq[2..][j] != '{' {
        assert mq[2..][j] == mq[j + 2];
      }
    }
    if |mq + r| >= |Marker(p)| {
      MarkerNotAtOther(q, p, r);
    }
    ReplaceSkipsBraced(mq, r, Marker(p), v);
  }

  /** The template used when no template file is given or it does not exist. */
  const DefaultTemplate :=
    ("---\ncreated: " + "{{CREATED}}")
    + ("\nin: \"[[" + "{{BOOK_TITLE}}")
    + ("]]\"\nchapter: " + "{{CHAPTER}}")
    + ("\ntags: [" + "{{TAGS}}")
    + ("]\n---\n\n# " + "{{TITLE}}")
    + ("\n\n## Summary\n" + "{{SUMMARY}}")
    + ("\n\n## Examples and Elaboration\n" + "{{EXAMPLES}}")
    + ("\n\n## Related Concepts\n" + "{{LINKS}}")
    + ("\n\n**Source:** " + "{{BOOK_TITLE}}")
    + (", " + "{{CHAPTER}}")
    + "\n"

  /** The default template, read as literal text between placeholders. */
  const DefaultSegments :=
    [Literal("---\ncreated: "), Slot(CreatedSlot)]
    + [Literal("\nin: \"[["), Slot(BookTitleSlot)]
    + [Literal("]]\"\nchapter: "), Slot(ChapterSlot)]
    + [Literal("\ntags: ["), Slot(TagsSlot)]
    + [Literal("]\n---\n\n# "), Slot(TitleSlot)]
    + [Literal("\n\n## Summary\n"), Slot(SummarySlot)]
    + [Literal("\n\n## Examples and Elaboration\n"), Slot(ExamplesSlot)]
    + [Literal("\n\n## Related Concepts\n"), Slot(LinksSlot)]
    + [Literal("\n\n**Source:** "), Slot(BookTitleSlot)]
    + [Literal(", "), Slot(ChapterSlot)]
    + [Literal("\n")]

  /** A note rendered from the default template shows each value in its
      place, when no value holds a '{'. */
  lemma RenderDefaultTemplate(f: Fill)
    requires BraceFreeFill(f)
    ensures RenderNote(DefaultTemplate, f) ==
      ("---\ncreated: " + f.created)
      + ("\nin: \"[[" + f.bookTitle)
      + ("]]\"\nchapter: " + f.chapter)
      + ("\ntags: [" + f.tags)
      + ("]\n---\n\n# " + f.title)
      + ("\n\n## Summary\n" + f.summary)
      + ("\n\n## Examples and Elaboration\n" + f.examples)
      + ("\n\n## Related Concepts\n" + f.links)
      + ("\n\n**Source:** " + f.bookTitle)
      + (", " + f.chapter)
      + "\n"
  {
    DefaultTemplateText();
    DefaultSegmentsPlain();
    RenderSegments(DefaultSegments, f);
    DefaultFilled(f);
  }

  lemma DefaultTemplateText()
    ensures TemplateText(DefaultSegments) == DefaultTemplate
  {
    var p0 := [Literal("---\ncreated: "), Slot(CreatedSlot)];
    var p1 := [Literal("\nin: \"[["), Slot(BookTitleSlot)];
    var p2 := [Literal("]]\"\nchapter: "), Slot(ChapterSlot)];
    var p3 := [Literal("\ntags: ["), Slot(TagsSlot)];
    var p4 := [Literal("]\n---\n\n# "), Slot(TitleSlot)];
    var p5 := [Literal("\n\n## Summary\n"), Slot(SummarySlot)];
    var p6 := [Literal("\n\n## Examples and Elaboration\n"), Slot(ExamplesSlot)];
    var p7 := [Literal("\n\n## Related Concepts\n"), Slot(LinksSlot)];
    var p8 := [Literal("\n\n**Source:** "), Slot(BookTitleSlot)];
    var p9 := [Literal(", "), Slot(ChapterSlot)];
    var p10 := [Literal("\n")];
    var x1 := p0 + p1;
    var x2 := x1 + p2;
    var x3 := x2 + p3;
    var x4 := x3 + p4;
    var x5 := x4 + p5;
    var x6 := x5 + p6;
    var x7 := x6 + p7;
    var x8 := x7 + p8;
    var x9 := x8 + p9;
    var x10 := x9 + p10;
    assert DefaultSegments == x10;
    TemplateTextAppend(p0, p1);
    TemplateTextAppend(x1, p2);
    TemplateTextAppend(x2, p3);
    TemplateTextAppend(x3, p4);
    TemplateTextAppend(x4, p5);
    TemplateTextAppend(x5, p6);
    TemplateTextAppend(x6, p7);
    TemplateTextAppend(x7, p8);
    TemplateTextAppend(x8, p9);
    TemplateTextAppend(x9, p10);
    TemplateTextPair("---\ncreated: ", CreatedSlot);
    TemplateTextPair("\nin: \"[[", BookTitleSlot);
    TemplateTextPair("]]\"\nchapter: ", ChapterSlot);
    TemplateTextPair("\ntags: [", TagsSlot);
    TemplateTextPair("]\n---\n\n# ", TitleSlot);
    TemplateTextPair("\n\n## Summary\n", SummarySlot);
    TemplateTextPair("\n\n## Examples and Elaboration\n", ExamplesSlot);
    TemplateTextPair("\n\n## Related Concepts\n", LinksSlot);
    TemplateTextPair("\n\n**Source:** ", BookTitleSlot);
    TemplateTextPair(", ", ChapterSlot);
    TemplateTextLiteral("\n");
    MarkersWritten();
  }

  lemma DefaultSegmentsPlain()
    ensures PlainSegments(DefaultSegments)
  {
    var p0 := [Literal("---\ncreated: "), Slot(CreatedSlot)];
    var p1 := [Literal("\nin: \"[["), Slot(BookTitleSlot)];
    var p2 := [Literal("]]\"\nchapter: "), Slot(ChapterSlot)];
    var p3 := [Literal("\ntags: ["), Slot(TagsSlot)];
    var p4 := [Literal("]\n---\n\n# "), Slot(TitleSlot)];
    var p5 := [Literal("\n\n## Summary\n"), Slot(SummarySlot)];
    var p6 := [Literal("\n\n## Examples and Elaboration\n"), Slot(ExamplesSlot)];
    var p7 := [Literal("\n\n## Related Concepts\n"), Slot(LinksSlot)];
    var p8 := [Literal("\n\n**Source:** "), Slot(BookTitleSlot)];
    var p9 := [Literal(", "), Slot(ChapterSlot)];
    var p10 := [Literal("\n")];
    assert DefaultSegments == p0 + p1 + p2 + p3 + p4 + p5 + p6 + p7 + p8 + p9 + p10;
    PairPlain("---\ncreated: ", CreatedSlot);
    PairPlain("\nin: \"[[", BookTitleSlot);
    PairPlain("]]\"\nchapter: ", ChapterSlot);
    PairPlain("\ntags: [", TagsSlot);
    PairPlain("]\n---\n\n# ", TitleSlot);
    PairPlain("\n\n## Summary\n", SummarySlot);
    PairPlain("\n\n## Examples and Elaboration\n", ExamplesSlot);
    PairPlain("\n\n## Related Concepts\n", LinksSlot);
    PairPlain("\n\n**Source:** ", BookTitleSlot);
    PairPlain(", ", ChapterSlot);
    assert PlainSegments(p10);
    PlainSegmentsAppend(p0, p1);
    PlainSegmentsAppend(p0 + p1, p2);
    PlainSegmentsAppend(p0 + p1 + p2, p3);
    PlainSegmentsAppend(p0 + p1 + p2 + p3, p4);
    PlainSegmentsAppend(p0 + p1 + p2 + p3 + p4, p5);
    PlainSegmentsAppend(p0 + p1 + p2 + p3 + p4 + p5, p6);
    PlainSegmentsAppend(p0 + p1 + p2 + p3 + p4 + p5 + p6, p7);
    PlainSegmentsAppend(p0 + p1 + p2 + p3 + p4 + p5 + p6 + p7, p8);
    PlainSegmentsAppend(p0 + p1 + p2 + p3 + p4 + p5 + p6 + p7 + p8, p9);
    PlainSegmentsAppend(p0 + p1 + p2 + p3 + p4 + p5 + p6 + p7 + p8 + p9, p10);
  }

  lemma PairPlain(t: string, p: Placeholder)
    requires FreeOf(t, '{')
    ensures PlainSegments([Literal(t), Slot(p)])
  {
  }

  lemma PlainSegmentsAppend(a: seq<Segment>, b: seq<Segment>)
    requires PlainSegments(a) && PlainSegments(b)
    ensures PlainSegments(a + b)
  {
    forall i | 0 <= i < |a + b| && (a + b)[i].Literal? ensures FreeOf((a + b)[i].text, '{') {
      if i >= |a| {
        assert (a + b)[i] == b[i - |a|];
      }
    }
  }

  lemma DefaultFilled(f: Fill)
    ensures Filled(DefaultSegments, f) ==
      ("---\ncreated: " + f.created)
      + ("\nin: \"[[" + f.bookTitle)
      + ("]]\"\nchapter: " + f.chapter)
      + ("\ntags: [" + f.tags)
      + ("]\n---\n\n# " + f.title)
      + ("\n\n## Summary\n" + f.summary)
      + ("\n\n## Examples and Elaboration\n" + f.examples)
      + ("\n\n## Related Concepts\n" + f.links)
      + ("\n\n**Source:** " + f.bookTitle)
      + (", " + f.chapter)
      + "\n"
  {
    var p0 := [Literal("---\ncreated: "), Slot(CreatedSlot)];
    var p1 := [Literal("\nin: \"[["), Slot(BookTitleSlot)];
    var p2 := [Literal("]]\"\nchapter: "), Slot(ChapterSlot)];
    var p3 := [Literal("\ntags: ["), Slot(TagsSlot)];
    var p4 := [Literal("]\n---\n\n# "), Slot(TitleSlot)];
    var p5 := [Literal("\n\n## Summary\n"), Slot(SummarySlot)];
    var p6 := [Literal("\n\n## Examples and Elaboration\n"), Slot(ExamplesSlot)];
    var p7 := [Literal("\n\n## Related Concepts\n"), Slot(LinksSlot)];
    var p8 := [Literal("\n\n**Source:** "), Slot(BookTitleSlot)];
    var p9 := [Literal(", "), Slot(ChapterSlot)];
    var p10 := [Literal("\n")];
    var x1 := p0 + p1;
    var x2 := x1 + p2;
    var x3 := x2 + p3;
    var x4 := x3 + p4;
    var x5 := x4 + p5;
    var x6 := x5 + p6;
    var x7 := x6 + p7;
    var x8 := x7 + p8;
    var x9 := x8 + p9;
    var x10 := x9 + p10;
    assert DefaultSegments == x10;
    FilledAppend(p0, p1, f);
    FilledAppend(x1, p2, f);
    FilledAppend(x2, p3, f);
    FilledAppend(x3, p4, f);
    FilledAppend(x4, p5, f);
    FilledAppend(x5, p6, f);
    FilledAppend(x6, p7, f);
    FilledAppend(x7, p8, f);
    FilledAppend(x8, p9, f);
    FilledAppend(x9, p10, f);
    FilledPair("---\ncreated: ", CreatedSlot, f);
    FilledPair("\nin: \"[[", BookTitleSlot, f);
    FilledPair("]]\"\nchapter: ", ChapterSlot, f);
    FilledPair("\ntags: [", TagsSlot, f);
    FilledPair("]\n---\n\n# ", TitleSlot, f);
    FilledPair("\n\n## Summary\n", SummarySlot, f);
    FilledPair("\n\n## Examples and Elaboration\n", ExamplesSlot, f);
    FilledPair("\n\n## Related Concepts\n", LinksSlot, f);
    FilledPair("\n\n**Source:** ", BookTitleSlot, f);
    FilledPair(", ", ChapterSlot, f);
    FilledLiteral("\n", f);
  }

  lemma TemplateTextPair(a: string, p: Placeholder)
    ensures TemplateText([Literal(a), Slot(p)]) == a + Marker(p)
  {
    assert [Literal(a), Slot(p)][1..] == [Slot(p)];
    assert TemplateText([Slot(p)]) == Marker(p) + TemplateText([]);
    assert Marker(p) + [] == Marker(p);
  }

  lemma TemplateTextLiteral(a: string)
    ensures TemplateText([Literal(a)]) == a
  {
    assert a + [] == a;
  }

  lemma FilledPair(a: string, p: Placeholder, f: Fill)
    ensures Filled([Literal(a), Slot(p)], f) == a + ValueOf(f, p)
  {
    assert [Literal(a), Slot(p)][1..] == [Slot(p)];
    assert Filled([Slot(p)], f) == ValueOf(f, p) + Filled([], f);
    assert ValueOf(f, p) + [] == ValueOf(f, p);
  }

  lemma FilledLiteral(a: string, f: Fill)
    ensures Filled([Literal(a)], f) == a
  {
    assert a + [] == a;
  }

  /** A template's text, and what it renders to, are built piece by piece. */
  lemma {:induction false} TemplateTextAppend(a: seq<Segment>, b: seq<Segment>)
    ensures TemplateText(a + b) == TemplateText(a) + TemplateText(b)
    decreases |a|
  {
    if a != [] {
      assert (a + b)[1..] == a[1..] + b;
      TemplateTextAppend(a[1..], b);
    } else {
      assert a + b == b;
    }
  }

  lemma {:induction false} FilledAppend(a: seq<Segment>, b: seq<Segment>, f: Fill)
    ensures Filled(a + b, f) == Filled(a, f) + Filled(b, f)
    decreases |a|
  {
    if a != [] {
      assert (a + b)[1..] == a[1..] + b;
      FilledAppend(a[1..], b, f);
    } else {
      assert a + b == b;
    }
  }
}
