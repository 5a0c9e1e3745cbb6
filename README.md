# book-to-zettelkasten pipeline, modelled in Dafny

The pipeline turns a page range of a book into atomic Zettelkasten notes in
three stages:

- **Extraction** (`pdf_extractor.dfy`, module `PdfExtractor`). Selects pages and cleans their text.
- **Analysis** (`llm_service.dfy` and `prompt.dfy`, modules `LlmService` and `AnalysisPrompt`). A language model is asked for a JSON list of note records. Each reply is validated, and failed attempts are retried with exponential backoff.
- **Rendering** (`note_generator.dfy`, module `NoteGenerator`). Each record becomes a Markdown file from a template with wikilinks and tags. The stage also writes an index note.

Shared modules:

- `text.dfy` (module `Text`) holds the Python string primitives the code relies on: `strip`, `lstrip`, `split`, `join`, `replace`, `lower`, `isdigit`, `str` ordering and integer formatting.
- `json.dfy` holds the JSON value type.
- `wrappers.dfy` holds `Option`/`Result`.

Effects become values:

- The backend's replies are a sequence with one outcome per call: an SDK error, an unparseable reply, or a parsed JSON value.
- The sleeps are returned as a trace of delays.
- The environment is a `map<string, string>`.
- The output directory is a map from file name to contents.
- The clock reading is a string parameter.
- A PDF document is the sequence of its page texts.

Characters are ASCII:

- whitespace is `str.isspace`/`\s` on ASCII: tab, LF, VT, FF, CR, `\x1c`-`\x1f` and space;
- a word character is `[A-Za-z0-9_]`;
- the cased characters of `str.title` are the ASCII letters.

How replies are read and how the backends are configured:

- There is no response normalizer: `json.loads` is applied to the raw reply (src/llm_service.py:91), so a reply wrapped in code fences counts as unparseable.
- A reply that fails validation raises a plain `ValueError` (src/llm_service.py:97). The generic handler catches it, so after the last attempt the message is "Failed to get response from LLM after N attempts: Invalid response structure from LLM".
- For google, `self.model` is left as passed (possibly None); only the client uses "gemini-1.5-flash" (src/llm_service.py:61).
- The source's default arguments are kept: `provider="openai"` for the service and `max_retries=3` for the analysis call. The environment and the backend's replies are parameters, so they come first in the Dafny signatures.

## Model

| member | source | states |
|---|---|---|
| LlmService.IsNoteRecord | src/llm_service.py:187-201 | a note record: a dict holding title, summary and tags, whose title and summary are non-blank strings and whose tags are a list (AllNoteRecordsIff, IsTextIff, ExtraKeysIgnored and TagElementsIgnored state its properties) |
| LlmService.ValidNotesData | src/llm_service.py:181-203 | `_validate_notes_data`: a list every element of which is a note record (ValidatorOnShapes, AllNoteRecordsIff, ValidConcat and OneBadElement state its properties) |
| LlmService.ValidatorOnShapes | src/llm_service.py:181-186 | a value that is not a list is rejected; the empty list is accepted |
| LlmService.AllNoteRecordsIff | src/llm_service.py:186-203 | the early-exit loop accepts a list exactly when every element is a note record |
| LlmService.ValidConcat | src/llm_service.py:186-203 | validity of `xs + ys` is validity of `xs` and of `ys` (a conjunction over elements) |
| LlmService.OneBadElement | src/llm_service.py:186-203 | one element that is not a note record, at any position, makes the whole list invalid |
| LlmService.IsTextIff | src/llm_service.py:194-198 | a title or summary is accepted iff it is a string whose `strip()` is non-empty, i.e. it has a non-whitespace character |
| LlmService.ExtraKeysIgnored | src/llm_service.py:190-192 | keys other than title, summary and tags never change whether a record is accepted |
| LlmService.TagElementsIgnored | src/llm_service.py:200-201 | only that `tags` is a list matters, never what the list holds |
| AnalysisPrompt.BuildAnalysisPrompt | src/llm_service.py:113-148 | `_build_analysis_prompt`: the fixed instructions followed by the text (the four Prompt lemmas below state its properties) |
| AnalysisPrompt.PromptRoundTrip | src/llm_service.py:113-148 | the text can be recovered from the prompt: the prompt is a fixed prefix followed by the text |
| AnalysisPrompt.PromptEndsWithText | src/llm_service.py:146-148 | the prompt always ends with the text to analyse |
| AnalysisPrompt.PromptPrefixFixed | src/llm_service.py:115-148 | the part before the text does not depend on the text |
| AnalysisPrompt.PromptInjective | src/llm_service.py:113-148 | different texts give different prompts |
| LlmService.Setup | src/llm_service.py:32-66 | `_setup_client` as a value: the backend, credential variable and default model of each provider, or the ValueError it raises (SetupErrors and SetupModel state its properties) |
| LlmService.SetupErrors | src/llm_service.py:32-66 | configuration fails exactly for an unknown provider (UnsupportedProvider) or a missing or empty credential variable (MissingApiKey naming the variable) |
| LlmService.SetupModel | src/llm_service.py:35-61 | openai falls back to "gpt-4o-mini" and anthropic to "claude-3-5-haiku-20241022" when no (or an empty) model is given; google keeps the model as passed and only its client uses "gemini-1.5-flash"; the client holds the non-empty credential |
| LlmService.LLMService.constructor | src/llm_service.py:16-26 | the provider (by default "openai") is lower-cased; the model (by default None) is kept as passed and there is no client yet |
| LlmService.LLMService.SetupClient | src/llm_service.py:30-66 | on success the client (and, except for google, the resolved model) is stored as Setup computes; on a configuration error the error is returned and the model and client are unchanged |
| LlmService.NewLLMService | src/llm_service.py:16-28 | `LLMService(provider, model)`: lower-cases the provider, then either yields a service configured as Setup says or fails with Setup's error |
| LlmService.LLMService.GetAtomicNotesFromText | src/llm_service.py:68-111 | with max_retries 3 by default, the prompt is built once and every call sends that same prompt; the result, the number of calls and the delays slept are those of the retry protocol Retry |
| LlmService.LLMService.SendWithRetries | src/llm_service.py:81-111 | the `for attempt` loop with early return agrees with Retry: same result, same number of calls, same sleeps |
| LlmService.Accepted | src/llm_service.py:91-97 | an attempt succeeds iff its reply parsed and passes validation, and it then yields the parsed list itself |
| LlmService.Exhausted | src/llm_service.py:97-109 | the exception after the last attempt fails: a JSON parse failure gives "Failed to get valid JSON response", anything else "Failed to get response from LLM" with its cause (RetryProperties and RetryExhaustion state it) |
| LlmService.RetryFrom | src/llm_service.py:81-109 | the `for attempt` loop from one attempt on: stop at an accepted reply, raise after the last attempt, otherwise sleep 2^attempt and go on (RetryFromShape states its properties) |
| LlmService.Retry | src/llm_service.py:79-111 | the whole retry protocol: the loop from attempt 0, or "Unexpected error" when the loop body never runs (RetryProperties, RetryExhaustion and TotalBackoff state its properties) |
| LlmService.RetryFromShape | src/llm_service.py:81-109 | from any attempt on: the run stops at the first accepted reply, or it fails after the last attempt with the error the last failure decides; all earlier calls failed, and the sleeps are 2^k after each failed attempt k |
| LlmService.RetryProperties | src/llm_service.py:79-111 | at most max_retries calls; success iff some reply within the budget is accepted, and then the first such reply is returned and no call or sleep follows it; the delay after failed attempt k (not the last) is 2^k; after max_retries failures a JSON parse failure raises "valid JSON" and anything else raises "response from LLM ...: e"; with max_retries <= 0 nothing is called and "Unexpected error" is raised |
| LlmService.RetryExhaustion | src/llm_service.py:97-109 | when every attempt fails there are exactly max_retries calls, the error comes from the last failure, and the total delay is 1+2+...+2^(n-2) = 2^(n-1) - 1 |
| LlmService.RecoveryAfterMalformedReply | src/llm_service.py:81-103 | an unparseable reply followed by a valid batch returns that batch after two calls and one sleep of 1, leaving the third attempt unused |
| LlmService.TotalBackoff | src/llm_service.py:103-109 | the delays after n failed attempts sum to 2^n - 1 |
| NoteGenerator.CapitalCaseFilename | src/note_generator.py:113-139 | `capital_case_filename`: special characters removed, whitespace collapsed, stripped, title-cased, "Untitled Note" when nothing is left (CapitalCaseFilenameShape, CapitalCaseFilenameIdempotent and CapitalCaseFilenameFixedPoint state its properties) |
| NoteGenerator.CapitalCaseFilenameShape | src/note_generator.py:113-139 | the filename is never empty. It has only word characters and single interior spaces, with no space at either end. It follows the str.title rule. It keeps the title's word characters in order up to case. A title without word characters gives "Untitled Note" |
| NoteGenerator.CapitalCaseFilenameIdempotent | src/note_generator.py:113-139 | capital_case_filename(capital_case_filename(t)) == capital_case_filename(t) |
| NoteGenerator.CapitalCaseFilenameFixedPoint | src/note_generator.py:123-139 | a name that already has the Capital Case shape is its own filename |
| NoteGenerator.SanitizeFilename | src/note_generator.py:141-146 | the legacy entry point gives a non-empty, well-spaced, title-cased name that is its own filename |
| NoteGenerator.Title | src/note_generator.py:133 | `str.title` on ASCII, position by position; it keeps the length (TitleRule and TitleShape state the rest) |
| NoteGenerator.TitleRule | src/note_generator.py:133 | for every text, str.title on ASCII keeps the length; every letter stays the same letter up to case and every other character is kept as it is; a letter ends up upper-case exactly when it is first or follows a non-letter |
| NoteGenerator.TitleShape | src/note_generator.py:133 | on the well-spaced name line 133 passes, the same facts as TitleRule, and the name stays well-spaced |
| NoteGenerator.CollapseWhitespaceShape | src/note_generator.py:126-127 | after the `\s+` substitution a string of word characters and whitespace has only word characters and single spaces |
| NoteGenerator.FindLinks | src/note_generator.py:150-151 | `re.findall(r'\[\[([^\]]+)\]\]', text)`: the groups of the non-overlapping matches, left to right (FindLinksAtFront and ExtractWikilinksShape state its properties) |
| NoteGenerator.ExtractWikilinks | src/note_generator.py:148-152 | `sorted(set(matches))` of those groups (ExtractWikilinksShape and RepeatedWikilinkExample state its properties) |
| NoteGenerator.ExtractWikilinksShape | src/note_generator.py:148-152 | the result is strictly increasing (sorted, no duplicates) and holds exactly the pattern's matches; each is non-empty, has no ']' and occurs in the text as `[[x]]` |
| NoteGenerator.FindLinksAtFront | src/note_generator.py:150-151 | a wikilink at the front is matched with its inner text as the group, and the search resumes after it |
| NoteGenerator.RepeatedWikilinkExample | src/note_generator.py:148-152 | "See [[Other]] and [[Other]]" yields ["Other"] |
| NoteGenerator.LinksSection | src/note_generator.py:154-163 | `_format_links` as a value: the no-links message or one `- [[link]]` line per link (FormatLinks, LinksSectionLines and LinksSectionOfSummary state its properties) |
| NoteGenerator.FormatLinks | src/note_generator.py:154-163 | the append loop computes LinksSection: "- No direct links identified" for no links, otherwise the lines `- [[link]]` joined by line breaks |
| NoteGenerator.LinksSectionLines | src/note_generator.py:159-163 | for links without line breaks, the section of a non-empty list splits into exactly one `- [[link]]` line per link, in order |
| NoteGenerator.LinksSectionOfSummary | src/note_generator.py:93-102 | reading the wikilinks back from the rendered links section gives the summary's wikilinks again |
| NoteGenerator.TagsLine | src/note_generator.py:165-177 | `_format_tags` as a value: `#` before each non-empty cleaned tag, joined by spaces (FormatTags, TagsLineEmpty and TagsLineTokens state its properties) |
| NoteGenerator.TagsLineEmpty | src/note_generator.py:165-177 | `_format_tags` gives "" exactly when no tag is left after stripping whitespace and leading '#' and dropping empty ones |
| NoteGenerator.FormatTags | src/note_generator.py:165-177 | the append loop computes TagsLine: "" for no tags, otherwise `#` before each non-empty cleaned tag, joined by spaces |
| NoteGenerator.TagsLineTokens | src/note_generator.py:170-177 | for cleaned tags without inner spaces, the tokens are, in order, `#` followed by each non-empty cleaned tag, which never starts with `#` |
| NoteGenerator.CleanTag | src/note_generator.py:173 | `tag.strip().lstrip('#')` (CleanTagShape states its properties) |
| NoteGenerator.CleanTagShape | src/note_generator.py:173 | `tag.strip().lstrip('#')` is a suffix of the stripped tag; it is empty iff that is all '#', and otherwise neither starts with '#' nor ends with whitespace |
| NoteGenerator.CleanTagsMembers | src/note_generator.py:171-175 | every kept tag is the cleaning of some tag, and every non-empty cleaning is kept |
| NoteGenerator.TagsYaml | src/note_generator.py:179-197 | `_format_tags_yaml` as a value (FormatTagsYaml, YamlTagListShape and TagsYamlDefaultsOrder state its properties) |
| NoteGenerator.FormatTagsYaml | src/note_generator.py:179-197 | the two loops compute TagsYaml: "finance, investing" for no tags, otherwise the cleaned tags with each missing default inserted at the front |
| NoteGenerator.YamlTagListShape | src/note_generator.py:184-197 | the YAML list holds both defaults and ends with the cleaned tags in order; the front holds only defaults the tags lacked; with neither present it is "investing", "finance", then the tags |
| NoteGenerator.TagsYamlDefaultsOrder | src/note_generator.py:181-197 | no tags gives "finance, investing", but tags that all clean to nothing give "investing, finance" |
| NoteTemplate.RenderNote | src/note_generator.py:99-106 | the eight chained `str.replace` calls of `_create_single_note`, in source order (RenderSegments, RenderDefaultTemplate, RenderTitle, RenderWithoutPlaceholders and RenderRescansValues state its properties) |
| NoteTemplate.RenderTitle | src/note_generator.py:99-106 | a `{{TITLE}}` placeholder between brace-free texts is replaced by the title and the texts around it are kept |
| NoteTemplate.RenderWithoutPlaceholders | src/note_generator.py:99-106 | a template without '{' is rendered unchanged |
| NoteTemplate.RenderSegments | src/note_generator.py:99-106 | any template made of '{'-free literal text and the eight placeholders renders, when no value holds a '{', to the literal text with each placeholder replaced by its own value |
| NoteTemplate.RenderDefaultTemplate | src/note_generator.py:32-51 | the default template renders to its literal text with the creation time, book title, chapter, tags, title, summary, examples, links, book title and chapter in their places |
| NoteTemplate.RenderRescansValues | src/note_generator.py:99-100 | substitution applies to the text as it stands: a title "{{SUMMARY}}" ends up showing the summary |
| NoteGenerator.TagsOf | src/note_generator.py:80 | `note_data.get("tags", [])` as the tag list `_format_tags_yaml` iterates: missing, null, false, 0, "", [] and {} give no tags (the `if not tags` fallback); a string gives its characters as one-character tags; a list gives its elements and must hold only strings; true, a non-zero number and a non-empty object fail the note |
| NoteGenerator.ExamplesOf | src/note_generator.py:81 | `note_data.get("examples", ...)`: the placeholder sentence when missing, the string when it is one, otherwise the note fails |
| NoteGenerator.SingleNote | src/note_generator.py:76-111 | a note lacking title or summary, or with a non-string title, fails; an existing file is reported and not rewritten; otherwise the rendered note is written at its Capital Case path; no existing file is ever changed |
| NoteGenerator.NoteGenerator.CreateSingleNote | src/note_generator.py:76-111 | the reported path and the new directory are those of SingleNote with the template rendering of the note |
| NoteGenerator.NoteGenerator.CreateNotesFromData | src/note_generator.py:53-74 | the loop creates the notes in turn, skipping failures; the collected paths and the directory are those of CreateAll |
| NoteGenerator.CreateAll | src/note_generator.py:53-74 | `create_notes_from_data` as a value: each note created in turn against the directory the previous ones left, failures skipped (CreateNotesFromData, CreateAllWritesOnce and RerunWritesNothing state its properties) |
| NoteGenerator.CreateAllWritesOnce | src/note_generator.py:64-74 | a run never overwrites a file; every new file is a reported path; every reported path exists; at most one path per note; every renderable note has its file |
| NoteGenerator.RerunWritesNothing | src/note_generator.py:87-90 | running again over the same notes, at any later time, leaves the directory unchanged |
| NoteGenerator.NoteGenerator.constructor | src/note_generator.py:26-51 | the template is the template file's contents when it exists, the default template otherwise |
| NoteGenerator.NoteGenerator.CreateIndexNote | src/note_generator.py:206-236 | no notes gives nothing and writes nothing; the first note without a string title is an error and writes nothing; otherwise the index content is written under the index filename |
| NoteGenerator.BuildIndex | src/note_generator.py:224-233 | the content is the header, one entry per note, then the footer; the first note without a string title is reported |
| NoteGenerator.AppendEntries | src/note_generator.py:228-231 | the `content +=` loop gives one `- [[filename]] - title` entry per note in order, or the position of the first note without a string title |
| NoteGenerator.IndexFilename | src/note_generator.py:220 | the index file name, "index" or "index-" with the chapter (IndexFilenameShape states its properties) |
| NoteGenerator.IndexFilenameShape | src/note_generator.py:220 | "index" without a chapter; otherwise "index-" then the chapter lower-cased with each space made '-', so no space or upper-case letter |
| NoteGenerator.IndexContent | src/note_generator.py:223-233 | the index note: header, one entry per note, footer (BuildIndex computes it; IndexContentLinks states its properties) |
| NoteGenerator.IndexContentLinks | src/note_generator.py:224-233 | when no title or chapter holds '[', the index links, in order, to exactly the filenames of the notes' titles |
| NoteGenerator.MocSummary | src/note_generator.py:317 | a summary over 100 characters becomes its first 100 characters plus "...", so at most 103; shorter ones are unchanged |
| PdfExtractor.ExtractTextFromChapter | src/pdf_extractor.py:18-49 | an error iff start < 0 or end >= page count, with the wrapped message; otherwise the cleaning of pages start..end joined by "\n"; start > end gives "" |
| PdfExtractor.ChapterIsSelection | src/pdf_extractor.py:37-40 | a valid chapter is the selection of page numbers start..end |
| PdfExtractor.ExtractTextFromPages | src/pdf_extractor.py:51-79 | the text is the cleaning of the in-range pages joined by "\n" |
| PdfExtractor.SelectPages | src/pdf_extractor.py:66-71 | the pages `extract_text_from_pages` collects, at most one per number (SelectPagesConcat, SelectPagesOne and SelectPagesInRange state its properties) |
| PdfExtractor.SelectPagesConcat | src/pdf_extractor.py:66-71 | selection works number by number, so order and repeats are kept |
| PdfExtractor.SelectPagesOne | src/pdf_extractor.py:66-71 | an out-of-range number is skipped silently, an in-range one selects its page |
| PdfExtractor.SelectPagesInRange | src/pdf_extractor.py:66-71 | with all numbers in range there is one page per number, in the given order |
| PdfExtractor.Cleaned | src/pdf_extractor.py:91-120 | `_clean_text` as a value: the three substitutions, the line filter and the final strip (CleanText, CleanedLines and CleanedIsJoin state its properties) |
| PdfExtractor.CleanText | src/pdf_extractor.py:91-120 | the substitutions and the filter loop compute Cleaned |
| PdfExtractor.CleanedLines | src/pdf_extractor.py:111-120 | every output line has no surrounding whitespace, is longer than 3 and is not all digits, so none is empty; the text has no surrounding whitespace |
| PdfExtractor.CleanedIsJoin | src/pdf_extractor.py:117-120 | the output is the kept lines joined by "\n" (the final strip removes nothing), and splitting it gives them back |
| PdfExtractor.KeptLines | src/pdf_extractor.py:111-118 | the lines kept by the filter, stripped; never more than there were (KeptLinesConcat and KeptLinesNoop state the rest) |
| PdfExtractor.KeptLinesConcat | src/pdf_extractor.py:114-118 | the filter works line by line, so surviving lines keep their relative order |
| PdfExtractor.KeptLinesNoop | src/pdf_extractor.py:114-118 | lines that already pass the test and have no surrounding whitespace all survive unchanged; only short or all-digit lines are dropped |
| PdfExtractor.CollapseBlankLines | src/pdf_extractor.py:102 | `re.sub(r'\n\s*\n\s*\n+', '\n\n', text)`: in each whitespace run holding three or more line breaks, the span from its first to its last line break becomes "\n\n" (CollapseBlankLinesNoBlankRuns and CollapseBlankLinesIdempotent state its properties) |
| PdfExtractor.CollapseBlankLinesNoBlankRuns | src/pdf_extractor.py:102 | after the blank-line substitution no whitespace run holds three line breaks |
| PdfExtractor.CollapseBlankLinesIdempotent | src/pdf_extractor.py:102 | the blank-line substitution is idempotent |
| PdfExtractor.CollapseSpaces | src/pdf_extractor.py:105 | `re.sub(r' +', ' ', text)`: each run of spaces becomes one space; it is empty exactly when its input is and keeps the first character (CollapseSpacesShape states the rest) |
| PdfExtractor.CollapseSpacesShape | src/pdf_extractor.py:105 | after the `' +'` substitution no two spaces are adjacent, and only spaces were removed |
| PdfExtractor.Dehyphenate | src/pdf_extractor.py:108 | `re.sub(r'-\s*\n\s*', '', text)`: a '-' followed by a whitespace run holding a line break is deleted with the whole run (DehyphenateJoins, DehyphenateAppend and DehyphenateNoop state its properties) |
| PdfExtractor.DehyphenateJoins | src/pdf_extractor.py:108 | at every position in the text, a '-' followed by whitespace holding a line break is deleted with that whitespace and the next line's indentation, joining the lines: `a + "-" + w + b` becomes the cleaning of `a` followed by the cleaning of `b` |
| PdfExtractor.DehyphenateAppend | src/pdf_extractor.py:108 | the substitution works piece by piece: cleaning `a + t` is cleaning `a` then cleaning `t` whenever `t` does not start with whitespace, since no match runs across that seam |
| PdfExtractor.DehyphenateNoop | src/pdf_extractor.py:108 | text without '-' is not changed by the dehyphenation |

## Left out

- The SDK calls `_query_openai`, `_query_anthropic` and `_query_google`, their temperature and token settings, and the SDK imports with their ImportError paths. Each backend call is an entry of the reply sequence.
- `json.loads` itself. Whether a reply parses, and to what, is part of the reply outcome.
- `load_dotenv` and `os.getenv`. The environment is a map parameter.
- `time.sleep`. The delays are returned as a trace.
- The `print` diagnostics of every module.
- LlmService.LLMService.GetAtomicNotesFromText: requires the reply sequence to hold at least max_retries entries, so that every call the loop can make has an outcome; the source has no such demand.
- NoteGenerator.TagsOf: a non-empty JSON object as `tags` is iterated by its keys, in insertion order, in the source. Dafny maps have no order, so the model treats it as a failed note.
- NoteGenerator.CreateAll: requires every note to be a JSON object. For any other value the source's own error handler raises (`note_data.get`) and aborts the whole run, which the model does not represent.
- Filesystem and clock effects: `mkdir`, reading the template file (its contents are a parameter), `write_text` (a map update), `glob` in `get_existing_notes` and `datetime.now()` (a parameter).
- `create_book_moc` beyond its summary truncation: the fixed prose, the existing-notes listing and the MOC file write.
- PyMuPDF (`fitz.open`, `load_page`, `get_text`, `get_page_count`) and the constructor's file-exists check. A document is a sequence of page texts.
- Exceptions other than the page-range error inside the extraction handler.
- src/main.py (argument parsing, orchestration, `sys.exit`) is not part of this model.
- Full Unicode semantics of `\w`, `\s`, `str.title`, `str.strip`, `str.lower` and `str.isdigit`: only ASCII is modelled, and other characters are neither word, space nor letter.
- JSON numbers are Dafny reals, so integer/float distinctions and non-finite values are not modelled.
