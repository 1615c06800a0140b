# ringi-checker core in Dafny

A verified model of the core of the ringi-checker, a small web tool. It checks a ringi (稟議書, an internal request-for-approval document) by sending it to a hosted language model.

The tool does four things:
- renders the document and a user-editable checklist into one evaluation prompt;
- sends the prompt to Claude or Amazon Nova through Amazon Bedrock;
- reads the overall score and the approval verdict back out of the reply;
- tidies text extracted from an uploaded PDF.

The model covers these operations of `ringi_checker.py`:

- **Checklist** (`checklist.dfy`): the check-item set, an insertion-ordered dict from category name to its list of items. The class `CheckItemSet` holds it and performs the sidebar editor's in-place steps:
  - edit one category (item texts, deletions in reverse index order, a new item, a rename);
  - delete the retired categories;
  - add a category;
  - reset to the built-in checklist;
  - count the items.
- **PromptBuilder** (`prompt_builder.dfy`): `create_check_prompt` as a method that accumulates the prompt in loops. Each loop is proved against a specification function:
  - the listing;
  - the rating lines;
  - the detailed sections with their point quotas;
  - the whole prompt.
- **Interpreter** (`interpreter.dfy`): the regular-expression searches for `(\d+)/100点` and `承認可否[：:]\s*([○△×])`, modelled as scans. Each scan is proved to find the leftmost match, as Python's `re.search` does. Around them sit the score band, the verdict and the summary fields stored with the result.
- **Cleanup** (`cleanup.dfy`): `clean_extracted_text`, modelled as two scans and a strip:
  - `\n\s*\n` becomes `\n\n`;
  - `[ \t]+` becomes a space;
  - surrounding whitespace is stripped.
- **Gateway** (`gateway.dfy`): the request bodies of `call_claude` and `call_nova`, the paths their reply text is read from, and the provider dispatch of `call_model`. The Bedrock client's `invoke_model` is a function parameter. Each call returns the list of invocations it made, so "no call is made" is a provable statement.
- **Text** and **Wrappers**: digits, whitespace, decimal numerals, `Option` and `Result`.

Edge cases follow the code as written:

- Nothing guards against an empty checklist: `100 // total_categories` raises `ZeroDivisionError` (ringi_checker.py:283), and nothing catches it. The model returns `Failure(ZeroCategories)` at that point instead of a prompt.
- Reading the score is meant never to fail: a reply without a score should give "N/A". As written, the script raises `UnboundLocalError` when the reply has no score marker (first finding below). By then the approval notice has already been shown, so the error carries that notice.
- The reading only runs on a non-empty reply: the `if result:` of ringi_checker.py:598 skips it otherwise, so `SummarizeAsWritten` requires a non-empty reply.
- A score above 100 is passed through unclamped, as the code does. `ScoreBand` puts it in the top band.

## Model

| member | source | states |
|---|---|---|
| `Text.NatToStringRoundTrip` | ringi_checker.py:607 | `int()` of the numeral `str(n)` prints is `n` again, and the numeral consists only of digits |
| `Checklist.AssignSpec` | ringi_checker.py:380-384 | `check_items[name] = items` keeps the dict well formed; an existing key is replaced where it stands in iteration order, a new key is appended after all others |
| `Checklist.AssignItemCount` | ringi_checker.py:384 | re-assigning a category changes the total item count by the change in its length |
| `Checklist.RemoveSpec` | ringi_checker.py:389 | `del check_items[name]` keeps the dict well formed and removes exactly that key |
| `Checklist.RemoveOrder` | ringi_checker.py:389 | deleting the key at position k closes the gap in iteration order |
| `Checklist.RemoveEntries` | ringi_checker.py:389 | deleting the key at position k removes exactly its pair from `items()` |
| `Checklist.RemoveItemCount` | ringi_checker.py:389 | deleting a category removes its items from the total |
| `Checklist.RenameMovesToEnd` | ringi_checker.py:380-389 | renaming to an unused name keeps the items, removes the old name and moves the category to the end of iteration order: `(new name, items)` becomes the last pair of `items()` (ListingOrder and DetailsOrder then place it last, with the remainder points) |
| `Checklist.RenameOntoExistingDropsItems` | ringi_checker.py:380-389 | renaming onto another existing category overwrites that category's items: the total loses both old lists and gains only the new one, and the renamed category keeps the other's place in iteration order |
| `Checklist.DefaultCheckItemsShape` | ringi_checker.py:43-75 | the built-in checklist is a well-formed dict of 5 categories and 20 items |
| `Checklist.DeleteItemsAt` | ringi_checker.py:367-369 | popping the marked indices from highest to lowest removes exactly the marked items and keeps the others in order |
| `Checklist.DeleteStep` | ringi_checker.py:368-369 | each pop in the reverse loop removes the marked item at its original position, because every index popped before it is higher |
| `Checklist.RemoveAllSpec` | ringi_checker.py:386-389 | after the deferred deletions a key survives exactly when it was not listed, and its items are unchanged |
| `Checklist.CheckItemSet.FromDefaults` | ringi_checker.py:77-81 | the session starts from the built-in checklist |
| `Checklist.CheckItemSet.ResetToDefaults` | ringi_checker.py:420-422 | reset restores the built-in checklist |
| `Checklist.CheckItemSet.EditCategory` | ringi_checker.py:351-384 | one category's edit: the stored list is the edited texts minus the deleted ones, plus the new item if requested, under the (possibly new) name; the returned names are the category itself when deleted and again when renamed |
| `Checklist.CheckItemSet.DeleteRetired` | ringi_checker.py:386-389 | deletes every retired name that is still a key, and nothing else |
| `Checklist.CheckItemSet.AddCategory` | ringi_checker.py:396-399 | adds a category holding one new item at the end of iteration order exactly when the name is non-empty and unused |
| `Checklist.CheckItemSet.CountItems` | ringi_checker.py:437 | the total is the sum of the list lengths over all categories |
| `PromptBuilder.RenderListing` | ringi_checker.py:237-242 | the accumulated listing equals `Listing`: each category's header line followed by its bullet lines, in iteration order |
| `PromptBuilder.AppendRatingLines` | ringi_checker.py:263-265 | appends one rating line per category, in iteration order |
| `PromptBuilder.AppendDetails` | ringi_checker.py:281-302 | appends one detailed section per category, each carrying that category's quota |
| `PromptBuilder.CreateCheckPrompt` | ringi_checker.py:234-315 | fails exactly when there is no category; otherwise returns the prompt `CheckPrompt` describes |
| `PromptBuilder.ListingOrder` | ringi_checker.py:238-242 | category k's block comes after all earlier categories' blocks and before all later ones |
| `PromptBuilder.ListingAppend` | ringi_checker.py:238-242 | the listing of a concatenation is the concatenation of the listings |
| `PromptBuilder.RatingLinePerCategory` | ringi_checker.py:264-265 | the rating section has exactly one line per category (when names hold no line break), and category k's line sits between the earlier and the later ones |
| `PromptBuilder.QuotasSumTo100` | ringi_checker.py:282-288 | for any n >= 1 categories the quotas sum to exactly 100 |
| `PromptBuilder.QuotaShape` | ringi_checker.py:282-288 | every category but the last gets `100 // n`, the last gets at least as much; with at most 100 categories every quota is positive, with more the last takes all 100 |
| `PromptBuilder.DetailsSplit` | ringi_checker.py:286-302 | the detailed part of the prompt is the sections before any position k followed by the sections from k on |
| `PromptBuilder.DetailsOrder` | ringi_checker.py:286-302 | in the whole detailed part, the section of category k, with its name and quota, comes after the sections of all earlier categories and before those of all later ones |
| `PromptBuilder.PromptCarriesDocument` | ringi_checker.py:244-251 | the prompt holds the document text verbatim after the instructions, followed by the viewpoints heading and the listing |
| `Interpreter.ScoreSearchFrom` | ringi_checker.py:605 | a score the scan returns is a match of `(\d+)/100点` |
| `Interpreter.ScoreMatchEnd` | ringi_checker.py:605 | the group of a score match always ends where the digit run ends |
| `Interpreter.ScoreSearchSpec` | ringi_checker.py:605 | the scan returns the leftmost match and the only group it can have; it returns nothing exactly when there is no match |
| `Interpreter.ScoreReadBack` | ringi_checker.py:605-607 | a score written as `str(n)/100点` after digit-free text is found with value n |
| `Interpreter.BandThresholds` | ringi_checker.py:610-621 | the four bands partition the scores at 40, 60 and 80 |
| `Interpreter.BandMonotone` | ringi_checker.py:610-621 | a higher score never falls into a worse band |
| `Interpreter.BannerReadBack` | ringi_checker.py:623 | the score banner carries its score: reading it finds the same value |
| `Interpreter.ApprovalAtSpec` | ringi_checker.py:626 | the attempt at a position succeeds exactly when the approval pattern matches there, and returns that match's group |
| `Interpreter.ApprovalSearchFrom` | ringi_checker.py:626 | a returned match starts at or after the search start, and its group lies after the match start and inside the reply |
| `Interpreter.ApprovalSearchSpec` | ringi_checker.py:626-634 | the scan returns the leftmost match and its group is one of ○ △ ×; it returns nothing exactly when there is no match |
| `Interpreter.AgreeWithoutEmphasis` | ringi_checker.py:626 | when the reply has a score marker and never writes `承認可否**`, the corrected reading equals the reading as written |
| `Interpreter.RecoveredWhereAsWrittenFails` | ringi_checker.py:603-644 | on every non-empty reply where the script as written stops on the unbound `score_match`, the notice shown before the crash is present exactly when the reply matches the pattern as written; the corrected reading reports score "N/A" and no band, and reports a verdict exactly when the reply contains an approval line |
| `Interpreter.UnboundScoreExample` | ringi_checker.py:603-644 | the reply `承認可否: ○` makes the code as written fail on `score_match` after showing the "approvable" notice; the corrected reading reports the verdict and no score |
| `Interpreter.TemplateApprovalLine` | ringi_checker.py:256 | the template's approval line `承認可否**: ○` is missed by the pattern as written and found by the corrected one |
| `Interpreter.TemplateReplyRead` | ringi_checker.py:255-256 | a reply that fills in the template's score and approval lines is read back as that score, its band and the verdict; as written, the approval comes back "N/A" |
| `Cleanup.GapEndSpec` | ringi_checker.py:141 | the match of `\n\s*\n` found at a position is the longest match starting there; none is found exactly when no match starts there |
| `Cleanup.CollapseNoWideGaps` | ringi_checker.py:141 | after the first substitution, line breaks with only whitespace between them are adjacent |
| `Cleanup.CollapseVisible` | ringi_checker.py:141 | the first substitution changes only whitespace |
| `Cleanup.CollapseKeepsNarrowGaps` | ringi_checker.py:141 | text without such gaps is unchanged by the first substitution |
| `Cleanup.CollapseSplit` | ringi_checker.py:141 | a whole gap (from the first to the last line break of a whitespace run) becomes exactly `\n\n`, and the text on either side is collapsed on its own |
| `Cleanup.CollapseConcat` | ringi_checker.py:141 | a text whose trailing whitespace holds no line break is collapsed on its own: no match reaches across its end |
| `Cleanup.CollapseSuffix` | ringi_checker.py:141 | the substitution from a position depends only on the text from there on |
| `Cleanup.CollapseKeepsWords` | ringi_checker.py:141 | the first substitution keeps the words (maximal runs of visible characters) of the text, in order |
| `Cleanup.SquashSquashes` | ringi_checker.py:142 | after the second substitution there is no tab and no double space |
| `Cleanup.SquashKeepsOthers` | ringi_checker.py:142 | the second substitution keeps every character other than spaces and tabs, in order |
| `Cleanup.SquashVisible` | ringi_checker.py:142 | the second substitution changes only whitespace |
| `Cleanup.SquashKeepsSquashed` | ringi_checker.py:142 | text without tabs or double spaces is unchanged by the second substitution |
| `Cleanup.SquashKeepsNarrowGaps` | ringi_checker.py:141-142 | the second substitution keeps the blank-line property the first one established |
| `Cleanup.SquashSplit` | ringi_checker.py:142 | a whole run of spaces and tabs becomes exactly one space, and the text on either side is squashed on its own |
| `Cleanup.SquashConcat` | ringi_checker.py:142 | a text that does not end in a space or tab is squashed on its own: no run reaches across its end |
| `Cleanup.SquashKeepsWords` | ringi_checker.py:142 | the second substitution keeps the words of the text, in order |
| `Cleanup.Strip` | ringi_checker.py:143 | the stripped text is empty, or begins and ends with a non-whitespace character |
| `Cleanup.StripSpec` | ringi_checker.py:143 | stripping removes only the leading and trailing whitespace |
| `Cleanup.StripVisible` | ringi_checker.py:143 | stripping changes only whitespace |
| `Cleanup.StripKeepsStripped` | ringi_checker.py:143 | text that neither begins nor ends with whitespace is unchanged |
| `Cleanup.StripKeepsWords` | ringi_checker.py:143 | stripping keeps the words of the text |
| `Cleanup.WordsSplit` | ringi_checker.py:141-142 | whitespace separates words: the words of `p + w + q` for non-empty whitespace `w` are those of `p` followed by those of `q` |
| `Cleanup.CleanSpec` | ringi_checker.py:135-145 | `None` and `""` give `""`. Otherwise the result reads the same as the input once whitespace is ignored. It has no blank line holding spaces and never three line breaks in a row. It has no tab and no double space, and no whitespace at either end. It has the same words as the input, in order: no two words are glued together and none is split |
| `Cleanup.CleanIdempotent` | ringi_checker.py:135-145 | cleaning cleaned text changes nothing |
| `Cleanup.CleanBlankRun` | ringi_checker.py:135-145 | two words with a run of spaces and tabs between them come out as the two words one space apart |
| `Cleanup.CleanGap` | ringi_checker.py:135-145 | two words with a gap of line breaks and whitespace between them come out as the two words with one blank line `\n\n` between them |
| `Gateway.BodyShape` | ringi_checker.py:169-209 | each body has exactly its API's top-level keys. The version, token limit, temperature and prompt sit where that API reads them |
| `Gateway.BodiesDiffer` | ringi_checker.py:169-209 | the Anthropic body has no `inferenceConfig`, the Nova body no `anthropic_version`, and neither holds the prompt where the other family looks for it |
| `Gateway.NovaPathWrapsClaudePath` | ringi_checker.py:187-218 | the Nova text path is the Anthropic text path below `output.message` |
| `Gateway.ReplyRoundTrip` | ringi_checker.py:187-218 | each family's path reads the text back out of its own reply shape, and finds nothing in the other family's |
| `Gateway.CallModelSpec` | ringi_checker.py:167-232 | "Anthropic" and "Amazon" each send exactly one request to the given model with their own body; any other tag returns `None` without calling the client. A raising client gives `None`. A reply of the provider's family gives its text, and a reply of the other family gives `None` |
| `Gateway.OfferedModelsAreServed` | ringi_checker.py:19-41 | each model offered is served: one request goes to its own model id with its own token limit |

## Left out

- The Streamlit UI is not modelled: page setup, widgets, expanders, metrics, the download button and `st.rerun`. These are presentation only. The banner and notice texts are kept as plain strings.
- Creating the boto3 client, the network call itself, and `json.dumps`/`json.loads` are not modelled. The client is the `invoke` parameter. Request and response bodies are `Json` values. Key order inside a JSON object is not modelled.
- PDF extraction with pdfplumber/PyPDF2 and saving or loading the checklist file are not modelled. They are library calls and file I/O.
- `datetime.now()` timestamps and the `PORT` environment variable are not modelled. They are ambient inputs.
- streamlit_claude_app.py, bedrock_claude_example.py and test_app.py are not part of this model. They repeat the calls with another default temperature, make one hard-coded call, or only render a page.
- The outer editor loop over `list(check_items.keys())` (ringi_checker.py:341) is not modelled as a loop. Each pass is `EditCategory`, and the deferred deletions are `DeleteRetired`. Widget values arrive as parameters: the edited texts, the marked indices, and the buttons pressed.
- The glue in `main()` that calls the builder, then `call_model`, then the reading (ringi_checker.py:580-601) is not modelled as one operation. Its parts are modelled separately.
- `Text.IsDigit` covers ASCII and full-width digits only. Python's `\d` and `int()` also accept the other Unicode decimal digits.
- `Text.IsSpace` uses the whitespace set of CPython's `str.isspace`. That set serves both `\s` and `str.strip()`.
- The reply text is a JSON value. A text field that is not a string is returned as it is. The script would then fail later when it searches that value, and that failure is not modelled.
- `Gateway.CallModelSpec` speaks about the minimal reply shapes `ClaudeReply` and `NovaReply`. For any other response, the result is what `Follow` gives along the provider's path.

## Findings

| source | as written | input that shows it | evidently intended | confidence | as-written member | corrected member |
|---|---|---|---|---|---|---|
| ringi_checker.py:603-644 | `score_match` is assigned only inside the `"評価点数" in result or "評価:" in result` guard. Line 643 reads it unconditionally, so the script stops with `UnboundLocalError` (a `NameError`) | a reply without either marker, e.g. `承認可否: ○` | the stored score is "N/A" when no marker is present, and the rest of the summary is still produced | high, not executed | `Interpreter.UnboundScoreExample` | `Interpreter.Summarize` |
| ringi_checker.py:626 | the approval pattern requires the colon directly after `承認可否`. The prompt's own template (line 256) asks for `- **承認可否**: ○…`, so a reply that follows the template never yields a verdict | `- **評価点数**: 85/100点` then `- **承認可否**: ○` on the next line | the pattern also accepts the `**` the template puts after the label: `承認可否(?:\*\*)?[：:]\s*([○△×])` | medium, not executed | `Interpreter.TemplateApprovalLine` | `Interpreter.TemplateReplyRead` |
