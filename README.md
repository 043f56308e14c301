# auto_scrapper core, modelled in Dafny

auto_scrapper turns a web page into a scraper. Four pieces of its Python core
are modelled here, without the browser, the HTML parser or the language-model
service around them.

1. **The endpoint classifier** (`endpoint_classifier.py`).
   - Static signals come from the raw markup: view-state markers, microdata, tables and login forms.
   - Dynamic signals come from browser probes: script rendering, delayed rendering, infinite scroll, and a random page on a second fetch.
   - A first-match chain of eight rules turns the signals into one label: `viewstate`, `login`, `random`, `scroll`, `javascript`, `microdata`, `tableful` or `default`.
2. **Content-block selection** (`html_fetcher.py`).
   - The navigation, category-tree and content-score heuristics over per-node statistics.
   - `extract_candidate_blocks`: filter the candidate nodes, score them, and sort them stably by descending score. Then keep at most `limit` blocks from the top `2 * limit`, dropping a block whose 500-character fingerprint was already seen.
3. **Schema validation and row extraction** (`html_fetcher.py`).
   - `validate_schema`: per-field coverage over the matched containers, averaged and compared with a threshold chosen by endpoint type.
   - `extract_data`: turns selector matches into rows. It handles attributes versus text, list attributes, single versus list fields, `cast_value`, and drops empty rows.
4. **Text post-processing of model output, and prompt assembly.**
   - In `html_fetcher.py`:
     - `enforce_single_eof` cuts the code at the first end-of-file sentinel;
     - `looks_truncated` checks bracket counts and endings;
     - the brace-balanced scan of `extract_json`;
     - `has_multiple_main_blocks` counts main guards.
   - The two `build_schema_prompt` variants: `schema_inferencer.py` and `schema_inferencer_prompt.py`. The second adds the endpoint context section.

## Files

| file | module | contents |
|---|---|---|
| `wrappers.dfy` | `Wrappers` | `Option` (Python `None`) and `Result` (a value, or the exception the code raises) |
| `text.dfy` | `Text` | The Python string operations the core uses: `in`, `find`/`index`, non-overlapping `count`, `endswith`, `rstrip`, ASCII `lower`, `replace(" ", "")`, `str(int)` and `join`. Each comes with the lemmas the rest of the model needs. |
| `endpoint_classifier.dfy` | `EndpointClassifier` | Feature record, labels, the rule chain, static and dynamic feature derivation, and the `classify` result |
| `content_blocks.dfy` | `ContentBlocks` | Node statistics, the three heuristics, filtering, the stable descending sort, the de-duplicating window, and the imperative `extract_candidate_blocks` |
| `schema_validation.dfy` | `SchemaValidation` | Threshold table, coverage and confidence, `validate_schema` as a method with nested loops, `cast_value`, and `extract_data` as a method with nested loops |
| `llm_output.dfy` | `LlmOutput` | `enforce_single_eof`, `looks_truncated` as written and as intended, the `extract_json` brace scan as a loop, and `has_multiple_main_blocks` |
| `schema_inferencer.dfy` | `SchemaInferencer` | The prompt template, spelled line by line and joined with newlines, which is exactly the Python literal. Also numbered block rendering and the prompt. |
| `schema_inferencer_prompt.dfy` | `SchemaInferencerPrompt` | The template with the endpoint-context rule, the `json.dumps(indent=2)` text of a `classify` result, and the prompt with its endpoint section |

Modelling choices:

**Inputs and foreign calls.**
- Parsed documents are replaced by what the code reads from them:
  - A candidate node is a `ContentBlocks.Node` record. It holds both text extractions (`get_text(strip=True)` and `get_text(" ", strip=True)`), link, image, list and list-item counts, link-text length, the direct-child tag names, the style attribute, the serialisation and the first heading.
  - The selector matches of a schema are `SchemaValidation.Container` values: one list of matched elements per field.
  - The probe results of `_analyze` are a `Probes` record.
- Python `hash`, `urljoin`, `float(...)` and `datetime.fromisoformat(...)` are function parameters, so every statement holds for every choice of them.
- md5 digests are compared as the strings they digest.

**Arithmetic.**
- Scores, ratios and coverages are exact `real`s.

**Control flow.**
- The loops of `extract_candidate_blocks`, `validate_schema`, `extract_data` and the `extract_json` scan are methods with `while` loops.
  - `ExtractCandidateBlocks` and `ExtractData` are proved equal to specification functions (`CandidateBlocks`, `ExtractResult`). The properties in the table below are proved about those functions and repeated in the methods' contracts. For the blocks these are: the bound, distinct fingerprints, window order, the filters, completeness short of the limit, and that the blocks are exactly the first `limit` window entries with a new fingerprint. For the rows: the exact rows, in container order, and the error condition.
  - `ValidateSchema` and `ExtractJsonCandidate` state their results directly, by coverage and confidence and by brace depth.
- Exceptions the code can raise on these paths are `Result.Err` values with the exception's message:
  - `ZeroDivisionError` for an empty field map;
  - `AttributeError` for a JSON-null type;
  - the two `ValueError` messages of `extract_json`.

## Model

| member | source | states |
|---|---|---|
| EndpointClassifier.LabelsDistinct | endpoint_classifier.py:112-127 | Every rule yields one of the eight label strings, and different rules yield different strings |
| EndpointClassifier.Classify | endpoint_classifier.py:112-127 | The chosen rule's condition holds and no rule earlier in the chain holds (first match wins) |
| EndpointClassifier.ClassifyIsFirstMatch | endpoint_classifier.py:112-127 | Any rule that holds with no earlier rule holding is the one chosen, so the label is determined by the flags |
| EndpointClassifier.ClassifyPriorities | endpoint_classifier.py:113-127 | Priorities, each whatever the other flags are. View state always gives viewstate. Without it, a login form gives login. Without both, random wins. Then scroll, even with scripts or delayed render. With those four clear, javascript iff scripts or delayed render. Microdata beats a table. All-default flags give default. |
| EndpointClassifier.JavascriptBeforeTable | endpoint_classifier.py:121-126 | Scripts plus a table and nothing else is labelled javascript |
| EndpointClassifier.StaticFeatures | endpoint_classifier.py:56-67 | View state holds iff the raw text contains `__VIEWSTATE` or `__EVENTVALIDATION`. The DOM signals are copied. The four dynamic flags keep their False defaults. |
| EndpointClassifier.AnalyzedFeatures | endpoint_classifier.py:73-106 | The four static flags are as computed. requires_js iff rendered length > 1.2 × raw length. delayed_render iff the two renders differ. infinite_scroll iff height2 > height1. is_random iff the two raw fetches differ. |
| EndpointClassifier.Analyze | endpoint_classifier.py:73-106 | The step-by-step flag updates compute exactly those features |
| EndpointClassifier.ClassifyEndpoint | endpoint_classifier.py:39-47 | The returned features are those `_analyze` computes from the page and the probes. The type is the label of the rule chain on them, one of the eight. Either view-state marker in the raw page forces viewstate. Without view state or a login form, two different raw fetches give random. |
| ContentBlocks.MatchCount | html_fetcher.py:612 | The keyword count is at most the number of keywords |
| ContentBlocks.MatchCountOne | html_fetcher.py:612 | The count is at least one iff some keyword occurs in the text |
| ContentBlocks.MatchCountTwo | html_fetcher.py:612-613 | The count is at least two iff two keywords at different positions of the list both occur |
| ContentBlocks.AnyContained | html_fetcher.py:553 | True iff some keyword occurs in the text |
| ContentBlocks.IsNavigationBlock | html_fetcher.py:559-616 | More than two images means never navigation. Otherwise navigation iff any of: a nav or footer tag; three or more links with under 200 characters of text and no image; two different navigation keywords in the lower-cased text. |
| ContentBlocks.MyAccountIsNavigation | html_fetcher.py:583-614 | Text containing "my account" with at most two images is navigation, since it holds both "my account" and "account" |
| ContentBlocks.FavoriteIsNavigation | html_fetcher.py:583-614 | Text containing "favorite" with at most two images is navigation, since it holds both "favorite" and "favori" |
| ContentBlocks.IsCategoryTree | html_fetcher.py:525-556 | True iff all of: no image; some list; at least three list items; a first heading whose lower-cased text contains a category keyword |
| ContentBlocks.Occurrences | html_fetcher.py:645-646 | A tag counted at least once is among the child tags |
| ContentBlocks.MostFrequentCount | html_fetcher.py:645-646 | The count of every tag seen so far is at most the result, and the result is the count of one of them |
| ContentBlocks.MaxChildCount | html_fetcher.py:643-646 | The result is the count of the most common child tag: no tag occurs more often, some child tag occurs that often, and it is 0 without children |
| ContentBlocks.ScoreContentBlock | html_fetcher.py:619-658 | Empty text scores 0. Otherwise −5 < score ≤ 5 + 2·images + 1.5·(most common child count). Any image lifts the score above 2. |
| ContentBlocks.RepeatingGridOutranksLinkList | html_fetcher.py:641-656 | A block with more than three children of one tag outscores an image-free, structure-free block whose link text exceeds 70% of its text |
| ContentBlocks.ScoreCandidates | html_fetcher.py:251-275 | The scoring loop, with its three `continue` filters, computes the scored list the specification function describes |
| ContentBlocks.ScoredFromFacts | html_fetcher.py:251-275 | The scoring loop keeps exactly the candidates passing the three filters, in document order, each with its (halved when huge) score |
| ContentBlocks.InsertDescCorrect | html_fetcher.py:278 | Insertion keeps the multiset and the descending-score, stable order |
| ContentBlocks.SortDescCorrect | html_fetcher.py:278 | The sort is a permutation, ordered by descending score with ties in document order |
| ContentBlocks.RankedCandidatesCorrect | html_fetcher.py:251-278 | The ranked list is a stable descending permutation of the scored candidates, each of which passed the filters |
| ContentBlocks.SliceEnd | html_fetcher.py:285 | Python's slice stop: a non-negative stop is clamped to the length |
| ContentBlocks.DedupWindow | html_fetcher.py:280-294 | The de-duplicating loop, with its `continue` and `break`, computes the walk the specification function describes |
| ContentBlocks.DedupFacts | html_fetcher.py:280-294 | The de-duplicating walk respects the limit, skips seen fingerprints, never returns two blocks with one fingerprint, and keeps window order |
| ContentBlocks.DedupKeepsFresh | html_fetcher.py:280-294 | An entry whose fingerprint is new at its position and not seen before is returned, provided the whole walk keeps fewer than `limit` blocks |
| ContentBlocks.DedupUnlimited | html_fetcher.py:280-294 | From any position, having seen the fingerprints of the entries before it, the walk returns the first `limit - count` entries with a new fingerprint (one when `count` has reached `limit`), in window order |
| ContentBlocks.DedupFirstFresh | html_fetcher.py:280-294 | From the start state the walk returns exactly the first `limit` window entries whose fingerprint is new at their position (the first one for a limit below one): it skips only duplicates and stops at `limit` |
| ContentBlocks.DedupComplete | html_fetcher.py:280-294 | From the start state, fewer than `limit` blocks come back only if every window entry with a new fingerprint is among them |
| ContentBlocks.CandidateBlocksKept | html_fetcher.py:252-291 | Every returned block serialises a candidate that is not navigation, not hidden by `display:none`, and not a short image-free block |
| ContentBlocks.CandidateBlocksFacts | html_fetcher.py:235-296 | At most `limit` blocks (at most one for a negative limit). Pairwise different fingerprints. An in-order subsequence of the top `2·limit` of the ranking. Each block from a kept candidate. Fewer than `limit` blocks only when every window entry with a new fingerprint is returned. Exactly the first `limit` window entries with a new fingerprint (the first one for a limit below one). |
| ContentBlocks.ExtractCandidateBlocks | html_fetcher.py:235-296 | The two loops, with `continue` and `break`, compute the specification function. The result has its bound, distinct fingerprints, window order, filter provenance and completeness short of the limit, and is exactly the first `limit` window entries with a new fingerprint. |
| LlmOutput.EnforceSingleEof | html_fetcher.py:405-415 | Unchanged without the sentinel. Otherwise: a prefix of the input through the first sentinel plus "\n", ending with the sentinel line, holding the sentinel exactly once. |
| LlmOutput.EnforceSingleEofIdempotent | html_fetcher.py:405-415 | A second application changes nothing |
| LlmOutput.LooksTruncated | html_fetcher.py:677-708 | False whenever the sentinel occurs. Otherwise true iff some opener outnumbers its closer, or the right-stripped text ends with one of the endings that can match after stripping. |
| LlmOutput.KeywordEndingsUnreachable | html_fetcher.py:690-708 | Against right-stripped text, the fifteen endings match exactly when the nine without a trailing space do |
| LlmOutput.DanglingKeywordMissed | html_fetcher.py:690-708 | "for " is not reported as truncated as written, but is by the intended check |
| LlmOutput.EnforcedCodeIsComplete | html_fetcher.py:677-680 | Code cut at the sentinel is never reported as truncated, by either check |
| LlmOutput.LooksTruncatedIntended | html_fetcher.py:677-708 | The intended check reports everything the written one does, and nothing that holds the sentinel |
| LlmOutput.IntendedCatchesDanglingKeyword | html_fetcher.py:691-697 | Code ending with a whole-word `def`, `class`, `async def`, `if`, `for` or `while` and a space, without the sentinel, is reported |
| LlmOutput.ExtractJsonCandidate | html_fetcher.py:344-359 | No '{' gives "No JSON object found". Otherwise the candidate runs from the first '{' to the first point where brace depth returns to 0, with depth positive on every proper prefix. "Unbalanced JSON braces" iff depth never returns to 0. |
| LlmOutput.HasMultipleMainBlocks | html_fetcher.py:173-174 | True iff the main guard occurs at two non-overlapping positions |
| SchemaValidation.MinCoverage | html_fetcher.py:146-152 | RANDOM and TABLE give 0.1, SCROLL and PAGINATION give 0.3, every other string 0.5 |
| SchemaValidation.ClassifierLabelsGetDefaultThreshold | html_fetcher.py:146-152 | Every label the classifier returns falls through to the 0.5 default |
| SchemaValidation.ThresholdKey | html_fetcher.py:146-152 | The key each label evidently stands for selects 0.1 for random and tableful, 0.3 for scroll, 0.5 otherwise |
| SchemaValidation.ThresholdKeyDiffers | html_fetcher.py:146-152 | The corrected lookup differs from the one as written exactly for random, tableful and scroll endpoints |
| SchemaValidation.Hits | html_fetcher.py:156-160 | The number of matching containers is at most the number of containers |
| SchemaValidation.HitsExtremes | html_fetcher.py:156-160 | All containers match iff every one has a match; none iff none has |
| SchemaValidation.Coverage | html_fetcher.py:162 | Coverage lies in [0, 1] |
| SchemaValidation.CoverageExtremes | html_fetcher.py:162 | Coverage is 1 iff every container matches, 0 iff none does |
| SchemaValidation.FieldScores | html_fetcher.py:154-163 | One score per field, in field order, each the field's coverage |
| SchemaValidation.SumBounds | html_fetcher.py:165 | A sum of scores in [0, 1] lies in [0, n], is n iff all are 1, and is 0 iff all are 0 |
| SchemaValidation.ConfidenceRange | html_fetcher.py:165 | The mean coverage lies in [0, 1] |
| SchemaValidation.ConfidenceOne | html_fetcher.py:165 | Confidence is 1 iff every field matches in every container |
| SchemaValidation.ConfidenceZero | html_fetcher.py:165 | Confidence is 0 iff no field matches in any container |
| SchemaValidation.ValidateSchema | html_fetcher.py:139-170 | No containers gives the "No containers" rejection. Containers without fields raise division by zero. Otherwise valid iff the unrounded mean coverage ≥ the threshold, with that confidence and the container count. |
| SchemaValidation.ValidationVerdicts | html_fetcher.py:165-167 | Full coverage is always valid; zero coverage is never valid, whatever the endpoint type |
| SchemaValidation.CastValue | html_fetcher.py:80-91 | Only the exact type "number" with a parsable float, or "date" with a parsable ISO date, converts. Every other case returns the string unchanged, and a converted value keeps its source string. |
| SchemaValidation.RawValue | html_fetcher.py:107-119 | Without a truthy attribute name the stripped text is used. A missing attribute or an empty list gives None. A string attribute gives the string, and a list its first item. Either goes through `urljoin` with a truthy base URL. |
| SchemaValidation.AttributeListFirst | html_fetcher.py:108-114 | An attribute list gives its first item, and None exactly when it is empty |
| SchemaValidation.FieldValues | html_fetcher.py:106-122 | At most one value per element, and none survive iff no element has a truthy raw value |
| SchemaValidation.ValueIndices | html_fetcher.py:106-122 | Strictly increasing element positions: exactly those whose raw value is truthy |
| SchemaValidation.FieldValuesInOrder | html_fetcher.py:106-122 | The values are the casts of the truthy raw values, one per such element, in element order |
| SchemaValidation.FieldResult | html_fetcher.py:124-130 | None iff no value survived. A JSON-null type with values raises. A type ending in "[]" keeps all values in order; any other keeps the first. |
| SchemaValidation.ItemCells | html_fetcher.py:101-130 | A row has one entry per field, each that field's single-or-list result |
| SchemaValidation.RowsFacts | html_fetcher.py:100-136 | No more rows than containers, each with one entry per field, at least one of them present, each the row of some container |
| SchemaValidation.RowIndices | html_fetcher.py:100-134 | Strictly increasing container positions: exactly those whose row builds and holds a value |
| SchemaValidation.RowsInOrder | html_fetcher.py:100-134 | The rows are the items of exactly the containers whose item holds a value, in container order |
| SchemaValidation.RowsAllKept | html_fetcher.py:132-134 | When every container has a value, every container yields a row |
| SchemaValidation.RowsNoneKept | html_fetcher.py:132-134 | When no container has a value, there are no rows |
| SchemaValidation.CollectValues | html_fetcher.py:106-122 | The element loop computes the field's value list |
| SchemaValidation.BuildItem | html_fetcher.py:101-130 | The field loop for one container raises exactly when some field's cell raises, and otherwise builds that container's row |
| SchemaValidation.ExtractData | html_fetcher.py:94-136 | The container and field loops compute the rows. The result is an error iff some field with a JSON-null type has a value in some container. |
| SchemaInferencer.BlockHeadersDistinct | schema_inferencer.py:39-42 | Different block numbers give different headers |
| SchemaInferencer.HtmlSectionBlocks | schema_inferencer.py:39-42 | Block i stands verbatim under header "### BLOCK i+1" at its offset in the section |
| SchemaInferencer.HtmlSectionSeparators | schema_inferencer.py:39-42 | Every block but the last is followed by the blank-line separator |
| SchemaInferencer.HtmlSectionLength | schema_inferencer.py:39-42 | The section is exactly as long as its headers, blocks and separators, with no leading or trailing separator |
| SchemaInferencer.HtmlSectionOrder | schema_inferencer.py:39-42 | Blocks appear in input order, each ending before the next begins |
| SchemaInferencer.BuildSchemaPrompt | schema_inferencer.py:44-48 | The prompt starts with the template and the snippets heading, holds the section verbatim after them, and ends with one newline |
| SchemaInferencer.PromptShowsEveryBlock | schema_inferencer.py:35-48 | Every block appears in the prompt under its header |
| SchemaInferencer.EmptyPrompt | schema_inferencer.py:39-48 | No blocks gives the template, the heading and a newline |
| SchemaInferencer.FramedSectionBlocks | schema_inferencer.py:39-48 | The HTML section keeps its block layout, shifted by whatever text precedes it |
| SchemaInferencerPrompt.EndpointJsonLabel | schema_inferencer_prompt.py:50 | The endpoint type reads back unchanged from the serialised `classify` result |
| SchemaInferencerPrompt.EndpointJsonDistinguishesTypes | schema_inferencer_prompt.py:50 | Different endpoint types serialise differently |
| SchemaInferencerPrompt.AssembleLayout | schema_inferencer_prompt.py:52-60 | For any template and endpoint text: the prompt starts with the template. The endpoint text sits verbatim between the context heading and the snippets heading, also with no blocks. The HTML section is verbatim up to the whitespace trailer, which ends the prompt. |
| SchemaInferencerPrompt.AssembleBlockAt | schema_inferencer_prompt.py:52-60 | For any template and endpoint text, every block appears under its header, at its section offset past the endpoint context |
| SchemaInferencerPrompt.PromptLayout | schema_inferencer_prompt.py:37-60 | The real prompt starts with the template, context rule included, holds the serialised `classify` result between the two headings, and ends with the trailer |
| SchemaInferencerPrompt.PromptBlockAt | schema_inferencer_prompt.py:37-60 | Every block of the real prompt appears under its header, after the endpoint context |
| SchemaInferencerPrompt.AssembleShowsLabel | schema_inferencer_prompt.py:50-55 | For any template, the endpoint label reads back from the prompt right after the context heading and the `"type"` key |
| SchemaInferencerPrompt.PromptShowsEndpointType | schema_inferencer_prompt.py:50-55 | The endpoint label reads back from the real prompt |
| Text.Find | html_fetcher.py:345 | `find` gives -1 iff the pattern is absent, else its first occurrence |
| Text.CountAtLeastTwo | html_fetcher.py:174 | The non-overlapping count is at least two iff the pattern occurs at two non-overlapping positions |
| Text.RStrip | html_fetcher.py:690 | The result is a prefix whose last character is not whitespace, and everything removed is whitespace |
| Text.NatToStringRoundTrip | schema_inferencer.py:40 | The decimal rendering of a block number reads back as that number |
| Text.JoinItemAt | schema_inferencer.py:39-42 | Each item stands verbatim at its offset in the joined string |

## Left out

- I/O stays outside the model; its results are inputs:
  - HTTP fetching: `fetch_html`, `_fetch_raw_html`;
  - the Playwright session in `_analyze`;
  - BeautifulSoup parsing, CSS selection, `get_text` and `decompose`.
- The `soup.find_all([...])` candidate list is given in document order. The tag restriction it applies is not modelled, so `IsNavigationBlock` is modelled standalone, including its nav/footer clause.
- Python `hash`, md5, `urljoin`, `float(...)` and `datetime.fromisoformat(...)` are foreign calls. They are parameters, or string comparison for md5.
- The fenced regex branch of `extract_json` and `json.loads` use regex and JSON-parser semantics.
  - The model returns the brace-balanced candidate text instead of the parsed object.
  - Braces inside JSON strings are counted like the code counts them.
- `json.dumps(indent=2)` is modelled only for the `classify` result dictionary: the type and the eight flags in field order. It is not modelled for general dictionaries.
- `lower()` folds ASCII capitals only. Non-ASCII capitals in page text, such as `Ş`, are left as they are. The keywords themselves are lower-case.
- `SchemaValidation.ValidateSchema`: reports the unrounded confidence. `round(confidence, 2)` is float rounding; the verdict uses the unrounded value, as in the code.
- `EndpointClassifier.AnalyzedFeatures`: the `* 1.2` comparison is exact real arithmetic, not IEEE doubles.
- A schema dictionary is assumed well formed. The `KeyError` raised by `schema["container_selector"]`, `schema["fields"]` or `spec["selector"]` when a key is missing is not modelled: schemas and field specs are records whose keys are always present.
- `SchemaValidation.CastValue`: the `None` branch of `cast_value` is left out. `extract_data` only passes truthy strings.
- Only the `type` key of the serialised endpoint result is decoded; the feature lines are shown to be in the prompt as written text.
- Not modelled, because they are regex, runtime, network or file operations:
  - regex code cleaning: `clean_ai_code`, `extract_python_code`;
  - code execution and inspection: `run_generated_file`, `run_ai_scraper`, `find_scraper_function`, `is_syntax_valid`, `is_code_complete`;
  - model calls: `infer_schema`, `complete_the_code`;
  - `_validate_url`, and the `__main__` pipeline.

## Findings

| source | as written | input that shows it | evidently intended | confidence | as-written member | corrected member |
|---|---|---|---|---|---|---|
| html_fetcher.py:146-152 | The threshold table is keyed by upper-case names. The pipeline passes the classifier's lower-case label (html_fetcher.py:788), so every endpoint gets the 0.5 default. | endpoint type `"random"`: threshold 0.5 instead of 0.1 | random and tableful pages use 0.1, scroll pages 0.3 | not executed | SchemaValidation.ClassifierLabelsGetDefaultThreshold | SchemaValidation.ThresholdKey |
| html_fetcher.py:690-708 | The endings `"def "`, `"class "`, `"async def "`, `"if "`, `"for "`, `"while "` are matched after `rstrip()`, which removes their trailing space, so they never match. | `"for "` is not reported as truncated | code ending in a dangling keyword is reported as truncated | not executed | LlmOutput.DanglingKeywordMissed | LlmOutput.IntendedCatchesDanglingKeyword |
