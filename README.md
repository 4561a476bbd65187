# jodie contact-field extraction, modelled in Dafny

jodie turns free text into contact fields: first and last name, email, phone,
job title, company and websites. The text is a pasted email signature or loose
words on the command line. This project models the extraction engine at the
heart of it:

- **Signature preprocessor** (`SignaturePreprocessor.preprocess`). It splits the
  text into lines and strips them, drops noise lines (quoted replies, forwarded
  headers, `Original Message` banners, `From:`/`Sent:`/`To:`/`Subject:` headers),
  cuts pronoun annotations such as `(she/her)` and splits on the separator
  characters `• · | – —`.
- **Priority pipeline** (`ParserPipeline.parse`, `_apply_inference`, `to_dict`).
  Each non-blank line is offered to five detectors in the order email, websites,
  job_title, phone, name. The first detector whose key is absent and which
  matches takes the line. Afterwards a company is inferred from a non-webmail
  email domain.
- **Argument heuristic of auto mode** (`parse_auto`) and **mode selection**
  (`detect_argument_mode`). A first pass classifies each argument. A second pass
  takes a company from an argument left unconsumed. A final step infers the
  company from the email against a local eight-entry webmail table.
- **Named-mode resolution** of name and website options, lifted out of `main`
  into a pure function.
- **Result record and webmail table** (`ParseResult`, `WEBMAIL_DOMAINS`).
- **Configuration**: `DEFAULT_CONFIG`, the recursive `_deep_merge`, the merge
  that `load_config` performs, and `get_default`.

The five detectors live in a file that is not part of this model. They are
parameters: a `Detectors` record holds five total functions. Each returns
`NoMatch` (Python `None`), `Match(v)`, or `Fault`, which stands for an exception
raised inside the detector. Both orchestrators are proved for every choice of
detectors.

Files:

- `text.dfy`: the Python `str` operations used, plus the `Option` and `Outcome`
  wrappers.
- `constants.dfy`: the webmail table.
- `base.dfy`: the result record and the detector interface.
- `signature.dfy`: the preprocessor.
- `pipeline.dfy`: the pipeline.
- `cli.dfy`: mode selection, `parse_auto` and named mode.
- `config.dfy`: the configuration.
- `contrast.dfy`: one input that the two orchestrators treat differently.

Each loop the source runs is a method with loop invariants. The method is proved
equal to a specification function, and the properties are proved about that
function. These methods are `Preprocess`, `KeepParts`, `MatchesNoise`, `Parse`,
`OfferLine`, `ParseAuto`, `MatchWebsites`, `CompanyPass` and `DeepMerge`.
`ClassifyArgument` has no loop of its own: it is the body of the first loop of
`parse_auto`, a method proved equal to its step function.

Points where the code behaves differently from what its comments suggest:

- The detector loop of the pipeline skips a row when its key is already stored
  (`if field_name in results: continue`, commented "Skip if we already have
  this field", jodie/parsers/pipeline.py:55-57). The name detector's row is
  keyed `"name"` (line 44), but the name detector stores `first_name` and
  `last_name` (lines 64-78), so the guard never fires for it. A later line can
  therefore replace both names (`Pipeline.NamesOverwritable`).
- The pipeline stores `websites` as one value, the first match
  (jodie/parsers/pipeline.py:80), while `parse_auto` iterates over its
  `websites` as a list (jodie/cli/__main__.py:115-120).
- The fallback "this might be the company name" (jodie/cli/__main__.py:124-126)
  exists only in `parse_auto`; the pipeline has no such pass.
- In `parse_auto` every branch of the second pass assigns `arg.strip()`. A
  whitespace-only argument therefore sets the company to `""`, which is falsy,
  so the next unconsumed argument replaces it.
- Consumption in `parse_auto` is tracked by argument text ("by original text",
  jodie/cli/__main__.py:48-49, 103-105). A duplicate of a consumed argument is
  skipped in the second pass.
- The pronoun pattern (jodie/input/signature.py:19, commented "Pronouns to
  strip from names") also eats the whitespace on both sides of the
  annotation. An annotation between two words therefore joins them:
  "Jane (she/her) Doe" becomes "JaneDoe" (`Signature.InnerAnnotationRemoved`).
- `parse_auto` tests the email domain against its own eight-entry webmail set
  (jodie/cli/__main__.py:134-135), not `WEBMAIL_DOMAINS`. With the same
  detectors and the single input `x@googlemail.com`, the pipeline infers no
  company and auto mode infers `Googlemail` (`Orchestrators.WebmailTablesDiffer`).

## Model

| member | source | states |
|---|---|---|
| Base.SourceDefaultsToParsed | jodie/parsers/base.py:10-16 | a record built without a source has source "parsed" |
| Base.ConfidenceLevels | jodie/parsers/base.py:14 | both confidence constants lie in [0, 1], inferred (0.6) below parsed (0.95) |
| Constants.WebmailDomainsCount | jodie/constants.py:10-44 | the webmail table has exactly 26 distinct domains (the seven provider groups are pairwise disjoint) |
| Constants.GroupSizes | jodie/constants.py:11-43 | the sizes of the seven provider groups: 2, 8, 2, 3, 2, 5, 4 |
| Constants.WebmailDomainsMembers | jodie/constants.py:12-20 | gmail.com, googlemail.com and the six hotmail variants are in the table |
| Constants.WebmailDomainsLowerCase | jodie/constants.py:10-44 | every entry is its own lower-case form and contains a '.', so membership tests on lower-cased domains are meaningful |
| Text.Strip | jodie/input/signature.py:32 | `str.strip`: the result has no whitespace at either end, leaves stripped text unchanged, is empty exactly when the input is all whitespace, and uses only input characters |
| Text.StripIdempotent | jodie/input/signature.py:53 | stripping twice is stripping once |
| Text.TitleFromSpec | jodie/parsers/pipeline.py:109 | `str.title`: same length; each cased letter is upper-cased after an uncased character and lower-cased after a cased one; other characters are kept |
| Text.Split | jodie/parsers/pipeline.py:107 | `str.split(sep)`: at least one piece, the pieces joined with `sep` give back the input, no piece contains `sep`, there are two or more pieces exactly when `sep` occurs, and the first cut is at the leftmost occurrence |
| Text.SplitAtChar | jodie/parsers/pipeline.py:107 | splitting at the only occurrence of a character gives the text before and after it |
| Text.Words | jodie/cli/__main__.py:236 | `str.split()`: every piece is a non-empty run of non-whitespace characters |
| Text.WordsCover | jodie/cli/__main__.py:236 | `str.split()` covers its input: the input is the pieces interleaved with whitespace gaps, every gap between two pieces is non-empty, so the pieces are exactly the maximal non-whitespace runs; there are none exactly when the input is all whitespace |
| Signature.Parts | jodie/input/signature.py:51 | splitting on the separator class gives at least one piece, and no piece holds a separator |
| Signature.PartsCoverInput | jodie/input/signature.py:51 | there is one more piece than there are separators, and the pieces concatenated in order are the input with the separators removed |
| Signature.PartsInterleave | jodie/input/signature.py:51 | the cuts fall exactly at the separators: the input is the pieces interleaved with its separator characters, in order, so every piece is the text between two consecutive separators |
| Signature.PartsOfPlain | jodie/input/signature.py:51 | text without separators is one piece, itself |
| Signature.BannerComplete | jodie/input/signature.py:11 | dashes, optional whitespace, "Original Message" in any case, optional whitespace, and dashes always form a banner |
| Signature.BannerSound | jodie/input/signature.py:11 | every banner line decomposes into exactly those five parts |
| Signature.PronounAlternativesReduce | jodie/input/signature.py:19 | a group mentions one of the six pronouns, ignoring case, exactly when it contains "he" or "him" |
| Signature.PronounMatchAt | jodie/input/signature.py:19 | a match that starts at p ends strictly after p and within the line |
| Signature.PronounMatchSound | jodie/input/signature.py:19 | a match is whitespace, '(', a pronoun-mentioning group without ')', ')', and the longest run of whitespace after it |
| Signature.PronounMatchComplete | jodie/input/signature.py:19 | text of that shape is a match, ending after the trailing whitespace |
| Signature.NoParenNoPronoun | jodie/input/signature.py:19 | a line without '(' holds no pronoun annotation |
| Signature.RemovePronounsPlain | jodie/input/signature.py:48 | text without a pronoun annotation passes the substitution unchanged |
| Signature.TrailingAnnotationRemoved | jodie/input/signature.py:48 | a name followed by " (" + a pronoun group + ")" loses the annotation and the space before it, and the name is kept |
| Signature.InnerAnnotationRemoved | jodie/input/signature.py:48 | an annotation between two words is cut with the whitespace on both sides, joining the words: "Jane (she/her) Doe" gives "JaneDoe" |
| Signature.MatchesNoise | jodie/input/signature.py:38-45 | the noise loop sets `skip` exactly when some noise pattern matches the line |
| Signature.KeepParts | jodie/input/signature.py:52-55 | the part loop keeps the stripped, non-blank pieces in order; each is non-empty and stripped, and separator-free pieces stay separator-free |
| Signature.KeptWellFormed | jodie/input/signature.py:52-55 | the kept pieces are non-empty and stripped, and stay separator-free |
| Signature.Preprocess | jodie/input/signature.py:25-57 | the method returns the token list of the specification, the empty list for empty text, and only non-empty, stripped, separator-free tokens |
| Signature.LineTokensKept | jodie/input/signature.py:32-55 | a kept line contributes the kept pieces of its pronoun-free, stripped text |
| Signature.LineTokensWellFormed | jodie/input/signature.py:32-55 | every token one line contributes is non-empty, stripped and separator-free |
| Signature.TokensOfLinesWellFormed | jodie/input/signature.py:31-55 | every token of every line is non-empty, stripped and separator-free |
| Signature.TokensOfLinesAppend | jodie/input/signature.py:31 | tokens of earlier lines come first: the tokens of a + b are the tokens of a followed by those of b |
| Signature.NoiseLineDropped | jodie/input/signature.py:34-45 | a blank line, or a line whose stripped text is noise, contributes no tokens |
| Signature.PlainLineSingleToken | jodie/input/signature.py:47-55 | a kept line without separators or pronoun annotation yields exactly its stripped text |
| Signature.AnnotatedNameToken | jodie/input/signature.py:31-55 | a non-noise line holding one token and a trailing pronoun annotation yields exactly that token |
| Signature.AnnotatedLineToken | jodie/input/signature.py:31-55 | "Jane Doe (she/her)" yields the single token "Jane Doe" |
| Pipeline.ParsersByPriority | jodie/parsers/pipeline.py:39-48 | the table is strictly descending in priority with distinct keys, so sorting leaves the order email, websites, job_title, phone, name |
| Pipeline.Parse | jodie/parsers/pipeline.py:19-94 | the method returns the inference applied to the specified sweep of the lines |
| Pipeline.OfferLine | jodie/parsers/pipeline.py:54-89 | the detector loop on one line computes the specified line step |
| Pipeline.FirstFiringRowWins | jodie/parsers/pipeline.py:54-86 | the first row whose key is absent and whose detector matches decides the line alone; with no such row nothing changes |
| Pipeline.OneRowPerLine | jodie/parsers/pipeline.py:54-86 | a line either changes nothing or changes only the keys that one row writes |
| Pipeline.LineStepWrites | jodie/parsers/pipeline.py:54-86 | a line's outcome is no change or the store of one row that fires |
| Pipeline.StoreWrites | jodie/parsers/pipeline.py:63-85 | a row's store touches no key outside the keys that row writes |
| Pipeline.SweepFromAppend | jodie/parsers/pipeline.py:50 | lines are processed in order: sweeping a + b is sweeping b after a |
| Pipeline.LineResultKeeps | jodie/parsers/pipeline.py:56-57 | a line never removes a key and never changes an entry other than the name pair |
| Pipeline.StickyFields | jodie/parsers/pipeline.py:56-57 | once present, email, websites, job_title and phone keep their entry whatever lines follow |
| Pipeline.NameKeyNeverStored | jodie/parsers/pipeline.py:64-78 | neither "name" nor "company" is ever a key of the sweep's results |
| Pipeline.NameRowStores | jodie/parsers/pipeline.py:64-78 | when only the name row fires with a non-empty pair, first_name and last_name are both written |
| Pipeline.NamesOverwritable | jodie/parsers/pipeline.py:56-78 | a later line on which no higher row fires and the name detector finds a non-empty pair replaces both names, whatever earlier lines set |
| Pipeline.NoFault | jodie/parsers/pipeline.py:87-89 | an exception becomes "no match"; any other outcome is kept |
| Pipeline.FaultIsNoMatch | jodie/parsers/pipeline.py:60-89 | detectors that raise give the same results as detectors that return no match instead |
| Pipeline.BlankLinesIgnored | jodie/parsers/pipeline.py:50-52 | sweeping the lines equals sweeping only the lines with a non-whitespace character |
| Pipeline.NonBlank | jodie/parsers/pipeline.py:50-52 | the kept lines are exactly the input lines with a non-whitespace character: every kept line is one of them, and every such line is kept |
| Pipeline.NonBlankAppend | jodie/parsers/pipeline.py:50-52 | the filter keeps the order of the lines: filtering a + b gives the filtered a followed by the filtered b |
| Pipeline.BlankLineDropped | jodie/parsers/pipeline.py:50-52 | a blank line anywhere among the lines can be removed without changing the sweep |
| Pipeline.StoreShape | jodie/parsers/pipeline.py:63-85 | a store keeps every entry parsed (0.95, source parsed) and read off one of the lines, with the name pair together |
| Pipeline.LineResultShape | jodie/parsers/pipeline.py:63-85 | one more line keeps the shape of the results |
| Pipeline.SweepShape | jodie/parsers/pipeline.py:63-85 | every swept entry has confidence 0.95, source parsed and a line of the input as consumed text; only the six sweep keys occur; first_name and last_name come together, from one line |
| Pipeline.CompanyOfDomain | jodie/parsers/pipeline.py:109 | the inferred company has the length of the first label and contains no '.' |
| Pipeline.Infer | jodie/parsers/pipeline.py:96-115 | a company is added exactly when none is present and the email holds '@' with a non-webmail lower-cased domain; nothing else changes |
| Pipeline.ParseCompany | jodie/parsers/pipeline.py:91-115 | company is present iff the swept email contains '@' and its domain is not webmail; it is then the title-cased first label with 0.6, source inferred and the domain as consumed text; all swept entries are kept |
| Pipeline.ToDict | jodie/parsers/pipeline.py:117-127 | the same keys, each mapped to the value of its entry |
| Pipeline.GooglemailDomain | jodie/parsers/pipeline.py:107 | the domain of "x@googlemail.com" is "googlemail.com" |
| Pipeline.GooglemailNoCompany | jodie/parsers/pipeline.py:104-115 | an email at googlemail.com yields no company |
| Pipeline.AcmeCorpDomain | jodie/parsers/pipeline.py:107 | the domain of "Jane@Acme-Corp.com" is the lower-cased "acme-corp.com" |
| Pipeline.AcmeCorpName | jodie/parsers/pipeline.py:109 | the company read off "acme-corp.com" is "Acme-Corp" |
| Pipeline.AcmeCorpCompany | jodie/parsers/pipeline.py:104-115 | "Jane@Acme-Corp.com" yields company "Acme-Corp" with confidence 0.6, source inferred and consumed text "acme-corp.com" |
| Cli.DetectArgumentMode | jodie/cli/__main__.py:12-34 | `--explicit` gives positional; otherwise named iff a truthy non-utility option; otherwise auto iff TEXT is truthy |
| Cli.ModeIgnoresUtilityFlags | jodie/cli/__main__.py:10-28 | setting a utility flag other than `--explicit` never changes the mode |
| Cli.NamedBeatsText | jodie/cli/__main__.py:20-28 | without `--explicit`, one truthy named option selects named mode whatever TEXT holds |
| Cli.ClassifyArgument | jodie/cli/__main__.py:53-99 | one iteration of the first loop computes the specified first-pass step, including the exception from unpacking a name detector's `None` |
| Cli.MatchWebsites | jodie/cli/__main__.py:115-120 | the website loop finds a match exactly when the argument and some website's domain contain one another, ignoring case |
| Cli.CompanyPass | jodie/cli/__main__.py:102-126 | the second loop computes the specified second pass |
| Cli.ParseAuto | jodie/cli/__main__.py:36-141 | the method returns the specified outcome: both passes and the email inference, or the exception of the first pass |
| Cli.RaisedPropagates | jodie/cli/__main__.py:52-99 | once a first-pass step raises, the whole first pass raises |
| Cli.FirstPassFromAppend | jodie/cli/__main__.py:52 | arguments are classified in order: a + b is b after a, and an exception in a ends the pass |
| Cli.FirstStepKeeps | jodie/cli/__main__.py:54-99 | a step never changes a truthy email, job_title or phone, nor the name pair once first name is truthy; it only extends websites, leaves company and note alone, and never drops a consumed argument |
| Cli.KeepsTransitive | jodie/cli/__main__.py:52-99 | keeping these fields composes over steps |
| Cli.FirstPassFromKeeps | jodie/cli/__main__.py:52-99 | the whole first pass keeps these fields |
| Cli.StickyFields | jodie/cli/__main__.py:54-93 | the first pass over a + b keeps what the pass over a set |
| Cli.OneFieldPerArgument | jodie/cli/__main__.py:54-99 | one argument changes only one field group (email with name, websites, job_title, phone, or name), and at most that argument is consumed |
| Cli.StepWithEmail | jodie/cli/__main__.py:67-74 | with an email present, a step appends the argument's website hit, if any, and keeps the email |
| Cli.StepWithoutEmail | jodie/cli/__main__.py:54-74 | without an email, a step either takes the email hit, websites unchanged, or appends the website hit |
| Cli.FirstPassWebsites | jodie/cli/__main__.py:54-74 | websites are exactly the website hits of the arguments not taken as the email, in order; no email hit means no email; the argument taken as email gives the email |
| Cli.SecondPassCompany | jodie/cli/__main__.py:101-126 | only company changes: the first unconsumed argument with non-empty stripped text gives the company, stripped; otherwise "" if any argument was unconsumed, else none |
| Cli.InferCompany | jodie/cli/__main__.py:128-139 | with no truthy company and an email holding '@' whose lower-cased domain is outside the eight-entry set, company is the title-cased first label; otherwise nothing changes |
| Cli.AutoResult | jodie/cli/__main__.py:36-141 | note stays None; only company differs from the first pass; it is the first usable unconsumed argument, else the email's company, else "" or none |
| Cli.Or | jodie/cli/__main__.py:230-234 | `a or b`: a when truthy, otherwise b |
| Cli.SplitUrls | jodie/cli/__main__.py:247-249 | one entry per comma-separated piece, each the stripped piece, without a comma |
| Cli.WordStripped | jodie/cli/__main__.py:238 | a word is its own strip |
| Cli.JoinWordsStripped | jodie/cli/__main__.py:240 | words joined by spaces are already stripped |
| Cli.FullNameFillsMissing | jodie/cli/__main__.py:234-240 | a full name fills only the missing first/last: the first word and the rest joined by spaces; with both missing they rejoin to the words |
| Cli.BlankFullNameRaises | jodie/cli/__main__.py:235-238 | a non-empty full name of only whitespace raises when first is missing |
| Cli.NamedWebsites | jodie/cli/__main__.py:246-257 | a websites string becomes its stripped comma-separated URLs, followed by the LinkedIn entry when given |
| Config.DeepMerge | jodie/config.py:65-81 | the method returns the merge: keys of both, override wins unless both are tables, tables merged recursively, base-only keys kept |
| Config.MergeEmptyOverride | jodie/config.py:75-81 | merging an empty override gives back the base |
| Config.MergeEmptyBase | jodie/config.py:75-81 | merging into an empty base gives back the override |
| Config.MergeSelf | jodie/config.py:65-81 | a table merged with itself is unchanged at every depth |
| Config.MergeIdempotent | jodie/config.py:65-81 | laying the same override on twice equals laying it on once |
| Config.GetDefault | jodie/config.py:109-122 | a given command-line value wins; otherwise the `defaults` entry for a present key, None for a missing key or a missing `defaults` section; it raises exactly when `defaults` is present but not a table |
| Config.DefaultConfigShape | jodie/config.py:27-46 | all six parser toggles exist and are on, and the default company is None |
| Config.LoadConfig | jodie/config.py:84-106 | without a readable user file the defaults come back; otherwise the keys of both, with default sections the user does not name unchanged |
| Config.UserDefaultWins | jodie/config.py:84-122 | after loading, a key the user sets in `defaults` is what the lookup returns |
| Config.UnsetDefaultKept | jodie/config.py:84-122 | after loading, a default the user does not set is what the lookup returns |
| Orchestrators.SweepOneLine | jodie/parsers/pipeline.py:50-86 | under detectors that take every token as an email, one non-blank line becomes the email entry alone |
| Orchestrators.AutoOneArgument | jodie/cli/__main__.py:52-65 | under the same detectors, auto mode takes the single argument as the email and consumes it |
| Orchestrators.PipelineGooglemail | jodie/parsers/pipeline.py:104-108 | the pipeline infers no company for x@googlemail.com |
| Orchestrators.AutoGooglemail | jodie/cli/__main__.py:128-139 | auto mode infers "Googlemail" for x@googlemail.com |
| Orchestrators.WebmailTablesDiffer | jodie/cli/__main__.py:134-136 | with the same detectors and input, the pipeline infers no company and auto mode infers "Googlemail" |

## Left out

- The five detectors: their implementation file is not part of this model. They are parameters, and every result holds for all of them.
- `main()`: docopt, `nameparser.HumanName`, standard output, `sys.exit` and saving the contact are I/O or foreign code. Named mode is modelled as a pure function over the option values, which are strings. The positional branch, which only calls the detectors and exits on an exception, is left out.
- Clipboard and stdin input, `find_config_file` and TOML parsing are I/O. `LoadConfig` takes the parsed user table, or `None` when there is no reader, no file, or a read error.
- `Config.Value`: configuration values are limited to null, booleans, strings, lists and tables. TOML integers, floats and dates are not modelled, so a user file holding them cannot be represented. The shipped defaults use none of them, and the merge and lookup treat every non-table value alike.
- The dry-run preview, the usage text and the package `__init__` files are presentation and metadata.
- `BaseParser.find_matches` is a thin wrapper over `re.findall`.
- Case mapping covers ASCII letters only, for `re.IGNORECASE`, `str.lower` and `str.title`. Non-ASCII case folding is not modelled. Whitespace is the full set of `str.isspace`.
- Dictionary insertion order is not modelled: results are maps.
- The values of `ParseResult` are strings. The pipeline's `websites` entry is the single string a detector returns.
- Confidences are the fixed reals 0.95 and 0.6; nothing is computed in floating point.
- `ParseAuto` keeps the first loop of `parse_auto` and calls `CompanyPass` for the second. The first loop's body is the helper method `ClassifyArgument`, and the website loop inside the second is `MatchWebsites`; each is proved equal to its specification function.
- `_deep_merge` copies its base and does not modify its arguments. In the model, maps are values, so there is no aliasing to state.
- `_apply_inference` updates `results` in place. `Infer` is a function on the map, and `Parse` reassigns its local map with the result.
