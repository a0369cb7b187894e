# Scientific research system: the deterministic core, modelled in Dafny

The research system is a pipeline of LLM agents. The agents call a handful
of plain Python tools, and the pipeline's wiring is fixed data. This project
models those tools and that wiring, and proves properties of them.

- `text_util.dfy` (module `TextUtil`): the slice of Python's `str` the tools
  rely on.
  - `lower`, restricted to ASCII letters.
  - `sub in s`.
  - `strip`, with the exact `str.isspace` character set.
  - `sep.join`.
  - ASCII digits.
- `citation_tools.dfy` (module `CitationTools`): `fetch_citation_metadata`,
  the fixed five-citation list, and `detect_temporal_anomaly`.
  - `detect_temporal_anomaly` is an imperative walk over the citations. It is
    proved equal to a functional reading, `TemporalAnomalies`.
  - Dates are parsed strictly as `YYYY-MM-DD` into valid Gregorian dates.
    Parsing and formatting are proved to be inverse.
  - The first unparsable date collapses the whole result into one error
    entry, as the `except ValueError` does.
- `code_tools.dfy` (module `CodeTools`):
  - `extract_code_blocks`: the regex ```` ```(?:python)?(.*?)``` ```` under
    `re.DOTALL`, scanned position by position as `re.findall` does. The greedy
    optional tag backtracks when no closing fence follows it. Each capture
    is then stripped.
  - `validate_python_env`: the conflict rule is checked before the
    data-stack rule.
  - Extraction is proved to invert rendering on renderable documents:
    prose without backticks (so no inline code) and code bodies that hold
    no fence and have no whitespace at either end. Rendering such prose
    and code blocks (tagged ```` ```python ```` or bare ```` ``` ````) to
    markdown and extracting gives the code bodies back, in order.
- `forensics_tools.dfy` (module `ForensicsTools`): `check_benfords_law`.
  - The function has two loops: the first-digit loop and the `for d in
    range(1, 10)` deviation loop. It is a method with both loops, proved
    equal to the specification function `BenfordOf`.
  - Digits come from the text `str(float(n))`, with the points removed and
    leading zeros stripped.
  - The histogram has keys 1..9, and its counts sum to the number of valid
    entries.
  - The risk score is `min(100, int(200 * deviation))`.
  - The result does not depend on the order of the input: any permutation
    of the list gives the same report (`PermutationIrrelevant`).
  - A worked ten-number example is computed exactly: it scores 99.
  - The source's comment (tools/forensics_tools.py lines 39-40) guesses that
    the deviation sum reaches "around 1.0". The proved bound is 2
    (`DeviationBelowTwo`), and a single repeated leading digit already
    saturates the score (`SingleDigitMaximal`). The score passes 50 as soon
    as the deviation reaches 0.255, not 0.3 (`RiskScore`).
- `ontology_tools.dfy` (module `OntologyTools`): `canonicalize_problem`.
  - The keyword table is searched in its declared order. The first key
    found in the lower-cased description wins.
  - Otherwise the fallback quotes the description with its original case.
- `research_app.dfy` (module `ResearchApp`): `create_research_system` as
  data.
  - The workflow has nine sequential stages. Three of them are groups whose
    class is `ParallelAgent` exactly for the mode string `"parallel"`.
  - Each agent is reduced to its name, the state keys its instruction's
    `{key}` placeholders name, and its `output_key`.
  - The sub-agents' keys come from agents/citation_auditor.py:23,
    agents/fraud_detector.py:23, agents/reproducibility_agent.py:25,
    agents/domain_bridge.py:22 and agents/negative_results.py:21. Their
    instructions hold no placeholders.
  - The built workflow is proved well formed for every mode:
    - every placeholder names a key stored by a strictly earlier stage;
    - no two agents share an output key.
  - Consequences: siblings in a group never read each other's output, so
    running a group concurrently cannot change what any instruction sees.

## Model

| member | source | states |
|---|---|---|
| TextUtil.Lower | tools/code_tools.py:21 | `lower()` keeps the length and maps each character to its lower-case form |
| TextUtil.LowerIdempotent | tools/ontology_tools.py:8 | lower-casing twice is lower-casing once |
| TextUtil.LowerJoin | tools/code_tools.py:21 | lower-casing a space-joined list lower-cases each entry and joins them |
| TextUtil.Join | tools/code_tools.py:21 | `" ".join` of no entries is empty, and every entry occurs in the joined text |
| TextUtil.ContainsExtend | tools/code_tools.py:23 | `Contains`, the model of `sub in s` (true for the empty `sub`): a substring of a text stays a substring when text is added around it |
| TextUtil.Strip | tools/code_tools.py:13 | `strip()` returns an infix with whitespace only before and after it and none at its own ends |
| TextUtil.StripPadded | tools/code_tools.py:13 | stripping a stripped text padded with whitespace gives the text back |
| TextUtil.DigitChar | tools/forensics_tools.py:18 | the digit character of n < 10 is a digit whose value `int()` reads back as n |
| CitationTools.DaysInMonth | tools/citation_tools.py:28 | months have 28 to 31 days; 29 exactly for February of a leap year |
| CitationTools.FormatDate | tools/citation_tools.py:28 | a valid date is written in the `DDDD-DD-DD` shape of `%Y-%m-%d` |
| CitationTools.ParseDate | tools/citation_tools.py:28-33 | a parse succeeds only on a `ValidDate` (year 1..9999, month 1..12, day within the month, as `strptime` checks) that formats back to the same text |
| CitationTools.ParseFormatDate | tools/citation_tools.py:28 | every valid date survives formatting then parsing |
| CitationTools.DateField | tools/citation_tools.py:31-32 | a date is read exactly when `publication_date` is present and non-empty (truthy) |
| CitationTools.FirstUnparsable | tools/citation_tools.py:33-38 | a reported date text belongs to a citation of the list whose date fails to parse |
| CitationTools.FirstUnparsableAt | tools/citation_tools.py:30-38 | the error names the date of the first citation in list order that fails to parse |
| CitationTools.FirstUnparsableNone | tools/citation_tools.py:30-38 | no error arises exactly when every citation is `Parsable`: its date parses or is absent |
| CitationTools.TemporalAnomalies | tools/citation_tools.py:21-40 | a successful result never holds more citations than the input |
| CitationTools.DetectTemporalAnomaly | tools/citation_tools.py:21-40 | the loop that appends anomalies and returns on the first ValueError computes `TemporalAnomalies` |
| CitationTools.AnomaliesMembership | tools/citation_tools.py:34-35 | a citation is flagged exactly when it is in the input and `IsAnomaly` holds: its date is present, parses and is strictly `After` the paper's |
| CitationTools.AnomaliesAppend | tools/citation_tools.py:30-35 | the filter keeps input order: it distributes over concatenation |
| CitationTools.Anomalies | tools/citation_tools.py:30-35 | the loop's filter over the citations keeps at most as many entries as it is given |
| CitationTools.FlaggedExactly | tools/citation_tools.py:26-40 | on success the paper date parsed and the result holds exactly the later-dated citations |
| CitationTools.NotAfterNeverFlagged | tools/citation_tools.py:34 | a citation dated on or before the paper is never flagged |
| CitationTools.SameDayNeverFlagged | tools/citation_tools.py:34 | a citation from the paper's own day is not flagged: `After`, the calendar order of `date >`, is strict |
| CitationTools.MissingDateNeverFlagged | tools/citation_tools.py:31-32 | a citation with a missing or empty date is skipped |
| CitationTools.ErrorCollapse | tools/citation_tools.py:27-38 | the result is the single error exactly when the paper date or some citation date does not parse |
| CitationTools.FetchCitationMetadata | tools/citation_tools.py:4-19 | the mock returns five citations, all dated, whatever the paper id |
| CitationTools.MockDatesParse | tools/citation_tools.py:13-17 | the mock's five dates (and 2023-10-01) parse to the expected calendar dates |
| CitationTools.MockCitationsClassified | tools/citation_tools.py:12-18 | against a paper of 2023-10-01, cit_003 and cit_004 are anomalies and the others are not |
| CitationTools.MockCitationsFlagged | tools/citation_tools.py:9-18 | auditing the mock list against 2023-10-01 flags exactly cit_003 then cit_004 |
| CodeTools.NextFence | tools/code_tools.py:11 | the lazy `.*?` stops at the nearest closing fence at or after the position, if any |
| CodeTools.MatchAt | tools/code_tools.py:11 | a match exists exactly when a fence opens here and another fence follows; the capture starts right after the fence, or after the `python` tag when that tag is present, and no fence occurs between the opening fence and the closing one |
| CodeTools.StripAll | tools/code_tools.py:13 | each match is stripped, one output per match |
| CodeTools.ExtractCodeBlocks | tools/code_tools.py:4-13 | every extracted block has no whitespace at either end |
| CodeTools.NoFenceNoMatches | tools/code_tools.py:12 | no fence from a position on means no match from there |
| CodeTools.NoFenceNoBlocks | tools/code_tools.py:4-13 | text without a triple backtick yields no block |
| CodeTools.UnmatchedFenceContributesNothing | tools/code_tools.py:11-12 | an opening fence with no fence after it yields no block |
| CodeTools.CapturedBlocksFenceFree | tools/code_tools.py:11-12 | no captured block contains a fence (the capture is non-greedy) |
| CodeTools.NextFenceShift | tools/code_tools.py:11 | the fence search looks only forward: text put before it shifts the result |
| CodeTools.MatchAtShift | tools/code_tools.py:11 | a match attempt looks only forward: text put before it shifts the match |
| CodeTools.FindAllShift | tools/code_tools.py:12 | `findall` from a position ignores everything before that position |
| CodeTools.FindAllBound | tools/code_tools.py:12 | `FindAll`, the model of `re.findall`, returns non-overlapping matches: at most one per six characters, two fences each |
| CodeTools.FindAllShiftMatch | tools/code_tools.py:12 | one matching step of the shifted scan agrees with the unshifted one |
| CodeTools.FindAllSameMatch | tools/code_tools.py:12 | scans that capture the same text and agree after it agree from here on |
| CodeTools.ShiftedSlice | tools/code_tools.py:12 | a capture in shifted text is the same text |
| CodeTools.SkipProse | tools/code_tools.py:11-12 | backtick-free text is skipped without a match |
| CodeTools.RenderedBlock | tools/code_tools.py:11-12 | a tagged ```` ```python ```` or bare ```` ``` ```` block is captured whole, tag excluded, and the scan resumes after it |
| CodeTools.Opening | tools/code_tools.py:11 | both opening forms begin with a fence and end with a newline |
| CodeTools.SliceFence | tools/code_tools.py:11 | a fence inside a slice is a fence in the whole text |
| CodeTools.FindAllShiftSkip | tools/code_tools.py:12 | a position without a match is skipped alike in the shifted and the unshifted scan |
| CodeTools.FirstFence | tools/code_tools.py:11 | the search finds the fence that has no fence before it |
| CodeTools.ExtractRendered | tools/code_tools.py:4-13 | for prose without backticks and tagged or bare blocks whose bodies hold no fence and no whitespace at either end (`Renderable`), extracting from the rendered markdown returns exactly the code bodies in order |
| CodeTools.ValidatePythonEnv | tools/code_tools.py:15-29 | an invalid verdict carries the conflict error; a valid one carries one of the two messages |
| CodeTools.ContainsAroundSpace | tools/code_tools.py:21-23 | a space-free word occurs in `x + " " + y` exactly when it occurs in x or in y |
| CodeTools.ContainsJoin | tools/code_tools.py:21-23 | a space-free word occurs in the space-joined list exactly when it occurs in some entry |
| CodeTools.MentionsJoined | tools/code_tools.py:21-23 | a search of the lower-cased joined text is a search of each lower-cased entry |
| CodeTools.InvalidIffConflict | tools/code_tools.py:21-24 | invalid exactly when some entry mentions tensorflow and some mentions pytorch, in any case |
| CodeTools.ConflictBeatsDataStack | tools/code_tools.py:23-27 | the conflict rule wins even when numpy and pandas are present |
| CodeTools.DataStackDetected | tools/code_tools.py:26-27 | without a conflict, the data-stack message appears exactly when numpy and pandas are both mentioned |
| CodeTools.EmptyDependenciesCompatible | tools/code_tools.py:29 | an empty list is compatible |
| CodeTools.CaseInsensitive | tools/code_tools.py:21 | lower-casing every entry first changes no verdict |
| ForensicsTools.RemoveDots | tools/forensics_tools.py:16 | `replace('.', '')` leaves no point and never lengthens the text |
| ForensicsTools.StripLeadingZeros | tools/forensics_tools.py:16 | `lstrip('0')` removes a prefix of zeros and leaves no leading zero |
| ForensicsTools.FirstDigit | tools/forensics_tools.py:16-20 | a digit is taken only when one is left, and it is in 1..9 |
| ForensicsTools.ValidDigits | tools/forensics_tools.py:13-20 | at most one digit per entry, each in 1..9 |
| ForensicsTools.DecimalText | tools/forensics_tools.py:16 | the numeral of a whole number is non-empty, point-free, all digits |
| ForensicsTools.LeadingDigit | tools/forensics_tools.py:18 | reference reading: d with d·10^k <= n < (d+1)·10^k |
| ForensicsTools.FirstDigitOfWhole | tools/forensics_tools.py:16-18 | for `float(n)` = `n.0` with n >= 1, the string procedure yields the leading digit of n |
| ForensicsTools.FirstDigitOfFraction | tools/forensics_tools.py:16-18 | for `0.00…n` the string procedure yields the first significant digit |
| ForensicsTools.LeadingZerosDropped | tools/forensics_tools.py:16 | `lstrip('0')` drops exactly a zero prefix before a non-zero character |
| ForensicsTools.NegativeSkipped | tools/forensics_tools.py:16-20 | a negative number yields no digit (its sign is not a digit) |
| ForensicsTools.ZeroSkipped | tools/forensics_tools.py:16-17 | zero yields no digit |
| ForensicsTools.CountOf | tools/forensics_tools.py:26 | `first_digits.count(d)` is the multiplicity of d |
| ForensicsTools.Distribution | tools/forensics_tools.py:26 | the counts dictionary has keys exactly 1..9, each mapped to its multiplicity |
| ForensicsTools.CountsSumToTotal | tools/forensics_tools.py:25-26 | the counts of 1..9 add up to `total` |
| ForensicsTools.RiskScore | tools/forensics_tools.py:41 | score in 0..100; 100 exactly when deviation >= 0.5; above 50 exactly when deviation >= 0.255 |
| ForensicsTools.BenfordOf | tools/forensics_tools.py:4-47 | score in 0..100; no distribution exactly when no entry yields a digit |
| ForensicsTools.CheckBenfordsLaw | tools/forensics_tools.py:4-47 | the digit loop and the deviation loop compute `BenfordOf` |
| ForensicsTools.ReportShape | tools/forensics_tools.py:25-47 | with valid digits: keys 1..9, each value the number of digits equal to its key (`counts`), values summing to the total, and the message (`Verdict`) high exactly when score > 50 |
| ForensicsTools.EarlyExits | tools/forensics_tools.py:9-23 | empty input gives "No data provided."; all entries skipped gives "No valid numbers found." |
| ForensicsTools.NoDigitsWhenAllSkipped | tools/forensics_tools.py:13-23 | if no entry yields a digit, the digit list is empty |
| ForensicsTools.ValidDigitsAppend | tools/forensics_tools.py:13-20 | digit extraction distributes over concatenation |
| ForensicsTools.SkippedEntryIgnored | tools/forensics_tools.py:13-20 | appending an entry that yields no digit to a non-empty list changes nothing |
| ForensicsTools.DeviationUpToPermutation | tools/forensics_tools.py:32-36 | the deviation depends only on the digit multiset |
| ForensicsTools.OrderIrrelevant | tools/forensics_tools.py:13-47 | swapping two parts of the input leaves the whole report unchanged |
| ForensicsTools.PermutationIrrelevant | tools/forensics_tools.py:13-47 | any permutation of the input gives the same report |
| ForensicsTools.ValidDigitsPermutation | tools/forensics_tools.py:13-20 | permuting the entries permutes the extracted digits |
| ForensicsTools.SameDigitsSameReport | tools/forensics_tools.py:9-47 | two inputs, both empty or both non-empty, with the same digit multiset get the same report |
| ForensicsTools.DigitsAround | tools/forensics_tools.py:13-20 | the digits of `b1 + [x] + b2` are the digits of x next to those of `b1 + b2`, as a multiset |
| ForensicsTools.ShareSumIsCount | tools/forensics_tools.py:34 | the shares of 1..k add up to the counts of 1..k over the total |
| ForensicsTools.DeviationUpToBound | tools/forensics_tools.py:32-36 | the deviation is at most the observed plus the expected shares |
| ForensicsTools.DeviationUpTo | tools/forensics_tools.py:32-36 | the running sum of absolute differences over the digits 1..k is never negative |
| ForensicsTools.Deviation | tools/forensics_tools.py:32-36 | the deviation over the digits 1..9 is never negative |
| ForensicsTools.DeviationBelowTwo | tools/forensics_tools.py:32-39 | the deviation sum never exceeds 2 |
| ForensicsTools.ExpectedSumBelowOne | tools/forensics_tools.py:29 | the nine expected Benford shares (`BenfordExpected`) add up to at most 1 |
| ForensicsTools.SingleDigitMaximal | tools/forensics_tools.py:32-41 | a list whose entries all lead with one digit scores 100 |
| ForensicsTools.WholeEntryDigit | tools/forensics_tools.py:16-18 | a whole-number entry's `EntryDigit` is its leading digit |
| ForensicsTools.DigitsInOrder | tools/forensics_tools.py:13-20 | if every entry yields a digit, the list holds those digits in order |
| ForensicsTools.WholeNumbersDigits | tools/forensics_tools.py:13-20 | positive whole numbers contribute their leading digits in order |
| ForensicsTools.HundredsDigits | tools/forensics_tools.py:13-20 | three-digit numbers contribute their hundreds digits |
| ForensicsTools.ExampleDigits | tools/forensics_tools.py:13-20 | the example series yields digits 1,4,7,1,2,3,9,8,7,1 |
| ForensicsTools.ExampleCounts | tools/forensics_tools.py:26 | the example's histogram is 3,1,1,1,0,0,2,1,1 |
| ForensicsTools.ExampleDeviation | tools/forensics_tools.py:32-36 | the example's deviation sum is 0.49637605401240082 |
| ForensicsTools.ExampleReport | tools/forensics_tools.py:4-47 | the example report: score 99, its histogram, "High deviation detected" |
| OntologyTools.FirstMatch | tools/ontology_tools.py:11-21 | a returned abstraction is one of the values of the `Mappings` table |
| OntologyTools.CanonicalizeProblem | tools/ontology_tools.py:3-23 | the result is a table value or the fallback quoting the description |
| OntologyTools.FirstMatchIsEarliest | tools/ontology_tools.py:19-21 | the entry returned is the first in table order whose key occurs |
| OntologyTools.FirstMatchNone | tools/ontology_tools.py:19-23 | nothing is matched exactly when no key occurs |
| OntologyTools.CanonicalizeOutcomes | tools/ontology_tools.py:8-23 | no key present gives the fallback; otherwise the earliest present key's abstraction is returned |
| OntologyTools.ProteinFoldingWins | tools/ontology_tools.py:11-21 | "protein folding", listed first, beats every other keyword |
| OntologyTools.ClimateModelingLast | tools/ontology_tools.py:16-21 | "climate modeling" wins exactly when none of the four earlier keys occurs |
| OntologyTools.CaseInsensitive | tools/ontology_tools.py:8 | descriptions equal after lower-casing get the same abstraction when a key occurs |
| ResearchApp.StageDiscipline | agents/research_app.py:41 | groups are concurrent exactly for the mode string "parallel" |
| ResearchApp.CreateResearchSystem | agents/research_app.py:204-220 | a sequential "research_workflow" of nine stages whose groups follow the mode |
| ResearchApp.Resolve | agents/research_app.py:63-65 | placeholders fill exactly when every named key is stored, with the stored values in order |
| ResearchApp.KeyNamesDistinct | agents/research_app.py:53-201 | distinct output keys are spelled differently |
| ResearchApp.KeysOfMembers | agents/research_app.py:90-99 | a key belongs to a stage exactly when one of its agents stores under it |
| ResearchApp.KeysBeforeMembers | agents/research_app.py:205-218 | a key stored before stage i is stored by some stage j < i |
| ResearchApp.SiblingsIndependent | agents/research_app.py:136-139 | in a well-formed workflow no agent reads a sibling's (or its own) output key |
| ResearchApp.PlaceholdersResolve | agents/research_app.py:205-218 | once the earlier stages' keys are stored, every agent's placeholders fill |
| ResearchApp.ResolveIgnoresOtherKeys | agents/research_app.py:65 | writing a key an instruction does not name leaves its filling unchanged |
| ResearchApp.SiblingWriteInvisible | agents/research_app.py:90-93 | a sibling's write cannot change what an agent's instruction sees |
| ResearchApp.CreatedWellFormed | agents/research_app.py:21-220 | for every mode the workflow is `WellFormed`: `RefsResolve` (every placeholder names a key of an earlier stage) and `KeysDistinct` (no output key written twice) |
| ResearchApp.StageMembers | agents/research_app.py:205-218 | the agents of each of the nine stages, as the constants `QueryAgent` … `EvaluationAgent` with their names, placeholders and output keys |
| ResearchApp.StageKeySets | agents/research_app.py:205-218 | the output keys of each of the nine stages |
| ResearchApp.KeysBeforeSets | agents/research_app.py:205-218 | the keys stored before stages 1, 2, 4, 6 and 8 |
| ResearchApp.StagesResolve | agents/research_app.py:63-187 | every placeholder names a key of a strictly earlier stage |
| ResearchApp.StageKeysOwned | agents/research_app.py:205-218 | every key of stage i belongs to that stage alone |
| ResearchApp.StagesKeysDistinct | agents/research_app.py:53-201 | no two agents of the built workflow share an output key |
| ResearchApp.NonParallelModesAgree | agents/research_app.py:41 | every mode other than "parallel" builds the same workflow as "sequential" |
| ResearchApp.ModeOnlyAffectsGroups | agents/research_app.py:41 | the mode changes only the groups' class, never names, members or single stages |
| ResearchApp.StageOrder | agents/research_app.py:205-218 | the nine stages in order: query, mining, quality control, graph, gaps, innovation, hypotheses, writing, evaluation |

## Left out

- The agent runtime is not part of this model. That covers LLM calls, prompt wording, `Config.MODEL_NAME`, tool bindings (`FunctionTool`) and the ADK's scheduling of parallel groups. `Resolve` is the model's reading of how the runtime fills `{key}` placeholders from session state.
- `arxiv_tools.py`, `search_tools.py`, `app.py`, `main.py`, `main_adk.py`, `config.py` and `utils.py` are not part of this model. They are network search, the user interface and configuration.
- `check_p_value_consistency` (tools/forensics_tools.py:49-76) is left out. It needs the normal CDF from scipy and floating-point arithmetic.
- ForensicsTools.BenfordExpected: the Benford shares are the decimal values of the doubles `math.log10(1 + 1/d)`, taken as exact reals. Float rounding in the division, the running sum and `deviation_sum * 200` is not modelled. A score sitting exactly at a rounding boundary may differ from the float computation by one.
- ForensicsTools.Entry: each element is modelled by the text of `str(float(n))`, or as an element whose conversion raises ValueError. The float formatting itself is taken as given. `WholeEntry` assumes that a whole number n prints as `n.0`. That holds for n below 2^53. Above it the double rounds (9007199254740993 prints as `9007199254740992.0`) and from 10^16 on `str` uses exponent notation (9999999999999999 prints as `1e+16`). A `TypeError` from `float()`, and the `OverflowError` that `float()` raises on an integer too large for a double, are uncaught exceptions in the source and are not modelled.
- CitationTools.ParseDate: accepts exactly the four-two-two digit form. Python's `strptime` also accepts shorter fields, such as `2023-1-5`, a space-padded day such as `2023-10- 1`, and non-ASCII decimal digits in the fields. The model rejects all of these.
- CitationTools.DateField: `publication_date` is modelled as an optional string. In the source a truthy non-string value reaches `strptime` (tools/citation_tools.py:33) and raises an uncaught TypeError; that path is not modelled.
- CitationTools.AnomalyReport: the error entry keeps the date text that failed. The wording of Python's exception message inside `"Error parsing dates: …"` is not modelled.
- TextUtil.Lower: lower-cases ASCII letters only. Python's `str.lower` also maps non-ASCII letters.
- OntologyTools.CanonicalizeOutcomes: states the fallback in one direction only (no key present ⇒ fallback). The converse holds because no table value begins with the fallback text. Proving it means comparing long string literals character by character, so it is stated one level down instead, as the iff `FirstMatchNone`.
- CodeTools.FindAll has no contract of its own. Its properties are stated by the lemmas about it (`FindAllBound`, `CapturedBlocksFenceFree`, `FindAllShift`, `ExtractRendered`, …).
