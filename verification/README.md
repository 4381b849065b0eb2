# Governance and normalization stage, modelled in Dafny

`governance_logic.js` is one step of an ingestion workflow. It receives one
loosely structured business record and does the following:

- It takes the working record: the envelope's `body` when that is truthy,
  otherwise the envelope itself.
- It extracts a raw company name (`company_name`, then `company`, then
  `"Unknown Entity"`).
- It extracts a search text (`news_summary`, then `description`, then `""`)
  and lower-cases it.
- It removes one trailing legal-entity suffix from the name with a regular
  expression, then trims the name.
- It scans an ordered list of eight restricted terms, and the first term
  found in the text quarantines the record.
- It returns the working record's own fields plus a `_meta` block.

Any exception on the way replaces all of this with a fixed QUARANTINE
fail-safe record.

The model has five modules, one file each:

- `values.dfy` (`Values`) covers the JavaScript side: the JSON-like `Value`
  datatype, truthiness, the `||` chain (`FirstTruthy`), and property reads
  that throw on `null`/`undefined` (`Get`). It also covers the own entries
  that object spread copies (`OwnEntries`, where strings and arrays
  contribute index keys). `Result` carries either a value or a `Fault`.
- `strings.dfy` (`Strings`) covers the string built-ins the stage uses:
  - the ECMAScript white-space set shared by `\s` and `trim`;
  - `toLowerCase`, for ASCII letters;
  - `trim`, `trimStart` and `trimEnd`;
  - `includes`.
- `normalizer.dfy` (`Normalizer`) covers the suffix pattern
  `(\s|,|\.)+(Inc|LLC|Ltd|Limited|Corp|Corporation|GmbH|Co|Pty)\.?$` with the
  `i` flag. The pattern is given twice:
  - declaratively, as `MatchesAt`: a separator run, one suffix word in any
    letter case, an optional period, then the end;
  - as a tokenizer, `SuffixAt`.

  `SuffixAtMatches` proves the two equal. `LeftmostMatchFrom` is the
  engine's leftmost search, `StripLegalSuffix` is the `replace`, and
  `NormalizeName` is `replace` followed by `trim`.
- `classifier.dfy` (`Classifier`) covers the keyword scan. `Classify` is the
  first-match specification. `ScanKeywords` is the `for` loop with its early
  `break`, proved equal to `Classify`.
- `governance.dfy` (`Governance`) covers the whole stage:
  - the extraction steps (`WorkingRecord`, `RawName`, `SearchText`,
    `CleanName`);
  - the two output records (`SuccessRecord` with `MetaBlock`, and
    `FailSafeRecord`);
  - `Run`, the `try` block as a value or the fault it throws;
  - `Process`, which returns the fail-safe record when `Run` fails;
  - `Execute`, the stage as a method that runs each step in turn and calls
    the scan loop, proved equal to `Process`.

Three inputs of the script become parameters:

- the host's input object is the `root` parameter of `Run`, `Process` and
  `Execute`;
- the wall clock is their `timestamp` string;
- the engine's wording of an exception is a function `describe` from the
  `Fault` to its message, a parameter of `Process` and `Execute` only,
  since `Run` returns the fault itself.

## Model

| member | source | states |
|---|---|---|
| Values.FirstTruthy | governance_logic.js:12-16 | The result of an `a || b || ... || fallback` chain is the first truthy candidate, with every earlier candidate falsy. When all candidates are falsy, it is the fallback. A truthy fallback makes the result truthy. |
| Values.OrChainOfTwo | governance_logic.js:15-16 | `a || b || c`, left-nested as JavaScript parses it, picks the first truthy of `a` and `b`, else `c`. |
| Values.Get | governance_logic.js:12 | A property read throws exactly when the value is `null` or `undefined`. Otherwise it yields the own property, or `undefined`. |
| Values.IndexKey | governance_logic.js:44 | The key of an index is its canonical decimal numeral: digits only, no leading zero unless it is "0", and it denotes the index. |
| Values.LeadingDigitPositive | governance_logic.js:44 | A numeral whose first digit is not zero denotes a positive number. |
| Values.IndexKeyOfValue | governance_logic.js:44 | Every canonical numeral is the key of the index it denotes, so keys and indices correspond one to one. |
| Values.IndexKeyInjective | governance_logic.js:44 | Distinct indices have distinct keys. |
| Values.IndexKeysDistinct | governance_logic.js:44 | The keys of all indices below a bound are pairwise distinct. |
| Values.IndexKeys | governance_logic.js:44 | The index keys of a sequence of length n are exactly the canonical numerals of the numbers below n. |
| Values.ArrayEntries | governance_logic.js:44 | Spreading an array gives exactly its index keys, each holding the element at that index. |
| Values.StringEntries | governance_logic.js:44 | Spreading a string gives exactly its index keys, each holding the one-character string at that index. |
| Values.OwnEntries | governance_logic.js:44 | Spread copies an object's properties. For an array or a string, the keys are exactly the index keys, holding the elements or the one-character strings. It copies nothing from other primitives. |
| Strings.LowerChar | governance_logic.js:16 | Lower-casing an upper-case ASCII letter adds 32 to it. Every other character is unchanged. The result is never upper-case. |
| Strings.ToLowerCase | governance_logic.js:16 | The result has the same length, and each character is the lower-cased input character. |
| Strings.ToLowerCaseIdempotent | governance_logic.js:16 | Lower-casing twice is lower-casing once. |
| Strings.SameIgnoringCaseLowersAlike | governance_logic.js:16 | Two strings agree up to letter case exactly when their lower-case forms are equal. |
| Strings.TrimStart | governance_logic.js:22 | The result is a suffix of the input and does not begin with white space. Everything cut is white space. An input that does not begin with white space is kept. |
| Strings.TrimEnd | governance_logic.js:22 | The result is a prefix of the input and does not end with white space. Everything cut is white space. An input that does not end with white space is kept. |
| Strings.Trim | governance_logic.js:22 | Neither end of the result is white space. A string whose ends are not white space is returned unchanged. |
| Strings.TrimCutsOnlyWhiteSpace | governance_logic.js:22 | The trimmed string is a slice of the input between a white-space prefix and a white-space suffix. |
| Strings.IncludesFrom | governance_logic.js:35 | The search from an index is true exactly when the word occurs at some position from there on. |
| Strings.Includes | governance_logic.js:35 | `includes` is true exactly when the word occurs somewhere in the text. |
| Normalizer.LowerSuffixesAreLowered | governance_logic.js:21 | The lower-case suffix list is the pattern's word list, lower-cased word by word. |
| Normalizer.SuffixWordIsListedIgnoringCase | governance_logic.js:21 | A suffix word is exactly a listed word up to the case of its letters. This is what the `i` flag accepts for ASCII words. |
| Normalizer.SuffixWordLengths | governance_logic.js:21 | A suffix word is 2, 3, 4, 7 or 11 characters long. |
| Normalizer.LowerSuffixIsLetters | governance_logic.js:21 | Every lower-case suffix word is non-empty and spelled with ASCII letters. |
| Normalizer.SuffixWordIsLetters | governance_logic.js:21 | Any case variant of a suffix word is non-empty and spelled with ASCII letters. |
| Normalizer.SuffixTailShape | governance_logic.js:21 | The tail `word\.?` starts with a letter. It ends with a letter, or with a letter and one period. |
| Normalizer.SuffixTailLetters | governance_logic.js:21 | Every character of the tail except the last is a letter. |
| Normalizer.SeparatorRunEnd | governance_logic.js:21 | The separator run from an index is all separators and stops at the end or at a non-separator. |
| Normalizer.SeparatorRunEndIsFirstStop | governance_logic.js:21 | A run of separators that stops at a non-separator or at the end is exactly the run `SeparatorRunEnd` finds. |
| Normalizer.MatchShape | governance_logic.js:21 | A match starts on a separator. The string then ends with a letter, or with a letter and one period. |
| Normalizer.BareSuffixTailLengths | governance_logic.js:21 | A tail without a trailing period is one suffix word of a listed length. |
| Normalizer.SeparatorBeforeLastWord | governance_logic.js:21 | When a matched string does not end with a period, a separator stands one suffix-word length before its end. |
| Normalizer.SuffixAtIsMatch | governance_logic.js:21 | Where the tokenizer accepts, the pattern matches. |
| Normalizer.MatchIsSuffixAt | governance_logic.js:21 | Where the pattern matches, the tokenizer accepts. |
| Normalizer.SuffixAtMatches | governance_logic.js:21 | The tokenizer accepts exactly where the pattern matches. |
| Normalizer.SeparatorRunExtends | governance_logic.js:21 | A separator followed by a separator run is a separator run. |
| Normalizer.MatchExtendsLeft | governance_logic.js:21 | A match preceded by a separator also matches one place further left. |
| Normalizer.NoMatchAtEnd | governance_logic.js:21 | The pattern never matches the empty rest of a string. |
| Normalizer.LeftmostMatchFrom | governance_logic.js:21 | The search returns the first index from the start point at which the pattern matches. It returns the length when there is none. |
| Normalizer.StripLegalSuffix | governance_logic.js:20-21 | The replace result is a prefix of the name. If shorter, the pattern matches where it ends, and nowhere earlier. It is the whole name exactly when the pattern matches nowhere. |
| Normalizer.NormalizeName | governance_logic.js:20-22 | The clean name is trimmed. A name the pattern does not match is only trimmed. |
| Normalizer.CleanNameIsFixed | governance_logic.js:20-22 | A trimmed name without a suffix match normalizes to itself. |
| Normalizer.NoSeparatorNoMatch | governance_logic.js:20-22 | A name without separators, such as "AcmeInc", never matches, so it is only trimmed. |
| Normalizer.TrailingWhiteSpaceKeepsSuffix | governance_logic.js:20-22 | A name ending in white space keeps its suffix, because the replace runs before the trim. "Acme Inc " becomes "Acme Inc". |
| Normalizer.WholeSeparatorRunRemoved | governance_logic.js:21 | When something is cut, the match is leftmost, so what is left never ends with a separator. |
| Normalizer.MatchRunReaches | governance_logic.js:21 | A match covers with its separator run every position up to any separator before the last character. |
| Normalizer.MatchAfterBase | governance_logic.js:21 | base + separators + suffix word + optional period matches where the separators begin. |
| Normalizer.NoMatchInBase | governance_logic.js:21 | If the base does not end in a separator, nothing inside it matches. |
| Normalizer.StripsExactlyTrailingSuffix | governance_logic.js:20-22 | For any base not ending in a separator, base + separator run + suffix word in any case + optional period loses exactly the run, the word and the period. It normalizes to the trimmed base. |
| Normalizer.CutsSuffixWithPeriod | governance_logic.js:20-22 | "Acme Corp." normalizes to "Acme", for any such base. |
| Normalizer.CutsWholeSeparatorRun | governance_logic.js:20-22 | "Acme, Inc." normalizes to "Acme": the comma goes with the suffix. |
| Normalizer.CutsLongSuffix | governance_logic.js:20-22 | "Acme Corporation" normalizes to "Acme". |
| Normalizer.CutsUpperCaseSuffix | governance_logic.js:20-22 | "Acme LTD" normalizes to "Acme": letter case does not matter. |
| Normalizer.CutsOnlyLastSuffix | governance_logic.js:20-22 | "Acme Corp Inc" normalizes to "Acme Corp": only one suffix is removed. |
| Normalizer.TwoPeriodsKeepSuffix | governance_logic.js:20-22 | A name ending in two periods never matches, so it is only trimmed. |
| Classifier.FirstRestricted | governance_logic.js:26-35 | Returns the index of the first listed term from the start point that occurs in the text. Every earlier term is absent. It returns the list length when no term occurs. |
| Classifier.Classify | governance_logic.js:26-40 | The status is CLEAN or QUARANTINE. It is QUARANTINE exactly when some restricted term occurs in the text, and the reason then names the earliest such term in list order. CLEAN carries the fixed reason. |
| Classifier.ScanKeywords | governance_logic.js:31-40 | The loop with its early `break` returns exactly the status and reason of `Classify`. |
| Classifier.RiskReasonInjective | governance_logic.js:37 | Different terms give different reasons, so a reason names exactly one term. |
| Classifier.EarlierListedTermWins | governance_logic.js:34-38 | When two listed terms occur, the later-listed one is never reported, wherever the two stand in the text. With "layoff" and "bankrupt", "bankrupt" is named. |
| Classifier.BankruptIsAlwaysReported | governance_logic.js:26-38 | Whenever "bankrupt" occurs, it is the term reported. |
| Classifier.TermInsideWordCounts | governance_logic.js:35 | A term inside a longer word counts: "sanctioned" quarantines. |
| Classifier.EmptyTextIsClean | governance_logic.js:31-35 | The empty text is CLEAN with the fixed reason. |
| Governance.WorkingRecord | governance_logic.js:12 | Throws exactly when the root is null or undefined. Otherwise yields `body` when it is truthy, else the root. The result is never null or undefined. |
| Governance.RawName | governance_logic.js:15 | Yields the first truthy of `company_name` and `company`, else "Unknown Entity". The result is always truthy. It throws only on a null or undefined record. |
| Governance.SearchText | governance_logic.js:16 | Throws exactly when the record is null or undefined, or the first truthy of `news_summary`/`description` (else "") is not a string. Otherwise yields its lower-case form. |
| Governance.CleanName | governance_logic.js:20-22 | Throws exactly when the raw name is not a string. Otherwise yields its normalized form. |
| Governance.Execute | governance_logic.js:9-62 | The stage run step by step, with the keyword loop and the catch, returns exactly the record `Process` specifies. |
| Governance.SuccessRecordShape | governance_logic.js:43-52 | A success record has a `_meta` block with exactly the five keys, status CLEAN or QUARANTINE, `logic_version` "v1.2.0" and the given timestamp. It never has the fail-safe shape. |
| Governance.FailSafeRecordShape | governance_logic.js:57-62 | The fail-safe record has exactly the keys `error`, `message`, `governance_status` and `governance_reason`. `error` is true, the status is QUARANTINE and the reason is the fixed system-error text. It never has the success shape. |
| Governance.OutcomeHasOneOfTwoShapes | governance_logic.js:9-62 | Every input yields a record. It has the success shape exactly when the `try` block completes, and the fail-safe shape exactly when it throws. |
| Governance.FaultsExactlyWhen | governance_logic.js:11-22 | The stage throws exactly when the root is null or undefined, or when the value chosen for the text or for the name is not a string. |
| Governance.SuccessRecordKeepsFields | governance_logic.js:43-52 | A success record's keys are the working record's own keys plus `_meta`. Every other key keeps its value. |
| Governance.SuccessKeepsRecordFields | governance_logic.js:12-52 | On success the output carries the working record's own entries, not the envelope's. `_meta` is the only key added or overwritten. |
| Governance.MetaDescribesRecord | governance_logic.js:15-52 | On success, `_meta` holds the normalized first truthy name and the classification of the lower-cased first truthy text. |
| Governance.MetaStatusIffTerm | governance_logic.js:31-47 | The `_meta` status is QUARANTINE exactly when a restricted term occurs in the classified text. |
| Governance.QuarantineIffTermInText | governance_logic.js:16-47 | On success, the record is quarantined exactly when some restricted term occurs in the lower-cased search text. |
| Governance.MetaDependsOnNameAndText | governance_logic.js:15-52 | Two inputs with the same name source and the same search text succeed or fail together, with the same `_meta` block. |
| Governance.SummaryCaseGivesSameText | governance_logic.js:16 | Two non-empty `news_summary` values that differ only in letter case give the same search text. |
| Governance.SummaryCaseIsIrrelevant | governance_logic.js:16-47 | Changing the letter case of `news_summary` changes neither success nor the `_meta` block. |
| Governance.EnvelopeIsTransparent | governance_logic.js:12 | An envelope with a truthy `body`, where the body has no truthy `body` of its own, is processed exactly like the body alone. |
| Governance.UnknownEntityIsClean | governance_logic.js:15-22 | The placeholder name "Unknown Entity" normalizes to itself. |
| Governance.EmptyRecordIsUnknownAndClean | governance_logic.js:12-52 | An empty record yields only a `_meta` block, with name "Unknown Entity", status CLEAN and the fixed reason. |
| Governance.NumericSummaryFailsSafe | governance_logic.js:16-62 | A truthy number as `news_summary` makes `toLowerCase` throw, so the output is the fail-safe record. |

Some functions carry no contract of their own and are stated through the
lemmas above:

- `Values.Truthy` (ToBoolean) and `Values.Or` (`||`);
- `Values.FieldOf` (a non-throwing property read);
- `Values.IsIndexKey` (a canonical decimal numeral) and `Values.DecimalValue`
  (the number a numeral denotes);
- `Strings.IsWhiteSpace`, the white-space set that both `\s` and `trim` use;
- `Normalizer.MatchesAt`, the declarative reading of the suffix pattern at an
  index, and `Normalizer.SuffixAt`, the tokenizer's reading of it (the two are
  proved equal by `Normalizer.SuffixAtMatches`);
- `Governance.NameSource` and `Governance.TextSource` (the two `||` chains);
- `Governance.MetaBlock`, `Governance.SuccessRecord`,
  `Governance.FailSafeRecord`, `Governance.Run` and `Governance.Process`;
- `Governance.MetaOf` and `Governance.StatusOf`, which read the `_meta` block
  and its status from an output record.

### Behaviour worth knowing

The comments in `governance_logic.js` promise more than the code does:

- Line 19 says the regular expression removes legal-entity suffixes. It
  removes at most one, and only at the very end of the raw name:
  - "Acme Corp Inc" becomes "Acme Corp" (`CutsOnlyLastSuffix`);
  - "Acme Inc " and "Acme Inc.." keep "Inc" (`TrailingWhiteSpaceKeepsSuffix`,
    `TwoPeriodsKeepSuffix`), because the pattern is anchored before `trim`
    runs.

  So a clean name can still end in a legal suffix, and normalizing it again
  can change it. A name with no suffix match is a fixed point
  (`CleanNameIsFixed`).
- Line 14 calls the extraction fail-safe. The `||` fallbacks do stop reads of
  missing fields, but extraction still throws in three cases:
  - reading `body` of a null or undefined root;
  - `toLowerCase` on a truthy non-string `news_summary` or `description`;
  - `replace` on a truthy non-string name.

  Each of these ends in the fail-safe record of lines 54-62
  (`FaultsExactlyWhen`, `NumericSummaryFailsSafe`).
- The search text is the first truthy of `news_summary` and `description`,
  not a combination of the two: a record with both is classified on its
  summary alone.

## Left out

- The host global `$input.item.json` is not modelled; the root record is a parameter.
- `new Date().toISOString()` is not modelled; the timestamp is an opaque string parameter.
- `error.message` wording is engine-specific; it is the result of a caller-supplied function of the `Fault`.
- Strings.ToLowerCase: maps only the ASCII letters A-Z. JavaScript's full Unicode case mapping is not modelled, so non-ASCII letters can differ. For example, KELVIN SIGN lower-cases to `k` in JavaScript, which could complete a restricted term.
- Strings are sequences of Unicode characters rather than UTF-16 code units. The index keys produced by spreading a string with characters outside the Basic Multilingual Plane therefore differ.
- Numbers are reals: NaN (falsy in JavaScript), BigInt, symbols and functions as field values are not modelled.
- Getters, proxies, inherited properties and other exotic objects are not modelled. A property read sees only own data properties.
- Object key order is not modelled: records are maps, so the position of `_meta` among the output keys is not represented.
