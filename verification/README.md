# Grammar-correction bot: the mistake matcher

This project models the core of a Reddit bot that corrects common usage mistakes such as "should of", "loose my" and "could care less".

- A **rule** (`Mistake`) has a pattern with a required context before and after it. The **match string** is `before + mistake + after`, with one space on each side by default.
- A rule also has **exceptions**, a **correction** and an optional **explanation**.
- A rule **checks** a text: it yields its correction when the match string occurs and no exception occurs anywhere in the text.
- Its **context** is the slice around the first occurrence of the match string, bounded by spaces.
- Its **explanation** is `"Explanation: "` followed by the rule's text, or `""` when there is none.
- Two factories build the families of rules:
  - `OfMistake(m)` turns " m of " into "m have", with "of course" as the default exception.
  - `LooseMistake(a)` turns " loose" + a into "lose".
- The bot holds an ordered **catalog** of 43 rules.
- For each comment the bot removes every line that starts with `>`, rejoins the rest with newlines and lower-cases the result. It then scans the catalog in order, and the first rule whose check yields a truthy correction supplies the correction, the explanation and the context.

Files:

- `wrappers.dfy`: `Option`.
- `strings.dfy` (module `Strings`): the Python string operations the code uses, each tied to a declarative definition. These are `str.find`, `str.rfind` with an end bound, `in`, `split`/`join` on one separator character, and ASCII `str.lower`. The module also holds generic lemmas that show a pattern is absent or present without searching.
- `mistakes.dfy` (module `Mistakes`): the rule datatype, `is_exception`, `check`, `find_context`, `explain`, the two factories and the catalog. The catalog is written as five consecutive sections whose concatenation is the source list, element for element.
- `selection.dfy` (module `Selection`): quote stripping, lower-casing, first-match selection as a function (`Select`), and the loop of `main.py` as a method (`SelectCorrection`).
- `scenarios.dfy` (module `Scenarios`): the expectations of `tests/test_mistakes.py`, proved about the model.
  - The tests import a later revision of the code. There, `find_mistake` corresponds to `Select` over `Catalog`, `get_correction` to the rule's correction, and `get_explanation` to `Explain`.
  - Each scenario is built from one-fact lemmas about a literal text, such as "this match string is absent" or "the context ends here", so no proof has to search a literal.

Python's `None` and `[]` for `exceptions` behave identically in the source (`not self.exceptions` and `not exceptions`), so both are modelled as the empty sequence. An explanation is `Option<string>`, and `Explain` treats `Some("")` like `None`, as Python truthiness does. The `if correction:` test of `main.py` is modelled exactly: `Fires` requires a non-empty correction. `CatalogFiresIffChecks` proves that every catalog correction is non-empty, so for the catalog this is the same as `check` returning a correction.

## Model

| member | source | states |
|---|---|---|
| Mistakes.AnyOccurs | mistake_db.py:18-19 | the result is true exactly when some needle is a substring of the text |
| Mistakes.IsException | mistake_db.py:15-19 | true exactly when some exception occurs in the text; always false when there are no exceptions |
| Mistakes.Check | mistake_db.py:22-32 | yields a value exactly when the match string (`MatchString`: before, pattern, after, in that order) occurs and no exception occurs, and that value is the rule's correction |
| Mistakes.ExceptionDominates | mistake_db.py:24 | one exception anywhere in the text suppresses the rule, whether or not the match string occurs |
| Mistakes.NoExceptionsNeverSuppressed | mistake_db.py:16-17 | with no exceptions, `is_exception` is false for every text, and `check` fires exactly when the match string occurs |
| Mistakes.EmptyTextNeverMatches | mistake_db.py:23-24 | a rule with a non-empty match string never fires on "" |
| Mistakes.NoSpaceNeverMatches | mistake_db.py:23-24 | a rule whose match string holds a space never fires on text without one |
| Mistakes.ContextStartIndex | mistake_db.py:40-44 | the start is the last space before the match, or 0 if there is none, stated as `ContextStart` (a space there and none in between) |
| Mistakes.ContextEndIndex | mistake_db.py:42-46 | the end is the first space at or after the end of the match, or the text length, stated as `ContextEnd` |
| Mistakes.FindContext | mistake_db.py:35-48 | the result is `text[s..e]` for bounds that satisfy the start/end characterisation around the first occurrence, and it contains the match string |
| Mistakes.ContextSpanUnique | mistake_db.py:35-48 | the characterisation has exactly one solution, so the context is determined by the text and the rule |
| Mistakes.FindContextIs | mistake_db.py:35-48 | any bounds meeting the characterisation for the first occurrence are the ones `find_context` slices with |
| Mistakes.ContextLeadingSpace | mistake_db.py:40-48 | a context that does not start at the text start begins with the space before the match |
| Mistakes.Explain | mistake_db.py:51-54 | "" exactly when there is no explanation or it is empty; otherwise the prefix "Explanation: " followed by the explanation |
| Mistakes.OfMistake | mistake_db.py:58-63 | the rule's match string is " m of ", its correction "m have" and its explanation the shared modal text; no or empty exceptions become ["of course"], given ones are kept |
| Mistakes.LooseMistake | mistake_db.py:66-69 | the rule's match string is " loose" + a, its correction "lose" and its explanation the shared text; the exceptions are kept as given |
| Mistakes.OfMistakeCheck | mistake_db.py:58-63 | an `OfMistake(m)` rule matches " m of ", fires exactly when that occurs and "of course" does not, corrects to "m have" and carries the fixed explanation |
| Mistakes.OfMistakeOwnExceptions | mistake_db.py:62-63 | exceptions that are given are kept as they are and replace "of course" |
| Mistakes.LooseMistakeCheck | mistake_db.py:66-69 | a `LooseMistake(a)` rule matches " loose" + a, fires unless one of its exceptions occurs, corrects to "lose" and carries the fixed explanation |
| Mistakes.CatalogLayout | mistake_db.py:73-151 | `Catalog` has 43 rules; the five sections sit at indices 0, 8, 15, 22 and 32 |
| Mistakes.ModalRulesPatterns | mistake_db.py:74-81 | before, pattern and after of each `OfMistake` rule |
| Mistakes.QuantityRulesPatterns | mistake_db.py:82-92 | before, pattern and after of "to many" through "payed" |
| Mistakes.LooseRulesPatterns | mistake_db.py:93-99 | before, pattern and after of each `LooseMistake` rule |
| Mistakes.IdiomRulesPatterns | mistake_db.py:100-123 | before, pattern and after of "could care less" through "unphased" |
| Mistakes.WordRulesPatterns | mistake_db.py:124-150 | before, pattern and after of "epitamy" through "chocking" |
| Mistakes.CatalogWellFormed | mistake_db.py:73-151 | every rule of `Catalog` has a non-empty correction and a match string that starts with a space |
| Strings.Contains | mistake_db.py:24 | `pat in text` is true exactly when `pat` occurs at some index |
| Strings.Find | mistake_db.py:38 | `text.find(pat)` is the lowest index at which `pat` occurs, or none when it does not occur |
| Strings.RFindBefore | mistake_db.py:40 | `text.rfind(pat, 0, end)` is the highest index whose occurrence ends by `end`, or none |
| Strings.FindFrom | mistake_db.py:42 | `text.find(pat, from)` is the lowest index at or after `from` at which `pat` occurs, or none |
| Strings.Split | main.py:88 | no piece of `split` contains the separator, and there is at least one piece |
| Strings.JoinSplit | main.py:87-88 | `Join` undoes `Split`: joining the pieces of a split gives back the text |
| Strings.SplitJoin | main.py:87-88 | `Split` undoes `Join`: splitting a join of separator-free lines gives back the lines |
| Strings.Lower | main.py:89 | lower-casing keeps the length, replaces each upper-case letter by the lower-case letter at the same position in the alphabet, and keeps every other character |
| Strings.LowerCharTable | main.py:89 | against the alphabets written out, "ABC…Z" and "abc…z", an upper-case letter becomes the lower-case letter listed at its place |
| Strings.LowerSplit | main.py:87-89 | lower-casing moves no line break: the lines of the lower-cased text are the lower-cased lines |
| Strings.LowerProperties | main.py:89 | the result has no upper-case letter, other characters are unchanged, and lower-casing is idempotent |
| Selection.Unquoted | main.py:88 | the kept lines are exactly the lines of the input that do not start with ">" |
| Selection.UnquotedAppend | main.py:88 | filtering distributes over concatenation, so kept lines stay in their original order |
| Selection.UnquotedKeepsAll | main.py:88 | a list without quoted lines is left unchanged |
| Selection.StripQuotes | main.py:87-88 | the lines of the stripped body are exactly the unquoted lines of the body, in order, none of them quoted; "" when every line is quoted |
| Selection.StripQuotesNoQuotes | main.py:87-88 | a body without quoted lines passes through unchanged |
| Selection.Prepare | main.py:87-89 | the prepared text has no upper-case letter, is "" when every line is quoted, and otherwise its lines are the body's unquoted lines, each lower-cased, in order |
| Selection.PrepareSingleLine | main.py:87-89 | a one-line unquoted body is only lower-cased |
| Selection.PrepareSentence | main.py:87-89 | a one-line unquoted body with one leading capital changes only that letter |
| Selection.Fires | main.py:92-94 | the bot acts on a rule exactly when its match string occurs, none of its exceptions occurs, and its correction is non-empty |
| Selection.FirstMatchFrom | main.py:85-94 | the result is the first rule at or after `from` that fires, or none when none fires |
| Selection.FirstMatch | main.py:85-113 | the result is some index exactly when some rule fires, and that index is the first firing rule |
| Selection.FirstFiringUnique | main.py:113 | there is only one first firing rule |
| Selection.FirstMatchIs | main.py:85-113 | a firing rule with no firing rule before it is the selected one |
| Selection.FirstMatchAppend | main.py:85-113 | priority composes over concatenated rule lists: rules of the first list shadow every rule of the second |
| Selection.Select | main.py:85-99 | none exactly when no rule fires on the prepared text; otherwise correction, explanation and context of the first firing rule, all on the same prepared text |
| Selection.SelectIs | main.py:92-99 | once the first match is known, the selection is that rule's correction, explanation and context |
| Selection.SelectCorrection | main.py:85-113 | the loop as written, re-preparing the body for every rule, returns exactly `Select` |
| Selection.CatalogFiresIffChecks | main.py:94 | for catalog rules, `if correction:` holds exactly when `check` returns a correction |
| Selection.CatalogIgnoresSpacelessText | main.py:85-94 | text without a space, the empty text included, gets no correction from the catalog |
| Scenarios.ShouldntAccessors | tests/test_mistakes.py:61 | `OfMistake("shouldn't")` corrects to "shouldn't have" and explains with the fixed modal text (line 65) |
| Scenarios.MoreThenAccessors | tests/test_mistakes.py:62 | the "more then" rule corrects to "more than" and explains with its comma hint (line 66) |
| Scenarios.MoreThenInCatalog | mistake_db.py:86-87 | the "more then" rule of the tests is catalog rule 12 |
| Scenarios.ShouldntOfCourse | tests/test_mistakes.py:37 | "of course" makes `is_exception` true, `check` yields nothing (line 41), and the context is "I shouldn't of course" (line 52) |
| Scenarios.ShouldntOfDone | tests/test_mistakes.py:38 | no exception occurs, `check` yields the correction (line 42), and the context is "I shouldn't of done" (line 51) |
| Scenarios.AnyMoreThen | tests/test_mistakes.py:35 | "any more" makes `is_exception` true, `check` yields nothing (line 45), and the context is " any more then I" (line 53) |
| Scenarios.LotMoreThen | tests/test_mistakes.py:36 | no exception occurs, `check` yields the correction (line 46), and the context is " lot more then that" (line 54) |
| Scenarios.ShouldOfDoneThat | tests/test_mistakes.py:10 | "I should of done that" is corrected to "should have" by catalog rule 3, with the modal explanation (lines 16-17) and context "i should of done" |
| Scenarios.LooseMyMind | tests/test_mistakes.py:11 | "I loose my mind" is corrected to "lose" by catalog rule 15, with the "loose" explanation (lines 18-19) |
| Scenarios.CouldCareLess | tests/test_mistakes.py:15 | "I could care less " is corrected to "couldn't care less" by catalog rule 22, with its explanation (lines 22-23) |
| Scenarios.ShouldOfCourse | tests/test_mistakes.py:12 | "I should of course do that" gets no correction: "of course" suppresses the modal rules and no other rule fires (line 20) |
| Scenarios.ShouldOften | tests/test_mistakes.py:14 | "I should often" gets no correction |
| Scenarios.Gibberish | tests/test_mistakes.py:13 | "adskjflkjaslkdjflkjlsjdf" gets no correction (line 21) |
| Scenarios.EmptyComment | tests/test_mistakes.py:24 | "" gets no correction, and neither rule of the rule tests fires on "" (lines 43 and 47) |
| Scenarios.NoSpaceRuleChecks | tests/test_mistakes.py:44 | neither rule of the rule tests fires on "aslkdjfljsajdljf" (line 48) |

## Left out

- The update of `stats.json` inside `check` (mistake_db.py:26-30) is file I/O. `Check` is pure.
- The Reddit side of `main.py` is left out, because all of it is network or process I/O:
  - inbox, subreddit and submission iteration;
  - `comment.save` and `send_correction`;
  - the `backoff` retry;
  - the `stopped_users.txt` reads and writes and `update_runs`;
  - the `comment.saved` skip (main.py:84).
- The `Forbidden` handler at main.py:109-110 is left out. It only moves on to the next rule when delivering a reply fails, which is network behaviour.
- `is_bot` (main.py:26-30) is left out. It depends on attribute errors raised by a foreign author object.
- `reply.py`, `data_manager.py`, `subreddits.py` and `praw_setup.py` are not part of this model. They are reply formatting, file-backed bookkeeping, randomness and client setup.
- Strings.Lower: only ASCII letters are lower-cased; Python's Unicode case mapping is not modelled.
- Mistakes.FindContext: requires the match string to occur. Python's `rfind` with an end of -1, reached when it does not occur, is not modelled; the bot only calls `find_context` after `check` succeeded.
- Scenarios.ShouldntAccessors: states the explanation as "Explanation: " followed by the constant `OfExplanation`, rather than as one joined literal. That constant is the sentence the test spells out.
- The tests' class names (`MistakeChecker`, `get_correction`, `get_explanation`) belong to a later revision of the code. They are mapped onto `Select`, the rule's `correction` and `Explain`, and that revision is not part of this model.
