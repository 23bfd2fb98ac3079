# hansard-speakers: the speaker-label matcher, modelled in Dafny

hansard-speakers attributes each speech of the historical Hansard record to a
member of Parliament. A speech comes with a noisy speaker label and a sitting
date. This project models the part of the program that turns a label and a date
into a match, an ambiguity or a miss. It also models the start-up code that builds
the reference tables the matcher consults.

- `text.dfy` (module `Text`) defines the Python string operations the matcher
  relies on: `in`, `strip()`, `replace()`, `split()`/`join()` and `lower()`.
- `normalizer.dfy` (module `Normalizer`) models `preprocess` and `postprocess`
  of `hansard/worker.py`:
  - the one-pass removal of parenthesised segments;
  - the misspelling dictionary, applied entry by entry;
  - the ordered anchored prefix rewrites (`^this +` -> `the `, ..., `^the +` -> '',
    `^me +` -> `mr `, `^sib +` -> `sir `, ...);
  - the final strip.
- `tables.dfy` (module `Tables`) defines the reference records with integer dates.
  It also defines `match_term` and the other interval filters.
- `cascade.dfy` (module `Cascade`) specifies the per-row classification as a
  pipeline of pure stages:
  1. the cache probe;
  2. the office-position tables;
  3. the honorary titles;
  4. the lord titles;
  5. the single-row / multi-row decision;
  6. the office holdings;
  7. the alias dictionary;
  8. the narrowing by parliamentary term.
- `worker.dfy` (module `WorkerLoop`) models `worker_function` as a class. Its
  `MATCH_CACHE`, hit counter and missed / ambiguous index lists are updated row by
  row. Each method is proved equal to the pure specification.
- `loader.dfy` (module `Loader`) models the following parts of `run.py`:
  - the core-count check;
  - `parse_mps`, which fills `SPEAKERS`, `SPEAKER_DICT` and `FULL_ALIAS_DICT`;
  - `parse_offices`, which fills `OFFICE_DICT` and `HOLDINGS`;
  - the `Registry` class, which holds those tables and updates them in place.
- `tally.dfy` (module `Tally`) models the result tally of `run.py`'s main loop.
- `wrappers.dfy` defines `Option` and `Result`.

Dates are integers, with every comparison kept as the source makes it. Python
truthiness is modelled where the source depends on it:
- `if not match` treats an empty id or name as no match;
- `match is not None` counts any match as a hit.

Several collaborators are defined in files outside this model. They are function-valued
parameters:
- `cleanse_string`;
- `OfficeHolding.matches` and `SpeakerReplacement.matches`;
- the `SpeakerReplacement` constructor, with its generated aliases and its two
  exceptions, returning `None` when it raises;
- the captures of `MP_ALIAS_PATTERN`.

`datetime.now()` is also a parameter.

Some behaviours of the code are worth stating plainly:
- A label found in the alias dictionary with no date-valid speaker is ambiguous, not a
  miss (`Cascade.CandidatesNotOne`).
- Title rows are not deduplicated by member id: two rows of one member are ambiguous
  (`Cascade.SameIdRowsAmbiguous`).
- Alias lists are not deduplicated either. A speaker whose generated alias also appears
  in parentheses in their full name is listed twice under it (`Loader.AliasEntries`).
  A lookup of that alias is then ambiguous between the speaker and itself
  (`Cascade.DuplicateAliasAmbiguous`).
- Several title rows leave `ambiguity` set, so a match the alias dictionary then finds
  can still be replaced by the term narrowing (`Cascade.TermNameReplacesAliasMatch`).
- The only cache is the match cache, and the matcher has no fuzzy stages.

The term narrowing collects `speaker.id` from the alias candidates and compares it
with the `member.id` column of the terms table. The model takes that id to be the
member id the loader stores.

## Model

| member | source | states |
|---|---|---|
| Text.ContainsAt | hansard/worker.py:116 | an occurrence of `sub` at any index of `s` makes `sub in s` true |
| Text.ContainsWitness | hansard/worker.py:116 | conversely, `sub in s` holds only when `sub` occurs at some index of `s` |
| Text.StripLeftRemovesSpace | hansard/worker.py:83 | `lstrip` keeps a suffix and everything it drops is whitespace |
| Text.StripRightRemovesSpace | hansard/worker.py:83 | `rstrip` keeps a prefix and everything it drops is whitespace |
| Text.Strip | hansard/worker.py:83 | `strip()` leaves no whitespace at either end and never lengthens the string |
| Text.StripFixedPoints | hansard/worker.py:83 | `strip()` leaves a string unchanged exactly when it has no whitespace at either end |
| Text.StripIdempotent | hansard/worker.py:83 | stripping twice equals stripping once |
| Text.JoinSplit | hansard/worker.py:91 | joining the pieces of a split with the same separator gives back the string |
| Text.ReplaceAll | hansard/worker.py:91 | `replace()` keeps the length when the replacement is as long as a non-empty pattern, and never lengthens when it is shorter |
| Text.ReplaceIsJoinOfSplit | hansard/worker.py:91 | `s.replace(p, r)` equals `r.join(s.split(p))` for a non-empty `p` (the reference definition of `replace`) |
| Text.ReplaceBySelf | hansard/worker.py:91 | replacing a string by itself changes nothing, even for the empty pattern |
| Text.ReplaceAbsent | hansard/worker.py:91 | a pattern that does not occur leaves the string unchanged |
| Text.Lower | hansard/worker.py:170 | `lower()` keeps the length |
| Text.LowerIdempotent | hansard/worker.py:170 | `lower()` leaves no ASCII capital, so applying it twice equals applying it once |
| Normalizer.FoldAppend | hansard/worker.py:81-82 | running the rule loop over two lists one after the other equals running it over their concatenation |
| Normalizer.PlainRun | hansard/worker.py:13 | the `[^()]+` run: the longest parenthesis-free prefix, stopping at a parenthesis |
| Normalizer.StripParens | hansard/worker.py:13 | the pre-correction never lengthens the label |
| Normalizer.GroupAtStart | hansard/worker.py:13 | a non-empty paren-free group at index 0 is matched there, with its full length |
| Normalizer.StripParensUnchanged | hansard/worker.py:13 | the pre-correction leaves a label unchanged exactly when it has no non-empty group without inner parentheses |
| Normalizer.PlainRunAppend | hansard/worker.py:13 | a parenthesis ends the `[^()]+` run, so what follows does not change it |
| Normalizer.PlainRunOfPlain | hansard/worker.py:13 | a paren-free string is one run |
| Normalizer.GroupAtAppend | hansard/worker.py:13 | a group starting inside a string cannot reach past a following `(` |
| Normalizer.StripParensAppend | hansard/worker.py:13 | the pass over `a + t`, where `t` starts with `(`, is the pass over `a` followed by the pass over `t` |
| Normalizer.GroupAtOfGroup | hansard/worker.py:13 | a leading non-empty paren-free group is matched with its full length |
| Normalizer.StripParensOfGroup | hansard/worker.py:13 | the pass deletes a leading group and carries on after it |
| Normalizer.StripParensDropsGroup | hansard/worker.py:13 | every non-empty group without inner parentheses is deleted wherever it stands: the pass over `a (w) b` is the pass over `a` followed by the pass over `b` |
| Normalizer.EmptyPairSurvives | hansard/worker.py:13 | `"()"` survives the pass |
| Normalizer.NestedGroupsOnePass | hansard/worker.py:13 | one pass turns `"((a))"` into `"()"` |
| Normalizer.NestedGroupNeedsSecondPass | hansard/worker.py:13 | `"((a)b)"` becomes `"(b)"`, and only a second pass removes the rest |
| Normalizer.DropBlanksRemovesBlanks | hansard/worker.py:20-48 | the ` +` of a rule removes a run of leading blanks and nothing else |
| Normalizer.ApplyRule | hansard/worker.py:82 | a rule that does not fire leaves the label unchanged; one that fires puts its replacement at the start; a replacement no longer than the word and a blank never lengthens the label |
| Normalizer.ApplyRuleOn | hansard/worker.py:82 | on its word, any run of blanks and a rest not starting with a blank, a rule gives its replacement followed by that rest: the word and the whole ` +` run go |
| Normalizer.ApplyPostCorrections | hansard/worker.py:81-82 | every rule once, in list order (no contract of its own; stated by `PostCorrectionStages`, `MisspelledTheRemoved`, `TheThenMe` and `PostprocessNeverLengthens`) |
| Normalizer.FoldNotLonger | hansard/worker.py:81-82 | rules whose replacement is no longer than their word and a blank never lengthen the label |
| Normalizer.PostCorrectionRulesShort | hansard/worker.py:17-49 | every rule of the list replaces at least as many characters as it writes |
| Normalizer.PostprocessNeverLengthens | hansard/worker.py:80-83 | `postprocess` never lengthens a label |
| Normalizer.Postprocess | hansard/worker.py:80-83 | the result of `postprocess` has no whitespace at either end |
| Normalizer.FiresIffWord | hansard/worker.py:20-48 | on a label that starts with a word and a blank, an anchored rule fires exactly when its word is that word |
| Normalizer.FoldSkipsOtherWords | hansard/worker.py:81-82 | rules for other words leave the label unchanged |
| Normalizer.FoldRewritesToThe | hansard/worker.py:20-27 | a list of rules that rewrite distinct words to "the " turns any of those words, followed by blanks, into "the " |
| Normalizer.MisspellingRulesShape | hansard/worker.py:20-27 | the eight misspelling rules have distinct blank-free words, none of them "the", all rewriting to "the " |
| Normalizer.RewritesToTheOn | hansard/worker.py:20-27 | any rule list of that shape rewrites its i-th word followed by n blanks into "the " |
| Normalizer.MisspellingRulesOn | hansard/worker.py:20-27 | each misspelt leading "the" and all its blanks become "the " |
| Normalizer.TheRuleOn | hansard/worker.py:29 | `^the +` removes "the " |
| Normalizer.MisspelledTheRemoved | hansard/worker.py:19-31 | a misspelt leading "the" and its blanks are removed entirely; the honorific rules see only what follows |
| Normalizer.PostCorrectionStages | hansard/worker.py:17-51 | the rule list runs in three stages: the misspellings, then `^the +`, then the honorifics |
| Normalizer.MisspellingRulesSkipThe | hansard/worker.py:20-27 | a correctly spelt leading "the" passes the misspelling rules untouched |
| Normalizer.LeadingTheRemoved | hansard/worker.py:29-48 | a leading "the " is removed before the honorific rules run |
| Normalizer.HonorificRulesSkipThe | hansard/worker.py:31-48 | no honorific rule fires on a label that starts with "the " |
| Normalizer.MeRuleOn | hansard/worker.py:31 | `^me +` turns "me x" into "mr x" |
| Normalizer.HonorificRulesOnMe | hansard/worker.py:31-48 | the honorific rules turn "me x" into "mr x" and nothing after `^me +` fires on "mr " |
| Normalizer.TheThenMe | hansard/worker.py:29-31 | because `^the +` runs before `^me +`, `postprocess("the me x")` is "mr x" |
| Normalizer.PostprocessTheThe | hansard/worker.py:29 | `postprocess("the the x")` is "the x" for every non-empty trimmed `x` that no honorific rule fires on |
| Normalizer.PostprocessThe | hansard/worker.py:29 | `postprocess("the x")` is `x` for every such `x` |
| Normalizer.PostprocessNotIdempotent | hansard/worker.py:80-83 | `postprocess` is not idempotent: for every such `x`, a second pass turns "the x" into `x` |
| Normalizer.FoldSkipsShort | hansard/worker.py:81-82 | no rule fires on a label too short to hold its word and a blank |
| Normalizer.FoldSkipsIdle | hansard/worker.py:81-82 | rules none of which fires on the label leave it unchanged |
| Normalizer.RepeatedRuleRedundant | hansard/worker.py:81-82 | a rule applied twice in a row acts once when its replacement does not restore its own word and is at least one character longer than its word |
| Normalizer.RepeatedTheRuleNotRedundant | hansard/worker.py:29 | the length condition is needed: `^the +` applied twice takes "the the x" to "x", once to "the x" |
| Normalizer.DuplicateSinRuleRedundant | hansard/worker.py:42-43 | the second `^sin +` rule never changes anything |
| Normalizer.ApplyCorrections | hansard/worker.py:90-91 | each dictionary entry replaces all its occurrences in turn (no contract of its own; stated by `CorrectionsInOrder` and `AbsentCorrectionsUnchanged`) |
| Normalizer.CorrectionsInOrder | hansard/worker.py:90-91 | the misspelling entries apply one after another, in dictionary order |
| Normalizer.AbsentCorrectionSkipped | hansard/worker.py:90-91 | an entry whose misspelling does not occur is skipped |
| Normalizer.AbsentCorrectionsUnchanged | hansard/worker.py:90-91 | a label containing no misspelling comes through the dictionary unchanged |
| Normalizer.Preprocess | hansard/worker.py:85-93 | whatever `cleanse_string` does, the normalised label has no whitespace at either end |
| Normalizer.PreprocessWithoutMisspellings | hansard/worker.py:85-93 | without misspellings, `preprocess` is the pre-correction, two cleanses and `postprocess` |
| Tables.Filter | hansard/worker.py:55 | a filter keeps exactly the elements that satisfy the condition |
| Tables.FilterAppend | hansard/worker.py:55 | filtering a concatenation filters each part, keeping order |
| Tables.FilterKeepsAll | hansard/worker.py:55 | a filter that keeps everything returns the table unchanged |
| Tables.MatchTerm | hansard/worker.py:54-55 | `match_term` keeps exactly the rows with `start <= date < end` |
| Tables.MatchTermInOrder | hansard/worker.py:54-55 | `match_term` keeps the table order |
| Tables.MatchTermBoundaries | hansard/worker.py:54-55 | a row is included on its start date and excluded on its end date |
| Tables.ContainingRows | hansard/worker.py:122-132 | the honorary- and lord-title conditions keep exactly the rows in service whose text contains the label |
| Tables.TermsOn | hansard/worker.py:165-167 | the term condition keeps exactly the candidates' rows whose closed interval holds the date |
| Tables.TermsOnLastDay | hansard/worker.py:165-167 | a term still counts on its last day |
| Cascade.FirstPosition | hansard/worker.py:115-118 | the position chosen is named in the label, and no earlier position is |
| Cascade.FirstHolding | hansard/worker.py:148-151 | the holding chosen accepts the label, and no earlier holding does |
| Cascade.OfficeQuery | hansard/worker.py:115-118 | `match_term` on the table of the first position named in the label, or no rows (no contract of its own; stated by `LaterPositionsIgnored` and `OfficeRowsShadowTitles`) |
| Cascade.TitleQuery | hansard/worker.py:113-132 | every title row the cascade looks at is in service at the date |
| Cascade.TitleStage | hansard/worker.py:134-144 | the single-row / multi-row decision (no contract of its own; stated by `TitleIdHit`, `SeveralTitleRowsAmbiguous` and `SameIdRowsAmbiguous`) |
| Cascade.HoldingStage | hansard/worker.py:147-151 | the first accepting holding becomes the match when none is set (no contract of its own; stated by `HoldingHit`, `MissedExactly` and `TruthyMatchIsFinal`) |
| Cascade.AliasStage | hansard/worker.py:153-160 | the alias-dictionary lookup (no contract of its own; stated by `SingleCandidateHit`, `CandidatesNotOne`, `DuplicateAliasAmbiguous` and `SeveralRowsAliasOutcome`) |
| Cascade.TermStage | hansard/worker.py:162-170 | the narrowing by parliamentary term (no contract of its own; stated by `NarrowingNeedsOneTerm` and `TermNameReplacesAliasMatch`) |
| Cascade.Candidates | hansard/worker.py:154-156 | the alias candidates are exactly the listed speakers that accept the label at the date |
| Cascade.Decide | hansard/worker.py:172-178 | a row is a hit exactly when it has a match (a match outranks an ambiguity); otherwise ambiguous exactly when `ambiguity` is set; otherwise missed |
| Cascade.Classify | hansard/worker.py:108-113 | a truthy cached match is returned as it is |
| Cascade.FirstPositionAppend | hansard/worker.py:115-118 | positions listed after the first named one do not change the choice |
| Cascade.SameLaterTables | hansard/worker.py:147-170 | the stages after the title rows depend on the title tables only through the rows found |
| Cascade.LaterPositionsIgnored | hansard/worker.py:115-118 | only the first office position named in the label is queried |
| Cascade.OfficeRowsShadowTitles | hansard/worker.py:120-125 | when the office stage yields rows, the honorary and lord tables are never consulted |
| Cascade.HonoraryRowsShadowLordTitles | hansard/worker.py:127-132 | when the honorary stage yields rows, the lord titles are never consulted |
| Cascade.TruthyMatchIsFinal | hansard/worker.py:147-170 | once `match` is truthy and `ambiguity` is unset, no later stage changes the row |
| Cascade.TitleIdHit | hansard/worker.py:134-142 | a row ends as a title id exactly when one title row is found and its id is not 'N/A' |
| Cascade.SeveralTitleRowsAmbiguous | hansard/worker.py:143-144 | several title rows make the row ambiguous unless a holding or an alias resolves it |
| Cascade.SameIdRowsAmbiguous | hansard/worker.py:143-144 | two rows with the same id are still ambiguous |
| Cascade.HoldingHit | hansard/worker.py:134-170 | when the title rows leave no truthy id, the first accepting holding is the match, even after several title rows set `ambiguity` |
| Cascade.SingleCandidateHit | hansard/worker.py:153-158 | with no title row (or one 'N/A' row) and no accepting holding, exactly one date-valid alias candidate is the match |
| Cascade.SeveralRowsAliasOutcome | hansard/worker.py:143-170 | after several title rows and no holding: one term row of the candidates names the match when there is a candidate; otherwise a single candidate matches, and anything else is ambiguous |
| Cascade.TermNameReplacesAliasMatch | hansard/worker.py:143-170 | with several title rows, no holding, one alias candidate and one term row at the date, the term row's lower-cased full name replaces the candidate as the match |
| Cascade.CandidatesNotOne | hansard/worker.py:153-170 | with no title row (or one 'N/A' row) and no holding, any other number of candidates is ambiguous unless exactly one term row of the candidates holds the date; zero candidates are ambiguous |
| Cascade.PairCandidates | hansard/worker.py:153-156 | a date-valid speaker listed twice under the label is two candidates with one member id |
| Cascade.DuplicateAliasAmbiguous | hansard/worker.py:153-170 | a speaker listed twice under the label makes the row ambiguous unless one term row narrows it |
| Cascade.MissedExactly | hansard/worker.py:134-178 | a row is missed exactly when no title row or one 'N/A' row is found, no holding accepts the label and the label is not in the alias dictionary |
| Cascade.NarrowingNeedsOneTerm | hansard/worker.py:162-170 | the narrowing clears `ambiguity` exactly when candidates exist and one term row holds the date, and then it sets a match |
| WorkerLoop.Lookup | hansard/worker.py:108 | `MATCH_CACHE.get` returns the entry exactly when the key is present |
| WorkerLoop.Record | hansard/worker.py:172-178 | only a hit writes the cache (its value under the row's key) and raises the counter, leaving both lists alone; an ambiguous row's index is appended to `ambiguous` and a missed row's to `missed`, with nothing else changed |
| WorkerLoop.Step | hansard/worker.py:107-178 | one row classified against the cache as it stands, then recorded (no contract of its own; stated by `Record` and `Worker.ProcessRow`) |
| WorkerLoop.RunChunk | hansard/worker.py:105-178 | every row of a chunk is counted exactly once, as a hit, a miss or an ambiguity, and no cache entry is lost |
| WorkerLoop.CacheGrowsByRows | hansard/worker.py:172-174 | the only new cache keys are the rows' own (label, date) keys |
| WorkerLoop.OnlyHitsAddKeys | hansard/worker.py:172-174 | only matches are written to the cache: a chunk adds at most as many keys as it has hits |
| WorkerLoop.TruthyEntriesKept | hansard/worker.py:108-113 | a truthy cached match is never overwritten |
| WorkerLoop.Pending | hansard/worker.py:95-103 | the worker processes exactly the chunks before the first `None` |
| WorkerLoop.StopSignalEndsInput | hansard/worker.py:101-103 | nothing after the stop signal is read |
| WorkerLoop.RunChunks | hansard/worker.py:95-183 | one report per chunk, the cache carried over and only growing |
| WorkerLoop.ReportsAccountForRows | hansard/worker.py:172-180 | every report accounts for every row of its chunk |
| WorkerLoop.Worker.constructor | hansard/worker.py:74-78 | a worker starts with an empty cache, a zero counter and empty lists |
| WorkerLoop.Worker.FindPosition | hansard/worker.py:115-118 | the position loop finds the first position named in the label |
| WorkerLoop.Worker.FindHolding | hansard/worker.py:148-151 | the holding loop finds the first matching holding |
| WorkerLoop.Worker.TitleRows | hansard/worker.py:111-132 | the reassignments of `query` give the title rows of the specification |
| WorkerLoop.Worker.Resolve | hansard/worker.py:108-170 | the stages, run on mutable locals, classify the row as `Classify` does |
| WorkerLoop.Worker.ResolveAlias | hansard/worker.py:153-170 | the alias and term stages on locals agree with their specification |
| WorkerLoop.Worker.ProcessRow | hansard/worker.py:107-178 | one row updates the cache, the counter and the lists as `Step` says |
| WorkerLoop.Worker.ProcessChunk | hansard/worker.py:105-183 | a chunk produces the report and cache of `RunChunk`; afterwards the counter and lists are reset |
| WorkerLoop.Worker.Run | hansard/worker.py:95-103 | the loop processes exactly the chunks before the stop signal, as `RunChunks` says |
| Loader.CheckCores | run.py:34-36 | the core count is refused exactly when it is negative or above the machine's count |
| Loader.ZeroCoresAccepted | run.py:35-36 | zero cores are accepted |
| Loader.Copies | run.py:123-127 | n copies of one speaker |
| Loader.WithAliases | run.py:123-127 | `setdefault(alias, []).append(s)` over a list of aliases (no contract of its own; stated by `AliasEntries`) |
| Loader.AliasEntries | run.py:123-127 | `setdefault().append` keeps each existing list as a prefix and adds the speaker once per occurrence of the alias; other keys are untouched |
| Loader.MpStep | run.py:85-132 | one row adds at most one speaker or one skip count, and `SPEAKERS` is only appended to |
| Loader.MpFold | run.py:84-132 | the loader never adds more speakers and skip counts than rows, and only appends to `SPEAKERS` |
| Loader.NoBirthDateSkipped | run.py:85-89 | a row without a date of birth adds nothing anywhere |
| Loader.MissingDeathIsNow | run.py:91-94 | a missing date of death is replaced by "now" |
| Loader.MissingNamesCounted | run.py:98-105 | a missing first name is counted first; otherwise a missing surname is counted |
| Loader.RefusedSpeakerSkipped | run.py:118-132 | a speaker whose constructor raises is added nowhere |
| Loader.BuiltSpeakerIndexed | run.py:118-127 | a built speaker is appended to `SPEAKERS`, adds its id to `SPEAKER_DICT`'s keys and replaces the entry under it, leaves other ids and both skip counters alone, and is appended once per generated alias and then once per captured alias |
| Loader.WithAliasesLists | run.py:123-127 | appending under aliases lists only loaded speakers |
| Loader.MpStepConsistent | run.py:118-127 | each row keeps the loader's invariants: `SPEAKER_DICT` is keyed by member id and lists only loaded speakers |
| Loader.MpFoldConsistent | run.py:84-132 | loading a whole file keeps those invariants |
| Loader.WithOffices | run.py:146-148 | `OFFICE_DICT` has exactly the old and the listed ids, the last office listed under an id winning |
| Loader.WithOfficesLastWins | run.py:146-148 | an id maps to the last office listed under it |
| Loader.WithOfficesKeepsUnlisted | run.py:146-148 | an id no listed office carries keeps its office |
| Loader.Admit | run.py:157-181 | a holding is refused for a bad date, then an unknown member, then an unknown office, in that order; a float end date becomes "now"; a kept holding carries the row's holding id, member id, office id and dates and the looked-up office |
| Loader.HoldingStep | run.py:155-182 | one row is either kept or counted once; it is kept, as `Admit`'s holding, exactly when every check passes, and otherwise only the counter of the first failing check (dates, member, office) grows |
| Loader.HoldingFold | run.py:155-182 | every holding row is kept or counted exactly once, and every kept holding has a known member and office |
| Loader.Registry.constructor | run.py:14-21 | the tables start empty |
| Loader.Registry.AppendAliases | run.py:123-127 | the alias loop updates `FULL_ALIAS_DICT` as `WithAliases` does and touches nothing else |
| Loader.Registry.AddMember | run.py:85-132 | one members-file row updates the tables as `MpStep` does |
| Loader.Registry.ParseMps | run.py:84-132 | `parse_mps` is `MpFold` over the rows |
| Loader.Registry.LoadOffices | run.py:146-148 | the office loop fills `OFFICE_DICT` as `WithOffices` does |
| Loader.Registry.AddHolding | run.py:155-182 | one holding row is kept or counted as `HoldingStep` says |
| Loader.Registry.LoadHoldings | run.py:155-182 | the holdings loop is `HoldingFold` over the rows |
| Tally.Tick | run.py:250-256 | a hit only raises `hit`; an `is_ambig`-only result only raises `ambiguities` and appends its index to `ambiguous`; a result with neither flag only appends its index to `missed` |
| Tally.CountResults | run.py:249-256 | each result adds to exactly one of hits, ambiguities and misses; the ambiguity count is the length of the ambiguous list |
| Tally.HitTakesPrecedence | run.py:250-256 | hits are the results with `is_hit`; the ambiguous ones have `is_ambig` without `is_hit`; the missed ones have neither |
| Tally.Tally.constructor | run.py:215-230 | the tally starts at zero |
| Tally.Tally.ReadResults | run.py:246-256 | the per-result loop computes `CountResults` |
| Tally.Tally.TallyChunk | run.py:246-264 | a chunk adds its counts, moves its index lists to the output and clears them |

## Left out

- The multiprocessing harness is left out because its point is concurrency: `Queue`, `Process`, the blocking `get` that retries on `Empty`, and `terminate`. The worker's input is a sequence of optional chunks, and the end of that sequence stands in for a queue that blocks forever.
- The harness does not fit together as written, so no model connects the worker to the main loop:
  - `run.py` passes eight arguments to a three-parameter `worker_function`;
  - it enqueues single rows instead of chunks and never sends the stop signal;
  - it reads flag triples where the worker emits `(hitcount, DataFrame, DataFrame)`.
  The worker and the tally are modelled separately.
- The following are library plumbing, so parsed rows arrive as records with integer dates: CSV reading and writing, pandas `DataFrame` mechanics, `pd.to_datetime`, `argparse`, logging and `os.mkdir`. `chunk.loc[indexes]` is modelled by the index lists it selects with.
- `strptime` failing with `ValueError` on a malformed date string is left out; only the `TypeError` path that the loader catches is modelled. A `NaN` full name is also left out.
- The following are defined in files that are not part of this model, so they are parameters: `cleanse_string`, `SpeakerReplacement` (with alias generation and its exceptions), `OfficeHolding.matches`, `SpeakerReplacement.matches` and `MP_ALIAS_PATTERN`.
- `load_corrections` is left out because it is CSV reading. The misspelling dictionary is a list of pairs in its iteration order.
- The discarded result of `MP_ALIAS_PATTERN.sub` (run.py:111) is left out because it has no effect.
- General Python regular expressions are left out. Only the two pattern shapes used, `\([^()]+\)` and `^word +`, are written as string functions.
- Loader.CheckCores: takes the core count after `args.cores[0]` (run.py:34). Without `--cores`, argparse's default is the int 1 (run.py:32), and indexing it raises `TypeError` before the check at run.py:35 runs; that crash path is not modelled.
- Text.Lower: lower-cases ASCII letters only, because Python's full Unicode case mapping is not modelled.
- Normalizer.StripParens: its own contract gives only the length bound. What the pass removes is stated by `StripParensDropsGroup` (every non-empty paren-free group goes, wherever it stands) and `StripParensUnchanged` (nothing changes without such a group). The examples `EmptyPairSurvives`, `NestedGroupsOnePass` and `NestedGroupNeedsSecondPass` show the single left-to-right pass.
- WorkerLoop.RunChunk: the report carries the row indexes, not the `DataFrame` rows they select.
- The `EXCHEQUER_DF`, `PM_DF` and `OFFICE_TERMS_DF` loading (run.py:188-198) is left out because it is CSV parsing. The tables reach the worker as sequences of records.
