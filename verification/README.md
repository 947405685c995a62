# TriMC in Dafny

A model of the parts of TriMC that keep state or decide something, with proofs about every input,
every run or every interleaving. Objects whose fields the source updates in place are classes with
those fields, loops are loops, and each method is tied to a function about which the laws are proved.
`dafny verify dfyconfig.toml` checks the whole project.

- **Weekly shift** (`Calendar`, `WeekMath`): days are numbers of a proleptic Gregorian calendar in which
  every integer is a date, anchored by Zeller's congruence. ISO week numbers follow their definition in ISO 8601:2004, section 2.2.10
  (the first week holds the first Thursday, the others count on), and the `Date` arithmetic of the
  source is proved to compute them, including the wrap that looks up the wrong ISO year and is right
  all the same.
- **Permission engine** (`RuleParser`, `DecisionPipeline`, `PermissionEngine`): rule strings with
  backslash escapes and exactly which of them survive printing and parsing, and the
  deny/ask/safety/mode/allow pipeline, proved equal to a closed form over the highest matching score of
  each behaviour, with the rule its reason quotes.
- **Config sync** (`Json`, `CanonicalText`, `JsonReader`, `ContentHash`, `SyncBundle`, `ConfigState`,
  `ConfigApply`, `ReadCache`): the canonical JSON text, which a reader after RFC 8259 reads back and
  which tells values apart, bundle validation, the apply state machine and when it converges, and the
  two caches of parsed files under interleaved readers and writers. String literals are those of
  section 7 of RFC 8259, as `JSON.stringify` prints them.
- **Timeline store** (`Timeline`, `TimelineWalk`): a sorted list of events and cursor walks through it
  while events arrive.
- **Mirror store** (`MirrorStore`, `MirrorLaws`, `MirrorDetector`): heartbeats, the failure detector and
  mirrored tasks with global versions. The JavaScript `Map`s are sequences of slots, in insertion order, because
  versions are handed out in that order.
- **Budget ledger** (`BudgetLedger`, `BudgetCaps`, `BudgetMonths`, `BudgetOpen`): the amounts and the log
  over whole runs with resets, which runs keep the daily caps, what that leaves of the monthly ones, and
  how far approvals that are open at once can go.
- **Replay arbitration** (`Arbitration`), **SSE line buffering** (`SseStream`), and the stable sort that
  the others share (`StableSort`).

## What came out

Properties that hold only under a condition are stated with that condition, in both directions.

- `canonicalize` tells values apart up to member order, except that an overflowed number such as `1e999`
  prints as `null` (`OverflowPrintsAsNull`).
- Apply ends at the last presented of the latest bundles. Order and repetition do not matter exactly if
  no two different bundles share the greatest `generatedAt`, given that an id names one bundle
  (`ConvergesExactly`). A stale bundle with other content adds a warning at every run, without bound
  (`StaleWarningsPileUp`).
- The caches answer with something the file said during the call exactly if a modification time comes
  back only while the file has read alike all along (`TimelyExactly`). Equal content at equal times is
  not enough: an entry may be filed under the time of a `stat` made before a write. Without any
  assumption on those times an answer is less than ten seconds stale by a clock that does not go back
  (`AnswersAreRecent`), and by any clock something the file once said (`AnswersWereRead`).
- A timeline walk with nothing arriving returns the session's list exactly if no full page ends in an
  event id that occurred before (`QuietWalkReturnsList`); two events with one id and pages of one make
  a walk endless (`SharedIdNeverEnds`). With distinct ids it ends once arrivals stop (`WalkEnds`).
- A rule comes back from its printed form exactly if its tool name is trimmed, no alias and without a
  separator, and, when content follows, does not end in an odd run of backslashes; so the raw rule
  `a\ (c)` does not survive: it comes back without its content (`ParsePrint`, `ParseNormalizes`,
  `BackslashNameIsLost`).
- The reason of a decision quotes the rule that was added first among the highest that decide. It is the
  same for every order of the rules exactly if all of those quote the same content
  (`ReasonOrderFreeExactly`, `CitationDependsOnOrder`).
- Ending the stream with a line end changes the outcome exactly if its last line reports a failure that
  is news: an unterminated failure counts as success (`FinalNewlineMatters`).
- Pushing a batch again is quiet exactly if the batch does not say two different things of one mirrored
  entry (`RepushIsQuietExactly`), and the pushes of one node leave the entries of another alone, from
  every valid store, exactly if neither id continues the other with a colon (`PushesLeaveAloneExactly`).
- An approval of the ledger reserves nothing. Recording `n` approvals that are open at once adds at
  most `n` times what was left of the cap, which is reached for every `n` (`OpenApprovalsBound`,
  `BoundReached`), so a cap is safe from them exactly for `n` at most one (`OpenApprovalsExactly`).
- Monthly caps are declared but never consulted. Runs that keep the daily caps keep the monthly cap of
  an employee for up to five days with a record and no longer, and that of the company for up to ten
  (`MonthlyCapsExactly`); a run of properly checked records in August 2026 spends 60 of
  50 USD in six days (`SpreeBreaksCaps`). The log rounds where the ledger does not (`LogDrift`).
- In arbitration an empty node id owns nothing (`OwnsExactlyIfNamed`); the endpoint refuses it.

Where the code and its documentation differ, the code is followed: a comment says the engine sorts its
rules on construction, which the constructor does not do (`decide` sorts a copy); the parser's comments
announce prefix and exact matches, while both kinds of rule look for a substring; any trailing `*` makes
a wildcard; and the last character of a rule with content is dropped whether or not it is a parenthesis.

## Model

| member | source | states |
|---|---|---|
| Calendar.YearUnique | src/cron/week-math.ts:29-32 | the year of a day is the only one whose New Year is not after it while the next one is |
| Calendar.FieldsNameDay | src/cron/week-math.ts:46-51 | year, month and date of every day are valid calendar fields and name that day |
| Calendar.DayHasFields | src/cron/week-math.ts:28-32 | valid fields come back from the day they name, so the fields and the day determine each other |
| Calendar.WeekdayByZeller | src/cron/week-math.ts:33 | every date of the Gregorian calendar falls on the weekday that Zeller's congruence gives |
| Calendar.IsoWeekCountsThursdays | src/cron/week-math.ts:24-34 | the definition of a week number by counting weeks from the first Thursday equals the day-of-year formula at the week's Thursday |
| Calendar.IsoWeekLaws | src/cron/week-math.ts:24-34 | week numbers lie in 1..53, stay from Monday to Sunday, and from one week to the next rise by one or return to 1, the latter exactly when a year's first Thursday comes |
| Calendar.December28EndsYear | src/cron/week-math.ts:41-44 | 28 December lies in the last ISO week of its year: the week after it is the first of the next |
| Calendar.LongYears | src/cron/week-math.ts:41-44 | a year has 53 weeks exactly if it starts on a Thursday or is a leap year starting on a Wednesday, and 52 otherwise |
| Calendar.NeitherYearLong | src/cron/week-math.ts:68-71 | if the Monday is 29, 30 or 31 December, neither its year nor the year before it has 53 weeks |
| Calendar.WeekBeforeFirst | src/cron/week-math.ts:68-71 | before a Monday of week 1 comes the last week of the year before the Monday's calendar year, also when that is not the ISO year that just ended |
| WeekMath.LocalDate.SetDate | src/cron/week-math.ts:31 | a date outside the month moves the day into the neighbouring months by the difference |
| WeekMath.DayNum | src/cron/week-math.ts:30 | counts the week from 1 for Monday to 7 for Sunday |
| WeekMath.IsoWeekOf | src/cron/week-math.ts:28-34 | for every date the result is the ISO 8601 week number, by its definition |
| WeekMath.IsoWeekOfLastWeekOfYear | src/cron/week-math.ts:41-44 | the week number of 28 December of the year |
| WeekMath.WeekTokenInjective | src/cron/week-math.ts:36-39 | the three-character token tells the week number |
| WeekMath.DateTellsDay | src/cron/week-math.ts:46-51 | the printed date tells the day: different days, of any years, print differently |
| WeekMath.DateWidth | src/cron/week-math.ts:18-19 | the printed date has the ten characters of YYYY-MM-DD exactly in the years 1000 to 9999, or -999 to -100 with a sign |
| WeekMath.PreviousWeek | src/cron/week-math.ts:67-71 | one less, or the looked-up week on a wrap, is the week number of the Monday seven days before |
| WeekMath.FromWeek | src/cron/week-math.ts:68-71 | the wrap always yields the ISO week of the Monday seven days earlier |
| WeekMath.FormatDate | src/cron/week-math.ts:46-51 | prints the year, the two-digit month counted from 1 and the two-digit date, the text that `DateTellsDay` is about |
| WeekMath.ComputeWeekShiftTokens | src/cron/week-math.ts:58-78 | the tokens are the ISO weeks of the Monday before and of the Monday that opens tomorrow's week, and that Monday's date |
| WeekMath.MondayOfTomorrow | src/cron/week-math.ts:59-65 | the result is the Monday of the week that holds tomorrow |
| WeekMath.WindowStable | src/cron/week-math.ts:9-10 | all seven trigger days from a Sunday to the following Saturday open the window of the next day, a Monday |
| WeekMath.WindowsChain | src/cron/week-math.ts:5-10 | a week later the window opens seven days later, on a Monday again, and moves from the week this one moves to |
| WeekMath.TokensTellWindow | src/cron/week-math.ts:58-78 | two runs print the same tokens exactly if they open the same window |
| WeekMath.WindowsByDate | src/cron/week-math.ts:9-10 | by the calendar: the run of Sunday 2026-08-16 and those of the six days after it open the week of 2026-08-17, and every seven days the window moves by seven days, for all dates |
| WeekMath.TokensOf20260816 | src/cron/week-math.ts:58-78 | the tokens of the run of 2026-08-16 are W33, W34 and 2026-08-17 |
| WeekMath.WeekByThursday | src/cron/week-math.ts:31-38 | the week of a day is the count of Thursdays of the year up to the date of its own |
| RuleParser.UnescapeContentReadsOnce | src/agent-loop/permissions-engine/rule-parser.ts:120-126 | the three successive global replacements equal one reading from the left, on every string |
| RuleParser.UnescapeEscape | src/agent-loop/permissions-engine/rule-parser.ts:43-46 | reading undoes escaping, with any tail that does not begin with a special character |
| RuleParser.IsEscaped | src/agent-loop/permissions-engine/rule-parser.ts:109-118 | the loop tells whether an odd number of backslashes stands before the index |
| RuleParser.FindUnescapedParen | src/agent-loop/permissions-engine/rule-parser.ts:99-107 | the result is the first unescaped opening parenthesis, or -1 exactly if there is none |
| RuleParser.ParseRule | src/agent-loop/permissions-engine/rule-parser.ts:48-83 | the method computes the rule for which the round trip is proved |
| RuleParser.ContentComesBack | src/agent-loop/permissions-engine/rule-parser.ts:61-82 | content and wildcard flag come back from the unescaped text exactly if the content is not empty and, without a wildcard, does not end in a star |
| RuleParser.WrongSeparator | src/agent-loop/permissions-engine/rule-parser.ts:99-107 | if another parenthesis than the printed one separates, the parsed tool name is another one |
| RuleParser.ParsePrint | src/agent-loop/permissions-engine/rule-parser.ts:48-83 | parsing the escaped print of a rule gives the rule back exactly if it is in normal form |
| RuleParser.AliasesResolveOnce | src/agent-loop/permissions-engine/rule-parser.ts:128-131 | no alias target is an alias or needs trimming, so resolving again changes nothing |
| RuleParser.OlderToolParsed | src/agent-loop/permissions-engine/rule-parser.ts:11-29 | a rule for each of the sixteen older tool names is read as one for the tool that took its place |
| RuleParser.ParsedNormalForm | src/agent-loop/permissions-engine/rule-parser.ts:48-83 | what the parser returns is in normal form exactly if it has no content or its tool name ends unescaped |
| RuleParser.ParseNormalizes | src/agent-loop/permissions-engine/rule-parser.ts:48-83 | what the parser returns survives printing and parsing exactly if it has no content or its tool name ends unescaped |
| RuleParser.EscapedNames | src/agent-loop/permissions-engine/rule-parser.ts:43-46 | a tool name with an escaped parenthesis is in normal form, one that ends in a backslash is not |
| RuleParser.BackslashNameIsLost | src/agent-loop/permissions-engine/rule-parser.ts:43-83 | the parser returns such a rule for the raw text `a\ (c)`; printed and parsed again it is a rule without content for a tool named `a\(c)` |
| RuleParser.TrimStrips | src/agent-loop/permissions-engine/rule-parser.ts:54-59 | trimming takes white space from both ends of a name and nothing else |
| RuleParser.LastCharacterIgnored | src/agent-loop/permissions-engine/rule-parser.ts:60 | the last character of a rule with content is dropped, whatever it is |
| DecisionPipeline.CheckRules | src/agent-loop/permissions-engine/decision-pipeline.ts:112-168 | on sorted rules the early-return loop stops exactly if the highest matching score of the behaviour is not below that of allow, and then at the first rule of that score in the list |
| DecisionPipeline.CheckAllowRules | src/agent-loop/permissions-engine/decision-pipeline.ts:211-227 | returns the first matching allow rule of the list, on sorted rules the first of the highest matching score, and none exactly if there is none |
| DecisionPipeline.SortKeepsFirstTop | src/agent-loop/permissions-engine/decision-pipeline.ts:25-28 | sorting keeps the highest matching score and, being stable, the rule of that score that was added first |
| DecisionPipeline.Decide | src/agent-loop/permissions-engine/decision-pipeline.ts:24-76 | the steps over a sorted copy compute the closed form, which is the verdict by the texts, and quote the rule that was added first among the highest that decide |
| DecisionPipeline.DecisionByText | src/agent-loop/permissions-engine/decision-pipeline.ts:24-109 | the verdict and its step in terms of the texts: a rule counts exactly if its tool is called and its content, if any, stands somewhere in the arguments, and an allow rule overrides from an earlier place in the ranking of the sources |
| DecisionPipeline.OnlyCountingRulesDecide | src/agent-loop/permissions-engine/decision-pipeline.ts:96-109 | rules of other tools, or with a content that stands nowhere in the arguments, might as well not be there |
| DecisionPipeline.TopOrderFree | src/agent-loop/permissions-engine/decision-pipeline.ts:25-28 | the highest matching score depends on the set of rules only |
| DecisionPipeline.DecisionOrderFree | src/agent-loop/permissions-engine/decision-pipeline.ts:24-76 | allowed, behaviour and deciding step depend on the set of rules only, not on order or repetition |
| DecisionPipeline.ReasonTellsContent | src/agent-loop/permissions-engine/decision-pipeline.ts:130-135 | of two rules of one behaviour and source the reason text tells the contents apart |
| DecisionPipeline.ReasonOrderFreeExactly | src/agent-loop/permissions-engine/decision-pipeline.ts:24-76 | the quoted reason is the same for every order of the rules exactly if all rules of the deciding behaviour and the highest score quote the same content |
| DecisionPipeline.CitationDependsOnOrder | src/agent-loop/permissions-engine/decision-pipeline.ts:130-135 | two deny rules of one source that match the JSON arguments of a call with different contents: the decision quotes whichever was added first, and the two reasons differ |
| DecisionPipeline.AllowRuleNeverRevokes | src/agent-loop/permissions-engine/decision-pipeline.ts:30-75 | one more allow rule, anywhere, never turns an allowed call into a refused one |
| DecisionPipeline.RestrictingRuleNeverGrants | src/agent-loop/permissions-engine/decision-pipeline.ts:30-75 | one more deny or ask rule never turns a refused call into an allowed one |
| DecisionPipeline.LaterModesAllowMore | src/agent-loop/permissions-engine/decision-pipeline.ts:49-63 | what default allows acceptEdits allows, and what that allows bypassPermissions allows |
| DecisionPipeline.AllowedExactlyWhen | src/agent-loop/permissions-engine/decision-pipeline.ts:24-76 | a call is allowed exactly if the safety check passes, every matching deny and ask rule is overridden from a higher source, and the mode or an allow rule grants it |
| DecisionPipeline.OverriddenRefusalIsNotDefault | src/agent-loop/permissions-engine/decision-pipeline.ts:117-128 | if a deny or ask rule matches, the decision never falls through to the default |
| PermissionEngine.Engine.constructor | src/agent-loop/permissions-engine/index.ts:33-37 | keeps the given rules as they are, unsorted |
| PermissionEngine.Engine.AddRule | src/agent-loop/permissions-engine/index.ts:70-75 | the list becomes the sorted list with the parsed rule |
| PermissionEngine.Engine.AddRules | src/agent-loop/permissions-engine/index.ts:80-85 | the list becomes the sorted list with all parsed rules |
| PermissionEngine.Engine.AddParsedRule | src/agent-loop/permissions-engine/index.ts:90-93 | the list becomes the sorted list with the rule |
| PermissionEngine.Engine.RemoveRulesBySource | src/agent-loop/permissions-engine/index.ts:98-102 | the list keeps exactly the rules of other sources, in order, and the result counts the others |
| PermissionEngine.Engine.ClearRules | src/agent-loop/permissions-engine/index.ts:107-109 | no rule is left |
| PermissionEngine.Engine.Decide | src/agent-loop/permissions-engine/index.ts:120-130 | the verdict is the closed form of the engine's mode and rules, and the quoted rule the first added of the highest that decide |
| PermissionEngine.Engine.SortRules | src/agent-loop/permissions-engine/index.ts:175-188 | the list becomes its stable sort by source priority |
| PermissionEngine.AddThenRemoveRestores | src/agent-loop/permissions-engine/index.ts:70-102 | adding rules of a fresh source and removing that source leaves the old rules, sorted, and every decision with the rule it quotes |
| PermissionEngine.AddedIsSorted | src/agent-loop/permissions-engine/index.ts:80-93 | after an addition the list is sorted and is a permutation of the old rules and the new ones |
| StableSort.SortSorts | src/agent-loop/permissions-engine/index.ts:187 | the sort yields an ordered list for every total preorder |
| StableSort.SortPermutes | src/agent-loop/permissions-engine/index.ts:187 | the sort keeps every element as often as it occurs |
| StableSort.SortStable | src/agent-loop/permissions-engine/index.ts:187 | elements that compare as equal keep their order |
| StableSort.PushAndSort | src/observability/timelineReplayApi.ts:56-57 | pushing one element onto a sorted list and sorting again is one insertion behind its equals |
| CanonicalText.QuotePrefix | src/config-sync/types.ts:284 | a printed string literal tells the string and where it ends |
| CanonicalText.CanonicalPrefix | src/config-sync/types.ts:278-287 | a printed value followed by a delimiter tells the value up to member order, and what follows |
| CanonicalText.AlikePrintsAlike | src/config-sync/types.ts:277-287 | values equal up to the order of members at every depth print the same text |
| CanonicalText.CanonicalTextIdentifies | src/config-sync/types.ts:277-287 | two parsed values print the same text exactly if they are equal up to member order and overflowed numbers |
| CanonicalText.SortedMembersAscend | src/config-sync/types.ts:283 | distinct keys come out in strictly ascending order of code units |
| JsonReader.CanonicalTextReads | src/config-sync/types.ts:276-287 | a reader of JSON without white space, after RFC 8259, reads every canonical text as a value equal up to member order and overflowed numbers, and leaves nothing over |
| JsonReader.QuotedReads | src/config-sync/types.ts:284 | such a reader gets every printed string back and stops behind its closing quote |
| JsonReader.QuoteWidth | src/config-sync/types.ts:284 | the printed string has the short escapes for seven characters, six-unit escapes for other control characters and lone surrogates, and nothing else escaped |
| JsonReader.KeyOrder | src/config-sync/types.ts:283 | keys are ordered by their code units at the first difference |
| ContentHash.WithoutDevHeadAlike | src/config-sync/types.ts:307-314 | dropping `devHead` makes two project dimensions agree exactly if they agree in all other members |
| ContentHash.HashInputIdentifies | src/config-sync/types.ts:300-314 | two bundles feed the same text to the hash exactly if their five dimensions agree up to member order and `devHead` |
| ContentHash.HashInputReads | src/config-sync/types.ts:300-314 | the hashed text is JSON for an object of the five dimensions under their names, without `devHead`, and of nothing else |
| ContentHash.DimensionNames | src/config-sync/types.ts:300-314 | those names, in code units |
| ContentHash.OverflowPrintsAsNull | src/config-sync/types.ts:286 | an overflowed number and null are different values with one text |
| ContentHash.CanonicalTextHasUtf8 | src/config-sync/types.ts:303 | the text holds no lone surrogate, so its UTF-8 encoding replaces nothing |
| SyncBundle.FindSecretField | src/config-sync/types.ts:113-134 | reports the path to the first non-empty string under a name for key material, where entries come in order and a value before those in it, and nothing only if no path of any depth leads to one |
| SyncBundle.FindSecretItem | src/config-sync/types.ts:115-121 | the loop over array items does the same for an array |
| SyncBundle.FindSecretMember | src/config-sync/types.ts:122-133 | the loop over members does the same for an object |
| SyncBundle.SecretsByName | src/config-sync/types.ts:113-134 | a string member is key material exactly if it is named `api_key`, `apiKey`, `secret` or `token` and is not empty |
| SyncBundle.FieldIsSecretFree | src/config-sync/types.ts:123-131 | a value without key material has no field with any |
| SyncBundle.CheckAll | src/config-sync/types.ts:165-173 | the early-return loop over entries succeeds exactly if all entries have the shape |
| SyncBundle.CheckDim | src/config-sync/types.ts:147-236 | a dimension passes exactly if it is a degraded segment or has its shape, and fails if it is missing |
| SyncBundle.CheckMeta | src/config-sync/types.ts:251-265 | the meta fields are in order, or the first failing test is named |
| SyncBundle.CheckDims | src/config-sync/types.ts:266-271 | the loop names the first failing dimension in key order, or all five pass |
| SyncBundle.ValidateSyncBundle | src/config-sync/types.ts:242-273 | accepts exactly the values without key material, with valid meta fields and five valid dimensions, and otherwise reports the first test that fails, key material before anything else |
| SyncBundle.FrameByName | src/config-sync/types.ts:243-271 | what makes a bundle, field by field under its names |
| SyncBundle.DegradedPasses | src/config-sync/types.ts:147-149 | a dimension that says it is unavailable passes whatever its reason, and no other status does |
| SyncBundle.KeysByName | src/config-sync/types.ts:177-211 | what the keys dimension is asked for, field by field |
| SyncBundle.AcceptedDims | src/config-sync/types.ts:243-271 | each dimension of an accepted bundle is free of key material and is degraded or well-shaped |
| SyncBundle.KeysFieldsListed | src/config-sync/types.ts:182-189 | an entry of an accepted keys dimension that is not degraded has only the four listed fields |
| ConfigState.ConfrontOlder | src/config-sync/apply.ts:80-109 | confronting the applied bundle with another leaves the applied one if the other is older, and the other if not |
| ConfigState.StaleBundle | src/config-sync/apply.ts:88-106 | an older bundle adds the warning for other content, otherwise that for another sender, otherwise none, and changes nothing else |
| ConfigState.OtherBundle | src/config-sync/apply.ts:183-206 | an applied bundle changes nothing, and one that is not older lands with every field of its manifest and its five files |
| ConfigState.EndsAtLastLatest | src/config-sync/apply.ts:239-286 | after any runs the disk is that of the last presented of the bundles with the greatest time, or empty if none was presented |
| ConfigState.ConvergesExactly | src/config-sync/apply.ts:80-109 | all orders and repetitions of the same bundles end alike exactly if no two different bundles share the greatest time |
| ConfigState.TimeNeverDecreases | src/config-sync/apply.ts:88-107 | a run never moves the applied time back |
| ConfigState.LandsOrKeeps | src/config-sync/apply.ts:239-286 | a run lands the bundle with all five files, or changes nothing but at most one more warning in the manifest |
| ConfigState.RunAgain | src/config-sync/apply.ts:85-87 | running again after a landing is a no-op, after a plain refusal refuses again, and neither changes anything |
| ConfigState.StaleWarningsPileUp | src/config-sync/apply.ts:247-253 | n more runs on a stale bundle that warns add n warnings |
| ConfigApply.ResolveKeysDim | src/config-sync/apply.ts:124-144 | applied exactly if every provider is covered by the environment, degraded if the dimension is, and otherwise warned with the uncovered providers in order |
| ConfigApply.CollectUncovered | src/config-sync/apply.ts:131-136 | the loop lists the uncovered providers in order, none exactly if all are covered |
| ConfigApply.ResolveEmployeesDim | src/config-sync/apply.ts:148-178 | applied exactly if HEAD is the source commit before or after the pull, and otherwise warned with the last HEAD that was read |
| ConfigApply.CoveredByVariable | src/config-sync/apply.ts:116-121 | which variable of the environment covers which provider |
| ConfigApply.LandingByInput | src/config-sync/apply.ts:255-275 | the statuses and the number of warnings of a landing in terms of the environment and the head |
| ConfigApply.ConfigSync.LandBundle | src/config-sync/apply.ts:182-205 | the manifest is that of the bundle and the files are exactly its five dimensions |
| ConfigApply.ConfigSync.Land | src/config-sync/apply.ts:259-285 | the statuses and warnings of both resolved dimensions go into the manifest |
| ConfigApply.ConfigSync.RunConfigSyncApply | src/config-sync/apply.ts:209-286 | one run does what the state machine does on the validated bundle, with its outcome, and nothing without one |
| ConfigApply.DiskConsistent | src/config-sync/apply.ts:182-205 | after any runs the manifest's hash and statuses are those of the files beside it, and every file is sound |
| ConfigApply.NoSecretOnDisk | src/config-sync/apply.ts:222-235 | after any runs no file holds key material at any depth |
| ConfigApply.VisitsDated | src/config-sync/types.ts:260-262 | every bundle that reaches the comparison has a parseable time |
| ConfigApply.RunsConverge | src/config-sync/apply.ts:209-286 | runs on raw files converge as the state machine does |
| ConfigApply.AppliedTimeNeverDecreases | src/config-sync/apply.ts:88-107 | along any runs on raw files the applied time never goes back |
| ConfigApply.HashWarningExactly | src/config-sync/apply.ts:92-98 | with a digest that tells texts apart, a stale bundle is reported for its content exactly if a dimension differs in more than member order and `devHead` |
| ReadCache.Cache.AfterStat | src/config-sync/status.ts:119-134 | a missing file answers null and clears the entry where the source does; otherwise a hit answers the entry and a miss reads |
| ReadCache.Cache.AfterRead | src/config-sync/status.ts:135-146 | answers the parse, null for another shape, and files it under the time of the earlier `stat` |
| ReadCache.HitIsTimely | src/config-sync/status.ts:126-134 | a hit answers something read during the call, or read before it and still what the file says |
| ReadCache.FreshIsTimely | src/config-sync/status.ts:127 | an answer that bypassed the cache is always what the file said during the call |
| ReadCache.ComebackMisleads | src/config-sync/default-model.ts:46-65 | if a modification time comes back, a caller can be told what the file said in between |
| ReadCache.TimelyExactly | src/config-sync/status.ts:114-147 | every answer of every interleaving is what a plain read would give at some instant of the call exactly if a modification time comes back only while the file read alike |
| ReadCache.NoReuseIsTimely | src/config-sync/default-model.ts:38-67 | in particular all answers are timely if no write reuses a modification time |
| ReadCache.AnswersAreRecent | src/config-sync/status.ts:126-134 | with a clock that does not go back and no assumption on modification times, an answer is what the file said during the call or during another call answered less than ten seconds before |
| ReadCache.TenSeconds | src/config-sync/status.ts:126-134 | an entry of the unchanged file answers a call that is not forced up to 9999 milliseconds after it was read, and not later |
| ReadCache.MissingFile | src/config-sync/status.ts:120-125 | a missing file makes the manifest reader forget and not the model reader |
| ReadCache.AnswersWereRead | src/config-sync/status.ts:108-144 | in every interleaving, on any clock, an answer is what the file of the call said at some instant up to the answer |
| ReadCache.ManifestAnswers | src/config-sync/status.ts:135-144 | an answer that is not null has a bundle id and a generation time, whatever the interleaving and the clock |
| ReadCache.ModelAnswers | src/config-sync/default-model.ts:54-64 | an answer that is not null has a default model and a catalog, whatever the interleaving and the clock |
| Timeline.EventOrder | src/observability/timelineReplayApi.ts:32-36 | time stamp, then event id, is a total preorder for every collation |
| Timeline.GrownInTime | src/observability/timelineReplayApi.ts:32-36 | the store is in the order of time stamps, and of ids at equal ones |
| Timeline.GrownInSteps | src/observability/timelineReplayApi.ts:61-68 | two batches after one another leave the store as one batch of both |
| Timeline.AppendsAreOneBatch | src/observability/timelineReplayApi.ts:54-68 | appending one by one, sorting each time, leaves the store as appending in bulk |
| Timeline.EventStore.Append | src/observability/timelineReplayApi.ts:54-59 | a valid event is sorted in and the list stays in order, by one insertion behind its equals if it was; an invalid one changes nothing |
| Timeline.EventStore.BulkAppend | src/observability/timelineReplayApi.ts:61-68 | valid events are all sorted in; at an invalid one the events before it stay pushed at the end, unsorted |
| Timeline.EventStore.QueryBySession | src/observability/timelineReplayApi.ts:70-92 | the page after the cursor's first occurrence, or from the start if it is unknown, with a cursor exactly if the page is full |
| Timeline.PageHolds | src/observability/timelineReplayApi.ts:80-96 | a page has the positive limit asked for or else fifty, and is filled as far as there are events behind the cursor |
| Timeline.PageStartsOver | src/observability/timelineReplayApi.ts:80-96 | a cursor that names no event starts over |
| Timeline.EventStore.QueryByTrace | src/observability/timelineReplayApi.ts:94-111 | the numbered page, with the numbers of events and of pages |
| Timeline.PageCount | src/observability/timelineReplayApi.ts:108 | a page number is within the count exactly if the page is not empty |
| Timeline.TracePagesCover | src/observability/timelineReplayApi.ts:99-108 | the numbered pages put together are the whole list of the trace |
| TimelineWalk.ScopeGrows | src/observability/timelineReplayApi.ts:56-57 | appending leaves every listed event on the same side of every other |
| TimelineWalk.WalkReturnsAllPresent | src/observability/timelineReplayApi.ts:70-92 | whatever arrives between queries, a finished walk returns every event present at the start exactly once, in order and without repeats |
| TimelineWalk.WalkStrict | src/observability/timelineReplayApi.ts:32-36 | if the collation tells strings apart, that order is strict |
| TimelineWalk.QuietWalkReturnsList | src/observability/timelineReplayApi.ts:70-92 | with nothing arriving, a walk ends in time and returns the session's list exactly if no full page ends in an id that occurred before |
| TimelineWalk.DistinctIdsBound | src/observability/timelineReplayApi.ts:77-78 | distinct ids are enough for that |
| TimelineWalk.WalkEnds | src/observability/timelineReplayApi.ts:70-92 | once arrivals stop, one more query than there are full pages in the final list ends the walk |
| TimelineWalk.SharedIdNeverEnds | src/observability/timelineReplayApi.ts:76-82 | two events with one id and pages of one: no walk ends |
| MirrorStore.Summary | src/mirror/store.ts:117-119 | a stored summary has at most 500 characters |
| MirrorStore.MirrorStore.RecordNodeHeartbeat | src/mirror/store.ts:41-60 | registers or updates the node's record, capped at 100, and makes an unknown node known at its second beat |
| MirrorStore.MirrorStore.ScanStaleNodes | src/mirror/store.ts:78-96 | marks the overdue nodes in map order and returns their number |
| MirrorStore.MirrorStore.MirrorTasks | src/mirror/store.ts:108-169 | applies the reports one by one and returns how many changed something |
| MirrorStore.MirrorStore.MirrorTask | src/mirror/store.ts:112-166 | inserts, updates or merely touches one entry; it counts exactly if it does not merely touch |
| MirrorStore.MirrorStore.MarkNodeUnknown | src/mirror/store.ts:175-189 | marks the node's active entries in map order and raises the counter by their number |
| MirrorStore.MirrorStore.MarkTask | src/mirror/store.ts:180-185 | changes one entry exactly if it is active and of the node, and gives it the next version |
| MirrorStore.MirrorStore.Cleanup | src/mirror/store.ts:244-259 | keeps the entries that are not expired, in order, and returns how many went |
| MirrorLaws.MarkNodeLaws | src/mirror/store.ts:175-189 | marking turns all and only the node's non-terminal entries unknown, each with its own fresh version, and raises the counter by their number |
| MirrorLaws.ScanLaws | src/mirror/store.ts:78-96 | after a scan every node is unknown or was seen within its state's threshold; exactly the known and overdue nodes are newly marked, with exactly their non-terminal entries |
| MirrorDetector.ScanByState | src/mirror/store.ts:78-96 | after a scan a node is unknown exactly if it was before or has been silent for longer than the limit of its state, which is one for degraded nodes and another for all others |
| MirrorDetector.LimitsApart | src/mirror/store.ts:85-86 | the limit for degraded nodes does not matter to the others, nor theirs to degraded ones |
| MirrorDetector.ScanOfTasks | src/mirror/store.ts:78-96 | exactly the unfinished entries of newly unknown nodes turn unknown, at the time of the scan |
| MirrorDetector.KnownWhileSeen | src/mirror/store.ts:78-96 | over whole runs: a known node that beats no more stays known exactly as long as every scan comes within the limit of its state after its last heartbeat |
| MirrorDetector.KnownSinceHeartbeat | src/mirror/store.ts:48-96 | and so from the heartbeat in which it said its state |
| MirrorDetector.CountSaturates | src/mirror/store.ts:55-59 | heartbeats in a row are counted up to a hundred |
| MirrorLaws.PushLaws | src/mirror/store.ts:108-169 | a push raises the version counter by exactly its return value and keeps the store valid |
| MirrorDetector.ReportWritten | src/mirror/store.ts:112-166 | what a report writes: the time it is seen, the time it was first seen, the reported fields, and the time of change if one of them is news; no other entry changes |
| MirrorDetector.PushSeesAll | src/mirror/store.ts:112-166 | after a push every reported task is seen now, and was first seen now if it had no entry |
| MirrorLaws.KeptLaws | src/mirror/store.ts:244-259 | cleanup keeps exactly the entries that are not expired |
| MirrorDetector.CleanupByAge | src/mirror/store.ts:244-259 | cleanup removes exactly the finished entries that were not seen for longer than the age |
| MirrorLaws.RunKeepsValid | src/mirror/store.ts:31-34 | after any run from a valid store, the empty one for a start, versions are pairwise distinct and in 1..counter, summaries are short, entries sit under their own keys, and unknown nodes have beaten at most once |
| MirrorLaws.UnknownUntilSecond | src/mirror/store.ts:55-59 | a node just marked stays unknown through whatever happens until its second heartbeat |
| MirrorLaws.RecoversAtSecond | src/mirror/store.ts:55-59 | the second heartbeat after marking makes it known, whatever scans came between |
| MirrorLaws.KeysCollideExactly | src/mirror/store.ts:19-21 | entries of two nodes can share a key exactly if one node id continues the other with a colon |
| MirrorLaws.ColonFreeNotNested | src/mirror/store.ts:19-21 | colon-free node ids never do |
| MirrorLaws.PushLeavesOthers | src/mirror/store.ts:112-166 | a node's push leaves the entries of every node with an unrelated id untouched |
| MirrorLaws.PushesLeaveAloneExactly | src/mirror/store.ts:112-166 | every push of one node from every valid store leaves another node's entries untouched exactly if neither id continues the other with a colon |
| MirrorLaws.HeldPushIsQuiet | src/mirror/store.ts:147-164 | a push counts nothing exactly if the store held every report, and then only touches `lastSeenAt` |
| MirrorLaws.RepushIsQuietExactly | src/mirror/store.ts:147-164 | pushing a batch again counts nothing, and only touches `lastSeenAt`, exactly if the batch does not contradict itself |
| MirrorLaws.DistinctIdsConsistent | src/mirror/store.ts:98-107 | a batch of distinct ids does not |
| Arbitration.Arbiter.DetectConflict | src/comm/arbitration.ts:77-143 | the verdict and the new maps of one event, by kind, with the resolution of a refusal |
| Arbitration.Arbiter.Arbitrate | src/comm/arbitration.ts:54-75 | the maps after all events, the refusals in order, accepts plus refusals equal to the events, and the last sequence number |
| Arbitration.Arbiter.TrackTaskAssignment | src/comm/arbitration.ts:148-150 | overwrites the owner |
| Arbitration.Arbiter.TrackToolExecution | src/comm/arbitration.ts:155-157 | adds the key |
| Arbitration.ReplayedConcat | src/comm/arbitration.ts:54-75 | a batch in two parts ends in the same state with the concatenated conflicts |
| Arbitration.SecondReplay | src/comm/arbitration.ts:77-143 | a second replay leaves the state, whatever the node id, gives assignments the same verdict, refuses keyed calls as executed, and accepts a completion exactly if the batch left the node as owner |
| Arbitration.OwnerIsFirstAssigner | src/comm/arbitration.ts:83-95 | in any interleaving a task's owner is the first node that assigned it |
| Arbitration.VerdictsFollowFirsts | src/comm/arbitration.ts:77-143 | every verdict follows from the submissions alone: first assigner, owner, first use of the key |
| Arbitration.RefusalsFollowFirsts | src/comm/arbitration.ts:98-121 | a completion is behind if nobody has assigned its task, and a duplicate if another node has |
| Arbitration.FieldlessPasses | src/comm/arbitration.ts:79-142 | events without the field they are judged by, and of other kinds, pass and change nothing |
| Arbitration.AssignedByOneNode | src/comm/arbitration.ts:79-96 | all accepted assignments of a task come from one node |
| Arbitration.CompletedAfterAssigned | src/comm/arbitration.ts:98-121 | an accepted completion follows an accepted assignment of the same node |
| Arbitration.KeyAcceptedOnce | src/comm/arbitration.ts:123-137 | an idempotency key is accepted at most once, whoever submits it |
| Arbitration.BatchIsRun | src/comm/arbitration.ts:61-68 | a batch is the run of its events, so the interleaving laws hold of batches |
| Arbitration.OwnsExactlyIfNamed | src/comm/arbitration.ts:83-95 | an assignment keeps other nodes out exactly if the node id is not empty |
| SseStream.SplitJoins | src/orchestration/trilc-executor.ts:94 | the lines joined by line ends give the text, and no line holds one |
| SseStream.JoinSplits | src/orchestration/trilc-executor.ts:94 | and no other list of such lines does |
| SseStream.ChunkStep | src/orchestration/trilc-executor.ts:93-95 | one chunk moves the loop from the lines and rest of the text so far to those of the longer text |
| SseStream.ConsumeChunk | src/orchestration/trilc-executor.ts:93-114 | one pass folds the complete lines of the buffer and keeps the rest |
| SseStream.Consume | src/orchestration/trilc-executor.ts:89-115 | for every way of cutting the text the loop ends as if the whole text had been split once |
| SseStream.Execute | src/orchestration/trilc-executor.ts:81-133 | content, status, error and output depend on the whole text only, and are those of its events |
| SseStream.OutcomeByEvents | src/orchestration/trilc-executor.ts:97-133 | the output is the content of all events of the stream in order, or a set phrase without any; it fails exactly if a complete line reports a failure, with the message of the last such line and the content as partial output |
| SseStream.FinalNewlineMatters | src/orchestration/trilc-executor.ts:117-123 | a final line end changes the result exactly if the last line reports a failure that is news |
| SseStream.UnterminatedFailureSucceeds | src/orchestration/trilc-executor.ts:117-133 | a stream of one unterminated failure is a success, and with a line end a failure |
| BudgetLedger.CostController.EnsureDailyReset | src/orchestration/cost-controller.ts:82-89 | on another day the daily amounts are cleared and the day is noted |
| BudgetLedger.CostController.EnsureMonthlyReset | src/orchestration/cost-controller.ts:91-98 | in another month the monthly amounts are cleared and the month is noted |
| BudgetLedger.CostController.CheckBudget | src/orchestration/cost-controller.ts:126-157 | refreshes, and then names the first exceeded cap of company, employee and single cost; every run the controller followed goes on by the check |
| BudgetLedger.CostController.RecordCost | src/orchestration/cost-controller.ts:162-194 | refreshes, adds the cost to all four amounts, and logs it rounded; every run the controller followed, with its log, goes on by the record |
| BudgetLedger.CostController.GetBudgetState | src/orchestration/cost-controller.ts:199-210 | the refreshed amounts; every run the controller followed goes on by the reading |
| BudgetLedger.EstimateIsExact | src/orchestration/cost-controller.ts:105-120 | rounding never changes an estimate |
| BudgetLedger.EstimateByTier | src/orchestration/cost-controller.ts:72-120 | what a task of n outputs is estimated to cost, by the tier of the employee |
| BudgetLedger.VerdictBySpend | src/orchestration/cost-controller.ts:126-157 | after any run: the verdict of a check in terms of what was spent today and the amounts of the three caps |
| BudgetLedger.RunBalanced | src/orchestration/cost-controller.ts:162-182 | after any run company use is the sum over employees, and daily use never exceeds monthly use |
| BudgetLedger.UseIsSpend | src/orchestration/cost-controller.ts:82-98 | each amount is what was recorded since its last reset: nothing is lost or counted twice |
| BudgetLedger.SpendSinceIsSpendIn | src/orchestration/cost-controller.ts:82-98 | with a clock that shows no past period again, it is all that was ever recorded in the period |
| BudgetCaps.UseGrowsByRecords | src/orchestration/cost-controller.ts:82-98 | between two moments of a run daily use grows by at most what is recorded, whatever resets lie between |
| BudgetCaps.BackedRunKeepsCaps | src/orchestration/cost-controller.ts:134-146 | if each record has an earlier approval that covers it and still fits with what was recorded since, the daily caps are never exceeded, even across resets |
| BudgetCaps.CheckedRunKeepsCaps | src/orchestration/cost-controller.ts:134-146 | in particular if each record has an earlier covering approval with no other record between, whatever checks and readings lie between |
| BudgetCaps.RecordsAddUp | src/orchestration/cost-controller.ts:162-182 | after any run, any operations of one day keep the caps exactly if the use at its begin and all they record fit, for the company and each employee |
| BudgetOpen.OpenApprovalsAddUp | src/orchestration/cost-controller.ts:126-182 | the amounts of any checks of any employees, approved or not, keep the caps when recorded on one day exactly if their sum fits on top of the company's use and each employee's sum on top of the employee's |
| BudgetOpen.OpenApprovalsBound | src/orchestration/cost-controller.ts:134-146 | recording any number of approvals with nothing recorded since adds to the use of the company, and of each employee, at most that number times what was left of the cap, even across a reset |
| BudgetOpen.BoundReached | src/orchestration/cost-controller.ts:126-157 | for every number of open approvals a properly checked run reaches both bounds |
| BudgetOpen.OpenApprovalsExactly | src/orchestration/cost-controller.ts:126-157 | after covered runs, up to n approvals with nothing recorded since always keep the company's cap exactly if n is at most one, and likewise those of an employee the employee's |
| BudgetOpen.ConcurrentApprovalsOvershoot | src/orchestration/cost-controller.ts:126-157 | two checks before two records can break the employee's cap |
| BudgetMonths.MonthlyUseNeverChecked | src/orchestration/cost-controller.ts:134-146 | on a new day of a month the full daily allowance is approved whatever the month has seen |
| BudgetMonths.MonthlyUseBound | src/orchestration/cost-controller.ts:51-54 | in a covered run monthly use is at most the daily cap for each day with a record, of an employee and of the company |
| BudgetMonths.SpreeBreaksCaps | src/orchestration/cost-controller.ts:51-54 | runs in which every record follows its own approval, on a clock that shows the days of a month in order: an employee who spends the daily cap passes the monthly one exactly from the sixth day, a team of five that of the company exactly from the eleventh |
| BudgetMonths.MonthlyCapsExactly | src/orchestration/cost-controller.ts:51-54 | the monthly cap of an employee holds of all covered runs with records on at most n days exactly if n is at most five, that of the company exactly if n is at most ten |
| BudgetLedger.LogDrift | src/orchestration/cost-controller.ts:184-192 | for every period, and the company or an employee, the sum over the log and what was recorded differ by at most half a thousandth of a dollar for each log entry concerned |
| BudgetLedger.LedgerLogDrift | src/orchestration/cost-controller.ts:173-192 | so each of the four amounts is that close to what the log says of the current day or month |

## Left out

- WeekMath.IsoWeekOf: does not model that `new Date` reads the years 0 to 99 as 1900 to 1999; dates are local midnights without daylight saving, so a difference of two of them is a whole number of days.
- WeekMath.FormatDate: prints years without padding, as the source does; negative years get a plain minus sign.
- CanonicalText.CanonicalTextIdentifies: a finite number is its shortest decimal text, so printing a double is not modelled, and -0 is 0, as in the printed text.
- JsonReader.CanonicalTextReads: the reader knows no white space between tokens, and takes a number for its shortest decimal text.
- ContentHash.HashInputIdentifies: stops at the hashed text; SHA-256 is a function about which nothing is assumed.
- DecisionPipeline.Decide: the safety check is a bit of the call, the arguments are their JSON text, and the path normalisation of `checkAcceptEdits` is absent because both of its branches allow; reasons are modelled where they quote a rule, those of the safety check, the modes and the default are not.
- RuleParser.ParseRule: the alias table has its own keys only, not those of `Object.prototype`.
- PermissionEngine.Engine.Decide: `decideAll`, `summarize`, `getRules`, `setCwd` and the aliasing of an array passed to the constructor are absent.
- SyncBundle.ValidateSyncBundle: messages are absent; member order is the enumeration order of the object, and `Date.parse` is a function about which nothing is assumed.
- ConfigApply.ConfigSync.RunConfigSyncApply: reading and writing are atomic, so crashes between the files and failing writes are absent; the reading of the manifest is the state itself; git, the environment and the clock are inputs; detail texts are absent.
- ConfigState.ConvergesExactly: takes for granted that an id names one bundle, which only the sender can see to; a second bundle under the applied id is a no-op.
- ReadCache.TimelyExactly: a `stat` or a read sees one state of the file, so torn reads are absent; `resolveDefaultModel`, `resolveFlashModel` and the status payload are absent.
- Timeline.EventStore.QueryBySession: `localeCompare` is any total preorder of strings, and a limit is an integer or not one; the replay-state map is absent.
- TimelineWalk.WalkReturnsAllPresent: takes distinct event ids in the session for granted; the SQL stores, whose cursor predicate differs from their order, are absent.
- MirrorStore.MirrorStore.MirrorTasks: `query`, `getActiveByNode`, `getTask` and the live references they return are absent; a `lastSeenAt` keeps its epoch milliseconds beside its text.
- Arbitration.Arbiter.Arbitrate: reason texts, the unused `merged` resolution and the unused version map are absent.
- SseStream.Execute: HTTP, the time-out and the result callback are absent; the decoder is never flushed by the source, so an incomplete last character is simply missing from the text; event fields are strings where present.
- BudgetLedger.CostController.CheckBudget: amounts are real numbers, the clock is read once a call, and reason texts are absent; `getModelTierPolicy` and `resetBudget` are absent, the latter being what the constructor does.
- The HTTP server, the command line, the session bridge, process spawning and the git runner: input and output.
- The cron service and the agent loop: thin layers over `@tricompany/agent-core`, which is not part of this model.
- Task controller, employee scheduler, capability router, dispatch proxy, policy gate and tool gater: small tables and one-pass filters.
- Prompt assembly, soul loader, memory injector, built-in tools and reports: string building.
