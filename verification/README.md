# rsproxy, verified

A Dafny model of the parts of rsproxy that decide things, with proofs about every
request, every rule list and every run. `dafny verify dfyconfig.toml` checks the
whole project.

The largest part is the rule engine. A `RuleSet` files its rules in an index, picks
candidate rules for a request, and folds over them: important rules first, then by
position, one action per single family, and `skip` suppressing families. Five static
analyses make promises about all requests: the index never loses a matching rule,
body planning says when the request body may be streamed past, shadow lint says a
rule can never win, semantic lint says conditions can never hold, and migration
rewrites old spellings of calls while preserving regular expressions and quoted values,
and changes nothing when it is repeated. Each promise is a theorem here, or a theorem with
the exact condition under which it is true.

The other parts are the two HTTP head readers, the control protocol with its bearer
token, the trace spill log, keyed pool admission, bounded body collection, the
certificate cache, and the quoting of the startup command.

## How the model is laid out

| file | models |
|---|---|
| `Text`, `Search`, `Tokens`, `Bytes`, `Utf8` | text, numbers, words and UTF-8 as the other modules need them |
| `Actions`, `Model` | action families, rules, conditions, requests, results |
| `Glob`, `RegexLiteral`, `Matching`, `HostPatterns`, `Url` | matching and URL parsing |
| `Compiled`, `Index`, `Indices`, `CheckedPatterns` | compiled resources, the index, and which accepted rules can be compiled |
| `Resolution`, `RuleOrder`, `Turns`, `Resolver` | the fold and its meaning, the order of rules, what one turn adds, the resolver |
| `BodyPlanning`, `PlannedBody` | the body decision, and how it is computed |
| `Effects`, `Subsumption`, `ShadowReport`, `ShadowLint` | shadow lint: effective actions, covering matchers, the report, and what it means |
| `ShadowExactness`, `WrongFinding` | when a finding of shadow lint is true, and one that is not |
| `SemanticLint`, `ActionLint` | conditions that cannot hold, actions after `skip`, and families used twice |
| `Spelling`, `Migration`, `RegexMigration` | canonical names, the line rewriter, and what it leaves alone |
| `HeadReader`, `BodyReader`, `RequestReader` | reading heads, bodies and whole requests from a stream |
| `ControlProtocol`, `ControlRoundTrip`, `ChunkRoundTrip` | control requests and authorization, and what was sent is what is read |
| `SpillFiles`, `SpillLog`, `SpillRun` | spill files, the log over them, and what is read back after runs and failures |
| `Laws` | the laws asked of libraries can be met together |
| `PoolAdmission`, `BoundedBody`, `CertCache`, `StartupQuoting` | the remaining parts |

What the program takes from libraries and from its surroundings is a parameter. The
record `World` holds regular-expression search, multi-literal scanning, which sets of
literals a scanner can be built for, URL parsing, lossy decoding, environment variables,
socket-address parsing and the sampling hash.
Its laws are that a match of a parsed regular expression is a match of its syntax
tree, that a scan reports exactly the literals that occur, and that a parsed socket
address contains no glob syntax. The environment and the hash do not change during
one resolution. The spill log takes compression and the checksum as a `Codec` whose
decompression undoes compression and whose frames are never empty. `Laws` builds a
world and a codec that meet these laws. I/O failures are parameters too.

Results worth knowing before reading the proofs:

- Migration is meant to preserve regular expressions and quoted values. A quoted value
  is copied wherever the rewriter reaches it outside other quotes
  (`QuotedValueIsCopied`). A regular expression may be rewritten: migration looks for a
  slash with a boundary behind it, while the rule parser ends the literal at the last
  unescaped slash and allows flags. `/ip(x)/i host(y)` becomes `/client.ip(...`
  (`FlaggedRegexIsRewritten`). In `a.test redirect(/a) mapRemote(b/)` a call is taken
  for part of a regular expression, and the alias `mapRemote` stays
  (`AliasBetweenSlashesStays`). `RegexIsOneToken` gives the condition: a regular
  expression that the parser reads, with a boundary behind it, is read as one if and
  only if it has no flags, leaves no class open, and holds no slash that looks like its
  end. Values without quotes are rewritten too: `mock(ip(1))` becomes
  `mock(client.ip(...` (`UnquotedValueIsRewritten`). A line stays as it is if and only
  if none of the rewriter's own call tokens is an alias (`UnchangedExactly`).
- Shadow lint claims that a rule covered by an earlier one can never win. That is
  false when the earlier glob has a query pattern and the later exact URL names no
  query, because an exact URL without a query matches any query. `WrongFinding`
  holds such rules: `a.test?* host(x)` above `=http://a.test/ host(y)` is reported, and
  a request for `http://a.test/?&` goes to `y`. `FindingIsExact` gives the condition:
  for an unconditional later rule, the claim is true of the two rules if and only if
  the glob has no query part, the exact URL names its query, or the query pattern is
  made of at least two stars and nothing else.
- The lint for actions after `skip` says such an action is suppressed. Below a rule
  with `skip(skip)` it is not: `SuppressedSkipMisleadsLint` has two rules for which the
  lint calls an action suppressed that every matching request is resolved to.
  `SuppressionIsExact` gives the condition over all runs: the action is suppressed if
  and only if no rule before it has output a `skip` that covers `skip`, or one has
  output a `skip` that covers the action's family. Without running anything, the lint can
  be trusted when no enabled rule before has a `skip` that covers `skip`
  (`ReportedActionIsSuppressed`).
- Building a snapshot expects that every pattern the parser accepted compiles, and that
  a scanner can be built for the body literals. `Resolver.Snapshot` panics if and only if
  one of the two fails. The parser checks patterns as written, and address patterns are
  stripped of brackets before they are compiled. The pattern `a\]` is accepted, becomes
  `a\`, and makes the build panic (`QuotedBracketPanics`). `CheckedSnapshotCompiles`
  gives the condition: the patterns of accepted rules compile if and only if no address
  glob has a backslash that quotes a bracket at its end, and all programs fit the limit.
- A spill segment found without an index file is read as it is. The first record
  appended to it creates an index, and what the segment held before is no longer read
  (`AppendHidesUnindexed`).
- In a run that starts with an empty directory and whose writes succeed, exactly the live
  records are read back (`SpillRun.AppendAll`). After a failed write they need not be: if
  the data file of a new segment cannot be created, every snapshot fails as long as the
  segment is listed without one (`UnopenedSegmentFailsSnapshots`). If a data write to an
  uncompressed segment breaks off, the next record's offset is right if and only if the
  failed write left nothing behind; otherwise the record is lost, unless what was left is
  that very record (`RecordAfterTornWrite`).
- A startup entry is read back if and only if no argument has a line feed
  (`DesktopEntryRoundTrip`).
- When a body overflows its bound, trailers that came before the frame that overflows
  are in neither the prefix nor the rest (`OverflowConserves`).
- The emptiness test for method conditions compares names exactly while matching
  ignores case. It is exact because the parser stores names in upper case;
  `MixedCaseDefeatsMethodTest` shows what happens otherwise.
- Body planning is safe because the parser never produces a `delete` without
  operations; `EmptyDeleteBreaksPlanning` shows that it would not be otherwise.

## Model

| member | source | states |
|---|---|---|
| `Actions.AfterSkipCovers` | crates/rsproxy-rules/src/family.rs:25-40 | After an action is observed, a family is suppressed exactly when it was before or the action is a `skip` that covers it |
| `Actions.SkipState.Observe` | crates/rsproxy-rules/src/family.rs:30-40 | The suppressed set grows by exactly the families the observed `skip` covers |
| `Actions.WithoutBodyDeletes` | crates/rsproxy-rules/src/resolution_api.rs:98-119 | Exactly the deletions that do not touch the request body remain, and all of them when none does |
| `Glob.CaptureIsComplete` | crates/rsproxy-rules/src/matching.rs:244-260 | Captures exist exactly for accepted texts, one per wildcard, and filling the wildcards with them gives the text back |
| `Glob.CompileSource` | crates/rsproxy-rules/src/matching.rs:262-308 | The loop emits the regular-expression source of the pattern, or fails |
| `Glob.BodyReadsBack` | crates/rsproxy-rules/src/matching.rs:262-308 | Emission fails only on a dangling escape, and read as a regular expression the source is the intended program, so escaping is right |
| `Glob.RunIsCapture` | crates/rsproxy-rules/src/matching.rs:262-308 | Running the program with lazy repetitions gives the captures of the direct matcher, cut to nine |
| `Glob.GroupsOfItems` | crates/rsproxy-rules/src/matching.rs:262-308 | The program has as many groups as the pattern has wildcards, but at most nine |
| `Glob.CompilationPreservesMeaning` | crates/rsproxy-rules/src/matching.rs:262-308 | For every pattern, separator and text: compilation fails exactly on a dangling escape; otherwise the compiled program accepts what the recursive glob matcher accepts, with the same captures |
| `Glob.AcceptsEverythingIsExact` | crates/rsproxy-rules/src/matching.rs:262-308 | A pattern accepts every text exactly when it consists of at least two stars; otherwise one of three short texts is refused |
| `RegexLiteral.SpanContainsLiteral` | crates/rsproxy-rules/src/index.rs:366-390 | Every span a syntax tree matches contains the literal extracted from the tree |
| `RegexLiteral.RequiredLiteralOccurs` | crates/rsproxy-rules/src/index.rs:363-391 | Every text a case-sensitive regular expression matches contains its required literal |
| `RegexLiteral.LongestOfIsLongest` | crates/rsproxy-rules/src/index.rs:366-390 | Of a concatenation's parts the literal with the most bytes is taken |
| `Matching.HoldsIgnoresUnused` | crates/rsproxy-rules/src/planning.rs:19-83 | A condition is judged the same for all bodies and responses it does not depend on |
| `HostPatterns.OneLabelMeaning` | crates/rsproxy-rules/src/matching.rs:144-147 | A pattern with one wildcard label matches exactly the hosts with one non-empty label in front of the rest, which is compared as written |
| `HostPatterns.OneLabelIsGlob` | crates/rsproxy-rules/src/matching.rs:134-154 | The direct test for such a pattern agrees with the glob matcher except where the label would be empty |
| `HostPatterns.AnyLabelsAreGlob` | crates/rsproxy-rules/src/matching.rs:134-154 | The direct test for any number of labels is the glob matcher, and the base itself besides |
| `Compiled.RunIdIsMatch` | crates/rsproxy-rules/src/matching.rs:105-127 | Looking a registered pattern's program up by id and running it is matching the pattern |
| `Compiled.Register` | crates/rsproxy-rules/src/matching.rs:30-43 | Registration panics exactly if the pattern does not compile; otherwise the pattern has a program of its own and no other pattern loses its |
| `Compiled.BuildGlobSet` | crates/rsproxy-rules/src/matching.rs:15-86 | The build panics exactly if a pattern of some rule does not compile; otherwise every pattern of every rule has a sound program |
| `CheckedPatterns.DanglingIsOddTail` | crates/rsproxy-rules/src/matching.rs:262-308 | A backslash is left without a character to quote exactly after an odd number of backslashes at the end |
| `CheckedPatterns.CheckedRuleTranslates` | crates/rsproxy-rules/src/matching.rs:45-86 | For every rule that passes the parser's checks, all patterns to be compiled have programs if and only if no address glob has a backslash that quotes a bracket at its end; lower-casing host patterns does no harm |
| `CheckedPatterns.CheckedSnapshotCompiles` | crates/rsproxy-rules/src/matching.rs:15-86 | For every list of accepted rules, compiling their patterns panics if and only if there is such an address glob or a program over the size limit |
| `CheckedPatterns.QuotedBracketPanics` | crates/rsproxy-rules/src/parser/conditions.rs:169-191 | A rule with the address pattern `a\]` passes the parser's checks, and its snapshot cannot be built |
| `Compiled.FromLiterals` | crates/rsproxy-rules/src/index.rs:131-166 | Numbering panics exactly if there are literals and no scanner can be built for their lower-case forms; otherwise every source literal has the id of its lower-case form, the forms are distinct, and none is superfluous |
| `Compiled.Scan` | crates/rsproxy-rules/src/index.rs:180-197 | With the early exit, the flags set are exactly those of literals that occur ignoring ASCII case |
| `Compiled.ScanAgreesWithSearch` | crates/rsproxy-rules/src/index.rs:112-197 | Looking a literal's id up in a scan is true exactly when the literal occurs in the text ignoring ASCII case |
| `Compiled.HostMatchesIdIsDirect` | crates/rsproxy-rules/src/matching.rs:134-154 | Host matching by bound id is host matching by pattern |
| `Compiled.GlobMatchCompiledIsDirect` | crates/rsproxy-rules/src/matcher/pattern.rs:38-86 | A glob matcher evaluated by ids gives the result and captures of the patterns |
| `Compiled.MatchCompiledIsDirect` | crates/rsproxy-rules/src/matcher/pattern.rs:12-36 | The same for every matcher, negations included |
| `Compiled.AnyIpMatchesIdIsDirect` | crates/rsproxy-rules/src/matching.rs:161-172 | Address conditions evaluated by ids mean what their patterns mean, trimming and socket addresses included |
| `Compiled.HoldsCompiledIsDirect` | crates/rsproxy-rules/src/matcher/condition.rs:135-237 | Every condition tree evaluated with bound ids and one body scan holds exactly when it holds |
| `Index.HostSuffixes` | crates/rsproxy-rules/src/index.rs:339-353 | The loop lists the host and what follows each of its dots |
| `Index.SuffixIsListed` | crates/rsproxy-rules/src/index.rs:339-353 | What follows any dot of a host is listed |
| `Index.FileRules` | crates/rsproxy-rules/src/index.rs:8-68 | Every rule is filed in the place its matcher calls for, and only rules of the snapshot are filed |
| `Index.BuildCandidates` | crates/rsproxy-rules/src/index.rs:8-68 | Buckets, suffixes, fallback list and literal prefilter together file every rule |
| `Index.BuildIndex` | crates/rsproxy-rules/src/index.rs:8-68 | Building panics exactly if a pattern does not compile or no scanner can be built for the body literals; otherwise the index files every rule, and every rule has its ids bound |
| `Index.ExtendUnique` | crates/rsproxy-rules/src/index.rs:355-361 | Exactly the new values are added, without repeats |
| `Index.PrefilterMatches` | crates/rsproxy-rules/src/index.rs:70-89 | With the early exit, every rule whose literal occurs in the URL is returned |
| `Index.CandidateRuleIndices` | crates/rsproxy-rules/src/resolve.rs:415-444 | The candidates are distinct rules and include every rule that the request reaches in the index, or all rules for an unparsable URL |
| `Index.HostMatchIsReached` | crates/rsproxy-rules/src/index.rs:307-353 | A host that a glob's host pattern matches reaches the place where the rule is filed |
| `Index.MatchingRuleIsReached` | crates/rsproxy-rules/src/index.rs:294-391 | Every rule whose matcher matches a URL is reached by that URL |
| `Resolution.TakeAllMonotone` | crates/rsproxy-rules/src/resolve.rs:381-406 | Along a run of the fold output, claimed families and suppressed families only grow |
| `Resolution.FoldMeaning` | crates/rsproxy-rules/src/resolve.rs:330-412 | At every point of every run: the output is the actions not covered by an earlier output `skip` and, if single, first of their family; the bookkeeping sets are what they should be |
| `Resolution.ResolutionMeaning` | crates/rsproxy-rules/src/resolve.rs:330-412 | The same for the result of resolution, and `matched_rules` is the list of first contributions |
| `Resolution.KeptActionsAreOrdered` | crates/rsproxy-rules/src/resolve.rs:381-406 | The output is a subsequence of what the rules offer, in order |
| `Resolution.OutputIsConsistent` | crates/rsproxy-rules/src/resolve.rs:381-406 | No output action is covered by an earlier output `skip`, and no single family comes twice |
| `Resolution.FirstUsesAreTheRules` | crates/rsproxy-rules/src/resolve.rs:381-412 | When group and line identify a rule, the contributing rules are listed, exactly those, once each |
| `Resolver.Snapshot` | crates/rsproxy-rules/src/index.rs:8-68 | Exactly the rule lists whose patterns compile and whose body literals have a scanner have a snapshot, and it is valid for resolution |
| `RuleOrder.OrderIsUnique` | crates/rsproxy-rules/src/resolve.rs:324-328 | Important first, then by index, orders any set of rules in exactly one way |
| `Resolver.CandidatesSuffice` | crates/rsproxy-rules/src/resolve.rs:303-443 | Folding over the sorted candidates offers exactly what folding over all rules offers |
| `Resolver.AppliesCompiledIsDirect` | crates/rsproxy-rules/src/resolve.rs:330-374 | Whether a rule applies, and with which captures, is the same by ids and by patterns |
| `Resolver.TakeActions` | crates/rsproxy-rules/src/resolve.rs:381-406 | The inner loop, which updates five collections in place, is the fold over the rule's actions |
| `Resolver.ResolveInOrder` | crates/rsproxy-rules/src/resolve.rs:330-412 | The outer loop is the fold over the rules in turn |
| `Resolver.ResolveInner` | crates/rsproxy-rules/src/resolve.rs:303-443 | For every snapshot, request, response and body mode, indexed resolution equals the linear fold over all rules in order |
| `Url.QueryExtends` | crates/rsproxy-rules/src/matcher/url.rs:24-87 | Adding a query to a URL that has none changes its query and nothing else |
| `BodyPlanning.HoldsMayMatch` | crates/rsproxy-rules/src/planning.rs:30-70 | A condition that holds under some body and response passes the test made before the body is read |
| `BodyPlanning.MayMatchIgnoresBody` | crates/rsproxy-rules/src/planning.rs:30-70 | That test does not depend on the body |
| `PlannedBody.PlanRequestBody` | crates/rsproxy-rules/src/resolution_api.rs:36-85 | The decision taken over candidates and bound ids is the one over all rules and patterns |
| `BodyPlanning.DecisionIgnoresBody` | crates/rsproxy-rules/src/resolution_api.rs:36-85 | The decision can be taken without the body |
| `BodyPlanning.PlanningIsSafe` | crates/rsproxy-rules/src/resolution_api.rs:36-119 | When the body is not required, resolution without it equals resolution with it, for every body and every optional response |
| `BodyPlanning.EmptyDeleteBreaksPlanning` | crates/rsproxy-rules/src/resolution_api.rs:87-119 | With an empty deletion, which the parser excludes, the two would differ |
| `Effects.EffectiveActions` | crates/rsproxy-rules/src/family.rs:43-54 | The loop lists the actions of a rule not suppressed by its own earlier `skip` |
| `Subsumption.HostSubsumptionIsSound` | crates/rsproxy-rules/src/lint.rs:212-227 | A host matched by the narrower pattern is matched by the one said to subsume it |
| `Subsumption.SubsumptionIsSound` | crates/rsproxy-rules/src/lint.rs:188-227 | Every URL the later matcher matches is matched by the earlier one, when the query is covered |
| `Subsumption.UncoveredQueryEscapes` | crates/rsproxy-rules/src/matching.rs:212-222 | When the query is not covered, a URL is matched by the later rule and not by the earlier one |
| `Subsumption.SubsumptionIsExact` | crates/rsproxy-rules/src/lint.rs:188-210 | Where the lint claims subsumption, the claim is true of all URLs if and only if the query is covered |
| `Subsumption.ParserExtendsQueries` | crates/rsproxy-rules/src/matcher/url.rs:24-87 | The URL parser meets what the previous row assumes of it |
| `ShadowLint.Prepare` | crates/rsproxy-rules/src/lint.rs:54-69 | The comparison sees exactly the enabled rules, in resolution order, with the single families of each |
| `ShadowReport.LintRule` | crates/rsproxy-rules/src/lint.rs:75-136 | The inner loop adds this rule's findings in order, or stops because the next comparison or finding is over a budget |
| `ShadowReport.LintReport` | crates/rsproxy-rules/src/lint.rs:53-145 | A complete report has all findings; an incomplete one has a prefix of them and names a budget that the next step exceeds |
| `ShadowReport.ReportIsExact` | crates/rsproxy-rules/src/lint.rs:75-136 | A family of a rule is reported exactly when some earlier rule that covers it has that family |
| `ShadowLint.FindingsAreShadows` | crates/rsproxy-rules/src/lint.rs:53-145 | Every finding is about an enabled rule, an earlier unconditional one that covers it, and families both effectively have |
| `ShadowLint.ShadowedRuleAddsNothing` | crates/rsproxy-rules/src/lint.rs:53-227 | In every run of the fold, the shadowed rule's turn outputs no action of a reported family, whatever earlier rules skip |
| `ShadowLint.ShadowedRuleNeverWins` | crates/rsproxy-rules/src/lint.rs:53-227 | If the query is covered, no resolution result holds an action of a reported family from the shadowed rule |
| `ShadowExactness.AloneOutputsSingles` | crates/rsproxy-rules/src/family.rs:43-54 | With nothing before it, a rule that applies outputs an action of each single family the lint lists for it |
| `ShadowExactness.UncoveredFindingIsWrong` | crates/rsproxy-rules/src/lint.rs:53-227 | For every pair of rules with an uncovered query whose later rule has no conditions, some request makes the later rule win each reported family |
| `ShadowExactness.FindingIsExact` | crates/rsproxy-rules/src/lint.rs:53-227 | For every such pair, the finding is true of all requests, responses and bodies if and only if the query is covered |
| `WrongFinding.FindingIsReported` | crates/rsproxy-rules/src/lint.rs:53-145 | For every plain host, the lint reports `=http://host/ host(y)` below `host?* host(x)` |
| `WrongFinding.FindingIsRefuted` | crates/rsproxy-rules/src/resolve.rs:303-443 | Every request for `http://host/?&` is resolved to an action of the rule reported as never winning |
| `SemanticLint.ConstantTruthIsSound` | crates/rsproxy-rules/src/semantic_lint.rs:343-390 | A condition found false never holds; one found true holds whenever a response is present or it does not depend on one |
| `SemanticLint.FlattenAllHolds` | crates/rsproxy-rules/src/semantic_lint/sets.rs:3-11 | Flattening nested conjunctions keeps their meaning |
| `SemanticLint.NoValueLeftIsExact` | crates/rsproxy-rules/src/semantic_lint/sets.rs:13-37 | The intersection test finds no value exactly when there are positive lists and no value is in all of them and outside all forbidden ones |
| `SemanticLint.MethodTestIsExact` | crates/rsproxy-rules/src/semantic_lint.rs:392-411 | Method conditions are reported empty exactly when they name methods and leave none possible |
| `SemanticLint.MixedCaseDefeatsMethodTest` | crates/rsproxy-rules/src/semantic_lint.rs:392-411 | With `GET` and `get` as names the test would report conditions that a request meets |
| `SemanticLint.StatusTestIsExact` | crates/rsproxy-rules/src/semantic_lint.rs:413-431 | Status conditions are reported empty exactly when they name statuses and leave none possible |
| `SemanticLint.EnvironmentContradiction` | crates/rsproxy-rules/src/semantic_lint.rs:433-486 | The loop finds a contradiction exactly when no environment meets all the environment conditions |
| `SemanticLint.UnsatisfiableConditions` | crates/rsproxy-rules/src/semantic_lint.rs:316-340 | When a conflict is reported, no request, response and environment meets the conditions; when none is, each single test left a value |
| `SemanticLint.RequiresResponseIsSound` | crates/rsproxy-rules/src/semantic_lint.rs:227-237 | A condition said to need a response never holds without one |
| `ActionLint.ActionsAfterSkip` | crates/rsproxy-rules/src/semantic_lint.rs:239-250 | The loop lists exactly the families with an action behind the rule's own covering `skip` |
| `ActionLint.OwnSkipsInARun` | crates/rsproxy-rules/src/semantic_lint.rs:239-250 | In a run, a rule's own `skip` actions take effect exactly when `skip` was not suppressed before |
| `ActionLint.SuppressionIsExact` | crates/rsproxy-rules/src/semantic_lint.rs:239-250 | In every run, an action behind its rule's own `skip` is suppressed if and only if no rule before it has output a `skip` that covers `skip`, or one has output a `skip` that covers the action |
| `ActionLint.ReportedActionIsSuppressed` | crates/rsproxy-rules/src/semantic_lint.rs:239-250 | An action that the lint reports is suppressed for every request if no enabled rule that comes before has a `skip` that covers `skip` |
| `ActionLint.SuppressedSkipMisleadsLint` | crates/rsproxy-rules/src/semantic_lint.rs:239-250 | Below `skip(skip)`, the action of `skip(host) host(x)` is reported as suppressed and every matching request is resolved to it |
| `ActionLint.DuplicateSingleFamilies` | crates/rsproxy-rules/src/semantic_lint.rs:202-211 | The loop lists exactly the single families used more than once |
| `ActionLint.EffectiveRepeats` | crates/rsproxy-rules/src/semantic_lint.rs:202-211 | A family repeated among the effective actions is repeated in the rule |
| `ActionLint.RepeatedActionIsRedundant` | crates/rsproxy-rules/src/semantic_lint.rs:86-98 | Taking an action out that repeats a single family of its rule changes the resolution of no request, in any list of rules |
| `Spelling.LookupIsStable` | crates/rsproxy-rules/src/language.rs:343-348 | Looking a canonical spelling up in a table gives it back |
| `Spelling.CanonicalCallNameIsStable` | crates/rsproxy-rules/src/language.rs:185-321 | Over the real tables, the canonical form of a canonical form is itself, although actions are looked up before conditions |
| `Migration.RegexEndAtBoundary` | crates/rsproxy-rules/src/migration.rs:159-190 | The scanning loop finds the first unescaped slash outside a class that ends at a boundary |
| `Migration.LexIsLossless` | crates/rsproxy-rules/src/migration.rs:60-149 | Cutting a line into tokens loses nothing |
| `Migration.CanonicalizeCallNames` | crates/rsproxy-rules/src/migration.rs:60-149 | The index-driven loop with its quote and escape flags rewrites call names token by token |
| `Migration.MigrateLine` | crates/rsproxy-rules/src/migration.rs:60-149 | The rewriting with the language's own spellings |
| `Migration.NoEndAfterRewriting` | crates/rsproxy-rules/src/migration.rs:151-190 | Rewriting the text ahead never creates a regular expression where the scan saw none |
| `Migration.RereadingIsCanonical` | crates/rsproxy-rules/src/migration.rs:60-190 | Reading a rewritten line again gives the same tokens with canonical call names |
| `Migration.RewritingIsIdempotent` | crates/rsproxy-rules/src/migration.rs:60-190 | Rewriting twice is rewriting once, for every line and every stable spelling of names |
| `Migration.MigrationIsIdempotent` | crates/rsproxy-rules/src/migration.rs:60-190 | The same for the language's own spellings: for every line, also one whose regular expressions are misread, migrating twice is migrating once, token for token |
| `Migration.OnlyCallNamesChange` | crates/rsproxy-rules/src/migration.rs:60-149 | Token by token, the migrated line is the source except for the names of call tokens; which text is a call token is said by the rows of `RegexMigration` |
| `RegexMigration.RegexEndIs` | crates/rsproxy-rules/src/migration.rs:159-190 | The scan stops at a place exactly if an unescaped slash outside a class with a boundary behind it is there and none is before |
| `RegexMigration.LiteralIsOneToken` | crates/rsproxy-rules/src/migration.rs:151-190 | For every body and whatever follows: `/body/` is read as one regular expression if and only if a boundary follows, the body leaves no class open and no slash inside it looks like the end |
| `RegexMigration.RegexLiteralEnd` | crates/rsproxy-rules/src/parser/transforms.rs:132-149 | The rule parser ends a literal at the last unescaped slash, inside a class or not, and finds none exactly if there is none |
| `RegexMigration.RegexIsOneToken` | crates/rsproxy-rules/src/parser/matcher.rs:193-218 | Every regular expression that the parser reads, with a boundary behind it, is read as one by migration if and only if it has no flags, leaves no class open and holds no slash that looks like its end |
| `RegexMigration.RegexIsCopied` | crates/rsproxy-rules/src/migration.rs:75-120 | A regular expression that is read as one is copied, and the rest of the line is rewritten behind it |
| `RegexMigration.QuotedValueIsCopied` | crates/rsproxy-rules/src/migration.rs:83-107 | A quoted value that is reached outside quotes, escapes and other quotes in it included, is copied, and the rest of the line is rewritten behind it |
| `RegexMigration.UnchangedExactly` | crates/rsproxy-rules/src/migration.rs:60-190 | A line is left as it is if and only if no call token in it is an alias |
| `RegexMigration.UnendedRegexIsRewritten` | crates/rsproxy-rules/src/migration.rs:112-146 | When the scan finds no end for a regular expression at the start of a line, a call name that the expression begins with is rewritten |
| `RegexMigration.ArgumentIsRewritten` | crates/rsproxy-rules/src/migration.rs:121-146 | A call name at the start of an argument without quotes is rewritten like the call itself |
| `RegexMigration.FlaggedRegexIsRewritten` | crates/rsproxy-rules/src/migration.rs:112-190 | `/ip(x)/i` is a regular expression for the parser, and migrating `/ip(x)/i host(y)` gives a line that begins with `/client.ip(` |
| `RegexMigration.AliasBetweenSlashesStays` | crates/rsproxy-rules/src/migration.rs:112-190 | `a.test redirect(/a) mapRemote(b/)` is left as it is, although `mapRemote` is an alias |
| `RegexMigration.UnquotedValueIsRewritten` | crates/rsproxy-rules/src/migration.rs:121-146 | Migrating `mock(ip(1))` gives a line that begins with `mock(client.ip(` |
| `HeadReader.HeadIsWhatPrecedesFirstTerminator` | crates/rsproxy-net/src/http.rs:134-165 | A head is read exactly when it is followed by the first empty line of the stream and fits the limit |
| `HeadReader.ReadHead` | crates/rsproxy-net/src/http.rs:134-165 | Reading byte by byte gives the outcome determined by the stream, its end and the limit, and stops right after the terminator |
| `HeadReader.PrefixStep` | crates/rsproxy-net/src/http.rs:103-115 | How a terminator prefix that ends the text grows with the next byte |
| `HeadReader.Advance` | crates/rsproxy-net/src/http.rs:103-115 | The automaton keeps the longest terminator prefix that is a suffix of what was read |
| `HeadReader.ReadHeadBuffered` | crates/rsproxy-net/src/http.rs:79-132 | For every split into buffer fills, the same outcome and the same place in the stream as the simple reader |
| `Utf8.DecodeIsExact` | crates/rsproxy-control/src/server/http.rs:24-25 | The bytes that decode are exactly the encodings, each to its own text |
| `BodyReader.ReadExactBody` | crates/rsproxy-control/src/server/http.rs:191-218 | Under any pattern of short reads, exactly the wanted bytes are taken, or the stream was too short |
| `BodyReader.ReadCrlfLine` | crates/rsproxy-control/src/server/http.rs:277-292 | Reading byte by byte gives the text before the first line end, if it ends within the limit and is UTF-8, and stops right after it |
| `BodyReader.ReadChunks` | crates/rsproxy-control/src/server/http.rs:226-254 | The loop reads the body determined by the bytes, or refuses it, and stops after the line of the last chunk |
| `BodyReader.ReadChunked` | crates/rsproxy-control/src/server/http.rs:220-275 | Body and trailers are those determined by the bytes and the limits, and nothing after them is taken |
| `RequestReader.ReadRequest` | crates/rsproxy-control/src/server/http.rs:15-84 | Under any pattern of short reads and for every framing, the outcome determined by the bytes, and nothing after the request is taken |
| `ChunkRoundTrip.ChunksReadBack` | crates/rsproxy-control/src/server/http.rs:226-254 | However a body is cut into chunks, their sizes are spelled and their lines extended, the data of the chunks is read back |
| `ChunkRoundTrip.ChunkedBodyReadsBack` | crates/rsproxy-control/src/server/http.rs:220-275 | A body sent in chunks with trailers (section 7.1 of RFC 9112) is read back with its trailers, whatever follows on the stream |
| `ChunkRoundTrip.ChunkedRequestReadsBack` | crates/rsproxy-control/src/server/http.rs:15-84 | Behind any head that announces it, such a body is read back as part of its request, and nothing more is taken |
| `ControlProtocol.ConstantTimeEq` | crates/rsproxy-control/src/server/auth.rs:45-55 | Accumulating differences over the longer length says equal exactly for equal byte strings |
| `ControlProtocol.ControlAuthorized` | crates/rsproxy-control/src/server/auth.rs:4-18 | True exactly when no token is expected or some header carries the expected one |
| `ControlRoundTrip.HeadParses` | crates/rsproxy-control/src/server/http.rs:24-66 | The printed head parses to its method, path, headers and length |
| `ControlRoundTrip.HeadIsRead` | crates/rsproxy-control/src/server/http.rs:86-114 | Bytes without an empty line are read whole up to the first one |
| `ControlRoundTrip.RoundTrip` | crates/rsproxy-control/src/client.rs:347-362 | Whatever follows on the stream, reading a printed request gives back its method, path, headers and body and takes exactly its bytes |
| `ControlRoundTrip.AdmitsExactlyTheTokenSent` | crates/rsproxy-control/src/server/auth.rs:4-43 | The server admits a printed request exactly when it expects no token or the one sent |
| `SpillFiles.RecoverLines` | crates/rsproxy-trace/src/spill/read.rs:76-110 | The reading loop collects the recoverable lines in order and counts the others |
| `SpillFiles.ReadSegment` | crates/rsproxy-trace/src/spill/read.rs:46-119 | Reading a segment gives what its data and index hold, or the data itself without an index; it fails when there is no data file, when the index is not text or when data without an index does not decompress |
| `SpillFiles.IndexLineReads` | crates/rsproxy-trace/src/spill/codec.rs:51-58 | A printed index line parses to its offset, length and checksum |
| `SpillFiles.OwnRecordIsRecovered` | crates/rsproxy-trace/src/spill.rs:149-163 | Wherever a record lies, the offset and length in its index line select its own bytes, which decode to its line |
| `SpillFiles.WrittenFiles` | crates/rsproxy-trace/src/spill.rs:149-166 | What data and index file hold after any number of writes, also to files that were not empty |
| `SpillFiles.ReadingGoesOn` | crates/rsproxy-trace/src/spill/read.rs:64-112 | Whatever the files held, and wherever their index breaks off: reading gives the old whole lines against the longer data, then the line that joins the break and the first record, then every later record |
| `SpillFiles.WholeIndexGoesOn` | crates/rsproxy-trace/src/spill/read.rs:64-112 | After an index that ends with a whole line, every record written is read back behind what the old lines lead to |
| `SpillFiles.WrittenIsReadBack` | crates/rsproxy-trace/src/spill/read.rs:64-112 | Reading files that began empty gives every line written, in order, and no corruption |
| `SpillFiles.AppendHidesUnindexed` | crates/rsproxy-trace/src/spill/read.rs:64-119 | A data file without an index is read whole until a record is appended; from then on only the appended records are read |
| `SpillLog.PlacedKeepsSane` | crates/rsproxy-trace/src/spill.rs:133-172 | Placing a record keeps segment numbers strictly increasing, and every segment of the run within the limit or with one record |
| `SpillLog.ExcessIsLeast` | crates/rsproxy-trace/src/spill.rs:242-276 | Eviction removes the fewest oldest segments that meet the budget or leave one |
| `SpillLog.PlacedHolds` | crates/rsproxy-trace/src/spill.rs:133-172 | Placing a record leaves every file with exactly the records written to it |
| `SpillLog.Log.constructor` | crates/rsproxy-trace/src/spill.rs:213-223 | Taking over found segments establishes the invariants and the byte count |
| `SpillLog.TakeOver` | crates/rsproxy-trace/src/spill.rs:178-226 | Taking over also enforces the budget, with the same account of what is removed if a removal fails |
| `SpillLog.Log.StartSegment` | crates/rsproxy-trace/src/spill.rs:228-240 | A new empty segment with the next number, and no record changes |
| `SpillLog.Log.EnforceBudget` | crates/rsproxy-trace/src/spill.rs:242-276 | The loop removes exactly the excess, or stops at the failing removal without forgetting its bytes |
| `SpillLog.Log.WriteRecord` | crates/rsproxy-trace/src/spill.rs:149-174 | Counts change only after both writes; after a failed one the files hold exactly what it left, or do not exist if they could not be created |
| `SpillLog.Log.AppendRecord` | crates/rsproxy-trace/src/spill.rs:129-176 | The exact new state for every combination of failures |
| `SpillLog.Log.Append` | crates/rsproxy-trace/src/spill.rs:129-176 | Whatever fails, the bytes counted are never below the live sum and the segment invariants stay; without failures they equal it, the record is the newest and the budget holds or one segment remains |
| `SpillLog.ReadSnapshot` | crates/rsproxy-trace/src/spill/read.rs:18-44 | Reading a snapshot is opening and reading its segments in order, failing if one has no data file or cannot be read |
| `SpillLog.FoundSegment` | crates/rsproxy-trace/src/spill.rs:129-176 | A segment that an earlier run wrote and this one continues holds the records of both, as if there had been one run |
| `SpillLog.FoundSegmentReadsOn` | crates/rsproxy-trace/src/spill/read.rs:64-112 | Whatever whole lines a found segment's index held, the records of the run are read back behind them |
| `SpillLog.LiveRecordsAreReadBack` | crates/rsproxy-trace/src/spill/read.rs:18-44 | A snapshot of segments that this and earlier runs wrote gives exactly the live records, in order, with no corruption |
| `SpillRun.OwnRecordsAreReadBack` | crates/rsproxy-trace/src/spill/read.rs:18-112 | If every live segment was begun in the run and has a record, and offsets fit a machine word, a snapshot gives exactly the live records, in order, with no corruption |
| `SpillRun.AppendAll` | crates/rsproxy-trace/src/spill.rs:129-176 | After any number of appends to an empty directory whose writes succeed, with removals that may fail, each record is gone with its segment or live, and as long as offsets fit a machine word a snapshot gives exactly the live ones |
| `SpillRun.SnapshotFailsExactly` | crates/rsproxy-trace/src/spill/read.rs:18-44 | A snapshot fails if and only if one of its segments cannot be read |
| `SpillRun.UnopenedSegmentFailsSnapshots` | crates/rsproxy-trace/src/spill/read.rs:18-62 | After the data file of a new segment could not be created, every snapshot of these segments fails |
| `SpillRun.RecordAfterTornWrite` | crates/rsproxy-trace/src/spill.rs:149-171 | After a data write to an uncompressed segment broke off, the next record is found at its offset if and only if the write left nothing behind or left that very record |
| `PoolAdmission.KeyedActivity.Reserve` | crates/rsproxy-net/src/upstream_pool.rs:27-29 | One more reservation for the key, none for others, no zero counts |
| `PoolAdmission.KeyedActivity.Release` | crates/rsproxy-net/src/upstream_pool.rs:31-39 | One reservation fewer for the key if it has any, others unchanged, no zero counts |
| `PoolAdmission.AcquireSlot` | crates/rsproxy-net/src/upstream_pool.rs:55-90 | Whatever others do between two critical sections, the loop admits, refuses or waits as the first decisive section says, and refuses without reserving |
| `PoolAdmission.StepIsSafe` | crates/rsproxy-net/src/upstream_pool.rs:22-90 | Every critical section of every caller keeps the counts safe |
| `PoolAdmission.RunIsSafe` | crates/rsproxy-net/src/upstream_pool.rs:22-90 | In every state of every interleaving, each count is the number of slots out, within the limit, and no zero is stored |
| `PoolAdmission.LoopDecidesStanding` | crates/rsproxy-net/src/upstream_pool.rs:55-90 | In every interleaving, a caller stands exactly where the acquisition loop leaves it over the sections it met among all the other callers' steps, and it meets none after the decisive one |
| `PoolAdmission.RefusalReservesNothing` | crates/rsproxy-net/src/upstream_pool.rs:64-90 | In every interleaving, a refused caller has changed no count, and every one of its sections found as many slots out as the limit allows |
| `PoolAdmission.RoomMeansAdmission` | crates/rsproxy-net/src/upstream_pool.rs:75-89 | In every interleaving, a section that finds a slot free admits its caller, even at the deadline, is the last one, and makes the only reservation |
| `PoolAdmission.AdmittedExactlyWhenRoom` | crates/rsproxy-net/src/upstream_pool.rs:75-89 | In every interleaving, a caller holds a slot if and only if one of its sections found fewer slots out than the limit |
| `PoolAdmission.ReleaseUndoesReserve` | crates/rsproxy-net/src/upstream_pool.rs:27-39 | Releasing what was just reserved restores the map |
| `BoundedBody.OverflowConserves` | crates/rsproxy-net/src/upstream_body.rs:148-169 | After an overflow, prefix and rest are the data of the stream, and the rest has all trailers if and only if none came before the cut |
| `BoundedBody.OverflowKeepsError` | crates/rsproxy-net/src/upstream_body.rs:148-169 | After an overflow, the first error and all that follows it are still to be read |
| `BoundedBody.UpstreamBody.Next` | crates/rsproxy-net/src/upstream_body.rs:127-131 | Returns the first unread frame, the one put back included |
| `BoundedBody.UpstreamBody.CollectBounded` | crates/rsproxy-net/src/upstream_body.rs:148-169 | Complete exactly when the data before any error fits, and then with all data and trailers; otherwise the first error, or the frame that goes over the limit cut there, with all that follows it still to be read |
| `CertCache.RecencyIsByLastUse` | crates/rsproxy-engine/src/state.rs:314-317 | The ideal list is ordered by last use |
| `CertCache.TouchIsIdeal` | crates/rsproxy-engine/src/state.rs:314-317 | Touching a listed host gives the ideal list after one more use |
| `CertCache.AddIsIdeal` | crates/rsproxy-engine/src/state.rs:299-306 | Dropping the oldest host if there is no room and appending the new one gives the ideal list |
| `CertCache.MitmCertCache.Shape` | crates/rsproxy-engine/src/state.rs:268-318 | The order has no repeats and as many hosts as the map, never more than the capacity |
| `CertCache.MitmCertCache.Get` | crates/rsproxy-engine/src/state.rs:284-288 | A hit gives the value last inserted for the host and counts as a use; a miss changes nothing |
| `CertCache.MitmCertCache.Insert` | crates/rsproxy-engine/src/state.rs:290-307 | Only the least recently used host goes, only for a new host and only at capacity; over every run the cache holds exactly the most recently used hosts |
| `CertCache.MitmCertCache.MakeRoom` | crates/rsproxy-engine/src/state.rs:299-304 | The eviction loop drops the oldest host when the cache is full and nothing otherwise |
| `StartupQuoting.BackslashedChar` | crates/rsproxy-platform/src/startup.rs:364-372 | The chain of replacements puts one backslash before each reserved character, although later replacements see earlier ones' output |
| `StartupQuoting.DesktopRoundTrip` | crates/rsproxy-platform/src/startup.rs:364-376 | Undoing key-file escapes, Exec quoting and doubled percent signs recovers every argument list |
| `StartupQuoting.DesktopEntryRoundTrip` | crates/rsproxy-platform/src/startup.rs:341-376 | From the rendered file, an argument list is recovered if and only if no argument has a line feed |
| `StartupQuoting.QuoteArgument` | crates/rsproxy-platform/src/startup.rs:387-406 | The loop with its backslash counter writes the quoted form of the argument |
| `StartupQuoting.WindowsRoundTrip` | crates/rsproxy-platform/src/startup.rs:379-406 | The Windows backslash-and-quote rules recover every argument list from its command line |

## Left out

- Rule source parsing, templates, value rendering and the `explain` text: rules are taken as parsed. That method names are in upper case, host patterns are normal and deletions are not empty is assumed where it is needed. What the parser checks of globs is modelled, and `CheckedPatterns` says what it does not ensure.
- Regular-expression engines, literal scanning automata, zstd and CRC-32: parameters with the laws given above. Look-around in regular-expression syntax trees is a parameter too.
- Backtracking limits of the fancy regular-expression engine: search is a total function.
- Limits on compiled program size: whether a glob program fits is a parameter. The limit on the length of a pattern's text is not modelled.
- The environment and the sampling hash within one resolution: taken as constant, so a variable that changes halfway is not modelled.
- Width of counters: positions, sizes, segment numbers and reservation counts are unbounded, except where text is parsed into a number of fixed width. Overflow of a 64-bit counter is not modelled.
- Semantic lint findings about local responses, direct routing and statuses without a body: whether they are true is decided in the forwarding pipeline, which is not modelled.
- Duplicate detection, statistics and byte counts of lint reports beyond their budgets: presentation.
- Whole-source migration: header insertion, language directives and line joining are not modelled; the rewriting of one line is.
- Property and matcher spellings: only the action and condition tables that migration uses.
- Control responses, routing of control requests and error texts: all refusals of a request are one outcome.
- Directory scan and clearing of the spill log: the log takes over a list of found segments in order. Paths are not modelled; each segment owns its two files, which is right because a path determines number and kind.
- Lock poisoning, elapsed-time measurement and wake-up order in pool admission: a caller may wake at any time, and whether its budget is used up is a parameter.
- Streaming plumbing of upstream bodies: channels and timers; the frames still to come are a sequence.
- The macOS launch agent and its XML escaping; the registry and file operations of startup registration.
- The program name's own parsing rules on Windows: every element of the command line is read by the argument rules.
- Sockets, TLS, DNS, HTTP/2, the forwarding pipeline, the command line, the terminal interface, logging, the daemon and the system-proxy backends.
