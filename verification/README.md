# GuardGo: verified model

A Dafny model of the three cores of GuardGo and of how they act together.

- **Signature matching and scoring.** `Words`, `Trie`, `Automaton` and `Dfa` model
  the Aho-Corasick matcher as the source has it: tokens are inserted into a node
  table, a breadth-first pass completes that table in place, and a scan does one
  lookup per byte. `Tokens`, `Ruleset` and `Scoring` lift it to compiled rulesets
  and request scores; `Patterns` and `Layout` say, on the bytes themselves, which
  tokens a pattern has and what the scanned texts contain of a request. The main result is that compiling and evaluating gives the
  same score as testing every token of every rule with a substring search.
- **Bans, penalties and rate limits.** `Store` is Redis as the engine uses it, with
  both Lua scripts as command sequences that are one atomic step each. `Ledger`,
  `FixedWindow`, `Tightness`, `Threats` and `ScoreRuns` prove what holds over every
  run of that store. `Protocol` is the whole engine as a state machine: any number
  of requests and background jobs step by step, with evictions, Bloom collisions,
  time and other clients in between. `Enforcement`, `Penalties`, `Spacing`,
  `CacheSoundness`, `CacheTiming` and `Accounting` prove safety over all its runs.
  `Engine` is the engine object in the source's own order; `Process` and
  `ProcessSnapshot` are proved to be uninterrupted runs of the protocol (`Solo`)
  that end as `DecisionTable` and `JobTable` say over stored fields and key bytes,
  and `EndToEnd` joins a job's score to the answers that follow.
- **Small machines.** `Bits`, `Bloom` and `BloomRuns` are the lock-free Bloom filter,
  sequentially on a real array and under every interleaving of loads and swaps.
  `SelfHealing` is the adaptive limiter. `Snapshots` is the ownership of pooled
  snapshots. `LruCache` and `Decisions` are the local blacklist and the decision
  payload.

Times and durations are whole milliseconds; a key is alive while now < expiry.
Text is a sequence of bytes. Scores, ratios and the multiplier are real numbers.
A step of the protocol is one atomic action on Redis, a cache or the filter; that
a filter write may be taken as one action is what `BloomRuns` justifies, and that
a request's limit may be any value from 1 to MaxRequests is `SelfHealing.RunInv`.

Where the code and its documentation or expectations differ, the model follows
the code:

- `README.md:158` calls the ban backoff window sliding. The attempt counter's
  lifetime is fixed by its first increment (`internal/redislua/reputation.go:43-46`):
  `Ledger.BackoffWindowIsFixed`.
- A limit of L bounds a counter window by L, but an interval of the same length
  by 2L - 1 and by nothing smaller; L itself bounds it exactly for L = 1 or a window
  of one millisecond (`Tightness.RateBoundIsTight`, `LimitBoundsIntervalsIff`).
- A window below one millisecond is passed to the script as 0 and never limits
  (`Ledger.SubMillisecondWindowNeverLimits`).
- Scores are 64-bit sums, so adding rules can lower them: `Scoring.HeavyRulesOverflow`
  is an input, `Ruleset.MoreRulesEvaluateMoreIff` says exactly when.
- A token with a space can match the `any` text or not, depending on the walk order
  of the header map (`Scoring.AnyOrderCanMatter`; `Scoring.AnyOrderFreeIff` is exact).
- The Bloom filter is local: a ban that this engine has not seen is missed while the
  filter is on (`Enforcement.UnseenBanIsMissed`); `EndToEnd.BannedGetsThroughIff` says
  exactly when a banned address gets through.
- A ban is written to Redis first and to the local cache later, under a second clock
  reading. A late cache write, or one overtaken by a shorter ban, makes the cache
  stale; `CacheTiming.CacheWriteSoundIff` gives the exact condition, and
  `LateCacheWrite` and `InterleavedBansGoStale` the two ways to break it.
- A later ban replaces the lifetime of an earlier one and may shorten it
  (`Enforcement.NewBanReplaces`).

## Model

| member | source | states |
|---|---|---|
| Words.LongestSuffixIsLongest | pkg/dfa/matcher.go:98 | The word a failure link or table entry aims at is a suffix of the bytes read, and every other lexicon word that is a suffix is a suffix of it |
| Words.LongestSuffixStep | pkg/dfa/matcher.go:117 | Reading one byte from the longest known suffix gives the same state as re-reading the whole text: why one table lookup per byte is enough |
| Words.ExtendThroughFailure | pkg/dfa/matcher.go:94-98 | The failure target of an extended word is found by extending the failure target of the word, for every prefix-closed lexicon |
| Words.FoldConcat | pkg/dfa/matcher.go:60-62 | ASCII folding commutes with concatenation, so folding byte by byte while scanning equals folding the whole text |
| Words.FoldIdentifies | pkg/dfa/matcher.go:56-62 | Two words fold to the same bytes exactly when they have equal lengths and at each index the same byte or the same ASCII letter in either case |
| Words.ContainsFolded | pkg/dfa/matcher.go:105-117 | A folded token is a substring of the folded text exactly when some slice of the text is the token up to case |
| Trie.EdgeOfWord | pkg/dfa/matcher.go:63-69 | In the trie an edge is determined by the word it leads to: one node per distinct prefix |
| Trie.MissingEdgeMeansNewWord | pkg/dfa/matcher.go:64 | A -1 entry means that no node has the extended word, so appending a node never duplicates a prefix |
| Trie.AddChild | pkg/dfa/matcher.go:65-67 | Appending a node and setting one entry keeps the trie invariant (distinct words, every node reached from its parent, edges to higher indices) |
| Trie.TrieIsPrefixClosed | pkg/dfa/matcher.go:58-70 | The words of the nodes are closed under prefixes |
| Trie.PrefixSetIsExact | pkg/dfa/matcher.go:141-146 | The counted set holds exactly the prefixes of the tokens, the empty one included |
| Trie.NodesCountPrefixes | pkg/dfa/matcher.go:141-146 | The number of nodes is the number of distinct prefixes, hence at most 1 + total token length |
| Trie.OwnIsExact | pkg/dfa/matcher.go:71 | A node's own report list names, once each, exactly the rules inserted with the node's word (duplicate tokens included) |
| Automaton.PassStarts | pkg/dfa/matcher.go:74-75 | The invariant of the breadth-first pass holds of every freshly built trie |
| Automaton.ShallowStatesEnqueued | pkg/dfa/matcher.go:87-101 | Queue order: every state not deeper than the current one is already enqueued, every shallower one is finished |
| Automaton.ThroughIsLongestSuffix | pkg/dfa/matcher.go:94-98 | The entry read through the failure link is already final and leads to the longest proper suffix |
| Automaton.StepAbsent | pkg/dfa/matcher.go:93-96 | Filling an absent entry through the failure link makes it final and keeps the whole invariant |
| Automaton.PresentEdge | pkg/dfa/matcher.go:92 | An entry that is still present leads along a trie edge to a deeper state that has not been enqueued |
| Automaton.OutputsMerge | pkg/dfa/matcher.go:99 | Own rules followed by those of the failure state list, without duplicates, exactly the rules whose token is a suffix of the state's word |
| Automaton.StepPresent | pkg/dfa/matcher.go:97-100 | Linking a child, merging its outputs and enqueueing it keeps the whole invariant |
| Automaton.NextState | pkg/dfa/matcher.go:88-89 | Taking the head of the queue keeps the invariant and accounts for every state taken so far |
| Automaton.EmptyQueueMeansAllDone | pkg/dfa/matcher.go:87 | When the queue is empty every state of the trie has been completed |
| Automaton.PassEnds | pkg/dfa/matcher.go:74-103 | At the end the table is the total automaton of the tokens, has as many states as the trie, and every non-root state was visited once in non-decreasing depth |
| Automaton.RunIsLongestSuffix | pkg/dfa/matcher.go:111-117 | After any text the state's word is the longest suffix of that text that is a trie word |
| Automaton.OutputsAfter | pkg/dfa/matcher.go:118-120 | The rules reported on a byte are exactly those whose token ends at that byte |
| Automaton.SeenGrows | pkg/dfa/matcher.go:112-121 | The set gathered over all bytes is the set of rules whose token occurs somewhere in the text read |
| Dfa.Kept | pkg/dfa/matcher.go:32-43 | Kept rules have a non-empty token and a positive weight |
| Dfa.Matcher.constructor | pkg/dfa/matcher.go:27-46 | For every rule list the finished object holds the complete automaton of exactly the kept rules |
| Dfa.Matcher.Insert | pkg/dfa/matcher.go:56-72 | Inserting a token in place turns the trie of the tokens so far into the trie of those and the new one, whatever overlaps |
| Dfa.Matcher.BuildFailures | pkg/dfa/matcher.go:74-103 | The in-place pass terminates, turns the trie into the total automaton, keeps the node count and visits each non-root state once by depth |
| Dfa.Matcher.CompleteRoot | pkg/dfa/matcher.go:75-85 | The root's row is completed and exactly its children are enqueued |
| Dfa.Matcher.CompleteState | pkg/dfa/matcher.go:91-101 | One dequeued state's row is completed in place and exactly its children are linked and enqueued |
| Dfa.Matcher.FindAll | pkg/dfa/matcher.go:105-132 | For every text the matches are, as a multiset, one match for each kept rule of which some slice of the text is the same word up to ASCII case: none missing, none twice |
| Dfa.Matcher.Collect | pkg/dfa/matcher.go:123-131 | The index set becomes one match per rule, whatever order the map is walked in |
| Dfa.Matcher.NodeCount | pkg/dfa/matcher.go:141-146 | The count is the number of distinct prefixes of the folded tokens, also after the failure pass |
| Dfa.NaiveMatchesAsSet | pkg/dfa/matcher.go:105-132 | A set that holds exactly the rules found by substring tests yields exactly the naive matches |
| Dfa.NaiveMatchesAreSlices | pkg/dfa/matcher.go:105-132 | For every rule list and text the naive matches hold a rule, as often as it is listed, exactly when some slice of the text is its token up to case |
| Dfa.CaseDoesNotMatter | pkg/dfa/matcher.go:111-117 | Texts that are the same up to ASCII case get the same matches |
| Dfa.KeptExact | pkg/dfa/matcher.go:32-43 | Of any rule list exactly the rules with a non-empty normalised token are kept, in order, with weight 1 in place of a weight that is not positive |
| Dfa.GrowAbsent | pkg/dfa/matcher.go:64-68 | One more byte of a token with no edge: the table becomes the trie with one more prefix |
| Dfa.GrowPresent | pkg/dfa/matcher.go:63-69 | One more byte of a token along an existing edge adds no prefix and no node |
| Dfa.ReportAt | pkg/dfa/matcher.go:71 | Recording the rule at the state reached makes the table the trie of all tokens with the new one |
| Dfa.AutomatonCountsPrefixes | pkg/dfa/matcher.go:141-146 | The completed automaton still has one state per distinct prefix |
| Tokens.Split | ruleset.go:185 | The parts contain no separator, and joining them gives the text back |
| Tokens.PatternTokens | ruleset.go:175-198 | Every token extracted from a pattern is non-empty and has no parenthesis at either end; which tokens a pattern has is stated by the rows of `Patterns` |
| Tokens.ExtractPatternTokens | ruleset.go:175-198 | The append loop with its early returns gives exactly the tokens that the rows of `Patterns` characterise, in pattern order |
| Tokens.StrconvI | ruleset.go:200-213 | For every 64-bit number the 20-byte buffer suffices; a non-negative number gives its decimal notation without leading zeros, a negative one nothing |
| Tokens.DecimalIsUnique | ruleset.go:200-213 | A digit string without leading zeros is the notation of its own value, so notations never collide |
| Tokens.DecimalRoundTrip | ruleset.go:200-213 | Reading the decimal notation of a number gives the number back |
| Tokens.FallbackNamesDiffer | ruleset.go:128-131 | Two unnamed rules at different positions never get the same fallback name |
| Patterns.TokensOfWords | ruleset.go:175-198 | For plain words w1..wn the tokens of w1&#124;..&#124;wn are exactly w1..wn in order, bare or in parentheses, with or without (?i) or (?I) in front, except for the three patterns that consist of flags only, which have none |
| Patterns.TokensOfParts | ruleset.go:187-193 | For arbitrary parts, the tokens of two part lists together are the tokens of the first followed by those of the second |
| Patterns.TokensOfPattern | ruleset.go:175-193 | Any pattern that is not blank is at most two flags, at most one parenthesis at either end, and parts between bars; its tokens are those of all the parts |
| Patterns.TokenOfPart | ruleset.go:188-193 | One part contributes its trimmed, lower-cased form without the parentheses at its ends, all of them and nothing else removed, unless nothing is left |
| Patterns.BlankHasNoTokens | ruleset.go:177-179 | A blank pattern has no tokens |
| Patterns.NameOfRule | ruleset.go:128-131 | A rule keeps its trimmed name, and one without is called rule_ and the digits of its position |
| Patterns.TargetsSpelled | ruleset.go:135-144 | Exactly the names query, headers and path, in any case, select those targets; any other name selects `any` |
| Ruleset.RouteRules | ruleset.go:122-146 | The routing loops put each token of each rule, in order, with its rule's name and weight, in the one list of its rule's target and in no other |
| Ruleset.CompileRuleset | ruleset.go:121-154 | Each of the four matchers is built from exactly the tokens of the rules with its target |
| Layout.RoutedLast | ruleset.go:127-145 | Each rule adds, to the list of its target only, one item per token in order, under its name and with its weight |
| Ruleset.SumWeightsPermutes | pkg/dfa/matcher.go:123-131 | The sum of match weights does not depend on the order in which a map yields the matches |
| Ruleset.MatchListScore | engine_ruleset.go:18-22 | Adding the weights of one matcher's naive matches equals testing its items one by one |
| Ruleset.RoutedScore | ruleset.go:127-146 | The items routed to a target score what the rules of that target score by themselves |
| Ruleset.TargetsPartitionScore | ruleset.go:134-145 | The scores of the four targets add up to the naive score: routing loses no token and counts none twice |
| Ruleset.MoreRulesScoreMore | ruleset.go:121-154 | Adding rules never lowers the exact, unbounded score |
| Ruleset.NaiveScoreConcat | ruleset.go:121-154 | Two rule lists together score exactly the sum of their scores |
| Ruleset.MoreRulesEvaluateMoreIff | engine_ruleset.go:17-38 | Adding rules lowers the evaluated 64-bit score exactly when it makes the range be overrun more often and by more than the added rules score; below 2^63 never, and for added scores below 2^64 exactly when the number of overruns changes |
| Ruleset.Wrap64 | engine_ruleset.go:17 | A sum in 64-bit arithmetic stays in range and is exact whenever the true sum is in range |
| Ruleset.WrapOnce | engine_ruleset.go:20 | Wrapping after every addition is the same as wrapping the exact sum once |
| Scoring.HeadersText | engine_ruleset.go:59-74 | The text is the concatenation of one segment per header, each header once, in some order |
| Layout.SegmentBytes | engine_ruleset.go:64-72 | A header segment holds the key, a colon, each value followed by a semicolon, all at their offsets, and ends with its newline |
| Layout.RenderInOrder | engine_ruleset.go:64-72 | The segments follow one another in walk order, nothing between them |
| Scoring.RequestAnyText | engine_ruleset.go:41-57 | Slices of the text are the method, a space, the path, a question mark, the raw query, a space and the headers at their offsets; without a URL two spaces follow the method |
| Scoring.RulesetManager.Reload | ruleset.go:80-87 | A failed load leaves the ruleset in force unchanged, a successful one replaces it |
| Scoring.Evaluator.EvaluateRuleset | engine_ruleset.go:8-39 | The result is the wrapped sum of the matches of the four matchers on their own texts, zero without a ruleset; the ruleset is the manager's current one if there is a manager, and is remembered |
| Scoring.SumMatchers | engine_ruleset.go:17-38 | Four scan loops add up to the compiled score for the texts actually rendered |
| Scoring.AddMatches | engine_ruleset.go:18-22 | One scan loop adds exactly its matcher's naive score, modulo 2^64 |
| Scoring.CompiledScoreIsNaive | engine_ruleset.go:8-39 | For every rule list and request the four automata score exactly what one pass of substring tests over all rules and tokens scores |
| Layout.ScoreCountsTokens | engine_ruleset.go:8-39 | The naive score adds, for each rule, its weight (1 if not positive) times the number of its tokens that are a slice, up to case, of the request field that its target names |
| Scoring.CompileAndEvaluate | engine_ruleset.go:8-39 | Compiling and evaluating end to end gives the naive score, wrapped to 64 bits |
| Scoring.HeavyRulesOverflow | engine_ruleset.go:17-38 | For a concrete request, a hit of weight 2^63 - 1 and an added hit of weight 1 turn the evaluated score negative |
| Scoring.HeaderTokenIsLocal | engine_ruleset.go:64-72 | A token without newline occurs in the header text exactly when it occurs in the segment of a single header |
| Scoring.HeaderOrderIrrelevant | engine_ruleset.go:64-72 | For such a token the walk order of the header map does not matter |
| Scoring.HeaderScoreWellDefined | engine_ruleset.go:33-37 | The score of the header rules is the same for every walk order when their tokens hold no newline |
| Scoring.AnyTokenExact | engine_ruleset.go:41-57 | A newline-free token matches the `any` text exactly if it lies in the request line, in one header segment, or starts in the request line and ends in the header rendered first |
| Layout.AnySeesEverything | engine_ruleset.go:41-57 | A token found in the method, path, raw query or a single header is found in the `any` text: a hit for `query` or `path` is a hit for `any` |
| Scoring.AnyOrderIrrelevant | engine_ruleset.go:41-57 | A token with neither newline nor space matches the `any` text independently of header order |
| Scoring.AnyOrderFreeIff | engine_ruleset.go:41-57 | The walk order is irrelevant to a newline-free token in the `any` text exactly when the request line or some header contains it, or all headers agree on whether it would run from the request line into them |
| Scoring.AnyOrderCanMatter | engine_ruleset.go:41-57 | A concrete request and token for which that condition fails and the two orders give different answers |
| Scoring.AnyScoreWellDefined | engine_ruleset.go:17-22 | The score of the `any` rules is the same for every walk order when none of their tokens can tell the orders apart, by the exact condition for tokens |
| Scoring.RequestScoreWellDefined | engine_ruleset.go:8-39 | With newline-free header tokens as well, the whole score of a request is the same whatever orders the two texts are rendered in |
| Bits.SetOneBit | pkg/bloom/filter.go:37-43 | Or-ing one mask into a word sets that bit and leaves the other 63 alone |
| Bits.SameBits | pkg/bloom/filter.go:43 | Words that agree on all 64 bit positions are equal |
| Bits.OnesMonotone | pkg/bloom/filter.go:39-43 | A word that gains a bit has strictly more ones |
| Bits.SetBitExact | pkg/bloom/filter.go:36-43 | Setting index i changes the answer for index i and for no other index of the filter |
| Bloom.TwoHashes | pkg/bloom/filter.go:66-86 | The loop computes the two byte-wise hashes in wrapping 64-bit arithmetic; the stride is never zero |
| Bloom.HashSteps | pkg/bloom/filter.go:73-85 | The hashes of the empty word are the two offsets, each further byte mixes into both, and a zero stride becomes the golden constant |
| Bloom.IndexIsWalk | pkg/bloom/filter.go:34-35 | Index i is where i additions of the stride, each wrapped at 2^64, lead from the first hash, modulo `bits` |
| Bloom.InBoundsIffNoWrap | pkg/bloom/filter.go:21 | Every index has a word exactly when `bits + 63` does not wrap |
| Bloom.Index | pkg/bloom/filter.go:35 | Every index computed for a value is below `bits` |
| Bloom.Filter.constructor | pkg/bloom/filter.go:14-27 | A new filter has the defaulted dimensions and no bit set |
| Bloom.Filter.Add | pkg/bloom/filter.go:29-48 | Adding sets exactly the bits that the value needs and no other, makes the value test positive, and no value that tested positive stops doing so |
| Bloom.Filter.Test | pkg/bloom/filter.go:50-64 | Positive exactly when the value is non-empty and all its bits are set |
| BloomRuns.NextInv | pkg/bloom/filter.go:29-64 | Every load, swap, start and return of any thread keeps: set bits are exactly the indices finished by some Add, every access is in bounds; no bit is ever cleared |
| BloomRuns.OfFilter | pkg/bloom/filter.go:14-36 | The indices of a filter built by the constructor satisfy what the interleaved machine assumes |
| BloomRuns.BitsNeverClear | pkg/bloom/filter.go:29-48 | Along every schedule each later state has at least the bits of each earlier one |
| BloomRuns.RunsAreExact | pkg/bloom/filter.go:29-48 | Over every schedule a bit is set exactly when some started Add has finished that index: no lost update, no stray bit |
| BloomRuns.NoFalseNegatives | pkg/bloom/filter.go:29-64 | Over every schedule a Test begun after an Add of its value returned never misses, and a hit means that every index was written |
| BloomRuns.FailedSwapMeansProgress | pkg/bloom/filter.go:39-45 | A failed swap means the word has strictly more ones than when it was loaded |
| BloomRuns.RetryBound | pkg/bloom/filter.go:38-46 | Over every schedule a retry loop fails at most 64 times, so it ends within 65 iterations |
| Store.KeysInjective | engine_penalty.go:10-15 | Different addresses and keys never share a Redis key of the same kind |
| Store.KeysApart | engine_penalty.go:10-15 | Keys of different kinds never coincide under one prefix, whatever the addresses |
| Store.Redis.CriticalPath | internal/redislua/script.go:15-33 | As one atomic step: a banned address is reported with its ban lifetime and the counter is untouched; otherwise the counter is bumped, gets its lifetime only on the first count, and the limit is compared |
| Store.Redis.Cross | internal/redislua/reputation.go:43-56 | From the threshold on: the attempt counter bumped, the ban of its level set, the penalty removed, the scores untouched |
| Store.Redis.ReputationScript | internal/redislua/reputation.go:27-65 | As one atomic step: score and shared lifetime, then crossing (attempt counter, level, ban, penalty removed), warning (penalty) or nothing, with the whole new store |
| FixedWindow.HitKeeps | internal/redislua/script.go:22-25 | One more count keeps: counters number the hits of each window, windows of one key do not overlap |
| FixedWindow.WindowBound | internal/redislua/script.go:28-30 | No counter window allows more than the largest limit used in it |
| FixedWindow.FirstHitIsAllowed | internal/redislua/script.go:22-32 | A window begins with its first hit, and that hit is allowed |
| FixedWindow.IntervalBound | internal/redislua/script.go:22-32 | No interval as long as the window allows more than 2L - 1 hits |
| FixedWindow.IntervalBoundIsTight | internal/redislua/script.go:22-32 | Over all histories of such a counter, for every limit L and window length, the numbers that bound every interval of that length are exactly those from 2L - 1 on (from L on for a window of one millisecond) |
| Tightness.BothReached | internal/redislua/script.go:15-33 | Script calls from an empty store, one check, a wait, L - 1 checks, one millisecond and L checks, produce exactly the history with 2L - 1 hits allowed within one window length |
| Tightness.RateBoundIsTight | internal/redislua/script.go:15-33 | Over all sequences of script calls from an empty store, the numbers that bound the checks allowed in any interval of a window's length are exactly those from 2L - 1 on (from L on for a window of one millisecond) |
| Tightness.LimitBoundsIntervalsIff | internal/redislua/script.go:15-33 | So over script calls the limit itself bounds every such interval exactly when it is 1 or the window is one millisecond |
| FixedWindow.BothWindowsCount | internal/redislua/script.go:22-32 | For every L there is a history consistent with the counter that has 2L - 1 hits allowed within one window length |
| Ledger.RunKeepsRate | internal/redislua/script.go:22-33 | Over every run of script calls, bans, penalties, threats and waiting, the stored rate counter of a key agrees with the key's recorded history |
| Ledger.RunKeepsBackoff | internal/redislua/reputation.go:43-46 | Over every such run the stored attempt counter of an address agrees with its recorded crossings |
| Ledger.AnswerMatchesHistory | internal/redislua/script.go:16-32 | After every run: a blacklisted check changes nothing and reports the end of the ban minus now (-1 for a ban without end); any other is the k-th of its window and is allowed exactly when k is within the limit |
| Ledger.RateLimitHolds | internal/redislua/script.go:15-33 | Over every run a key gets at most L checks allowed per window and at most 2L - 1 in any interval of a window's length |
| Ledger.SubMillisecondWindowNeverLimits | engine_process.go:85 | With a window below one millisecond (0 for the script) no counter survives and nothing is ever limited, in every run |
| Ledger.Escalation | internal/redislua/reputation.go:42-57 | The k-th crossing of an address within one lifetime of its attempt counter reports attempts = k and the ban time of level min(k, 3), across all its fingerprints |
| Ledger.CrossingBans | internal/redislua/reputation.go:53-55 | A crossing bans the address until exactly the reported time and ends its penalty |
| Ledger.BackoffWindowIsFixed | internal/redislua/reputation.go:43-46 | A crossing starts the attempt window when no counter is alive and leaves its end unchanged otherwise: the window does not slide |
| Ledger.LaterCrossingsBanLonger | internal/redislua/reputation.go:47-56 | Over every run, with ordered levels, the ban times reported for an address never go down within one lifetime of its attempt counter |
| Threats.RunCountsStreak | engine_background.go:94-100 | Over every run the threat counter of an address is the number of its threats since the last gap of at least ThreatKeyWindow between two of them, and gone after such a gap |
| Threats.AdaptiveCountIsStreak | engine_background.go:94-114 | After every run the count that decides on an adaptive ban is that streak, the new threat included |
| ScoreRuns.ReputationIsSum | internal/redislua/reputation.go:39-40 | Over every run an actor's stored score, and every score the script decided on, is the sum of its own updates since the last gap of at least ScoreWindow between updates of any actor |
| ScoreRuns.LiveSumSnoc | internal/redislua/reputation.go:39-40 | One update adds its delta to its own actor's live sum and to no other |
| ScoreRuns.ActionsNeverDecrease | internal/redislua/reputation.go:42-64 | With positive updates an actor's score and action do not decrease within one lifetime |
| SelfHealing.SpikeRatio | self_healing.go:40-52 | The ratio that can raise the multiplier lies between 1 and MaxSensitivity |
| SelfHealing.SelfHealingState.RotateWindowIfNeeded | self_healing.go:75-89 | Rotation happens exactly when a window has passed; it clears the counts and lowers the multiplier by one step, not below 1 |
| SelfHealing.SelfHealingState.EffectiveLimit | self_healing.go:31-62 | The new state and the limit are those of the specification, and the limit is the whole number of times the stored multiplier goes into the base limit, at least 1 |
| SelfHealing.SelfHealingState.Observe | self_healing.go:64-73 | One observation counts once, as clean if allowed or failed open |
| SelfHealing.RunInv | self_healing.go:31-89 | Over every run 1 <= multiplier <= MaxSensitivity, clean <= total, and 1 <= effective limit <= base limit |
| SelfHealing.LimitMonotone | self_healing.go:57-61 | A larger multiplier never gives a larger limit |
| SelfHealing.LimitDivides | self_healing.go:57-61 | limit * multiplier <= base < (limit + 1) * multiplier when the base reaches the multiplier, and limit 1 otherwise |
| SelfHealing.MultiplierRises | self_healing.go:35-55 | A request raises the multiplier exactly with enough samples, enough clean ones and an address count above multiplier times trigger, to the m with m * trigger = count, at most MaxSensitivity: all on counts, by multiplication |
| SelfHealing.WindowCounts | self_healing.go:38-71 | Inside one window the counters are the numbers of requests, observations and clean observations of the history |
| SelfHealing.MultiplierIsMaximum | self_healing.go:47-52 | Inside one window the multiplier is the maximum of its start value and all capped eligible spike ratios |
| SelfHealing.Decay | self_healing.go:83-88 | n rotations without a spike bring the multiplier from m to max(1, m - n*DecayStep) |
| SelfHealing.BackToNormal | self_healing.go:57-88 | Without spikes the multiplier is back at 1, and the limit at the base limit, exactly when n*DecayStep covers m - 1 |
| SelfHealing.WindowAsksExact | self_healing.go:38 | The stored count of an address is its number of requests in the window in force, computed from the event times alone |
| SelfHealing.CalmTrafficDecays | self_healing.go:43-88 | While no address exceeds its trigger within a window, n rotations give max(1, m - n*DecayStep), and 1 exactly when n*DecayStep covers m - 1 |
| LruCache.Cache.IsBlacklisted | internal/blacklist/cache.go:23-36 | True exactly for an entry that has not expired; an expired entry is removed, nothing else changes |
| LruCache.Cache.Blacklist | internal/blacklist/cache.go:38-42 | The entry is present afterwards, others may be evicted, none is added or changed |
| Decisions.NewDecisionWithTtl | decision.go:55-76 | Remaining is never negative, complements the counter up to the limit and is 0 from the limit on; the reset is now plus the lifetime, or plus the window when that is not positive |
| Decisions.ParseLuaResult | engine_process.go:159-176 | A malformed reply decodes to zeros, a well-formed one to its integers; a missing third value or a value of another type is 0 |
| Accounting.OpKeepsCounts | internal/redislua/script.go:22 | Stored counts stay positive under every Redis operation |
| Accounting.DecisionsAddUp | decision.go:55-86 | Over every interleaving every decision has 0 <= Remaining <= Limit; counter + remaining = limit when the script allowed it; 0 remaining when rate-limited; allowed exactly on the three allowing paths; status 403 exactly on the penalty path, else the default or 429 |
| Solo.StepsEnd | engine_process.go:25-140 | Every step of a request or a background job brings it closer to its end |
| Solo.ToEndIsRun | engine_process.go:25-140 | Running one agent to its end is a run of the interleaved system, so whatever holds of all runs holds of it |
| Solo.FromPbox | engine_penalty.go:46-59 | Penalty lookup as part of a run: local box, then the Redis lifetime, remembered locally while alive |
| Solo.FromPenalty | engine_process.go:50-65 | A penalised request continues under limit 1, or is forbidden and its address banned in all three places |
| Solo.FromBan | engine_penalty.go:17-40 | A completed ban is in Redis, the cache and the Bloom filter; a failed write leaves no trace |
| Solo.FromScript | engine_process.go:82-140 | What each script answer, and no answer, means for the decision, the cache and the Bloom filter |
| Solo.FromScore | engine_background.go:63-92 | What a job's score does: nothing, the reputation script with its three actions, or the plain threshold |
| Solo.FromPenaltySet | engine_penalty.go:61-76 | A penalty is in Redis and the local box, or a failed write leaves no trace |
| Solo.FromAdaptive | engine_background.go:94-115 | The threat counter is bumped and refreshed, and bans from the threshold on |
| DecisionTable.TableIsExact | engine_process.go:25-140 | For every state, request, limit and answers the decision and its source are those of one table over stored fields, key bytes and header flags, which calls no function of the engine or of the store |
| DecisionTable.ForbiddenIff | engine_process.go:50-65 | A penalised request that the cache does not deny ends forbidden exactly when User-Agent is required and missing or Referer is required and missing |
| DecisionTable.LeavesExactly | engine_process.go:25-140 | What a request leaves behind: a counted one changes only the counter of its key (of its address without a key), a forbidden one only its address's ban; caches and filter likewise |
| JobTable.JobLeavesExactly | engine_background.go:63-115 | For every state, score and answers what a background job leaves in the five kinds of Redis keys, both local caches and the filter, by stored fields and key bytes |
| Enforcement.BannedStep | engine_process.go:41-123 | No step takes a request of a banned, Bloom-known address to anything but further checking or a denial |
| Enforcement.BanEnforced | engine_process.go:41-123 | Over every interleaving, eviction and collision a request that arrives after the Bloom write of its address's live ban is denied if its calls are answered, and otherwise denied or failed open; with Bloom off whoever wrote the ban |
| Enforcement.NewBanReplaces | engine_penalty.go:23-27 | A new ban lasts until a time exactly when its own end is not before it, so it shortens exactly the bans that would end later |
| Enforcement.BanLastsRun | engine_penalty.go:23-27 | Over every run a ban lasts as long as it did, unless somebody replaces it by one that ends earlier |
| Enforcement.BanHolds | engine_process.go:41-123 | Over every run from a ban until e, if nobody shortens it and the clock stays below e, every arriving request of the address (known to the filter, if on) is denied: that the ban is live throughout is derived, not assumed |
| Enforcement.UnseenBanIsMissed | engine_process.go:71-80 | A concrete run that lets a banned address through, because its Bloom write is missing |
| Enforcement.RunIsLedgerRun | engine_process.go:85 | Every run of the engine acts on Redis as a run of the ledger, so the results about ledgers carry over |
| Enforcement.RunWithin | engine_process.go:35-65 | In every run the limits handed to the script stay between 1 and MaxRequests, penalty or not |
| Enforcement.EngineRateLimit | engine_process.go:82-140 | Over every run of any number of requests, jobs and foreign clients a key gets at most MaxRequests through the script per window and at most 2*MaxRequests - 1 per window length |
| Penalties.PenaltyConfines | engine_process.go:48-70 | With Redis answering, and Bloom off or the address in the filter, while a penalty lives each request is denied, or the script lets it through under limit 1 as number 1 of its window; no other way through is left |
| Penalties.PenaltyLastsStep | internal/redislua/reputation.go:53-61 | A penalty survives an operation exactly when the operation is no threshold crossing of the address and no shorter penalty of it |
| Penalties.PenaltyLastsRun | engine_penalty.go:61-76 | Over every run without these a penalty lasts as long as it did |
| Penalties.PenaltyHolds | engine_process.go:48-70 | Over every run from a penalty until e, if it is neither deleted nor shortened and the clock stays below e, every answered request that arrives is denied or passes under limit 1 as number 1 of its window: that the penalty lives is derived, not assumed |
| Penalties.FailedChecksBan | engine_penalty.go:17-40 | The ban that a failed strict check writes lasts until exactly now plus the third ban level, or the penalty ban time without reputation |
| Penalties.ForbiddenIsBanned | engine_process.go:50-62 | Over every interleaving, an answered request that ends forbidden has had its address banned in Redis, from some moment of its run, for the third ban level's time (the penalty ban time without reputation), and in the end the filter knows it |
| Penalties.ForbiddenStaysOut | engine_process.go:41-62 | From that moment on, over every run in which nobody shortens the ban, every later request of the address is denied until the configured time is over |
| Spacing.PassIsFirstHit | internal/redislua/script.go:22-32 | A script step that passes under limit 1 appends a hit that begins its window |
| Spacing.PassesAreApart | internal/redislua/script.go:22-32 | Over every run, two script steps that pass under limit 1 for the same key are at least a window apart in time |
| Spacing.EveryAllowanceHasPass | engine_process.go:82-140 | Over every run, each decision that the script allowed under limit 1 comes from such a step of its own request |
| Spacing.PenalisedRequestsApart | engine_process.go:63-65 | So two requests let through under limit 1, as every penalised request that gets through is, passed at least a window apart if they share their rate-limit key |
| Spacing.OnePenalisedPerWindow | engine_process.go:63-65 | Over every run a check under limit 1 is allowed only as the first of its counter window |
| CacheSoundness.CacheHitIsRecentBan | engine_process.go:41-47 | Over every run in which the address's outstanding cache writes are timely, a denial from the cache means that the address was banned in Redis later than two seconds before the request arrived; nothing is assumed about other addresses, evictions or the order of actions |
| CacheTiming.CacheWriteSoundIff | engine_penalty.go:23-35 | After every run, an outstanding cache write keeps that bound for all time to come exactly when it is timely: its entry, written now, would end less than two seconds after the ban that Redis holds |
| CacheTiming.OneReadingIsTimely | engine_penalty.go:23-35 | Taking each ban of the address with one clock reading and no second ban of it in between makes every cache write timely |
| CacheSoundness.RunInv | engine_penalty.go:23-35 | Over every run, however late the cache writes, the ban behind an outstanding one is live in Redis or was until its end, and the address was not banned from that end on |
| CacheSoundness.RunCacheOk | engine_penalty.go:23-35 | Over every run with timely cache writes, each settled cache entry ends less than two seconds after a time at which the address was, or will still be, banned |
| CacheTiming.LateCacheWrite | engine_penalty.go:23-35 | A cache write d milliseconds after its ban is sound exactly for d below 2000 |
| CacheTiming.InterleavedBansGoStale | engine_penalty.go:23-35 | Two bans at one instant, the first cached last: sound exactly when the first is not two seconds longer than the second |
| CacheTiming.ForeignBanSoundIff | engine_process.go:41-47 | After every run, a ban of the address by another client leaves a settled cache entry sound for all time to come exactly when the entry ends less than two seconds after the new ban |
| EndToEnd.AdaptiveKeepsBan | engine_background.go:94-115 | The adaptive stage never lifts a ban or its cache and filter entries, and places none when disabled |
| EndToEnd.ScoreBansIff | engine_background.go:71-92 | A counted score whose total reaches the threshold bans the address in Redis, the cache and the filter; without adaptive banning only such a score bans |
| EndToEnd.BannedIsDenied | engine_process.go:41-123 | A banned address reported by the filter is denied when the script answers, whatever the caches, the penalty box and the limit |
| EndToEnd.BannedGetsThroughIff | engine_process.go:41-140 | In every state with the address banned, its request is let through exactly when the local cache does not know the ban, it is not penalised or sends every required header, and the filter does not report the address or the script goes unanswered under FailOpen |
| EndToEnd.JobBanLastsIff | engine_background.go:71-115 | A finished job over the threshold leaves a ban until exactly now plus the level's time, or the adaptive time when that wrote last |
| EndToEnd.OffenderIsDenied | engine_background.go:71-115 | From the end of a job over the threshold, over every run in which nobody shortens its ban and the clock stays below the ban's end, every arriving request of the address is denied |
| EndToEnd.OffenderIsDeniedMidJob | engine_background.go:82-87 | The same from the script call itself, with the rest of the job interleaved in any way, for requests that arrive when the filter knows the address |
| Engine.Engine.constructor | engine.go:64-131 | A new engine has an empty queue and no recorded event, and its parts fit together |
| Engine.Engine.EffectiveLimit | engine_process.go:35-38 | MaxRequests, or the self-healing limit for this address; always between 1 and MaxRequests |
| Engine.Engine.Elapse | engine_process.go:26 | Time may pass between two calls: the engine stays consistent with Redis and its clock |
| Engine.Engine.Foreign | internal/redislua/script.go:15-33 | Another engine on the same Redis may act between two calls: the engine stays consistent with the store |
| Engine.Engine.Process | engine_process.go:25-140 | Decision, Redis, caches and filter end as one uninterrupted protocol run, and decision, source and Redis are those of the table over raw fields; a banned address reported by the filter is denied; one request event, one observation (clean exactly when let through), at most one queued snapshot |
| Engine.Engine.Answer | engine_process.go:41-140 | Under a given limit the decision, its source and what is left in Redis are those of the table, and those of the protocol run |
| Engine.Engine.Decide | engine_process.go:41-47 | The decision under a limit, from the cache on, is that run |
| Engine.Engine.AskPenalty | engine_process.go:48-70 | The stage from the penalty box on is the rest of that run, with the limit lowered to 1 for a penalised request |
| Engine.Engine.Forbid | engine_process.go:51-61 | A request failing the strict checks is forbidden with status 403 and its address banned |
| Engine.Engine.AskBloom | engine_process.go:71-80 | The filter's answer decides between letting through and the script |
| Engine.Engine.AskRedis | engine_process.go:82-140 | The decoded script answer, or its absence, gives the decision and the local writes of that run |
| Engine.Engine.AskScript | engine_process.go:111-139 | Each of the three script answers gives the decision and the local writes of that run |
| Engine.Engine.RunScript | engine_process.go:82-111 | The script runs under the keys of address and rate-limit key, and its decoded reply is the store's answer |
| Engine.Engine.IsInPenalty | engine_penalty.go:46-59 | Local hit, live Redis key (remembered for its lifetime) or not penalised, with the lifetime reported |
| Engine.Engine.BanIP | engine_penalty.go:17-40 | Redis, cache and filter all hold the ban afterwards, or, without address or answer, none changed |
| Engine.Engine.SetPenalty | engine_penalty.go:61-76 | Redis and the local box both hold the penalty afterwards, or none changed |
| Engine.Engine.EndCached | engine_process.go:42-46 | Exit on a cached ban: one blocked event, one observation, nothing queued, and the protocol's decision |
| Engine.Engine.EndForbidden | engine_process.go:57-61 | Exit on failed strict checks: one blocked event, one observation, nothing queued, status 403 |
| Engine.Engine.EndUnknown | engine_process.go:72-79 | Exit on an unknown address: one allowed event, one observation, queued if there is room |
| Engine.Engine.EndFailOpen | engine_process.go:96-103 | Exit on failing open: one allowed event, one clean observation, queued if there is room |
| Engine.Engine.EndRedisError | engine_process.go:105-108 | Exit on an unanswered script: one blocked event, one observation, nothing queued |
| Engine.Engine.EndBlacklisted | engine_process.go:114-123 | Exit on a ban that the script found: cached for two seconds and added to the filter; one blocked event, one observation, nothing queued |
| Engine.Engine.EndRateLimited | engine_process.go:125-129 | Exit on an exceeded limit: one blocked event, one observation, nothing queued |
| Engine.Engine.EndAllowed | engine_process.go:131-138 | Exit within the limit: one allowed event, one clean observation, queued if there is room |
| Engine.Engine.FinishDecision | engine_process.go:142-147 | The self-healing state, if any, observes the decision once |
| Engine.Engine.TryEnqueue | engine_process.go:149-157 | The queue never exceeds its size: a full one drops the new snapshot and keeps the others |
| Engine.Engine.ApplyReputationScore | engine_reputation.go:12-52 | The script runs under the four keys of the address and its answer is handed on |
| Engine.Engine.UseScore | engine_background.go:71-92 | The stage that acts on a positive score is that stretch of the job's protocol run |
| Engine.Engine.AdaptiveBan | engine_background.go:94-115 | The adaptive stage is the end of the job's protocol run |
| Engine.Engine.ProcessSnapshot | engine_background.go:35-116 | All scores are added once; Redis, caches and filter end as the job's protocol run for the sum, and Redis as the job table says; a total over the threshold leaves the address banned and in the filter |
| Engine.Engine.SumScores | engine_background.go:45-57 | The score is the sum over rules, evaluators, signature rules and behaviour |
| Engine.TotalsAdd | engine_background.go:45-57 | The sums over joined score lists are the sums of the parts, so no score is left out or counted twice |
| Snapshots.OwnerStep | engine_background.go:118-131 | Every step keeps each snapshot in at most one place (pool, channel, one request or one worker) |
| Snapshots.ConservedStep | engine_process.go:149-157 | Every step keeps: submissions are processed, dropped, queued or held |
| Snapshots.FifoStep | engine_background.go:17-30 | Every step keeps: workers receive exactly what was sent, in order, unchanged |
| Snapshots.SentOnceStep | engine_process.go:149-157 | Every step keeps: no submission is sent twice |
| Snapshots.ProcessedOnceStep | engine_background.go:17-30 | Every step keeps: no submission is processed twice, only received ones are, what workers hold is not yet processed and differs between workers, and received = processed + in work |
| Snapshots.DropsOnlyWhenFull | engine_process.go:149-157 | A submission is dropped and pooled exactly when the channel is full; otherwise it goes to the tail of the channel |
| Snapshots.WorkersProceed | engine_background.go:17-30 | An idle worker takes the head of the channel, and a busy one processes what it holds and pools it |
| Snapshots.WorkerKept | engine_background.go:118-131 | Reusing pooled snapshots never overwrites one that a worker is processing |
| Snapshots.RequestKept | engine_background.go:118-122 | Reusing pooled snapshots never overwrites one that a request holds |
| Snapshots.RunInv | engine_background.go:17-30 | Over every interleaving all of this holds: in particular the processed submissions are distinct and were received, and the channel never exceeds its capacity |

## Left out

- HTTP, Gin, Echo and Fiber adapters, response headers, tracing, metrics sinks, signal handling, commands and examples: plumbing around `Process`. Of the statistics only the per-request event is modelled.
- Reading and decoding ruleset files: the model starts from a list of signature rules, and a reload from the outcome of the load. Node and rule statistics of a ruleset are sums of `Dfa.Matcher.NodeCount` and list lengths.
- Redis networking and partly applied pipelines: each call is answered as a whole or not at all, as the environment decides. INCR overflow and decimal rounding of HINCRBYFLOAT are not modelled.
- LRU order: any other entry may be evicted on an insertion, and in the protocol at any time.
- Defaults and constructors of configurations: their results are preconditions (positive limits, windows and ban times of at least a millisecond, SpikeFactor and DecayStep positive, MaxSensitivity above 1).
- Hash quality and fingerprints: the reputation field is any string, the two Bloom hashes are modelled but nothing is claimed about their spread.
- Unicode case mapping and white space: the normaliser of tokens is a parameter, so results hold for every normaliser; only the ASCII folding of the scan is concrete.
- The behaviour tracker, rule presets and custom evaluators: their scores are arbitrary inputs of `Engine.Engine.ProcessSnapshot`.
- Floating-point rounding of scores and of the self-healing multiplier: real arithmetic.
- The split of long bodies: `Process` is cut into the stages Answer, Decide, AskPenalty, AskBloom, AskRedis and AskScript and its eight exits into one method each, the failure pass into CompleteRoot and CompleteState per row, the last loop of the scan into Collect, the reputation script's crossing branch into Cross, the loops of CompileRuleset into RouteRules and those of evaluateRuleset into SumMatchers, each with its own contract.
- Engine.Engine.Process: is one goroutine without interference during the call; between calls time passes and others act (Elapse, Foreign), and interleavings within a call are covered by the protocol, not by the class.
- Engine.Engine.ProcessSnapshot: takes the scores of rules, evaluators and behaviour as arguments, and its caller is the worker loop of `Snapshots`; the captured headers are those of the given request.
- Patterns.TokensOfWords: is about patterns that trimming leaves alone; Patterns.TokensOfPattern covers every pattern.
- Dfa.Matcher.FindAll: states the matches as a multiset, because the order comes from walking a Go map.
- Bloom.Filter.constructor: requires dimensions for which `bits + 63` does not wrap; Bloom.InBoundsIffNoWrap says that exactly those are safe.
- Bloom.Filter.Add: runs alone, so its swap loop never retries; concurrent runs are the machine of `BloomRuns`.
- CacheSoundness.CacheHitIsRecentBan: needs timely cache writes, which is the exact condition (CacheTiming.CacheWriteSoundIff), and no foreign ban of the address; CacheTiming.ForeignBanSoundIff says exactly which foreign bans do no harm.
- Enforcement.BanEnforced: with the Bloom filter on it needs the address's filter write to be completed; EndToEnd.BannedGetsThroughIff says what happens otherwise.
- Penalties.PenaltyConfines: needs Redis answering, and the Bloom filter off or the address in it; a request that the filter does not report skips the counter by design.
- Ledger.RateLimitHolds: starts from a store without live counters, so that the history begins with the run (as do the results built on it).
- Closing an engine and stopping its workers; rule counts.
