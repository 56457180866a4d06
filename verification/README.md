# Verified model of the load balancer's routing engine

This project models the parts of the load balancer that decide where a request goes and what is counted about
it, and proves what they keep on every input and over every run. To verify: `dafny verify dfyconfig.toml`.

Objects whose methods update fields in the program are classes here, with loops where the program loops; each
method is proved against a specification function, and the lemmas are about those functions. Methods that hold
their mutex for their whole body are atomic, so concurrent use is any interleaving of calls. Iterating over a
map visits the keys in arbitrary order. Clock readings, jitter and the behaviour of backends are parameters.

| file | models |
|---|---|
| `Swrr`, `Canary` | one selection of the smooth weighted round robin: its specification, and the object with its two maps |
| `SwrrFairness` | runs of selections with changing candidates: credits, fairness, the sentinel |
| `SwrrSchedule` | runs with a fixed candidate list: exactness, quota, period |
| `SwrrSentinel` | when exactly the sentinel can fire with two servers |
| `BalancerRouter`, `CandidateOrder` | filter, choose, admit |
| `RuleSyntax`, `RuleLexer`, `RuleParser`, `Utf8` | routing rules as trees with their meaning; the lexer and the recursive-descent parser on bytes |
| `RuleTokens`, `RuleArguments`, `RuleMeaning` | which texts are which tokens and matchers, and what rules mean, said without the lexer and the parser |
| `RuleGrammar`, `RulePrinter` | agreement with the grammar; printing and reading back |
| `RouteTable` | the sorted table of routes |
| `CircuitBreaker` | the timed state machine and its history |
| `Stats`, `StatsRuns`, `Collector` (module `Metrics`) | per-server records, latency window, percentile; the collector |
| `Publishing`, `HealthMonitor` | how breaker states reach the collector |
| `PublishingRaces` | the same when recording, reading and publishing interleave |
| `ProxyRuns` | interleavings of proxied requests and what their counters add up to |
| `Retry` (module `Retrying`) | buffering writer, retry loop, backoff |
| `Config`, `Services` | URL distinctness; services, their isolation and the aggregated dashboard |
| `Sums`, `Options` | finite sums; a value or nothing |

## Main results

- **Fair under changing candidates.** However the health filter varies the candidates, every set of k of the n
  servers is owed at most W·k·(n−k) and owes at most as much (`SwrrFairness.BoundedUnfairness`). Credits sum to
  zero exactly when every call returned a server (`SumZeroIffServed`), which the sentinel −2^30 guarantees while
  (n−1)·W < 2^30 (`SentinelSound`); beyond it, it can fail (`SentinelCanFail`). For two servers the exact
  threshold is `SwrrSentinel.TwoServersExactly`.
- **Exact with fixed candidates.** Any W consecutive picks name each server exactly as often as its weight, and
  the schedule repeats (`SwrrSchedule.WindowExact`, `Periodic`); the weights are those of the configuration
  (`CanaryAlgorithm.ConfiguredShares`).
- **Rules mean what the grammar says.** `ParsesExactlyTheGrammar`, `Unambiguous`, exactly which texts are matchers
  (`RuleArguments.MatcherOfExactly`), and a round trip that holds
  for exactly the trees with trimmed arguments (`RulePrinter.RoundTripsExactly`), through a print that no shorter
  token sequence can replace (`PrintIsShortest`).
- **The best route wins.** `RouteTable.Manager.FindRoute` returns the match of highest priority and then longest
  rule. The answer is independent of the order of insertion iff at most one route is a best
  match (`RouteTable.AnswerIndependentIffBestUnique`).
- **Breakers refine their history**, admission is a property of the history alone, and the router's
  "circuit is open" error cannot occur within one selection (`CircuitBreaker.AdmissionByHistory`,
  `BalancerRouter.Router.Select`). The router running the canary algorithm succeeds on every call of every run
  exactly when some server is eligible (`Router.SelectByCanary`).
- **Published states.** Which schedules of overlapping publishers always show CLOSED exactly for a closed
  breaker, and which always show its very state, is decided from the schedule alone
  (`PublishingRaces.ShowsClosedExactly`, `ShowsStateExactly`).
- **Nothing is lost in the counters** over any interleaving (`ProxyRuns.RequestsConserved`).
- **One response per request** from the retry loop, with bounded waits (`Retrying.Retry.Serve`,
  `TotalWaitBounds`).
- **Services are isolated** and add up on the dashboard exactly when no backend is configured twice
  (`Config.Validate`, `Services.Manager.DashboardSnap`).

## Where the code and its documentation differ

The model follows the code.

- `internal/middleware/README.md:21` says that a retry avoids the backend that failed. The request built with
  the longer exclusion list (`internal/middleware/retry.go:154-159`) is overwritten at lines 132-133 before it
  is used: every invocation is given the list of the outer request (`Retrying.Retry.Serve`,
  `RetryMayReuseBackend`). X-Attempts holds the attempt number of the outer request (line 168), not the number
  of attempts made.
- `internal/health/README.md:23` and `internal/balancer/README.md:215` speak of one probe at a time in
  HALF_OPEN. `CanSend` admits every request in that state (`internal/health/breaker.go:69-70`); see
  `AdmitsLater`.
- The repository's `README.md:149` says that the event log shows attempted recovery (HALF-OPEN). If a result is
  recorded and published without interruption, HALF_OPEN is never shown (`PublishedStateTracksBreaker`). It is
  shown only if the balancer asks the breaker between the record and the read (`HalfOpenCanBePublished`,
  `HalfOpenNeedsQuestion`).
- The repository's `README.md:145` promises exact shares. With a fixed candidate list and zero credits they are
  exact; with changing candidates the bound above holds.
- A threshold below 1 acts like 1 (`CircuitBreaker.TripsAt`).

## Model

| member | source | states |
|---|---|---|
| `CanaryAlgorithm.Canary.InitWeights` | internal/balancer/canary.go:26-46 | after the first call every server of the snapshot has the very weight it has there if that is at least 1, weight 1 otherwise, and zero credit, whatever order the map is walked in; later calls change nothing |
| `CanaryAlgorithm.Canary.Select` | internal/balancer/canary.go:55-113 | the server returned and the whole new state are those of `Swrr.Pick` and `Swrr.Step`; stored weights are those of the snapshot, 1 for servers met late; the empty list changes nothing and does not initialise; the branch for a zero total is unreachable |
| `CanaryAlgorithm.Canary.Enroll` | internal/balancer/canary.go:77-87 | unknown candidates enter both maps with weight 1 and credit 0, others keep theirs, and the total counts each candidate as often as it is listed |
| `CanaryAlgorithm.Canary.Settle` | internal/balancer/canary.go:93-112 | after topping up, scanning and charging, the credits and the choice are those of the specification |
| `Swrr.FirstLargest` | internal/balancer/canary.go:94-105 | the scan finds the first candidate with the largest topped-up credit, and none exactly when all are at or below the sentinel |
| `Swrr.PickIsLargest` | internal/balancer/canary.go:94-112 | over a duplicate-free list, the server chosen is the first one with the largest credit plus weight; none is chosen iff every such sum is at or below -2^30 |
| `Swrr.StepOnDistinct` | internal/balancer/canary.go:77-110 | one selection moves each credit by its own weight if listed, minus the combined weight if chosen, and moves no other credit |
| `Swrr.GainPerListing` | internal/balancer/canary.go:97-99 | in any list a candidate is topped up by its weight once per listing |
| `Swrr.TotalIsAllGains` | internal/balancer/canary.go:78-87 | the combined weight is what all candidates together are topped up by |
| `Swrr.StepSound` | internal/balancer/canary.go:24-46 | weights stay positive and are never changed by a selection, including the weight 1 of servers met late |
| `SwrrFairness.ChargeKeepsBalance` | internal/balancer/canary.go:97-110 | one selection over any subset keeps "credits sum to 0 and any k of n servers are owed at most cap(k)", for every symmetric cap whose second difference is at most -2W |
| `SwrrFairness.RunBalanced` | internal/balancer/canary.go:77-112 | the same over every run of selections with arbitrary candidate lists in which each call returned a server |
| `SwrrFairness.BoundedUnfairness` | internal/balancer/canary.go:77-112 | over every run that always got a server, credits sum to 0 and the credit of every set of k of n servers lies within W*k*(n-k) of 0 |
| `SwrrFairness.CreditIsDebt` | internal/balancer/canary.go:97-110 | a server's credit is exactly what it was entitled to minus what it received, on every run |
| `SwrrFairness.BoundedUnfairnessOfOne` | internal/balancer/canary.go:77-112 | over every run in which each call returned a server, entitlement and service of each server differ by at most (n-1)*W, however the health filter varies the candidates |
| `SwrrFairness.SentinelSound` | internal/balancer/canary.go:94-112 | while (n-1)*W < 2^30, every call on every run returns one of its candidates |
| `SwrrFairness.SentinelCanFail` | internal/balancer/canary.go:94-112 | a family of inputs beyond that bound on which the third call returns no server |
| `SwrrFairness.SumZeroIffServed` | internal/balancer/canary.go:97-110 | the credits of a run sum to 0 if and only if every call returned a server |
| `SwrrSentinel.ServedBelow` | internal/balancer/canary.go:94-112 | with two servers below the threshold, every run is served and the credits stay opposite, at most W/2, and multiples of the greatest common divisor of the weights |
| `SwrrSentinel.UnservedAt` | internal/balancer/canary.go:94-112 | with two servers at the threshold, a run is built whose last call returns no server |
| `SwrrSentinel.TwoServersExactly` | internal/balancer/canary.go:94-112 | with two servers every call of every run returns a server iff the largest multiple of the greatest common divisor up to W/2 exceeds the lighter weight by less than 2^30 |
| `SwrrSentinel.OneServerAlways` | internal/balancer/canary.go:94-112 | a single server is always returned, whatever its weight |
| `SwrrSchedule.AlwaysPicks` | internal/balancer/canary.go:94-112 | with a fixed list and zero credits the sentinel never matters: every call returns a listed server, for any weights |
| `SwrrSchedule.CreditOverTime` | internal/balancer/canary.go:93-110 | after t calls a server's credit is t*w - W*picks, and above -W |
| `SwrrSchedule.PrefixQuota` | internal/balancer/canary.go:93-110 | among the first t picks no server has more than ceil(t*w/W) |
| `SwrrSchedule.BackToStart` | internal/balancer/canary.go:93-112 | after W calls every credit, of listed and unlisted servers, is back where it was |
| `SwrrSchedule.Periodic` | internal/balancer/canary.go:93-112 | credits and schedule repeat with period W |
| `SwrrSchedule.WindowExact` | internal/balancer/canary.go:10-14 | any W consecutive picks, at any offset of the run, name each server exactly as often as its weight |
| `CanaryAlgorithm.StepWeights` | internal/balancer/canary.go:79-85 | a selection keeps every stored weight and gives a server met for the first time weight 1 |
| `CanaryAlgorithm.ConfiguredShares` | internal/balancer/canary.go:10-14 | from a snapshot with positive weights, any W consecutive calls with the same list return each server exactly as often as the weight it is configured with |
| `SwrrSchedule.FixedCallsAreARun` | internal/balancer/canary.go:55-113 | offering the same list on every call of a run gives a run of this kind, with the same states and picks |
| `SwrrSchedule.FixedCallsExact` | internal/balancer/canary.go:10-14 | exactness said about runs of calls: any W consecutive calls with the same list return each server exactly as often as its weight |
| `BalancerRouter.Router.Passes` | internal/balancer/router.go:44-54 | the filter for one server: not excluded, known to the collector, healthy, and not blocked by its breaker; nothing is changed |
| `BalancerRouter.Router.Filter` | internal/balancer/router.go:34-55 | the candidates are exactly the eligible servers, in the order of the list |
| `BalancerRouter.Router.Select` | internal/balancer/router.go:33-71 | for any algorithm that returns a candidate or nothing: which of the outcomes occurs and with which server; with one that answers on every list the filter can produce, success iff some server is eligible; "circuit is open" cannot occur; only the chosen breaker changes |
| `BalancerRouter.Router.SelectByCanary` | internal/balancer/router.go:33-71 | with the canary object after any run of selections within the weight bound: a server is returned iff some server is eligible, it is the one the specification picks, no other error can occur, and the run goes on by this call |
| `BalancerRouter.CanaryAnswers` | internal/balancer/router.go:61-64 | after any such run the canary algorithm answers on every list the filter can produce |
| `BalancerRouter.Router.Admit` | internal/balancer/router.go:66-69 | a breaker that passed the filter admits the request at any later clock reading |
| `BalancerRouter.PassingDistinct` | internal/balancer/router.go:42-55 | a duplicate-free server list gives a duplicate-free candidate list |
| `CandidateOrder.PassingInOrder` | internal/balancer/router.go:42-55 | the candidates keep the order of the server list |
| `BalancerRouter.CanaryReturnsACandidate` | internal/balancer/router.go:61-64 | after any run of selections within the weight bound, the canary algorithm meets that contract, so "returned no server" cannot occur; `Router.SelectByCanary` uses it |
| `RuleLexer.Lexer.SkipWhitespace` | internal/router/rule.go:31-35 | moves to the first byte that is not white space, or to the end |
| `RuleLexer.Lexer.ReadMatcher` | internal/router/rule.go:37-67 | reads up to the first ')' outside quotes, or fails at the end of input |
| `RuleLexer.Lexer.ReadToken` | internal/router/rule.go:69-98 | the token and the new position are those of the specification `TokenAt` |
| `RuleLexer.Lexer.NextToken` | internal/router/rule.go:69-98 | a token other than the end strictly advances the position, never past the end of input, and the tokens still to come are the rest of the token sequence |
| `RuleTokens.MatcherExactly` | internal/router/rule.go:37-67 | the matcher at the start of a text is the prefix that ends at its first ')' outside quotes |
| `RuleTokens.TokenAtExactly` | internal/router/rule.go:75-97 | exactly which texts start with which token; in all other cases lexing breaks down |
| `RuleParser.Parser.constructor` | internal/router/rule.go:113-113 | a parser starts at the beginning of the rule |
| `RuleParser.Parser.Next` | internal/router/rule.go:105-109 | fetches the next token of the sequence, or reports the lexing error |
| `RuleParser.Parser.ParseExpression` | internal/router/rule.go:128-144 | terminates and returns what `Expression` says of the remaining tokens, leaving the tokens it leaves |
| `RuleParser.Parser.ParseTerm` | internal/router/rule.go:147-163 | the same for `Term` |
| `RuleParser.Parser.ParseFactor` | internal/router/rule.go:166-196 | the same for `Factor` |
| `RuleParser.Parser.ParseGroup` | internal/router/rule.go:167-182 | the same for a factor that starts with a parenthesis |
| `RuleParser.Parser.CloseGroup` | internal/router/rule.go:175-181 | the group ends with a closing parenthesis, or is refused |
| `RuleParser.ParseArgs` | internal/router/rule.go:198-234 | the arguments, or the error, of `ArgsOf`; `RuleArguments.SplitExactly` says what these are |
| `RuleParser.CreateMatcher` | internal/router/rule.go:236-278 | the matcher, or the error, of `MatcherOf`; `RuleArguments.MatcherOfExactly` says which that is |
| `RuleArguments.SplitExactly` | internal/router/rule.go:203-233 | an argument text splits into given values iff it consists of comma separated arguments, made of plain characters and closed quoted segments, whose trimmed texts these are |
| `RuleArguments.PlainTextIsOneArgument` | internal/router/rule.go:225-232 | text without quotes and commas is one argument, its own trimmed form |
| `RuleArguments.MatcherOfExactly` | internal/router/rule.go:236-278 | a matcher text is accepted as a matcher iff it ends in ')', the text before its first '(' trims to the name of that matcher, and the argument text splits into exactly its arguments; so any other name is refused |
| `RuleParser.ParseRule` | internal/router/rule.go:112-125 | the imperative lexer and parser compute `Parse`, the error cases included |
| `RuleGrammar.DerivedIsParsed` | internal/router/rule.go:127-196 | every derivation of the grammar is found by the parser |
| `RuleGrammar.ParsedIsDerived` | internal/router/rule.go:127-196 | whatever the parser returns is derived by the whole token sequence |
| `RuleGrammar.ParsesExactlyTheGrammar` | internal/router/rule.go:127-196 | a rule is parsed to a tree iff its tokens are a complete derivation of that tree; the and-operator binds tighter than the or-operator, and both associate to the left |
| `RuleGrammar.Unambiguous` | internal/router/rule.go:127-165 | a token sequence derives at most one tree |
| `RuleGrammar.OnlyLastEnds` | internal/router/rule.go:69-98 | only the last token of the sequence is the end or an error |
| `RulePrinter.LexesPrinted` | internal/router/rule.go:37-98 | the printed form of any tree lexes to its intended tokens, whatever its arguments contain |
| `RulePrinter.MatcherOfPrinted` | internal/router/rule.go:198-278 | a printed matcher is read back as that matcher; its arguments may contain ')', ',', operators, both quote characters and any Unicode |
| `RulePrinter.PrintedDerives` | internal/router/rule.go:127-196 | the printed form derives the tree |
| `RulePrinter.PrintIsShortest` | internal/router/rule.go:127-196 | no token sequence that derives a tree is shorter than the printed one, so it has only the parentheses it needs |
| `RulePrinter.EveryParenthesisIsNeeded` | internal/router/rule.go:165-182 | without any two of its tokens, a pair of parentheses in particular, the printed form no longer derives the tree |
| `RulePrinter.RoundTrip` | internal/router/rule.go:112-278 | parsing the print of any tree with trimmed arguments gives the tree back |
| `RulePrinter.AcceptedRoundTrips` | internal/router/rule.go:112-278 | every accepted rule can be printed and parsed again without change |
| `RulePrinter.RoundTripsExactly` | internal/router/rule.go:198-234 | a tree round-trips iff its arguments are trimmed, and those are exactly the trees some rule denotes |
| `Utf8.DecodeEncode` | internal/router/rule.go:208-208 | ranging over a string's runes undoes its UTF-8 encoding, for every text |
| `Utf8.DecodedFromEncoding` | internal/router/rule.go:208-208 | a code point is decoded only from its own encoding; whatever starts no encoding is one replacement character of width 1 |
| `RuleSyntax.TrimIsTrimmed` | internal/router/rule.go:220-232 | trimming leaves no outer white space and leaves trimmed text alone |
| `RuleSyntax.TrimCutsBlanks` | internal/router/rule.go:220-232 | trimming removes white space at the two ends and nothing else |
| `RuleMeaning.EvalByClauses` | internal/router/matcher.go:74-85 | a rule holds iff all matchers of one of its alternatives hold, alternatives being multiplied out from and-nodes and or-nodes |
| `RuleMeaning.PathsAccepted` | internal/router/matcher.go:14-25 | a prefix matcher accepts the paths that continue its text, a path matcher only the text itself |
| `RuleMeaning.MethodsAccepted` | internal/router/matcher.go:28-33 | a method matcher ignores the case of its own ASCII letters, not that of the request |
| `RuleMeaning.HeadersAccepted` | internal/router/matcher.go:36-40 | a header matcher accepts exactly one value |
| `RouteTable.SortRoutesSorts` | internal/router/router.go:49-55 | the order by priority and then rule length can always be established by a permutation |
| `RouteTable.Manager.AddRoute` | internal/router/router.go:33-58 | the table stays sorted and a permutation of what was added; a rule that does not parse changes nothing |
| `RouteTable.Manager.FindRoute` | internal/router/router.go:62-69 | returns a matching route; every matching route has at most its priority and, at equal priority, at most its rule length; none is returned iff none matches |
| `RouteTable.FirstMatchRanksHighest` | internal/router/router.go:49-69 | the first match of a sorted table has the highest priority of all matches and, among those, the longest rule |
| `RouteTable.FirstIsBest` | internal/router/router.go:62-69 | the first match of a sorted table is a best match |
| `RouteTable.BestCanComeFirst` | internal/router/router.go:49-69 | every best match is the answer of some table the manager may hold |
| `RouteTable.AnswerIndependentIffBestUnique` | internal/router/router.go:33-69 | the answer is independent of the order of insertion and of how ties are sorted iff at most one route is a best match |
| `RouteTable.DistinctRanksDecide` | internal/router/router.go:49-69 | if priority and rule length tell the routes apart, all tables answer alike |
| `CircuitBreaker.RefinesHistory` | internal/health/breaker.go:57-96 | in every reachable state the counter is the number of failures since the last success, CLOSED iff that is below the threshold, HALF_OPEN iff not and a question was answered yes since the latest failure |
| `CircuitBreaker.HalfOpenIsRecovered` | internal/health/breaker.go:63-70 | a half-open breaker has outlived its recovery timeout |
| `CircuitBreaker.AdmissionByHistory` | internal/health/breaker.go:45-73 | under a clock that does not run backwards, a request is admitted iff fewer than threshold failures since the last success or the latest failure is more than the timeout ago |
| `CircuitBreaker.AdmitsLater` | internal/health/breaker.go:57-73 | an admissible breaker stays admissible until something is recorded, other questions included |
| `CircuitBreaker.OnlyFailuresRevoke` | internal/balancer/router.go:52-67 | between filter and admission, successes and questions of others cannot take an admission back |
| `CircuitBreaker.FailureRevokesExactly` | internal/health/breaker.go:88-96 | a failure does so iff it makes the failures since the last success reach the threshold, until the timeout has passed |
| `CircuitBreaker.Breaker.IsOpen` | internal/health/breaker.go:45-53 | changes nothing and is exactly the negation of admission by history |
| `CircuitBreaker.Breaker.CanSend` | internal/health/breaker.go:57-73 | answers by the history, and states the whole new state |
| `CircuitBreaker.Breaker.RecordSuccess` | internal/health/breaker.go:77-84 | closes the breaker and reports whether the failures since the last success had reached the threshold |
| `CircuitBreaker.Breaker.RecordFailure` | internal/health/breaker.go:88-96 | never leaves the breaker half open; it is open iff the failures since the last success now reach the threshold |
| `Metrics.Collector.constructor` | internal/metrics/collector.go:69-92 | the records of `NewServers`, no events |
| `Metrics.NewServersAreFresh` | internal/metrics/collector.go:74-90 | exactly the given servers, each healthy, CLOSED, with all counters and latencies zero and a positive weight |
| `Metrics.RecordTouchesOne` | internal/metrics/collector.go:102-252 | a call about one server leaves all others alone, a call about an unknown one everything; the log grows by one event iff the circuit state of a known server changes |
| `Metrics.Collector.RecordStart` | internal/metrics/collector.go:102-108 | one call on the book of records |
| `Metrics.Collector.RecordEnd` | internal/metrics/collector.go:111-145 | one call on the book of records: counters, window, mean and percentile |
| `Metrics.Collector.SetHealth` | internal/metrics/collector.go:180-187 | one call on the book of records |
| `Metrics.Collector.SetCircuitState` | internal/metrics/collector.go:191-216 | one call on the book; the retained events stay the last 50 of everything ever logged |
| `Metrics.Collector.RecordPriority` | internal/metrics/collector.go:219-229 | one call on the book: HIGH or, for any other text, LOW |
| `Metrics.Collector.ClearLatencies` | internal/metrics/collector.go:244-252 | one call on the book: window, mean and percentile |
| `Metrics.Collector.ImportMetrics` | internal/metrics/collector.go:267-282 | whatever order the old snapshot is walked in, servers in both get the old counters, others and the log are untouched |
| `Metrics.Collector.DashboardSnap` | internal/metrics/collector.go:285-332 | totals, success rate, healthy count and events summarise the records, in whatever order they are added up |
| `Metrics.ComputeP95` | internal/metrics/collector.go:148-167 | the percentile of the window, the window unchanged |
| `Stats.P95IsSmallest` | internal/metrics/collector.go:158-166 | the percentile is the smallest sample with at least 95% of the samples at or below it |
| `Stats.P95IgnoresOrder` | internal/metrics/collector.go:148-167 | it does not depend on the order of arrival |
| `Stats.WindowIsLastSamples` | internal/metrics/collector.go:124-128 | over every run, the window holds exactly the last min(100, m) of the m samples since the last clear |
| `Stats.AveragesAfterEnd` | internal/metrics/collector.go:130-138 | right after a request ended, the mean and the percentile are those of that window |
| `StatsRuns.MeanExtends` | internal/metrics/collector.go:130-135 | one more sample moves the mean by its own weight |
| `StatsRuns.CountersCount` | internal/metrics/collector.go:111-229 | over every run without an import, each counter has grown by the number of calls it counts, HIGH and LOW apart |
| `StatsRuns.LatestReported` | internal/metrics/collector.go:180-216 | the latest health and circuit state reported are the ones shown |
| `StatsRuns.ImportTakes` | internal/metrics/collector.go:270-281 | an import takes the traffic counters, average and percentile of the old record and leaves everything else |
| `StatsRuns.SuccessRateIsPercentage` | internal/metrics/collector.go:313-316 | times the total the rate is a hundred times the successes; 0 without requests; between 0 and 100 |
| `Metrics.NewServerAt` | internal/metrics/collector.go:74-90 | each server has the name and weight it was given; of a repeated server, the last entry counts |
| `Publishing.EventsChain` | internal/metrics/collector.go:191-216 | over every run of collector calls, each server's events chain old state to new state, from CLOSED to the state shown, without repeats |
| `Publishing.EventsNamed` | internal/metrics/collector.go:203-210 | every event in the full log carries the name of its server |
| `Publishing.ResultEffect` | internal/service/manager.go:283-291 | a result wipes window, average and percentile of its server iff it is a success after at least threshold failures since the last one; counters, health and all other servers stay |
| `Publishing.ResultEffectOverRuns` | internal/service/manager.go:283-291 | the same for the next result after every run of a service |
| `Publishing.AdmitEffect` | internal/health/breaker.go:57-73 | a question is answered by the history and changes nothing that is shown |
| `Publishing.PublishedStateTracksBreaker` | internal/service/manager.go:279-295 | if record and publish are one step, over every run a server is shown CLOSED iff its breaker is closed, OPEN otherwise |
| `PublishingRaces.OneTurn` | internal/service/manager.go:283-291 | the three steps of one publisher without interruption record the result and show the new state |
| `PublishingRaces.ShownIsSource` | internal/service/manager.go:283-291 | with recording, reading and publishing as separate steps of any number of publishers, what is shown is the state at the read that was published last |
| `PublishingRaces.ShowsClosedExactly` | internal/service/manager.go:283-291 | a schedule shows CLOSED exactly for a closed breaker, whatever the results and times, iff no record comes after the read that was published last |
| `PublishingRaces.ShowsStateExactly` | internal/service/manager.go:283-291 | a schedule shows the breaker's very state, whatever the results and times, iff neither a record nor a question comes after that read (timeout not negative) |
| `PublishingRaces.ShowsStateExactlyAtOnce` | internal/health/breaker.go:57-73 | with a negative timeout, where an open breaker turns half open at the first question, the exact condition also allows later questions if one came before that read, after the latest record |
| `PublishingRaces.LaterRecordCanMislead` | internal/service/manager.go:283-291 | for every schedule with a later record, results that leave a closed breaker shown as something else, from a reachable state and under any limits |
| `PublishingRaces.LaterQuestionCanMislead` | internal/health/breaker.go:57-73 | for every schedule with only later questions, times that leave a half-open breaker shown as OPEN |
| `PublishingRaces.TurnsShowClosed` | internal/service/manager.go:279-295 | publishers that do not overlap show CLOSED exactly for a closed breaker, wherever questions are asked |
| `PublishingRaces.OverlapCanMislead` | internal/service/manager.go:283-291 | two publishers that overlap do not, under any limits |
| `PublishingRaces.HalfOpenCanBePublished` | internal/service/manager.go:289-291 | HALF_OPEN is shown if a question is admitted between a tripping failure and the read; with a negative timeout without any pause |
| `PublishingRaces.HalfOpenNeedsQuestion` | internal/service/manager.go:283-291 | HALF_OPEN is not shown unless a question comes between the latest record and the read that was published last |
| `HealthMonitor.RecordOn` | internal/service/manager.go:283-291 | the breaker history grows by the result, and the book is the old one with the result published; `Publishing.ResultEffect` says what that changes |
| `HealthMonitor.RecordAndPublish` | internal/service/manager.go:283-292 | recording and publishing on the objects of a service is exactly one step of its state machine |
| `HealthMonitor.Monitor.Check` | internal/health/monitor.go:81-116 | one health check is a health call and a result step, for unreachable, wrong-status and healthy servers; the server is shown healthy iff it answered with the expected status |
| `HealthMonitor.CheckExtendsRun` | internal/health/monitor.go:93-114 | a check extends a run of the service by those two steps, so what holds over all runs holds with checks |
| `HealthMonitor.CheckOutcome` | internal/health/monitor.go:93-114 | health, shown state, latencies and counters after a check, by the failures since the last success; other servers are untouched |
| `Services.Instance.constructor` | internal/service/manager.go:66-117 | one closed breaker object per backend with the configured limits, and one fresh record with its configured name and weight |
| `Services.NewBreakers` | internal/service/manager.go:86-92 | a breaker object of its own for each URL |
| `Services.BuildAll` | internal/service/manager.go:55-62 | every configured service is built, and no two services share an object |
| `Services.Manager.constructor` | internal/service/manager.go:45-52 | the same, and a configuration with distinct URLs gives services that share no backend |
| `Services.Manager.RecordCircuitBreakerResult` | internal/service/manager.go:279-295 | one step at one service that has the backend, nothing at any other, whatever the iteration order; with isolated services it is the only such service; `Publishing.ResultEffect` says what the step changes |
| `Services.Manager.DashboardSnap` | internal/service/manager.go:210-257 | records and totals of all services, the last 50 of the events they retain; sums over the services when these are isolated, and the server count is exact only then |
| `Services.MergeAddsUp` | internal/service/manager.go:218-225 | whatever adds up over disjoint records adds up over the services, however the records were merged |
| `Services.MergedTotals` | internal/service/manager.go:227-235 | request, success, healthy and server totals of the merge are the sums over disjoint services |
| `Services.CountsExactWhenDisjoint` | internal/service/manager.go:218-222 | the merged server count is the sum of the counts iff no backend belongs to two services |
| `Config.Validate` | config/config.go:351-362 | accepts iff the backend URLs are pairwise distinct within and across services, in whatever order the services are visited |
| `Config.CheckService` | config/config.go:354-359 | one service against all URLs seen so far |
| `ProxyRuns.ProxyToBackend` | internal/proxy/proxy.go:107-171 | each path makes its collector calls in this order: start, end, and the priority only with a response |
| `ProxyRuns.ProxyEffect` | internal/proxy/proxy.go:107-171 | one request leaves one more request, a success iff a response below 500 came, a priority iff any response came, one latency sample, and no open connection |
| `ProxyRuns.UndisturbedRequest` | internal/proxy/proxy.go:107-171 | in the interleaving model, a request that is not disturbed makes exactly the calls of `ProxyToBackend`, in order |
| `ProxyRuns.RunTallies` | internal/proxy/proxy.go:114-171 | over every interleaving of requests, each counter equals the number of requests in the situation it stands for |
| `ProxyRuns.RequestsConserved` | internal/metrics/collector.go:102-145 | starts = total + active, total = successes + failures, high + low <= total, over every interleaving |
| `ProxyRuns.ClampNeverFires` | internal/metrics/collector.go:118-121 | when a request is about to end, its server has at least one active connection: the clamp at zero never acts |
| `ProxyRuns.PrioritiesAtRest` | internal/proxy/proxy.go:169-171 | once all requests are done, nothing is active and high + low counts exactly the requests that got a response |
| `Retrying.RetryWriter.Handle` | internal/middleware/retry.go:40-56 | an uncommitted writer adds the call to the response it captures and passes nothing on; a committed one passes the body through |
| `Retrying.PlayedResponse` | internal/middleware/retry.go:40-56 | the response captured has all bytes written, in order, the last status set, 200 by default, and for each header the values last set and those added since |
| `Retrying.AddedValues` | internal/middleware/retry.go:65-70 | buffered header values come after those that were there, header by header |
| `Retrying.RetryWriter.Flush` | internal/middleware/retry.go:59-75 | delivers the captured status, headers and body once; a second flush does nothing |
| `Retrying.LastAttempt` | internal/middleware/retry.go:137-141 | the first attempt with a status below 500, or the last allowed one, each attempt invoked in the context the code gives it |
| `Retrying.LastAttemptExactly` | internal/middleware/retry.go:137-141 | its status is below 500 or it is the last one allowed, and all earlier ones were at least 500 |
| `Retrying.Retry.RunAttempts` | internal/middleware/retry.go:105-163 | the contexts the handler was invoked in, the waits and the surviving buffer of the loop; every attempt is given the exclusion list of the outer request, although the loop builds a longer one; nothing reaches the client unless it left during a wait |
| `Retrying.Retry.Commit` | internal/middleware/retry.go:165-170 | the client gets the captured response and X-Attempts, the attempt number of the outer request |
| `Retrying.Retry.Serve` | internal/middleware/retry.go:99-172 | for every downstream behaviour the client gets exactly what the last attempt wrote, its last status and its header values, plus X-Attempts, after exactly that many invocations in those contexts; or a 504 if it left during a wait |
| `Retrying.DecimalIsRead` | internal/middleware/retry.go:168-168 | the X-Attempts text reads back as the number |
| `Retrying.RetryMayReuseBackend` | internal/middleware/retry.go:130-159 | a later invocation is told to avoid a backend iff the outer request was: the exclusion of the failed backend is lost |
| `Retrying.BackoffBounds` | internal/middleware/retry.go:177-181 | whatever is drawn, a wait is init*2^(a-1) times 1 + random/4, cut to whole milliseconds: at least init*2^(a-1) and less than 1.25 times that |
| `Retrying.WaitsIncrease` | internal/middleware/retry.go:177-181 | whatever is drawn, successive waits strictly increase |
| `Retrying.WaitsAddUp` | internal/middleware/retry.go:105-128 | the waits of the loop add up to the time waited |
| `Retrying.TotalWaitBounds` | internal/middleware/retry.go:105-108 | the waits before attempt a add up to between init*(2^(a-1)-1) and 1.25 times that |

## Left out

- HTTP transport, sockets, TLS, the WebSocket hub, logging, file watching, JSON and the HTML dashboard: input and output.
- Machine integers: counters, weights, credits and durations are unbounded integers; the sentinel keeps its value.
- Floating point: latencies, averages and rates are reals, and the percentile index is computed exactly.
- RuleSyntax.ToUpper: only ASCII letters are raised; the Unicode case tables are not modelled.
- Addresses: whether a client address lies in a range (`MatchClientIP`) and how a header key is normalised are opaque functions of the request.
- Error texts: a rule that is refused is just refused, at whatever position.
- RuleParser.CreateMatcher: the name and the argument text are trimmed after decoding the bytes, which gives the same result because no byte of a longer UTF-8 sequence is ASCII white space.
- Sorting: how `sort.Slice` orders ties is left open (any sorted permutation); `sort.Float64s` is its own specification.
- Retrying.Retry.RunAttempts: a handler's call that fails or panics is not modelled; a handler is the sequence of its writes.
- Publishing.PublishedStateTracksBreaker: takes record-and-publish as one step; the code's three critical sections can interleave, and `PublishingRaces` says exactly when that shows.
- SwrrFairness.SentinelSound: for three or more servers the bound on the weights is sufficient but not the exact threshold, which is given for one and two servers.
- BalancerRouter.Router.Select: takes a selection as one step. A failure recorded between filter and admission can still produce the circuit error, exactly as `CircuitBreaker.FailureRevokesExactly` says.
- HealthMonitor.Monitor.Check: the address of the health endpoint and its timeout are part of the given answer; starting and stopping the goroutines is not modelled.
- Services.Instance.constructor: the code starts no monitor for a service without servers; here it has one that is never asked. The handler, the balancer and the algorithm name of a service are not fields.
- Services.Manager.DashboardSnap: leaves out requests per second, the algorithm name and event times; events of different services are in the order the services are visited, not by time, as in the code.
- Metrics.Collector.DashboardSnap: leaves out requests per second, which reads the clock, and the fields only it uses.
- Carrying counters over from one manager to the next (`internal/service/manager.go:162-178`) is left to the collector's `ImportMetrics`; reload rollback and requests in flight across a reload are not modelled.
- Defaults of the configuration (`setDefaults`): weights and thresholds of any value are handled where they are used.
- The rate limiter's token bucket: it lives in a library that is not part of this model.
- Round robin, least connections, weighted score, priority classification, the middleware chain, authentication, CORS and header middlewares: simple members; the router is proved against any algorithm that returns one of its candidates or nothing.
