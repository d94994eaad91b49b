# RouteMUX: a verified model of its stateful cores

RouteMUX is a reverse proxy written in Go. Most of it configures `net/http`; this
project models the parts that carry logic of their own and proves what they promise.
Each module follows one source file or one component of it:

| module | what it models |
|---|---|
| `GoStrings`, `HttpHeader`, `Options` | the text functions of Go and the header map of `net/http` that the rest relies on |
| `HeaderTemplate` | the `${var}` language of add-header values: compiler, evaluator, printer |
| `EnvExpand` | the substitution of `${env.NAME}` in the configuration text, and both escapes together |
| `TrustedXff` | `${trusted_xff}`, the walk through the X-Forwarded-For chain |
| `HeaderRules`, `Director` | the header rules of a route with their load-time flags, and the way of a request's headers from the Director through `ReverseProxy` to the wire, and back |
| `JwksCache` | the double-checked JWKS cache under every interleaving of concurrent calls |
| `Domains`, `IssueState`, `BackoffRuns`, `Restart`, `Renewal` | certificate issuance: accepted domain lists, back-off table, whole runs of failures, restarts, the renewal loop |
| `Picker` | weighted choice of an upstream |
| `VHosts`, `Reload` | compilation and dispatch of vhosts, hot reload |
| `CidrList` | the refreshable network list and the IP filter |
| `ChallengeServer` | HTTP-01 challenge answers and the reference-counted port-80 listener |
| `Tail` | the backward search for the last lines of a log |

Code that works step by step on state is a class or a method with loops, proved
against a function; the properties are then lemmas about that function. Pure code is
functions and lemmas. Concurrency is a state machine whose steps are the critical
sections (`JwksCache`, `ChallengeServer`) or a run of atomic operations (`CidrList`,
`Restart`). `dafny verify dfyconfig.toml` checks the whole project.

## Where the code differs from what it says

The model does what the code does. Each of these is a lemma with a failing input, and
the exact condition under which the code does what is promised.

* **A restart forgets the failure count** once the wait has passed, although the
  comment at `acme/retry.go:25-29` says that a restart does not reset the back-off
  (`Restart.RestartKeepsCountIff`, `Restart.RestartResetsBackoff`). Eligibility itself
  survives unless an outcome could not be saved (`Restart.RestartInvisibleIff`,
  `Restart.UnsavedFailureForgotten`), and five minutes per failed round remain however
  often the process restarts (`Restart.CrashLoopBound`).
* **A Retry-After is not always honoured**, for two reasons. A round tries a second time two
  seconds after any first error that is not permanent, whatever wait that error asked for
  (`BackoffRuns.RetryAfterBroken`). And the wait after a round is what `xacme.RateLimit` reports
  for the error, not what the CA asked: every CA error reaches it wrapped (`acme/issue.go:38`
  and all later ones), so a `RateLimit` that does not look into wrapped errors reports nothing,
  and the back-off takes the place of the longer wait (`BackoffRuns.UnreportedAnswerBroken`,
  `BackoffRuns.UnreportedDayBroken`). Retry-After is honoured over a run, whenever the next
  visit comes, if and only if in every round that gets past the gate a first answer followed by
  a second try asks for two seconds at most and the last answer asks for no more than the wait
  that is set (`BackoffRuns.RetryAfterHonouredIff`).
* **`[""]` is not a catch-all in dispatch.** `config.go:129` offers it as one, the sort and
  the `singleMux` shortcut treat it as one, but matching does not: with a second vhost
  beside it, other hosts are turned away (`VHosts.EmptyDomainIsNoCatchAll`;
  `VHosts.DispatchKeepsPromiseIff` says exactly when dispatch does what is documented).
* **A vhost's TLS settings can change without a restart**, against `acme_bridge.go:12-16`.
  Vhosts are told apart by their joined domain lists, and nothing rejects a repeated list or
  a `|` inside a domain. Of two vhosts with one key the first changes its block by a single
  reload that nobody notices (`Reload.SharedKeyChangesTls`), and a reload that reverts hands
  the block of the second to both (`Reload.SharedKeyMixesTls`, `Reload.BarMixesTls`);
  `Reload.VHostKeepsTlsIff` is the exact condition for one reload. With unique lists one
  reload keeps the block (`Reload.VHostKeepsTls`), but two reloads do not if the first drops
  the vhost and the second brings it back with another (`Reload.TlsFixedIff`,
  `Reload.TlsChangesAfterRemoval`).
* **A refused port-80 listener can close another one**: a window whose `Listen` failed still
  gives back a reference when it closes (`ChallengeServer.RefusedWindowStopsListener`).
  `ChallengeServer.UpIff` says exactly when the listener is up, `ChallengeServer.RefsExactIff`
  when the count is right.
* **`tailFile` does not always print the last n lines**: one fewer than asked for a file that
  ends with a newline, and nothing from a line of 65536 bytes on
  (`Tail.FinishedPrintsFewer`, `Tail.OverlongPrintsNothing`; exactly: `Tail.PrintedLinesIff`).
* **An allow list without networks admits everyone**, although `ipfilter.go:236` says that
  only allowed addresses pass: it counts as no list. A load that cannot read the file does it
  (`CidrList.UnreadableListAdmitsAll`), and so does a refresh that reads an emptied one
  (`CidrList.EmptyRefreshAdmitsAll`); exactly, over every run: `CidrList.FilterOpensIff`.
* **The order of a Go map decides** when two add-header rules name the same header in
  different case and carry different values (`HeaderRules.OrderMatters`,
  `HeaderRules.OrderIrrelevantIff`).
* **An unclosed `${env.` is literal text** (`config.go:53`), **but what follows is not read
  as the rest is**: escapes behind it keep their backslash (`EnvExpand.UnclosedKeepsEscape`,
  exactly: `EnvExpand.UnclosedIff`).

## Model

| member | source | states |
|---|---|---|
| HeaderTemplate.CompileHeaderValue | headers.go:145-199 | the index-hopping loop compiles a raw value to the segments that reading it one construct at a time gives |
| HeaderTemplate.Eval | headers.go:273-299 | evaluation is the concatenation of all segment values, or the one literal for constants |
| HeaderTemplate.CompilePreservesMeaning | headers.go:145-299 | for every raw value and request, compiling and evaluating equals the direct left-to-right interpretation of the raw text, shortcut for constants included |
| HeaderTemplate.VariablesMean | headers.go:201-299 | compiled and evaluated between any two texts, the first not ending in the escape's backslash: `${host}` is the requested host, `${remote_addr}` and `${remote_port}` the client address and port, `${scheme}`, `${request_uri}` and `${trusted_xff}` what they are named after |
| HeaderTemplate.HeaderVariableMeans | headers.go:201-299 | `${header.Name}` is the first value of that header, whatever the name |
| HeaderTemplate.UnknownVariableStays | headers.go:201-223 | any other name stays in the value as it was written, `${` and `}` included |
| HeaderTemplate.UnclosedVariableStays | headers.go:178-185 | a reference that is never closed stays as it was written |
| HeaderTemplate.CompiledIsPrintable | headers.go:145-199 | compiled values are canonical: no adjacent or empty literals except for the empty value, no `}` in a header name, no backslash before a variable |
| HeaderTemplate.ConstIffNoVariable | headers.go:197-198 | `isConst` holds exactly when no known variable occurs in the raw value |
| HeaderTemplate.PrintableIffCompiled | headers.go:145-223 | the segment lists that survive printing and compiling are exactly the canonical ones |
| HeaderTemplate.PrintRoundTrip | headers.go:145-223 | compiling the printed form of a compiled value gives the same value |
| HeaderTemplate.EscapedIsConstant | headers.go:168-174 | every text has a spelling that compiles to this text as one constant |
| EnvExpand.ExpandEnvVars | config.go:22-82 | the two-index loop ends and equals a one-pass denotation that never reads a substituted value again |
| EnvExpand.Substitute | config.go:60-79 | a reference is its variable's value, or its default when the variable is not set |
| EnvExpand.SubstitutedOnce | config.go:47-79 | after any text that leaves no reference open and does not end in a backslash, a value that itself looks like a reference or an escape appears in the result unchanged |
| EnvExpand.DefaultIsUsed | config.go:59-79 | a default is used exactly when the variable is not set, not when it is empty; without one an unset variable is the empty text |
| EnvExpand.ExpandConcat | config.go:22-82 | substitution splits in front of a reference: text before and after are read on their own |
| EnvExpand.UnclosedIff | config.go:52-57 | giving up at an unclosed reference equals reading on behind it if and only if no escape stands behind one |
| EnvExpand.UnclosedKeepsEscape | config.go:52-57 | an input on which the two readings differ |
| EnvExpand.ExpandUndoesEscape | config.go:38-45 | escaping any text for the configuration and substituting gives the text back, whatever the environment holds |
| EnvExpand.TwoStageEscape | README.md:213 | both escapes together: any text can be written so that the compiled header value is that text, as one constant |
| EnvExpand.DocumentedDoubleEscape | README.md:213 | the documented edge case is the composition of the two escapes |
| TrustedXff.EvalTrustedXff | headers.go:229-268 | joining, splitting and walking back gives the answer defined on the separate header values: fixed by the rightmost entry that is malformed or untrusted |
| TrustedXff.FlattenIsPerValue | headers.go:240 | join with `, ` and split at `,` equals splitting each header value |
| TrustedXff.EntriesAre | headers.go:240-251 | the entries of a header value are the texts between its commas without the spaces around them |
| TrustedXff.NobodyTrusted | headers.go:233-238 | the client address if neither setting trusts anybody or there is no chain |
| TrustedXff.EverybodyTrusted | headers.go:241-249 | with trust-client-headers the first entry that is an address, wherever it stands, else the client address |
| TrustedXff.UntrustedAnswers | headers.go:250-265 | with trusted proxies: an address that is not trusted, with only trusted ones behind it, is the answer |
| TrustedXff.MalformedStops | headers.go:250-260 | a malformed entry with only trusted addresses behind it is never the answer: it is the entry to its right, or the client address at the right end |
| TrustedXff.ProxiesThroughout | headers.go:266-267 | a chain of trusted proxies alone answers with its left end |
| TrustedXff.AnswerIsAddress | headers.go:229-268 | in every mode the answer is the client address or an entry that parses as an address |
| TrustedXff.StopDecides | headers.go:250-265 | entries to the left of an untrusted or malformed one play no part |
| TrustedXff.PrependedValuesIgnored | headers.go:250-265 | header values put in front of the chain never change the answer once the chain has such an entry |
| TrustedXff.AllTrustedLeftEnd | headers.go:266-267 | without such an entry the left end answers, and an untrusted value put in front does change the answer |
| HeaderRules.CompiledHeaders | headers.go:303-312 | every raw value of the map is compiled, under its name and no other |
| HeaderRules.HasNonConstHeader | headers.go:328-335 | true exactly when some compiled value is not constant |
| HeaderRules.HasSegment | headers.go:316-348 | true exactly when some compiled value has a segment of the kind |
| HeaderRules.ParseRoute | config.go:557-576 | the flags of a parsed route say exactly what its compiled values use, and the wildcard flags what its delete lists contain |
| HeaderRules.AnyNonConstIff | config.go:567 | AddHasVars holds exactly when some raw value contains a known variable |
| HeaderRules.GatesSound | server.go:629-644 | leaving out scheme, URI, chain, snapshot and client address as the flags allow changes no value |
| HeaderRules.ApplyDeleteHeaders | headers.go:43-69 | the fast path removes the named keys, the slow path every key that some pattern matches |
| HeaderRules.FastDeleteIsSlowDelete | headers.go:34-52 | without wildcards the fast path removes the same headers as the slow one |
| HeaderRules.DeletedIff | headers.go:21-69 | a header is deleted if and only if a rule without a star names it in any case, or path.Match accepts a pattern with a star, pattern first, both in lower case; what stays keeps its values |
| HeaderRules.PrefixPatternDeletes | headers.go:24-31 | a prefix with a star deletes exactly the headers that begin with it in any case |
| HeaderRules.LastRuleWins | server.go:636-645 | after the add rules each header, and the host, holds the value of a rule for it, or is untouched when there is none |
| HeaderRules.HostRule | server.go:636-645 | a rule for Host, in any case, sets the host of a request and leaves its headers alone |
| HeaderRules.OrderIrrelevant | server.go:636-645 | rules that agree on the value for each header give one result in every order |
| HeaderRules.OrderMatters | server.go:636-645 | two rules for one header with different values give different results in some two orders |
| HeaderRules.OrderIrrelevantIff | server.go:636-645 | the iteration order is irrelevant if and only if rules for one header carry one value |
| HeaderRules.DistinctNamesConsistent | server.go:636-645 | names that differ in more than case make the order irrelevant |
| Director.Forward | server.go:545-585 | the X-Forwarded headers for trusted and untrusted peers, with and without an address |
| Director.ForwardedIs | server.go:545-585 | header by header: what a peer that is not trusted sends as X-Forwarded-For, -Host or -Proto is replaced by its own address, the requested host and the scheme of the connection; a trusted peer finds its address behind its chain and the rest untouched; all other headers pass as sent |
| Director.Prepare | server.go:533-622 | forwarding headers, snapshots on demand, and deletions leave the state before the add rules |
| Director.AddHeadersTo | server.go:636-645 | the add loop applies every rule once, in some order |
| Director.Direct | server.go:529-646 | the Director with all its shortcuts leaves what it would leave without any, for some order of the add rules |
| Director.RequestVariables | server.go:529-646 | what each variable of an add rule is in a request, told by what came in: host, address, port, URI, `https` exactly on a TLS connection, and the headers as they were before any change, with Host among them |
| Director.UpstreamHeader | server.go:602-646 | for headers under the canonical keys of net/http: one that no add rule names reaches the upstream if and only if it was there, is not the Authorization of a proxy login, and no delete rule matches it; one that add rules name carries the value of one of them |
| Director.UpstreamHost | server.go:608-645 | the upstream is asked for the value of a Host rule, else for the host that came in unless a delete rule names it, and then for its own or, behind a socket, for localhost |
| Director.ManipulateClientHeaders | server.go:715-736 | Via, then deletions, then every add rule once, in the context the client flag allows |
| Director.ClientHeader | server.go:715-736 | a response header that no add rule names reaches the client if and only if the upstream sent it, or it is Via, and no delete rule matches it; one that add rules name carries the value of one of them |
| Director.ModifyResponse | server.go:648-667 | the response headers with all shortcuts are those computed from the full context |
| Director.RoundTrip | headers.go:83-95 | the last entry of a single chain value is cut off, a lone entry removed |
| Director.StrippedIs | headers.go:83-95 | the appended address is what goes, a lone address goes with its header, and several values and all other headers pass unchanged |
| Director.PipelineIdentityIff | headers.go:70-95 | ReverseProxy's append followed by the strip is the identity exactly on headers with at most one chain value |
| Director.DirectorLeavesOneChain | server.go:568-646 | whatever the rules are, the Director leaves no chain or one value |
| Director.ProxyRequest | headers.go:70-95 | from the Director to the wire the headers are those the Director and the rules left, less the hop-by-hop headers that ReverseProxy removes, which include any that the client's Connection header names |
| Director.ServeParsedRoute | config.go:557-576 | from the raw rules of a route to both messages: compilation, flags, snapshots and shortcuts leave request and response as reading the raw values directly would |
| Director.UntrustedPeerYieldsItself | server.go:545-600 | a peer that is not trusted always resolves to its own address, whatever chain it sent |
| Director.ForgedChainIgnored | server.go:545-600 | behind a trusted proxy the untrusted address that proxy saw is the answer, whatever was forged before it |
| JwksCache.RunInv | jwtverify/jwkscache.go:48-99 | in every reachable state of every interleaving: one writer or readers only, a pending fetch is still needed, stores of a URL are spaced by their ttl and the last one is the entry |
| JwksCache.FetchOnlyWhenNeeded | jwtverify/jwkscache.go:70-83 | a fetch is on the wire only while there is no entry, or one without the kid that had reached its ttl when the fetch began; no two fetches overlap |
| JwksCache.FetchesSpaced | jwtverify/jwkscache.go:75-92 | the next fetch of a URL begins at least the ttl after the previous one was stored |
| JwksCache.FetchBudget | jwtverify/jwkscache.go:40-47 | n successful fetches of one URL take at least (n-1) times the smallest ttl, however many calls run |
| JwksCache.AnswersAreLinearizable | jwtverify/jwkscache.go:48-99 | every key and every miss is what the cache held at some instant within the call; a miss that is answered without a fetch is one before fetchedAt + ttl |
| JwksCache.RecheckFetchesIff | jwtverify/jwkscache.go:70-83 | in every run the check under the write lock leads to a fetch if and only if the map has no entry for the URL, or one without the kid whose fetchedAt + ttl has been reached |
| JwksCache.CheckWantsWriteIff | jwtverify/jwkscache.go:50-63 | the check after the read lock asks for the write lock if and only if the entry it had read calls for a fetch by the clock at the check |
| JwksCache.EntryOfLastFetch | jwtverify/jwkscache.go:82-92 | in every run the entry of a URL is what its last successful fetch brought, stamped with the instant at which that fetch ended |
| JwksCache.RefetchIff | jwtverify/jwkscache.go:40-47 | so over every run a call fetches again if and only if the last successful fetch of its URL did not bring the kid and its ttl has passed since |
| JwksCache.ErrorIffFetchFailed | jwtverify/jwkscache.go:82-86 | in every run a call answers with an error of the fetch if and only if its own fetch failed |
| JwksCache.NeverStuck | jwtverify/jwkscache.go:50-67 | while a call is under way some call can take a step, even if waiting writers keep new readers out |
| JwksCache.Cache.Look | jwtverify/jwkscache.go:70-80 | the lookup made under each lock: the key, a miss before fetchedAt + ttl, or nothing exactly when a fetch is due |
| JwksCache.Cache.GetKey | jwtverify/jwkscache.go:48-99 | one call on its own: answer and new map; a fresh miss exactly before fetchedAt + ttl, an error exactly when a fetch was due and failed, and what a due fetch brings is stored |
| JwksCache.AloneIsARun | jwtverify/jwkscache.go:48-99 | from every state without a held lock the interleaved protocol can take the call to the same answer and map as the sequential code |
| Domains.IsValidDomainName | acme/preflight.go:35-63 | true exactly for host names of at least two well-formed labels, a trailing dot tolerated |
| Domains.ValidateDomainsForACME | acme/preflight.go:15-30 | accepted exactly when every domain is such a name; otherwise the first offending domain and the reason |
| Domains.LabelsAccepted | acme/preflight.go:35-63 | which texts are accepted: two or more labels of 1 to 63 letters, digits and inner hyphens, 253 characters in all, with or without a final dot, and nothing else |
| Domains.AcceptedIff | acme/preflight.go:15-30 | a list is accepted if and only if it is not empty and all its domains are such names, which no catch-all and no wildcard is |
| Domains.RefusedFor | acme/preflight.go:19-29 | otherwise the first domain that is none is reported, as catch-all, wildcard or invalid |
| Domains.KeysDistinct | acme/retry.go:94-96 | two different accepted domain lists never share an issuance key |
| IssueState.ComputeBackoff | acme/retry.go:157-163 | the doubling loop yields min(24h, 5m * 2^(failures-1)) for every count |
| IssueState.IssueTable.constructor | acme/retry.go:42-52 | a new process starts from the file's unexpired entries, or from nothing |
| IssueState.IssueTable.Load | acme/retry.go:56-78 | exactly the entries whose window has not passed are read back |
| IssueState.IssueTable.SaveLocked | acme/retry.go:81-91 | the file becomes the persisted table, or stays when there is no path or the write fails |
| IssueState.IssueTable.ShouldAttempt | acme/retry.go:100-112 | the gate and the remaining wait |
| IssueState.IssueTable.RecordAttempt | acme/retry.go:115-125 | only the last attempt of the key changes, and nothing is saved |
| IssueState.IssueTable.RecordSuccess | acme/retry.go:128-133 | the key's history is removed, that of every other key kept, and the table saved |
| IssueState.IssueTable.RecordFailure | acme/retry.go:138-167 | one more failure, next eligible after a positive reported Retry-After or the back-off, saved |
| IssueState.IssueTable.IssueAndStore | acme/manager.go:225-260 | gate, first try, two seconds' pause and second try for errors that are not permanent, record: table, file, result and the tries made by one round |
| BackoffRuns.BackoffValue | acme/retry.go:157-163 | doubling up to the ninth failure, 24 hours from the tenth on |
| BackoffRuns.WaitsAddUp | acme/retry.go:98-167 | over a whole run of failing visits the count is the number of rounds, and the next instant at least the sum of all waits after the first |
| BackoffRuns.NeverHammers | acme/retry.go:13-20 | after n consecutive failures the next round starts at least 5m * (2^n - 1) after the first for n <= 9, and 24h more for each further failure |
| BackoffRuns.SuccessClears | acme/manager.go:225-260 | a round ends in success exactly when one of its tries does, and then the key has no history, in the table nor, once saved, in the file, and other keys keep theirs |
| BackoffRuns.CountIsSinceSuccess | acme/retry.go:98-167 | over every run of rounds that succeed, fail, are skipped or stopped, the failure count is the number of failed rounds since the last success |
| BackoffRuns.FreshAfterSuccess | acme/retry.go:128-164 | the first failure after a success waits five minutes, however many came before |
| BackoffRuns.RoundHonoursIff | acme/manager.go:231-251 | within a round that got past the gate Retry-After is honoured if and only if there is no second try or the first answer asks for two seconds at most |
| BackoffRuns.RetryAfterBroken | acme/manager.go:241-246 | a first answer that asks for an hour is followed by a second try after two seconds |
| BackoffRuns.LastAnswerHonouredIff | acme/retry.go:149-164 | every later sequence of visits waits out the last answer of a failed round if and only if the wait set for it, by the reported Retry-After or the back-off, is as long as the answer asks |
| BackoffRuns.UnreportedAnswerBroken | acme/retry.go:149-154 | asked to wait ten days by an answer that RateLimit does not report, the gate opens after five minutes |
| BackoffRuns.UnreportedDayBroken | acme/retry.go:149-164 | without a report no answer that asks for more than a day is waited out |
| BackoffRuns.RetryAfterHonouredIff | acme/manager.go:225-260 | over every run of one process, wherever it is cut and whenever the next visit comes, no try starts before the wait an earlier CA answer asks for is over (section 6.6 of RFC 8555) if and only if in every round that gets past the gate no second try cuts short the first answer and the wait that is set covers the last one |
| BackoffRuns.AllSoundHonours | acme/manager.go:225-260 | any single run of such rounds honours every answer between all its tries |
| BackoffRuns.FirstVisitAfterWait | acme/retry.go:100-167 | of the visits after a failed round the first one at or after the end of the wait that was set gets past the gate |
| BackoffRuns.GateOpens | acme/retry.go:98-167 | after n rounds the gate is open no later than n periods and a day after renewal became due |
| BackoffRuns.OftenEnough | acme/renew.go:16-64 | while nothing succeeds at least floor(L / (24h + gap + length)) rounds start within L after renewal became due |
| Restart.RunInStep | acme/retry.go:56-133 | after every run of operations, failed writes and restarts, once the key's last outcome is saved, file and table agree on it or the table knows nothing and the file's entry has expired |
| Restart.RestartInvisibleIff | acme/retry.go:56-133 | a restart at any point of any run leaves a key eligible at the same later instants if and only if its last outcome is in the file, or both the lost wait and the one in its place are over, or they end together |
| Restart.RestartInvisible | acme/retry.go:56-133 | so it does when every outcome of the key was written |
| Restart.UnsavedFailureForgotten | acme/retry.go:80-91 | a failure that could not be written does not hold back the next process |
| Restart.RestartKeepsCountIff | acme/retry.go:54-78 | over every run: a saved failure count survives if and only if it is zero or the wait is still running; an unsaved one if and only if the file has the same count with a running wait, or its wait is over and there was no count |
| Restart.RestartResetsBackoff | acme/retry.go:25-29 | a restart after the wait makes the next failure wait five minutes, where nine or more failures would have made it a day |
| Restart.WaitsWithinADay | acme/retry.go:157-164 | without a reported Retry-After no wait reaches further than a day ahead, restarts and failed writes included |
| Restart.WaitsSurviveRestarts | acme/retry.go:22-29 | the next attempt of a key waits out its last reported Retry-After or back-off through any number of restarts at which the file held the key's outcome |
| Restart.CrashLoopBound | acme/retry.go:25-29 | n failed rounds take at least n times five minutes however often the process restarts |
| Restart.RoundIsOps | acme/manager.go:225-260 | table and file after a round of issueAndStore are those after its attempt and its outcome, saved or not |
| Renewal.DefaultRenewalInstant | acme/config.go:198-201 | by default renewal is due after notBefore + ceil(2 * lifetime / 3) |
| Renewal.ConfiguredRenewalInstant | acme/renew.go:84-88 | a configured lead replaces the default |
| Renewal.WantedIff | acme/renew.go:33-64 | a pass hands over exactly the vhosts with automatic issuance whose certificate cannot be read, is within the configured lead of its end or, without one, past two thirds of its lifetime |
| Renewal.RenewLoop | acme/renew.go:16-30 | first pass after a minute, each next one 12 hours after the previous has ended |
| Renewal.VisitGap | acme/renew.go:16-64 | two visits of a vhost are 12 hours to 12 hours plus one stay per vhost apart |
| Renewal.LoopVisitsOftenEnough | acme/renew.go:16-64 | from an instant after the start on, the loop's visits satisfy the assumptions of OftenEnough, the first one included, so each vhost gets the promised rounds |
| Renewal.CheckRenewals | acme/renew.go:33-64 | a pass hands over exactly the vhosts whose certificate is unusable or due, until stopped; table and state file after it |
| Renewal.PassIsOwnVisit | acme/renew.go:33-64 | in a pass the history of a vhost depends on its own round only |
| Renewal.PassesAreVisits | acme/renew.go:33-64 | over any number of passes the history of a due vhost in the table of all is that of its own visits |
| Renewal.PassKeepsFile | acme/renew.go:33-64 | as long as no write fails every pass leaves in the file the history that the table tells, of every key |
| Renewal.EarlierWithin | acme/renew.go:16-64 | what happened to a vhost before it was due closes its gate for a stay and a day after that instant at most |
| Renewal.RenewalKeepsTrying | acme/renew.go:16-89 | in the table that the loop leaves, the failure count of a vhost that is due grows within L by at least floor(L / (24h + gap + stay)), whatever happens to the other vhosts |
| Picker.UpstreamPicker.constructor | server.go:1017-1041 | the pool has total-weight slots, upstream i exactly max(1, w_i) times and at its cumulative weights |
| Picker.UpstreamPicker.PickRoundRobin | server.go:1043-1052 | the slot the counter points to, and the counter moves on |
| Picker.UpstreamPicker.PickRandom | server.go:1054-1067 | the cumulative walk for draw r returns pool[r]; its fallback is unreachable |
| Picker.UpstreamPicker.PickRound | server.go:1047-1052 | as many consecutive picks as the total weight, from any counter, choose upstream i exactly max(1, w_i) times |
| Picker.PoolSlot | server.go:1031-1067 | slot r belongs to the upstream whose cumulative weights enclose r |
| Picker.WindowIsRotation | server.go:1047-1052 | a round of slots from any counter is a permutation of the pool |
| Picker.SameDistribution | server.go:1043-1068 | over all draws the random walk chooses each upstream as often as a round of round-robin |
| VHosts.SliceStable | server.go:134-139 | a sorted list that keeps each class of equal elements, in number and order |
| VHosts.SortedIsPartition | server.go:133-138 | every stable sort yields the specific vhosts followed by the catch-alls, both in configuration order |
| VHosts.CompileVHosts | server.go:120-142 | the compiled list and the shortcut flag, or failure when some multiplexer cannot be built |
| VHosts.Dispatch | server.go:920-939 | the only vhost under the shortcut, else the first that matches, else none |
| VHosts.DispatchInConfigOrder | server.go:120-142 | dispatch picks the first specific vhost in configuration order that lists the host, else the first catch-all that matches |
| VHosts.ListedHostIsServed | server.go:120-142 | told by the configuration: a host that vhosts which are no catch-all list, in any case, goes to the first of them, wherever the catch-alls stand |
| VHosts.OtherHostIsServed | server.go:901-939 | any other host goes to the first vhost with `*`, if no empty domain stands before it, and is turned away without catch-alls |
| VHosts.DispatchKeepsPromiseIff | server.go:62-69 | dispatch does what is documented if and only if a specific vhost lists the host, there is no catch-all, the first catch-all matches, or it is the only vhost |
| VHosts.DispatchKeepsPromise | config.go:127-129 | without empty domains dispatch always does what is documented, and the shortcut agrees with it |
| VHosts.EmptyDomainIsNoCatchAll | server.go:62-69 | an empty domain beside another vhost does not catch other hosts |
| Reload.VHostTlsMap | acme_bridge.go:73-84 | the last tls block of each key, absent and empty identified |
| Reload.SameVHostTlsSet | acme_bridge.go:55-68 | equal sizes and every old entry found again decide equality of the maps, in any order |
| Reload.AcmeConfigChanged | acme_bridge.go:36-51 | reports exactly a different global block or different tls blocks |
| Reload.RevertVHostTls | acme_bridge.go:17-29 | in place, each new vhost with an old key gets the old block, the others keep theirs |
| Reload.RevertFixed | server.go:1121-1148 | the parsed configuration with every fixed setting reverted |
| Reload.Server.Reload | server.go:1091-1178 | a reload that fails changes nothing; one that succeeds adopts the reverted configuration, and the served table is always the compilation of the live configuration |
| Reload.ReloadsOnlyIf | server.go:1091-1163 | without a file, a configuration that parses, routes that compile and address lists that load, the live configuration stays |
| Reload.AbsentIsEmpty | acme_bridge.go:70-84 | exchanging no tls block for an empty one is no change |
| Reload.FixedSettingsStay | server.go:1121-1148 | over every run of reloads Port, Listen, global certificate and ACME block are those of the start |
| Reload.AdoptedRoutes | acme_bridge.go:12-29 | reverting changes neither domains nor routes |
| Reload.AdoptedTls | acme_bridge.go:12-29 | key by key, a reload keeps the running tls block and takes that of a new key from the file |
| Reload.RevertedUnlessVHostsDiffer | acme_bridge.go:36-41 | after reverting, the change check fires exactly when the key sets differ |
| Reload.TlsSinceIntroduction | acme_bridge.go:12-29 | over every run the block of a key is that of the start or of the file that last brought it back |
| Reload.TlsFixedIff | acme_bridge.go:12-16 | so it is the start's block if and only if the key never left or came back with the same block |
| Reload.TlsChangesAfterRemoval | acme_bridge.go:12-16 | dropping a vhost and bringing it back changes its block |
| Reload.VHostKeepsTls | acme_bridge.go:12-29 | with unique domain lists free of the separator a vhost in both configurations keeps its tls block |
| Reload.VHostKeepsTlsIff | acme_bridge.go:12-84 | for all lists: a vhost of both configurations keeps its tls block if and only if, when the reload reverts, the last running vhost of its key has this block and, when it does not, the file gives it |
| Reload.SharedKeyChangesTls | acme_bridge.go:73-84 | of two vhosts with one key the first changes its block by one reload without the check firing |
| Reload.SharedKeyMixesTls | acme_bridge.go:17-29 | a reload that reverts hands the block of the second to both |
| Reload.BarMixesTls | acme_bridge.go:17-29 | which a separator inside a domain brings about |
| CidrList.CIDRList.Add | ipfilter.go:671-680 | a new source is appended and an inline network counts at once |
| CidrList.CIDRList.Rebuild | ipfilter.go:63-74 | in whatever order the map is read, the networks are the inline ones and the stored ones |
| CidrList.CIDRList.SetDynamic | ipfilter.go:77-85 | one stored list is replaced and the networks follow |
| CidrList.CIDRList.LoadOne | ipfilter.go:99-107 | a source that cannot be read is stored as the empty list |
| CidrList.CIDRList.Load | ipfilter.go:89-117 | every dynamic source is stored as read, in order; inline ones are skipped |
| CidrList.CIDRList.Refresh | ipfilter.go:129-189 | a successful refresh replaces the stored list, a failed one keeps it |
| CidrList.CIDRList.Contains | ipfilter.go:55-59 | true exactly when an inline source or a stored list covers the address |
| CidrList.CIDRList.Len | ipfilter.go:218-222 | positive exactly when some network counts |
| CidrList.ContainsByHistory | ipfilter.go:55-117 | after every run of additions, loads and refreshes, membership is decided by the inline sources and the list last stored for each dynamic source |
| CidrList.EmptyAfterLoadIff | ipfilter.go:89-117 | after a load the list has no network if and only if every source is a file or URL that gave none |
| CidrList.FilterOpensIff | ipfilter.go:239-256 | after every run of additions, loads and refreshes, an address that neither list covers is let in if and only if no inline source and no list last stored has a network |
| CidrList.FilterOpensAfterLoadIff | ipfilter.go:89-117 | right after a load: if and only if every source of the allow list is a file or URL that could not be read or was empty |
| CidrList.EmptyRefreshAdmitsAll | ipfilter.go:129-189 | a refresh that reads an emptied file lets in every address that is not blocked |
| CidrList.UnreadableListAdmitsAll | ipfilter.go:103-107 | one unreadable source as allow list lets in every address that is not blocked |
| CidrList.IPFilter.Allow | ipfilter.go:239-256 | allowed exactly when the address parses, is in the allowed list if that has any network, and is not in the blocked list |
| CidrList.AdmitsByHistory | ipfilter.go:239-256 | after every two runs of additions, loads and refreshes: an address that does not parse is refused, one in a blocked network too, one in an allowed network that is not blocked admitted, any other one admitted if and only if the allow list has no network |
| ChallengeServer.HttpChallengeServer.StoreToken | acme/httpchallenge.go:40-43 | one answer is set |
| ChallengeServer.HttpChallengeServer.DeleteToken | acme/httpchallenge.go:49-52 | one answer is removed |
| ChallengeServer.HttpChallengeServer.Response | acme/httpchallenge.go:57-62 | the stored answer or nothing |
| ChallengeServer.HttpChallengeServer.OpenPort80 | acme/httpchallenge.go:87-113 | one more reference and the listener up, or no change when Listen fails |
| ChallengeServer.HttpChallengeServer.ClosePort80 | acme/httpchallenge.go:117-134 | one reference less, and the listener down with the last |
| ChallengeServer.RunInv | acme/httpchallenge.go:87-134 | in every run the listener is up exactly while references are held, never more than open windows, so nothing is left after the last close |
| ChallengeServer.RefsExactIff | acme/httpchallenge.go:87-134 | references equal open windows if and only if no Listen failed since the port was last idle |
| ChallengeServer.UpIff | acme/httpchallenge.go:87-134 | in every run the listener is up if and only if more windows are open than the refused ones not yet made up for |
| ChallengeServer.UpWhileOpen | acme/httpchallenge.go:84-86 | without a refusal since the port was idle it is up exactly while a window is open |
| ChallengeServer.NeverRefused | acme/httpchallenge.go:97-103 | which holds in every run in which Listen never fails |
| ChallengeServer.RefusedWindowStopsListener | acme/httpchallenge.go:98-103 | a window that was refused the port stops the listener of one that got it |
| ChallengeServer.AnswersOpenWindows | acme/httpchallenge.go:40-62 | with distinct paths the stored answers are exactly those of the live windows |
| ChallengeServer.AnswerIff | acme/httpchallenge.go:57-62 | a path is answered exactly while a window for it is live, with that window's key authorization (section 8.3 of RFC 8555) |
| ChallengeServer.OpenWindowIsServed | acme/httpchallenge.go:38-54 | between opening and removal the listener is up and gives the right answer |
| Tail.StartPosition | daemon/daemon_unix.go:706-733 | for every content, n and chunk size: just after the n-th newline from the end, or the beginning if there are fewer |
| Tail.StartIsUnique | daemon/daemon_unix.go:706-733 | that position is unique, so the chunk size plays no part |
| Tail.LinesFromStart | daemon/daemon_unix.go:706-745 | what stands behind the position are the last lines of the file, n of them or n-1 if it ends with a newline, or all if there are fewer |
| Tail.PrintedLinesIff | daemon/daemon_unix.go:735-745 | the last n lines are printed if and only if none of them reaches the scanner's limit and the file does not end with a newline or has fewer than n lines |
| Tail.FinishedPrintsFewer | daemon/daemon_unix.go:735-745 | asked for one line of a file that ends with a newline, none is printed |
| Tail.OverlongPrintsNothing | daemon/daemon_unix.go:739-745 | of a file that is one line of the limit's length nothing is printed |

## Left out

- Director.ProxyRequest: only for connections whose RemoteAddr has a host and a port, with an address free of commas; the set of hop-by-hop headers is a parameter, and the headers that ReverseProxy adds for trailers and upgrades are not modelled.
- Director.UntrustedPeerYieldsItself: the trusted-proxies list is fixed during the request, and the address has no surrounding space.
- HeaderRules.ParseRoute: routes built from the command line (`cli.go`) do not set ClientNeedsTrustedXFF, so nothing is stated for them.
- Restart.RunInStep: entries are read back as they were written, except for the last attempt.
- BackoffRuns.RetryAfterHonouredIff: `xacme.RateLimit` is not part of this model, nor is what the ACME library does with a rate limit inside one try: what an answer asks for and what RateLimit reports are independent parameters. The pause is taken to last exactly two seconds, an outcome to be recorded at once, and the rounds of a key do not overlap; across processes see Restart.WaitsSurviveRestarts, for the wait that is set at the end of a round.
- Renewal.LoopVisitsOftenEnough: the stays of a pass are bounded by a parameter, which stands for the time issuance and its challenge may take.
- CidrList.IPFilter.Allow: both lists are fixed during the call; a refresh between its three reads is not modelled.
- JwksCache.NeverStuck: progress of some call, not fairness for each; the writer preference of Go's lock enters only as the exclusion of new readers.
- Picker.UpstreamPicker.PickRoundRobin: the counter is unbounded, Go's wraps around.
- ChallengeServer.AnswerIff: for windows with distinct paths and non-empty key authorizations.
- Tail.PrintedLinesIff: a character stands for a byte.
- Text is a sequence of characters; case folding and trimming are those of ASCII.
- Address parsing, network membership, `path.Match`, host and port splitting, parsing of the configuration and of JWKS documents (with their max-age), TLS, DNS, network and file access: parameters or outcomes chosen by the environment.
- The multiplexer of a vhost and its routes are an opaque number; Go's `ServeMux` is not modelled.
- Debouncing of reload triggers and the dropping of concurrent ones (`server.go:1075-1097`): reloads are a sequence.
- The one-time refresh of a cached source, mtime polling and cancellation: they reduce to the refresh steps of `CidrList`.
- Certificate files, the ACME protocol exchange, the start of the issuance manager, and the re-reading of certificates after a reload.
- JWT claim checks, basic auth, static file serving, daemon and process control, self-update, help text: each reads a single branch, with no state or property across operations.
