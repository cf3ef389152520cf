# Verified model of the consent owner resolver

The resolver answers two questions about a payload: is consent needed, and who owns the data. This
project models the parts of it that decide those answers, and proves what they guarantee.

- `results.dfy`, `collections.dfy`, `text.dfy`: Option and Result, and the library functions the rest uses.
- `pointer.dfy`, `rfc6901.dfy`: JSON Pointers, their escaping, the selectors emitted for collection items,
  and the exact distance to a strict reading of RFC 6901.
- `payload.dfy`, `matchers.dfy`, `resolver.dfy`: the lazily decoded body, the four matchers, the item
  walk, configuration compilation and first-match dispatch.
- `contracts.dfy`, `lookup.dfy`, `cache_runs.dfy`, `concurrent_cache.dfy`: the governing contract, the
  facade, the TTL cache as a class, over all its runs, and under any interleaving of callers.
- `guarantees.dfy`, `meaning.dfy`, `memo.dfy`, `cost.dfy`: provenance of claims, independence from the
  requestor, fail-closed behaviour, when each kind of rule answers and with which claims, agreement
  with the unmemoized form, and the calls made to the facade.
- `from_file.dfy`: from the configuration file to the answer: which rule decides, what each kind of rule
  answers, and whom it asks, told from the file, the request, the body and the facade alone.
- `metrics.dfy`, `histogram.dfy`, `handler.dfy`: the counters over every history, error classes, status
  codes, and the failure counter over every run of the handler.
- `client.dfy`: participant paths (RFC 4648), the signed filter, localized fetches.

Code that works in place is a class or a method with loops, each proved equal to a function of its
inputs or of the old state; the theorems are about those functions. The matchers and the two forms of
the facade lookup, interfaces in the program, are datatypes here, and a `buildClaim` closure is a
datatype of what it closes over.

## Conventions

- The facade, the web, JSON and base64 decoding of bodies, `%q`, `url.Parse` and regular expressions are
  arbitrary total functions. The facade's may depend on how many calls it has had, so every sequence of
  answers is covered. Facade errors are texts; none of them wraps a `BadRequestError`.
- JSON null decodes to Go's nil, which is also what the decoder returns for "no usable payload"; the
  model's `Null` is both, as in the program.
- Time is an integer, and a later clock reading is never earlier where a statement says `Monotone` or
  `InOrder`. Counters are natural numbers and durations reals: 64-bit wrap-around and rounding are not
  modelled. The TTL multiplication is assumed not to overflow.
- Go's int has 64 bits: `Atoi` fails beyond it, and a JSON array is no longer than a Go slice can be.
- A nil slice and an empty one are the same sequence.
- The comments of `CHANGELOG.md`:42-47, `review.md`:140 and the opening of the encoding's own comment say
  unpadded base64; the code pads (`internal/contract/client.go`:168-174), and so does the model.
- `internal/resolver/types.go`:143-144 says claims are empty when no consent is required; the code does not
  enforce that. `Guarantees.UngatedClaimsExactly` says when it holds and `Guarantees.UngatedClaim` shows
  that it can fail. `rejectDeadRules` finds catch-alls only, so nothing here says that every rule can be
  reached.
- `internal/contract/client.go`:207-216 says that localized fetches never leave the client's own base. The
  code does not ask for a leading slash in the reference's path, and without one the path runs into the
  authority: `FacadeClient.LocalizedExactly` says when the base is kept, `FacadeClient.RootlessLeavesBase`
  shows a reference that leaves it. An authority is what follows the first `://`, up to a `/`, `?` or `#`
  (section 3.2 of RFC 3986).
- The decoder on the facade's side is modelled as `internal/contract/client.go`:168-174 describes it: a
  short last group decodes with or without its padding, and the value is then compared with its own
  re-encoding.

## Model

| member | source | states |
|---|---|---|
| Text.AtoiItoa | internal/resolver/items.go:58 | a printed index parses back to itself, up to Go's largest int |
| Text.AtoiSigned | internal/resolver/jsonpointer.go:50 | a sign is read as one and leading zeros do not change a value |
| Text.CutAtFirst | internal/api/logging.go:72-81 | the class is cut at the first separator |
| JsonPointer.GetJSONPointer | internal/resolver/jsonpointer.go:31-60 | the token loop finds exactly what the pointer's unescaped tokens lead to, and reports absence exactly when they lead nowhere |
| JsonPointer.UnescapeIsOnePass | internal/resolver/jsonpointer.go:40-41 | the two replacement passes equal a single left-to-right decoder on every token, malformed ones included |
| JsonPointer.UnescapeEscape | internal/resolver/jsonpointer.go:64-68 | the evaluator's unescaping undoes joinPointer's escaping for every token, and an escaped token holds no slash |
| JsonPointer.JoinPointerTokens | internal/resolver/jsonpointer.go:64-68 | a joined pointer spells the base's tokens followed by the new one |
| JsonPointer.JoinPointerInjective | internal/resolver/jsonpointer.go:64-68 | distinct tokens under one base give distinct pointers |
| JsonPointer.FindAppend | internal/resolver/jsonpointer.go:31-60 | evaluating a concatenation is evaluating its parts one after the other |
| JsonPointer.FindElement | internal/resolver/items.go:57-58 | the selector emitted for element i finds exactly element i |
| JsonPointer.FindMember | internal/resolver/jsonpointer.go:31-60 | the pointer of a member finds that member, whatever its name contains, and nothing when there is none |
| JsonPointer.FindAtRoot | internal/resolver/jsonpointer.go:31-37 | the empty pointer finds the document, and one that starts otherwise than with a slash finds nothing |
| JsonPointer.FindNothing | internal/resolver/jsonpointer.go:49-56 | nothing is found inside a scalar, or at an index below zero or beyond the array |
| Rfc6901.StrictFindRefined | internal/resolver/jsonpointer.go:31-60 | whatever a strict RFC 6901 evaluator finds, the resolver finds too |
| Rfc6901.StrictExactly | internal/resolver/jsonpointer.go:39-52 | the two agree on every document if and only if the pointer has no stray tilde and no signed or zero-padded number that could index a slice |
| Contracts.FindContractForTarget | internal/resolver/contract_matcher.go:224-234 | the search returns the first contract that permits the URI and prohibits it nowhere |
| Contracts.GovernsMeans | internal/resolver/contract_matcher.go:238-268 | the nested scans decide membership in the contract-wide union of permission or prohibition targets |
| Contracts.GovernsByRules | internal/resolver/contract_matcher.go:224-268 | a contract governs a URI exactly when some rule of some policy permits it as its asset target and no rule of any policy prohibits it |
| Contracts.GoverningExactly | internal/resolver/contract_matcher.go:214-234 | the index found is the first governing one, and none is found exactly when no contract governs |
| Contracts.RegroupingKeepsGoverning | internal/resolver/contract_matcher.go:214-234 | splitting, merging or reordering policies inside contracts never changes the answer |
| Contracts.ProhibitingOnlyRemoves | internal/resolver/contract_matcher.go:214-234 | adding prohibitions never governs an ungoverned URI and never moves the answer earlier |
| Contracts.FirstPIIExactly | internal/resolver/contract_matcher.go:272-279 | the first resource flagged as personal, or none when none is flagged |
| Lookup.CachingLookup.Load | internal/resolver/contract_cache.go:103-111 | a hit up to and including the instant of expiry; the clock is read only for a present entry |
| Lookup.CachingLookup.Store | internal/resolver/contract_cache.go:113-122 | the new map: swept first when it holds 128 entries or more, then updated |
| Lookup.CachingLookup.SweepExpired | internal/resolver/contract_cache.go:125-131 | exactly the expired entries go, in whatever order they are visited |
| Lookup.CachingLookup.DataResources | internal/resolver/contract_cache.go:86-101 | answer, call log, clock and map after one call |
| Lookup.NewCachingLookup | internal/resolver/contract_cache.go:71-81 | no client stays none, a ttl of zero or less hands back the bare client, and otherwise the cache starts empty |
| Resolver.OpenLookup | internal/resolver/config.go:263-270 | the cache is on exactly when the configured value is not negative, for that many milliseconds or half a minute when unset |
| CacheRuns.SweepingIsInvisible | internal/resolver/contract_cache.go:103-131 | in every ordered history a load answers as if nothing had ever been evicted: the id's latest store, if at most ttl old |
| CacheRuns.StoreExactly | internal/resolver/contract_cache.go:113-131 | a store touches its own entry only while the map holds fewer than 128, and from there on drops exactly the expired others |
| CacheRuns.SizeBound | internal/resolver/contract_cache.go:113-131 | after every store, at most 128 entries or no more than the ids stored within the last ttl |
| CacheRuns.HitExactlyWhenRemembered | internal/resolver/contract_cache.go:86-101 | in every run a keyed contract is answered without the facade exactly when its id was stored at most ttl ago, with what was stored |
| CacheRuns.MissedAreCalled | internal/resolver/contract_cache.go:86-101 | in every run the log holds exactly the questions the cache did not save, in order |
| CacheRuns.SavedExactly | internal/resolver/contract_cache.go:86-101 | after any run on other ids, a question is saved exactly when its id was remembered before the run |
| ConcurrentCache.EveryInterleavingIsSound | internal/resolver/contract_cache.go:86-122 | under any interleaving a returned value is that of the one inner call made during the call, or the call made none and the value is a success stored for the same id at most ttl before the load; no error and no empty id is ever in the map |
| ConcurrentCache.InterleavedMapIsAHistory | internal/resolver/contract_cache.go:103-131 | under any interleaving the map is that of the stores made in sequence, so sweeping is invisible and the size bounded there too |
| ConcurrentCache.InterleavedAnswersAreFresh | internal/resolver/contract_cache.go:86-122 | under any interleaving, with a facade that keeps to a catalog from some fetch on: a call that fetched since then, or was answered from the map when no earlier fetch had been stored within the last ttl, returned the catalog's answer |
| ConcurrentCache.InterleavedMapIsFresh | internal/resolver/contract_cache.go:103-111 | and so will the next load |
| ConcurrentCache.SerialRunKeepsNewest | internal/resolver/contract_cache.go:86-122 | a run in which no two callers are about to store for one id at the same time keeps the stores of every id in fetch order, and each entry is the newest fetch that has reached the map |
| ConcurrentCache.OverlapGoesStale | internal/resolver/contract_cache.go:86-122 | from any such pair the map comes to serve the older fetch although the newer was stored |
| ConcurrentCache.ReversesExactly | internal/resolver/contract_cache.go:86-122 | in every reachable state two stores can come out of fetch order exactly when such a pair exists |
| ConcurrentCache.OlderFetchCanWin | internal/resolver/contract_cache.go:86-122 | such a pair can arise: without single flight an older fetch can replace a newer one, for every contract and every two answers |
| ConcurrentCache.SoloIsSequential | internal/resolver/contract_cache.go:86-122 | an uninterrupted call of the step system gives the sequential cache's answer and map |
| Payload.LazyPayload.JSON | internal/resolver/jsonpointer.go:92-108 | however often it is asked for, the body is decoded once, and the answer is that decoding |
| Payload.NothingSent | internal/resolver/jsonpointer.go:131-141 | no body, an encoding that sends none, or an empty json body is no payload and no error |
| Payload.JSONBodyYields | internal/resolver/jsonpointer.go:138-146 | a non-empty json body is what it parses to, or a bad request |
| Payload.Base64BodyYields | internal/resolver/jsonpointer.go:147-166 | a base64 body whose bytes are JSON is the json body of those bytes; other bytes are no payload and no error |
| Payload.DecodeFailsExactly | internal/resolver/jsonpointer.go:131-171 | decoding fails in exactly four ways, always as a bad request |
| Matchers.ClaimsPerItem | internal/resolver/items.go:40-65 | the loop, with its early exit, builds claims item by item over the request's memo |
| Matchers.PerRequestResources.Pii | internal/resolver/contract_matcher.go:120-134 | answer, memo and lookup after one question; errors and contracts without an id are not memoized |
| Matchers.ContractClaims | internal/resolver/contract_matcher.go:140-175 | the checks in their order, then one contract lookup and the walk over a fresh memo |
| Matchers.Claims | internal/resolver/matcher.go:83-196 | every matcher's outcome, and that only body-reading matchers decode |
| Resolver.NewPathMatcher | internal/resolver/matcher.go:58-81 | the last groups named owner and resource are the ones used |
| Resolver.Parse | internal/resolver/config.go:159-235 | accepts exactly the configurations whose rules all compile and whose catch-alls are last; what it returns is valid; a rejection names the first fault: the default scheme, the service URL, the first rule that does not compile, or the first early catch-all |
| Resolver.FaultsExactly | internal/resolver/config.go:159-252 | a configuration has at most one first fault, and none exactly when it is accepted |
| Resolver.RejectDeadRules | internal/resolver/config.go:244-252 | reports the first catch-all that stands before the last rule, or none when there is none |
| Resolver.CompilesExactly | internal/resolver/config.go:191-287 | a rule compiles exactly when its patterns compile, its kind is known, its owner source is given, a contract rule has consent required and a service, and its scheme is known; the URI pointer defaults to /id |
| Resolver.CompiledRuleOk | internal/resolver/config.go:191-230 | a compiled rule has an owner source, a known scheme, and consent required if it is a contract rule |
| Resolver.FirstMatchIsTopmost | internal/resolver/config.go:296-317 | the topmost matching rule decides |
| Resolver.Resolve | internal/resolver/config.go:296-317 | the outcome of the deciding rule or of the defaults; the body is decoded once for a rule that reads it and never otherwise |
| FromFile.AcceptedExactly | internal/resolver/config.go:159-287 | a file is accepted exactly when its default scheme is known, its contract service has a URL, every rule has what its kind needs and a known scheme, and only the last rule leaves service and path pattern empty |
| FromFile.DecidesOnce | internal/resolver/config.go:130-138 | at most one rule is the first that applies, and there is one whenever any applies |
| FromFile.RuleDecides | internal/resolver/config.go:296-317 | the first rule of the file whose service is empty or the request's, and whose path pattern is empty or found in the path, decides: the answer has its flag, its scheme (or the file's, or identifier) and its matcher's claims or error |
| FromFile.DefaultsDecide | internal/resolver/config.go:312-316 | when no rule of the file applies, the answer is the file's defaults, without claims |
| FromFile.RuleKeeps | internal/resolver/config.go:191-229 | flag, scheme and name of a compiled rule are the file's |
| FromFile.StaticRuleAnswers | internal/resolver/matcher.go:182-197 | a static rule answers with the owner, participant and resource the file gives it |
| FromFile.PathRuleAnswers | internal/resolver/matcher.go:58-102 | a path rule answers exactly when its pattern matches the request's path with a non-empty last owner group, and then with that owner, the resource group or else the fixed resource, and the file's participant |
| FromFile.JSONRuleAnswers | internal/resolver/matcher.go:120-168 | a json rule's items are found where the file says, one or many; it answers exactly when each names an owner, and a resource if the file points to one; each claim is that owner's, with that resource or the fixed one, and the file's participant; nobody is asked |
| FromFile.FirstQuestion | internal/resolver/contract_matcher.go:140-162 | nothing is asked exactly when the body is unusable or a party is missing; otherwise the first question is for the contracts of the request's consumer with the request's provider, or the configured one if it names none |
| FromFile.ContractRuleAnswers | internal/resolver/contract_matcher.go:140-212 | while the facade keeps to one catalog, a contract rule answers exactly when the body is usable, both parties are known, contracts are named for them, and each item found where the file says names an owner and a governed URI; each claim is that owner's, with the governing contract's first personal resource and the file's participant |
| FromFile.WhoIsAsked | internal/resolver/contract_matcher.go:148-162 | of the rules of a file only a contract rule asks, and whom is told from the file and the request |
| Guarantees.Provenance | internal/resolver/items.go:40-65 | every claim's owner is the string in the body at selector + owner pointer; selectors lead to the items in order, one claim each, all distinct |
| Guarantees.OwnersIgnoreParties | internal/resolver/types.go:95-105 | two successful runs that differ in parties and facade answers only name the same subjects; without a contract rule the whole outcomes are equal |
| Guarantees.OnlyContractsSeeParties | internal/resolver/matcher.go:83-196 | a json, path or static rule answers the same whatever the parties and the facade, and never calls it |
| Guarantees.BodylessRulesIgnoreBody | internal/resolver/config.go:289-311 | a path or static rule, or no rule, answers the same for every body and asks nobody |
| Guarantees.FailClosed | internal/resolver/matcher.go:27-40 | every claim has an owner; no claims exactly for no rule or an empty items array; the consent flag is the rule's own |
| Guarantees.UngatedClaimsExactly | internal/resolver/types.go:143-144 | claims are empty when no consent is required, exactly if no rule decided, the deciding rule requires consent, or its items are an empty array |
| Guarantees.UngatedClaim | internal/resolver/types.go:143-144 | a configuration file with one static rule that requires no consent is accepted, and then every request is answered with a claim |
| Guarantees.ResolveErrors | internal/resolver/jsonpointer.go:110-116 | every error names one of seven components, and is a bad request exactly when the deciding rule reads an undecodable body |
| Meaning.JSONRuleExactly | internal/resolver/matcher.go:138-168 | a json rule answers exactly when every item has its owner and resource, and then with exactly those claims |
| Meaning.ContractRuleExactly | internal/resolver/contract_matcher.go:140-212 | while the facade keeps to one catalog during the request, a contract rule answers exactly when body, parties, signed contracts, owners, governing contracts and resources are all there; each claim names its governing contract's first personal resource |
| Meaning.SignedContractsGovern | internal/resolver/contract_matcher.go:140-212 | when the lookup hands over the signed ones of some contracts, every item of a contract rule's answer has a signed contract of those governing it, whatever else the facade says |
| Meaning.PathRuleExactly | internal/resolver/matcher.go:58-102 | a path rule answers exactly when the pattern matches with a non-empty owner group, with that owner |
| Memo.ContractClaimsAreNaive | internal/resolver/contract_matcher.go:120-212 | when the facade's answers during the request, and the entries still good, are a catalog's that depends on the contract id only, memo and cache change neither claims nor errors, whatever the facade says later |
| Memo.NaiveAfterAnyRun | internal/resolver/contract_cache.go:56-122 | whatever the facade answered before and answers after, if its answers from more than a ttl ago (or from any point, without a cache) up to the end of this request are the catalog's, a contract rule answers naively, after any run of requests |
| Memo.AlwaysNaive | internal/resolver/contract_cache.go:56-122 | with a catalog that never changed, every contract rule answers naively after every run of requests |
| Cost.FacadeCost | internal/resolver/contract_matcher.go:136-175 | one contract lookup, then one question per distinct governing id and per governing contract without an id, in order over the items reached: all of them, every one settled, on success; on failure up to the first that settles on no contract or whose question fails; the log is exactly the questions the cache did not save, and all of them without a cache |
| Cost.FailsFirstOnce | internal/resolver/contract_matcher.go:136-175 | that first item is unique, and a rule with such an item cannot succeed |
| Cost.SavedFetches | internal/resolver/contract_cache.go:86-111 | the cache saves exactly the questions whose id was stored before the request, at most ttl ago |
| Observability.Metrics.Observe | internal/api/metrics.go:94-114 | the new counters, bucket slice included, as a function of the old ones |
| Observability.Metrics.ObserveFailure | internal/api/metrics.go:118-127 | the new failure counter, with the overflow branch |
| Observability.FailuresExactly | internal/api/metrics.go:118-127 | in every history the first 64 classes have exact counts, "other" holds the rest and its own, the counts sum to the history, at most 65 series |
| Observability.WithinCap | internal/api/metrics.go:45-53 | with at most 64 classes nothing is folded and every count is exact |
| Histogram.HistogramExactly | internal/api/metrics.go:94-169 | in every history all four maps hold the same routes; each observed pair of route and status has its exact count and no other pair a series; each bucket counts the route's observations within its bound, cumulatively; the request count is the sum over statuses |
| Handling.ClassIsComponent | internal/api/logging.go:64-81 | the class of an error is its component, whatever the detail says, or unspecified for none |
| Handling.ResolveClassIsKnown | internal/api/logging.go:64-81 | the class of every error Resolve can return is one of seven |
| Handling.Handler.Resolve | internal/api/handler.go:182-235 | reply, lookup and failure counter after one request |
| Handling.Handler.Serve | internal/api/handler.go:132-146 | the same, and the request metrics after one observation of the reply's status |
| Handling.StatusSplit | internal/api/handler.go:212-234 | after a decodable envelope: 400 exactly for an undecodable body that is read, 422 for every other failure, 200 otherwise |
| Handling.ReplyCarriesResult | internal/api/handler.go:212-235 | the reply carries exactly the resolver's result, and then no failure is counted |
| Handling.RefusalsSayNothing | internal/api/handler.go:222-233 | two failed resolves refused with one status get the same reply, whatever their errors |
| Handling.TurnedAway | internal/api/handler.go:182-210 | what is turned away at the door gets its own status and changes nothing |
| Handling.CapIsNeverReached | internal/api/metrics.go:45-53 | in every run of the handler the failure counter holds only the seven classes, each exact, so the cap is never reached |
| Handling.FailuresAreTheRefusals | internal/api/handler.go:132-146 | in the state a run leaves, the 400 and 422 series add up to the total of the failure counter plus the malformed envelopes |
| FacadeClient.DecodeEncode | internal/contract/client.go:148-182 | every byte sequence is recovered from its encoding |
| FacadeClient.AlphabetExactly | internal/contract/client.go:157-178 | the 64 digits are those of the URL-safe alphabet, in order |
| FacadeClient.ReencodeExactly | internal/contract/client.go:168-174 | the facade's re-encoding check accepts a decodable value exactly when it is padded to whole groups and its unused bits are zero |
| FacadeClient.UnpaddedIsRefused | internal/contract/client.go:168-174 | an unpadded value decodes to the same bytes and then fails the re-encoding check, unless there was nothing to pad |
| FacadeClient.EncodedIsPathSafe | internal/contract/client.go:154-161 | the output holds letters, digits, '-', '_' and '=' only |
| FacadeClient.VerifyPathInjective | internal/contract/client.go:188-190 | the verify path determines the provider and consumer |
| FacadeClient.VerifyPathNames | internal/contract/client.go:188-190 | the segments of the verify path decode to the provider and then the consumer |
| FacadeClient.SignedMembers | internal/contract/client.go:106-111 | the filter keeps exactly the members that count as signed |
| FacadeClient.SignedExactly | internal/contract/client.go:59-111 | a contract is kept exactly when its status spells signed, each letter in either case (or a long s for the s); an empty, revoked, terminated, pending or unsigned one never is |
| FacadeClient.SignedAppend | internal/contract/client.go:198-203 | the filter keeps the order: it distributes over concatenation |
| FacadeClient.Client.SignedContracts | internal/contract/client.go:188-205 | one fetch of the pair's path; no contracts for an unverified pair, else those whose status spells signed, in order |
| FacadeClient.VerifyStaysOnBase | internal/contract/client.go:188-190 | the verify URL goes to the client's own authority |
| FacadeClient.Client.DataResources | internal/contract/client.go:235-265 | the result and exactly the URLs fetched: the offering, then its references in order, up to the first failure |
| FacadeClient.RefsExactly | internal/contract/client.go:247-263 | all references resolve to their resources with their canonical ids, or the error is that of the first that does not; the URLs are the references up to there, localized |
| FacadeClient.DocumentsExactly | internal/contract/client.go:247-263 | each reference of a success gave the document fetched for it, under its own id or else the reference |
| FacadeClient.OfferingExactly | internal/contract/client.go:235-246 | without an offering nothing is fetched and there are no resources; one that cannot be localized or fetched ends it with that error |
| FacadeClient.RefusedExactly | internal/contract/client.go:217-225 | a reference is refused exactly when it does not parse or has no path to keep |
| FacadeClient.LocalizedExactly | internal/contract/client.go:207-230 | a localized URL goes to the client's own authority exactly when the reference's path starts with a slash, '?' or '#', or the base has a path of its own |
| FacadeClient.LocalizedDetermines | internal/contract/client.go:217-230 | two references localize to one URL exactly when they agree on path and query, or one's decoded path holds a question mark just where the other's query begins and they run on alike |
| FacadeClient.DecodedMarkCollides | internal/contract/client.go:217-230 | the path /a?b without a query and the path /a with query b make one URL |
| FacadeClient.RootlessLeavesBase | internal/contract/client.go:207-230 | a reference whose path has no leading slash leads to another authority |
| FacadeClient.FetchesStayExactly | internal/contract/client.go:235-265 | each fetch of a dereference goes to the client's own authority exactly under that condition on its reference |

## Left out

- HTTP serving, authentication, size limits, request ids, timeouts, logging text and path digests: plumbing
  around the decisions modelled here; what was turned away at the door is an input of the handler.
- JSON text, standard base64 of bodies, regular expressions, URL parsing: library code, arbitrary here.
- Unicode: pointer and header texts are character sequences, participants are byte sequences; the tokens
  that matter are ASCII. Case folding of a contract's status is modelled for the word it is compared with.
- The exposition text of the metrics and its sorting.
- Configuration file decoding: Parse starts from the decoded structure.
- The client's timeout and the size limit of its responses.
- The link between the HTTP client and the facade oracle of the lookup: the matcher is proved for any facade.
- Locks: the metrics methods are atomic here, so concurrent requests are some order of calls; only the
  cache, which releases its lock between load and store, is modelled step by step.
- Handling.CapIsNeverReached: runs are sequences of requests, not interleavings.
