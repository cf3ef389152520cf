/**
 * The per-request memo and the cache under it, against the naive form that asks the catalog afresh
 * for every item (internal/resolver/contract_matcher.go, contract_cache.go).
 */
module Memo {
  import opened Results
  import opened Text
  import opened JsonPointer
  import opened Payload
  import opened Contracts
  import opened Lookup
  import opened Matchers
  import opened Resolver
  import CacheRuns
  import Guarantees

  // ---- a catalog that does not change meanwhile ------------------------------------------------

  /** The calls numbered from `first` up to `until` are answered by the catalog. */
  ghost predicate AnswersBy(env: LookupEnv, first: nat, until: nat, catalog: Catalog) {
    forall n: nat, c: Contract :: first <= n < until ==> env.oracle.resources(n, c) == catalog(c)
  }

  /** Every entry that is still good holds what the catalog says. */
  ghost predicate EntriesAgree(env: LookupEnv, st: LookupState, catalog: Catalog) {
    forall id :: id in st.items ==>
      Expired(st.items[id], env.ticks(st.readings)) || EntryAgrees(catalog, id, st.items[id].resources)
  }

  /** The entries agree, and the facade will, from here on up to the call numbered `until`. */
  ghost predicate Steady(env: LookupEnv, st: LookupState, until: nat, catalog: Catalog) {
    AnswersBy(env, |st.calls|, until, catalog) && EntriesAgree(env, st, catalog)
  }

  lemma LookupIsCatalog(env: LookupEnv, st: LookupState, until: nat, catalog: Catalog, c: Contract)
    requires Monotone(env.ticks) && ById(catalog) && Steady(env, st, until, catalog)
    requires |ResourcesOf(env, st, c).1.calls| <= until
    ensures ResourcesOf(env, st, c).0 == catalog(c)
    ensures Steady(env, ResourcesOf(env, st, c).1, until, catalog)
  {
    assert env.ticks(st.readings) <= env.ticks(ResourcesOf(env, st, c).1.readings);
  }

  /** Every store of the last ttl kept what the catalog says. */
  ghost predicate UnchangedOverWindow(env: LookupEnv, st: LookupState, history: seq<CacheRuns.Stored>,
                                      catalog: Catalog)
  {
    forall s :: s in history && s.at >= env.ticks(st.readings) - env.ttl ==>
      EntryAgrees(catalog, s.id, s.resources)
  }

  /** The catalog need only have been unchanged over the TTL window: older stores have expired. */
  lemma SteadyAfterWindow(env: LookupEnv, st: LookupState, history: seq<CacheRuns.Stored>, catalog: Catalog)
    requires CacheRuns.Records(env, st, history) && UnchangedOverWindow(env, st, history, catalog)
    ensures EntriesAgree(env, st, catalog)
  {
    forall id | id in st.items
      ensures Expired(st.items[id], env.ticks(st.readings)) || EntryAgrees(catalog, id, st.items[id].resources)
    {
      CacheRuns.EntriesAreLastStores(history, env.ttl, id, env.ticks(st.readings));
      CacheRuns.LastStoreInHistory(history, id);
    }
  }

  // ---- the naive form ---------------------------------------------------------------------------

  /** One claim, with a fresh look at the catalog. */
  ghost function NaiveClaim(lib: Library, catalog: Catalog, m: Matcher, contracts: seq<Contract>, item: Json,
                            selector: string)
    : Result<Claim, Error>
    requires m.ContractMatcher?
  {
    match PlanItem(lib, m, contracts, item)
    case Err(e) => Err(e)
    case Ok(plan) =>
      match catalog(plan.governing)
      case Err(e) => Err(ResourcesError(lib, plan.governing, e))
      case Ok(resources) => Ok(ContractClaim(m, plan, FirstPII(resources), selector))
  }

  ghost function NaiveWalk(lib: Library, catalog: Catalog, m: Matcher, contracts: seq<Contract>, arr: seq<Json>,
                           base: string, n: nat): Result<seq<Claim>, Error>
    requires m.ContractMatcher? && n <= |arr|
  {
    if n == 0 then Ok([])
    else
      match NaiveWalk(lib, catalog, m, contracts, arr, base, n - 1)
      case Err(e) => Err(e)
      case Ok(before) =>
        match NaiveClaim(lib, catalog, m, contracts, arr[n - 1], JoinPointer(base, Itoa(n - 1)))
        case Err(e) => Err(e)
        case Ok(c) => Ok(before + [c])
  }

  ghost function NaivePerItem(lib: Library, catalog: Catalog, m: Matcher, contracts: seq<Contract>, decoded: Json)
    : Result<seq<Claim>, Error>
    requires m.ContractMatcher?
  {
    match Find(decoded, m.items)
    case None => Err(Failure("contract matcher", "no data at items pointer " + lib.quote(m.items)))
    case Some(root) =>
      if !m.itemsIsArray then
        match NaiveClaim(lib, catalog, m, contracts, root, m.items)
        case Ok(c) => Ok([c])
        case Err(e) => Err(e)
      else if !root.Array? then Err(Failure("contract matcher", "value at " + lib.quote(m.items) + " is not an array"))
      else NaiveWalk(lib, catalog, m, contracts, root.elems, m.items, |root.elems|)
  }

  /** A contract rule's claims, given the contracts the facade names. */
  ghost function NaiveClaims(lib: Library, catalog: Catalog, m: Matcher, req: Request,
                             named: (string, string) -> Result<seq<Contract>, string>): Result<seq<Claim>, Error>
    requires m.ContractMatcher?
  {
    match BeforeFacade(lib, m, req)
    case Err(e) => Err(e)
    case Ok(decoded) =>
      var (provider, consumer) := PartiesOf(m, req.parties);
      match UsableContracts(lib, provider, consumer, named(provider, consumer))
      case Err(e) => Err(e)
      case Ok(contracts) => NaivePerItem(lib, catalog, m, contracts, decoded)
  }

  // ---- memo and cache change nothing ----------------------------------------------------------------

  ghost predicate MemoAgrees(catalog: Catalog, id: string, pii: PiiResource) {
    forall c: Contract :: c.id == id ==> catalog(c).Ok? && pii == FirstPII(catalog(c).value)
  }

  /** The lookup is steady and every memoized answer is the catalog's. */
  ghost predicate SteadyMemo(env: LookupEnv, st: MemoState, until: nat, catalog: Catalog) {
    && Steady(env, st.lookup, until, catalog)
    && forall id :: id in st.memo ==> id != "" && MemoAgrees(catalog, id, st.memo[id])
  }

  lemma PiiIsNaive(env: LookupEnv, st: MemoState, until: nat, catalog: Catalog, c: Contract)
    requires Monotone(env.ticks) && ById(catalog) && SteadyMemo(env, st, until, catalog)
    requires |PiiOf(env, st, c).1.lookup.calls| <= until
    ensures var (r, next) := PiiOf(env, st, c);
      && SteadyMemo(env, next, until, catalog)
      && r == (match catalog(c) case Ok(resources) => Ok(FirstPII(resources)) case Err(e) => Err(e))
  {
    if !(c.id in st.memo && c.id != "") {
      LookupIsCatalog(env, st.lookup, until, catalog, c);
    }
  }

  lemma BuildIsNaive(lib: Library, env: LookupEnv, st: MemoState, until: nat, catalog: Catalog, m: Matcher,
                     contracts: seq<Contract>, item: Json, selector: string)
    requires m.ContractMatcher? && Monotone(env.ticks) && ById(catalog) && SteadyMemo(env, st, until, catalog)
    requires |BuildOf(lib, env, FromContract(m, contracts), item, selector, st).1.lookup.calls| <= until
    ensures var (r, next) := BuildOf(lib, env, FromContract(m, contracts), item, selector, st);
      r == NaiveClaim(lib, catalog, m, contracts, item, selector) && SteadyMemo(env, next, until, catalog)
  {
    var plan := PlanItem(lib, m, contracts, item);
    if plan.Ok? {
      PiiIsNaive(env, st, until, catalog, plan.value.governing);
    }
  }

  lemma BuildGrows(lib: Library, env: LookupEnv, b: Builder, item: Json, selector: string, st: MemoState)
    requires BuilderOk(b)
    ensures |st.lookup.calls| <= |BuildOf(lib, env, b, item, selector, st).1.lookup.calls|
  {
  }

  /** The log only grows along the walk. */
  lemma WalkGrows(lib: Library, env: LookupEnv, b: Builder, arr: seq<Json>, base: string, n: nat, st: MemoState)
    requires BuilderOk(b) && n < |arr|
    ensures |WalkItems(lib, env, b, arr, base, n, st).1.lookup.calls|
         <= |WalkItems(lib, env, b, arr, base, n + 1, st).1.lookup.calls|
  {
    BuildGrows(lib, env, b, arr[n], JoinPointer(base, Itoa(n)), WalkItems(lib, env, b, arr, base, n, st).1);
  }

  /** The first n items give the naive answer and leave the memo steady. */
  ghost predicate WalkAgrees(lib: Library, env: LookupEnv, st: MemoState, until: nat, catalog: Catalog, m: Matcher,
                             contracts: seq<Contract>, arr: seq<Json>, base: string, n: nat)
    requires m.ContractMatcher? && n <= |arr|
  {
    var (r, next) := WalkItems(lib, env, FromContract(m, contracts), arr, base, n, st);
    r == NaiveWalk(lib, catalog, m, contracts, arr, base, n) && SteadyMemo(env, next, until, catalog)
  }

  lemma OneMoreAgrees(lib: Library, env: LookupEnv, st: MemoState, until: nat, catalog: Catalog, m: Matcher,
                      contracts: seq<Contract>, arr: seq<Json>, base: string, n: nat)
    requires m.ContractMatcher? && Monotone(env.ticks) && ById(catalog) && n < |arr|
    requires WalkAgrees(lib, env, st, until, catalog, m, contracts, arr, base, n)
    requires |WalkItems(lib, env, FromContract(m, contracts), arr, base, n + 1, st).1.lookup.calls| <= until
    ensures WalkAgrees(lib, env, st, until, catalog, m, contracts, arr, base, n + 1)
  {
    var (before, mid) := WalkItems(lib, env, FromContract(m, contracts), arr, base, n, st);
    if before.Ok? {
      BuildIsNaive(lib, env, mid, until, catalog, m, contracts, arr[n], JoinPointer(base, Itoa(n)));
    }
  }

  lemma {:induction false} WalkIsNaive(lib: Library, env: LookupEnv, st: MemoState, until: nat, catalog: Catalog,
                                       m: Matcher, contracts: seq<Contract>, arr: seq<Json>, base: string, n: nat)
    requires m.ContractMatcher? && Monotone(env.ticks) && ById(catalog) && SteadyMemo(env, st, until, catalog)
    requires n <= |arr|
    requires |WalkItems(lib, env, FromContract(m, contracts), arr, base, n, st).1.lookup.calls| <= until
    ensures WalkAgrees(lib, env, st, until, catalog, m, contracts, arr, base, n)
  {
    if n > 0 {
      WalkGrows(lib, env, FromContract(m, contracts), arr, base, n - 1, st);
      WalkIsNaive(lib, env, st, until, catalog, m, contracts, arr, base, n - 1);
      OneMoreAgrees(lib, env, st, until, catalog, m, contracts, arr, base, n - 1);
    }
  }

  lemma PerItemIsNaive(lib: Library, env: LookupEnv, st: MemoState, until: nat, catalog: Catalog, m: Matcher,
                       contracts: seq<Contract>, decoded: Json)
    requires m.ContractMatcher? && Monotone(env.ticks) && ById(catalog) && SteadyMemo(env, st, until, catalog)
    requires |PerItem(lib, env, FromContract(m, contracts), decoded, st).1.lookup.calls| <= until
    ensures var (r, next) := PerItem(lib, env, FromContract(m, contracts), decoded, st);
      r == NaivePerItem(lib, catalog, m, contracts, decoded) && SteadyMemo(env, next, until, catalog)
  {
    var root := Find(decoded, m.items);
    if root.Some? {
      if !m.itemsIsArray {
        BuildIsNaive(lib, env, st, until, catalog, m, contracts, root.value, m.items);
      } else if root.value.Array? {
        WalkIsNaive(lib, env, st, until, catalog, m, contracts, root.value.elems, m.items, |root.value.elems|);
      }
    }
  }

  /**
   * A contract rule answers exactly as the naive form does, claims and errors alike, with the memo and
   * with or without the cache, when the entries and the facade's answers during this very request are
   * the catalog's; whatever the facade says later. The entries then still agree.
   */
  lemma ContractClaimsAreNaive(lib: Library, env: LookupEnv, st: LookupState, catalog: Catalog, m: Matcher,
                               req: Request)
    requires m.ContractMatcher? && Monotone(env.ticks) && ById(catalog)
    requires Steady(env, st, |ContractClaimsOf(lib, env, m, req, st).1.calls|, catalog)
    ensures var (r, next) := ContractClaimsOf(lib, env, m, req, st);
            var named := (provider, consumer) => env.oracle.contracts(|st.calls|, provider, consumer);
      r == NaiveClaims(lib, catalog, m, req, named) && EntriesAgree(env, next, catalog)
  {
    var until := |ContractClaimsOf(lib, env, m, req, st).1.calls|;
    if BeforeFacade(lib, m, req).Ok? {
      var (provider, consumer) := PartiesOf(m, req.parties);
      var (answer, asked) := ContractsOf(env, st, provider, consumer);
      if UsableContracts(lib, provider, consumer, answer).Ok? {
        PerItemIsNaive(lib, env, MemoState(map[], asked), until, catalog, m, answer.value,
                       BeforeFacade(lib, m, req).value);
      }
    }
  }

  // ---- every run of requests ------------------------------------------------------------------------

  lemma BuildContinues(lib: Library, env: LookupEnv, b: Builder, item: Json, selector: string, st: MemoState,
                       history: seq<CacheRuns.Stored>) returns (added: seq<CacheRuns.Stored>)
    requires BuilderOk(b) && Monotone(env.ticks) && CacheRuns.Records(env, st.lookup, history)
    ensures CacheRuns.Continues(env, st.lookup, history, BuildOf(lib, env, b, item, selector, st).1.lookup, added)
  {
    added := [];
    var asks := b.FromContract? && PlanItem(lib, b.m, b.contracts, item).Ok?;
    if asks && !(PlanItem(lib, b.m, b.contracts, item).value.governing.id in st.memo
                 && PlanItem(lib, b.m, b.contracts, item).value.governing.id != "") {
      var c := PlanItem(lib, b.m, b.contracts, item).value.governing;
      CacheRuns.CallContinues(env, st.lookup, history, c);
      added := CacheRuns.StoreOf(env, st.lookup, c);
    } else {
      CacheRuns.NothingAdded(env, st.lookup, history, st.lookup);
    }
  }

  lemma {:induction false} WalkContinues(lib: Library, env: LookupEnv, b: Builder, arr: seq<Json>, base: string,
                                         n: nat, st: MemoState, history: seq<CacheRuns.Stored>)
    returns (added: seq<CacheRuns.Stored>)
    requires BuilderOk(b) && n <= |arr| && Monotone(env.ticks) && CacheRuns.Records(env, st.lookup, history)
    ensures CacheRuns.Continues(env, st.lookup, history, WalkItems(lib, env, b, arr, base, n, st).1.lookup, added)
  {
    if n == 0 {
      added := [];
      CacheRuns.NothingAdded(env, st.lookup, history, st.lookup);
    } else {
      added := WalkContinues(lib, env, b, arr, base, n - 1, st, history);
      var (before, mid) := WalkItems(lib, env, b, arr, base, n - 1, st);
      if before.Ok? {
        var selector := JoinPointer(base, Itoa(n - 1));
        var more := BuildContinues(lib, env, b, arr[n - 1], selector, mid, history + added);
        CacheRuns.ContinuesFurther(env, st.lookup, history, mid.lookup, added,
                                   BuildOf(lib, env, b, arr[n - 1], selector, mid).1.lookup, more);
        added := added + more;
      }
    }
  }

  lemma PerItemContinues(lib: Library, env: LookupEnv, b: Builder, decoded: Json, st: MemoState,
                         history: seq<CacheRuns.Stored>) returns (added: seq<CacheRuns.Stored>)
    requires BuilderOk(b) && Monotone(env.ticks) && CacheRuns.Records(env, st.lookup, history)
    ensures CacheRuns.Continues(env, st.lookup, history, PerItem(lib, env, b, decoded, st).1.lookup, added)
  {
    var root := Find(decoded, b.m.items);
    if root.Some? && !b.m.itemsIsArray {
      added := BuildContinues(lib, env, b, root.value, b.m.items, st, history);
    } else if root.Some? && root.value.Array? {
      added := WalkContinues(lib, env, b, root.value.elems, b.m.items, |root.value.elems|, st, history);
    } else {
      added := [];
      CacheRuns.NothingAdded(env, st.lookup, history, st.lookup);
    }
  }

  lemma FacadeContinues(lib: Library, env: LookupEnv, m: Matcher, decoded: Json, provider: string, consumer: string,
                        st: LookupState, history: seq<CacheRuns.Stored>) returns (added: seq<CacheRuns.Stored>)
    requires m.ContractMatcher? && Monotone(env.ticks) && CacheRuns.Records(env, st, history)
    ensures CacheRuns.Continues(env, st, history,
                                FacadeClaimsOf(lib, env, m, decoded, provider, consumer, st).1, added)
  {
    var (answer, asked) := ContractsOf(env, st, provider, consumer);
    CacheRuns.NothingAdded(env, st, history, asked);
    added := [];
    if UsableContracts(lib, provider, consumer, answer).Ok? {
      var b, memo := FromContract(m, answer.value), MemoState(map[], asked);
      var more := PerItemContinues(lib, env, b, decoded, memo, history);
      assert history + [] == history && [] + more == more;
      CacheRuns.ContinuesFurther(env, st, history, asked, [], PerItem(lib, env, b, decoded, memo).1.lookup, more);
      added := more;
    }
  }

  lemma ContractContinues(lib: Library, env: LookupEnv, m: Matcher, req: Request, st: LookupState,
                          history: seq<CacheRuns.Stored>) returns (added: seq<CacheRuns.Stored>)
    requires m.ContractMatcher? && Monotone(env.ticks) && CacheRuns.Records(env, st, history)
    ensures CacheRuns.Continues(env, st, history, ContractClaimsOf(lib, env, m, req, st).1, added)
  {
    if BeforeFacade(lib, m, req).Ok? {
      var (provider, consumer) := PartiesOf(m, req.parties);
      added := FacadeContinues(lib, env, m, BeforeFacade(lib, m, req).value, provider, consumer, st, history);
    } else {
      added := [];
      CacheRuns.NothingAdded(env, st, history, st);
    }
  }

  lemma ResolveContinues(lib: Library, env: LookupEnv, cr: ConfigResolver, req: Request, st: LookupState,
                         history: seq<CacheRuns.Stored>) returns (added: seq<CacheRuns.Stored>)
    requires Valid(cr) && Monotone(env.ticks) && CacheRuns.Records(env, st, history)
    ensures CacheRuns.Continues(env, st, history, ResolveOf(lib, env, cr, req, st).1, added)
  {
    Guarantees.OnlyContractsCall(lib, env, cr, req, st);
    var rule := FirstMatch(cr.rules, req.resource);
    if rule.Some? && rule.value.matcher.ContractMatcher? {
      added := ContractContinues(lib, env, rule.value.matcher, req, st, history);
    } else {
      added := [];
      CacheRuns.NothingAdded(env, st, history, st);
    }
  }

  ghost function AfterRequests(lib: Library, env: LookupEnv, cr: ConfigResolver, reqs: seq<Request>, st: LookupState)
    : LookupState
    requires Valid(cr)
    decreases |reqs|
  {
    if reqs == [] then st
    else AfterRequests(lib, env, cr, reqs[1..], ResolveOf(lib, env, cr, reqs[0], st).1)
  }

  lemma {:induction false} RequestsContinue(lib: Library, env: LookupEnv, cr: ConfigResolver, reqs: seq<Request>,
                                            st: LookupState, history: seq<CacheRuns.Stored>)
    returns (added: seq<CacheRuns.Stored>)
    requires Valid(cr) && Monotone(env.ticks) && CacheRuns.Records(env, st, history)
    ensures CacheRuns.Continues(env, st, history, AfterRequests(lib, env, cr, reqs, st), added)
    decreases |reqs|
  {
    if reqs == [] {
      added := [];
      CacheRuns.NothingAdded(env, st, history, st);
    } else {
      var mid := ResolveOf(lib, env, cr, reqs[0], st).1;
      var first := ResolveContinues(lib, env, cr, reqs[0], st, history);
      var more := RequestsContinue(lib, env, cr, reqs[1..], mid, history + first);
      CacheRuns.ContinuesFurther(env, st, history, mid, first, AfterRequests(lib, env, cr, reqs, st), more);
      added := first + more;
    }
  }

  /** The clock has gone more than a ttl beyond its last reading before a state. */
  ghost predicate WindowPassed(env: LookupEnv, changed: LookupState, now: LookupState) {
    changed.readings > 0 ==> env.ticks(now.readings) > env.ticks(changed.readings - 1) + env.ttl
  }

  lemma StoresBeforeAreOld(env: LookupEnv, start: LookupState, changed: LookupState, now: LookupState,
                           s: CacheRuns.Stored)
    requires Monotone(env.ticks) && WindowPassed(env, changed, now)
    requires CacheRuns.MadeBetween(env, start, changed, s)
    ensures s.at < env.ticks(now.readings) - env.ttl
  {
    var n: nat, k: nat, c: Contract :| CacheRuns.KeptAnswer(env, s, n, k, c) && start.readings <= k < changed.readings;
    assert env.ticks(k) <= env.ticks(changed.readings - 1);
  }

  lemma StoresSinceAgree(env: LookupEnv, changed: LookupState, now: LookupState, catalog: Catalog,
                         s: CacheRuns.Stored)
    requires ById(catalog) && AnswersBy(env, |changed.calls|, |now.calls|, catalog)
    requires CacheRuns.MadeBetween(env, changed, now, s)
    ensures EntryAgrees(catalog, s.id, s.resources)
  {
    var n: nat, k: nat, c: Contract :|
      CacheRuns.KeptAnswer(env, s, n, k, c) && |changed.calls| <= n < |now.calls|;
    assert catalog(c) == Ok(s.resources);
  }

  lemma WindowUnchanged(env: LookupEnv, start: LookupState, changed: LookupState, now: LookupState,
                        earlier: seq<CacheRuns.Stored>, later: seq<CacheRuns.Stored>, catalog: Catalog)
    requires Monotone(env.ticks) && ById(catalog) && AnswersBy(env, |changed.calls|, |now.calls|, catalog)
    requires earlier != [] ==> WindowPassed(env, changed, now)
    requires forall i :: 0 <= i < |earlier| ==> CacheRuns.MadeBetween(env, start, changed, earlier[i])
    requires forall i :: 0 <= i < |later| ==> CacheRuns.MadeBetween(env, changed, now, later[i])
    ensures UnchangedOverWindow(env, now, earlier + later, catalog)
  {
    forall s: CacheRuns.Stored | s in earlier + later && s.at >= env.ticks(now.readings) - env.ttl
      ensures EntryAgrees(catalog, s.id, s.resources)
    {
      if i :| 0 <= i < |earlier| && earlier[i] == s {
        StoresBeforeAreOld(env, start, changed, now, s);
      } else {
        StoresSinceAgree(env, changed, now, catalog, s);
      }
    }
  }

  lemma EntriesAgreeAfterRun(lib: Library, env: LookupEnv, cr: ConfigResolver, before: seq<Request>,
                             since: seq<Request>, catalog: Catalog)
    requires Valid(cr) && Monotone(env.ticks) && ById(catalog)
    requires var changed := AfterRequests(lib, env, cr, before, LookupState([], 0, map[]));
             var now := AfterRequests(lib, env, cr, since, changed);
      AnswersBy(env, |changed.calls|, |now.calls|, catalog) && (env.cached ==> WindowPassed(env, changed, now))
    ensures var changed := AfterRequests(lib, env, cr, before, LookupState([], 0, map[]));
            var now := AfterRequests(lib, env, cr, since, changed);
      EntriesAgree(env, now, catalog) && |changed.calls| <= |now.calls|
  {
    var start := LookupState([], 0, map[]);
    var changed := AfterRequests(lib, env, cr, before, start);
    var now := AfterRequests(lib, env, cr, since, changed);
    var earlier := RequestsContinue(lib, env, cr, before, start, []);
    assert [] + earlier == earlier;
    var later := RequestsContinue(lib, env, cr, since, changed, earlier);
    WindowUnchanged(env, start, changed, now, earlier, later, catalog);
    SteadyAfterWindow(env, now, earlier + later, catalog);
  }

  lemma RunGrows(lib: Library, env: LookupEnv, cr: ConfigResolver, before: seq<Request>, since: seq<Request>,
                 m: Matcher, req: Request)
    requires Valid(cr) && Monotone(env.ticks) && m.ContractMatcher?
    ensures var changed := AfterRequests(lib, env, cr, before, LookupState([], 0, map[]));
            var now := AfterRequests(lib, env, cr, since, changed);
      |changed.calls| <= |now.calls| <= |ContractClaimsOf(lib, env, m, req, now).1.calls|
  {
    var start := LookupState([], 0, map[]);
    var changed := AfterRequests(lib, env, cr, before, start);
    var earlier := RequestsContinue(lib, env, cr, before, start, []);
    assert [] + earlier == earlier;
    var later := RequestsContinue(lib, env, cr, since, changed, earlier);
    var _ := ContractContinues(lib, env, m, req, AfterRequests(lib, env, cr, since, changed), earlier + later);
  }

  /**
   * A facade may say anything during a run of requests, and anything after this one. Once it has
   * answered by the catalog for longer than the ttl (or at all, without a cache), and for as long as it
   * does, a contract rule answers naively, however many requests came in between.
   */
  lemma NaiveAfterAnyRun(lib: Library, env: LookupEnv, cr: ConfigResolver, before: seq<Request>, since: seq<Request>,
                         req: Request, catalog: Catalog, m: Matcher)
    requires Valid(cr) && Monotone(env.ticks) && ById(catalog) && m.ContractMatcher?
    requires var changed := AfterRequests(lib, env, cr, before, LookupState([], 0, map[]));
             var now := AfterRequests(lib, env, cr, since, changed);
      && AnswersBy(env, |changed.calls|, |ContractClaimsOf(lib, env, m, req, now).1.calls|, catalog)
      && (env.cached ==> WindowPassed(env, changed, now))
    ensures var changed := AfterRequests(lib, env, cr, before, LookupState([], 0, map[]));
            var now := AfterRequests(lib, env, cr, since, changed);
            var named := (provider, consumer) => env.oracle.contracts(|now.calls|, provider, consumer);
      ContractClaimsOf(lib, env, m, req, now).0 == NaiveClaims(lib, catalog, m, req, named)
  {
    var changed := AfterRequests(lib, env, cr, before, LookupState([], 0, map[]));
    RunGrows(lib, env, cr, before, since, m, req);
    EntriesAgreeAfterRun(lib, env, cr, before, since, catalog);
    ContractClaimsAreNaive(lib, env, AfterRequests(lib, env, cr, since, changed), catalog, m, req);
  }

  /** With a catalog that never changed, every contract rule answers naively after every run. */
  lemma AlwaysNaive(lib: Library, env: LookupEnv, cr: ConfigResolver, reqs: seq<Request>, req: Request,
                    catalog: Catalog, m: Matcher)
    requires Valid(cr) && Monotone(env.ticks) && ById(catalog) && m.ContractMatcher?
    requires forall n: nat, c: Contract :: env.oracle.resources(n, c) == catalog(c)
    ensures var st := AfterRequests(lib, env, cr, reqs, LookupState([], 0, map[]));
            var named := (provider, consumer) => env.oracle.contracts(|st.calls|, provider, consumer);
      ContractClaimsOf(lib, env, m, req, st).0 == NaiveClaims(lib, catalog, m, req, named)
  {
    NaiveAfterAnyRun(lib, env, cr, [], reqs, req, catalog, m);
  }
}
