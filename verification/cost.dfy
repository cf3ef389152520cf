/** Which calls a contract rule makes to the facade (internal/resolver/contract_matcher.go). */
module Cost {
  import opened Results
  import opened Collections
  import opened Text
  import opened JsonPointer
  import opened Payload
  import opened Contracts
  import opened Lookup
  import opened Matchers
  import opened CacheRuns

  // ---- the calls, told from the data alone -------------------------------------------------------

  /** The contracts governing a list of items, up to the first item that settles on none. */
  function GovernedBy(lib: Library, m: Matcher, contracts: seq<Contract>, items: seq<Json>): seq<Contract>
    requires m.ContractMatcher?
  {
    if items == [] then []
    else match PlanItem(lib, m, contracts, items[0])
         case Ok(plan) => [plan.governing] + GovernedBy(lib, m, contracts, items[1..])
         case Err(_) => []
  }

  /** The ids a contract can be memoized under. */
  function Ids(governing: seq<Contract>): set<string> {
    set c | c in governing && c.id != "" :: c.id
  }

  function Unkeyed(governing: seq<Contract>): nat {
    if governing == [] then 0 else Unkeyed(Init(governing)) + if Last(governing).id == "" then 1 else 0
  }

  /** The first occurrence of every id, and every contract without one, in order. */
  function Fetches(governing: seq<Contract>): seq<Contract> {
    if governing == [] then []
    else
      var before, c := Init(governing), Last(governing);
      Fetches(before) + if c.id == "" || c.id !in Ids(before) then [c] else []
  }

  lemma IdsAppend(governing: seq<Contract>, c: Contract)
    ensures Ids(governing + [c]) == if c.id != "" then Ids(governing) + {c.id} else Ids(governing)
  {
    assert forall d :: d in governing + [c] <==> d in governing || d == c;
  }

  lemma FetchesAppend(governing: seq<Contract>, c: Contract)
    ensures Fetches(governing + [c]) == Fetches(governing) + if c.id == "" || c.id !in Ids(governing) then [c] else []
  {
    var all := governing + [c];
    assert Init(all) == governing && Last(all) == c;
  }

  lemma OneMoreCounted(governing: seq<Contract>, c: Contract)
    requires |Fetches(governing)| == |Ids(governing)| + Unkeyed(governing)
    ensures |Fetches(governing + [c])| == |Ids(governing + [c])| + Unkeyed(governing + [c])
  {
    FetchesAppend(governing, c);
    IdsAppend(governing, c);
    var all := governing + [c];
    assert Init(all) == governing && Last(all) == c;
    assert Unkeyed(all) == Unkeyed(governing) + if c.id == "" then 1 else 0;
    if c.id != "" && c.id !in Ids(governing) {
      assert |Ids(governing) + {c.id}| == |Ids(governing)| + 1;
    } else if c.id != "" {
      assert Ids(governing) + {c.id} == Ids(governing);
    }
  }

  /** There are as many as distinct ids and contracts without an id. */
  lemma {:induction false} FetchesCounted(governing: seq<Contract>)
    ensures |Fetches(governing)| == |Ids(governing)| + Unkeyed(governing)
  {
    if governing == [] {
      assert Ids(governing) == {};
    } else {
      var before, c := Init(governing), Last(governing);
      assert governing == before + [c];
      FetchesCounted(before);
      OneMoreCounted(before, c);
    }
  }

  lemma {:induction false} GovernedAppend(lib: Library, m: Matcher, contracts: seq<Contract>, items: seq<Json>,
                                          item: Json)
    requires m.ContractMatcher? && |GovernedBy(lib, m, contracts, items)| == |items|
    ensures GovernedBy(lib, m, contracts, items + [item])
         == GovernedBy(lib, m, contracts, items) + GovernedOne(lib, m, contracts, item)
  {
    if items == [] {
      assert (items + [item])[1..] == [];
    } else {
      assert (items + [item])[1..] == items[1..] + [item];
      GovernedAppend(lib, m, contracts, items[1..], item);
    }
  }

  // ---- one item, against what was asked before -----------------------------------------------------

  /** The lookup is where asking for exactly these contracts, in this order, leaves it. */
  ghost predicate CallsFor(env: LookupEnv, start: LookupState, st: MemoState, governing: seq<Contract>) {
    st.lookup == Served(env, start, Fetches(governing))
  }

  /** Every question, asked in this order, got an answer. */
  ghost predicate Answered(env: LookupEnv, start: LookupState, asked: seq<Contract>) {
    asked == [] || (Answered(env, start, Init(asked))
                    && ResourcesOf(env, Served(env, start, Init(asked)), Last(asked)).0.Ok?)
  }

  /** They were all answered, and the memo holds exactly their ids. */
  ghost predicate AskedFor(env: LookupEnv, start: LookupState, st: MemoState, governing: seq<Contract>) {
    CallsFor(env, start, st, governing) && st.memo.Keys == Ids(governing) && Answered(env, start, Fetches(governing))
  }

  /** What one question about a contract does to the lookup and the memo. */
  lemma PiiEffect(env: LookupEnv, st: MemoState, c: Contract)
    ensures var (r, next) := PiiOf(env, st, c);
      && (if c.id != "" && c.id in st.memo then r.Ok? && next == st
          else var (answer, lookup) := ResourcesOf(env, st.lookup, c); next.lookup == lookup && r.Ok? == answer.Ok?)
      && (r.Ok? ==> next.memo.Keys == if c.id != "" then st.memo.Keys + {c.id} else st.memo.Keys)
  {
  }

  lemma AnsweredAppend(env: LookupEnv, start: LookupState, asked: seq<Contract>, c: Contract)
    ensures Answered(env, start, asked + [c])
       <==> Answered(env, start, asked) && ResourcesOf(env, Served(env, start, asked), c).0.Ok?
  {
    assert Init(asked + [c]) == asked && Last(asked + [c]) == c;
  }

  lemma PiiCalls(env: LookupEnv, start: LookupState, st: MemoState, governing: seq<Contract>, c: Contract)
    requires AskedFor(env, start, st, governing)
    ensures var (r, next) := PiiOf(env, st, c);
      && CallsFor(env, start, next, governing + [c])
      && (if r.Ok? then AskedFor(env, start, next, governing + [c])
          else !Answered(env, start, Fetches(governing + [c])))
  {
    PiiEffect(env, st, c);
    IdsAppend(governing, c);
    FetchesAppend(governing, c);
    if c.id == "" || c.id !in st.memo {
      OneMoreAsked(env, start, Fetches(governing), c);
      AnsweredAppend(env, start, Fetches(governing), c);
    } else {
      assert Fetches(governing) + [] == Fetches(governing);
    }
  }

  /** The contract an item adds to those governing the items before it, if it settles on one. */
  function GovernedOne(lib: Library, m: Matcher, contracts: seq<Contract>, item: Json): seq<Contract>
    requires m.ContractMatcher?
  {
    match PlanItem(lib, m, contracts, item)
    case Ok(plan) => [plan.governing]
    case Err(_) => []
  }

  lemma BuildCalls(lib: Library, env: LookupEnv, start: LookupState, st: MemoState, m: Matcher,
                   contracts: seq<Contract>, governing: seq<Contract>, item: Json, selector: string)
    requires m.ContractMatcher? && AskedFor(env, start, st, governing)
    ensures var (r, next) := BuildOf(lib, env, FromContract(m, contracts), item, selector, st);
            var one := GovernedOne(lib, m, contracts, item);
      && CallsFor(env, start, next, governing + one)
      && (if r.Ok? then |one| == 1 && AskedFor(env, start, next, governing + one)
          else one == [] || !Answered(env, start, Fetches(governing + one)))
  {
    var plan := PlanItem(lib, m, contracts, item);
    if plan.Ok? {
      PiiCalls(env, start, st, governing, plan.value.governing);
    } else {
      assert governing + [] == governing;
    }
  }

  /** Every item settles on a contract, and every question about those was answered. */
  ghost predicate Settled(lib: Library, env: LookupEnv, start: LookupState, m: Matcher, contracts: seq<Contract>,
                          items: seq<Json>)
    requires m.ContractMatcher?
  {
    var governing := GovernedBy(lib, m, contracts, items);
    |governing| == |items| && Answered(env, start, Fetches(governing))
  }

  /** The last of the reached items is the first that is not settled. */
  ghost predicate FailsFirst(lib: Library, env: LookupEnv, start: LookupState, m: Matcher, contracts: seq<Contract>,
                             items: seq<Json>, reached: nat)
    requires m.ContractMatcher?
  {
    && 0 < reached <= |items|
    && Settled(lib, env, start, m, contracts, items[..reached - 1])
    && !Settled(lib, env, start, m, contracts, items[..reached])
  }

  /** The walk's next step, as one build after what came before. */
  lemma WalkStep(lib: Library, env: LookupEnv, b: Builder, arr: seq<Json>, base: string, n: nat, st: MemoState)
    requires BuilderOk(b) && n < |arr|
    ensures var (before, mid) := WalkItems(lib, env, b, arr, base, n, st);
            var (r, next) := WalkItems(lib, env, b, arr, base, n + 1, st);
            var (claim, built) := BuildOf(lib, env, b, arr[n], JoinPointer(base, Itoa(n)), mid);
      before.Ok? ==> next == built && (r.Ok? <==> claim.Ok?)
  {
  }

  lemma GovernedNext(lib: Library, m: Matcher, contracts: seq<Contract>, arr: seq<Json>, n: nat)
    requires m.ContractMatcher? && n < |arr| && |GovernedBy(lib, m, contracts, arr[..n])| == n
    ensures GovernedBy(lib, m, contracts, arr[..n + 1])
         == GovernedBy(lib, m, contracts, arr[..n]) + GovernedOne(lib, m, contracts, arr[n])
  {
    assert arr[..n + 1] == arr[..n] + [arr[n]];
    GovernedAppend(lib, m, contracts, arr[..n], arr[n]);
  }

  lemma NothingAsked(env: LookupEnv, start: LookupState)
    ensures AskedFor(env, start, MemoState(map[], start), [])
  {
    assert Ids([]) == {};
  }

  /** Of the first n items these were looked at: all of them, or up to the first that is not settled. */
  ghost predicate Reaches(lib: Library, env: LookupEnv, start: LookupState, m: Matcher, contracts: seq<Contract>,
                          arr: seq<Json>, base: string, n: nat, reached: nat)
    requires m.ContractMatcher? && n <= |arr|
  {
    var (r, next) := WalkItems(lib, env, FromContract(m, contracts), arr, base, n, MemoState(map[], start));
    && reached <= n
    && CallsFor(env, start, next, GovernedBy(lib, m, contracts, arr[..reached]))
    && (if r.Ok? then reached == n && AllReached(lib, env, start, m, contracts, arr[..n], next)
        else FailsFirst(lib, env, start, m, contracts, arr, reached))
  }

  ghost predicate AllReached(lib: Library, env: LookupEnv, start: LookupState, m: Matcher, contracts: seq<Contract>,
                             items: seq<Json>, next: MemoState)
    requires m.ContractMatcher?
  {
    var governing := GovernedBy(lib, m, contracts, items);
    |governing| == |items| && AskedFor(env, start, next, governing)
  }

  lemma OneMoreItem(lib: Library, env: LookupEnv, start: LookupState, m: Matcher, contracts: seq<Contract>,
                    arr: seq<Json>, base: string, n: nat)
    requires m.ContractMatcher? && n < |arr| && Reaches(lib, env, start, m, contracts, arr, base, n, n)
    requires WalkItems(lib, env, FromContract(m, contracts), arr, base, n, MemoState(map[], start)).0.Ok?
    ensures Reaches(lib, env, start, m, contracts, arr, base, n + 1, n + 1)
  {
    var b := FromContract(m, contracts);
    var mid := WalkItems(lib, env, b, arr, base, n, MemoState(map[], start)).1;
    WalkStep(lib, env, b, arr, base, n, MemoState(map[], start));
    GovernedNext(lib, m, contracts, arr, n);
    BuildCalls(lib, env, start, mid, m, contracts, GovernedBy(lib, m, contracts, arr[..n]), arr[n],
               JoinPointer(base, Itoa(n)));
  }

  lemma ReachesNone(lib: Library, env: LookupEnv, start: LookupState, m: Matcher, contracts: seq<Contract>,
                    arr: seq<Json>, base: string)
    requires m.ContractMatcher?
    ensures Reaches(lib, env, start, m, contracts, arr, base, 0, 0)
  {
    NothingAsked(env, start);
    assert arr[..0] == [];
  }

  lemma ReachesNoMore(lib: Library, env: LookupEnv, start: LookupState, m: Matcher, contracts: seq<Contract>,
                      arr: seq<Json>, base: string, n: nat, reached: nat)
    requires m.ContractMatcher? && n < |arr| && Reaches(lib, env, start, m, contracts, arr, base, n, reached)
    requires WalkItems(lib, env, FromContract(m, contracts), arr, base, n, MemoState(map[], start)).0.Err?
    ensures Reaches(lib, env, start, m, contracts, arr, base, n + 1, reached)
  {
    WalkStopsAtError(lib, env, FromContract(m, contracts), arr, base, n, n + 1, MemoState(map[], start));
  }

  lemma NextReached(lib: Library, env: LookupEnv, start: LookupState, m: Matcher, contracts: seq<Contract>,
                    arr: seq<Json>, base: string, n: nat, reached: nat) returns (next: nat)
    requires m.ContractMatcher? && n < |arr| && Reaches(lib, env, start, m, contracts, arr, base, n, reached)
    ensures Reaches(lib, env, start, m, contracts, arr, base, n + 1, next)
  {
    if WalkItems(lib, env, FromContract(m, contracts), arr, base, n, MemoState(map[], start)).0.Ok? {
      OneMoreItem(lib, env, start, m, contracts, arr, base, n);
      next := n + 1;
    } else {
      ReachesNoMore(lib, env, start, m, contracts, arr, base, n, reached);
      next := reached;
    }
  }

  lemma {:induction false} WalkCalls(lib: Library, env: LookupEnv, start: LookupState, m: Matcher,
                                     contracts: seq<Contract>, arr: seq<Json>, base: string, n: nat)
    returns (reached: nat)
    requires m.ContractMatcher? && n <= |arr|
    ensures Reaches(lib, env, start, m, contracts, arr, base, n, reached)
  {
    if n == 0 {
      ReachesNone(lib, env, start, m, contracts, arr, base);
      reached := 0;
    } else {
      reached := WalkCalls(lib, env, start, m, contracts, arr, base, n - 1);
      reached := NextReached(lib, env, start, m, contracts, arr, base, n - 1, reached);
    }
  }

  // ---- the whole rule ----------------------------------------------------------------------------

  /** The items of a body, whether one or many. */
  function Subjects(m: Matcher, decoded: Json): seq<Json>
    requires m.ContractMatcher?
  {
    match Find(decoded, m.items)
    case None => []
    case Some(root) => if !m.itemsIsArray then [root] else if root.Array? then root.elems else []
  }

  lemma GovernedSingle(lib: Library, m: Matcher, contracts: seq<Contract>, item: Json)
    requires m.ContractMatcher?
    ensures GovernedBy(lib, m, contracts, [item]) == GovernedOne(lib, m, contracts, item)
  {
    assert [item][1..] == [];
  }

  /** A body that is one item. */
  lemma SingleCalls(lib: Library, env: LookupEnv, start: LookupState, m: Matcher, contracts: seq<Contract>, item: Json,
                    selector: string)
    requires m.ContractMatcher?
    ensures var (r, next) := BuildOf(lib, env, FromContract(m, contracts), item, selector, MemoState(map[], start));
      && CallsFor(env, start, next, GovernedBy(lib, m, contracts, [item]))
      && (if r.Ok? then Settled(lib, env, start, m, contracts, [item])
          else FailsFirst(lib, env, start, m, contracts, [item], 1))
  {
    NothingAsked(env, start);
    BuildCalls(lib, env, start, MemoState(map[], start), m, contracts, [], item, selector);
    var one := GovernedOne(lib, m, contracts, item);
    assert [] + one == one;
    GovernedSingle(lib, m, contracts, item);
    assert [item][..0] == [] && [item][..1] == [item];
  }

  lemma PerItemCalls(lib: Library, env: LookupEnv, start: LookupState, m: Matcher, contracts: seq<Contract>,
                     decoded: Json)
    returns (reached: nat)
    requires m.ContractMatcher?
    ensures reached <= |Subjects(m, decoded)|
    ensures var (r, next) := PerItem(lib, env, FromContract(m, contracts), decoded, MemoState(map[], start));
            var items := Subjects(m, decoded);
      && CallsFor(env, start, next, GovernedBy(lib, m, contracts, items[..reached]))
      && (r.Ok? ==> reached == |items| && Settled(lib, env, start, m, contracts, items))
      && (r.Err? && items != [] ==> FailsFirst(lib, env, start, m, contracts, items, reached))
  {
    var root := Find(decoded, m.items);
    if root.Some? && !m.itemsIsArray {
      SingleCalls(lib, env, start, m, contracts, root.value, m.items);
      reached := 1;
      assert Subjects(m, decoded)[..1] == [root.value];
    } else if root.Some? && root.value.Array? {
      var elems := root.value.elems;
      reached := WalkCalls(lib, env, start, m, contracts, elems, m.items, |elems|);
      assert elems[..|elems|] == elems;
    } else {
      NothingAsked(env, start);
      reached := 0;
    }
  }

  lemma SettledBefore(lib: Library, env: LookupEnv, start: LookupState, m: Matcher, contracts: seq<Contract>,
                      items: seq<Json>, item: Json)
    requires m.ContractMatcher? && Settled(lib, env, start, m, contracts, items + [item])
    ensures Settled(lib, env, start, m, contracts, items)
  {
    GovernedShort(lib, m, contracts, items, item);
    GovernedAppend(lib, m, contracts, items, item);
    var governing := GovernedBy(lib, m, contracts, items);
    var c := GovernedOne(lib, m, contracts, item)[0];
    FetchesAppend(governing, c);
    if c.id == "" || c.id !in Ids(governing) {
      AnsweredAppend(env, start, Fetches(governing), c);
    } else {
      assert Fetches(governing) + [] == Fetches(governing);
    }
  }

  lemma {:induction false} GovernedShort(lib: Library, m: Matcher, contracts: seq<Contract>, items: seq<Json>,
                                         item: Json)
    requires m.ContractMatcher? && |GovernedBy(lib, m, contracts, items + [item])| == |items| + 1
    ensures |GovernedBy(lib, m, contracts, items)| == |items|
    ensures |GovernedOne(lib, m, contracts, item)| == 1
  {
    if items == [] {
      assert (items + [item])[1..] == [];
    } else {
      assert (items + [item])[1..] == items[1..] + [item];
      GovernedShort(lib, m, contracts, items[1..], item);
    }
  }

  lemma SettledInit(lib: Library, env: LookupEnv, start: LookupState, m: Matcher, contracts: seq<Contract>,
                    items: seq<Json>)
    requires m.ContractMatcher? && items != [] && Settled(lib, env, start, m, contracts, items)
    ensures Settled(lib, env, start, m, contracts, Init(items))
  {
    assert items == Init(items) + [Last(items)];
    SettledBefore(lib, env, start, m, contracts, Init(items), Last(items));
  }

  /** What is settled has a governing contract, item by item. */
  lemma {:induction false} AllPlanned(lib: Library, m: Matcher, contracts: seq<Contract>, items: seq<Json>, k: nat)
    requires m.ContractMatcher? && |GovernedBy(lib, m, contracts, items)| == |items| && k < |items|
    ensures PlanItem(lib, m, contracts, items[k]).Ok?
  {
    if k > 0 {
      AllPlanned(lib, m, contracts, items[1..], k - 1);
    }
  }

  lemma {:induction false} SettledPrefix(lib: Library, env: LookupEnv, start: LookupState, m: Matcher,
                                         contracts: seq<Contract>, items: seq<Json>, j: nat)
    requires m.ContractMatcher? && j <= |items| && Settled(lib, env, start, m, contracts, items)
    ensures Settled(lib, env, start, m, contracts, items[..j])
  {
    if j == |items| {
      assert items[..j] == items;
    } else {
      SettledInit(lib, env, start, m, contracts, items);
      SettledPrefix(lib, env, start, m, contracts, Init(items), j);
      assert Init(items)[..j] == items[..j];
    }
  }

  lemma NotBefore(lib: Library, env: LookupEnv, start: LookupState, m: Matcher, contracts: seq<Contract>,
                  items: seq<Json>, j: nat, k: nat)
    requires m.ContractMatcher? && FailsFirst(lib, env, start, m, contracts, items, j)
    requires FailsFirst(lib, env, start, m, contracts, items, k)
    ensures k <= j
  {
    if j < k {
      assert items[..k - 1][..j] == items[..j];
      SettledPrefix(lib, env, start, m, contracts, items[..k - 1], j);
    }
  }

  /** Only one item can be the first that fails, and then not all are settled. */
  lemma FailsFirstOnce(lib: Library, env: LookupEnv, start: LookupState, m: Matcher, contracts: seq<Contract>,
                       items: seq<Json>, j: nat)
    requires m.ContractMatcher? && FailsFirst(lib, env, start, m, contracts, items, j)
    ensures forall k: nat :: FailsFirst(lib, env, start, m, contracts, items, k) ==> k == j
    ensures !Settled(lib, env, start, m, contracts, items)
  {
    forall k: nat | FailsFirst(lib, env, start, m, contracts, items, k) ensures k == j {
      NotBefore(lib, env, start, m, contracts, items, j, k);
      NotBefore(lib, env, start, m, contracts, items, k, j);
    }
    if Settled(lib, env, start, m, contracts, items) {
      SettledPrefix(lib, env, start, m, contracts, items, j);
    }
  }

  /** A keyed contract is fetched at most once. */
  lemma {:induction false} FetchesAreDistinct(governing: seq<Contract>)
    ensures forall c :: c in Fetches(governing) ==> c in governing
    ensures forall j, k :: 0 <= j < k < |Fetches(governing)| ==>
      Fetches(governing)[k].id == "" || Fetches(governing)[j].id != Fetches(governing)[k].id
  {
    if governing != [] {
      FetchesAreDistinct(Init(governing));
      assert governing == Init(governing) + [Last(governing)];
    }
  }

  /**
   * The exact cost, whatever the facade answers: the contracts are asked for once; then the lookup is
   * asked for the resources of every distinct governing id once, at its first item, and of every
   * governing contract without an id each time, over the items reached. A success reaches every item and
   * all are settled; a failure ends at the first item that is not, and asks no more. The log shows those
   * questions, in that order, that the cache did not save; without a cache, all.
   */
  lemma FacadeCost(lib: Library, env: LookupEnv, m: Matcher, decoded: Json, provider: string, consumer: string,
                   st: LookupState, contracts: seq<Contract>) returns (reached: nat)
    requires m.ContractMatcher?
    requires UsableContracts(lib, provider, consumer, env.oracle.contracts(|st.calls|, provider, consumer))
          == Ok(contracts)
    ensures reached <= |Subjects(m, decoded)|
    ensures var (r, next) := FacadeClaimsOf(lib, env, m, decoded, provider, consumer, st);
            var asked, items := ContractsOf(env, st, provider, consumer).1, Subjects(m, decoded);
            var fetches := Fetches(GovernedBy(lib, m, contracts, items[..reached]));
      && (r.Ok? ==> reached == |items| && Settled(lib, env, asked, m, contracts, items))
      && (r.Err? && items != [] ==> FailsFirst(lib, env, asked, m, contracts, items, reached))
      && next == Served(env, asked, fetches)
      && next.calls == st.calls + [AskContracts(provider, consumer)] + Asks(Missed(env, asked, fetches))
      && (!env.cached ==> Missed(env, asked, fetches) == fetches)
    ensures var governing := GovernedBy(lib, m, contracts, Subjects(m, decoded)[..reached]);
      |Fetches(governing)| == |Ids(governing)| + Unkeyed(governing)
  {
    var asked := ContractsOf(env, st, provider, consumer).1;
    reached := PerItemCalls(lib, env, asked, m, contracts, decoded);
    var governing := GovernedBy(lib, m, contracts, Subjects(m, decoded)[..reached]);
    FetchesCounted(governing);
    MissedAreCalled(env, asked, Fetches(governing));
    if !env.cached { NoneSavedUncached(env, asked, Fetches(governing)); }
  }

  /**
   * Which of them the cache saves: exactly those whose id was stored before the request began and at
   * most ttl before the question.
   */
  lemma SavedFetches(env: LookupEnv, st: LookupState, history: seq<Stored>, governing: seq<Contract>, k: nat)
    requires Monotone(env.ticks) && Records(env, st, history) && k < |Fetches(governing)|
    ensures var c, now := Fetches(governing)[k], Served(env, st, Fetches(governing)[..k]);
      Saved(env, now, c) <==>
        env.cached && c.id != "" && Remembered(history, env.ttl, c.id, env.ticks(now.readings)).Some?
  {
    var c := Fetches(governing)[k];
    if c.id != "" {
      FetchesAreDistinct(governing);
      SavedExactly(env, st, history, Fetches(governing)[..k], c);
    }
  }
}
