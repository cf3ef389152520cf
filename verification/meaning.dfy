/**
 * When a rule answers, and with exactly which claims: the conditions and the claims are told from the
 * body, the contracts and the catalog alone, without the walk that computes them.
 */
module Meaning {
  import opened Results
  import opened Text
  import opened JsonPointer
  import opened Payload
  import opened Contracts
  import opened Lookup
  import opened Matchers
  import opened Resolver
  import opened Guarantees
  import opened Memo
  import Cost
  import FacadeClient

  /** A usable body: decoded, and not null. */
  function UsableBody(lib: Library, req: Request): Option<Json> {
    match DecodeBody(lib, req.body)
    case Ok(decoded) => if decoded.Null? then None else Some(decoded)
    case Err(_) => None
  }

  // ---- json rules -------------------------------------------------------------------------

  /** The item names an owner and, where one is asked for, a resource. */
  predicate JSONUsable(m: Matcher, item: Json)
    requires m.JSONMatcher?
  {
    Required(item, m.ownerPtr).Some? && (m.resourcePtr != "" ==> Required(item, m.resourcePtr).Some?)
  }

  predicate IsJSONClaim(m: Matcher, at: Located, claim: Claim)
    requires m.JSONMatcher?
  {
    && claim.selector == Pointer(at.selector) && claim.participant == m.participant
    && Required(at.item, m.ownerPtr) == Some(claim.ownerID)
    && (if m.resourcePtr == "" then claim.dataResource == m.resource
        else Required(at.item, m.resourcePtr) == Some(claim.dataResource))
  }

  lemma JSONItemExactly(lib: Library, m: Matcher, at: Located)
    requires m.JSONMatcher?
    ensures var r := JSONClaim(lib, m, at.item, at.selector);
      && (r.Ok? <==> JSONUsable(m, at.item))
      && (r.Ok? ==> IsJSONClaim(m, at, r.value))
  {
  }

  predicate AllJSONUsable(m: Matcher, at: seq<Located>)
    requires m.JSONMatcher?
  {
    forall k :: 0 <= k < |at| ==> JSONUsable(m, at[k].item)
  }

  predicate AreJSONClaims(m: Matcher, at: seq<Located>, claims: seq<Claim>)
    requires m.JSONMatcher?
  {
    |claims| == |at| && forall k :: 0 <= k < |at| ==> IsJSONClaim(m, at[k], claims[k])
  }

  /** All usable and all claimed, or neither. */
  ghost predicate JSONExact(m: Matcher, at: seq<Located>, r: Result<seq<Claim>, Error>)
    requires m.JSONMatcher?
  {
    (r.Ok? <==> AllJSONUsable(m, at)) && (r.Ok? ==> AreJSONClaims(m, at, r.value))
  }

  lemma OneMoreJSON(lib: Library, m: Matcher, at: seq<Located>, x: Located, before: Result<seq<Claim>, Error>,
                    after: Result<seq<Claim>, Error>)
    requires m.JSONMatcher? && JSONExact(m, at, before)
    requires var claim := JSONClaim(lib, m, x.item, x.selector);
      && (after.Ok? <==> before.Ok? && claim.Ok?)
      && (after.Ok? ==> after.value == before.value + [claim.value])
    ensures JSONExact(m, at + [x], after)
  {
    JSONItemExactly(lib, m, x);
    assert forall k :: 0 <= k < |at| ==> (at + [x])[k] == at[k];
    assert (at + [x])[|at|] == x;
    if AllJSONUsable(m, at + [x]) {
      assert forall k :: 0 <= k < |at| ==> JSONUsable(m, (at + [x])[k].item);
    }
  }

  lemma NextElement(arr: seq<Json>, base: string, n: nat)
    requires n < |arr|
    ensures ElementsAt(arr, base)[..n + 1] == ElementsAt(arr, base)[..n] + [Located(arr[n], JoinPointer(base, Itoa(n)))]
  {
  }

  lemma JSONWalkStep(lib: Library, env: LookupEnv, m: Matcher, arr: seq<Json>, base: string, n: nat, st: MemoState)
    requires m.JSONMatcher? && n < |arr|
    ensures var before := WalkItems(lib, env, FromJSON(m), arr, base, n, st).0;
            var after := WalkItems(lib, env, FromJSON(m), arr, base, n + 1, st).0;
            var claim := JSONClaim(lib, m, arr[n], JoinPointer(base, Itoa(n)));
      && (after.Ok? <==> before.Ok? && claim.Ok?)
      && (after.Ok? ==> after.value == before.value + [claim.value])
  {
  }

  ghost predicate JSONWalkExact(lib: Library, env: LookupEnv, m: Matcher, arr: seq<Json>, base: string, n: nat,
                                st: MemoState)
    requires m.JSONMatcher? && n <= |arr|
  {
    JSONExact(m, ElementsAt(arr, base)[..n], WalkItems(lib, env, FromJSON(m), arr, base, n, st).0)
  }

  lemma NextJSON(lib: Library, env: LookupEnv, m: Matcher, arr: seq<Json>, base: string, n: nat, st: MemoState)
    requires m.JSONMatcher? && n < |arr| && JSONWalkExact(lib, env, m, arr, base, n, st)
    ensures JSONWalkExact(lib, env, m, arr, base, n + 1, st)
  {
    JSONWalkStep(lib, env, m, arr, base, n, st);
    NextElement(arr, base, n);
    OneMoreJSON(lib, m, ElementsAt(arr, base)[..n], Located(arr[n], JoinPointer(base, Itoa(n))),
                WalkItems(lib, env, FromJSON(m), arr, base, n, st).0,
                WalkItems(lib, env, FromJSON(m), arr, base, n + 1, st).0);
  }

  lemma NoneJSON(lib: Library, env: LookupEnv, m: Matcher, arr: seq<Json>, base: string, st: MemoState)
    requires m.JSONMatcher?
    ensures JSONWalkExact(lib, env, m, arr, base, 0, st)
  {
  }

  lemma {:induction false} JSONWalkExactly(lib: Library, env: LookupEnv, m: Matcher, arr: seq<Json>, base: string,
                                           n: nat, st: MemoState)
    requires m.JSONMatcher? && n <= |arr|
    ensures JSONWalkExact(lib, env, m, arr, base, n, st)
  {
    if n == 0 {
      NoneJSON(lib, env, m, arr, base, st);
    } else {
      JSONWalkExactly(lib, env, m, arr, base, n - 1, st);
      NextJSON(lib, env, m, arr, base, n - 1, st);
    }
  }

  lemma JSONPerItemExactly(lib: Library, env: LookupEnv, m: Matcher, decoded: Json, st: MemoState)
    requires m.JSONMatcher?
    ensures var r, at := PerItem(lib, env, FromJSON(m), decoded, st).0, ItemsOf(m, decoded);
      if at.Some? then JSONExact(m, at.value, r) else r.Err?
  {
    var root := Find(decoded, m.items);
    if root.Some? && !m.itemsIsArray {
      var at := Located(root.value, m.items);
      var none: Result<seq<Claim>, Error> := Ok([]);
      OneMoreJSON(lib, m, [], at, none, PerItem(lib, env, FromJSON(m), decoded, st).0);
      assert [] + [at] == [at];
    } else if root.Some? && root.value.Array? {
      var elems := root.value.elems;
      JSONWalkExactly(lib, env, m, elems, m.items, |elems|, st);
      assert ElementsAt(elems, m.items)[..|elems|] == ElementsAt(elems, m.items);
    }
  }

  /** A json rule answers exactly when every item is usable, and then with each item's own claim. */
  lemma JSONRuleExactly(lib: Library, env: LookupEnv, m: Matcher, req: Request, st: LookupState)
    requires m.JSONMatcher? && WellFormed(m)
    ensures var r, body := ClaimsOf(lib, env, m, req, st).0, UsableBody(lib, req);
      if body.Some? && ItemsOf(m, body.value).Some? then JSONExact(m, ItemsOf(m, body.value).value, r) else r.Err?
  {
    if UsableBody(lib, req).Some? {
      JSONPerItemExactly(lib, env, m, UsableBody(lib, req).value, MemoState(map[], st));
    }
  }

  // ---- contract rules ---------------------------------------------------------------------

  /** The first contract that governs the item's URI has this position. */
  ghost predicate GovernedAt(m: Matcher, contracts: seq<Contract>, item: Json, i: nat)
    requires m.ContractMatcher?
  {
    Required(item, m.uriPtr).Some? && IsFirstGoverning(contracts, Required(item, m.uriPtr).value, i)
  }

  ghost predicate ContractUsable(catalog: Catalog, m: Matcher, contracts: seq<Contract>, item: Json)
    requires m.ContractMatcher?
  {
    && Required(item, m.ownerPtr).Some?
    && exists i: nat :: GovernedAt(m, contracts, item, i) && catalog(contracts[i]).Ok?
  }

  /** The owner is the item's; the resource is the governing contract's first personal one, or none. */
  ghost predicate IsContractClaim(catalog: Catalog, m: Matcher, contracts: seq<Contract>, at: Located, claim: Claim)
    requires m.ContractMatcher?
  {
    && claim.selector == Pointer(at.selector) && claim.participant == m.participant
    && Required(at.item, m.ownerPtr) == Some(claim.ownerID)
    && exists i: nat :: GovernedAt(m, contracts, at.item, i) && catalog(contracts[i]).Ok?
                   && claim.dataResource == FirstPII(catalog(contracts[i]).value).id
  }

  lemma ContractItemExactly(lib: Library, catalog: Catalog, m: Matcher, contracts: seq<Contract>, at: Located)
    requires m.ContractMatcher?
    ensures var r := NaiveClaim(lib, catalog, m, contracts, at.item, at.selector);
      && (r.Ok? <==> ContractUsable(catalog, m, contracts, at.item))
      && (r.Ok? ==> IsContractClaim(catalog, m, contracts, at, r.value))
  {
    var uri := Required(at.item, m.uriPtr);
    if uri.Some? {
      var index := GoverningIndex(contracts, uri.value);
      if i: nat :| GovernedAt(m, contracts, at.item, i) {
        GoverningExactly(contracts, uri.value, i);
        assert index == Some(i);
      }
      if index.Some? {
        GoverningExactly(contracts, uri.value, index.value);
        assert GovernedAt(m, contracts, at.item, index.value);
        forall i: nat | GovernedAt(m, contracts, at.item, i) ensures i == index.value {
          GoverningExactly(contracts, uri.value, i);
        }
        if catalog(contracts[index.value]).Ok? {
          FirstPIIExactly(catalog(contracts[index.value]).value);
        }
      }
    }
  }

  ghost predicate ContractExact(catalog: Catalog, m: Matcher, contracts: seq<Contract>, at: seq<Located>,
                                r: Result<seq<Claim>, Error>)
    requires m.ContractMatcher?
  {
    && (r.Ok? <==> forall k :: 0 <= k < |at| ==> ContractUsable(catalog, m, contracts, at[k].item))
    && (r.Ok? ==> |r.value| == |at|
                  && forall k :: 0 <= k < |at| ==> IsContractClaim(catalog, m, contracts, at[k], r.value[k]))
  }

  lemma OneMoreContract(lib: Library, catalog: Catalog, m: Matcher, contracts: seq<Contract>, at: seq<Located>,
                        x: Located, before: Result<seq<Claim>, Error>, after: Result<seq<Claim>, Error>)
    requires m.ContractMatcher? && ContractExact(catalog, m, contracts, at, before)
    requires var claim := NaiveClaim(lib, catalog, m, contracts, x.item, x.selector);
      && (after.Ok? <==> before.Ok? && claim.Ok?)
      && (after.Ok? ==> after.value == before.value + [claim.value])
    ensures ContractExact(catalog, m, contracts, at + [x], after)
  {
    ContractItemExactly(lib, catalog, m, contracts, x);
    var all := at + [x];
    assert forall k :: 0 <= k < |at| ==> all[k] == at[k];
    assert all[|at|] == x;
    if forall k :: 0 <= k < |all| ==> ContractUsable(catalog, m, contracts, all[k].item) {
      assert forall k :: 0 <= k < |at| ==> ContractUsable(catalog, m, contracts, all[k].item);
    }
  }

  lemma NaiveWalkStep(lib: Library, catalog: Catalog, m: Matcher, contracts: seq<Contract>, arr: seq<Json>,
                      base: string, n: nat)
    requires m.ContractMatcher? && n < |arr|
    ensures var before := NaiveWalk(lib, catalog, m, contracts, arr, base, n);
            var after := NaiveWalk(lib, catalog, m, contracts, arr, base, n + 1);
            var claim := NaiveClaim(lib, catalog, m, contracts, arr[n], JoinPointer(base, Itoa(n)));
      && (after.Ok? <==> before.Ok? && claim.Ok?)
      && (after.Ok? ==> after.value == before.value + [claim.value])
  {
  }

  lemma {:induction false} NaiveWalkExactly(lib: Library, catalog: Catalog, m: Matcher, contracts: seq<Contract>,
                                            arr: seq<Json>, base: string, n: nat)
    requires m.ContractMatcher? && n <= |arr|
    ensures ContractExact(catalog, m, contracts, ElementsAt(arr, base)[..n],
                          NaiveWalk(lib, catalog, m, contracts, arr, base, n))
  {
    if n > 0 {
      NaiveWalkExactly(lib, catalog, m, contracts, arr, base, n - 1);
      NaiveWalkStep(lib, catalog, m, contracts, arr, base, n - 1);
      NextElement(arr, base, n - 1);
      OneMoreContract(lib, catalog, m, contracts, ElementsAt(arr, base)[..n - 1],
                      Located(arr[n - 1], JoinPointer(base, Itoa(n - 1))),
                      NaiveWalk(lib, catalog, m, contracts, arr, base, n - 1),
                      NaiveWalk(lib, catalog, m, contracts, arr, base, n));
    }
  }

  lemma NaivePerItemExactly(lib: Library, catalog: Catalog, m: Matcher, contracts: seq<Contract>, decoded: Json)
    requires m.ContractMatcher?
    ensures var r, at := NaivePerItem(lib, catalog, m, contracts, decoded), ItemsOf(m, decoded);
      if at.Some? then ContractExact(catalog, m, contracts, at.value, r) else r.Err?
  {
    var root := Find(decoded, m.items);
    if root.Some? && !m.itemsIsArray {
      var at := Located(root.value, m.items);
      var none: Result<seq<Claim>, Error> := Ok([]);
      OneMoreContract(lib, catalog, m, contracts, [], at, none, NaivePerItem(lib, catalog, m, contracts, decoded));
      assert [] + [at] == [at];
    } else if root.Some? && root.value.Array? {
      var elems := root.value.elems;
      NaiveWalkExactly(lib, catalog, m, contracts, elems, m.items, |elems|);
      assert ElementsAt(elems, m.items)[..|elems|] == ElementsAt(elems, m.items);
    }
  }

  /** The contracts a contract rule works with: both parties known, the lookup succeeded, some signed. */
  ghost function ContractsFor(env: LookupEnv, m: Matcher, req: Request, st: LookupState): Option<seq<Contract>>
    requires m.ContractMatcher?
  {
    var (provider, consumer) := PartiesOf(m, req.parties);
    var answer := env.oracle.contracts(|st.calls|, provider, consumer);
    if consumer != "" && provider != "" && answer.Ok? && answer.value != [] then Some(answer.value) else None
  }

  /**
   * While the facade keeps to one catalog, for no longer than the request takes, a contract rule answers
   * exactly when there is a usable body, both parties, a signed contract, and for every item an owner, a
   * governing contract and an answer about its resources; and then with each item's own claim.
   * Everything else fails.
   */
  lemma ContractRuleExactly(lib: Library, env: LookupEnv, catalog: Catalog, m: Matcher, req: Request, st: LookupState)
    requires m.ContractMatcher? && Monotone(env.ticks) && ById(catalog)
    requires Steady(env, st, |ContractClaimsOf(lib, env, m, req, st).1.calls|, catalog)
    ensures var r, body := ContractClaimsOf(lib, env, m, req, st).0, UsableBody(lib, req);
            var contracts := ContractsFor(env, m, req, st);
      if body.Some? && contracts.Some? && ItemsOf(m, body.value).Some? then
        ContractExact(catalog, m, contracts.value, ItemsOf(m, body.value).value, r)
      else r.Err?
  {
    ContractClaimsAreNaive(lib, env, st, catalog, m, req);
    var contracts := ContractsFor(env, m, req, st);
    if UsableBody(lib, req).Some? && contracts.Some? {
      NaivePerItemExactly(lib, catalog, m, contracts.value, UsableBody(lib, req).value);
    }
  }

  // ---- only signed contracts govern -----------------------------------------------------------

  /** The first contract that governs the item, of those kept from an answer, is one of it and signed. */
  ghost predicate SignedGoverns(m: Matcher, answer: seq<Contract>, item: Json)
    requires m.ContractMatcher?
  {
    var kept := FacadeClient.Signed(answer);
    exists i: nat :: GovernedAt(m, kept, item, i) && FacadeClient.SpellsSigned(kept[i].status) && kept[i] in answer
  }

  lemma PlannedIsSigned(lib: Library, m: Matcher, answer: seq<Contract>, item: Json)
    requires m.ContractMatcher? && PlanItem(lib, m, FacadeClient.Signed(answer), item).Ok?
    ensures SignedGoverns(m, answer, item)
  {
    var kept, uri := FacadeClient.Signed(answer), Required(item, m.uriPtr).value;
    var i := GoverningIndex(kept, uri).value;
    GoverningExactly(kept, uri, i);
    FacadeClient.SignedExactly(answer, kept[i]);
    assert GovernedAt(m, kept, item, i);
  }

  lemma SubjectsAreItems(m: Matcher, decoded: Json)
    requires m.ContractMatcher? && ItemsOf(m, decoded).Some?
    ensures var at, items := ItemsOf(m, decoded).value, Cost.Subjects(m, decoded);
      |at| == |items| && forall k :: 0 <= k < |at| ==> at[k].item == items[k]
  {
  }

  /**
   * When the facade client hands over the signed ones of the contracts it was told, a contract rule that
   * answers does so item by item from a signed contract, whatever else the facade says.
   */
  lemma SignedContractsGovern(lib: Library, env: LookupEnv, m: Matcher, req: Request, st: LookupState,
                              answer: seq<Contract>)
    requires m.ContractMatcher? && WellFormed(m) && ContractClaimsOf(lib, env, m, req, st).0.Ok?
    requires env.oracle.contracts(|st.calls|, PartiesOf(m, req.parties).0, PartiesOf(m, req.parties).1)
          == Ok(FacadeClient.Signed(answer))
    ensures var claims, body := ContractClaimsOf(lib, env, m, req, st).0.value, UsableBody(lib, req);
      && body.Some? && ItemsOf(m, body.value).Some? && |claims| == |ItemsOf(m, body.value).value|
      && forall k :: 0 <= k < |claims| ==> SignedGoverns(m, answer, ItemsOf(m, body.value).value[k].item)
  {
    var decoded := DecodeBody(lib, req.body).value;
    var (provider, consumer) := PartiesOf(m, req.parties);
    var kept, items := FacadeClient.Signed(answer), Cost.Subjects(m, decoded);
    ClaimsFit(lib, env, m, req, st);
    SubjectsAreItems(m, decoded);
    var _ := Cost.FacadeCost(lib, env, m, decoded, provider, consumer, st, kept);
    forall k | 0 <= k < |items| ensures SignedGoverns(m, answer, items[k]) {
      Cost.AllPlanned(lib, m, kept, items, k);
      PlannedIsSigned(lib, m, answer, items[k]);
    }
  }

  // ---- path rules ---------------------------------------------------------------------------

  /**
   * A path rule compiled from a configuration answers exactly when the pattern matches the path and
   * its last group named "owner" is not empty, with one claim for that owner; a non-empty group named
   * "resource" overrides the fixed resource.
   */
  lemma PathRuleExactly(lib: Library, raw: RawMatcher, service: Option<RawContractService>, path: string)
    requires raw.kind == "path" && CompileMatcher(lib, raw, service).Ok?
    ensures var m := CompileMatcher(lib, raw, service).value;
            var r, sub := PathClaims(lib, m, path), m.re.find(path);
      && m.re.names[m.ownerGroup] == "owner"
      && (forall g :: m.ownerGroup < g < |m.re.names| ==> m.re.names[g] != "owner")
      && (m.resGroup < 0 <==> "resource" !in m.re.names)
      && (m.resGroup >= 0 ==> m.re.names[m.resGroup] == "resource")
      && (r.Ok? <==> sub.Some? && sub.value[m.ownerGroup] != "")
      && (r.Ok? ==> |r.value| == 1 && r.value[0].selector == Whole && r.value[0].ownerID == sub.value[m.ownerGroup]
                    && r.value[0].participant == raw.participant
                    && r.value[0].dataResource == (if m.resGroup >= 0 && sub.value[m.resGroup] != ""
                                                   then sub.value[m.resGroup] else raw.resource))
  {
    var re := lib.compile(raw.pattern).value;
    assert "resource" in re.names ==> exists g :: 0 <= g < |re.names| && re.names[g] == "resource";
  }
}
