/**
 * What Resolve guarantees about its answers, over every configuration, request and facade:
 * where claims come from, what they cannot depend on, and when it fails.
 */
module Guarantees {
  import opened Results
  import opened Text
  import opened JsonPointer
  import opened Payload
  import opened Lookup
  import opened Matchers
  import opened Resolver

  // ---- items and the claims built from them -----------------------------------------------

  /** A data item and the pointer it sits at. */
  datatype Located = Located(item: Json, selector: string)

  function ElementsAt(elems: seq<Json>, base: string): (located: seq<Located>)
    ensures |located| == |elems|
  {
    seq(|elems|, i requires 0 <= i < |elems| => Located(elems[i], JoinPointer(base, Itoa(i))))
  }

  /** The value at a pointer as one item, or its elements as many. */
  function LocatedItems(items: string, itemsIsArray: bool, decoded: Json): Option<seq<Located>> {
    match Find(decoded, items)
    case None => None
    case Some(root) =>
      if !itemsIsArray then Some([Located(root, items)])
      else if root.Array? then Some(ElementsAt(root.elems, items))
      else None
  }

  /** The items of a body, as a matcher is configured to see them. */
  function ItemsOf(m: Matcher, decoded: Json): Option<seq<Located>>
    requires NeedsBody(m)
  {
    LocatedItems(m.items, m.itemsIsArray, decoded)
  }

  /** The claim names the owner found in that very item. */
  ghost predicate Fits(m: Matcher, claim: Claim, at: Located)
    requires NeedsBody(m)
  {
    && claim.selector == Pointer(at.selector)
    && claim.ownerID != "" && PointerString(at.item, m.ownerPtr) == Some(claim.ownerID)
    && claim.participant == m.participant
  }

  lemma BuildFits(lib: Library, env: LookupEnv, b: Builder, item: Json, selector: string, st: MemoState)
    requires BuilderOk(b) && BuildOf(lib, env, b, item, selector, st).0.Ok?
    ensures Fits(b.m, BuildOf(lib, env, b, item, selector, st).0.value, Located(item, selector))
  {
  }

  /** The claims are those of the first items of an array, each fitting its own. */
  ghost predicate FitElements(m: Matcher, claims: seq<Claim>, arr: seq<Json>, base: string)
    requires NeedsBody(m)
  {
    && |claims| <= |arr|
    && forall k :: 0 <= k < |claims| ==> Fits(m, claims[k], ElementsAt(arr, base)[k])
  }

  lemma OneMoreFits(m: Matcher, claims: seq<Claim>, last: Claim, arr: seq<Json>, base: string)
    requires NeedsBody(m) && FitElements(m, claims, arr, base) && |claims| < |arr|
    requires Fits(m, last, ElementsAt(arr, base)[|claims|])
    ensures FitElements(m, claims + [last], arr, base)
  {
  }

  /** If the first n items succeed, there is one claim for each. */
  ghost predicate WalkFit(lib: Library, env: LookupEnv, b: Builder, arr: seq<Json>, base: string, n: nat,
                          st: MemoState)
    requires BuilderOk(b) && n <= |arr|
  {
    var r := WalkItems(lib, env, b, arr, base, n, st).0;
    r.Ok? ==> |r.value| == n && FitElements(b.m, r.value, arr, base)
  }

  lemma OneMoreWalkFit(lib: Library, env: LookupEnv, b: Builder, arr: seq<Json>, base: string, n: nat, st: MemoState)
    requires BuilderOk(b) && n < |arr| && WalkFit(lib, env, b, arr, base, n, st)
    requires WalkItems(lib, env, b, arr, base, n + 1, st).0.Ok?
    ensures WalkFit(lib, env, b, arr, base, n + 1, st)
  {
    var (before, mid) := WalkItems(lib, env, b, arr, base, n, st);
    var selector := JoinPointer(base, Itoa(n));
    BuildFits(lib, env, b, arr[n], selector, mid);
    OneMoreFits(b.m, before.value, BuildOf(lib, env, b, arr[n], selector, mid).0.value, arr, base);
  }

  lemma {:induction false} WalkFits(lib: Library, env: LookupEnv, b: Builder, arr: seq<Json>, base: string, n: nat,
                                    st: MemoState)
    requires BuilderOk(b) && n <= |arr|
    ensures WalkFit(lib, env, b, arr, base, n, st)
  {
    if n > 0 {
      WalkFits(lib, env, b, arr, base, n - 1, st);
      if WalkItems(lib, env, b, arr, base, n, st).0.Ok? {
        OneMoreWalkFit(lib, env, b, arr, base, n - 1, st);
      }
    }
  }

  ghost predicate FitsAll(m: Matcher, claims: seq<Claim>, located: Option<seq<Located>>)
    requires NeedsBody(m)
  {
    && located.Some? && |claims| == |located.value|
    && forall k :: 0 <= k < |claims| ==> Fits(m, claims[k], located.value[k])
  }

  /** One claim per item, in order, each from its own item. */
  lemma PerItemFits(lib: Library, env: LookupEnv, b: Builder, decoded: Json, st: MemoState)
    requires BuilderOk(b) && PerItem(lib, env, b, decoded, st).0.Ok?
    ensures FitsAll(b.m, PerItem(lib, env, b, decoded, st).0.value, ItemsOf(b.m, decoded))
  {
    var root := Find(decoded, b.m.items).value;
    if b.m.itemsIsArray {
      WalkFits(lib, env, b, root.elems, b.m.items, |root.elems|, st);
    } else {
      BuildFits(lib, env, b, root, b.m.items, st);
    }
  }

  lemma ClaimsFit(lib: Library, env: LookupEnv, m: Matcher, req: Request, st: LookupState)
    requires WellFormed(m) && NeedsBody(m) && ClaimsOf(lib, env, m, req, st).0.Ok?
    ensures DecodeBody(lib, req.body).Ok?
    ensures FitsAll(m, ClaimsOf(lib, env, m, req, st).0.value, ItemsOf(m, DecodeBody(lib, req.body).value))
  {
    var decoded := DecodeBody(lib, req.body).value;
    if m.JSONMatcher? {
      PerItemFits(lib, env, FromJSON(m), decoded, MemoState(map[], st));
    } else {
      var (provider, consumer) := PartiesOf(m, req.parties);
      var (answer, asked) := ContractsOf(env, st, provider, consumer);
      PerItemFits(lib, env, FromContract(m, answer.value), decoded, MemoState(map[], asked));
    }
  }

  // ---- provenance -----------------------------------------------------------------------

  lemma ItemsAreWhereTheySay(m: Matcher, decoded: Json)
    requires NeedsBody(m) && ItemsOf(m, decoded).Some?
    ensures var at := ItemsOf(m, decoded).value;
      && (forall k :: 0 <= k < |at| ==> Find(decoded, at[k].selector) == Some(at[k].item))
      && (forall j, k :: 0 <= j < k < |at| ==> at[j].selector != at[k].selector)
  {
    var at := ItemsOf(m, decoded).value;
    if m.itemsIsArray {
      var elems := Find(decoded, m.items).value.elems;
      forall k | 0 <= k < |at| ensures Find(decoded, at[k].selector) == Some(at[k].item) {
        FindElement(decoded, m.items, elems, k);
      }
      forall j, k | 0 <= j < k < |at| ensures at[j].selector != at[k].selector {
        if at[j].selector == at[k].selector {
          JoinPointerInjective(m.items, Itoa(j), Itoa(k));
          ItoaInjective(j, k);
        }
      }
    }
  }

  /** The claim's owner is the string in the body at selector + owner pointer. */
  ghost predicate OwnerIsInBody(m: Matcher, claim: Claim, decoded: Json)
    requires NeedsBody(m)
  {
    && claim.selector.Pointer?
    && Find(decoded, claim.selector.value + m.ownerPtr) == Some(String(claim.ownerID))
  }

  /** Each claim can be read back from the body, its selector leads to its item, and all selectors differ. */
  ghost predicate Traceable(m: Matcher, claims: seq<Claim>, decoded: Json)
    requires NeedsBody(m)
  {
    var at := ItemsOf(m, decoded);
    && at.Some? && |claims| == |at.value|
    && (forall k :: 0 <= k < |claims| ==>
          OwnerIsInBody(m, claims[k], decoded) && Find(decoded, claims[k].selector.value) == Some(at.value[k].item))
    && (forall j, k :: 0 <= j < k < |claims| ==> claims[j].selector != claims[k].selector)
  }

  lemma FittingIsTraceable(m: Matcher, claims: seq<Claim>, decoded: Json)
    requires NeedsBody(m) && FitsAll(m, claims, ItemsOf(m, decoded))
    ensures Traceable(m, claims, decoded)
  {
    var at := ItemsOf(m, decoded).value;
    ItemsAreWhereTheySay(m, decoded);
    forall k | 0 <= k < |claims|
      ensures OwnerIsInBody(m, claims[k], decoded) && Find(decoded, claims[k].selector.value) == Some(at[k].item)
    {
      assert Fits(m, claims[k], at[k]);
      FindAppend(decoded, at[k].selector, m.ownerPtr);
    }
    forall j, k | 0 <= j < k < |claims| ensures claims[j].selector != claims[k].selector {
      assert Fits(m, claims[j], at[j]) && Fits(m, claims[k], at[k]);
    }
  }

  /**
   * End-to-end provenance: every claim of a json or contract rule can be read back from the body,
   * its selector leads to exactly the item it was built from, and no two claims share a selector.
   */
  lemma Provenance(lib: Library, env: LookupEnv, cr: ConfigResolver, req: Request, st: LookupState)
    requires Valid(cr) && BodyIsRead(cr, req)
    ensures var r, m := ResolveOf(lib, env, cr, req, st).0, FirstMatch(cr.rules, req.resource).value.matcher;
      r.Ok? ==> DecodeBody(lib, req.body).Ok? && Traceable(m, r.value.claims, DecodeBody(lib, req.body).value)
  {
    var r, m := ResolveOf(lib, env, cr, req, st).0, FirstMatch(cr.rules, req.resource).value.matcher;
    if r.Ok? {
      ClaimsFit(lib, env, m, req, st);
      FittingIsTraceable(m, r.value.claims, DecodeBody(lib, req.body).value);
    }
  }

  // ---- what an answer cannot depend on ------------------------------------------------------

  lemma {:induction false} JSONWalkIgnoresFacade(lib: Library, env: LookupEnv, env': LookupEnv, m: Matcher,
                                                 arr: seq<Json>, base: string, n: nat, st: MemoState, st': MemoState)
    requires m.JSONMatcher? && n <= |arr|
    ensures var r := WalkItems(lib, env, FromJSON(m), arr, base, n, st);
            var r' := WalkItems(lib, env', FromJSON(m), arr, base, n, st');
            r.0 == r'.0 && r.1 == st && r'.1 == st'
  {
    if n > 0 {
      JSONWalkIgnoresFacade(lib, env, env', m, arr, base, n - 1, st, st');
    }
  }

  /** A rule that is not a contract rule never calls the facade, and does not see the parties. */
  lemma OnlyContractsSeeParties(lib: Library, env: LookupEnv, env': LookupEnv, m: Matcher, req: Request, req': Request,
                                st: LookupState, st': LookupState)
    requires WellFormed(m) && !m.ContractMatcher? && req.resource == req'.resource && req.body == req'.body
    ensures ClaimsOf(lib, env, m, req, st).0 == ClaimsOf(lib, env', m, req', st').0
    ensures ClaimsOf(lib, env, m, req, st).1 == st
  {
    if m.JSONMatcher? && DecodeBody(lib, req.body).Ok? {
      var root := Find(DecodeBody(lib, req.body).value, m.items);
      if root.Some? && root.value.Array? {
        JSONWalkIgnoresFacade(lib, env, env', m, root.value.elems, m.items, |root.value.elems|,
                              MemoState(map[], st), MemoState(map[], st'));
      }
    }
  }

  /** Unless a contract rule decides, the facade is not called. */
  lemma OnlyContractsCall(lib: Library, env: LookupEnv, cr: ConfigResolver, req: Request, st: LookupState)
    requires Valid(cr)
    ensures var rule, next := FirstMatch(cr.rules, req.resource), ResolveOf(lib, env, cr, req, st).1;
      if rule.Some? && rule.value.matcher.ContractMatcher?
      then next == ContractClaimsOf(lib, env, rule.value.matcher, req, st).1
      else next == st
  {
    var rule := FirstMatch(cr.rules, req.resource);
    if rule.Some? && !rule.value.matcher.ContractMatcher? {
      OnlyContractsSeeParties(lib, env, env, rule.value.matcher, req, req, st, st);
    }
  }

  /** Everything of a claim but the resource it names. */
  predicate SameSubject(c: Claim, c': Claim) {
    c.selector == c'.selector && c.ownerID == c'.ownerID && c.participant == c'.participant
  }

  predicate SameSubjects(r: ResolveResult, r': ResolveResult) {
    && r.consentRequired == r'.consentRequired && r.scheme == r'.scheme && |r.claims| == |r'.claims|
    && forall k :: 0 <= k < |r.claims| ==> SameSubject(r.claims[k], r'.claims[k])
  }

  /**
   * The requestor never determines the owner: of two runs on the same data, with any parties and any
   * facades, both of which succeed, the answers name the same subjects. Unless a contract rule
   * decides, the runs do not differ at all.
   */
  lemma OwnersIgnoreParties(lib: Library, env: LookupEnv, env': LookupEnv, cr: ConfigResolver,
                            req: Request, req': Request, st: LookupState, st': LookupState)
    requires Valid(cr) && req.resource == req'.resource && req.body == req'.body
    ensures var rule := FirstMatch(cr.rules, req.resource);
            var r, r' := ResolveOf(lib, env, cr, req, st).0, ResolveOf(lib, env', cr, req', st').0;
      && (rule.None? || !rule.value.matcher.ContractMatcher? ==> r == r')
      && (r.Ok? && r'.Ok? ==> SameSubjects(r.value, r'.value))
  {
    var rule := FirstMatch(cr.rules, req.resource);
    if rule.Some? {
      var m := rule.value.matcher;
      if !m.ContractMatcher? {
        OnlyContractsSeeParties(lib, env, env', m, req, req', st, st');
      } else {
        var a, a' := ClaimsOf(lib, env, m, req, st).0, ClaimsOf(lib, env', m, req', st').0;
        if a.Ok? && a'.Ok? {
          ClaimsFit(lib, env, m, req, st);
          ClaimsFit(lib, env', m, req', st');
          var at := ItemsOf(m, DecodeBody(lib, req.body).value).value;
          forall k | 0 <= k < |at| ensures SameSubject(a.value[k], a'.value[k]) {
            assert Fits(m, a.value[k], at[k]) && Fits(m, a'.value[k], at[k]);
          }
        }
      }
    }
  }

  /** A path or static rule, or no rule at all, answers the same whatever the body, and asks nobody. */
  lemma BodylessRulesIgnoreBody(lib: Library, env: LookupEnv, cr: ConfigResolver, req: Request, body: Option<Body>,
                                st: LookupState)
    requires Valid(cr) && !BodyIsRead(cr, req)
    ensures ResolveOf(lib, env, cr, req.(body := body), st) == ResolveOf(lib, env, cr, req, st)
    ensures ResolveOf(lib, env, cr, req, st).1 == st
  {
  }

  // ---- fail closed ------------------------------------------------------------------------

  /** There is genuinely no subject: the items value is an empty array. */
  predicate EmptyCollection(m: Matcher, decoded: Json) {
    NeedsBody(m) && m.itemsIsArray && Find(decoded, m.items) == Some(Array([]))
  }

  lemma ClaimsEmptyExactly(lib: Library, env: LookupEnv, m: Matcher, req: Request, st: LookupState)
    requires WellFormed(m) && ClaimsOf(lib, env, m, req, st).0.Ok?
    ensures var claims := ClaimsOf(lib, env, m, req, st).0.value;
      && (forall k :: 0 <= k < |claims| ==> claims[k].ownerID != "")
      && (claims == [] <==> DecodeBody(lib, req.body).Ok? && EmptyCollection(m, DecodeBody(lib, req.body).value))
  {
    if NeedsBody(m) {
      ClaimsFit(lib, env, m, req, st);
      var claims, decoded := ClaimsOf(lib, env, m, req, st).0.value, DecodeBody(lib, req.body).value;
      var at := ItemsOf(m, decoded).value;
      forall k | 0 <= k < |claims| ensures claims[k].ownerID != "" { assert Fits(m, claims[k], at[k]); }
      if m.itemsIsArray {
        assert |Find(decoded, m.items).value.elems| == |claims|;
      }
    }
  }

  /**
   * Resolve fails, or every claim names an owner. No claims are returned exactly when no rule matches
   * or the deciding rule's items are an empty array, and the consent flag stays that rule's own.
   */
  lemma FailClosed(lib: Library, env: LookupEnv, cr: ConfigResolver, req: Request, st: LookupState)
    requires Valid(cr) && ResolveOf(lib, env, cr, req, st).0.Ok?
    ensures var r, rule := ResolveOf(lib, env, cr, req, st).0.value, FirstMatch(cr.rules, req.resource);
      && (forall k :: 0 <= k < |r.claims| ==> r.claims[k].ownerID != "")
      && r.consentRequired == (if rule.Some? then rule.value.consentRequired else cr.defaultConsentRequired)
      && (r.claims == [] <==>
            || rule.None?
            || (DecodeBody(lib, req.body).Ok? && EmptyCollection(rule.value.matcher, DecodeBody(lib, req.body).value)))
      && (rule.Some? && rule.value.matcher.ContractMatcher? ==> r.consentRequired)
  {
    var rule := FirstMatch(cr.rules, req.resource);
    if rule.Some? {
      ClaimsEmptyExactly(lib, env, rule.value.matcher, req, st);
    }
  }

  /**
   * Claims are empty when no consent is required, for exactly these answers: no rule decided, the
   * deciding rule requires consent, or its items are an empty array.
   */
  lemma UngatedClaimsExactly(lib: Library, env: LookupEnv, cr: ConfigResolver, req: Request, st: LookupState)
    requires Valid(cr) && ResolveOf(lib, env, cr, req, st).0.Ok?
    ensures var r, rule := ResolveOf(lib, env, cr, req, st).0.value, FirstMatch(cr.rules, req.resource);
      (!r.consentRequired ==> r.claims == []) <==>
        || rule.None? || rule.value.consentRequired
        || (DecodeBody(lib, req.body).Ok? && EmptyCollection(rule.value.matcher, DecodeBody(lib, req.body).value))
  {
    FailClosed(lib, env, cr, req, st);
  }

  /** A configuration file with one static rule that requires no consent. */
  function OpenConfig(owner: string): RawConfig {
    RawConfig(false, "", None,
              [RawRule("open", RawMatch("", ""), false,
                       RawMatcher("static", "", "", false, owner, "", "", "", "", ""))])
  }

  lemma OpenConfigLoads(lib: Library, owner: string)
    requires owner != ""
    ensures Acceptable(lib, OpenConfig(owner))
    ensures CompileRule(lib, OpenConfig(owner), 0)
         == Ok(CompiledRule("open", "", None, false, "identifier", StaticMatcher(owner, "", "")))
  {
  }

  /** The service loads that file, and then answers every request with the owner, although ungated. */
  lemma UngatedClaim(lib: Library, env: LookupEnv, req: Request, st: LookupState, owner: string, cr: ConfigResolver)
    requires owner != ""
    ensures Acceptable(lib, OpenConfig(owner))
    ensures CompiledFrom(lib, OpenConfig(owner), cr) ==>
      && Valid(cr)
      && ResolveOf(lib, env, cr, req, st).0 == Ok(ResolveResult(false, "identifier", [Claim(Whole, owner, "", "")]))
  {
    OpenConfigLoads(lib, owner);
    if CompiledFrom(lib, OpenConfig(owner), cr) {
      CompiledIsValid(lib, OpenConfig(owner), cr);
      assert cr.rules[0].Matches(req.resource);
      FirstMatchIsTopmost(cr.rules, req.resource, 0);
    }
  }

  // ---- errors -----------------------------------------------------------------------------

  /** The error's text starts with a component's name. */
  predicate Blames(e: Error, component: string) { component + ": " <= e.message }

  lemma {:induction false} WalkErrors(lib: Library, env: LookupEnv, b: Builder, arr: seq<Json>, base: string, n: nat,
                                      st: MemoState)
    requires BuilderOk(b) && n <= |arr|
    ensures var r := WalkItems(lib, env, b, arr, base, n, st).0;
      r.Err? ==> Blames(r.error, NameOf(b.m)) && !r.error.badRequest
  {
    if n > 0 {
      WalkErrors(lib, env, b, arr, base, n - 1, st);
      var (before, mid) := WalkItems(lib, env, b, arr, base, n - 1, st);
      if before.Ok? {
        BuildErrors(lib, env, b, arr[n - 1], JoinPointer(base, Itoa(n - 1)), mid);
      }
    }
  }

  lemma BuildErrors(lib: Library, env: LookupEnv, b: Builder, item: Json, selector: string, st: MemoState)
    requires BuilderOk(b)
    ensures var r := BuildOf(lib, env, b, item, selector, st).0;
      r.Err? ==> Blames(r.error, NameOf(b.m)) && !r.error.badRequest
  {
  }

  /** The components whose failures are the caller's, and those whose are not. */
  const PAYLOAD_ERRORS: set<string> :=
    {"decode json body", "base64 body must be a JSON string", "decode base64 body", "decode body"}

  const MATCHER_ERRORS: set<string> := {"path matcher", "json matcher", "contract matcher"}

  /** The error names one of seven components, and is marked a bad request exactly for the first four. */
  ghost predicate KnownError(e: Error) {
    exists component :: Blames(e, component) && component in (if e.badRequest then PAYLOAD_ERRORS else MATCHER_ERRORS)
  }

  lemma DecodeErrors(lib: Library, body: Option<Body>)
    ensures var r := DecodeBody(lib, body);
      r.Err? ==> r.error.badRequest && KnownError(r.error)
  {
    var r := DecodeBody(lib, body);
    if r.Err? {
      assert || Blames(r.error, "decode json body") || Blames(r.error, "base64 body must be a JSON string")
             || Blames(r.error, "decode base64 body") || Blames(r.error, "decode body");
    }
  }

  lemma PerItemErrors(lib: Library, env: LookupEnv, b: Builder, decoded: Json, st: MemoState)
    requires BuilderOk(b)
    ensures var r := PerItem(lib, env, b, decoded, st).0;
      r.Err? ==> Blames(r.error, NameOf(b.m)) && !r.error.badRequest
  {
    var root := Find(decoded, b.m.items);
    if root.Some? {
      if !b.m.itemsIsArray {
        BuildErrors(lib, env, b, root.value, b.m.items, st);
      } else if root.value.Array? {
        WalkErrors(lib, env, b, root.value.elems, b.m.items, |root.value.elems|, st);
      }
    }
  }

  lemma FacadeErrors(lib: Library, env: LookupEnv, m: Matcher, decoded: Json, provider: string, consumer: string,
                     st: LookupState)
    requires m.ContractMatcher?
    ensures var r := FacadeClaimsOf(lib, env, m, decoded, provider, consumer, st).0;
      r.Err? ==> Blames(r.error, "contract matcher") && !r.error.badRequest
  {
    var (answer, asked) := ContractsOf(env, st, provider, consumer);
    if UsableContracts(lib, provider, consumer, answer).Ok? {
      PerItemErrors(lib, env, FromContract(m, answer.value), decoded, MemoState(map[], asked));
    }
  }

  lemma FailureBlames(component: string, detail: string)
    ensures Blames(Failure(component, detail), component)
  {
  }

  lemma BeforeFacadeErrors(lib: Library, m: Matcher, req: Request)
    requires m.ContractMatcher? && DecodeBody(lib, req.body).Ok?
    ensures var r := BeforeFacade(lib, m, req);
      r.Err? ==> Blames(r.error, "contract matcher") && !r.error.badRequest
  {
    FailureBlames("contract matcher", NO_BODY);
    FailureBlames("contract matcher", NO_CONSUMER);
    FailureBlames("contract matcher", NO_PROVIDER);
  }

  lemma ContractErrors(lib: Library, env: LookupEnv, m: Matcher, req: Request, st: LookupState)
    requires m.ContractMatcher? && DecodeBody(lib, req.body).Ok?
    ensures var r := ContractClaimsOf(lib, env, m, req, st).0;
      r.Err? ==> Blames(r.error, "contract matcher") && !r.error.badRequest
  {
    BeforeFacadeErrors(lib, m, req);
    var before := BeforeFacade(lib, m, req);
    if before.Ok? {
      var (provider, consumer) := PartiesOf(m, req.parties);
      FacadeErrors(lib, env, m, before.value, provider, consumer, st);
    }
  }

  lemma ClaimsErrors(lib: Library, env: LookupEnv, m: Matcher, req: Request, st: LookupState)
    requires WellFormed(m) && ClaimsOf(lib, env, m, req, st).0.Err?
    ensures var e := ClaimsOf(lib, env, m, req, st).0.error;
      && KnownError(e)
      && (e.badRequest <==> NeedsBody(m) && DecodeBody(lib, req.body).Err?)
  {
    var e := ClaimsOf(lib, env, m, req, st).0.error;
    DecodeErrors(lib, req.body);
    if m.PathMatcher? {
      assert Blames(e, "path matcher");
    } else if DecodeBody(lib, req.body).Ok? {
      if m.JSONMatcher? {
        PerItemErrors(lib, env, FromJSON(m), DecodeBody(lib, req.body).value, MemoState(map[], st));
      } else {
        ContractErrors(lib, env, m, req, st);
      }
      assert Blames(e, NameOf(m));
    }
  }

  /**
   * Whatever the payload, path, URIs or facade errors, an error of Resolve names one of seven
   * components; and it is a bad request exactly when the deciding rule reads a body that cannot be
   * decoded.
   */
  lemma ResolveErrors(lib: Library, env: LookupEnv, cr: ConfigResolver, req: Request, st: LookupState)
    requires Valid(cr)
    ensures var r := ResolveOf(lib, env, cr, req, st).0;
      r.Err? ==>
        && KnownError(r.error)
        && (r.error.badRequest <==> BodyIsRead(cr, req) && DecodeBody(lib, req.body).Err?)
  {
    if ResolveOf(lib, env, cr, req, st).0.Err? {
      ClaimsErrors(lib, env, FirstMatch(cr.rules, req.resource).value.matcher, req, st);
    }
  }
}
