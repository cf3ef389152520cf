/**
 * The contract data model (internal/contract/client.go) and the search for the contract that
 * governs a URI (internal/resolver/contract_matcher.go).
 */
module Contracts {
  import opened Results

  datatype Rule = Rule(target: string, assetTarget: string, action: string)

  datatype Policy = Policy(uid: string, permission: seq<Rule>, prohibition: seq<Rule>)

  datatype Contract = Contract(id: string, status: string, dataProvider: string, dataConsumer: string,
                               serviceOffering: string, policy: seq<Policy>)

  datatype DataResource = DataResource(id: string, name: string, containsPII: bool)

  predicate Targets(rules: seq<Rule>, uri: string) {
    exists i :: 0 <= i < |rules| && rules[i].assetTarget == uri
  }

  predicate Permits(c: Contract, uri: string) {
    exists p :: 0 <= p < |c.policy| && Targets(c.policy[p].permission, uri)
  }

  predicate Prohibits(c: Contract, uri: string) {
    exists p :: 0 <= p < |c.policy| && Targets(c.policy[p].prohibition, uri)
  }

  /** Position of the first contract that permits the URI and prohibits it nowhere. */
  function GoverningIndex(contracts: seq<Contract>, uri: string): (r: Option<nat>)
    ensures r.Some? ==> r.value < |contracts|
  {
    if contracts == [] then None
    else if !Prohibits(contracts[0], uri) && Permits(contracts[0], uri) then Some(0)
    else match GoverningIndex(contracts[1..], uri)
         case Some(i) => Some(i + 1)
         case None => None
  }

  function Governing(contracts: seq<Contract>, uri: string): Option<Contract> {
    match GoverningIndex(contracts, uri)
    case Some(i) => Some(contracts[i])
    case None => None
  }

  /** The rule search of findContractForTarget, contract by contract. */
  method FindContractForTarget(contracts: seq<Contract>, uri: string) returns (governing: Option<Contract>)
    ensures governing == Governing(contracts, uri)
  {
    for i := 0 to |contracts|
      invariant forall j :: 0 <= j < i ==> !Governs(contracts[j], uri)
    {
      var c := contracts[i];
      GovernsMeans(c, uri);
      if Prohibits(c, uri) {
        continue;
      }
      if Permits(c, uri) {
        FirstGovernsIsGoverning(contracts, uri, i);
        return Some(c);
      }
    }
    NoneGovernsMeansNone(contracts, uri);
    return None;
  }

  // ---- what governing means ----------------------------------------------------------

  /** Every permission rule of the contract, whichever policy carries it. */
  function Permissions(policies: seq<Policy>): seq<Rule> {
    if policies == [] then [] else policies[0].permission + Permissions(policies[1..])
  }

  function Prohibitions(policies: seq<Policy>): seq<Rule> {
    if policies == [] then [] else policies[0].prohibition + Prohibitions(policies[1..])
  }

  function UrisOf(rules: seq<Rule>): set<string> {
    set r | r in rules :: r.assetTarget
  }

  function PermittedUris(c: Contract): set<string> { UrisOf(Permissions(c.policy)) }

  function ProhibitedUris(c: Contract): set<string> { UrisOf(Prohibitions(c.policy)) }

  /** Deny overrides, over the contract as a whole. */
  predicate Governs(c: Contract, uri: string) {
    uri in PermittedUris(c) - ProhibitedUris(c)
  }

  lemma {:induction false} PolicyUris(policies: seq<Policy>, uri: string)
    ensures uri in UrisOf(Permissions(policies))
       <==> exists p :: 0 <= p < |policies| && Targets(policies[p].permission, uri)
    ensures uri in UrisOf(Prohibitions(policies))
       <==> exists p :: 0 <= p < |policies| && Targets(policies[p].prohibition, uri)
  {
    if policies != [] {
      var head, tail := policies[0], policies[1..];
      PolicyUris(tail, uri);
      assert forall p :: 0 <= p < |tail| ==> policies[p + 1] == tail[p];
      assert uri in UrisOf(head.permission) <==> Targets(head.permission, uri);
      assert uri in UrisOf(head.prohibition) <==> Targets(head.prohibition, uri);
      assert UrisOf(Permissions(policies)) == UrisOf(head.permission) + UrisOf(Permissions(tail));
      assert UrisOf(Prohibitions(policies)) == UrisOf(head.prohibition) + UrisOf(Prohibitions(tail));
      assert forall p :: 0 < p < |policies| ==> policies[p] == tail[p - 1];
    }
  }

  /** The nested scans decide membership in the contract-wide unions. */
  lemma GovernsMeans(c: Contract, uri: string)
    ensures Permits(c, uri) <==> uri in PermittedUris(c)
    ensures Prohibits(c, uri) <==> uri in ProhibitedUris(c)
  {
    PolicyUris(c.policy, uri);
  }

  /** Some rule of some policy permits the URI, and no rule of any policy prohibits it. */
  lemma GovernsByRules(c: Contract, uri: string)
    ensures Governs(c, uri) <==>
      && (exists p, r :: && 0 <= p < |c.policy| && 0 <= r < |c.policy[p].permission|
                         && c.policy[p].permission[r].assetTarget == uri)
      && (forall p, r :: 0 <= p < |c.policy| && 0 <= r < |c.policy[p].prohibition| ==>
            c.policy[p].prohibition[r].assetTarget != uri)
  {
    GovernsMeans(c, uri);
    if Permits(c, uri) {
      var p :| 0 <= p < |c.policy| && Targets(c.policy[p].permission, uri);
      var r :| 0 <= r < |c.policy[p].permission| && c.policy[p].permission[r].assetTarget == uri;
    }
    if p, r :| && 0 <= p < |c.policy| && 0 <= r < |c.policy[p].permission|
               && c.policy[p].permission[r].assetTarget == uri {
      assert Targets(c.policy[p].permission, uri);
    }
    if p, r :| && 0 <= p < |c.policy| && 0 <= r < |c.policy[p].prohibition|
               && c.policy[p].prohibition[r].assetTarget == uri {
      assert Targets(c.policy[p].prohibition, uri);
    }
  }

  lemma {:induction false} FirstGovernsIsGoverning(contracts: seq<Contract>, uri: string, i: nat)
    requires i < |contracts| && Governs(contracts[i], uri)
    requires forall j :: 0 <= j < i ==> !Governs(contracts[j], uri)
    ensures GoverningIndex(contracts, uri) == Some(i)
  {
    GovernsMeans(contracts[0], uri);
    if i > 0 {
      assert !Governs(contracts[0], uri);
      FirstGovernsIsGoverning(contracts[1..], uri, i - 1);
    }
  }

  lemma {:induction false} NoneGovernsMeansNone(contracts: seq<Contract>, uri: string)
    requires forall j :: 0 <= j < |contracts| ==> !Governs(contracts[j], uri)
    ensures GoverningIndex(contracts, uri) == None
  {
    if contracts != [] {
      GovernsMeans(contracts[0], uri);
      assert !Governs(contracts[0], uri);
      NoneGovernsMeansNone(contracts[1..], uri);
    }
  }

  ghost predicate IsFirstGoverning(contracts: seq<Contract>, uri: string, i: nat) {
    && i < |contracts| && Governs(contracts[i], uri)
    && forall j :: 0 <= j < i ==> !Governs(contracts[j], uri)
  }

  /** The search finds exactly the first contract that governs, and fails exactly when none does. */
  lemma GoverningExactly(contracts: seq<Contract>, uri: string, i: nat)
    ensures GoverningIndex(contracts, uri) == Some(i) <==> IsFirstGoverning(contracts, uri, i)
    ensures GoverningIndex(contracts, uri) == None
       <==> forall j :: 0 <= j < |contracts| ==> !Governs(contracts[j], uri)
  {
    if j :| 0 <= j < |contracts| && Governs(contracts[j], uri) {
      var first := LeastGoverning(contracts, uri, j);
      FirstGovernsIsGoverning(contracts, uri, first);
    } else {
      NoneGovernsMeansNone(contracts, uri);
    }
  }

  lemma {:induction false} LeastGoverning(contracts: seq<Contract>, uri: string, j: nat) returns (i: nat)
    requires j < |contracts| && Governs(contracts[j], uri)
    ensures IsFirstGoverning(contracts, uri, i) && i <= j
  {
    if k :| 0 <= k < j && Governs(contracts[k], uri) {
      i := LeastGoverning(contracts, uri, k);
    } else {
      i := j;
    }
  }

  // ---- invariance --------------------------------------------------------------------

  /** The same rules, however they are grouped into policies and in whatever order. */
  predicate Regrouped(c: Contract, d: Contract) {
    && multiset(Permissions(c.policy)) == multiset(Permissions(d.policy))
    && multiset(Prohibitions(c.policy)) == multiset(Prohibitions(d.policy))
  }

  lemma RegroupedUris(rules: seq<Rule>, others: seq<Rule>)
    requires multiset(rules) == multiset(others)
    ensures UrisOf(rules) == UrisOf(others)
  {
    forall r ensures r in rules <==> r in others {
      assert r in multiset(rules) <==> r in multiset(others);
    }
  }

  /** Splitting, merging or reordering policies inside any contract leaves the answer unchanged. */
  lemma RegroupingKeepsGoverning(contracts: seq<Contract>, others: seq<Contract>, uri: string)
    requires |contracts| == |others|
    requires forall i :: 0 <= i < |contracts| ==> Regrouped(contracts[i], others[i])
    ensures GoverningIndex(contracts, uri) == GoverningIndex(others, uri)
  {
    forall i | 0 <= i < |contracts| ensures Governs(contracts[i], uri) <==> Governs(others[i], uri) {
      assert Regrouped(contracts[i], others[i]);
      RegroupedUris(Permissions(contracts[i].policy), Permissions(others[i].policy));
      RegroupedUris(Prohibitions(contracts[i].policy), Prohibitions(others[i].policy));
    }
    var answer := GoverningIndex(contracts, uri);
    GoverningExactly(contracts, uri, if answer.Some? then answer.value else 0);
    GoverningExactly(others, uri, if answer.Some? then answer.value else 0);
  }

  /** Adding prohibitions never governs an ungoverned URI; it can only move the answer later. */
  lemma ProhibitingOnlyRemoves(contracts: seq<Contract>, stricter: seq<Contract>, uri: string)
    requires |contracts| == |stricter|
    requires forall i :: 0 <= i < |contracts| ==>
               && PermittedUris(stricter[i]) == PermittedUris(contracts[i])
               && ProhibitedUris(stricter[i]) >= ProhibitedUris(contracts[i])
    ensures var was, now := GoverningIndex(contracts, uri), GoverningIndex(stricter, uri);
            now.Some? ==> was.Some? && was.value <= now.value
  {
    var was, now := GoverningIndex(contracts, uri), GoverningIndex(stricter, uri);
    if now.Some? {
      GoverningExactly(stricter, uri, now.value);
      assert Governs(contracts[now.value], uri);
      GoverningExactly(contracts, uri, if was.Some? then was.value else 0);
    }
  }

  // ---- the resource a claim names ----------------------------------------------------

  /** The resolved answer for one contract: the PII resource's id, and whether there is one. */
  datatype PiiResource = PiiResource(id: string, found: bool)

  function FirstPII(resources: seq<DataResource>): PiiResource {
    if resources == [] then PiiResource("", false)
    else if resources[0].containsPII then PiiResource(resources[0].id, true)
    else FirstPII(resources[1..])
  }

  /** It is the id of the first resource flagged as personal, and found says whether any is. */
  lemma {:induction false} FirstPIIExactly(resources: seq<DataResource>)
    ensures var r := FirstPII(resources);
      if r.found then
        exists i :: && 0 <= i < |resources| && resources[i].containsPII && r.id == resources[i].id
                    && forall j :: 0 <= j < i ==> !resources[j].containsPII
      else r.id == "" && forall j :: 0 <= j < |resources| ==> !resources[j].containsPII
  {
    if resources != [] && !resources[0].containsPII {
      var tail := resources[1..];
      FirstPIIExactly(tail);
      if FirstPII(tail).found {
        var i :| && 0 <= i < |tail| && tail[i].containsPII && FirstPII(tail).id == tail[i].id
                 && forall j :: 0 <= j < i ==> !tail[j].containsPII;
        assert resources[i + 1] == tail[i];
        assert forall j :: 0 < j < i + 1 ==> resources[j] == tail[j - 1];
      } else {
        assert forall j :: 0 < j < |resources| ==> resources[j] == tail[j - 1];
      }
    }
  }
}
