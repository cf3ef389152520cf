/**
 * The resolver's pointer evaluation measured against a strict reading of RFC 6901: sections 3
 * (only ~0 and ~1 are escapes) and 4 (an array index is 0 or digits without a leading zero).
 */
module Rfc6901 {
  import opened Results
  import opened Text
  import opened JsonPointer

  /** Section 3: a tilde must be followed by 0 or 1. */
  function StrictUnescape(t: string): Option<string> {
    if t == "" then Some("")
    else if t[0] == '~' then
      if |t| > 1 && (t[1] == '0' || t[1] == '1') then
        match StrictUnescape(t[2..])
        case Some(r) => Some((if t[1] == '0' then "~" else "/") + r)
        case None => None
      else None
    else
      match StrictUnescape(t[1..])
      case Some(r) => Some([t[0]] + r)
      case None => None
  }

  /** Section 4: array-index = "0" / ( digit1-9 *digit ). */
  function StrictIndex(key: string): Option<nat> {
    if Canonical(key) then Some(Value(key)) else None
  }

  function StrictStep(cur: Json, key: string): Option<Json> {
    match cur
    case Object(fields) => if key in fields then Some(fields[key]) else None
    case Array(elems) =>
      (match StrictIndex(key)
       case Some(i) => if i < |elems| then Some(elems[i]) else None
       case None => None)
    case _ => None
  }

  function StrictWalk(cur: Json, raw: seq<string>): Option<Json> {
    if raw == [] then Some(cur)
    else
      match StrictUnescape(raw[0])
      case None => None
      case Some(key) =>
        match StrictStep(cur, key)
        case Some(next) => StrictWalk(next, raw[1..])
        case None => None
  }

  function StrictFind(doc: Json, pointer: string): Option<Json> {
    if Rooted(pointer) then StrictWalk(doc, RawTokens(pointer)) else None
  }

  function UnescapeAll(raw: seq<string>): (keys: seq<string>)
    ensures |keys| == |raw|
  {
    seq(|raw|, i requires 0 <= i < |raw| => Unescape(raw[i]))
  }

  lemma {:induction false} StrictUnescapeAgrees(t: string)
    ensures StrictUnescape(t).Some? ==> StrictUnescape(t).value == Unescape(t)
    decreases |t|
  {
    UnescapeIsOnePass(t);
    if t != "" {
      var r := if t[0] == '~' && |t| > 1 then t[2..] else t[1..];
      StrictUnescapeAgrees(r);
      UnescapeIsOnePass(r);
    }
  }

  lemma CanonicalAtoi(key: string)
    requires Canonical(key)
    ensures Atoi(key) == if Value(key) <= MAX_INT then Some(Value(key)) else None
  {
    CanonicalIsItoa(key);
    assert IsDigit(key[0]);
  }

  lemma {:induction false} StrictWalkRefined(cur: Json, raw: seq<string>)
    requires StrictWalk(cur, raw).Some?
    ensures Walk(cur, UnescapeAll(raw)) == StrictWalk(cur, raw)
  {
    if raw != [] {
      var key := Unescape(raw[0]);
      StrictUnescapeAgrees(raw[0]);
      if Canonical(key) { CanonicalAtoi(key); }
      StrictWalkRefined(StrictStep(cur, key).value, raw[1..]);
      assert UnescapeAll(raw)[1..] == UnescapeAll(raw[1..]);
    }
  }

  /** Whatever a strict evaluator finds, the resolver finds too, at every document. */
  lemma StrictFindRefined(doc: Json, pointer: string)
    requires StrictFind(doc, pointer).Some?
    ensures Find(doc, pointer) == StrictFind(doc, pointer)
  {
    StrictWalkRefined(doc, RawTokens(pointer));
  }

  // ---- exactly where the two differ --------------------------------------------------

  /** A key Go's Atoi reads as the index of an element a slice can hold, although the grammar does not. */
  predicate LaxIndex(key: string) {
    Atoi(key).Some? && 0 <= Atoi(key).value < MAX_INT && !Canonical(key)
  }

  predicate StrictToken(raw: string) {
    StrictUnescape(raw).Some? && !LaxIndex(Unescape(raw))
  }

  /** No stray tilde, and no signed or zero-padded number anywhere. */
  predicate StrictPointer(pointer: string) {
    Rooted(pointer) ==> forall k :: 0 <= k < |RawTokens(pointer)| ==> StrictToken(RawTokens(pointer)[k])
  }

  lemma {:induction false} StrictTokensAgree(cur: Json, raw: seq<string>)
    requires forall k :: 0 <= k < |raw| ==> StrictToken(raw[k])
    ensures Walk(cur, UnescapeAll(raw)) == StrictWalk(cur, raw)
  {
    if raw != [] {
      var key := Unescape(raw[0]);
      assert StrictToken(raw[0]);
      StrictUnescapeAgrees(raw[0]);
      if Canonical(key) { CanonicalAtoi(key); }
      assert UnescapeAll(raw)[1..] == UnescapeAll(raw[1..]);
      if Step(cur, key).Some? {
        StrictTokensAgree(Step(cur, key).value, raw[1..]);
      }
    }
  }

  /** A document the resolver can walk along the tokens, with an array under each lax index. */
  function Telling(raw: seq<string>): Json {
    if raw == [] then Null
    else
      var key, inner := Unescape(raw[0]), Telling(raw[1..]);
      if LaxIndex(key) then Array(seq(Atoi(key).value + 1, _ => inner))
      else Object(map[key := inner])
  }

  lemma TellingStep(raw: seq<string>)
    requires raw != []
    ensures Step(Telling(raw), Unescape(raw[0])) == Some(Telling(raw[1..]))
    ensures !StrictToken(raw[0]) ==> StrictWalk(Telling(raw), raw) == None
  {
    StrictUnescapeAgrees(raw[0]);
  }

  lemma {:induction false} TellingIsWalked(raw: seq<string>)
    ensures Walk(Telling(raw), UnescapeAll(raw)) == Some(Null)
  {
    if raw != [] {
      TellingStep(raw);
      TellingIsWalked(raw[1..]);
      assert UnescapeAll(raw)[1..] == UnescapeAll(raw[1..]);
    }
  }

  lemma {:induction false} TellingTellsApart(raw: seq<string>, k: nat)
    requires k < |raw| && !StrictToken(raw[k])
    ensures StrictWalk(Telling(raw), raw) == None
  {
    TellingStep(raw);
    if StrictToken(raw[0]) {
      StrictUnescapeAgrees(raw[0]);
      TellingTellsApart(raw[1..], k - 1);
      if StrictStep(Telling(raw), Unescape(raw[0])).Some? {
        StrictStepAgrees(Telling(raw), Unescape(raw[0]));
      }
    }
  }

  lemma StrictStepAgrees(cur: Json, key: string)
    requires StrictStep(cur, key).Some?
    ensures StrictStep(cur, key) == Step(cur, key)
  {
    if Canonical(key) { CanonicalAtoi(key); }
  }

  /** The resolver is the strict evaluator on every document exactly when the pointer is strict. */
  lemma StrictExactly(pointer: string)
    ensures StrictPointer(pointer) <==> forall doc :: Find(doc, pointer) == StrictFind(doc, pointer)
  {
    if Rooted(pointer) {
      var raw := RawTokens(pointer);
      if StrictPointer(pointer) {
        forall doc ensures Find(doc, pointer) == StrictFind(doc, pointer) {
          StrictTokensAgree(doc, raw);
        }
      } else {
        var k :| 0 <= k < |raw| && !StrictToken(raw[k]);
        TellingIsWalked(raw);
        TellingTellsApart(raw, k);
        assert Find(Telling(raw), pointer) != StrictFind(Telling(raw), pointer);
      }
    }
  }
}
