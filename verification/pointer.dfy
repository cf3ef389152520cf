/**
 * internal/resolver/jsonpointer.go: JSON Pointers over decoded JSON values.
 *
 * A decoded value is Go's interface{}: JSON null decodes to nil, which is also what the
 * decoder returns for "no usable payload", so Null stands for both.
 */
module JsonPointer {
  import opened Results
  import opened Text

  datatype Json =
    | Null
    | Bool(b: bool)
    | Number(text: string)
    | String(s: string)
    | Array(elems: Slice<Json>)
    | Object(fields: map<string, Json>)

  // ---- escaping ----------------------------------------------------------------------

  /** The two ReplaceAll passes of getJSONPointer. */
  function Unescape(token: string): string {
    ReplaceAll(ReplaceAll(token, "~1", "/"), "~0", "~")
  }

  /** The two ReplaceAll passes of joinPointer. */
  function Escape(token: string): string {
    ReplaceAll(ReplaceAll(token, "~", "~0"), "/", "~1")
  }

  function JoinPointer(base: string, token: string): string {
    base + "/" + Escape(token)
  }

  /** One left-to-right pass; a tilde not followed by 0 or 1 stands for itself. */
  function DecodeToken(t: string): string {
    if t == "" then ""
    else if |t| > 1 && t[0] == '~' && t[1] == '1' then "/" + DecodeToken(t[2..])
    else if |t| > 1 && t[0] == '~' && t[1] == '0' then "~" + DecodeToken(t[2..])
    else [t[0]] + DecodeToken(t[1..])
  }

  function EncodeChar(c: char): string {
    if c == '~' then "~0" else if c == '/' then "~1" else [c]
  }

  /** One left-to-right pass. */
  function EncodeToken(t: string): string {
    if t == "" then "" else EncodeChar(t[0]) + EncodeToken(t[1..])
  }

  /** Replacing one character at the head of a string, when the pattern does not start there. */
  lemma ReplaceHead(c: char, s: string, pattern: string, with: string)
    requires |pattern| == 2 && (c != pattern[0] || s == "" || s[0] != pattern[1])
    ensures ReplaceAll([c] + s, pattern, with) == [c] + ReplaceAll(s, pattern, with)
  {
    assert ([c] + s)[1..] == s;
    if s != "" {
      assert ([c] + s)[..2] == [c, s[0]];
    }
  }

  lemma ReplacePair(a: char, b: char, s: string, with: string)
    ensures ReplaceAll([a, b] + s, [a, b], with) == with + ReplaceAll(s, [a, b], with)
  {
    assert ([a, b] + s)[..2] == [a, b];
    assert ([a, b] + s)[2..] == s;
  }

  /** The sequential passes agree with a single decoder on every token, malformed ones too. */
  lemma {:induction false} UnescapeIsOnePass(t: string)
    ensures Unescape(t) == DecodeToken(t)
    decreases |t|
  {
    if t != "" {
      var c := t[0];
      if |t| > 1 && c == '~' && t[1] == '1' {
        var r := t[2..];
        assert t == ['~', '1'] + r;
        UnescapeIsOnePass(r);
        ReplacePair('~', '1', r, "/");
        ReplaceHead('/', ReplaceAll(r, "~1", "/"), "~0", "~");
      } else if |t| > 1 && c == '~' && t[1] == '0' {
        var r := t[2..];
        assert t == ['~'] + (['0'] + r);
        UnescapeIsOnePass(r);
        ReplaceHead('~', ['0'] + r, "~1", "/");
        ReplaceHead('0', r, "~1", "/");
        var a := ReplaceAll(r, "~1", "/");
        assert ReplaceAll(t, "~1", "/") == ['~', '0'] + a;
        ReplacePair('~', '0', a, "~");
      } else {
        var r := t[1..];
        assert t == [c] + r;
        UnescapeIsOnePass(r);
        ReplaceHead(c, r, "~1", "/");
        ReplaceHead(c, ReplaceAll(r, "~1", "/"), "~0", "~");
      }
    }
  }

  lemma ReplaceChar(c: char, s: string, pattern: char, with: string)
    ensures ReplaceAll([c] + s, [pattern], with)
         == (if c == pattern then with else [c]) + ReplaceAll(s, [pattern], with)
  {
    assert ([c] + s)[..1] == [c];
    assert ([c] + s)[1..] == s;
  }

  lemma EscapeHead(c: char, r: string)
    ensures Escape([c] + r) == EncodeChar(c) + Escape(r)
  {
    var a := ReplaceAll(r, "~", "~0");
    ReplaceChar(c, r, '~', "~0");
    if c == '~' {
      assert "~0" + a == ['~'] + (['0'] + a);
      ReplaceChar('~', ['0'] + a, '/', "~1");
      ReplaceChar('0', a, '/', "~1");
      assert ['~'] + (['0'] + Escape(r)) == "~0" + Escape(r);
    } else {
      ReplaceChar(c, a, '/', "~1");
    }
  }

  lemma {:induction false} EscapeIsOnePass(t: string)
    ensures Escape(t) == EncodeToken(t)
  {
    if t != "" {
      assert t == [t[0]] + t[1..];
      EscapeHead(t[0], t[1..]);
      EscapeIsOnePass(t[1..]);
    }
  }

  lemma DecodeHead(c: char, r: string)
    ensures DecodeToken(EncodeChar(c) + r) == [c] + DecodeToken(r)
  {
    var t := EncodeChar(c) + r;
    if c == '~' || c == '/' {
      assert t[0] == '~' && t[2..] == r;
    } else {
      assert t[0] == c && t[1..] == r;
    }
  }

  lemma {:induction false} DecodeEncodeToken(t: string)
    ensures DecodeToken(EncodeToken(t)) == t
    ensures '/' !in EncodeToken(t)
  {
    if t != "" {
      DecodeEncodeToken(t[1..]);
      DecodeHead(t[0], EncodeToken(t[1..]));
      assert t == [t[0]] + t[1..];
    }
  }

  /** Escaping is undone by unescaping, and an escaped token cannot be split. */
  lemma UnescapeEscape(t: string)
    ensures Unescape(Escape(t)) == t
    ensures '/' !in Escape(t)
  {
    EscapeIsOnePass(t);
    UnescapeIsOnePass(Escape(t));
    DecodeEncodeToken(t);
  }

  // ---- evaluation --------------------------------------------------------------------

  /** The raw reference tokens of a pointer that is empty or starts with a slash. */
  function RawTokens(pointer: string): seq<string>
    requires Rooted(pointer)
  {
    if pointer == "" then [] else Split(pointer[1..], '/')
  }

  predicate Rooted(pointer: string) { pointer == "" || pointer[0] == '/' }

  /** The reference tokens a pointer spells, unescaped. */
  function RefTokens(pointer: string): (tokens: seq<string>)
    requires Rooted(pointer)
    ensures |tokens| == |RawTokens(pointer)|
  {
    var raw := RawTokens(pointer);
    seq(|raw|, i requires 0 <= i < |raw| => Unescape(raw[i]))
  }

  function Step(cur: Json, key: string): Option<Json> {
    match cur
    case Object(fields) => if key in fields then Some(fields[key]) else None
    case Array(elems) =>
      (match Atoi(key)
       case Some(i) => if 0 <= i < |elems| then Some(elems[i]) else None
       case None => None)
    case _ => None
  }

  function Walk(cur: Json, keys: seq<string>): Option<Json> {
    if keys == [] then Some(cur)
    else match Step(cur, keys[0])
         case Some(next) => Walk(next, keys[1..])
         case None => None
  }

  /** The value a pointer finds: what GetJSONPointer computes. */
  function Find(doc: Json, pointer: string): Option<Json> {
    if Rooted(pointer) then Walk(doc, RefTokens(pointer)) else None
  }

  lemma {:induction false} WalkAppend(cur: Json, p: seq<string>, q: seq<string>)
    ensures Walk(cur, p + q) == (match Walk(cur, p) case Some(v) => Walk(v, q) case None => None)
  {
    if p == [] {
      assert p + q == q;
    } else {
      assert (p + q)[1..] == p[1..] + q;
      match Step(cur, p[0])
      case Some(next) => WalkAppend(next, p[1..], q);
      case None =>
    }
  }

  lemma WalkNext(doc: Json, keys: seq<string>, i: nat, cur: Json)
    requires i < |keys| && Walk(doc, keys[..i]) == Some(cur)
    ensures Walk(doc, keys[..i + 1]) == Step(cur, keys[i])
    ensures Step(cur, keys[i]).None? ==> Walk(doc, keys).None?
  {
    WalkAppend(doc, keys[..i], keys[i..]);
    assert keys == keys[..i] + keys[i..];
    WalkAppend(doc, keys[..i], [keys[i]]);
    assert keys[..i + 1] == keys[..i] + [keys[i]];
  }

  method GetJSONPointer(doc: Json, pointer: string) returns (value: Json, ok: bool)
    ensures ok <==> Find(doc, pointer).Some?
    ensures value == if ok then Find(doc, pointer).value else Null
  {
    if pointer == "" {
      return doc, true;
    }
    if pointer[0] != '/' {
      return Null, false;
    }
    var cur := doc;
    var tokens := Split(pointer[1..], '/');
    ghost var keys := RefTokens(pointer);
    for i := 0 to |tokens|
      invariant Walk(doc, keys[..i]) == Some(cur)
    {
      var tok := ReplaceAll(tokens[i], "~1", "/");
      tok := ReplaceAll(tok, "~0", "~");
      assert keys[i] == tok;
      WalkNext(doc, keys, i, cur);
      match cur
      case Object(node) =>
        if tok !in node {
          return Null, false;
        }
        cur := node[tok];
      case Array(node) =>
        var idx := Atoi(tok);
        if idx.None? || idx.value < 0 || idx.value >= |node| {
          return Null, false;
        }
        cur := node[idx.value];
      case _ =>
        return Null, false;
    }
    assert keys[..|tokens|] == keys;
    return cur, true;
  }

  /** pointerString: a string found at the pointer, else None. */
  function PointerString(item: Json, pointer: string): Option<string> {
    match Find(item, pointer)
    case Some(String(s)) => Some(s)
    case _ => None
  }

  // ---- laws --------------------------------------------------------------------------

  lemma TokensAppend(p: string, q: string)
    requires Rooted(p) && Rooted(q)
    ensures Rooted(p + q)
    ensures RefTokens(p + q) == RefTokens(p) + RefTokens(q)
  {
    if p == "" {
      assert p + q == q;
    } else if q == "" {
      assert p + q == p;
    } else {
      assert (p + q)[1..] == p[1..] + ['/'] + q[1..];
      SplitConcat(p[1..], q[1..], '/');
    }
  }

  /** Concatenated pointers compose. */
  lemma FindAppend(doc: Json, p: string, q: string)
    requires Rooted(p) && Rooted(q)
    ensures Find(doc, p + q) == (match Find(doc, p) case Some(v) => Find(v, q) case None => None)
  {
    TokensAppend(p, q);
    WalkAppend(doc, RefTokens(p), RefTokens(q));
  }

  lemma OneToken(raw: string)
    requires '/' !in raw
    ensures RefTokens("/" + raw) == [Unescape(raw)]
  {
    SplitWithoutSeparator(raw, '/');
    assert ("/" + raw)[1..] == raw;
    assert RawTokens("/" + raw) == [raw];
  }

  lemma AppendToken(base: string, raw: string)
    requires Rooted(base) && '/' !in raw
    ensures Rooted(base + "/" + raw)
    ensures RefTokens(base + "/" + raw) == RefTokens(base) + [Unescape(raw)]
  {
    OneToken(raw);
    TokensAppend(base, "/" + raw);
    assert base + "/" + raw == base + ("/" + raw);
  }

  /** A joined pointer spells the base's tokens followed by the new one, whatever it contains. */
  lemma JoinPointerTokens(base: string, token: string)
    requires Rooted(base)
    ensures Rooted(JoinPointer(base, token))
    ensures RefTokens(JoinPointer(base, token)) == RefTokens(base) + [token]
  {
    UnescapeEscape(token);
    AppendToken(base, Escape(token));
  }

  /** Distinct tokens under one base give distinct pointers. */
  lemma JoinPointerInjective(base: string, s: string, t: string)
    requires JoinPointer(base, s) == JoinPointer(base, t)
    ensures s == t
  {
    UnescapeEscape(s);
    UnescapeEscape(t);
    assert JoinPointer(base, s)[|base| + 1..] == Escape(s);
    assert JoinPointer(base, t)[|base| + 1..] == Escape(t);
  }

  /** The pointer emitted for element i of a collection finds exactly that element. */
  lemma FindElement(doc: Json, base: string, elems: Slice<Json>, i: nat)
    requires Find(doc, base) == Some(Array(elems)) && i < |elems|
    ensures Find(doc, JoinPointer(base, Itoa(i))) == Some(elems[i])
  {
    JoinPointerTokens(base, Itoa(i));
    WalkAppend(doc, RefTokens(base), [Itoa(i)]);
    AtoiItoa(i);
  }

  /** The pointer of a member finds that member, whatever its name contains, and nothing else. */
  lemma FindMember(doc: Json, base: string, fields: map<string, Json>, name: string)
    requires Find(doc, base) == Some(Object(fields))
    ensures Find(doc, JoinPointer(base, name)) == if name in fields then Some(fields[name]) else None
  {
    JoinPointerTokens(base, name);
    WalkAppend(doc, RefTokens(base), [name]);
  }

  /** The empty pointer finds the document; one that starts otherwise than with a slash finds nothing. */
  lemma FindAtRoot(doc: Json, pointer: string)
    ensures Find(doc, "") == Some(doc)
    ensures pointer != "" && pointer[0] != '/' ==> Find(doc, pointer) == None
  {
  }

  /** Nothing is inside a scalar, and nothing at an index beyond the array or below zero. */
  lemma FindNothing(doc: Json, base: string, token: string)
    requires Find(doc, base).Some?
    ensures var v := Find(doc, base).value;
      (v.Null? || v.Bool? || v.Number? || v.String?
       || (v.Array? && !(Atoi(token).Some? && 0 <= Atoi(token).value < |v.elems|)))
      ==> Find(doc, JoinPointer(base, token)) == None
  {
    JoinPointerTokens(base, token);
    WalkAppend(doc, RefTokens(base), [token]);
  }
}
