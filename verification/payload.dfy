/** Requests, errors and the lazily decoded body (internal/resolver/types.go, jsonpointer.go). */
module Payload {
  import opened Results
  import opened Text
  import opened JsonPointer

  datatype Resource = Resource(service: string, httpMethod: string, path: string, contentType: string)

  datatype Parties = Parties(consumer: string, provider: string)

  datatype Body = Body(encoding: string, content: seq<Byte>)

  datatype Request = Request(resource: Resource, parties: Option<Parties>, body: Option<Body>)

  /** A compiled regexp: the names of its groups, and the groups of the first match in a text. */
  datatype RawRegexp = RawRegexp(names: seq<string>, find: string -> Option<seq<string>>)

  type Regexp = re: RawRegexp | forall s: string :: re.find(s).Some? ==> |re.find(s).value| == |re.names|
    witness RawRegexp([""], (_: string) => None)

  /** Go's encoding/json, encoding/base64, fmt's %q and regexp, as arbitrary total functions. */
  datatype Library = Library(
    unmarshal: seq<Byte> -> Result<Json, string>,
    unmarshalString: seq<Byte> -> Result<string, string>,
    decodeBase64: string -> Result<seq<Byte>, string>,
    quote: string -> string,
    compile: string -> Result<Regexp, string>)

  /** An error's text, and whether its chain holds a BadRequestError. */
  datatype Error = Error(message: string, badRequest: bool)

  function Failure(component: string, detail: string): Error {
    Error(component + ": " + detail, false)
  }

  function BadRequest(component: string, detail: string): Error {
    Error(component + ": " + detail, true)
  }

  /** decodeJSONBody; Null means there is no usable JSON payload. */
  function DecodeBody(lib: Library, body: Option<Body>): Result<Json, Error> {
    if body.None? then Ok(Null)
    else
      var b := body.value;
      if b.encoding == "" || b.encoding == "none" then Ok(Null)
      else if b.encoding == "json" then
        if b.content == [] then Ok(Null)
        else match lib.unmarshal(b.content)
             case Ok(v) => Ok(v)
             case Err(e) => Err(BadRequest("decode json body", e))
      else if b.encoding == "base64" then
        match lib.unmarshalString(b.content)
        case Err(e) => Err(BadRequest("base64 body must be a JSON string", e))
        case Ok(s) =>
          match lib.decodeBase64(s)
          case Err(e) => Err(BadRequest("decode base64 body", e))
          case Ok(raw) =>
            // Opaque bytes are a valid payload, not an error.
            match lib.unmarshal(raw)
            case Ok(v) => Ok(v)
            case Err(_) => Ok(Null)
      else Err(BadRequest("decode body", "unknown encoding " + lib.quote(b.encoding)))
  }

  // ---- what decoding yields ----------------------------------------------------------------

  /** No body, an encoding that sends none, or an empty json body: no payload, and no error. */
  lemma NothingSent(lib: Library, content: seq<Byte>)
    ensures DecodeBody(lib, None) == Ok(Null)
    ensures DecodeBody(lib, Some(Body("", content))) == Ok(Null)
    ensures DecodeBody(lib, Some(Body("none", content))) == Ok(Null)
    ensures DecodeBody(lib, Some(Body("json", []))) == Ok(Null)
  {
  }

  /** A json body is what it parses to, or the caller's fault. */
  lemma JSONBodyYields(lib: Library, content: seq<Byte>)
    requires content != []
    ensures var r, parsed := DecodeBody(lib, Some(Body("json", content))), lib.unmarshal(content);
      if parsed.Ok? then r == Ok(parsed.value) else r.Err? && r.error.badRequest
  {
  }

  /** The bytes a base64 body stands for, if its content is a JSON string that decodes. */
  function OpaqueBytes(lib: Library, content: seq<Byte>): Option<seq<Byte>> {
    match lib.unmarshalString(content)
    case Err(_) => None
    case Ok(text) =>
      match lib.decodeBase64(text)
      case Err(_) => None
      case Ok(bytes) => Some(bytes)
  }

  /**
   * A base64 body of JSON is the json body of its bytes; other bytes are a payload without structure,
   * not an error.
   */
  lemma Base64BodyYields(lib: Library, content: seq<Byte>, bytes: seq<Byte>)
    requires OpaqueBytes(lib, content) == Some(bytes)
    ensures var r, parsed := DecodeBody(lib, Some(Body("base64", content))), lib.unmarshal(bytes);
      && (parsed.Ok? ==> r == Ok(parsed.value))
      && (parsed.Ok? && bytes != [] ==> r == DecodeBody(lib, Some(Body("json", bytes))))
      && (parsed.Err? ==> r == Ok(Null))
  {
  }

  /** Decoding fails in exactly four ways, and always as a bad request. */
  lemma DecodeFailsExactly(lib: Library, b: Body)
    ensures var r := DecodeBody(lib, Some(b));
      && (r.Err? <==>
            || (b.encoding == "json" && b.content != [] && lib.unmarshal(b.content).Err?)
            || (b.encoding == "base64" && lib.unmarshalString(b.content).Err?)
            || (b.encoding == "base64" && lib.unmarshalString(b.content).Ok?
                && lib.decodeBase64(lib.unmarshalString(b.content).value).Err?)
            || b.encoding !in {"", "none", "json", "base64"})
      && (r.Err? ==> r.error.badRequest)
  {
  }

  /** The body, decoded on first use. `decodes` counts the decodings actually done. */
  class LazyPayload {
    const lib: Library
    const body: Option<Body>
    var decoded: Json
    var err: Option<Error>
    var done: bool
    ghost var decodes: nat

    ghost predicate Valid()
      reads this
    {
      && decodes == (if done then 1 else 0)
      && (done ==> DecodeBody(lib, body) == if err.Some? then Err(err.value) else Ok(decoded))
    }

    constructor (lib: Library, body: Option<Body>)
      ensures Valid() && this.lib == lib && this.body == body && decodes == 0
    {
      this.lib, this.body := lib, body;
      decoded, err, done := Null, None, false;
      decodes := 0;
    }

    /** However often it is asked for, the body is decoded once. */
    method JSON() returns (r: Result<Json, Error>)
      requires Valid()
      modifies this
      ensures Valid() && decodes == 1
      ensures r == DecodeBody(lib, body)
    {
      if !done {
        var result := DecodeBody(lib, body);
        decodes := decodes + 1;
        match result {
          case Ok(v) => decoded, err := v, None;
          case Err(e) => decoded, err := Null, Some(e);
        }
        done := true;
      }
      if err.Some? {
        return Err(err.value);
      }
      return Ok(decoded);
    }
  }
}
