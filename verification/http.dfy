/**
  The shape of one HTTP exchange as the API clients see it. The network is not
  modelled: the caller supplies what `fetch` produced.
 */
module Http {
  import opened JsValue

  /** What `response.json()` yields: a syntax error, or an object with an optional `detail` and a payload. */
  datatype Body<T> = Malformed(syntaxError: string) | Json(detail: Option<string>, data: T)

  datatype Response<T> = Response(ok: bool, status: int, body: Body<T>)

  /** What `fetch` produced: a rejected promise (no response at all) or a response. */
  datatype Exchange<T> = TransportError(message: string) | Answered(response: Response<T>)

  /** What a client call produced: a returned value or a thrown `Error` with its message. */
  datatype Outcome<T> = Returned(value: T) | Thrown(message: string)

  /** One query-string parameter, before percent-encoding. */
  type Param = (string, string)

  /** A request target: a path below the API base URL and its query parameters in order. */
  datatype Target = Target(path: string, query: seq<Param>)

  /** The values of every parameter named `key`, in order: what a server reading `getlist(key)` sees. */
  function ValuesOf(query: seq<Param>, key: string): seq<string> {
    if query == [] then []
    else (if query[0].0 == key then [query[0].1] else []) + ValuesOf(query[1..], key)
  }

  lemma {:induction false} ValuesOfAppend(a: seq<Param>, b: seq<Param>, key: string)
    ensures ValuesOf(a + b, key) == ValuesOf(a, key) + ValuesOf(b, key)
  {
    if a == [] {
      assert a + b == b;
    } else {
      assert (a + b)[0] == a[0];
      assert (a + b)[1..] == a[1..] + b;
      ValuesOfAppend(a[1..], b, key);
    }
  }

  /** A parameter list without `key` contributes no values for it. */
  lemma {:induction false} NoOtherKeys(ps: seq<Param>, key: string)
    requires forall i :: 0 <= i < |ps| ==> ps[i].0 != key
    ensures ValuesOf(ps, key) == []
  {
    if ps != [] {
      NoOtherKeys(ps[1..], key);
    }
  }

  /**
    The error message for a failed response read with `response.json().catch(() => ({}))`:
    the body's `detail` when it is a non-empty string, else `fallback`. An unreadable body
    reads as `{}` and so never hides the HTTP failure behind a parse error.
   */
  function TolerantFailure<T>(body: Body<T>, fallback: string): (message: string)
    ensures body.Json? && Truthy(body.detail) ==> message == body.detail.value
    ensures body.Malformed? || !Truthy(body.detail) ==> message == fallback
  {
    match body
    case Malformed(_) => fallback
    case Json(detail, _) => OrElse(detail, fallback)
  }

  /**
    The error message for a failed response read with a plain `await response.json()`:
    an unreadable body rejects with its own syntax error before `detail` is consulted.
   */
  function StrictFailure<T>(body: Body<T>, fallback: string): (message: string)
    ensures body.Malformed? ==> message == body.syntaxError
    ensures body.Json? ==> message == TolerantFailure(body, fallback)
  {
    match body
    case Malformed(e) => e
    case Json(detail, _) => OrElse(detail, fallback)
  }

  /** `return response.json()` on a successful response. */
  function ReadJson<T>(body: Body<T>): (r: Outcome<T>)
    ensures body.Json? <==> r.Returned?
    ensures body.Json? ==> r.value == body.data
    ensures body.Malformed? ==> r.message == body.syntaxError
  {
    match body
    case Malformed(e) => Thrown(e)
    case Json(_, data) => Returned(data)
  }

  /**
    A call that reads a failed response with a plain `await response.json()` and throws
    its `detail` or `fallback`; a successful response is parsed and returned.
   */
  function StrictCall<T>(x: Exchange<T>, fallback: string): (r: Outcome<T>)
    ensures x.TransportError? ==> r == Thrown(x.message)
    ensures x.Answered? && x.response.ok ==> r == ReadJson(x.response.body)
    ensures x.Answered? && !x.response.ok ==> r == Thrown(StrictFailure(x.response.body, fallback))
  {
    match x
    case TransportError(m) => Thrown(m)
    case Answered(resp) => if resp.ok then ReadJson(resp.body) else Thrown(StrictFailure(resp.body, fallback))
  }

  /** A call that throws a fixed message on any failed response, without reading its body. */
  function FixedCall<T>(x: Exchange<T>, message: string): (r: Outcome<T>)
    ensures x.TransportError? ==> r == Thrown(x.message)
    ensures x.Answered? && x.response.ok ==> r == ReadJson(x.response.body)
    ensures x.Answered? && !x.response.ok ==> r == Thrown(message)
  {
    match x
    case TransportError(m) => Thrown(m)
    case Answered(resp) => if resp.ok then ReadJson(resp.body) else Thrown(message)
  }
}
