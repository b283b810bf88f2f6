/** What the endpoints exchange with the outside: Graph drive items as the
    handlers read them, the JSON bodies they answer with, the status mapping
    of failures, and the API-key guard in front of every endpoint. */
module Http {
  import opened Common

  /** `it.get("parentReference", {})`: absent, `null`, or an object whose
      `path` key is read with `.get("path", "")`. */
  datatype ParentRef = NoParent | NullParent | Parent(path: Field)

  /** One element of a Graph `value` array: an object, or JSON `null`. */
  datatype Item =
    | NullItem
    | Item(name: Field, parent: ParentRef, size: Option<int>, webUrl: Option<string>, id: Option<string>)

  /** The `value` key of a Graph listing: missing, JSON `null`, or an array. */
  datatype Page = NoValue | NullValue | Value(items: seq<Item>)

  // The texts of the TypeError / AttributeError raised on a `null` where a
  // list or an object is needed.
  const NoneNotIterable := "'NoneType' object is not iterable"
  const NoneHasNoGet := "'NoneType' object has no attribute 'get'"

  /** `data.get("value", [])` as a `for` loop iterates it: a missing key is
      no items, and a `null` value raises instead of being replaced by the
      default. */
  function Listing(page: Page): (r: Outcome<seq<Item>>)
    ensures r.Threw? <==> page.NullValue?
    ensures r.Threw? ==> r.message == NoneNotIterable
    ensures page.NoValue? ==> r == Done([])
    ensures page.Value? ==> r == Done(page.items)
  {
    match page
    case NoValue => Done([])
    case NullValue => Threw(NoneNotIterable)
    case Value(items) => Done(items)
  }

  /** `it.get("name")` of an object: a missing key and `null` both become JSON `null`. */
  function NameOf(item: Item): Option<string>
    requires item.Item?
  {
    match item.name
    case Str(s) => Some(s)
    case _ => None
  }

  /** One entry of the `results` array of `/search`. */
  datatype Hit = Hit(
    name: Option<string>,
    path: string,
    size: Option<int>,
    webUrl: Option<string>,
    id: Option<string>)

  /** The JSON bodies the endpoints answer with. */
  datatype Body =
    | Results(hits: seq<Hit>)                      // {"results": [...]}
    | Document(path: string, text: string)         // {"path": ..., "text": ...}
    | Names(names: seq<Option<string>>)            // [name, ...]
    | Error(message: string)                       // {"error": ...}
    | UpstreamJson(key: string, json: string)      // {key: <error response JSON>}
    | UpstreamText(key: string, message: string)   // {key: str(e)}

  /** An HTTP answer together with the Graph URLs requested while producing it. */
  datatype Reply = Reply(status: int, body: Body, calls: seq<string>)

  /** The `except` clauses of every endpoint: a `requests.HTTPError` becomes
      502 with the error response's JSON under `key` (or the exception's text
      when that JSON does not parse); any other exception becomes 500 with its
      text under `error`. */
  function FailureReply(key: string, failure: Failure, calls: seq<string>): (r: Reply)
    ensures r.calls == calls
    ensures r.status == 502 <==> failure.HttpFailure?
    ensures r.status == 500 <==> failure.Exception?
    ensures failure.HttpFailure? && failure.json.Some? ==> r.body == UpstreamJson(key, failure.json.value)
    ensures failure.HttpFailure? && failure.json.None? ==> r.body == UpstreamText(key, failure.message)
    ensures failure.Exception? ==> r.body == Error(failure.message)
  {
    match failure
    case HttpFailure(Some(json), _) => Reply(502, UpstreamJson(key, json), calls)
    case HttpFailure(None, message) => Reply(502, UpstreamText(key, message), calls)
    case Exception(message) => Reply(500, Error(message), calls)
  }

  // ---- the API-key guard ----

  const Forbidden := Reply(403, Error("Forbidden"), [])

  /** `require_api_key`: with no key configured every request passes; with a
      key, a request passes exactly when its `x-api-key` header equals the key,
      and is otherwise answered 403 `{"error": "Forbidden"}` without running
      the endpoint, so without any Graph call. */
  function Guarded(apiKey: string, header: Option<string>, endpoint: Reply): (r: Reply)
    ensures apiKey == "" ==> r == endpoint
    ensures apiKey != "" && header == Some(apiKey) ==> r == endpoint
    ensures apiKey != "" && header != Some(apiKey) ==> r == Forbidden
    ensures apiKey != "" && header != Some(apiKey) ==> r.status == 403 && r.body == Error("Forbidden") && r.calls == []
  {
    if apiKey != "" && header != Some(apiKey) then Forbidden else endpoint
  }
}
