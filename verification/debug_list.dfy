/** `GET /debug/list?path=`: the names of the children of the drive root or
    of a folder. */
module DebugListEndpoint {
  import opened Common
  import opened PyText
  import opened Graph
  import opened Http

  /** The names of a listing, `[i.get("name") for i in value]`, in Graph's
      order; a `null` element raises on `.get`. */
  function ListedNames(items: seq<Item>): (r: Outcome<seq<Option<string>>>)
    ensures r.Done? <==> forall i :: 0 <= i < |items| ==> items[i].Item?
    ensures r.Done? ==> |r.value| == |items| && forall i :: 0 <= i < |items| ==> r.value[i] == NameOf(items[i])
    ensures r.Threw? ==> r.message == NoneHasNoGet
    decreases |items|
  {
    if |items| == 0 then Done([])
    else if items[0].NullItem? then Threw(NoneHasNoGet)
    else
      match ListedNames(items[1..])
      case Threw(m) =>
        assert forall i :: 0 < i < |items| ==> items[i] == items[1..][i - 1];
        Threw(m)
      case Done(names) => Done([NameOf(items[0])] + names)
  }

  /** `debug_list()`: always exactly one Graph call, to the root listing when
      the stripped argument is empty or only slashes and to the folder that
      `path_url` addresses otherwise; answered 200 with one name per child, by
      the 502/500 mapping under the key `http_error` when the call fails, and by
      500 when the listing or one of its elements is `null`. */
  function Handle(user: string, pathArg: Option<string>, graph: string -> Result<Page>): (r: Reply)
    ensures var p := Strip(OrEmpty(pathArg));
            && (All(p, IsSlash) ==> r.calls == [UserDrive(user) + "/root/children"])
            && (!All(p, IsSlash) ==> r.calls == [PathUrl(user, Some(p)) + ":/children"])
    ensures r.calls == [DebugListUrl(user, pathArg)]
    ensures r.status == 200 <==> && graph(DebugListUrl(user, pathArg)).Ok?
                                 && Listing(graph(DebugListUrl(user, pathArg)).value).Done?
                                 && ListedNames(Listing(graph(DebugListUrl(user, pathArg)).value).value).Done?
    ensures r.status == 200 ==>
              && graph(DebugListUrl(user, pathArg)).Ok?
              && Listing(graph(DebugListUrl(user, pathArg)).value).Done?
              && r.body == Names(ListedNames(Listing(graph(DebugListUrl(user, pathArg)).value).value).value)
    ensures graph(DebugListUrl(user, pathArg)).Err? ==>
              r == FailureReply("http_error", graph(DebugListUrl(user, pathArg)).failure, [DebugListUrl(user, pathArg)])
    ensures graph(DebugListUrl(user, pathArg)).Ok? && r.status != 200 ==> r.status == 500 && r.body.Error?
    ensures graph(DebugListUrl(user, pathArg)).Ok? && graph(DebugListUrl(user, pathArg)).value.NullValue? ==>
              r == Reply(500, Error(NoneNotIterable), [DebugListUrl(user, pathArg)])
    ensures graph(DebugListUrl(user, pathArg)).Ok? && Listing(graph(DebugListUrl(user, pathArg)).value).Done?
            && ListedNames(Listing(graph(DebugListUrl(user, pathArg)).value).value).Threw? ==>
              r == Reply(500, Error(NoneHasNoGet), [DebugListUrl(user, pathArg)])
  {
    var url := DebugListUrl(user, pathArg);
    match graph(url)
    case Err(failure) => FailureReply("http_error", failure, [url])
    case Ok(page) =>
      match Listing(page)
      case Threw(m) => FailureReply("http_error", Exception(m), [url])
      case Done(items) =>
        match ListedNames(items)
        case Threw(m) => FailureReply("http_error", Exception(m), [url])
        case Done(names) => Reply(200, Names(names), [url])
  }

  /** Surrounding whitespace and leading slashes of the argument do not change the listing. */
  lemma DebugListIgnoresPadding(user: string, a: string, n: nat, p: string, b: string, graph: string -> Result<Page>)
    requires IsBlank(a) && IsBlank(b)
    requires p != [] && !IsSpace(p[0]) && !IsSpace(p[|p| - 1]) && p[0] != '/'
    ensures Handle(user, Some(a + (Slashes(n) + p) + b), graph) == Handle(user, Some(p), graph)
  {
    PaddedListingUrl(user, a, n, p, b);
    PlainListingUrl(user, p);
  }

  lemma PaddedListingUrl(user: string, a: string, n: nat, p: string, b: string)
    requires IsBlank(a) && IsBlank(b)
    requires p != [] && !IsSpace(p[0]) && !IsSpace(p[|p| - 1]) && p[0] != '/'
    ensures DebugListUrl(user, Some(a + (Slashes(n) + p) + b)) == PathUrl(user, Some(p)) + ":/children"
  {
    var m := Slashes(n) + p;
    assert m[|m| - 1] == p[|p| - 1];
    assert m[n] == p[0];
    assert !IsSpace(m[0]) by {
      if n > 0 { assert m[0] == '/'; }
    }
    StripRemovesExactlySurroundingSpace(a, m, b);
    assert !IsSlash(m[n]);
    PathUrlIgnoresLeadingSlashes(user, n, p);
  }

  lemma PlainListingUrl(user: string, p: string)
    requires p != [] && !IsSpace(p[0]) && !IsSpace(p[|p| - 1]) && p[0] != '/'
    ensures DebugListUrl(user, Some(p)) == PathUrl(user, Some(p)) + ":/children"
  {
    StripKeepsUnpadded(p);
    assert !IsSlash(p[0]);
  }
}
