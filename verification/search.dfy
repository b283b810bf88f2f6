/** `GET /search?q=&path=`: validation of the query, choice of the search URL,
    and the display path of each result. */
module SearchEndpoint {
  import opened Common
  import opened PyText
  import opened Graph
  import opened Http

  /** Graph paths of the user's drive start with this; `search` removes it. */
  const RootMarker := "/drive/root:"

  const MissingQuery := "Parametro 'q' obbligatorio"

  // The texts of the TypeErrors raised when `parent + "/" + name` meets a null.
  const NoneLeftOperand := "unsupported operand type(s) for +: 'NoneType' and 'str'"
  const NoneRightOperand := "can only concatenate str (not \"NoneType\") to str"

  /** The display path of a result: `parent + "/" + name` with every
      `"/drive/root:"` removed in one left-to-right pass. */
  function ResultPath(parent: string, name: string): (r: string)
    ensures |r| <= |parent| + 1 + |name|
    ensures !Contains(parent + "/" + name, RootMarker) ==> r == parent + "/" + name
  {
    RemoveAll(parent + "/" + name, RootMarker)
  }

  /** A parent under the drive root loses exactly its leading marker, provided
      the marker does not occur again in what is joined after it. */
  lemma ResultPathDropsRootMarker(rest: string, name: string)
    requires !Contains(rest + "/" + name, RootMarker)
    ensures ResultPath(RootMarker + rest, name) == rest + "/" + name
  {
    var tail := rest + "/" + name;
    var s := RootMarker + rest + "/" + name;
    assert s == RootMarker + tail;
    assert s[..|RootMarker|] == RootMarker;
    assert s[|RootMarker|..] == tail;
  }

  /** Item and folder names cannot hold `:` in OneDrive; for such names the
      display path is the parent path below the drive root, `/`, and the name. */
  lemma ResultPathWithoutColons(rest: string, name: string)
    requires ':' !in rest && ':' !in name
    ensures ResultPath(RootMarker + rest, name) == rest + "/" + name
  {
    var tail := rest + "/" + name;
    assert ':' !in tail by {
      forall j | 0 <= j < |tail| ensures tail[j] != ':' {
        if j < |rest| { assert tail[j] == rest[j]; }
        else if j > |rest| { assert tail[j] == name[j - |rest| - 1]; }
      }
    }
    if Contains(tail, RootMarker) {
      var i :| 0 <= i <= |tail| && OccursAt(tail, RootMarker, i);
      MarkerOccurrenceHasColon(tail, i);
      assert false;
    }
    ResultPathDropsRootMarker(rest, name);
  }

  lemma MarkerOccurrenceHasColon(s: string, i: int)
    requires OccursAt(s, RootMarker, i)
    ensures ':' in s
  {
    assert s[i..i + |RootMarker|][11] == ':';
    assert s[i + 11] == ':';
  }

  /** The removal runs over the joined string, so a marker formed across the
      joining slash is removed too: a name `drive/root:x` directly under the
      root is displayed as `x`. */
  lemma ResultPathMarkerAcrossJoin()
    ensures ResultPath(RootMarker, "drive/root:x") == "x"
  {
    var s := RootMarker + "/" + "drive/root:x";
    assert s == RootMarker + (RootMarker + "x");
    assert s[..|RootMarker|] == RootMarker;
    assert s[|RootMarker|..] == RootMarker + "x";
    var t := RootMarker + "x";
    assert t[..|RootMarker|] == RootMarker;
    assert t[|RootMarker|..] == "x";
    assert StartsWith(s, RootMarker) && RemoveAll(s, RootMarker) == RemoveAll(t, RootMarker);
    assert StartsWith(t, RootMarker) && RemoveAll(t, RootMarker) == RemoveAll("x", RootMarker);
    assert !StartsWith("x", RootMarker) && RemoveAll("x", RootMarker) == "x" + RemoveAll("", RootMarker);
  }

  /** The item is an object with no `null` where `search` needs a string. */
  predicate Readable(item: Item)
  {
    && item.Item?
    && item.name != Null
    && item.parent != NullParent
    && item.parent != Parent(Null)
  }

  function ParentText(parent: ParentRef): string
  {
    match parent
    case Parent(Str(p)) => p
    case _ => ""
  }

  function NameText(name: Field): string
  {
    match name
    case Str(n) => n
    case _ => ""
  }

  /** The entry `search` makes of one item, or the exception it raises on a
      `null` item, parent reference, parent path or name, in that order of
      evaluation. */
  function ToHit(item: Item): (r: Outcome<Hit>)
    ensures r.Done? <==> Readable(item)
    ensures r.Done? ==> r.value == Hit(NameOf(item), ResultPath(ParentText(item.parent), NameText(item.name)),
                                       item.size, item.webUrl, item.id)
    ensures item.NullItem? ==> r == Threw(NoneHasNoGet)
    ensures item.Item? && item.parent.NullParent? ==> r == Threw(NoneHasNoGet)
    ensures item.Item? && item.parent == Parent(Null) ==> r == Threw(NoneLeftOperand)
    ensures item.Item? && item.parent != NullParent && item.parent != Parent(Null) && item.name == Null ==>
              r == Threw(NoneRightOperand)
  {
    match item
    case NullItem => Threw(NoneHasNoGet)
    case Item(name, parent, size, webUrl, id) =>
      match parent
      case NullParent => Threw(NoneHasNoGet)
      case Parent(Null) => Threw(NoneLeftOperand)
      case _ =>
        if name == Null then Threw(NoneRightOperand)
        else Done(Hit(NameOf(item), ResultPath(ParentText(parent), NameText(name)), size, webUrl, id))
  }

  /** The loop over `value`: the entries in the order Graph returned the items,
      or the exception of the first item that cannot be read. */
  function Hits(items: seq<Item>): (r: Outcome<seq<Hit>>)
    ensures r.Done? <==> forall i :: 0 <= i < |items| ==> Readable(items[i])
    ensures r.Done? ==> |r.value| == |items| && forall i :: 0 <= i < |items| ==> ToHit(items[i]) == Done(r.value[i])
    ensures r.Threw? ==> exists i :: 0 <= i < |items| && ToHit(items[i]) == Threw(r.message)
                                     && forall j :: 0 <= j < i ==> Readable(items[j])
    decreases |items|
  {
    if |items| == 0 then Done([])
    else
      match ToHit(items[0])
      case Threw(m) => Threw(m)
      case Done(hit) =>
        match Hits(items[1..])
        case Threw(m) =>
          assert forall i :: 0 < i < |items| ==> items[i] == items[1..][i - 1];
          Threw(m)
        case Done(hits) => Done([hit] + hits)
  }

  /** Every item of a page can be turned into an entry. */
  predicate AllReadable(items: seq<Item>)
  {
    forall i :: 0 <= i < |items| ==> Readable(items[i])
  }

  /** The part of `search()` after the query check: one Graph call to `url`,
      answered 200 with one entry per item in Graph's order; a failed call is
      answered by the 502/500 mapping, and a `null` listing or an item that
      cannot be read by 500. */
  function Answer(url: string, graph: string -> Result<Page>): (r: Reply)
    ensures r.calls == [url]
    ensures r.status == 200 <==> && graph(url).Ok? && Listing(graph(url).value).Done?
                                 && AllReadable(Listing(graph(url).value).value)
    ensures r.status == 200 ==>
              && graph(url).Ok? && Listing(graph(url).value).Done? && r.body.Results?
              && |r.body.hits| == |Listing(graph(url).value).value|
              && forall i :: 0 <= i < |r.body.hits| ==> ToHit(Listing(graph(url).value).value[i]) == Done(r.body.hits[i])
    ensures graph(url).Err? ==> r == FailureReply("graph_error", graph(url).failure, [url])
    ensures graph(url).Ok? && graph(url).value.NullValue? ==> r == Reply(500, Error(NoneNotIterable), [url])
    ensures graph(url).Ok? && Listing(graph(url).value).Done? && !AllReadable(Listing(graph(url).value).value) ==>
              r.status == 500 && r.body.Error?
    ensures graph(url).Ok? && Listing(graph(url).value).Done? && Hits(Listing(graph(url).value).value).Threw? ==>
              r == Reply(500, Error(Hits(Listing(graph(url).value).value).message), [url])
    ensures r.status in {200, 500, 502}
  {
    match graph(url)
    case Err(failure) => FailureReply("graph_error", failure, [url])
    case Ok(page) =>
      match Listing(page)
      case Threw(m) => FailureReply("graph_error", Exception(m), [url])
      case Done(items) =>
        match Hits(items)
        case Done(hits) => Reply(200, Results(hits), [url])
        case Threw(m) => FailureReply("graph_error", Exception(m), [url])
  }

  /** The one Graph URL `search` requests: the stripped query between single
      quotes as it is. */
  function RequestUrl(user: string, qArg: Option<string>, pathArg: Option<string>): string
  {
    SearchUrlAsWritten(user, Strip(OrEmpty(qArg)), Strip(OrEmpty(pathArg)))
  }

  /** `search()`: a blank query is answered 400 before Graph is asked
      anything; otherwise the answer is that of the one search URL built from
      the stripped query and path. */
  function Handle(user: string, qArg: Option<string>, pathArg: Option<string>,
                  graph: string -> Result<Page>): (r: Reply)
    ensures IsBlank(OrEmpty(qArg)) ==> r == Reply(400, Error(MissingQuery), [])
    ensures !IsBlank(OrEmpty(qArg)) ==> r == Answer(RequestUrl(user, qArg, pathArg), graph)
    ensures r.status in {200, 400, 500, 502}
  {
    var q := Strip(OrEmpty(qArg));
    var path := Strip(OrEmpty(pathArg));
    if q == "" then Reply(400, Error(MissingQuery), [])
    else Answer(SearchUrlAsWritten(user, q, path), graph)
  }

  /** A non-blank query reaches Graph in one URL, scoped to the folder a
      non-blank `path` names or to the drive root; its search literal reads
      back as the stripped query exactly when that query has no single quote. */
  lemma SearchRequestCarriesQuery(user: string, qArg: Option<string>, pathArg: Option<string>,
                                  graph: string -> Result<Page>)
    requires !IsBlank(OrEmpty(qArg))
    ensures var calls := Handle(user, qArg, pathArg, graph).calls;
            var q, path := Strip(OrEmpty(qArg)), Strip(OrEmpty(pathArg));
            && |calls| == 1
            && (!IsBlank(OrEmpty(pathArg)) ==> StartsWith(calls[0], PathUrl(user, Some(path)) + ":/search"))
            && (IsBlank(OrEmpty(pathArg)) ==> StartsWith(calls[0], UserDrive(user) + "/root/search"))
            && QueryStart(user, path) <= |calls[0]|
            && (ReadLiteral(calls[0][QueryStart(user, path)..]) == Some((q, ")")) <==> '\'' !in q)
  {
    var q, path := Strip(OrEmpty(qArg)), Strip(OrEmpty(pathArg));
    var url := RequestUrl(user, qArg, pathArg);
    assert Handle(user, qArg, pathArg, graph).calls == [url];
    SearchUrlStartsWithScope(user, path, "'" + (q + "')"));
    AsWrittenSearchUrlKeepsQueryIff(user, q, path);
  }

  /** The one Graph URL the corrected `search()` requests: the stripped query
      as an OData string literal, single quotes doubled. */
  function CorrectedRequestUrl(user: string, qArg: Option<string>, pathArg: Option<string>): string
  {
    SearchUrl(user, Strip(OrEmpty(qArg)), Strip(OrEmpty(pathArg)))
  }

  /** `search()` with the query quoted as an OData string literal. */
  function CorrectedHandle(user: string, qArg: Option<string>, pathArg: Option<string>,
                           graph: string -> Result<Page>): (r: Reply)
    ensures IsBlank(OrEmpty(qArg)) ==> r == Reply(400, Error(MissingQuery), [])
    ensures !IsBlank(OrEmpty(qArg)) ==> r == Answer(CorrectedRequestUrl(user, qArg, pathArg), graph)
    ensures r.status in {200, 400, 500, 502}
  {
    var q := Strip(OrEmpty(qArg));
    var path := Strip(OrEmpty(pathArg));
    if q == "" then Reply(400, Error(MissingQuery), [])
    else Answer(SearchUrl(user, q, path), graph)
  }

  /** The corrected `search()` sends Graph every stripped query intact, and
      sends the same request as `search()` whenever the query has no single
      quote. */
  lemma CorrectedSearchCarriesQuery(user: string, qArg: Option<string>, pathArg: Option<string>,
                                    graph: string -> Result<Page>)
    requires !IsBlank(OrEmpty(qArg))
    ensures var calls := CorrectedHandle(user, qArg, pathArg, graph).calls;
            var q, path := Strip(OrEmpty(qArg)), Strip(OrEmpty(pathArg));
            && |calls| == 1
            && QueryStart(user, path) <= |calls[0]|
            && ReadLiteral(calls[0][QueryStart(user, path)..]) == Some((q, ")"))
    ensures '\'' !in Strip(OrEmpty(qArg)) ==> CorrectedHandle(user, qArg, pathArg, graph) == Handle(user, qArg, pathArg, graph)
  {
    var path := Strip(OrEmpty(pathArg));
    var url := CorrectedRequestUrl(user, qArg, pathArg);
    assert CorrectedHandle(user, qArg, pathArg, graph).calls == [url];
    assert StartsWith(url, SearchScope(user, path) + "(q=");
  }
}
