/** The guarded endpoints of the gateway, with the configuration read from
    the environment at start-up. */
module Gateway {
  import opened Common
  import opened PyText
  import opened Graph
  import opened Http
  import SearchEndpoint
  import ReadEndpoint
  import DebugListEndpoint

  /** `ONEDRIVE_USER`, `API_KEY` and `MAX_CHARS`. */
  datatype Config = Config(user: string, apiKey: string, maxChars: int)

  /** `GET /search`, behind the API-key guard. */
  function SearchRoute(cfg: Config, header: Option<string>, q: Option<string>, path: Option<string>,
                       graph: string -> Result<Page>): (r: Reply)
    ensures cfg.apiKey == "" || header == Some(cfg.apiKey) ==> r == SearchEndpoint.Handle(cfg.user, q, path, graph)
    ensures cfg.apiKey != "" && header != Some(cfg.apiKey) ==> r == Forbidden
  {
    Guarded(cfg.apiKey, header, SearchEndpoint.Handle(cfg.user, q, path, graph))
  }

  /** `POST /read`, behind the API-key guard. */
  function ReadRoute(cfg: Config, header: Option<string>, path: Option<string>,
                     fetch: string -> Result<Bytes>, ex: ReadEndpoint.Extractors): (r: Reply)
    ensures cfg.apiKey == "" || header == Some(cfg.apiKey) ==> r == ReadEndpoint.Handle(cfg.user, cfg.maxChars, path, fetch, ex)
    ensures cfg.apiKey != "" && header != Some(cfg.apiKey) ==> r == Forbidden
  {
    Guarded(cfg.apiKey, header, ReadEndpoint.Handle(cfg.user, cfg.maxChars, path, fetch, ex))
  }

  /** `GET /debug/list`, behind the API-key guard. */
  function DebugListRoute(cfg: Config, header: Option<string>, path: Option<string>,
                          graph: string -> Result<Page>): (r: Reply)
    ensures cfg.apiKey == "" || header == Some(cfg.apiKey) ==> r == DebugListEndpoint.Handle(cfg.user, path, graph)
    ensures cfg.apiKey != "" && header != Some(cfg.apiKey) ==> r == Forbidden
  {
    Guarded(cfg.apiKey, header, DebugListEndpoint.Handle(cfg.user, path, graph))
  }

  /** With a key configured, a request to any guarded endpoint that does not
      present it is refused with 403 before Graph is asked anything. */
  lemma MissingKeyIsRefusedEverywhere(cfg: Config, q: Option<string>, path: Option<string>,
                                      graph: string -> Result<Page>, fetch: string -> Result<Bytes>,
                                      ex: ReadEndpoint.Extractors)
    requires cfg.apiKey != ""
    ensures SearchRoute(cfg, None, q, path, graph) == Forbidden
    ensures ReadRoute(cfg, None, path, fetch, ex) == Forbidden
    ensures DebugListRoute(cfg, None, path, graph) == Forbidden
  {
    GuardRefuses(cfg.apiKey, SearchEndpoint.Handle(cfg.user, q, path, graph));
    GuardRefuses(cfg.apiKey, ReadEndpoint.Handle(cfg.user, cfg.maxChars, path, fetch, ex));
    GuardRefuses(cfg.apiKey, DebugListEndpoint.Handle(cfg.user, path, graph));
  }

  lemma GuardRefuses(apiKey: string, endpoint: Reply)
    requires apiKey != ""
    ensures Guarded(apiKey, None, endpoint) == Forbidden
  {
  }

  /** With the right key, a `read` of a path whose extension is not one of
      the three supported ones downloads the file and, when the download
      succeeds, answers 415 whatever the extractors would do. */
  lemma UnsupportedPathIsDownloadedThenRefused(cfg: Config, path: string,
                                               fetch: string -> Result<Bytes>, ex: ReadEndpoint.Extractors)
    requires !IsBlank(path)
    requires ReadEndpoint.KindOf(Strip(path)) == ReadEndpoint.Unsupported
    requires fetch(ContentUrl(cfg.user, Strip(path))).Ok?
    ensures ReadRoute(cfg, Some(cfg.apiKey), Some(path), fetch, ex)
            == Reply(415, Error(ReadEndpoint.UnsupportedType), [ContentUrl(cfg.user, Strip(path))])
  {
    var url := ContentUrl(cfg.user, Strip(path));
    var r := ReadEndpoint.Answer(Strip(path), url, cfg.maxChars, fetch, ex);
    assert ReadEndpoint.Handle(cfg.user, cfg.maxChars, Some(path), fetch, ex) == r;
    assert r.status == 415 && r.body == Error(ReadEndpoint.UnsupportedType) && r.calls == [url];
  }

  /** A missing or blank query never reaches Graph, for any key configuration. */
  lemma BlankQueryMakesNoCall(cfg: Config, header: Option<string>, q: Option<string>, path: Option<string>,
                              graph: string -> Result<Page>)
    requires IsBlank(OrEmpty(q))
    ensures SearchRoute(cfg, header, q, path, graph).calls == []
  {
    GuardAddsNoCalls(cfg.apiKey, header, SearchEndpoint.Handle(cfg.user, q, path, graph));
  }

  /** A missing or blank path never reaches Graph, for any key configuration. */
  lemma BlankPathMakesNoCall(cfg: Config, header: Option<string>, path: Option<string>,
                             fetch: string -> Result<Bytes>, ex: ReadEndpoint.Extractors)
    requires IsBlank(OrEmpty(path))
    ensures ReadRoute(cfg, header, path, fetch, ex).calls == []
  {
    GuardAddsNoCalls(cfg.apiKey, header, ReadEndpoint.Handle(cfg.user, cfg.maxChars, path, fetch, ex));
  }

  lemma GuardAddsNoCalls(apiKey: string, header: Option<string>, endpoint: Reply)
    requires endpoint.calls == []
    ensures Guarded(apiKey, header, endpoint).calls == []
  {
  }
}
