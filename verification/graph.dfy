/** The Microsoft Graph URLs the gateway builds: `path_url`, the two forms of
    the search URL, the content URL of `/read` and the listing URL of
    `/debug/list`. */
module Graph {
  import opened Common
  import opened PyText

  const GraphBase := "https://graph.microsoft.com/v1.0"

  /** The drive of the configured OneDrive user. */
  function UserDrive(user: string): string
  {
    GraphBase + "/users/" + user + "/drive"
  }

  /** Every path-addressed URL starts with this. */
  function RootPathPrefix(user: string): string
  {
    UserDrive(user) + "/root:/"
  }

  /** `path_url(path)`: the fixed drive-root prefix followed by the path with
      all its leading slashes removed; `None` counts as the empty path. The
      suffix is the part of the path that remains once a run of slashes is cut
      off its front, and it does not itself start with a slash. */
  function PathUrl(user: string, path: Option<string>): (r: string)
    ensures StartsWith(r, RootPathPrefix(user))
    ensures var p, suffix := OrEmpty(path), r[|RootPathPrefix(user)|..];
            && (suffix == [] || suffix[0] != '/')
            && EndsWith(p, suffix)
            && All(p[..|p| - |suffix|], IsSlash)
  {
    RootPathPrefix(user) + LStripSlashes(OrEmpty(path))
  }

  /** `path_url` gives the same URL whatever run of slashes precedes the path. */
  lemma {:induction false} PathUrlIgnoresLeadingSlashes(user: string, n: nat, p: string)
    ensures PathUrl(user, Some(Slashes(n) + p)) == PathUrl(user, Some(p))
  {
    LStripSlashesIgnoresLeadingSlashes(n, p);
  }

  /** The URL `/read` downloads: `path_url(path) + ":/content"`, that is the
      drive-root prefix, the path with its leading slashes cut off, and
      `:/content`. */
  function ContentUrl(user: string, path: string): (r: string)
    ensures StartsWith(r, RootPathPrefix(user)) && EndsWith(r, ":/content")
    ensures |RootPathPrefix(user)| <= |r| - |":/content"|
    ensures var middle := r[|RootPathPrefix(user)|..|r| - |":/content"|];
            && (middle == [] || middle[0] != '/')
            && EndsWith(path, middle)
            && All(path[..|path| - |middle|], IsSlash)
  {
    var u := PathUrl(user, Some(path));
    var r := u + ":/content";
    assert r[..|u|] == u;
    assert r[..|RootPathPrefix(user)|] == u[..|RootPathPrefix(user)|];
    assert r[|RootPathPrefix(user)|..|r| - |":/content"|] == u[|RootPathPrefix(user)|..];
    assert r[|r| - |":/content"|..] == ":/content";
    r
  }

  // ---- the search URL ----

  /** What precedes `(q=...)`: the folder when a path is given, else the drive root. */
  function SearchScope(user: string, path: string): string
  {
    if path != "" then PathUrl(user, Some(path)) + ":/search"
    else UserDrive(user) + "/root/search"
  }

  /** The search URL as `search` writes it: the query is put between single
      quotes as it is. */
  function SearchUrlAsWritten(user: string, q: string, path: string): (r: string)
    ensures StartsWith(r, SearchScope(user, path) + "(q='") && EndsWith(r, "')")
    ensures QueryStart(user, path) + 1 <= |r| - 2 && r[QueryStart(user, path) + 1..|r| - 2] == q
  {
    var scope := SearchScope(user, path);
    QuotedBetween(scope, "(q=", "'", q, "')");
    scope + "(q=" + ("'" + (q + "')"))
  }

  /** `a + b + (c + (q + d))` starts with `a + b + c`, ends with `d`, and holds `q` between them. */
  lemma QuotedBetween(a: string, b: string, c: string, q: string, d: string)
    ensures var r := a + b + (c + (q + d));
            && StartsWith(r, a + b + c) && EndsWith(r, d)
            && |a + b| + |c| <= |r| - |d|
            && r[|a + b| + |c|..|r| - |d|] == q
  {
    var r := a + b + (c + (q + d));
    assert r == (a + b + c) + q + d;
    assert r[..|a + b + c|] == a + b + c;
    assert r[|r| - |d|..] == d;
    assert r[|a + b + c|..|r| - |d|] == q;
  }

  /** One character of an OData string literal: a single quote is doubled. */
  function QuoteChar(c: char): string
  {
    if c == '\'' then "''" else [c]
  }

  /** The body of an OData string literal: each single quote doubled. */
  function QuoteBody(q: string): string
    decreases |q|
  {
    if |q| == 0 then "" else QuoteChar(q[0]) + QuoteBody(q[1..])
  }

  /** Quoting adds one character per single quote and changes nothing else. */
  lemma {:induction false} QuoteBodyLength(q: string)
    ensures |QuoteBody(q)| >= |q|
    ensures '\'' in q ==> |QuoteBody(q)| > |q|
    ensures '\'' !in q ==> QuoteBody(q) == q
    decreases |q|
  {
    if |q| > 0 {
      QuoteBodyLength(q[1..]);
      assert q == [q[0]] + q[1..];
    }
  }

  function Prepend(c: char, read: Option<(string, string)>): Option<(string, string)>
  {
    match read
    case None => None
    case Some((text, rest)) => Some(([c] + text, rest))
  }

  /** Read an OData string literal whose opening quote has been consumed:
      its text (a doubled quote stands for one quote) and what follows the
      closing quote; `None` when the literal is never closed. */
  function ReadLiteralBody(s: string): Option<(string, string)>
    decreases |s|
  {
    if |s| == 0 then None
    else if s[0] == '\'' then
      if |s| > 1 && s[1] == '\'' then Prepend('\'', ReadLiteralBody(s[2..]))
      else Some(("", s[1..]))
    else Prepend(s[0], ReadLiteralBody(s[1..]))
  }

  /** Read the OData string literal at the start of `s`. */
  function ReadLiteral(s: string): Option<(string, string)>
  {
    if |s| > 0 && s[0] == '\'' then ReadLiteralBody(s[1..]) else None
  }

  /** Quoting then reading gives back the text and what follows the closing quote. */
  lemma {:induction false} ReadClosedLiteral(q: string, rest: string)
    requires rest == [] || rest[0] != '\''
    ensures ReadLiteralBody(QuoteBody(q) + (['\''] + rest)) == Some((q, rest))
    decreases |q|
  {
    var closed := ['\''] + rest;
    if |q| == 0 {
      assert q == "" && QuoteBody(q) + closed == closed;
      assert closed[1..] == rest;
    } else {
      var tail := QuoteBody(q[1..]) + closed;
      ReadClosedLiteral(q[1..], rest);
      QuoteStep(q[0], tail);
      assert QuoteBody(q) + closed == QuoteChar(q[0]) + tail;
      assert [q[0]] + q[1..] == q;
    }
  }

  /** Reading one quoted character in front of `tail`. */
  lemma QuoteStep(c: char, tail: string)
    ensures ReadLiteralBody(QuoteChar(c) + tail) == Prepend(c, ReadLiteralBody(tail))
  {
    var s := QuoteChar(c) + tail;
    if c == '\'' {
      assert s[0] == '\'' && s[1] == '\'' && s[2..] == tail;
    } else {
      assert s[0] == c && s[1..] == tail;
    }
  }

  /** Whatever a literal reads as, it was written as the quoted text followed
      by the closing quote: reading is the inverse of quoting. */
  lemma {:induction false} ReadLiteralBodyIsQuoted(s: string, text: string, rest: string)
    requires ReadLiteralBody(s) == Some((text, rest))
    ensures s == QuoteBody(text) + "'" + rest
    decreases |s|
  {
    if s[0] == '\'' && !(|s| > 1 && s[1] == '\'') {
      assert text == "" && s == "'" + s[1..];
    } else {
      var n := if s[0] == '\'' then 2 else 1;
      var (t', r') := ReadLiteralBody(s[n..]).value;
      ReadLiteralBodyIsQuoted(s[n..], t', r');
      assert s[..n] == QuoteChar(s[0]);
      assert text == [s[0]] + t' && rest == r';
      assert text[0] == s[0] && text[1..] == t';
      assert QuoteBody(text) == QuoteChar(s[0]) + QuoteBody(t');
      assert s == s[..n] + s[n..];
    }
  }

  /** Where the query literal starts in a search URL. */
  function QueryStart(user: string, path: string): nat
  {
    |SearchScope(user, path) + "(q="|
  }

  /** The search URL with the query quoted as an OData string literal: it
      searches inside the folder `path_url(path)` addresses when a path is
      given and from the drive root otherwise; the literal that follows `(q=`
      reads back as exactly `q`, closed before the final `)`; for a query
      without single quotes it is the URL `search` builds. */
  function SearchUrl(user: string, q: string, path: string): (r: string)
    ensures path != "" ==> StartsWith(r, PathUrl(user, Some(path)) + ":/search")
    ensures path == "" ==> StartsWith(r, UserDrive(user) + "/root/search")
    ensures StartsWith(r, SearchScope(user, path) + "(q=")
    ensures ReadLiteral(r[QueryStart(user, path)..]) == Some((q, ")"))
    ensures '\'' !in q ==> r == SearchUrlAsWritten(user, q, path)
  {
    var head := SearchScope(user, path) + "(q=";
    var literal := "'" + (QuoteBody(q) + "')");
    SearchUrlStartsWithScope(user, path, literal);
    SearchUrlCarriesQuery(head, q);
    QuoteBodyLength(q);
    head + literal
  }

  lemma SearchUrlStartsWithScope(user: string, path: string, literal: string)
    ensures var scope := SearchScope(user, path);
            && StartsWith(scope + "(q=" + literal, scope)
            && StartsWith(scope + "(q=" + literal, scope + "(q=")
  {
    var scope := SearchScope(user, path);
    var r := scope + "(q=" + literal;
    assert r[..|scope|] == scope;
    assert r[..|scope + "(q="|] == scope + "(q=";
  }

  lemma SearchUrlCarriesQuery(head: string, q: string)
    ensures ReadLiteral((head + ("'" + (QuoteBody(q) + "')")))[|head|..]) == Some((q, ")"))
  {
    var literal := "'" + (QuoteBody(q) + "')");
    assert (head + literal)[|head|..] == literal;
    assert literal[1..] == QuoteBody(q) + "')";
    assert "')" == ['\''] + ")";
    ReadClosedLiteral(q, ")");
  }

  /** The search URL as written reads back as its query exactly when the query
      has no single quote: a query such as `l'amico` closes the literal early. */
  lemma AsWrittenSearchUrlKeepsQueryIff(user: string, q: string, path: string)
    ensures ReadLiteral(SearchUrlAsWritten(user, q, path)[QueryStart(user, path)..]) == Some((q, ")"))
            <==> '\'' !in q
  {
    var head := SearchScope(user, path) + "(q=";
    var tail := SearchUrlAsWritten(user, q, path)[|head|..];
    assert tail == "'" + (q + "')");
    assert tail[1..] == q + "')";
    if '\'' !in q {
      var r := SearchUrl(user, q, path);
    } else if ReadLiteral(tail) == Some((q, ")")) {
      ReadLiteralBodyIsQuoted(q + "')", q, ")");
      QuoteBodyLength(q);
      assert false;
    }
  }

  /** The search URL as written ends the query literal at the query's first
      single quote (when no second quote follows it): for `l'amico` the URL
      carries the query `l`. */
  lemma AsWrittenSearchUrlCutsQueryAtQuote(user: string, path: string, a: string, b: string)
    requires '\'' !in a
    requires b != [] && b[0] != '\''
    ensures ReadLiteral(SearchUrlAsWritten(user, a + "'" + b, path)[QueryStart(user, path)..])
            == Some((a, b + "')"))
  {
    var head := SearchScope(user, path) + "(q=";
    var q := a + "'" + b;
    var tail := SearchUrlAsWritten(user, q, path)[|head|..];
    var rest := b + "')";
    assert tail == "'" + (q + "')");
    assert tail[1..] == a + "'" + rest;
    ReadUnquotedThenQuote(a, rest);
  }

  /** A text without quotes, then a lone quote, reads as that text. */
  lemma ReadUnquotedThenQuote(a: string, rest: string)
    requires '\'' !in a
    requires rest == [] || rest[0] != '\''
    ensures ReadLiteralBody(a + "'" + rest) == Some((a, rest))
  {
    QuoteBodyLength(a);
    assert a + "'" + rest == QuoteBody(a) + (['\''] + rest);
    ReadClosedLiteral(a, rest);
  }

  // ---- the listing URL of /debug/list ----

  /** The URL `/debug/list` reads: the children of the drive root when the
      stripped argument is empty or only slashes, otherwise the children of
      the folder that `path_url` addresses. */
  function DebugListUrl(user: string, pathArg: Option<string>): (r: string)
    ensures var p := Strip(OrEmpty(pathArg));
            && (All(p, IsSlash) ==> r == UserDrive(user) + "/root/children")
            && (!All(p, IsSlash) ==> r == PathUrl(user, Some(p)) + ":/children")
  {
    var p := LStripSlashes(Strip(OrEmpty(pathArg)));
    OnlySlashesIffNothingLeft(Strip(OrEmpty(pathArg)));
    if p == "" then UserDrive(user) + "/root/children"
    else RootPathPrefix(user) + p + ":/children"
  }

  /** `lstrip("/")` leaves nothing exactly when the string is all slashes. */
  lemma OnlySlashesIffNothingLeft(s: string)
    ensures LStripSlashes(s) == [] <==> All(s, IsSlash)
  {
    var r := LStripSlashes(s);
    if r == [] {
      assert s[..|s|] == s;
    } else {
      assert s[|s| - |r|] == r[0];
    }
  }
}
