/**
 * The registry service (valtown/rss-sub/http_rss_sub.tsx): an HTTP handler that, behind a
 * bearer-token check, adds, deletes and lists the watched feed URLs. The `feed_urls` table
 * has a unique `url` column, so it is a set of strings here; sqlite's own failures are an
 * injected `fault` for the request's one statement.
 */
module FeedRegistry {
  import opened Options

  /** Why a statement failed: the unique column refused a duplicate, or the database
      reported some other error with its own message. */
  datatype DbError = UniqueViolation(url: string) | DbFault(message: string)

  /** A response body: plain text, an error line (`prefix + error.message`), or the JSON
      listing of the table. */
  datatype Body = Text(text: string) | ErrorText(prefix: string, cause: DbError) | Listing(urls: set<string>)

  datatype Response = Response(status: int, body: Body)

  datatype Route = Add(url: string) | Delete(url: string) | Get | Invalid

  /** The header names the bearer scheme. */
  predicate HasBearer(header: string)
  {
    |header| >= 7 && header[..7] == "Bearer "
  }

  /** `${API_KEY}`: an unset environment variable renders as "undefined". */
  function KeyText(apiKey: Option<string>): (r: string)
    ensures apiKey.Some? ==> r == apiKey.value
    ensures r == "undefined" <==> apiKey.None? || apiKey.value == "undefined"
  {
    match apiKey
    case Some(k) => k
    case None => "undefined"
  }

  /** `validateApiKey`: the Authorization header, when present, equals the bearer token. */
  predicate ValidateApiKey(authHeader: Option<string>, apiKey: Option<string>)
    ensures ValidateApiKey(authHeader, apiKey) ==> authHeader.Some? && HasBearer(authHeader.value)
    ensures apiKey.Some? ==> (ValidateApiKey(authHeader, apiKey) <==> authHeader == Some("Bearer " + apiKey.value))
  {
    authHeader == Some("Bearer " + KeyText(apiKey))
  }

  /** With the key set, exactly the header "Bearer <key>" is accepted; a missing header never
      is; with the key unset, the header "Bearer undefined" is. */
  lemma ValidateApiKeyCases(authHeader: Option<string>, apiKey: Option<string>)
    ensures apiKey.Some? ==> (ValidateApiKey(authHeader, apiKey) <==> authHeader == Some("Bearer " + apiKey.value))
    ensures authHeader.None? ==> !ValidateApiKey(authHeader, apiKey)
    ensures apiKey.None? ==> (ValidateApiKey(authHeader, apiKey) <==> authHeader == Some("Bearer undefined"))
  {
    assert "Bearer " + "undefined" == "Bearer undefined";
  }

  /** The if/else chain on the path and the `url` search parameter; an empty `url` counts
      as missing. */
  function RouteOf(pathname: string, urlParam: Option<string>): (r: Route)
    ensures r.Add? || r.Delete? ==> urlParam == Some(r.url) && r.url != ""
    ensures r.Add? <==> pathname == "/add" && urlParam.Some? && urlParam.value != ""
    ensures r.Delete? <==> pathname == "/delete" && urlParam.Some? && urlParam.value != ""
    ensures r.Get? <==> pathname == "/get"
  {
    if pathname == "/add" && urlParam.Some? && urlParam.value != "" then Add(urlParam.value)
    else if pathname == "/delete" && urlParam.Some? && urlParam.value != "" then Delete(urlParam.value)
    else if pathname == "/get" then Get
    else Invalid
  }

  /** The table after an authorised request: only an added or deleted URL changes, and
      nothing changes when the statement fails or the request only reads. */
  function NextUrls(urls: set<string>, route: Route, fault: Option<string>): (r: set<string>)
    ensures route.Add? && fault.None? ==> route.url in r
    ensures route.Delete? && fault.None? ==> route.url !in r
    ensures fault.Some? || route.Get? || route.Invalid? ==> r == urls
    ensures forall v :: (route.Add? || route.Delete?) && v != route.url ==> (v in r <==> v in urls)
  {
    match route
    case Add(u) => if fault.None? then urls + {u} else urls
    case Delete(u) => if fault.None? then urls - {u} else urls
    case _ => urls
  }

  /** Adding a new URL and then deleting it gives back the table. */
  lemma AddThenDelete(urls: set<string>, u: string)
    requires u !in urls
    ensures NextUrls(NextUrls(urls, Add(u), None), Delete(u), None) == urls
  {
    var r := NextUrls(NextUrls(urls, Add(u), None), Delete(u), None);
    forall v ensures v in r <==> v in urls {
      if v == u {
        assert u !in r;
      }
    }
  }

  /** Deleting twice is deleting once. */
  lemma DeleteIdempotent(urls: set<string>, u: string)
    ensures NextUrls(NextUrls(urls, Delete(u), None), Delete(u), None) == NextUrls(urls, Delete(u), None)
  {
  }

  /** The `feed_urls` table and the handler's configuration. */
  class Registry {
    var urls: set<string>
    const apiKey: Option<string>

    /** A registry as `initializeDatabase` leaves it: the table exists, holding `urls`. */
    constructor (apiKey: Option<string>, urls: set<string>)
      ensures this.apiKey == apiKey && this.urls == urls
    {
      this.apiKey := apiKey;
      this.urls := urls;
    }

    /** `httpHandler`. A duplicate `/add` fails on the unique column; `/delete` of an absent
        URL succeeds; `/get` ignores `url` and lists the table, in no promised order. */
    method HttpHandler(authHeader: Option<string>, pathname: string, urlParam: Option<string>, fault: Option<string>)
      returns (resp: Response)
      modifies this
      ensures !ValidateApiKey(authHeader, apiKey) ==>
        resp == Response(401, Text("Unauthorized")) && urls == old(urls)
      ensures ValidateApiKey(authHeader, apiKey) ==>
        var route := RouteOf(pathname, urlParam);
        && (route.Add? && route.url in old(urls) && fault.None? ==>
              resp == Response(500, ErrorText("Error adding URL: ", UniqueViolation(route.url))) && urls == old(urls))
        && (route.Add? && route.url !in old(urls) && fault.None? ==>
              resp == Response(200, Text("URL added: " + route.url)) && urls == NextUrls(old(urls), route, fault))
        && (route.Add? && fault.Some? ==>
              resp == Response(500, ErrorText("Error adding URL: ", DbFault(fault.value))) && urls == old(urls))
        && (route.Delete? && fault.None? ==>
              resp == Response(200, Text("URL deleted: " + route.url)) && urls == NextUrls(old(urls), route, fault))
        && (route.Delete? && fault.Some? ==>
              resp == Response(500, ErrorText("Error deleting URL: ", DbFault(fault.value))) && urls == old(urls))
        && (route.Get? && fault.None? ==>
              resp == Response(200, Listing(old(urls))) && urls == old(urls))
        && (route.Get? && fault.Some? ==>
              resp == Response(500, ErrorText("Error retrieving URLs: ", DbFault(fault.value))) && urls == old(urls))
        && (route.Invalid? ==>
              resp == Response(400, Text("Invalid request")) && urls == old(urls))
    {
      if !ValidateApiKey(authHeader, apiKey) {
        return Response(401, Text("Unauthorized"));
      }
      var route := RouteOf(pathname, urlParam);
      match route {
        case Add(u) =>
          if fault.Some? {
            resp := Response(500, ErrorText("Error adding URL: ", DbFault(fault.value)));
          } else if u in urls {
            resp := Response(500, ErrorText("Error adding URL: ", UniqueViolation(u)));
          } else {
            urls := urls + {u};
            resp := Response(200, Text("URL added: " + u));
          }
        case Delete(u) =>
          if fault.Some? {
            resp := Response(500, ErrorText("Error deleting URL: ", DbFault(fault.value)));
          } else {
            urls := urls - {u};
            resp := Response(200, Text("URL deleted: " + u));
          }
        case Get =>
          if fault.Some? {
            resp := Response(500, ErrorText("Error retrieving URLs: ", DbFault(fault.value)));
          } else {
            resp := Response(200, Listing(urls));
          }
        case Invalid =>
          resp := Response(400, Text("Invalid request"));
      }
    }
  }
}
