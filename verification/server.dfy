/**
 * The HTTP front end of cmd/urlinfo/main.go.
 *
 * A request URI is stripped of the service prefix "/urlinfo/1/"; what is
 * left (the fragment) must be non-empty and must not start with '/'; it is
 * given the scheme "http://" and normalised. The handler answers 400 with a
 * fixed text when that fails, and otherwise 200 with a JSON body that
 * carries the database's verdict on the normalised URL.
 *
 * The normaliser (purell.NormalizeURLString with the service's flags) is a
 * parameter: a function that either yields a URL or fails. The database is
 * a parameter too: the `Lookup` of whichever URL database the server was
 * started with.
 */
module Server {
  import opened Wrappers
  import opened GoStrings
  import UrlInfo

  /** URLPrefix: the path under which the service is registered. */
  const URL_PREFIX: GoString := "/urlinfo/1/"

  /** The scheme put in front of the fragment before normalising. */
  const SCHEME: GoString := "http://"

  /** The two error messages parseCleanURL can return. */
  const INVALID_URL: GoString := "urlinfo: Invalid URL"
  const NOT_NORMALIZED: GoString := "urlinfo: Could not normalize URL"

  /** What remains of a request URI once the prefix's length has been cut off. */
  function Fragment(requestURI: GoString): GoString
    requires |requestURI| >= |URL_PREFIX|
  {
    requestURI[|URL_PREFIX|..]
  }

  /** The fragments parseCleanURL turns away before normalising: empty, or starting with '/'. */
  predicate Rejected(fragment: GoString) {
    fragment == [] || fragment[0] == '/'
  }

  /**
   * parseCleanURL: a rejected fragment gives "urlinfo: Invalid URL"; any
   * other is normalised with "http://" in front, and the normaliser's
   * output is the clean URL, or its failure becomes "urlinfo: Could not
   * normalize URL". A request URI shorter than the prefix makes the Go
   * slice panic, so it is excluded.
   */
  function ParseCleanURL(requestURI: GoString, normalize: GoString -> Option<GoString>): (r: Result<GoString, GoString>)
    requires |requestURI| >= |URL_PREFIX|
    ensures r.Failure? ==> r.error == INVALID_URL || r.error == NOT_NORMALIZED
    ensures r == Failure(INVALID_URL) <==> Rejected(Fragment(requestURI))
    ensures r == Failure(NOT_NORMALIZED) <==> !Rejected(Fragment(requestURI)) && normalize(SCHEME + Fragment(requestURI)).None?
    ensures r.Success? ==> Some(r.value) == normalize(SCHEME + Fragment(requestURI))
  {
    var fragment := requestURI[|URL_PREFIX|..];
    if |fragment| == 0 || fragment[0] == '/' then Failure(INVALID_URL)
    else match normalize(SCHEME + fragment)
      case None => Failure(NOT_NORMALIZED)
      case Some(clean) => Success(clean)
  }

  /** The prefix is cut off by length only: its bytes are never looked at. */
  lemma PrefixNotInspected(p1: GoString, p2: GoString, fragment: GoString, normalize: GoString -> Option<GoString>)
    requires |p1| == |p2| == |URL_PREFIX|
    ensures ParseCleanURL(p1 + fragment, normalize) == ParseCleanURL(p2 + fragment, normalize)
  {
    assert Fragment(p1 + fragment) == fragment == Fragment(p2 + fragment);
  }

  /** A rejected fragment fails the same way whatever the normaliser does: it is never consulted. */
  lemma RejectedBeforeNormalizing(requestURI: GoString, n1: GoString -> Option<GoString>, n2: GoString -> Option<GoString>)
    requires |requestURI| >= |URL_PREFIX| && Rejected(Fragment(requestURI))
    ensures ParseCleanURL(requestURI, n1) == ParseCleanURL(requestURI, n2) == Failure(INVALID_URL)
  {
  }

  /** The normaliser is asked about exactly one string, "http://" followed by the fragment. */
  lemma NormalizerSeesSchemeAndFragment(requestURI: GoString, n1: GoString -> Option<GoString>, n2: GoString -> Option<GoString>)
    requires |requestURI| >= |URL_PREFIX|
    requires n1(SCHEME + Fragment(requestURI)) == n2(SCHEME + Fragment(requestURI))
    ensures ParseCleanURL(requestURI, n1) == ParseCleanURL(requestURI, n2)
  {
  }

  /** TestParseURLInvalid: "", "/" and "/index.html" after the prefix are invalid, for any normaliser. */
  lemma InvalidRequests(normalize: GoString -> Option<GoString>)
    ensures ParseCleanURL(URL_PREFIX + "", normalize) == Failure(INVALID_URL)
    ensures ParseCleanURL(URL_PREFIX + "/", normalize) == Failure(INVALID_URL)
    ensures ParseCleanURL(URL_PREFIX + "/index.html", normalize) == Failure(INVALID_URL)
  {
    var empty: GoString := "";
    var slash: GoString := "/";
    var index: GoString := "/index.html";
    assert Fragment(URL_PREFIX + empty) == empty;
    assert Fragment(URL_PREFIX + slash) == slash;
    assert Fragment(URL_PREFIX + index) == index;
  }

  /** The part of an HTTP response the handler decides: status code and body. */
  datatype Response = Response(status: int, body: GoString)

  const STATUS_OK := 200
  const STATUS_BAD_REQUEST := 400

  /** badRequestError's message. */
  const BAD_REQUEST_BODY: GoString := "400: Bad Request"

  /** The JSON body of a successful answer, `{"match": %t}`. */
  function MatchBody(ok: bool): GoString {
    if ok then "{\"match\": true}" else "{\"match\": false}"
  }

  /** The body tells a hit from a miss. */
  lemma MatchBodyDistinct()
    ensures MatchBody(true) != MatchBody(false)
    ensures MatchBody(true) != BAD_REQUEST_BODY && MatchBody(false) != BAD_REQUEST_BODY
  {
    assert MatchBody(true)[10] == 't' && MatchBody(false)[10] == 'f';
    assert BAD_REQUEST_BODY[0] == '4' && MatchBody(true)[0] == '{' && MatchBody(false)[0] == '{';
  }

  /**
   * handler: 400 with "400: Bad Request" when the URL cannot be parsed;
   * otherwise 200 with the JSON verdict of `lookup` on the clean URL.
   */
  function Handle(requestURI: GoString, normalize: GoString -> Option<GoString>, lookup: GoString -> bool): (resp: Response)
    requires |requestURI| >= |URL_PREFIX|
    ensures resp.status == STATUS_OK || resp.status == STATUS_BAD_REQUEST
    ensures resp.status == STATUS_BAD_REQUEST <==> ParseCleanURL(requestURI, normalize).Failure?
    ensures resp.status == STATUS_BAD_REQUEST ==> resp.body == BAD_REQUEST_BODY
    ensures resp.status == STATUS_OK ==> resp.body == MatchBody(lookup(ParseCleanURL(requestURI, normalize).value))
  {
    match ParseCleanURL(requestURI, normalize)
    case Failure(_) => Response(STATUS_BAD_REQUEST, BAD_REQUEST_BODY)
    case Success(clean) => Response(STATUS_OK, MatchBody(lookup(clean)))
  }

  /** On a parse error the database is not consulted: any two lookups give the same answer. */
  lemma BadRequestSkipsLookup(requestURI: GoString, normalize: GoString -> Option<GoString>, l1: GoString -> bool, l2: GoString -> bool)
    requires |requestURI| >= |URL_PREFIX| && ParseCleanURL(requestURI, normalize).Failure?
    ensures Handle(requestURI, normalize, l1) == Handle(requestURI, normalize, l2) == Response(STATUS_BAD_REQUEST, BAD_REQUEST_BODY)
  {
  }

  /** The body of a 200 answer decodes back to the lookup result. */
  lemma AnswerReportsLookup(requestURI: GoString, normalize: GoString -> Option<GoString>, lookup: GoString -> bool, ok: bool)
    requires |requestURI| >= |URL_PREFIX|
    requires Handle(requestURI, normalize, lookup) == Response(STATUS_OK, MatchBody(ok))
    ensures ParseCleanURL(requestURI, normalize).Success?
    ensures lookup(ParseCleanURL(requestURI, normalize).value) == ok
  {
    MatchBodyDistinct();
  }

  /** The lookup of a database that holds exactly `urls`, keyed by the URL itself. */
  function InSet(urls: set<GoString>): GoString -> bool {
    u => u in urls
  }

  /** The lookup of a digest-keyed database that holds `urls`: any URL with the same FNV-1a sum is found. */
  ghost function CoveredBy(urls: set<GoString>): GoString -> bool {
    u => UrlInfo.Covers(urls, u)
  }

  /** handler over a string-keyed database: the same answer as Handle with that database's lookup. */
  method Serve(requestURI: GoString, normalize: GoString -> Option<GoString>, db: UrlInfo.MapURLDB) returns (resp: Response)
    requires |requestURI| >= |URL_PREFIX| && db.Valid()
    ensures resp == Handle(requestURI, normalize, InSet(db.Added))
  {
    match ParseCleanURL(requestURI, normalize)
    case Failure(_) =>
      resp := Response(STATUS_BAD_REQUEST, BAD_REQUEST_BODY);
    case Success(clean) =>
      var ok := db.Lookup(clean);
      resp := Response(STATUS_OK, MatchBody(ok));
  }

  /** handler over the digest-keyed database the service starts with (NewByteMapURLDB in main). */
  method ServeDigests(requestURI: GoString, normalize: GoString -> Option<GoString>, db: UrlInfo.ByteMapURLDB) returns (resp: Response)
    requires |requestURI| >= |URL_PREFIX| && db.Valid()
    ensures resp == Handle(requestURI, normalize, CoveredBy(db.Added))
  {
    match ParseCleanURL(requestURI, normalize)
    case Failure(_) =>
      resp := Response(STATUS_BAD_REQUEST, BAD_REQUEST_BODY);
    case Success(clean) =>
      var ok := db.Lookup(clean);
      resp := Response(STATUS_OK, MatchBody(ok));
  }

  /** The URLs the handler tests load, with the scheme the normaliser adds. */
  const MALWARE_URLS: set<GoString> := {"http://evilfoo.com", "http://malware.com", "http://foo.com/evil"}

  /**
   * TestHandlerValid's two queries: with a normaliser that leaves
   * "http://evilfoo.com" and "http://miss" as they are, and a lookup that
   * finds the first and not the second, "evilfoo.com" is a match and
   * "miss" is not.
   */
  lemma HandlerScenario(normalize: GoString -> Option<GoString>, lookup: GoString -> bool)
    requires normalize("http://evilfoo.com") == Some("http://evilfoo.com")
    requires normalize("http://miss") == Some("http://miss")
    requires lookup("http://evilfoo.com") && !lookup("http://miss")
    ensures Handle(URL_PREFIX + "evilfoo.com", normalize, lookup) == Response(STATUS_OK, MatchBody(true))
    ensures Handle(URL_PREFIX + "miss", normalize, lookup) == Response(STATUS_OK, MatchBody(false))
  {
    var hit: GoString := "evilfoo.com";
    var miss: GoString := "miss";
    assert Fragment(URL_PREFIX + hit) == hit;
    assert Fragment(URL_PREFIX + miss) == miss;
    assert SCHEME + hit == "http://evilfoo.com";
    assert SCHEME + miss == "http://miss";
  }

  /** TestHandlerValid: the three URLs added to a string-keyed database, then the two queries. */
  method HandlerValidScenario(normalize: GoString -> Option<GoString>) returns (hitResp: Response, missResp: Response)
    requires normalize("http://evilfoo.com") == Some("http://evilfoo.com")
    requires normalize("http://miss") == Some("http://miss")
    ensures hitResp == Response(STATUS_OK, MatchBody(true))
    ensures missResp == Response(STATUS_OK, MatchBody(false))
  {
    var db := new UrlInfo.MapURLDB();
    db.Add("http://evilfoo.com");
    db.Add("http://malware.com");
    db.Add("http://foo.com/evil");
    assert db.Added == MALWARE_URLS;
    var missURL: GoString := "http://miss";
    assert missURL !in MALWARE_URLS by {
      assert |missURL| == 11;
    }
    HandlerScenario(normalize, InSet(db.Added));
    hitResp := Serve(URL_PREFIX + "evilfoo.com", normalize, db);
    missResp := Serve(URL_PREFIX + "miss", normalize, db);
  }

  /** TestHandlerInvalid: the three invalid requests are answered 400, whatever the database holds. */
  lemma HandlerInvalidScenario(normalize: GoString -> Option<GoString>, lookup: GoString -> bool)
    ensures Handle(URL_PREFIX + "", normalize, lookup).status == STATUS_BAD_REQUEST
    ensures Handle(URL_PREFIX + "/", normalize, lookup).status == STATUS_BAD_REQUEST
    ensures Handle(URL_PREFIX + "/index.html", normalize, lookup).status == STATUS_BAD_REQUEST
  {
    InvalidRequests(normalize);
  }
}
