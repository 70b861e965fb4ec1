/**
 * The first generation of the service (src/urlinfo): parseURL takes what
 * follows the third '/' of the checked URL, the handler rebuilds that URL
 * from the request's path and raw query, and URLDB answers a lookup with
 * the value stored for the URL.
 */
module Legacy {
  import opened Wrappers
  import opened GoStrings

  /** The one error message parseURL returns. */
  const INVALID_REQUEST: GoString := "invalid url request"

  /** The service prefix the tests put in front of a URL. */
  const BASE_URL: GoString := "/urlinfo/1/"

  /**
   * parseURL: splits at '/' into at most four parts; fewer than four parts
   * (fewer than three slashes) is an error, otherwise the result is the
   * fourth part, which is everything after the third '/', slashes included.
   */
  function ParseURL(url: GoString): (r: Result<GoString, GoString>)
    ensures r.Failure? <==> Count(url, '/') < 3
    ensures r.Failure? ==> r.error == INVALID_REQUEST
    ensures r.Success? ==> SuffixAfter(url, '/', 3, r.value)
  {
    var parts := SplitN(url, '/', 4);
    SplitNCount(url, '/', 4);
    if |parts| < 4 then Failure(INVALID_REQUEST)
    else
      SplitNLast(url, '/', 4);
      Success(parts[3])
  }

  /** Three slash-free segments, each followed by '/', then anything: parseURL returns the anything. */
  lemma ParseURLAnySegments(a: GoString, b: GoString, c: GoString, rest: GoString)
    requires Lacks(a, '/') && Lacks(b, '/') && Lacks(c, '/')
    ensures ParseURL(a + "/" + b + "/" + c + "/" + rest) == Success(rest)
  {
    var x3 := c + "/" + rest;
    var x2 := b + "/" + x3;
    var x1 := a + "/" + x2;
    assert a + "/" + b + "/" + c + "/" + rest == x1;
    assert SuffixAfter(rest, '/', 0, rest) by {
      assert rest[..0] == [];
    }
    SlashAfterSegment(c, rest, 0, rest);
    SlashAfterSegment(b, x3, 1, rest);
    SlashAfterSegment(a, x2, 2, rest);
    SuffixAfterCount(x1, '/', 3, rest);
    SuffixAfterUnique(x1, '/', 3, ParseURL(x1).value, rest);
  }

  /** A slash-free segment and a '/' in front move the k-th slash to the (k+1)-th. */
  lemma SlashAfterSegment(seg: GoString, tail: GoString, k: nat, t: GoString)
    requires Lacks(seg, '/') && SuffixAfter(tail, '/', k, t)
    ensures SuffixAfter(seg + "/" + tail, '/', k + 1, t)
  {
    var s := seg + "/" + tail;
    assert s[..|seg|] == seg && s[|seg|] == '/' && s[|seg| + 1..] == tail;
    CountZero(seg, '/');
    SuffixAfterFirst(s, '/', |seg|, k + 1, t);
  }

  /** A string with a suffix after its k-th '/' holds at least k slashes. */
  lemma SuffixAfterCount(s: GoString, b: Byte, k: nat, t: GoString)
    requires SuffixAfter(s, b, k, t)
    ensures Count(s, b) >= k
  {
    assert s == s[..|s| - |t|] + t;
    CountAppend(s[..|s| - |t|], t, b);
  }

  /** Round trip: parseURL of the service prefix followed by any string gives that string back. */
  lemma ParseURLRoundTrip(s: GoString)
    ensures ParseURL(BASE_URL + s) == Success(s)
  {
    var urlinfo: GoString := "urlinfo";
    var one: GoString := "1";
    assert BASE_URL + s == [] + "/" + urlinfo + "/" + one + "/" + s;
    ParseURLAnySegments([], urlinfo, one, s);
  }

  /** TestParseURLEmpty: the bare prefix parses to the empty string. */
  lemma ParseURLEmpty()
    ensures ParseURL(BASE_URL) == Success([])
  {
    ParseURLRoundTrip([]);
    assert BASE_URL + [] == BASE_URL;
  }

  /**
   * The input of the TestParseURLInvalid test (marked TODO): one more '/'
   * after the prefix parses to "/", not to the empty string the test expects.
   */
  lemma ParseURLExtraSlash()
    ensures ParseURL(BASE_URL + "/") == Success("/")
  {
    ParseURLRoundTrip("/");
  }

  /** Fewer than three slashes is an error, e.g. the prefix without its last '/'. */
  lemma ParseURLTooFewSlashes()
    ensures ParseURL("/urlinfo/1") == Failure(INVALID_REQUEST)
  {
    var u: GoString := "/urlinfo/1";
    assert Count(u, '/') == 2;
  }

  /** The URL the handler checks: the request path, plus '?' and the raw query when there is one. */
  function CheckURL(path: GoString, rawQuery: GoString): (u: GoString)
    ensures rawQuery == [] ==> u == path
    ensures rawQuery != [] ==> |u| == |path| + 1 + |rawQuery|
    ensures rawQuery != [] ==> u[..|path|] == path && u[|path|] == '?' && u[|path| + 1..] == rawQuery
  {
    if rawQuery != [] then path + "?" + rawQuery else path
  }

  /**
   * Splitting a URL at its first '?' into path and raw query, the split
   * net/url makes of a request target; CheckURL is its inverse.
   */
  function SplitQuery(u: GoString): (pq: (GoString, GoString))
    ensures Lacks(pq.0, '?')
    ensures Lacks(u, '?') ==> pq == (u, [])
    ensures !Lacks(u, '?') ==> u == pq.0 + "?" + pq.1
  {
    IndexByteFirst(u, '?');
    match IndexByte(u, '?')
    case None =>
      CountZero(u, '?');
      (u, [])
    case Some(i) =>
      CountZero(u[..i], '?');
      CutAround(u, i);
      (u[..i], u[i + 1..])
  }

  /** The first `b` after a prefix free of `b` is the one right after that prefix. */
  lemma {:induction false} IndexByteAfter(p: GoString, b: Byte, t: GoString)
    requires Lacks(p, b)
    ensures IndexByte(p + [b] + t, b) == Some(|p|)
  {
    if p != [] {
      assert (p + [b] + t)[1..] == p[1..] + [b] + t;
      assert Lacks(p[1..], b) by {
        assert forall k :: 0 <= k < |p[1..]| ==> p[1..][k] == p[k + 1];
      }
      IndexByteAfter(p[1..], b, t);
    }
  }

  /** When the path holds no '?', the checked URL still tells path and query apart. */
  lemma CheckURLSplits(path: GoString, rawQuery: GoString)
    requires Lacks(path, '?')
    ensures SplitQuery(CheckURL(path, rawQuery)) == (path, rawQuery)
  {
    if rawQuery == [] {
      IndexByteFirst(path, '?');
      CountZero(path, '?');
    } else {
      var u := path + "?" + rawQuery;
      IndexByteAfter(path, '?', rawQuery);
      assert u[..|path|] == path && u[|path| + 1..] == rawQuery;
    }
  }

  /** What the handler passes on: the path after the prefix, with the query put back when there is one. */
  lemma HandlerChecksPathAndQuery(s: GoString, rawQuery: GoString)
    ensures ParseURL(CheckURL(BASE_URL + s, rawQuery)) == Success(if rawQuery == [] then s else s + "?" + rawQuery)
  {
    if rawQuery == [] {
      ParseURLRoundTrip(s);
    } else {
      assert CheckURL(BASE_URL + s, rawQuery) == BASE_URL + (s + "?" + rawQuery);
      ParseURLRoundTrip(s + "?" + rawQuery);
    }
  }

  /** URLDB: a map from URL to a verdict. */
  datatype URLDB = URLDB(DB: map<GoString, bool>) {
    /** Lookup: the stored value for the URL, and false for a URL that is not stored. */
    function Lookup(url: GoString): (hit: bool)
      ensures hit ==> url in DB
      ensures url in DB ==> hit == DB[url]
    {
      if url in DB then DB[url] else false
    }
  }

  /**
   * On a map whose every value is true (all the service ever stores),
   * the value-based Lookup agrees with the presence-based one of the later
   * MapURLDB; a key stored as false is where they differ.
   */
  lemma ValueLookupMatchesPresence(db: URLDB, url: GoString)
    ensures (forall u :: u in db.DB ==> db.DB[u]) ==> (db.Lookup(url) <==> url in db.DB)
    ensures url in db.DB && !db.DB[url] ==> !db.Lookup(url)
  {
  }

  /** The tests' table of bad URLs. */
  const BAD_URLS: map<GoString, bool> := map["evilfoo.com" := true, "malware.com" := true, "foo.com/evil" := true]

  /** TestLookupHit and TestLookupMiss. */
  lemma LookupTable()
    ensures URLDB(BAD_URLS).Lookup("malware.com")
    ensures !URLDB(BAD_URLS).Lookup("foo.com")
  {
    var miss: GoString := "foo.com";
    assert miss != "evilfoo.com" && miss != "malware.com" && miss != "foo.com/evil" by {
      assert |miss| == 7;
    }
  }
}
