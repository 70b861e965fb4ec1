# urlinfo, modelled in Dafny

urlinfo is a small HTTP service that answers one question: is this URL on a
list of known malware URLs? The repository holds two generations of it.

- The current one (`urlinfo.go`, `cmd/urlinfo/main.go`):
  - A URL database with two backends behind one `Lookup`/`Add`/`Load`
    interface. `MapURLDB` keys a map by the URL itself. `ByteMapURLDB` keys
    it by a 16-byte digest: the 64-bit FNV-1a sum of the URL, big-endian, in
    the first 8 bytes.
  - `Load` reads a list file line by line, trims every line and adds it.
  - The HTTP handler cuts the prefix `/urlinfo/1/` off the request URI and
    rejects an empty or '/'-led remainder. It then normalises
    `"http://" + remainder` and answers 400, or 200 with `{"match": …}`.
- The first generation (`src/urlinfo/...`):
  - `parseURL` keeps what follows the third '/' of the checked URL.
  - The handler rebuilds that URL from the request path and the raw query.
  - `URLDB.Lookup` returns the value stored for the URL.

The project is organised as follows.

- `wrappers.dfy`: `Option` and `Result`.
- `gostrings.dfy` (module `GoStrings`):
  - Go strings as byte sequences.
  - The parts of Go's `strings` package the service calls: `SplitN` with a
    one-byte separator (built on `IndexByte` and `Count`), `Join` as its
    inverse, and `TrimSpace` over ASCII white space.
  - `TrimSpace` is written as Go writes it: a forward scan, then a
    backward scan.
- `fnv.dfy` (module `Fnv`): FNV-1a 64 over `bv64`, so that multiplication
  wraps modulo 2^64 exactly as in Go.
- `url_sums.dfy` (module `UrlSums`): the FNV-1a 64 sums of the URLs the
  tests use, worked out three rounds at a time.
- `urlinfo.dfy` (module `UrlInfo`):
  - Both databases as classes over a `map` field, each with a ghost set
    `Added` of every URL added so far.
  - `Valid()` ties the map to `Added`: its keys are the URLs (or their
    digests), and every value is `true`.
  - `Load` is a loop over the lines of a `LineSource`. It is proved against
    the set of trimmed lines (`Ingested`) and the error it must return
    (`LoadOutcome`).
- `server.dfy` (module `Server`): `parseCleanURL` and the handler's
  status/body decision. The normaliser and the database lookup are
  function parameters of `Handle`; `Serve` and `ServeDigests` run the
  handler against the two database classes and are proved to answer as
  `Handle` does with that database's lookup.
- `legacy.dfy` (module `Legacy`): the first generation's `parseURL`, the
  path-and-query rebuild, and the value-based `URLDB.Lookup`.

Where the code and its documentation part ways, the model follows the code:

- `Load` does not skip blank lines. A blank line adds the key "" (see
  `UrlInfo.BlankLineAddsEmptyKey`).
- The tests construct `NewStringMapURLDB`. The code's constructor is
  `NewMapURLDB`, and both name `UrlInfo.MapURLDB.constructor` here.
- The handler writes `{"match": …}`, but its test decodes a field named
  `malware`. The model states the code's body.
- The first generation's `TestParseURLInvalid` (marked TODO) expects
  `parseURL("/urlinfo/1//")` to give "". The code gives "/", which is what
  `Legacy.ParseURLExtraSlash` proves.

## Model

| member | source | states |
|---|---|---|
| Fnv.FoldAppend | urlinfo.go:82-83 | Hashing `a + b` gives the same state as hashing `a`, then continuing with `b`: the hash is a left fold over the bytes |
| Fnv.Sum64Snoc | urlinfo.go:82-83 | One more byte is one more FNV-1a round on the sum: xor the byte in, then multiply by the 64-bit FNV prime modulo 2^64, starting from the offset basis |
| Fnv.KnownSums | urlinfo.go:82 | The sum of "" is the offset basis 0xcbf29ce484222325, and the sum of "a" is the published vector 0xaf63dc4c8601ec8c |
| Fnv.FoldCons | urlinfo.go:83 | Hashing a byte in front of the rest is one round on that byte, then the rest |
| Fnv.KnownSumFoobar | urlinfo.go:82-83 | The sum of "foobar" is the published vector 0x85944171f73967e8 |
| Fnv.FoldThree | urlinfo.go:83 | Three known rounds on three leading bytes fold them at once |
| UrlSums.SumMiss | urlinfo_test.go:33 | The sum of "miss" is 0xda58ffa2a798c0b9 |
| UrlSums.SumEvilFoo | urlinfo_test.go:20 | The sum of "evilfoo.com" is 0x497a61b3441b0346 |
| UrlSums.SumMalware | urlinfo_test.go:21 | The sum of "malware.com" is 0xda1e81e5d5191f83 |
| UrlSums.SumFooEvil | urlinfo_test.go:22 | The sum of "foo.com/evil" is 0xf84b18ff58ec14b7 |
| UrlInfo.BigEndianRoundTrip | urlinfo.go:84 | Reading back the 8 bytes that `Sum` appends, most significant first, gives the 64-bit sum |
| UrlInfo.Hash | urlinfo.go:81-86 | The first 8 bytes of the digest, read big-endian, are the FNV-1a 64 sum of the URL's bytes; the last 8 bytes are zero |
| UrlInfo.HashEqual | urlinfo.go:81-86 | Two URLs have the same digest exactly when they have the same FNV-1a sum |
| UrlInfo.MapURLDB.constructor | urlinfo.go:23-28 | A new database has added nothing, and every lookup answers false |
| UrlInfo.MapURLDB.Lookup | urlinfo.go:31-34 | True exactly when this very URL was added |
| UrlInfo.MapURLDB.Add | urlinfo.go:37-39 | The URL joins the added set and nothing else does, so every other lookup keeps its answer; its own lookup is true; adding a URL twice leaves the map as after once |
| UrlInfo.MapURLDB.Load | urlinfo.go:42-59 | The added set grows by exactly the trimmed lines; the error is the open error, else the scanner's error, else none; an unopenable file leaves the map unchanged; lines read before a read error stay added |
| UrlInfo.TrimmedLines | urlinfo.go:49-51 | A key is loaded exactly when some line trims to it |
| UrlInfo.TrimmedLinesSnoc | urlinfo.go:49-52 | One more scanned line adds its trimmed text and nothing else, in the loop's order |
| UrlInfo.BlankLineAddsEmptyKey | urlinfo.go:50-51 | A line of white space only is not skipped: it adds the empty key |
| UrlInfo.Ingested | urlinfo.go:43-52 | An unopenable file adds nothing; an opened one adds exactly the scanned lines, trimmed: a key is added if and only if some line trims to it |
| UrlInfo.LoadOutcome | urlinfo.go:43-58 | No error exactly when the file opens and the scanner reports no error; the open error exactly when it does not open |
| UrlInfo.ByteMapURLDB.constructor | urlinfo.go:73-78 | A new database has added nothing, and every lookup answers false |
| UrlInfo.ByteMapURLDB.Lookup | urlinfo.go:89-92 | True exactly when some added URL has the same FNV-1a sum, so an added URL is always found |
| UrlInfo.ByteMapURLDB.Add | urlinfo.go:95-97 | The URL joins the added set; its own lookup is true; adding it twice leaves the map as after once |
| UrlInfo.ByteMapURLDB.Load | urlinfo.go:100-117 | As MapURLDB.Load: the added set grows by the trimmed lines, the error is chosen the same way, and an unopenable file changes nothing |
| UrlInfo.DigestsAdd | urlinfo.go:96 | Adding a URL adds exactly its digest to the keys, and a digest already present stays present |
| UrlInfo.CoversAdd | urlinfo.go:89-97 | After one Add, a URL is found exactly when it was found before or shares the added URL's sum, so colliding URLs become hits too |
| UrlInfo.StringMapLookupScenario | urlinfo_test.go:46-50 | After adding the three test URLs, "evilfoo.com" is a hit and "miss" is not |
| UrlInfo.LoadValidScenario | urlinfo_test.go:52-61 | Loading a file that reads cleanly gives no error; a URL some line trims to is then a hit, and a URL no line trims to is a miss |
| UrlInfo.LoadMissingFileScenario | urlinfo_test.go:63-70 | Loading a file that cannot be opened fails and adds nothing |
| UrlInfo.NotCoveredByThree | urlinfo.go:89-92 | A URL whose sum differs from each of three URLs' sums is not found among them |
| UrlInfo.TestURLsMissCovered | urlinfo_test.go:19-36 | "miss" shares its sum with none of the three test URLs, so the digest database does not find it among them |
| UrlInfo.ByteMapLookupScenario | urlinfo_test.go:74-78 | After adding the three test URLs to the digest database, "evilfoo.com" is a hit and "miss" is not |
| UrlInfo.ByteMapLoadValidScenario | urlinfo_test.go:80-89 | Loading a file that reads cleanly into the digest database gives no error; a URL some line trims to is then a hit, and a URL whose sum no trimmed line shares is a miss |
| UrlInfo.ByteMapLoadMissingFileScenario | urlinfo_test.go:91-98 | Loading a file that cannot be opened into the digest database fails and adds nothing |
| GoStrings.TrimSpace | urlinfo.go:50 | Neither the first nor the last byte of the result is white space |
| GoStrings.SkipSpaceExact | urlinfo.go:50 | The forward scan stops at index k exactly when everything before k (from the start) is white space and the byte at k is not |
| GoStrings.SkipSpaceBackExact | urlinfo.go:50 | The backward scan stops at index k exactly when everything from k on is white space and the byte before k is not, or k is the lower bound |
| GoStrings.TrimSpaceShape | urlinfo.go:50 | The input is white space, then the result, then white space |
| GoStrings.TrimSpacePadded | urlinfo.go:50 | Trimming white space padding off a trimmed string gives that string back, so the result is determined by the shape above |
| GoStrings.TrimSpaceIdempotent | urlinfo.go:50 | Trimming twice is trimming once |
| GoStrings.TrimSpaceBlank | urlinfo.go:50 | A string of white space trims to "" |
| GoStrings.IndexByteFirst | src/urlinfo/cmd/urlinfo/main.go:13 | The byte search finds nothing exactly when the byte does not occur; otherwise no copy of it comes before the index found |
| GoStrings.SplitN | src/urlinfo/cmd/urlinfo/main.go:13 | SplitN with n > 0 yields between 1 and n parts, and none for n = 0 |
| GoStrings.JoinSplitN | src/urlinfo/cmd/urlinfo/main.go:13 | Joining the parts with the separator gives back the input: no byte is lost or moved |
| GoStrings.SplitNPartsHaveNoSeparator | src/urlinfo/cmd/urlinfo/main.go:13 | Every part but the last is free of the separator |
| GoStrings.SplitNShortLast | src/urlinfo/cmd/urlinfo/main.go:13-14 | When fewer than n parts come back, the last one is the unsplit remainder: it holds no separator |
| GoStrings.SplitNCount | src/urlinfo/cmd/urlinfo/main.go:13-14 | SplitN yields all n parts exactly when the input holds at least n - 1 separators |
| GoStrings.SplitNLast | src/urlinfo/cmd/urlinfo/main.go:13-18 | When all n parts are there, the last one is everything after the (n-1)-th separator, later separators included |
| GoStrings.SuffixAfterUnique | src/urlinfo/cmd/urlinfo/main.go:18 | What follows the k-th separator is unique, so the parse result is pinned down by the input |
| Server.ParseCleanURL | cmd/urlinfo/main.go:21-40 | Fails with "urlinfo: Invalid URL" exactly when the fragment is empty or starts with '/'; fails with "urlinfo: Could not normalize URL" exactly when the normaliser rejects "http://" + fragment; otherwise returns the normaliser's output unchanged |
| Server.PrefixNotInspected | cmd/urlinfo/main.go:14-22 | The first 11 bytes are cut off by length: two URIs that differ only there parse alike |
| Server.RejectedBeforeNormalizing | cmd/urlinfo/main.go:24-27 | A rejected fragment fails the same way whatever the normaliser does |
| Server.NormalizerSeesSchemeAndFragment | cmd/urlinfo/main.go:29-32 | The normaliser's answer on "http://" + fragment is the only thing it contributes |
| Server.InvalidRequests | cmd/urlinfo/main_test.go:63-76 | "", "/" and "/index.html" after the prefix are "urlinfo: Invalid URL" |
| Server.MatchBodyDistinct | cmd/urlinfo/main.go:60 | The two JSON bodies differ from each other and from "400: Bad Request" |
| Server.Handle | cmd/urlinfo/main.go:43-62 | Status is 400 or 200; 400 with body "400: Bad Request" exactly when parsing fails; otherwise 200 with `{"match": true}` or `{"match": false}` as the lookup of the clean URL says |
| Server.BadRequestSkipsLookup | cmd/urlinfo/main.go:46-52 | On a parse error the database is not consulted: any two lookups give the same 400 answer |
| Server.AnswerReportsLookup | cmd/urlinfo/main.go:55-60 | A 200 body with verdict `ok` means the URL parsed and the lookup returned `ok` |
| Server.Serve | cmd/urlinfo/main.go:43-62 | The handler over a string-keyed database answers exactly as Handle does with that database's lookup (presence in its added set) |
| Server.ServeDigests | cmd/urlinfo/main.go:43-62 | The handler over the digest-keyed database the service starts with answers exactly as Handle does with "some added URL has the same FNV-1a sum" as its lookup |
| Server.HandlerScenario | cmd/urlinfo/main_test.go:123-124 | For a normaliser that leaves "http://evilfoo.com" and "http://miss" as they are and a lookup that finds the first but not the second, "evilfoo.com" answers a match and "miss" does not |
| Server.HandlerValidScenario | cmd/urlinfo/main_test.go:115-125 | After adding the three test URLs to a string-keyed database, the handler answers a match for "evilfoo.com" and no match for "miss" |
| Server.HandlerInvalidScenario | cmd/urlinfo/main_test.go:127-143 | The three invalid requests are answered 400, whatever the database holds |
| Legacy.ParseURL | src/urlinfo/cmd/urlinfo/main.go:12-19 | Fails with "invalid url request" exactly when the URL has fewer than three '/'; otherwise returns what follows the third '/' |
| Legacy.ParseURLAnySegments | src/urlinfo/cmd/urlinfo/main.go:13-18 | The first three segments are not checked: any three slash-free segments, each followed by '/', give back the rest |
| Legacy.ParseURLRoundTrip | src/urlinfo/cmd/urlinfo/main_test.go:42-55 | parseURL("/urlinfo/1/" + s) is s, for every s |
| Legacy.ParseURLEmpty | src/urlinfo/cmd/urlinfo/main_test.go:57-66 | The bare prefix parses to "" |
| Legacy.ParseURLExtraSlash | src/urlinfo/cmd/urlinfo/main_test.go:68-79 | "/urlinfo/1//" parses to "/" (the TODO test expects "") |
| Legacy.ParseURLTooFewSlashes | src/urlinfo/cmd/urlinfo/main.go:13-16 | "/urlinfo/1", with two slashes, is an error |
| Legacy.CheckURL | src/urlinfo/cmd/urlinfo/main.go:25-29 | The path alone when the raw query is empty; otherwise the path, '?' and the raw query |
| Legacy.SplitQuery | src/urlinfo/cmd/urlinfo/main.go:25-29 | The inverse of the rebuild, as net/url splits a request target: a URL without '?' is all path with an empty query; otherwise the path is what comes before the first '?' and the query is everything after it |
| Legacy.CheckURLSplits | src/urlinfo/cmd/urlinfo/main.go:25-29 | For a path without '?', splitting the rebuilt URL at its first '?' gives back path and raw query |
| Legacy.HandlerChecksPathAndQuery | src/urlinfo/cmd/urlinfo/main.go:25-32 | For a path under the prefix, parseURL of the rebuilt URL is the rest of the path, plus '?' and the query when there is one |
| Legacy.URLDB.Lookup | src/urlinfo/urlinfo.go:9-11 | The stored value for a stored URL, and false for any other |
| Legacy.ValueLookupMatchesPresence | src/urlinfo/urlinfo.go:9-11 | On a map holding only `true`, the value lookup agrees with presence; a key stored as `false` looks up false |
| Legacy.LookupTable | src/urlinfo/urlinfo_test.go:7-27 | With the test table, "malware.com" is a hit and "foo.com" a miss |

## Left out

- The URL normaliser (`purell.NormalizeURLString`) is a foreign library. It is a parameter of `Server.ParseCleanURL`, so the normalised outputs that `TestParseURLValid` expects are not modelled.
- The file system and `bufio.Scanner` are replaced by `LineSource`: whether the file opens, the lines the scanner yields, and whether it then reports a read error. Line splitting and the scanner's token-size limit are not modelled.
- HTTP plumbing is not modelled: header writing, `http.HandleFunc`, `ListenAndServe`, `flag` parsing, `os.Exit`, logging and both `main` functions. Only the status code and body are modelled.
- The first-generation handler goes on to look up and write 200 after it has written a 400. Its status and body are not modelled; its path-and-query rebuild and `parseURL` are.
- Legacy.ParseURL: on failure the model returns the error alone. Go also returns "" with it, which only the first-generation handler's fall-through (left out above) goes on to use.
- Server.ParseCleanURL: on failure the model returns the error alone. The Go function also returns a `cleanURL` ("" on the invalid-URL path), which the handler only logs.
- Server.ParseCleanURL: a request URI shorter than the 11-byte prefix is a precondition, since the Go slice would panic.
- GoStrings.TrimSpace: white space is the ASCII set (space, tab, newline, vertical tab, form feed, carriage return). Go's Unicode white space outside ASCII (U+0085, U+00A0 and the multi-byte classes) is not modelled.
- GoStrings.SplitN: only n >= 0 and a one-byte separator are modelled, which is all `parseURL` uses.
- Fnv: no collision-freedom is claimed. ByteMapURLDB lookups are stated through equality of sums (`Covers`), and collisions count as hits.
- Fnv.KnownSums: of the published FNV-1a test vectors only those for "", "a" and "foobar" (`Fnv.KnownSumFoobar`) are stated; the sums the urlinfo tests depend on are stated in `UrlSums`.
- UrlInfo.LoadValidScenario, UrlInfo.ByteMapLoadValidScenario: the list file testdata/malware_mini.txt is not part of this model, so the scenarios take its lines as a parameter with the facts the tests rely on (some line trims to the hit URL; no line trims to the missing URL or, for the digest database, shares its sum).
- UrlInfo.MapURLDB.Load: "every loaded line then looks up true" is not written on `Load` itself. It follows from `Added == old(Added) + Ingested(src)` together with `Lookup`'s contract, as `UrlInfo.LoadValidScenario` shows.
- Both databases are values with a map inside, and Go's value receivers share that map. The model uses one object per database, which is the same observable behaviour, but copies of a database sharing one map are not modelled.
- Concurrency: the code has none, and `http` may call the handler concurrently; concurrent access to the map is not modelled.
- Benchmarks and random key generation in the tests are not modelled.
