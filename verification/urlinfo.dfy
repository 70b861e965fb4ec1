/**
 * The malware-URL databases of package urlinfo (urlinfo.go).
 *
 * MapURLDB keys its map by the URL itself; ByteMapURLDB keys it by a
 * 16-byte digest of the URL, so two URLs with the same 64-bit FNV-1a sum
 * are one entry. Both store `true` for every key and answer a lookup by key
 * presence. Load reads a URL list one line at a time; the file system and
 * bufio.Scanner are replaced by a `LineSource` value that says whether the
 * file could be opened, which lines the scanner yielded and whether it
 * stopped on a read error.
 */
module UrlInfo {
  import opened Wrappers
  import opened GoStrings
  import Fnv
  import UrlSums

  /** The eight bytes of a 64-bit word, most significant first (binary.BigEndian.PutUint64). */
  function BigEndian(x: bv64): (r: seq<bv8>)
    ensures |r| == 8
  {
    [(x >> 56) as bv8, ((x >> 48) & 0xff) as bv8, ((x >> 40) & 0xff) as bv8, ((x >> 32) & 0xff) as bv8,
     ((x >> 24) & 0xff) as bv8, ((x >> 16) & 0xff) as bv8, ((x >> 8) & 0xff) as bv8, (x & 0xff) as bv8]
  }

  /** The 64-bit word whose big-endian bytes are `r` (binary.BigEndian.Uint64). */
  function FromBigEndian(r: seq<bv8>): bv64
    requires |r| == 8
  {
    (r[0] as bv64 << 56) | (r[1] as bv64 << 48) | (r[2] as bv64 << 40) | (r[3] as bv64 << 32) |
    (r[4] as bv64 << 24) | (r[5] as bv64 << 16) | (r[6] as bv64 << 8) | r[7] as bv64
  }

  /** Reading back the eight bytes gives the word. */
  lemma BigEndianRoundTrip(x: bv64)
    ensures FromBigEndian(BigEndian(x)) == x
  {
  }

  /** A `[16]byte` array, the key type of ByteMapURLDB. */
  type ByteSum = s: seq<bv8> | |s| == 16
    witness [0, 0, 0, 0, 0, 0, 0, 0, 0, 0, 0, 0, 0, 0, 0, 0]

  /**
   * ByteMapURLDB.Hash: the 64-bit FNV-1a sum of the URL's bytes, copied
   * big-endian (as hash.Hash64's Sum appends it) into the first 8 bytes of
   * a zeroed 16-byte array.
   */
  function Hash(data: GoString): (out: ByteSum)
    ensures FromBigEndian(out[..8]) == Fnv.Sum64(data)
    ensures forall k :: 8 <= k < 16 ==> out[k] == 0
  {
    var sum := BigEndian(Fnv.Sum64(data));
    BigEndianRoundTrip(Fnv.Sum64(data));
    var out := sum + [0, 0, 0, 0, 0, 0, 0, 0];
    assert out[..8] == sum;
    out
  }

  /** Two URLs share a digest exactly when they share an FNV-1a sum. */
  lemma HashEqual(u: GoString, v: GoString)
    ensures Hash(u) == Hash(v) <==> Fnv.Sum64(u) == Fnv.Sum64(v)
  {
    if Hash(u) == Hash(v) {
      assert Hash(u)[..8] == Hash(v)[..8];
    }
  }

  /** What os.Open and bufio.Scanner make of the list file. */
  datatype LineSource =
    | Unopenable
      /** `lines` are the lines Scan yielded; `readFails` says whether Err() reported an error after them. */
    | Opened(lines: seq<GoString>, readFails: bool)

  /** The two errors Load passes on: from os.Open and from scanner.Err. */
  datatype LoadError = OpenFailed | ReadFailed

  /** The keys the lines add: every line, trimmed, blank lines included. */
  function TrimmedLines(lines: seq<GoString>): (keys: set<GoString>)
    ensures forall v :: v in keys <==> exists i :: 0 <= i < |lines| && TrimSpace(lines[i]) == v
  {
    set i | 0 <= i < |lines| :: TrimSpace(lines[i])
  }

  /** Scanning one more line adds its trimmed text and nothing else. */
  lemma TrimmedLinesSnoc(lines: seq<GoString>, i: nat)
    requires i < |lines|
    ensures TrimmedLines(lines[..i + 1]) == TrimmedLines(lines[..i]) + {TrimSpace(lines[i])}
  {
    var longer, shorter := lines[..i + 1], lines[..i];
    forall v | v in TrimmedLines(longer)
      ensures v in TrimmedLines(shorter) + {TrimSpace(lines[i])}
    {
      var j :| 0 <= j < |longer| && TrimSpace(longer[j]) == v;
      if j < i {
        assert shorter[j] == longer[j];
      }
    }
    forall v | v in TrimmedLines(shorter)
      ensures v in TrimmedLines(longer)
    {
      var j :| 0 <= j < |shorter| && TrimSpace(shorter[j]) == v;
      assert longer[j] == shorter[j];
    }
    assert longer[i] == lines[i];
  }

  /** A blank line in the list makes the empty string a key. */
  lemma BlankLineAddsEmptyKey(lines: seq<GoString>, i: nat)
    requires i < |lines| && AllSpace(lines[i])
    ensures [] in TrimmedLines(lines)
  {
    TrimSpaceBlank(lines[i]);
  }

  /** The keys Load adds from a source: nothing when the file does not open, otherwise every scanned line. */
  function Ingested(src: LineSource): (keys: set<GoString>)
    ensures src.Unopenable? ==> keys == {}
    ensures src.Opened? ==> forall v :: v in keys <==> exists i :: 0 <= i < |src.lines| && TrimSpace(src.lines[i]) == v
  {
    match src
    case Unopenable => {}
    case Opened(lines, _) => TrimmedLines(lines)
  }

  /** The error Load returns: the open error, else the scanner's error, else none. */
  function LoadOutcome(src: LineSource): (err: Option<LoadError>)
    ensures err == None <==> src.Opened? && !src.readFails
    ensures err == Some(OpenFailed) <==> src.Unopenable?
  {
    match src
    case Unopenable => Some(OpenFailed)
    case Opened(_, readFails) => if readFails then Some(ReadFailed) else None
  }

  /** Storing `true` under a key of a map that holds only `true`: the key joins, and a key already there changes nothing. */
  lemma StoreTrue<K>(m: map<K, bool>, keys: set<K>, k: K, stored: map<K, bool>)
    requires m.Keys == keys && forall d :: d in m ==> m[d]
    requires stored == m[k := true]
    ensures stored.Keys == keys + {k} && forall d :: d in stored ==> stored[d]
    ensures k in keys ==> stored == m
  {
  }

  /** MapURLDB: the URL is the key. */
  class MapURLDB {
    var db: map<GoString, bool>
    /** Every URL added so far, directly or by Load. */
    ghost var Added: set<GoString>

    ghost predicate Valid()
      reads this
    {
      db.Keys == Added && forall u :: u in db ==> db[u]
    }

    /** NewMapURLDB (the tests call it NewStringMapURLDB): an empty database. */
    constructor ()
      ensures Valid() && Added == {}
      ensures forall v :: !Lookup(v)
    {
      db := map[];
      Added := {};
    }

    /** Lookup: true exactly when the URL was added, byte for byte. */
    function Lookup(url: GoString): (hit: bool)
      reads this
      requires Valid()
      ensures hit <==> url in Added
    {
      url in db
    }

    /** Add: the URL becomes a key and nothing else does, so every other lookup is unchanged. */
    method Add(url: GoString)
      requires Valid()
      modifies this
      ensures Valid() && Added == old(Added) + {url}
      ensures Lookup(url)
      ensures url in old(Added) ==> db == old(db)
    {
      StoreTrue(db, Added, url, db[url := true]);
      db := db[url := true];
      Added := Added + {url};
    }

    /**
     * Load: adds every scanned line, trimmed, then reports the scanner's
     * error if it had one. Lines read before a read error stay added; an
     * unopenable file leaves the database as it was.
     */
    method Load(src: LineSource) returns (err: Option<LoadError>)
      requires Valid()
      modifies this
      ensures Valid() && Added == old(Added) + Ingested(src)
      ensures err == LoadOutcome(src)
      ensures src.Unopenable? ==> db == old(db)
    {
      match src
      case Unopenable =>
        err := Some(OpenFailed);
      case Opened(lines, readFails) =>
        var i := 0;
        while i < |lines|
          invariant 0 <= i <= |lines|
          invariant Valid() && Added == old(Added) + TrimmedLines(lines[..i])
        {
          TrimmedLinesSnoc(lines, i);
          Add(TrimSpace(lines[i]));
          i := i + 1;
        }
        assert lines[..|lines|] == lines;
        err := if readFails then Some(ReadFailed) else None;
    }
  }

  /** The digests of a set of URLs. */
  ghost function Digests(urls: set<GoString>): set<ByteSum> {
    set u | u in urls :: Hash(u)
  }

  /** Adding a URL adds its digest, which is already there when the URL is. */
  lemma DigestsAdd(urls: set<GoString>, url: GoString)
    ensures Digests(urls + {url}) == Digests(urls) + {Hash(url)}
    ensures url in urls ==> Hash(url) in Digests(urls)
  {
  }

  /** Some URL in `urls` has the same FNV-1a sum as `v`, so a digest lookup of `v` finds it. */
  ghost predicate Covers(urls: set<GoString>, v: GoString) {
    exists u :: u in urls && Fnv.Sum64(u) == Fnv.Sum64(v)
  }

  /**
   * After adding `url`, `v` is found exactly when it was found before or
   * shares url's FNV-1a sum: one Add can make URLs other than `url` hit.
   */
  lemma CoversAdd(urls: set<GoString>, url: GoString, v: GoString)
    ensures Covers(urls + {url}, v) <==> Covers(urls, v) || Fnv.Sum64(v) == Fnv.Sum64(url)
  {
    if Covers(urls + {url}, v) && !Covers(urls, v) {
      var u :| u in urls + {url} && Fnv.Sum64(u) == Fnv.Sum64(v);
      assert u == url;
    }
    if Fnv.Sum64(v) == Fnv.Sum64(url) {
      assert url in urls + {url};
    }
  }

  /** ByteMapURLDB: the key is the URL's 16-byte digest. */
  class ByteMapURLDB {
    var db: map<ByteSum, bool>
    /** Every URL added so far, directly or by Load. */
    ghost var Added: set<GoString>

    ghost predicate Valid()
      reads this
    {
      db.Keys == Digests(Added) && forall d :: d in db ==> db[d]
    }

    /** NewByteMapURLDB: an empty database. */
    constructor ()
      ensures Valid() && Added == {}
      ensures forall v :: !Lookup(v)
    {
      db := map[];
      Added := {};
    }

    /**
     * Lookup: true exactly when some added URL has the same digest; an
     * added URL is always found, and so is any URL that collides with one.
     */
    function Lookup(url: GoString): (hit: bool)
      reads this
      requires Valid()
      ensures hit <==> Covers(Added, url)
      ensures url in Added ==> hit
    {
      assert Hash(url) in Digests(Added) <==> Covers(Added, url) by {
        forall u {
          HashEqual(u, url);
        }
      }
      Hash(url) in db
    }

    /** Add: the URL's digest becomes a key (see CoversAdd for what that does to other lookups). */
    method Add(url: GoString)
      requires Valid()
      modifies this
      ensures Valid() && Added == old(Added) + {url}
      ensures Lookup(url)
      ensures url in old(Added) ==> db == old(db)
    {
      DigestsAdd(Added, url);
      StoreTrue(db, Digests(Added), Hash(url), db[Hash(url) := true]);
      db := db[Hash(url) := true];
      Added := Added + {url};
    }

    /** Load: as MapURLDB.Load, with digests as keys. */
    method Load(src: LineSource) returns (err: Option<LoadError>)
      requires Valid()
      modifies this
      ensures Valid() && Added == old(Added) + Ingested(src)
      ensures err == LoadOutcome(src)
      ensures src.Unopenable? ==> db == old(db)
    {
      match src
      case Unopenable =>
        err := Some(OpenFailed);
      case Opened(lines, readFails) =>
        var i := 0;
        while i < |lines|
          invariant 0 <= i <= |lines|
          invariant Valid() && Added == old(Added) + TrimmedLines(lines[..i])
        {
          TrimmedLinesSnoc(lines, i);
          Add(TrimSpace(lines[i]));
          i := i + 1;
        }
        assert lines[..|lines|] == lines;
        err := if readFails then Some(ReadFailed) else None;
    }
  }

  /** TestStringMapLookup: after adding the three bad URLs, the first is found and "miss" is not. */
  method StringMapLookupScenario() returns (hit: bool, miss: bool)
    ensures hit && !miss
  {
    var mdb := new MapURLDB();
    mdb.Add("evilfoo.com");
    mdb.Add("malware.com");
    mdb.Add("foo.com/evil");
    hit := mdb.Lookup("evilfoo.com");
    miss := mdb.Lookup("miss");
  }

  /**
   * TestStringMapLoadValid: a list file that opens and reads to the end,
   * then a lookup of a URL some line trims to (the test's
   * "http://evilfoo.com") hits, and a lookup of a URL no line trims to (the
   * test's "miss") does not.
   */
  method LoadValidScenario(lines: seq<GoString>, hitURL: GoString, missURL: GoString) returns (err: Option<LoadError>, hit: bool, miss: bool)
    requires exists i :: 0 <= i < |lines| && TrimSpace(lines[i]) == hitURL
    requires forall i :: 0 <= i < |lines| ==> TrimSpace(lines[i]) != missURL
    ensures err == None && hit && !miss
  {
    var mdb := new MapURLDB();
    err := mdb.Load(Opened(lines, false));
    hit := mdb.Lookup(hitURL);
    miss := mdb.Lookup(missURL);
  }

  /** TestStringMapLoadInvalid: loading a missing file fails and adds nothing. */
  method LoadMissingFileScenario() returns (failed: bool, found: bool)
    ensures failed && !found
  {
    var mdb := new MapURLDB();
    var err := mdb.Load(Unopenable);
    failed := err.Some?;
    found := mdb.Lookup("evilfoo.com");
  }

  /** No URL of three covers `v` when `v`'s FNV-1a sum differs from all three of theirs. */
  lemma NotCoveredByThree(urls: set<GoString>, a: GoString, b: GoString, c: GoString, v: GoString)
    requires urls == {a, b, c}
    requires Fnv.Sum64(v) != Fnv.Sum64(a) && Fnv.Sum64(v) != Fnv.Sum64(b) && Fnv.Sum64(v) != Fnv.Sum64(c)
    ensures !Covers(urls, v)
  {
  }

  /** The three bad URLs of the tests do not cover "miss": its FNV-1a sum is none of theirs. */
  lemma TestURLsMissCovered(e: GoString, m: GoString, f: GoString, x: GoString)
    requires e == "evilfoo.com" && m == "malware.com" && f == "foo.com/evil" && x == "miss"
    ensures !Covers({e, m, f}, x)
  {
    UrlSums.SumEvilFoo();
    UrlSums.SumMalware();
    UrlSums.SumFooEvil();
    UrlSums.SumMiss();
    NotCoveredByThree({e, m, f}, e, m, f, x);
  }

  /**
   * TestByteMapLookup: after adding the three bad URLs to a digest
   * database, the first is found and "miss" is not.
   */
  method ByteMapLookupScenario(e: GoString, m: GoString, f: GoString, x: GoString) returns (hit: bool, miss: bool)
    requires e == "evilfoo.com" && m == "malware.com" && f == "foo.com/evil" && x == "miss"
    ensures hit && !miss
  {
    TestURLsMissCovered(e, m, f, x);
    var bdb := new ByteMapURLDB();
    bdb.Add(e);
    bdb.Add(m);
    bdb.Add(f);
    hit := bdb.Lookup(e);
    miss := bdb.Lookup(x);
  }

  /**
   * TestByteMapLoadValid: as LoadValidScenario, on the digest database; the
   * URL that must miss shares its FNV-1a sum with no trimmed line.
   */
  method ByteMapLoadValidScenario(lines: seq<GoString>, hitURL: GoString, missURL: GoString) returns (err: Option<LoadError>, hit: bool, miss: bool)
    requires exists i :: 0 <= i < |lines| && TrimSpace(lines[i]) == hitURL
    requires forall i :: 0 <= i < |lines| ==> Fnv.Sum64(TrimSpace(lines[i])) != Fnv.Sum64(missURL)
    ensures err == None && hit && !miss
  {
    var bdb := new ByteMapURLDB();
    err := bdb.Load(Opened(lines, false));
    hit := bdb.Lookup(hitURL);
    miss := bdb.Lookup(missURL);
  }

  /** TestByteMapLoadInvalid: loading a missing file into a digest database fails and adds nothing. */
  method ByteMapLoadMissingFileScenario() returns (failed: bool, found: bool)
    ensures failed && !found
  {
    var bdb := new ByteMapURLDB();
    var err := bdb.Load(Unopenable);
    failed := err.Some?;
    found := bdb.Lookup("evilfoo.com");
  }
}
