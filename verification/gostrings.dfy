/**
 * The parts of Go's `strings` package that the URL service relies on.
 *
 * A Go string is a sequence of bytes. A byte is shown here as the character
 * with the same code (the Latin-1 reading), so that ASCII literals such as
 * "http://" can be written as ordinary strings.
 */
module GoStrings {
  import opened Wrappers

  type Byte = c: char | c as int < 256
  type GoString = seq<Byte>

  /** No byte of `s` is `b`. */
  predicate Lacks(s: GoString, b: Byte) {
    forall k :: 0 <= k < |s| ==> s[k] != b
  }

  /** strings.Count for a one-byte separator: how often `b` occurs in `s`. */
  function Count(s: GoString, b: Byte): (n: nat)
    ensures n <= |s|
  {
    if s == [] then 0 else (if s[0] == b then 1 else 0) + Count(s[1..], b)
  }

  /** `b` occurs nowhere in `s` exactly when its count is zero. */
  lemma {:induction false} CountZero(s: GoString, b: Byte)
    ensures Count(s, b) == 0 <==> Lacks(s, b)
  {
    if s != [] {
      CountZero(s[1..], b);
      assert Lacks(s, b) <==> s[0] != b && Lacks(s[1..], b) by {
        assert forall k :: 0 < k < |s| ==> s[k] == s[1..][k - 1];
      }
    }
  }

  lemma {:induction false} CountAppend(s: GoString, t: GoString, b: Byte)
    ensures Count(s + t, b) == Count(s, b) + Count(t, b)
  {
    if s == [] {
      assert s + t == t;
    } else {
      assert (s + t)[1..] == s[1..] + t;
      CountAppend(s[1..], t, b);
    }
  }

  /** Cutting `s` just after its first `b` removes exactly one `b` from the count. */
  lemma CountAtFirst(s: GoString, b: Byte, i: nat)
    requires i < |s| && s[i] == b && Count(s[..i], b) == 0
    ensures Count(s, b) == 1 + Count(s[i + 1..], b)
  {
    assert s == s[..i] + ([b] + s[i + 1..]);
    CountAppend(s[..i], [b] + s[i + 1..], b);
  }

  /** strings.IndexByte: the index of the first `b` in `s`, if any. */
  function IndexByte(s: GoString, b: Byte): (r: Option<nat>)
    ensures r.Some? ==> r.value < |s| && s[r.value] == b
  {
    if s == [] then None
    else if s[0] == b then Some(0)
    else match IndexByte(s[1..], b)
      case None => None
      case Some(i) => Some(i + 1)
  }

  /** IndexByte finds nothing exactly when `b` does not occur, and otherwise the first `b`. */
  lemma {:induction false} IndexByteFirst(s: GoString, b: Byte)
    ensures IndexByte(s, b).None? <==> Count(s, b) == 0
    ensures IndexByte(s, b).Some? ==> Count(s[..IndexByte(s, b).value], b) == 0
  {
    if s != [] && s[0] != b {
      IndexByteFirst(s[1..], b);
      match IndexByte(s[1..], b)
      case None =>
      case Some(i) =>
        assert s[..i + 1] == [s[0]] + s[1..][..i];
    }
  }

  /** Cutting out the byte at `i` and putting it back gives `s` again. */
  lemma CutAround(s: GoString, i: nat)
    requires i < |s|
    ensures s[..i] + [s[i]] + s[i + 1..] == s
  {
    assert s[..i] + [s[i]] == s[..i + 1];
  }

  /** strings.Join for a one-byte separator. */
  function Join(parts: seq<GoString>, sep: Byte): (s: GoString)
    decreases |parts|
  {
    if |parts| == 0 then []
    else if |parts| == 1 then parts[0]
    else parts[0] + [sep] + Join(parts[1..], sep)
  }

  lemma JoinCons(p: GoString, rest: seq<GoString>, sep: Byte)
    requires rest != []
    ensures Join([p] + rest, sep) == p + [sep] + Join(rest, sep)
  {
    assert ([p] + rest)[1..] == rest;
  }

  /**
   * strings.SplitN(s, sep, n) for a one-byte separator and n >= 0: n == 0
   * gives no parts; otherwise `s` is cut at its first n - 1 separators, and
   * the last part is the unsplit remainder.
   */
  function SplitN(s: GoString, sep: Byte, n: nat): (parts: seq<GoString>)
    ensures n == 0 ==> parts == []
    ensures n > 0 ==> 1 <= |parts| <= n
    decreases n
  {
    if n == 0 then []
    else if n == 1 then [s]
    else match IndexByte(s, sep)
      case None => [s]
      case Some(i) => [s[..i]] + SplitN(s[i + 1..], sep, n - 1)
  }

  /** When SplitN cuts at all, it cuts at the first separator and splits the rest into n - 1 parts. */
  lemma SplitNAtFirst(s: GoString, sep: Byte, n: nat) returns (i: nat)
    requires n > 1 && |SplitN(s, sep, n)| > 1
    ensures i < |s| && s[i] == sep && Count(s[..i], sep) == 0
    ensures SplitN(s, sep, n) == [s[..i]] + SplitN(s[i + 1..], sep, n - 1)
  {
    i := IndexByte(s, sep).value;
    IndexByteFirst(s, sep);
  }

  /** When SplitN does not cut, its one part is the whole string. */
  lemma SplitNWhole(s: GoString, sep: Byte, n: nat)
    requires |SplitN(s, sep, n)| == 1
    ensures SplitN(s, sep, n) == [s]
    ensures n == 1 || Count(s, sep) == 0
  {
    IndexByteFirst(s, sep);
  }

  /** Join undoes SplitN: no byte of `s` is lost or moved. */
  lemma {:induction false} JoinSplitN(s: GoString, sep: Byte, n: nat)
    requires n > 0
    ensures Join(SplitN(s, sep, n), sep) == s
    decreases n
  {
    if |SplitN(s, sep, n)| == 1 {
      SplitNWhole(s, sep, n);
      JoinOne(s, sep, SplitN(s, sep, n));
    } else {
      var i := SplitNAtFirst(s, sep, n);
      JoinSplitN(s[i + 1..], sep, n - 1);
      JoinAtCut(s, sep, i, SplitN(s, sep, n), SplitN(s[i + 1..], sep, n - 1));
    }
  }

  lemma JoinOne(s: GoString, sep: Byte, parts: seq<GoString>)
    requires parts == [s]
    ensures Join(parts, sep) == s
  {
  }

  /** JoinSplitN's step, stated for any list of parts cut at a separator. */
  lemma JoinAtCut(s: GoString, sep: Byte, i: nat, parts: seq<GoString>, tail: seq<GoString>)
    requires i < |s| && s[i] == sep
    requires parts == [s[..i]] + tail && tail != [] && Join(tail, sep) == s[i + 1..]
    ensures Join(parts, sep) == s
  {
    JoinCons(s[..i], tail, sep);
    CutAround(s, i);
  }

  /** When SplitN returns fewer than n parts, the last one is the unsplit remainder: it holds no separator. */
  lemma {:induction false} SplitNShortLast(s: GoString, sep: Byte, n: nat)
    requires n >= 1 && |SplitN(s, sep, n)| < n
    ensures Lacks(SplitN(s, sep, n)[|SplitN(s, sep, n)| - 1], sep)
    decreases n
  {
    match IndexByte(s, sep)
    case None =>
      IndexByteFirst(s, sep);
      CountZero(s, sep);
    case Some(i) =>
      SplitNShortLast(s[i + 1..], sep, n - 1);
  }

  /** Every part but the last is free of the separator. */
  lemma {:induction false} SplitNPartsHaveNoSeparator(s: GoString, sep: Byte, n: nat, j: nat)
    requires j + 1 < |SplitN(s, sep, n)|
    ensures Lacks(SplitN(s, sep, n)[j], sep)
    decreases n
  {
    var i := SplitNAtFirst(s, sep, n);
    PartOfCons(s[..i], SplitN(s, sep, n), SplitN(s[i + 1..], sep, n - 1), j);
    if j > 0 {
      SplitNPartsHaveNoSeparator(s[i + 1..], sep, n - 1, j - 1);
    } else {
      CountZero(s[..i], sep);
    }
  }

  /** The j-th part of a list of parts with a head in front. */
  lemma PartOfCons(head: GoString, parts: seq<GoString>, tail: seq<GoString>, j: nat)
    requires parts == [head] + tail && j < |parts|
    ensures j == 0 ==> parts[j] == head
    ensures j > 0 ==> parts[j] == tail[j - 1]
  {
  }

  /**
   * `t` is what follows the k-th occurrence of `b` in `s`: `s` ends in `t`,
   * the part before `t` holds exactly k copies of `b` and (for k > 0) ends
   * in one.
   */
  ghost predicate SuffixAfter(s: GoString, b: Byte, k: nat, t: GoString) {
    && |t| <= |s|
    && s[|s| - |t|..] == t
    && Count(s[..|s| - |t|], b) == k
    && (k == 0 ==> |t| == |s|)
    && (k > 0 ==> s[|s| - |t| - 1] == b)
  }

  /** A longer prefix that ends in `b` holds more copies of `b`. */
  lemma CountPrefixGrows(s: GoString, b: Byte, i: nat, j: nat)
    requires i < j <= |s| && s[j - 1] == b
    ensures Count(s[..i], b) < Count(s[..j], b)
  {
    var m := s[i..j];
    assert s[..j] == s[..i] + m;
    assert m[|m| - 1] == b;
    CountZero(m, b);
    CountAppend(s[..i], m, b);
  }

  /** What follows the k-th separator is determined by s, b and k. */
  lemma SuffixAfterUnique(s: GoString, b: Byte, k: nat, t1: GoString, t2: GoString)
    requires SuffixAfter(s, b, k, t1) && SuffixAfter(s, b, k, t2)
    ensures t1 == t2
  {
    var i1, i2 := |s| - |t1|, |s| - |t2|;
    if i1 < i2 {
      CountPrefixGrows(s, b, i1, i2);
    } else if i2 < i1 {
      CountPrefixGrows(s, b, i2, i1);
    }
  }

  /**
   * If `s` has its first separator at `i`, what follows the k-th separator
   * after `i` follows the (k+1)-th separator of `s`.
   */
  lemma SuffixAfterFirst(s: GoString, sep: Byte, i: nat, k: nat, t: GoString)
    requires i < |s| && s[i] == sep && Count(s[..i], sep) == 0
    requires k >= 1 && SuffixAfter(s[i + 1..], sep, k - 1, t)
    ensures SuffixAfter(s, sep, k, t)
  {
    var rest := s[i + 1..];
    var p := s[..|s| - |t|];
    assert p[..i] == s[..i];
    assert p[i + 1..] == rest[..|rest| - |t|];
    CountAtFirst(p, sep, i);
    assert s[|s| - |t|..] == rest[|rest| - |t|..];
    if k > 1 {
      assert s[|s| - |t| - 1] == rest[|rest| - |t| - 1];
    }
  }

  /** SplitN returns all n parts exactly when there are at least n - 1 separators. */
  lemma {:induction false} SplitNCount(s: GoString, sep: Byte, n: nat)
    requires n >= 1
    ensures |SplitN(s, sep, n)| == n <==> Count(s, sep) >= n - 1
    decreases n
  {
    if |SplitN(s, sep, n)| == 1 {
      SplitNWhole(s, sep, n);
    } else {
      var i := SplitNAtFirst(s, sep, n);
      SplitNCount(s[i + 1..], sep, n - 1);
      CountAtFirst(s, sep, i);
    }
  }

  /** When SplitN returns all n parts, its last part is what follows the (n-1)-th separator. */
  lemma {:induction false} SplitNLast(s: GoString, sep: Byte, n: nat)
    requires n >= 1 && |SplitN(s, sep, n)| == n
    ensures SuffixAfter(s, sep, n - 1, SplitN(s, sep, n)[n - 1])
    decreases n
  {
    if n == 1 {
      SuffixAfterWhole(s, sep);
    } else {
      var i := SplitNAtFirst(s, sep, n);
      SplitNLast(s[i + 1..], sep, n - 1);
      LastAfterFirstCut(s, sep, n, i, SplitN(s, sep, n), SplitN(s[i + 1..], sep, n - 1));
    }
  }

  /** The whole of `s` is what follows its 0-th separator. */
  lemma SuffixAfterWhole(s: GoString, b: Byte)
    ensures SuffixAfter(s, b, 0, s)
  {
    assert s[..0] == [];
  }

  /** SplitNLast's step, stated for any list of parts cut at the first separator. */
  lemma LastAfterFirstCut(s: GoString, sep: Byte, n: nat, i: nat, parts: seq<GoString>, tail: seq<GoString>)
    requires n > 1 && i < |s| && s[i] == sep && Count(s[..i], sep) == 0
    requires parts == [s[..i]] + tail && |parts| == n
    requires SuffixAfter(s[i + 1..], sep, n - 1 - 1, tail[n - 1 - 1])
    ensures SuffixAfter(s, sep, n - 1, parts[n - 1])
  {
    assert parts[n - 1] == tail[n - 1 - 1];
    SuffixAfterFirst(s, sep, i, n - 1, tail[n - 1 - 1]);
  }

  /** Go's ASCII white space (tab, newline, vertical tab, form feed, carriage return, space): the bytes strings.TrimSpace strips. */
  predicate IsSpace(b: Byte) {
    b == ' ' || 9 <= b as int <= 13
  }

  ghost predicate AllSpace(s: GoString) {
    forall k :: 0 <= k < |s| ==> IsSpace(s[k])
  }

  /** Neither the first nor the last byte is white space. */
  ghost predicate Trimmed(s: GoString) {
    s == [] || (!IsSpace(s[0]) && !IsSpace(s[|s| - 1]))
  }

  /** TrimSpace's first loop: from `i`, step over white space; the index of the first other byte, or |s|. */
  function SkipSpace(s: GoString, i: nat): (j: nat)
    requires i <= |s|
    ensures i <= j <= |s|
    ensures j == |s| || !IsSpace(s[j])
    decreases |s| - i
  {
    if i < |s| && IsSpace(s[i]) then SkipSpace(s, i + 1) else i
  }

  /** TrimSpace's second loop: from `j` back towards `start`, step over white space. */
  function SkipSpaceBack(s: GoString, start: nat, j: nat): (k: nat)
    requires start <= j <= |s|
    ensures start <= k <= j
    ensures k == start || !IsSpace(s[k - 1])
    decreases j
  {
    if j > start && IsSpace(s[j - 1]) then SkipSpaceBack(s, start, j - 1) else j
  }

  /** Every byte of `s` from index `i` up to (not including) `j` is white space. */
  ghost predicate SpaceBetween(s: GoString, i: nat, j: nat)
    requires i <= j <= |s|
  {
    forall k :: i <= k < j ==> IsSpace(s[k])
  }

  lemma SpaceBetweenSlice(s: GoString, i: nat, j: nat)
    requires i <= j <= |s|
    ensures SpaceBetween(s, i, j) <==> AllSpace(s[i..j])
  {
    assert forall k :: i <= k < j ==> s[k] == s[i..j][k - i];
  }

  /** What SkipSpace steps over is white space, and it stops at the first byte that is not. */
  lemma {:induction false} SkipSpaceExact(s: GoString, i: nat, k: nat)
    requires i <= k <= |s|
    ensures SpaceBetween(s, i, k) && (k == |s| || !IsSpace(s[k])) <==> SkipSpace(s, i) == k
    decreases |s| - i
  {
    if i < |s| && IsSpace(s[i]) && i < k {
      SkipSpaceExact(s, i + 1, k);
    }
  }

  /** What SkipSpaceBack steps over is white space, and it stops just after the last byte that is not. */
  lemma {:induction false} SkipSpaceBackExact(s: GoString, start: nat, j: nat, k: nat)
    requires start <= k <= j <= |s|
    ensures SpaceBetween(s, k, j) && (k == start || !IsSpace(s[k - 1])) <==> SkipSpaceBack(s, start, j) == k
    decreases j
  {
    if j > start && IsSpace(s[j - 1]) && k < j {
      SkipSpaceBackExact(s, start, j - 1, k);
    }
  }

  /**
   * strings.TrimSpace: `s` without its leading and trailing white space,
   * so neither the first nor the last byte of the result is white space.
   */
  function TrimSpace(s: GoString): (r: GoString)
    ensures Trimmed(r)
  {
    var start := SkipSpace(s, 0);
    var stop := SkipSpaceBack(s, start, |s|);
    s[start..stop]
  }

  /** The result of TrimSpace sits inside `s` between two runs of white space. */
  lemma TrimSpaceShape(s: GoString)
    ensures exists pre, post :: s == pre + TrimSpace(s) + post && AllSpace(pre) && AllSpace(post)
  {
    var start, stop := TrimSpaceBounds(s);
    SpacedAround(s, start, stop);
    var pre, post := s[..start], s[stop..];
    assert s == pre + TrimSpace(s) + post && AllSpace(pre) && AllSpace(post);
  }

  /** Where TrimSpace cuts: everything before `start` and from `stop` on is white space. */
  lemma TrimSpaceBounds(s: GoString) returns (start: nat, stop: nat)
    ensures start <= stop <= |s| && TrimSpace(s) == s[start..stop]
    ensures SpaceBetween(s, 0, start) && SpaceBetween(s, stop, |s|)
  {
    start := SkipSpace(s, 0);
    stop := SkipSpaceBack(s, start, |s|);
    SkipSpaceExact(s, 0, start);
    SkipSpaceBackExact(s, start, |s|, stop);
  }

  /** A string with white space before `start` and from `stop` on is that space around s[start..stop]. */
  lemma SpacedAround(s: GoString, start: nat, stop: nat)
    requires start <= stop <= |s| && SpaceBetween(s, 0, start) && SpaceBetween(s, stop, |s|)
    ensures s == s[..start] + s[start..stop] + s[stop..] && AllSpace(s[..start]) && AllSpace(s[stop..])
  {
    SpaceBetweenSlice(s, 0, start);
    SpaceBetweenSlice(s, stop, |s|);
    assert s[0..start] == s[..start] && s[stop..|s|] == s[stop..];
  }

  /**
   * TrimSpace is determined by its contract: padding a trimmed string with
   * white space on both sides and trimming gives it back.
   */
  lemma TrimSpacePadded(pre: GoString, x: GoString, post: GoString)
    requires AllSpace(pre) && AllSpace(post) && Trimmed(x)
    ensures TrimSpace(pre + x + post) == x
  {
    var s := pre + x + post;
    if x == [] {
      assert SpaceBetween(s, 0, |s|) by {
        assert forall m :: 0 <= m < |s| ==> s[m] == if m < |pre| then pre[m] else post[m - |pre|];
      }
      SkipSpaceExact(s, 0, |s|);
      SkipSpaceBackExact(s, |s|, |s|, |s|);
      assert s[|s|..|s|] == x;
    } else {
      var a, b := |pre|, |pre| + |x|;
      assert s[0..a] == pre && s[a] == x[0];
      SpaceBetweenSlice(s, 0, a);
      SkipSpaceExact(s, 0, a);
      assert s[b..|s|] == post && s[b - 1] == x[|x| - 1];
      SpaceBetweenSlice(s, b, |s|);
      SkipSpaceBackExact(s, a, |s|, b);
      assert s[a..b] == x;
    }
  }

  lemma TrimSpaceIdempotent(s: GoString)
    ensures TrimSpace(TrimSpace(s)) == TrimSpace(s)
  {
    var r := TrimSpace(s);
    assert [] + r + [] == r;
    TrimSpacePadded([], r, []);
  }

  /** A line of white space only trims to the empty string. */
  lemma TrimSpaceBlank(s: GoString)
    requires AllSpace(s)
    ensures TrimSpace(s) == []
  {
    assert s + [] + [] == s;
    TrimSpacePadded(s, [], []);
  }
}
