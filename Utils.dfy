/**
 * AXUtils: SplitString, Min, Max and AssertPtrReturnRef.
 */
module Utils {
  import opened Options

  /**
   * std::string::substr(pos, count): the text from pos, clamped to the end of
   * the string; pos past the end throws, so it is a precondition here.
   */
  function Substr(s: string, pos: nat, count: nat): (r: string)
    requires pos <= |s|
    ensures |r| == if pos + count <= |s| then count else |s| - pos
    ensures r == s[pos..pos + |r|]
  {
    if pos + count <= |s| then s[pos..pos + count] else s[pos..]
  }

  /** The first position at or after from that holds sep. */
  function Find(str: string, sep: char, from: nat): (r: Option<nat>)
    requires from <= |str|
    ensures r.Some? ==> from <= r.value < |str| && str[r.value] == sep
    ensures r.Some? ==> forall k :: from <= k < r.value ==> str[k] != sep
    ensures r.None? ==> forall k :: from <= k < |str| ==> str[k] != sep
    decreases |str| - from
  {
    if from == |str| then None
    else if str[from] == sep then Some(from)
    else Find(str, sep, from + 1)
  }

  /**
   * The segments of str from position start on, where the characters from
   * start up to scan already belong to the first segment and are not tested:
   * the first segment runs to the next separator at or after scan (or to the
   * end); after a separator the next segment starts, and the character right
   * after the separator always belongs to it. A separator in the last position
   * ends with an empty segment.
   */
  function SegmentsFrom(str: string, sep: char, start: nat, scan: nat): (r: seq<string>)
    requires start <= scan <= |str|
    ensures |r| >= 1
    decreases |str| - start
  {
    match Find(str, sep, scan)
    case None => [str[start..]]
    case Some(p) =>
      [str[start..p]] + (if p + 1 == |str| then [""] else SegmentsFrom(str, sep, p + 1, p + 2))
  }

  /** The reference account of what SplitString appends. */
  function Split(str: string, sep: char): seq<string>
  {
    if str == [] then [] else SegmentsFrom(str, sep, 0, 0)
  }

  /**
   * The state of SplitString's loop: results holds outResults and the
   * segments pushed so far, the segment being counted runs from start for
   * count characters up to i, and what remains to be split is accounted for.
   */
  ghost predicate SplitState(str: string, sep: char, outResults: seq<string>, results: seq<string>,
                             pushed: seq<string>, start: nat, count: nat, i: nat)
  {
    && results == outResults + pushed
    && start + count == i <= |str| + 1
    && (i > 0 ==> count > 0)
    && (i <= |str| ==> Split(str, sep) == pushed + SegmentsFrom(str, sep, start, i))
    && (i == |str| + 1 ==> start == |str| && count == 1 && Split(str, sep) == pushed + [""])
  }

  /**
   * SplitString: follows the loop of the source, including the character after
   * each separator that is skipped without being tested. The segments are
   * appended to outResults, whose earlier contents are kept.
   */
  method SplitString(str: string, sep: char, outResults: seq<string>) returns (results: seq<string>)
    ensures results == outResults + Split(str, sep)
    ensures str == [] ==> results == outResults
  {
    results := outResults;
    if str == [] {
      return;
    }
    var start: nat, count: nat, i: nat := 0, 0, 0;
    ghost var pushed: seq<string> := [];
    assert SplitState(str, sep, outResults, results, pushed, start, count, i);
    while i < |str|
      invariant SplitState(str, sep, outResults, results, pushed, start, count, i)
      decreases |str| + 1 - i
    {
      if str[i] == sep {
        SeparatorStep(str, sep, outResults, results, pushed, start, count, i);
        results := results + [Substr(str, start, count)];
        pushed := pushed + [str[start..i]];
        start, count := start + count + 1, 0;
        i := i + 1;
      } else {
        OtherStep(str, sep, outResults, results, pushed, start, count, i);
      }
      i := i + 1;
      count := count + 1;
    }
    if count > 0 {
      SplitTail(str, sep, outResults, results, pushed, start, count, i);
      results := results + [Substr(str, start, count)];
    }
  }

  /** A separator at i closes the current segment; the next one starts right after it. */
  lemma SeparatorStep(str: string, sep: char, outResults: seq<string>, results: seq<string>,
                      pushed: seq<string>, start: nat, count: nat, i: nat)
    requires SplitState(str, sep, outResults, results, pushed, start, count, i)
    requires i < |str| && str[i] == sep
    ensures start <= |str|
    ensures SplitState(str, sep, outResults, results + [Substr(str, start, count)], pushed + [str[start..i]], i + 1, 1, i + 2)
  {
    assert Find(str, sep, i) == Some(i);
    var rest := if i + 1 == |str| then [""] else SegmentsFrom(str, sep, i + 1, i + 2);
    assert SegmentsFrom(str, sep, start, i) == [str[start..i]] + rest;
    AppendAssoc(pushed, [str[start..i]], rest);
    assert Substr(str, start, count) == str[start..i];
    AppendAssoc(outResults, pushed, [str[start..i]]);
  }

  /** Any other character extends the current segment. */
  lemma OtherStep(str: string, sep: char, outResults: seq<string>, results: seq<string>,
                  pushed: seq<string>, start: nat, count: nat, i: nat)
    requires SplitState(str, sep, outResults, results, pushed, start, count, i)
    requires i < |str| && str[i] != sep
    ensures SplitState(str, sep, outResults, results, pushed, start, count + 1, i + 1)
  {
    FindSkips(str, sep, start, i);
  }

  /** When the loop ends, the pending segment is the last one. */
  lemma SplitTail(str: string, sep: char, outResults: seq<string>, results: seq<string>,
                  pushed: seq<string>, start: nat, count: nat, i: nat)
    requires SplitState(str, sep, outResults, results, pushed, start, count, i)
    requires str != [] && i >= |str|
    ensures count > 0 && start <= |str|
    ensures results + [Substr(str, start, count)] == outResults + Split(str, sep)
  {
    if i == |str| {
      assert Find(str, sep, i) == None;
      assert Substr(str, start, count) == str[start..];
    } else {
      assert Substr(str, start, count) == "";
    }
    AppendAssoc(outResults, pushed, [Substr(str, start, count)]);
  }

  lemma AppendAssoc<T>(a: seq<T>, b: seq<T>, c: seq<T>)
    ensures a + (b + c) == (a + b) + c
  {
  }

  /** A non-separator at scan does not change where the segment ends. */
  lemma FindSkips(str: string, sep: char, start: nat, scan: nat)
    requires start <= scan < |str| && str[scan] != sep
    ensures SegmentsFrom(str, sep, start, scan) == SegmentsFrom(str, sep, start, scan + 1)
  {
    assert Find(str, sep, scan) == Find(str, sep, scan + 1);
  }

  /** An input with no separator is one segment equal to the input. */
  lemma SplitNoSeparator(str: string, sep: char)
    requires str != [] && sep !in str
    ensures Split(str, sep) == [str]
  {
    assert Find(str, sep, 0) == None;
  }

  /**
   * The character after a separator is never tested: "a//b" split on '/' is
   * "a" and "/b".
   */
  lemma SplitSkipsAfterSeparator()
    ensures Split("a//b", '/') == ["a", "/b"]
  {
    var s := "a//b";
    assert Find(s, '/', 0) == Some(1);
    assert Find(s, '/', 3) == None;
    assert s[..1] == "a" && s[2..] == "/b";
  }

  /** A leading separator yields an initial empty segment. */
  lemma SplitLeadingSeparator(str: string, sep: char)
    requires str != [] && str[0] == sep
    ensures |Split(str, sep)| >= 2 && Split(str, sep)[0] == ""
  {
    assert Find(str, sep, 0) == Some(0);
  }

  /** A single separator that ends the input yields a final empty segment. */
  lemma SplitTrailingSeparator(t: string, sep: char)
    requires sep !in t
    ensures Split(t + [sep], sep) == [t, ""]
  {
    var u := t + [sep];
    FindFrom(u, sep, 0, |t|);
    assert u[..|t|] == t;
  }

  lemma {:induction false} FindFrom(str: string, sep: char, from: nat, p: nat)
    requires from <= p < |str| && str[p] == sep && forall k :: from <= k < p ==> str[k] != sep
    ensures Find(str, sep, from) == Some(p)
    decreases p - from
  {
    if from < p {
      FindFrom(str, sep, from + 1, p);
    }
  }

  /** Whether seg occurs in s as one contiguous run. */
  predicate IsSubstring(seg: string, s: string) {
    exists a: nat, b: nat :: a <= b <= |s| && seg == s[a..b]
  }

  /** Every segment is a contiguous substring of the input. */
  lemma {:induction false} SegmentsAreSubstrings(str: string, sep: char, start: nat, scan: nat)
    requires start <= scan <= |str|
    ensures forall seg :: seg in SegmentsFrom(str, sep, start, scan) ==> IsSubstring(seg, str)
    decreases |str| - start
  {
    SegmentsStep(str, sep, start, scan);
    var f := Find(str, sep, scan);
    if f.None? {
      assert str[start..] == str[start..|str|];
    } else {
      var p := f.value;
      assert IsSubstring(str[start..p], str);
      if p + 1 < |str| {
        SegmentsAreSubstrings(str, sep, p + 1, p + 2);
      } else {
        assert "" == str[0..0];
      }
    }
  }

  lemma SplitSegmentsAreSubstrings(str: string, sep: char)
    ensures forall seg :: seg in Split(str, sep) ==> IsSubstring(seg, str)
  {
    if str != [] {
      SegmentsAreSubstrings(str, sep, 0, 0);
    }
  }

  /** The number of occurrences of c in s at position j and after. */
  function OccurrencesAfter(s: string, c: char, j: nat): nat
    decreases |s| - j
  {
    if j >= |s| then 0 else (if s[j] == c then 1 else 0) + OccurrencesAfter(s, c, j + 1)
  }

  /** The number of occurrences of c in s. */
  function Occurrences(s: string, c: char): nat
  {
    OccurrencesAfter(s, c, 0)
  }

  /** From j on there are at least as many separators as the one at p plus those after it. */
  lemma {:induction false} OccurrencesFrom(s: string, c: char, j: nat, p: nat)
    requires j <= p < |s| && s[p] == c
    ensures OccurrencesAfter(s, c, j) >= 1 + OccurrencesAfter(s, c, p + 1)
    decreases p - j
  {
    if j < p {
      OccurrencesFrom(s, c, j + 1, p);
    }
  }

  /** One step of SegmentsFrom: the segment up to the next separator, then the rest. */
  lemma SegmentsStep(str: string, sep: char, start: nat, scan: nat)
    requires start <= scan <= |str|
    ensures Find(str, sep, scan).None? ==> SegmentsFrom(str, sep, start, scan) == [str[start..]]
    ensures Find(str, sep, scan).Some? ==>
      var p := Find(str, sep, scan).value;
      SegmentsFrom(str, sep, start, scan) == [str[start..p]] + (if p + 1 == |str| then [""] else SegmentsFrom(str, sep, p + 1, p + 2))
  {
  }

  /** There are at most as many segments as separators plus one. */
  lemma {:induction false} SegmentsCount(str: string, sep: char, start: nat, scan: nat)
    requires start <= scan <= |str|
    ensures |SegmentsFrom(str, sep, start, scan)| <= OccurrencesAfter(str, sep, scan) + 1
    decreases |str| - start
  {
    SegmentsStep(str, sep, start, scan);
    var f := Find(str, sep, scan);
    if f.Some? {
      var p := f.value;
      OccurrencesFrom(str, sep, scan, p);
      if p + 1 < |str| {
        SegmentsCount(str, sep, p + 1, p + 2);
      }
    }
  }

  lemma SplitCount(str: string, sep: char)
    ensures |Split(str, sep)| <= Occurrences(str, sep) + 1
  {
    if str != [] {
      SegmentsCount(str, sep, 0, 0);
    }
  }

  /**
   * Min: a when a < b, otherwise b, so a tie returns b. The arguments are
   * compared through key, the order that operator< gives them.
   */
  function Min<T>(a: T, b: T, key: T -> int): (r: T)
    ensures r == a || r == b
    ensures key(r) <= key(a) && key(r) <= key(b)
    ensures key(a) == key(b) ==> r == b
  {
    if key(a) < key(b) then a else b
  }

  /** Max: a when a > b, otherwise b, so a tie returns b. */
  function Max<T>(a: T, b: T, key: T -> int): (r: T)
    ensures r == a || r == b
    ensures key(r) >= key(a) && key(r) >= key(b)
    ensures key(a) == key(b) ==> r == b
  {
    if key(a) > key(b) then a else b
  }

  /** AssertPtrReturnRef: the pointer must not be null; the result is what it points to. */
  function AssertPtrReturnRef<T>(ptr: Option<T>): (r: T)
    requires ptr.Some?
    ensures Some(r) == ptr
  {
    ptr.value
  }
}
