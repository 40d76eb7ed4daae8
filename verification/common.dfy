/**
 Shared vocabulary for the page models: an optional value, the JavaScript
 array and string operations the pages rely on (`filter`, `find`, `slice`,
 `includes`, `toLowerCase`, `trim`, string `<`), each with a contract that
 states what it computes independently of how it is computed.
 */
module Common {

  /** `undefined`/`null` versus a present value. */
  datatype Option<T> = None | Some(value: T)

  /* ---------------------------------------------------------------
   * Sequences
   * --------------------------------------------------------------- */

  /** `a` can be obtained from `b` by deleting elements (order is kept). */
  predicate IsSubsequence<T(==)>(a: seq<T>, b: seq<T>)
    decreases |b|
  {
    |a| == 0 ||
    (|b| > 0 && ((a[0] == b[0] && IsSubsequence(a[1..], b[1..])) || IsSubsequence(a, b[1..])))
  }

  /** Every sequence is a subsequence of itself. */
  lemma {:induction false} IsSubsequenceRefl<T>(s: seq<T>)
    ensures IsSubsequence(s, s)
  {
    if |s| > 0 {
      IsSubsequenceRefl(s[1..]);
    }
  }

  /** No element occurs twice. */
  predicate NoDup<T(==)>(s: seq<T>)
  {
    forall i, j :: 0 <= i < j < |s| ==> s[i] != s[j]
  }

  /** JavaScript `Array.prototype.filter`: the order-preserving subsequence of the kept elements. */
  function Filter<T(==,!new)>(s: seq<T>, p: T -> bool): (r: seq<T>)
    ensures |r| <= |s|
    ensures forall i :: 0 <= i < |r| ==> p(r[i])
    ensures forall x :: x in r <==> x in s && p(x)
    ensures IsSubsequence(r, s)
  {
    if |s| == 0 then []
    else if p(s[0]) then [s[0]] + Filter(s[1..], p)
    else Filter(s[1..], p)
  }

  /** Filtering with a predicate that holds everywhere on `s` returns `s`. */
  lemma {:induction false} FilterAll<T(!new)>(s: seq<T>, p: T -> bool)
    requires forall x :: x in s ==> p(x)
    ensures Filter(s, p) == s
  {
    if |s| > 0 {
      FilterAll(s[1..], p);
    }
  }

  /** Filtering with a predicate that holds nowhere on `s` returns the empty sequence. */
  lemma {:induction false} FilterNone<T(!new)>(s: seq<T>, p: T -> bool)
    requires forall x :: x in s ==> !p(x)
    ensures Filter(s, p) == []
  {
    if |s| > 0 {
      FilterNone(s[1..], p);
    }
  }

  /** Two predicates that agree on every element of `s` filter it identically. */
  lemma {:induction false} FilterCongruent<T(!new)>(s: seq<T>, p: T -> bool, q: T -> bool)
    requires forall x :: x in s ==> (p(x) <==> q(x))
    ensures Filter(s, p) == Filter(s, q)
  {
    if |s| > 0 {
      FilterCongruent(s[1..], p, q);
    }
  }

  /** Filtering twice is filtering once with the conjunction. */
  lemma {:induction false} FilterFilter<T(!new)>(s: seq<T>, p: T -> bool, q: T -> bool)
    ensures Filter(Filter(s, p), q) == Filter(s, x => p(x) && q(x))
  {
    if |s| > 0 {
      FilterFilter(s[1..], p, q);
    }
  }

  /** Filter distributes over concatenation. */
  lemma {:induction false} FilterAppend<T(!new)>(a: seq<T>, b: seq<T>, p: T -> bool)
    ensures Filter(a + b, p) == Filter(a, p) + Filter(b, p)
  {
    if |a| == 0 {
      assert a + b == b;
    } else {
      assert (a + b)[1..] == a[1..] + b;
      FilterAppend(a[1..], b, p);
    }
  }

  /** Number of elements of `s` that satisfy `p`. */
  function Count<T>(s: seq<T>, p: T -> bool): nat
  {
    if |s| == 0 then 0 else (if p(s[0]) then 1 else 0) + Count(s[1..], p)
  }

  /** Counting is the length of the filtered sequence. */
  lemma {:induction false} CountIsFilterLength<T(!new)>(s: seq<T>, p: T -> bool)
    ensures Count(s, p) == |Filter(s, p)|
  {
    if |s| > 0 {
      CountIsFilterLength(s[1..], p);
    }
  }

  /** JavaScript `findIndex`/`find`: the index of the first element satisfying `p`. */
  function FindFirst<T>(s: seq<T>, p: T -> bool): (r: Option<nat>)
    ensures r.Some? ==> r.value < |s| && p(s[r.value])
    ensures r.Some? ==> forall j :: 0 <= j < r.value ==> !p(s[j])
    ensures r.None? <==> forall j :: 0 <= j < |s| ==> !p(s[j])
  {
    if |s| == 0 then None
    else if p(s[0]) then Some(0)
    else match FindFirst(s[1..], p)
      case None => None
      case Some(i) => Some(i + 1)
  }

  /** The index `FindFirst` returns is the one before which nothing matches. */
  lemma FindFirstAt<T>(s: seq<T>, p: T -> bool, i: nat)
    requires i < |s| && p(s[i]) && forall j :: 0 <= j < i ==> !p(s[j])
    ensures FindFirst(s, p) == Some(i)
  {
  }

  /** JavaScript `some`: whether any element satisfies `p`. */
  predicate Exists<T>(s: seq<T>, p: T -> bool)
  {
    FindFirst(s, p).Some?
  }

  function Min(a: int, b: int): int { if a <= b then a else b }
  function Max(a: int, b: int): int { if a <= b then b else a }

  /**
   JavaScript `Array.prototype.slice(start, end)`: negative bounds count from
   the end, and both bounds are clamped to the sequence.
   */
  function JsSlice<T>(s: seq<T>, start: int, end: int): (r: seq<T>)
    ensures var from := if start < 0 then Max(|s| + start, 0) else Min(start, |s|);
            var to := if end < 0 then Max(|s| + end, 0) else Min(end, |s|);
            r == if from < to then s[from..to] else []
  {
    var from := if start < 0 then Max(|s| + start, 0) else Min(start, |s|);
    var to := if end < 0 then Max(|s| + end, 0) else Min(end, |s|);
    if from < to then s[from..to] else []
  }

  /* ---------------------------------------------------------------
   * Strings
   * --------------------------------------------------------------- */

  predicate IsPrefix(p: string, s: string)
  {
    |p| <= |s| && s[..|p|] == p
  }

  /** JavaScript `String.prototype.includes`: `needle` occurs as a contiguous substring of `hay`. */
  function Contains(hay: string, needle: string): (b: bool)
    ensures b <==> exists i :: 0 <= i <= |hay| && IsPrefix(needle, hay[i..])
    decreases |hay|
  {
    if IsPrefix(needle, hay) then
      assert IsPrefix(needle, hay[0..]);
      true
    else if |hay| == 0 then
      false
    else
      var rest := Contains(hay[1..], needle);
      ContainsShift(hay, needle);
      rest
  }

  /** A match at a position past the first one is a match in the tail. */
  lemma ContainsShift(hay: string, needle: string)
    requires |hay| > 0 && !IsPrefix(needle, hay[0..])
    ensures (exists i :: 0 <= i <= |hay| && IsPrefix(needle, hay[i..]))
        <==> (exists i :: 0 <= i <= |hay[1..]| && IsPrefix(needle, hay[1..][i..]))
  {
    if exists i :: 0 <= i <= |hay| && IsPrefix(needle, hay[i..]) {
      var i :| 0 <= i <= |hay| && IsPrefix(needle, hay[i..]);
      assert i > 0;
      assert hay[1..][i - 1..] == hay[i..];
    }
    if exists i :: 0 <= i <= |hay[1..]| && IsPrefix(needle, hay[1..][i..]) {
      var i :| 0 <= i <= |hay[1..]| && IsPrefix(needle, hay[1..][i..]);
      assert hay[1..][i..] == hay[i + 1..];
    }
  }

  /** Every string contains the empty string: an empty search keeps everything. */
  lemma ContainsEmpty(hay: string)
    ensures Contains(hay, "")
  {
    assert IsPrefix("", hay[0..]);
  }

  /** Only the empty string contains a non-empty needle nowhere; the empty string contains only "". */
  lemma ContainsInEmpty(needle: string)
    ensures Contains("", needle) <==> needle == ""
  {
    if Contains("", needle) {
      var i :| 0 <= i <= 0 && IsPrefix(needle, ""[i..]);
    }
  }

  /** ASCII case folding as done by `toLowerCase` on the characters these pages use. */
  function LowerChar(c: char): char
  {
    if 'A' <= c <= 'Z' then (c as int - 'A' as int + 'a' as int) as char else c
  }

  /** `toLowerCase`, restricted to the ASCII letters (other characters are unchanged). */
  function Lower(s: string): (r: string)
    ensures |r| == |s|
    ensures forall i :: 0 <= i < |s| ==> r[i] == LowerChar(s[i])
  {
    if |s| == 0 then "" else [LowerChar(s[0])] + Lower(s[1..])
  }

  /** Lower-casing twice changes nothing more than lower-casing once. */
  lemma LowerIdempotent(s: string)
    ensures Lower(Lower(s)) == Lower(s)
  {
  }

  /** The case-insensitive substring test used by the search boxes. */
  predicate ContainsIgnoreCase(hay: string, needle: string)
  {
    Contains(Lower(hay), Lower(needle))
  }

  /** A case-insensitive search for "" keeps every string; one for anything else never matches "". */
  lemma {:induction false} ContainsIgnoreCaseEmpty(hay: string, needle: string)
    ensures needle == "" ==> ContainsIgnoreCase(hay, needle)
    ensures ContainsIgnoreCase("", needle) <==> needle == ""
  {
    if needle == "" {
      assert Lower(needle) == "";
      ContainsEmpty(Lower(hay));
    }
    assert Lower("") == "";
    ContainsInEmpty(Lower(needle));
    assert |Lower(needle)| == |needle|;
  }

  /**
   The white space and line terminators removed by `String.prototype.trim`
   (ECMAScript WhiteSpace and LineTerminator code points).
   */
  predicate IsJsSpace(c: char)
  {
    c == '\t' || c == '\n' || c == '\U{000B}' || c == '\U{000C}' || c == '\r' || c == ' '
    || c == '\U{00A0}' || c == '\U{1680}' || ('\U{2000}' <= c <= '\U{200A}')
    || c == '\U{2028}' || c == '\U{2029}' || c == '\U{202F}' || c == '\U{205F}'
    || c == '\U{3000}' || c == '\U{FEFF}'
  }

  function TrimStartIndex(s: string): (i: nat)
    ensures i <= |s|
    ensures forall k :: 0 <= k < i ==> IsJsSpace(s[k])
    ensures i < |s| ==> !IsJsSpace(s[i])
  {
    if |s| == 0 || !IsJsSpace(s[0]) then 0 else 1 + TrimStartIndex(s[1..])
  }

  function TrimEndIndex(s: string): (j: nat)
    ensures j <= |s|
    ensures forall k :: j <= k < |s| ==> IsJsSpace(s[k])
    ensures j > 0 ==> !IsJsSpace(s[j - 1])
  {
    if |s| == 0 || !IsJsSpace(s[|s| - 1]) then |s| else TrimEndIndex(s[..|s| - 1])
  }

  /** `String.prototype.trim`: the longest infix with no leading or trailing white space. */
  function Trim(s: string): string
  {
    var i := TrimStartIndex(s);
    var j := TrimEndIndex(s);
    if i < j then s[i..j] else ""
  }

  /**
   Trimming removes a whitespace-only prefix and suffix and nothing else, and
   leaves no whitespace at either end.
   */
  lemma TrimStrips(s: string)
    ensures exists i, j :: 0 <= i <= j <= |s| && Trim(s) == s[i..j]
                           && (forall k :: 0 <= k < i ==> IsJsSpace(s[k]))
                           && (forall k :: j <= k < |s| ==> IsJsSpace(s[k]))
    ensures |Trim(s)| > 0 ==> !IsJsSpace(Trim(s)[0]) && !IsJsSpace(Trim(s)[|Trim(s)| - 1])
  {
    var i := TrimStartIndex(s);
    var j := TrimEndIndex(s);
    if i >= j {
      assert forall k :: 0 <= k < |s| ==> IsJsSpace(s[k]);
      assert Trim(s) == s[0..0];
    } else {
      assert Trim(s) == s[i..j];
    }
  }

  /* ---------------------------------------------------------------
   * String order (JavaScript `<` on strings, code unit by code unit)
   * --------------------------------------------------------------- */

  predicate StrLt(a: string, b: string)
    decreases |a|
  {
    if |a| == 0 then |b| > 0
    else if |b| == 0 then false
    else if a[0] < b[0] then true
    else if b[0] < a[0] then false
    else StrLt(a[1..], b[1..])
  }

  lemma {:induction false} StrLtIrreflexive(a: string)
    ensures !StrLt(a, a)
    decreases |a|
  {
    if |a| > 0 {
      StrLtIrreflexive(a[1..]);
    }
  }

  lemma {:induction false} StrLtTransitive(a: string, b: string, c: string)
    requires StrLt(a, b) && StrLt(b, c)
    ensures StrLt(a, c)
    decreases |a|
  {
    if |a| > 0 && |b| > 0 && |c| > 0 && a[0] == b[0] && b[0] == c[0] {
      StrLtTransitive(a[1..], b[1..], c[1..]);
    }
  }

  lemma {:induction false} StrLtTotal(a: string, b: string)
    ensures a == b || StrLt(a, b) || StrLt(b, a)
    decreases |a|
  {
    if |a| > 0 && |b| > 0 && a[0] == b[0] {
      StrLtTotal(a[1..], b[1..]);
      if a[1..] == b[1..] {
        assert a == [a[0]] + a[1..] && b == [b[0]] + b[1..];
      }
    }
  }

  lemma StrLtAsymmetric(a: string, b: string)
    requires StrLt(a, b)
    ensures !StrLt(b, a)
  {
    if StrLt(b, a) {
      StrLtTransitive(a, b, a);
      StrLtIrreflexive(a);
    }
  }

  /** Two strings are never each below the other. */
  lemma StrLtNotBoth(a: string, b: string)
    ensures !(StrLt(a, b) && StrLt(b, a))
  {
    if StrLt(a, b) {
      StrLtAsymmetric(a, b);
    }
  }
}
