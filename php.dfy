/** The few pieces of PHP runtime behaviour the modelled code relies on:
    null-or-value results, truthiness of a string-or-null value, array lookup
    with a null default, and strpos. */
module Php {

  /** A PHP value that may be null. */
  datatype Option<+T> = None | Some(value: T)

  /** PHP truthiness of a string-or-null value: null, "" and "0" are falsy,
      every other string is truthy. */
  predicate Truthy(v: Option<string>)
  {
    v.Some? && v.value != "" && v.value != "0"
  }

  /** `$array[$key] ?? null`: the value under the key, or null when the key is absent. */
  function Get<K, V>(m: map<K, V>, k: K): (r: Option<V>)
    ensures r.Some? <==> k in m
    ensures r.Some? ==> r.value == m[k]
  {
    if k in m then Some(m[k]) else None
  }

  /** `needle` occurs in `haystack` starting at offset `j`. */
  predicate OccursAt(haystack: string, needle: string, j: int)
  {
    0 <= j && j + |needle| <= |haystack| && haystack[j..j + |needle|] == needle
  }

  /** PHP strpos for a non-empty needle: the offset of the first occurrence,
      or false (None) when there is none. */
  function StrPos(haystack: string, needle: string): (r: Option<nat>)
    requires needle != []
    ensures r.Some? ==> OccursAt(haystack, needle, r.value)
    ensures r.Some? ==> forall j :: 0 <= j < r.value ==> !OccursAt(haystack, needle, j)
    ensures r.None? ==> forall j :: !OccursAt(haystack, needle, j)
    decreases |haystack|
  {
    if |haystack| < |needle| then None
    else if haystack[..|needle|] == needle then Some(0)
    else
      var rest := StrPos(haystack[1..], needle);
      ShiftedOccurrence(haystack, needle);
      match rest
      case None => None
      case Some(k) => Some(k + 1)
  }

  /** An occurrence at offset j + 1 of `haystack` is one at offset j of its tail. */
  lemma ShiftedOccurrenceAt(haystack: string, needle: string, j: int)
    requires haystack != [] && 0 <= j
    ensures OccursAt(haystack, needle, j + 1) <==> OccursAt(haystack[1..], needle, j)
  {
    if j + 1 + |needle| <= |haystack| {
      assert haystack[j + 1..j + 1 + |needle|] == haystack[1..][j..j + |needle|];
    }
  }

  lemma ShiftedOccurrence(haystack: string, needle: string)
    requires haystack != []
    ensures forall j {:trigger OccursAt(haystack, needle, j)} ::
              1 <= j ==> (OccursAt(haystack, needle, j) <==> OccursAt(haystack[1..], needle, j - 1))
  {
    forall j | 1 <= j
      ensures OccursAt(haystack, needle, j) <==> OccursAt(haystack[1..], needle, j - 1)
    {
      ShiftedOccurrenceAt(haystack, needle, j - 1);
    }
  }

  /** strpos(haystack, needle) === 0 exactly when `needle` is a prefix of `haystack`. */
  lemma StrPosZeroIffPrefix(haystack: string, needle: string)
    requires needle != []
    ensures StrPos(haystack, needle) == Some(0) <==> needle <= haystack
  {
    if needle <= haystack {
      assert haystack[..|needle|] == needle;
    }
  }

  /** For a one-character needle, strpos finds it exactly when the character is in the string. */
  lemma StrPosChar(haystack: string, c: char)
    ensures StrPos(haystack, [c]).Some? <==> c in haystack
  {
    if c in haystack {
      var j :| 0 <= j < |haystack| && haystack[j] == c;
      assert haystack[j..j + 1] == [c];
      assert OccursAt(haystack, [c], j);
    }
    if StrPos(haystack, [c]).Some? {
      var j := StrPos(haystack, [c]).value;
      assert haystack[j..j + 1] == [c];
      assert haystack[j] == c;
    }
  }

  /** PHP array_search with strict comparison: the first position holding
      exactly x, or false (None) when there is none. */
  function IndexOf<T(==)>(s: seq<T>, x: T): (r: Option<nat>)
    ensures r.None? <==> x !in s
    ensures r.Some? ==> r.value < |s| && s[r.value] == x && x !in s[..r.value]
    decreases |s|
  {
    if s == [] then None
    else if s[0] == x then Some(0)
    else
      match IndexOf(s[1..], x)
      case None => None
      case Some(k) =>
        assert s[..k + 1] == [s[0]] + s[1..][..k];
        Some(k + 1)
  }

  /** In a followed by x, with x nowhere in a, the first x is the one after a. */
  lemma {:induction false} IndexOfAfter<T>(a: seq<T>, x: T, b: seq<T>)
    requires x !in a
    ensures IndexOf(a + [x] + b, x) == Some(|a|)
    decreases |a|
  {
    if a != [] {
      assert (a + [x] + b)[1..] == a[1..] + [x] + b;
      IndexOfAfter(a[1..], x, b);
    }
  }
}
