/**
 PHP's `strpos` as the error classifier uses it: a search for the first
 occurrence of a needle in a haystack, answering an index or `false`.
 */
module PhpStrings {

  /** `Some(i)` is PHP's integer answer, `None` its `false`. */
  datatype Option<+T> = None | Some(value: T)

  /** `needle` occurs in `haystack` starting at index `i`. */
  predicate OccursAt(haystack: string, needle: string, i: nat)
  {
    i + |needle| <= |haystack| && haystack[i..i + |needle|] == needle
  }

  /** `needle` occurs somewhere in `haystack`, index 0 included. */
  ghost predicate Occurs(haystack: string, needle: string)
  {
    exists i: nat :: OccursAt(haystack, needle, i)
  }

  /** `strpos($haystack, $needle, $from)`: the first index at or after `from`
      where `needle` occurs, or `None` when there is none. */
  function StrPosFrom(haystack: string, needle: string, from: nat): (r: Option<nat>)
    ensures r.Some? ==> from <= r.value && OccursAt(haystack, needle, r.value)
    ensures r.Some? ==> forall j: nat :: from <= j < r.value ==> !OccursAt(haystack, needle, j)
    ensures r.None? ==> forall j: nat :: from <= j ==> !OccursAt(haystack, needle, j)
    decreases |haystack| - from
  {
    if from + |needle| > |haystack| then None
    else if haystack[from..from + |needle|] == needle then Some(from)
    else StrPosFrom(haystack, needle, from + 1)
  }

  /** `strpos($haystack, $needle)`, searching from the start. */
  function StrPos(haystack: string, needle: string): Option<nat>
  {
    StrPosFrom(haystack, needle, 0)
  }

  /** `strpos($haystack, $needle) !== false`: the strict comparison makes a
      match at index 0 count as found. */
  function Contains(haystack: string, needle: string): (found: bool)
    ensures found <==> Occurs(haystack, needle)
  {
    StrPos(haystack, needle).Some?
  }
}
