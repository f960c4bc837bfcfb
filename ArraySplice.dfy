/** The removing form of ECMAScript's `Array.prototype.splice(start, deleteCount)`
    (section 23.1.3.31 of ECMA-262), on a sequence: the result is what the
    array holds afterwards. Nothing is inserted and the removed elements,
    which `splice` returns, are not modelled. */
module ArraySplice {

  /** Steps 4-6: a negative start counts back from the end and is clamped to 0;
      a start past the end is clamped to the length. */
  function ActualStart(len: nat, start: int): (a: nat)
    ensures a <= len
  {
    if start < 0 then (if len + start < 0 then 0 else len + start)
    else if start < len then start
    else len
  }

  /** Step 10 (a `deleteCount` is given): clamp it between 0 and the number of
      elements from the actual start to the end. */
  function ActualDeleteCount(len: nat, actualStart: nat, deleteCount: int): (d: nat)
    requires actualStart <= len
    ensures actualStart + d <= len
  {
    if deleteCount < 0 then 0
    else if deleteCount < len - actualStart then deleteCount
    else len - actualStart
  }

  function Splice<T>(s: seq<T>, start: int, deleteCount: int): (r: seq<T>)
    ensures |r| <= |s|
  {
    var a := ActualStart(|s|, start);
    var d := ActualDeleteCount(|s|, a, deleteCount);
    s[..a] + s[a + d..]
  }

  /** Removing one element at a position inside the array takes out exactly
      that element and keeps the rest in order. */
  lemma SpliceOneAt<T>(s: seq<T>, k: int)
    requires 0 <= k < |s|
    ensures Splice(s, k, 1) == s[..k] + s[k + 1..]
    ensures |Splice(s, k, 1)| == |s| - 1
  {
  }

  /** `splice(-1, 1)` removes the last element, and leaves an empty array empty. */
  lemma SpliceOneFromEnd<T>(s: seq<T>)
    ensures Splice(s, -1, 1) == if s == [] then [] else s[..|s| - 1]
  {
  }
}
