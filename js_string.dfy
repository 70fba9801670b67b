/** The part of JavaScript's `String.prototype.substring` that the wallet
    helpers rely on. A JavaScript string is modelled as a sequence of
    characters; an index argument is an integer (the helpers never pass NaN,
    infinities or non-numbers). */
module JsString {

  function Min(a: int, b: int): int { if a <= b then a else b }

  function Max(a: int, b: int): int { if a <= b then b else a }

  /** An index argument clamped into the range 0..len, as substring does. */
  function Clamp(i: int, len: nat): (c: nat)
    ensures c <= len
    ensures 0 <= i <= len ==> c == i
    ensures i < 0 ==> c == 0
    ensures i > len ==> c == len
  {
    if i < 0 then 0 else if i > len then len else i
  }

  /** `s.substring(start, end)`: both indices are clamped into 0..|s|, and
      when the clamped start lies after the clamped end the two are swapped. */
  function Substring(s: string, start: int, end: int): (r: string)
    ensures |r| <= |s|
    // in range, substring is the plain slice
    ensures 0 <= start <= end <= |s| ==> r == s[start..end]
    // an end past the length is clamped to the length
    ensures 0 <= start <= end ==> r == s[Min(start, |s|)..Min(end, |s|)]
    // a negative start is clamped to 0
    ensures start <= end && 0 <= end <= |s| ==> r == s[Max(start, 0)..end]
  {
    var from, to := Clamp(start, |s|), Clamp(end, |s|);
    if from <= to then s[from..to] else s[to..from]
  }

  /** `s.substring(start)`: the end argument is absent, so it is the length. */
  function SubstringFrom(s: string, start: int): (r: string)
    // the result is a suffix of s ...
    ensures |r| <= |s| && r == s[|s| - |r|..]
    // ... that starts at the clamped start index
    ensures |r| == |s| - Clamp(start, |s|)
  {
    Substring(s, start, |s|)
  }

  /** A prefix cut, as in `uid.substring(0, 20)`: the first k characters, or
      the whole string when it is shorter than k. */
  lemma SubstringPrefix(s: string, k: nat)
    ensures Substring(s, 0, k) == s[..Min(k, |s|)]
    ensures |Substring(s, 0, k)| == Min(k, |s|)
  {
  }

  /** A suffix cut, as in `s.substring(s.length - k)`: the last k characters,
      or the whole string when it is shorter than k (the negative start is
      clamped to 0). */
  lemma SubstringFromLast(s: string, k: nat)
    ensures SubstringFrom(s, |s| - k) == s[|s| - Min(k, |s|)..]
    ensures |s| < k ==> SubstringFrom(s, |s| - k) == s
  {
  }
}
