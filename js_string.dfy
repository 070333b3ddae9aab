/**
 * JavaScript's `String.prototype.slice(start, end)`: negative positions count
 * from the end of the string, every position is clamped to `[0, length]`, and
 * an empty string results when the clamped start is not before the clamped end.
 */
module JsString {

  function Min(a: int, b: int): int { if a <= b then a else b }

  function Max(a: int, b: int): int { if a <= b then b else a }

  /** The index a relative slice position denotes in a string of length `len`. */
  function ClampPosition(len: nat, relative: int): (k: nat)
    ensures k <= len
  {
    if relative < 0 then Max(len + relative, 0) else Min(relative, len)
  }

  function Slice(s: string, start: int, end: int): (r: string)
    ensures |r| <= |s|
    ensures 0 <= start <= end ==> |r| <= end - start
    ensures 0 <= start <= |s| && start <= end ==> r == s[start..Min(end, |s|)]
    ensures 0 <= end && |s| <= start ==> r == []
    ensures end <= start && (0 <= end || start < 0) ==> r == []
  {
    var from := ClampPosition(|s|, start);
    var to := ClampPosition(|s|, end);
    if from >= to then [] else s[from..to]
  }
}
