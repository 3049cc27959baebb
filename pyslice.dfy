/** Python's slice bounds `s[i:]` and `s[:i]`, negative and out-of-range bounds included. */
module PySlice {

  /** Where the slice bound `i` lands in a sequence of length `n`: negatives count from the end, and both ends clamp. */
  function Bound(i: int, n: nat): (r: nat)
    ensures r <= n
  {
    if i < 0 then (if n + i < 0 then 0 else n + i) else (if i > n then n else i)
  }

  /** `s[i:]` */
  function From<T>(s: seq<T>, i: int): seq<T> {
    s[Bound(i, |s|)..]
  }

  /** `s[:i]` */
  function Upto<T>(s: seq<T>, i: int): seq<T> {
    s[..Bound(i, |s|)]
  }
}
