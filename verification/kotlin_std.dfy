/**
 The small part of the Kotlin standard library that the game-state construction
 relies on: integer ranges (`lo until hi`, `hi downTo lo`), `map` over them, and
 `Int` division, which truncates toward zero (unlike Dafny's Euclidean `/`).
 */
module KotlinStd {

  /** `lo until hi`: the integers lo, lo + 1, ..., hi - 1 in ascending order; empty when hi <= lo. */
  function Until(lo: int, hi: int): (r: seq<int>)
    ensures |r| == if lo < hi then hi - lo else 0
    ensures forall i :: 0 <= i < |r| ==> r[i] == lo + i
    decreases hi - lo
  {
    if lo < hi then [lo] + Until(lo + 1, hi) else []
  }

  /** `hi downTo lo`: the integers hi, hi - 1, ..., lo in descending order; empty when hi < lo. */
  function DownTo(hi: int, lo: int): (r: seq<int>)
    ensures |r| == if lo <= hi then hi - lo + 1 else 0
    ensures forall i :: 0 <= i < |r| ==> r[i] == hi - i
    decreases hi - lo
  {
    if lo <= hi then [hi] + DownTo(hi - 1, lo) else []
  }

  /** `n - 1 downTo 0` visits exactly the elements of `0 until n`, in the opposite order. */
  lemma DownToReversesUntil(n: int)
    ensures var up, down := Until(0, n), DownTo(n - 1, 0);
      |down| == |up| && forall i :: 0 <= i < |up| ==> down[i] == up[|up| - 1 - i]
  {
  }

  /** `Iterable.map`: applies `f` to every element, keeping order and length. */
  function MapSeq<A, B>(s: seq<A>, f: A -> B): (r: seq<B>)
    ensures |r| == |s|
    ensures forall i :: 0 <= i < |s| ==> r[i] == f(s[i])
  {
    if s == [] then [] else [f(s[0])] + MapSeq(s[1..], f)
  }

  /** Kotlin's `a / 2` on `Int`: the quotient rounded toward zero. */
  function HalfTowardZero(a: int): (q: int)
    ensures a >= 0 ==> 0 <= a - 2 * q <= 1
    ensures a < 0 ==> -1 <= a - 2 * q <= 0
  {
    if a >= 0 then a / 2 else -((-a) / 2)
  }
}
