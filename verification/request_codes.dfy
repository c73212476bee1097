/** The request-code generator: an `AtomicInteger(1000)` advanced with `incrementAndGet`. */
module RequestCodes {

  const MinInt32 := -0x8000_0000
  const MaxInt32 := 0x7fff_ffff

  /** A Kotlin `Int`. */
  type int32 = x: int | MinInt32 <= x <= MaxInt32

  /** The generator's initial value; the first code handed out is one more. */
  const InitialCounter: int32 := 1000

  /** `incrementAndGet` on a 32-bit counter: adds one, wrapping from the largest Int to the smallest. */
  function IncrementAndGet(c: int32): (r: int32)
    ensures c < MaxInt32 ==> r == c + 1
    ensures c == MaxInt32 ==> r == MinInt32
    ensures r != c
  {
    if c == MaxInt32 then MinInt32 else c + 1
  }

  /** The `n` codes handed out, in order, by a generator that currently holds `c`. */
  function Codes(c: int32, n: nat): (codes: seq<int32>)
    decreases n
  {
    if n == 0 then [] else var next := IncrementAndGet(c); [next] + Codes(next, n - 1)
  }

  /**
   * As long as the counter does not pass the largest Int, the codes handed
   * out are consecutive: `c + 1, c + 2, ...`; so they strictly increase and
   * none is handed out twice.
   */
  lemma {:induction false} CodesConsecutive(c: int32, n: nat)
    requires c + n <= MaxInt32
    ensures |Codes(c, n)| == n
    ensures forall i :: 0 <= i < n ==> Codes(c, n)[i] == c + i + 1
    decreases n
  {
    if n > 0 {
      CodesConsecutive(IncrementAndGet(c), n - 1);
    }
  }

  /** Starting from 1000, the first code is 1001. */
  lemma FirstCode()
    ensures Codes(InitialCounter, 1) == [1001]
  {
  }

  /** Past the largest Int the counter wraps, and a later code is smaller than an earlier one. */
  lemma WrapBreaksOrder()
    ensures Codes(MaxInt32 - 1, 2) == [MaxInt32, MinInt32]
  {
  }
}
