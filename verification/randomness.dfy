/** The random source the generator and combat code draw from. Each call
    site reads one draw, a natural number chosen by the environment; the
    functions here turn a draw into what the corresponding call of Python's
    random module returns. */
module Randomness {
  import opened Results

  /** 2^53: random.random() returns a multiple of 2^-53 in [0, 1). */
  const Two53: nat := 0x20_0000_0000_0000

  /** The draw at position k, or 0 when the supplied draws run out. */
  function DrawAt(draws: seq<nat>, k: nat): nat {
    if k < |draws| then draws[k] else 0
  }

  /** random.randint(lo, hi): a value in [lo, hi], or ValueError when the
      range is empty. */
  function RandInt(lo: int, hi: int, draw: nat): (r: Result<int>)
    ensures r.Ok? <==> lo <= hi
    ensures r.Err? ==> r.error == EmptyRange
    ensures r.Ok? ==> lo <= r.value <= hi
  {
    if hi < lo then Err(EmptyRange) else Ok(lo + draw % (hi - lo + 1))
  }

  /** Every value of the range is the result of some draw. */
  lemma RandIntCovers(lo: int, hi: int, v: int)
    requires lo <= v <= hi
    ensures RandInt(lo, hi, v - lo) == Ok(v)
  {
  }

  /** random.random(). */
  function RandomReal(draw: nat): (u: real)
    ensures 0.0 <= u < 1.0
  {
    (draw % Two53) as real / Two53 as real
  }
}
