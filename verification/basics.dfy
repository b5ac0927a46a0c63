/** Small notions that several of the models share. */
module Basics {

  datatype Option<T> = None | Some(value: T)

  const UINT32 := 0x1_0000_0000

  type Byte = n: nat | n < 0x100

  /** The id of the conditions that combat causes. */
  const CONDITIONID_COMBAT := 0

  function Abs(n: int): nat { if n < 0 then -n else n }

  /** Quotient and remainder are determined by what they satisfy. */
  lemma DivMod(n: int, d: nat, q: int, r: int)
    requires d > 0 && n == q * d + r && 0 <= r < d
    ensures n / d == q && n % d == r
  {
    var e := n / d - q;
    assert n == n / d * d + n % d;
    assert d * e == r - n % d;
    assert d * e < d && 0 < d * e + d;
    assert e == 0;
  }
}
