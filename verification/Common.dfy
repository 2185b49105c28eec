/** Word sizes and small helpers shared by the models. */
module Common {

  const TWO_31: int := 0x8000_0000
  const TWO_32: nat := 0x1_0000_0000
  const TWO_64: nat := 0x1_0000_0000_0000_0000

  datatype Option<T> = None | Some(value: T)

  function Pow256(k: nat): (p: nat)
    ensures p > 0
  {
    if k == 0 then 1 else 256 * Pow256(k - 1)
  }

  /** f(0) + ... + f(n - 1). */
  function RealSum(f: int -> real, n: nat): real {
    if n == 0 then 0.0 else RealSum(f, n - 1) + f(n - 1)
  }

  lemma {:induction false} RealCong(f: int -> real, g: int -> real, n: nat)
    requires forall j | 0 <= j < n :: f(j) == g(j)
    ensures RealSum(f, n) == RealSum(g, n)
  {
    if n != 0 {
      RealCong(f, g, n - 1);
    }
  }
}
