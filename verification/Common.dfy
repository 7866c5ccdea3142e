/** Datatypes and small vocabulary shared by the modules of the model. */
module Common {

  datatype Option<+T> = None | Some(value: T)

  datatype Result<+T, +E> = Ok(value: T) | Err(error: E)

  const U32_SPAN: nat := 0x1_0000_0000
  const U64_MAX: nat := 0xFFFF_FFFF_FFFF_FFFF
  const U64_SPAN: nat := U64_MAX + 1

  type u64 = x: int | 0 <= x <= U64_MAX
  type u32 = x: int | 0 <= x < U32_SPAN
  type byte = x: int | 0 <= x < 256

  ghost predicate Distinct<T(!new)>(s: seq<T>) {
    forall i, j :: 0 <= i < j < |s| ==> s[i] != s[j]
  }

  /** What `Distinct` says of two positions, for proofs that hide its definition. */
  lemma DistinctAt<T(!new)>(s: seq<T>, i: nat, j: nat)
    requires Distinct(s) && i < |s| && j < |s|
    ensures s[i] == s[j] <==> i == j
  {
  }

  lemma TimesOneMore(n: nat, x: nat)
    ensures (n + 1) * x == n * x + x
  {
  }

  lemma {:induction false} TimesFewer(c: nat, n: nat, x: nat)
    requires c < n
    ensures c * x + x <= n * x
  {
    TimesOneMore(n - 1, x);
    if c < n - 1 {
      TimesFewer(c, n - 1, x);
    }
  }
}
