/** Result types, machine integer ranges and sums over sparse storage maps, shared by all models. */
module Base {
  datatype Option<+T> = None | Some(value: T)

  datatype Result<+T, +E> = Ok(value: T) | Err(error: E) {
    predicate IsFailure() {
      Err?
    }

    function PropagateFailure<U>(): Result<U, E>
      requires Err?
    {
      Err(error)
    }

    function Extract(): T
      requires Ok?
    {
      value
    }
  }

  /** Accounts, contracts and ids are opaque identities: only equality matters. */
  type Address = int

  type U32 = x: int | 0 <= x <= 0xFFFF_FFFF

  const U64_MAX := 0xFFFF_FFFF_FFFF_FFFF
  const I64_MAX := 0x7FFF_FFFF_FFFF_FFFF
  const I128_MAX := 0x7FFF_FFFF_FFFF_FFFF_FFFF_FFFF_FFFF_FFFF

  predicate InI64(x: int) {
    -I64_MAX - 1 <= x <= I64_MAX
  }

  type I64 = x: int | InI64(x)

  predicate InI128(x: int) {
    -I128_MAX - 1 <= x <= I128_MAX
  }

  type I128 = x: int | InI128(x)

  function Abs(x: int): nat {
    if x < 0 then -x else x
  }

  /** Division of the contracts: truncation toward zero. */
  function TruncDiv(a: int, b: int): int
    requires b != 0
  {
    var q := Abs(a) / Abs(b);
    if (a < 0) != (b < 0) then -q else q
  }

  // The quotient toward zero: what is left over is smaller than the divisor and has the sign of the dividend.
  lemma TruncatesTowardZero(a: int, b: int)
    requires b != 0
    ensures var rest := a - TruncDiv(a, b) * b;
            Abs(rest) < Abs(b) && (rest == 0 || (rest < 0 <==> a < 0))
  {
  }

  function SaturatingSub(a: int, b: int): int {
    var d := a - b;
    if d > I128_MAX then I128_MAX else if d < -I128_MAX - 1 then -I128_MAX - 1 else d
  }

  // A difference out of range becomes the end of the range on its side.
  lemma SaturatesAtTheEnds(a: int, b: int)
    ensures InI128(a - b) ==> SaturatingSub(a, b) == a - b
    ensures a - b > 0 && !InI128(a - b) ==> SaturatingSub(a, b) == 0x7FFF_FFFF_FFFF_FFFF_FFFF_FFFF_FFFF_FFFF
    ensures a - b < 0 && !InI128(a - b) ==> SaturatingSub(a, b) == -0x8000_0000_0000_0000_0000_0000_0000_0000
  {
  }

  /**
   * One contract call as the host runs it. `spec` is the specified outcome: on `Ok` the new
   * storage and the returned value, on `Err` an error, after which the host has rolled every
   * storage write back.
   */
  ghost predicate Committed<S, T, E>(before: S, after: S, r: Result<T, E>, spec: Result<(S, T), E>) {
    match spec
    case Ok(pair) => after == pair.0 && r == Ok(pair.1)
    case Err(e) => after == before && r == Err(e)
  }

  // ---------------------------------------------------------------- sparse storage rows

  /** Reading a row that may be absent: `get(..).unwrap_or(0)`. */
  function Row<K>(m: map<K, int>, k: K): int {
    if k in m then m[k] else 0
  }

  /** A zero amount is stored as an absent row. */
  function Put<K>(m: map<K, int>, k: K, v: int): map<K, int> {
    if v == 0 then m - {k} else m[k := v]
  }

  ghost predicate RowsPositive<K>(m: map<K, int>) {
    forall k :: k in m ==> m[k] > 0
  }

  // Two sparse maps without zero rows are equal when every read agrees.
  lemma RowsDetermineMap<K>(m: map<K, int>, n: map<K, int>)
    requires RowsPositive(m) && RowsPositive(n)
    requires forall k :: Row(m, k) == Row(n, k)
    ensures m == n
  {
    forall k ensures k in m <==> k in n {
      assert Row(m, k) == Row(n, k);
    }
    forall k | k in m ensures m[k] == n[k] {
      assert Row(m, k) == Row(n, k);
    }
  }
}
