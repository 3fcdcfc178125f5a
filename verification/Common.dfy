/** Vocabulary shared by every module: optional values, results, machine integers. */
module Common {

  datatype Option<+T> = None | Some(value: T)

  datatype Result<+T, +E> = Success(value: T) | Failure(error: E) {
    predicate IsFailure() {
      Failure?
    }

    function PropagateFailure<U>(): Result<U, E>
      requires Failure?
    {
      Failure(error)
    }

    function Extract(): T
      requires Success?
    {
      value
    }

    // Reports the failure in another vocabulary.
    function MapFailure<F>(rewrap: E -> F): Result<T, F> {
      if Success? then Success(value) else Failure(rewrap(error))
    }
  }

  const TWO_32: int := 0x1_0000_0000

  type u32 = n: int | 0 <= n < 0x1_0000_0000
  type u64 = n: int | 0 <= n < 0x1_0000_0000_0000_0000
  type i32 = n: int | -0x8000_0000 <= n < 0x8000_0000

  // static_cast<uint32_t> of a signed 32-bit value.
  function ToU32(v: i32): (r: u32)
    ensures (r - v) % TWO_32 == 0 && (v >= 0 ==> r == v)
  {
    v % TWO_32
  }

  // static_cast<int32_t> of an unsigned 32-bit value.
  function ToI32(v: u32): (r: i32)
    ensures (r - v) % TWO_32 == 0 && (v < 0x8000_0000 ==> r == v)
  {
    if v < 0x8000_0000 then v else v - TWO_32
  }

  function Last<T>(s: seq<T>): T
    requires |s| > 0
  {
    s[|s| - 1]
  }
}
