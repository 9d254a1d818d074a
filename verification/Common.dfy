/** Failure-carrying values, ids, integer casts and list helpers, shared by every component. */
module Common {

  datatype Option<+T> = None | Some(value: T)

  datatype Result<+T, +E> = Ok(value: T) | Err(error: E)

  /** `Vec::truncate`, and SQL's `LIMIT`. */
  function Take<T>(s: seq<T>, k: nat): seq<T> {
    if |s| <= k then s else s[..k]
  }

  const MAX_ID_LEN := 128

  /** `char::is_control` on ASCII. */
  predicate IsControl(code: int) { code < 0x20 || code == 0x7F }

  /** What `validate_id` accepts, on character codes. */
  predicate IsValidId(codes: seq<int>) {
    0 < |codes| <= MAX_ID_LEN && forall i :: 0 <= i < |codes| ==> codes[i] < 0x80 && !IsControl(codes[i])
  }

  const TWO_32: int := 0x1_0000_0000
  const TWO_31: int := 0x8000_0000

  /** `as u32`. */
  function AsU32(n: nat): (r: nat)
    ensures r < TWO_32 && (n < TWO_32 ==> r == n)
  {
    n % TWO_32
  }

  /** The signed 32-bit integer congruent to `n`: `as i32`, and subtraction that wraps. */
  function AsI32(n: int): (r: int)
    ensures -TWO_31 <= r < TWO_31 && (-TWO_31 <= n < TWO_31 ==> r == n)
  {
    (n + TWO_31) % TWO_32 - TWO_31
  }

  /** `wrapping_sub` on `i32`. */
  function WrappingSub(a: int, b: int): (r: int)
    ensures -TWO_31 <= r < TWO_31 && (-TWO_31 <= a - b < TWO_31 ==> r == a - b)
  {
    AsI32(a - b)
  }

  lemma ModShift(n: int, k: int)
    ensures (n + k * TWO_32) % TWO_32 == n % TWO_32
  {}

  lemma CastKeepsResidue(n: nat) returns (k: int)
    ensures n == AsI32(AsU32(n)) + k * TWO_32
  {
    k := if AsU32(n) < TWO_31 then n / TWO_32 else n / TWO_32 + 1;
  }

  /** Casting both operands before a wrapping subtraction loses nothing. */
  lemma WrappingDifference(a: nat, b: nat)
    ensures WrappingSub(AsI32(AsU32(a)), AsI32(AsU32(b))) == WrappingSub(a, b)
  {
    var k := CastKeepsResidue(a);
    var l := CastKeepsResidue(b);
    ModShift(AsI32(AsU32(a)) - AsI32(AsU32(b)) + TWO_31, k - l);
  }

  lemma {:induction false} SubsetSize<T>(a: set<T>, b: set<T>)
    requires a <= b
    ensures |a| <= |b|
  {
    if a != {} {
      var x :| x in a;
      SubsetSize(a - {x}, b - {x});
    }
  }

}
