// Fixed-width sizes and addresses with overflow checks (src/semantic/tensor_mapping.cpp).
module CheckedArithmetic {
  import opened Outcomes

  const MAX: nat := 0xffff_ffff_ffff_ffff

  type Size = n: nat | n <= MAX

  datatype Error =
    | Overflow | EmptyShape | ZeroDimension | EmptyName | EmptyAllocationId | EmptyLifetime | ZeroAddress
    | NotContiguous | AllocationTooSmall | DuplicateName | RangesOverlap | UnknownTensor | ElementOutOfRange
    | BitOutOfRange | NotMapped

  type Result<T> = Outcome<T, Error>

  // Throws exactly when the product does not fit.
  function Multiply(lhs: Size, rhs: Size): (r: Result<Size>)
    ensures r == if lhs * rhs <= MAX then Ok(lhs * rhs) else Thrown(Overflow)
  {
    if lhs != 0 then
      GuardIsExact(lhs, rhs);
      if rhs > MAX / lhs then Thrown(Overflow) else Ok(lhs * rhs)
    else Ok(0)
  }

  lemma GuardIsExact(lhs: nat, rhs: nat)
    requires lhs > 0
    ensures rhs > MAX / lhs <==> lhs * rhs > MAX
  {
    var q := MAX / lhs;
    assert lhs * q <= MAX < lhs * (q + 1);
    if rhs > q {
      MultiplyMonotone(lhs, q + 1, rhs);
    } else {
      MultiplyMonotone(lhs, rhs, q);
    }
  }

  lemma MultiplyMonotone(a: nat, b: nat, c: nat)
    requires b <= c
    ensures a * b <= a * c
  {
  }

  function AddressAdd(base: Size, offset: Size): Result<Size> {
    if offset > MAX - base then Thrown(Overflow) else Ok(base + offset)
  }

  function Product(s: seq<nat>): nat {
    if s == [] then 1 else Product(s[..|s| - 1]) * s[|s| - 1]
  }

  predicate AllPositive(s: seq<nat>) {
    forall i | 0 <= i < |s| :: s[i] > 0
  }

  lemma {:induction false} ProductGrows(s: seq<nat>, n: nat)
    requires AllPositive(s) && n <= |s|
    ensures 1 <= Product(s[..n]) <= Product(s)
  {
    if n == |s| {
      assert s[..n] == s;
      if n > 0 {
        ProductGrows(s[..n - 1], 0);
        ProductGrows(s[..n - 1], n - 1);
        assert s[..n - 1][..n - 1] == s[..n - 1];
        MultiplyMonotone(Product(s[..n - 1]), 1, s[n - 1]);
      }
    } else {
      var t := s[..|s| - 1];
      ProductGrows(t, n);
      assert t[..n] == s[..n];
      MultiplyMonotone(Product(t), 1, s[|s| - 1]);
    }
  }

  lemma {:induction false} ProductSplits(s: seq<nat>, t: seq<nat>)
    ensures Product(s + t) == Product(s) * Product(t)
  {
    if t == [] {
      assert s + t == s;
    } else {
      var n := |t| - 1;
      assert (s + t)[..|s + t| - 1] == s + t[..n];
      ProductSplits(s, t[..n]);
      MultiplyAssociates(Product(s), Product(t[..n]), t[n]);
    }
  }

  lemma MultiplyAssociates(a: nat, b: nat, c: nat)
    ensures a * (b * c) == (a * b) * c
  {
  }
}
