/** Byte comparison as the console's credentials use it (`auth.rs`). */
module Auth {
  import opened Prelude

  type Byte = n: nat | n < 256

  type Bytes = seq<Byte>

  /** The machine's `^` on unsigned words, bit by bit; it never needs more bits than its operands. */
  function BitXor(a: nat, b: nat): nat {
    if a == 0 && b == 0 then 0 else 2 * BitXor(a / 2, b / 2) + (if a % 2 == b % 2 then 0 else 1)
  }

  /** The machine's `|` on unsigned words. */
  function BitOr(a: nat, b: nat): nat {
    if a == 0 && b == 0 then 0 else 2 * BitOr(a / 2, b / 2) + (if a % 2 == 0 && b % 2 == 0 then 0 else 1)
  }

  lemma {:induction false} XorZero(a: nat, b: nat)
    ensures BitXor(a, b) == 0 <==> a == b
  {
    if a > 0 || b > 0 {
      XorZero(a / 2, b / 2);
    }
  }

  lemma {:induction false} OrZero(a: nat, b: nat)
    ensures BitOr(a, b) == 0 <==> a == 0 && b == 0
  {
    if a > 0 || b > 0 {
      OrZero(a / 2, b / 2);
    }
  }

  /** `slice.get(index).copied().unwrap_or(0)` */
  function ByteAt(bytes: Bytes, index: nat): Byte {
    if index < |bytes| then bytes[index] else 0
  }

  /**
   Runs over the longer of the two whatever the bytes are, and accepts exactly equal byte strings: padding
   the shorter one with zeros cannot make it match because the lengths are compared too.
   */
  method ConstantTimeEq(left: Bytes, right: Bytes) returns (equal: bool)
    ensures equal <==> left == right
  {
    hide BitXor, BitOr;
    XorZero(|left|, |right|);
    var difference := BitXor(|left|, |right|);
    for index := 0 to Max(|left|, |right|)
      invariant difference == 0 <==> |left| == |right| && forall k :: 0 <= k < index ==> ByteAt(left, k) == ByteAt(right, k)
    {
      var byteDifference := BitXor(ByteAt(left, index), ByteAt(right, index));
      XorZero(ByteAt(left, index), ByteAt(right, index));
      OrZero(difference, byteDifference);
      difference := BitOr(difference, byteDifference);
    }
    equal := difference == 0;
    assert |left| == |right| ==> forall k :: 0 <= k < |left| ==> ByteAt(left, k) == left[k] && ByteAt(right, k) == right[k];
  }
}
