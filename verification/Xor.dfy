/** Python's ^ on non-negative integers, and the algebra the cipher and the CRC rest on. */
module Xor {

  function Xor(a: nat, b: nat): nat
    decreases a + b
  {
    if a == 0 && b == 0 then 0
    else (if a % 2 == b % 2 then 0 else 1) + 2 * Xor(a / 2, b / 2)
  }

  lemma Unfold(a: nat, b: nat)
    ensures Xor(a, b) % 2 == if a % 2 == b % 2 then 0 else 1
    ensures Xor(a, b) / 2 == Xor(a / 2, b / 2)
  {
    Halve(if a % 2 == b % 2 then 0 else 1, Xor(a / 2, b / 2));
  }

  lemma Halve(r: nat, q: nat)
    requires r <= 1
    ensures (r + 2 * q) % 2 == r && (r + 2 * q) / 2 == q
  {
  }

  lemma {:induction false} Zero(a: nat)
    ensures Xor(a, 0) == a
  {
    if a != 0 {
      Zero(a / 2);
    }
  }

  lemma {:induction false} Commutes(a: nat, b: nat)
    ensures Xor(a, b) == Xor(b, a)
    decreases a + b
  {
    if a != 0 || b != 0 {
      Commutes(a / 2, b / 2);
    }
  }

  lemma UnfoldTwice(a: nat, b: nat, c: nat)
    ensures Xor(Xor(a, b), c) / 2 == Xor(Xor(a / 2, b / 2), c / 2)
    ensures Xor(a, Xor(b, c)) / 2 == Xor(a / 2, Xor(b / 2, c / 2))
    ensures Xor(Xor(a, b), c) % 2 == Xor(a, Xor(b, c)) % 2
  {
    Unfold(a, b);
    Unfold(b, c);
    Unfold(Xor(a, b), c);
    Unfold(a, Xor(b, c));
  }

  lemma SameHalves(x: nat, y: nat)
    requires x % 2 == y % 2 && x / 2 == y / 2
    ensures x == y
  {
  }

  lemma {:induction false} Associates(a: nat, b: nat, c: nat)
    ensures Xor(Xor(a, b), c) == Xor(a, Xor(b, c))
    decreases a + b + c
  {
    if a != 0 || b != 0 || c != 0 {
      Associates(a / 2, b / 2, c / 2);
      UnfoldTwice(a, b, c);
      SameHalves(Xor(Xor(a, b), c), Xor(a, Xor(b, c)));
    }
  }

  lemma {:induction false} SelfInverse(a: nat)
    ensures Xor(a, a) == 0
  {
    if a != 0 {
      SelfInverse(a / 2);
    }
  }

  lemma Cancel(a: nat, b: nat)
    ensures Xor(Xor(a, b), b) == a
  {
    Associates(a, b, b);
    SelfInverse(b);
    Zero(a);
  }

  lemma CancelRight(a: nat, b: nat, c: nat)
    requires Xor(a, c) == Xor(b, c)
    ensures a == b
  {
    Cancel(a, c);
    Cancel(b, c);
  }

  function Pow2(k: nat): nat {
    if k == 0 then 1 else 2 * Pow2(k - 1)
  }

  /** XOR stays within the width of its operands. */
  lemma {:induction false} Width(a: nat, b: nat, k: nat)
    requires a < Pow2(k) && b < Pow2(k)
    ensures Xor(a, b) < Pow2(k)
    decreases k
  {
    if k != 0 && (a != 0 || b != 0) {
      Width(a / 2, b / 2, k - 1);
    }
  }

  /** A top bit carried by exactly one operand survives. */
  lemma {:induction false} TopBit(a: nat, b: nat, k: nat)
    requires Pow2(k) <= a < Pow2(k + 1) && b < Pow2(k)
    ensures Pow2(k) <= Xor(a, b) < Pow2(k + 1)
    decreases k
  {
    if k != 0 {
      TopBit(a / 2, b / 2, k - 1);
    }
  }

  function BitAt(n: nat, k: nat): nat
    decreases k
  {
    if k == 0 then n % 2 else BitAt(n / 2, k - 1)
  }

  /** Bit by bit: set where exactly one of the two is. */
  lemma {:induction false} Bitwise(a: nat, b: nat, k: nat)
    ensures BitAt(Xor(a, b), k) == if BitAt(a, k) == BitAt(b, k) then 0 else 1
    decreases k
  {
    Unfold(a, b);
    if k != 0 {
      Bitwise(a / 2, b / 2, k - 1);
    }
  }
}
