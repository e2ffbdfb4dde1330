/** The sequence the engine is meant to produce, stated on plain numbers. */
module FibonacciMath {
  import opened Tfhe

  /** The Fibonacci numbers over unbounded naturals. */
  function Fib(n: nat): nat {
    if n < 2 then n else Fib(n - 1) + Fib(n - 2)
  }

  /** The recurrence as it runs on `FheUint32`: seeds 0 and 1, then each term is the
      wrapped sum of the two before it. */
  function WrappedFib(n: nat): U32 {
    if n < 2 then n else WrappingAdd(WrappedFib(n - 1), WrappedFib(n - 2))
  }

  /** How many terms `compute_sequence(k)` returns: never fewer than the two seeds. */
  function TermCount(k: nat): nat {
    if k < 2 then 2 else k
  }

  /** Adding the residues with wrap-around gives the residue of the sum. */
  lemma WrappingAddOfResidues(x: nat, y: nat)
    ensures WrappingAdd(x % Modulus, y % Modulus) == (x + y) % Modulus
  {
  }

  /** Wrapping never loses track of the true sequence: every term is the true
      Fibonacci number reduced modulo 2^32. */
  lemma {:induction false} WrappedFibIsFibModulo(n: nat)
    ensures WrappedFib(n) == Fib(n) % Modulus
  {
    if n >= 2 {
      WrappedFibIsFibModulo(n - 1);
      WrappedFibIsFibModulo(n - 2);
      WrappingAddOfResidues(Fib(n - 1), Fib(n - 2));
    }
  }

  /** The first ten terms, none of which wraps. */
  lemma FirstTenTerms()
    ensures forall i :: 0 <= i < 10 ==> WrappedFib(i) == [0, 1, 1, 2, 3, 5, 8, 13, 21, 34][i]
  {
  }
}
