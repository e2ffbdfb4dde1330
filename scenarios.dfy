/** The unit tests of `src/fibonacci/tests.rs`, and the end-to-end behaviour of the
    engine, as client methods that see only the engine's contracts. */
module Scenarios {
  import opened Tfhe
  import opened FibonacciMath
  import opened Implementation

  /** `test_fibonacci_sequence`: ten terms under the default configuration. */
  method FibonacciSequence(keySeed: nat) returns (decrypted: seq<U32>)
    ensures decrypted == [0, 1, 1, 2, 3, 5, 8, 13, 21, 34]
  {
    var fib := FibonacciEncrypted.New(keySeed);
    var slot := new ServerKeySlot();
    var encrypted := fib.ComputeSequence(slot, 10);
    decrypted := fib.DecryptSequence(encrypted);
    FirstTenTerms();
  }

  /** `test_initial_values`: the seeds decrypt to 0 and 1. */
  method InitialValues(keySeed: nat) returns (aDecrypted: U32, bDecrypted: U32)
    ensures aDecrypted == 0 && bDecrypted == 1
  {
    var fib := FibonacciEncrypted.New(keySeed);
    var a, b := fib.EncryptInitialValues();
    aDecrypted := Decrypt(fib.clientKey, a);
    bDecrypted := Decrypt(fib.clientKey, b);
  }

  /** Fewer than two requested terms still yield both seeds. */
  method ShortRequest(keySeed: nat, k: nat) returns (decrypted: seq<U32>)
    requires k < 2
    ensures decrypted == [0, 1]
  {
    var fib := FibonacciEncrypted.New(keySeed);
    var slot := new ServerKeySlot();
    var encrypted := fib.ComputeSequence(slot, k);
    decrypted := fib.DecryptSequence(encrypted);
  }

  /** Two sessions with independent keys, one default and one fast, decrypt to the same
      sequence, which is the true Fibonacci sequence modulo 2^32; decrypting the same
      ciphertexts twice gives the same plaintexts. */
  method IndependentSessionsAgree(seed1: nat, seed2: nat, k: nat)
    returns (first: seq<U32>, second: seq<U32>, again: seq<U32>)
    ensures first == second == again
    ensures |first| == TermCount(k)
    ensures forall i :: 0 <= i < |first| ==> first[i] == Fib(i) % Modulus
  {
    var slot := new ServerKeySlot();
    var fib1 := FibonacciEncrypted.New(seed1);
    var encrypted1 := fib1.ComputeSequence(slot, k);
    first := fib1.DecryptSequence(encrypted1);
    again := fib1.DecryptSequence(encrypted1);

    var fib2 := FibonacciEncrypted.NewFast(seed2);
    var encrypted2 := fib2.ComputeSequence(slot, k);
    second := fib2.DecryptSequence(encrypted2);

    forall i | 0 <= i < |first| ensures first[i] == Fib(i) % Modulus {
      WrappedFibIsFibModulo(i);
    }
  }

  /** The full run of `main` after parsing: after computing and decrypting, the timing
      summary has a row for every phase, one step row per computed term labelled with
      that term's index, and an average over a positive number of steps exactly when
      more than two terms were requested. */
  method TimedRun(keySeed: nat, k: nat) returns (summary: Summary)
    ensures forall p :: p in summary.phases
    ensures |summary.stepTerms| == TermCount(k) - 2
    ensures forall j :: 0 <= j < |summary.stepTerms| ==> 2 <= summary.stepTerms[j] < TermCount(k)
    ensures summary.averageOver.Some? <==> k > 2
  {
    var fib := FibonacciEncrypted.New(keySeed);
    var slot := new ServerKeySlot();
    var encrypted := fib.ComputeSequence(slot, k);
    var decrypted := fib.DecryptSequence(encrypted);
    summary := fib.TimingSummary();
  }
}
