/** The encrypted Fibonacci engine of `src/fibonacci/implementation.rs`: it owns a key
    pair, encrypts the seeds 0 and 1, runs the sliding-window recurrence on ciphertexts,
    decrypts the result and records which timing phases have run. Durations themselves
    come from a clock and are not modelled: a timing field is either recorded or not,
    and the per-step list is kept as its number of entries. */
module Implementation {
  import opened Wrappers
  import opened Tfhe
  import opened FibonacciMath

  /** The predefined security levels. */
  datatype SecurityLevel = Default | Fast | Custom(config: Config)

  /** A security level with its human-readable description. */
  datatype ConfigParams = ConfigParams(securityLevel: SecurityLevel, description: string)

  /** `ConfigParams::default()`. */
  const DefaultParams: ConfigParams := ConfigParams(Default, "Default security parameters")

  /** The parameters `FibonacciEncrypted::new_fast` passes on. */
  const FastParams: ConfigParams := ConfigParams(Fast, "Faster but less secure parameters")

  /** The key-generation config built for a level: only a custom level changes the
      parameters, the fast level builds exactly what the default level builds. */
  function ConfigFor(level: SecurityLevel): (c: Config)
    ensures level.Custom? ==> c == level.config
    ensures !level.Custom? ==> c == DefaultConfig
  {
    match level
    case Default => DefaultConfig
    case Fast => DefaultConfig
    case Custom(config) => config
  }

  /** Which timings have been recorded (`FibonacciTimings`). */
  datatype Timings = Timings(
    keyGeneration: bool,
    serverKeySetup: bool,
    encryption: bool,
    computation: bool,
    computationSteps: nat,
    decryption: bool,
    total: bool)

  /** `FibonacciTimings::default()`: nothing recorded. */
  const NoTimings: Timings := Timings(false, false, false, false, 0, false, false)

  /** The rows of the phase table of the timing summary, in the order they are printed. */
  datatype Phase = KeyGeneration | ServerKeySetup | InitialEncryption | FheComputation | Decryption

  function PhaseRank(p: Phase): nat {
    match p
    case KeyGeneration => 0
    case ServerKeySetup => 1
    case InitialEncryption => 2
    case FheComputation => 3
    case Decryption => 4
  }

  /** The order of the phase rows. */
  const PhaseOrder: seq<Phase> :=
    [KeyGeneration, ServerKeySetup, InitialEncryption, FheComputation, Decryption]

  predicate Ascending(phases: seq<Phase>) {
    forall i, j :: 0 <= i < j < |phases| ==> PhaseRank(phases[i]) < PhaseRank(phases[j])
  }

  predicate Recorded(t: Timings, p: Phase) {
    match p
    case KeyGeneration => t.keyGeneration
    case ServerKeySetup => t.serverKeySetup
    case InitialEncryption => t.encryption
    case FheComputation => t.computation
    case Decryption => t.decryption
  }

  /** The phases of `order` that `t` has a time for, keeping their order. */
  function RecordedAmong(t: Timings, order: seq<Phase>): (r: seq<Phase>)
    ensures forall p :: p in r <==> p in order && Recorded(t, p)
    ensures Ascending(order) ==> Ascending(r)
  {
    if order == [] then []
    else
      var rest := RecordedAmong(t, order[1..]);
      if Recorded(t, order[0]) then
        AscendingCons(order, rest);
        [order[0]] + rest
      else rest
  }

  lemma AscendingCons(order: seq<Phase>, rest: seq<Phase>)
    requires order != [] && (Ascending(order[1..]) ==> Ascending(rest))
    requires forall p :: p in rest ==> p in order[1..]
    ensures Ascending(order) ==> Ascending([order[0]] + rest)
  {
    if Ascending(order) {
      assert Ascending(order[1..]);
      forall j | 0 <= j < |rest| ensures PhaseRank(order[0]) < PhaseRank(rest[j]) {
        assert rest[j] in order[1..];
        var m :| 0 <= m < |order[1..]| && order[1..][m] == rest[j];
        assert order[m + 1] == rest[j];
      }
    }
  }

  /** What `print_timing_summary` prints, without the formatting: the configuration
      description, the phases that have a row, the term index each step row is
      labelled with, and the number of steps the average is divided by, if it is printed. */
  datatype Summary = Summary(
    configuration: string,
    phases: seq<Phase>,
    stepTerms: seq<nat>,
    averageOver: Option<nat>)

  /** The element step of `decrypt_sequence`: one plaintext per ciphertext, in order. */
  function DecryptEach(ck: ClientKey, cts: seq<Ciphertext>): (r: seq<U32>)
    requires forall i :: 0 <= i < |cts| ==> cts[i].key == ck.id
    ensures |r| == |cts|
    ensures forall i :: 0 <= i < |cts| ==> r[i] == Decrypt(ck, cts[i])
  {
    if cts == [] then [] else [Decrypt(ck, cts[0])] + DecryptEach(ck, cts[1..])
  }

  class FibonacciEncrypted {
    const clientKey: ClientKey
    const serverKey: ServerKey
    var timings: Timings
    const configParams: ConfigParams

    /** The keys are a matching pair built from the configured level; key generation
        has been timed; the total is never recorded. */
    ghost predicate Valid()
      reads this
    {
      && KeysMatch(clientKey, serverKey)
      && clientKey.config == ConfigFor(configParams.securityLevel)
      && timings.keyGeneration
      && !timings.total
    }

    /** `FibonacciEncrypted::with_config(params)`; `keySeed` stands for the randomness
        of key generation. Only the key-generation time is recorded. */
    constructor WithConfig(params: ConfigParams, keySeed: nat)
      ensures Valid()
      ensures configParams == params && clientKey.id == keySeed
      ensures timings == NoTimings.(keyGeneration := true)
    {
      var keys := GenerateKeys(ConfigFor(params.securityLevel), keySeed);
      clientKey := keys.0;
      serverKey := keys.1;
      timings := NoTimings.(keyGeneration := true);
      configParams := params;
    }

    /** `FibonacciEncrypted::new()`. */
    static method New(keySeed: nat) returns (fib: FibonacciEncrypted)
      ensures fresh(fib) && fib.Valid()
      ensures fib.configParams == DefaultParams && fib.clientKey.id == keySeed
      ensures fib.timings == NoTimings.(keyGeneration := true)
    {
      fib := new FibonacciEncrypted.WithConfig(DefaultParams, keySeed);
    }

    /** `FibonacciEncrypted::new_fast()`. */
    static method NewFast(keySeed: nat) returns (fib: FibonacciEncrypted)
      ensures fresh(fib) && fib.Valid()
      ensures fib.configParams == FastParams && fib.clientKey.id == keySeed
      ensures fib.timings == NoTimings.(keyGeneration := true)
    {
      fib := new FibonacciEncrypted.WithConfig(FastParams, keySeed);
    }

    /** `encrypt_initial_values`: the seeds 0 and 1 under the client key; records the
        encryption time and nothing else. */
    method EncryptInitialValues() returns (a: Ciphertext, b: Ciphertext)
      requires Valid()
      modifies this
      ensures Valid()
      ensures a.key == clientKey.id && b.key == clientKey.id
      ensures Decrypt(clientKey, a) == 0 && Decrypt(clientKey, b) == 1
      ensures timings == old(timings).(encryption := true)
    {
      a := Encrypt(clientKey, 0);
      b := Encrypt(clientKey, 1);
      timings := timings.(encryption := true);
    }

    /** `compute_sequence(k)`: installs the evaluation key, encrypts the seeds and
        appends `k - 2` wrapped sums; the output always holds both seeds, so `k < 2`
        still yields two terms. Term i decrypts to the i-th wrapped Fibonacci number.
        The step list is reset and then holds one entry per computed term. */
    method ComputeSequence(slot: ServerKeySlot, k: nat) returns (sequence: seq<Ciphertext>)
      requires Valid()
      modifies this, slot
      ensures Valid()
      ensures slot.active == Some(serverKey)
      ensures |sequence| == TermCount(k)
      ensures forall i :: 0 <= i < |sequence| ==> sequence[i].key == clientKey.id
      ensures Decrypt(clientKey, sequence[0]) == 0 && Decrypt(clientKey, sequence[1]) == 1
      ensures forall i :: 2 <= i < |sequence| ==>
        Decrypt(clientKey, sequence[i]) ==
        WrappingAdd(Decrypt(clientKey, sequence[i - 1]), Decrypt(clientKey, sequence[i - 2]))
      ensures forall i :: 0 <= i < |sequence| ==> Decrypt(clientKey, sequence[i]) == WrappedFib(i)
      ensures timings == old(timings).(serverKeySetup := true, encryption := true,
                                        computation := true, computationSteps := TermCount(k) - 2)
    {
      slot.SetServerKey(serverKey);
      timings := timings.(serverKeySetup := true);

      var a, b := EncryptInitialValues();
      sequence := [a, b];
      timings := timings.(computationSteps := 0);

      var i := 2;
      while i < k
        invariant 2 <= i <= TermCount(k)
        invariant |sequence| == i
        invariant a == sequence[i - 2] && b == sequence[i - 1]
        invariant forall j :: 0 <= j < i ==>
          sequence[j].key == clientKey.id && Decrypt(clientKey, sequence[j]) == WrappedFib(j)
        invariant slot.active == Some(serverKey)
        invariant timings == old(timings).(serverKeySetup := true, encryption := true,
                                            computationSteps := i - 2)
      {
        var next := Add(slot.active.value, a, b);
        a := b;
        b := next;
        sequence := sequence + [next];
        timings := timings.(computationSteps := timings.computationSteps + 1);
        i := i + 1;
      }

      timings := timings.(computation := true);
    }

    /** `decrypt_sequence`: one plaintext per ciphertext, in index order; records the
        decryption time and nothing else. The input is a value and is left as it was. */
    method DecryptSequence(sequence: seq<Ciphertext>) returns (result: seq<U32>)
      requires Valid()
      requires forall i :: 0 <= i < |sequence| ==> sequence[i].key == clientKey.id
      modifies this
      ensures Valid()
      ensures |result| == |sequence|
      ensures forall i :: 0 <= i < |sequence| ==> result[i] == Decrypt(clientKey, sequence[i])
      ensures timings == old(timings).(decryption := true)
    {
      result := DecryptEach(clientKey, sequence);
      timings := timings.(decryption := true);
    }

    /** `print_timing_summary`: one row per recorded phase, in a fixed order (the total
        is never printed); when there are steps, step j is labelled as term j + 2 and an
        average is printed, divided by the number of steps, which is then positive. */
    function TimingSummary(): (s: Summary)
      reads this
      ensures s.configuration == configParams.description
      ensures forall p :: p in s.phases <==> Recorded(timings, p)
      ensures Ascending(s.phases)
      ensures |s.stepTerms| == timings.computationSteps
      ensures forall j :: 0 <= j < |s.stepTerms| ==> s.stepTerms[j] == j + 2
      ensures s.averageOver.Some? <==> timings.computationSteps > 0
      ensures s.averageOver.Some? ==> s.averageOver.value == |s.stepTerms| && |s.stepTerms| > 0
    {
      var t := timings;
      var phases := RecordedAmong(t, PhaseOrder);
      var steps := seq(t.computationSteps, j => j + 2);
      Summary(configParams.description, phases, steps,
              if t.computationSteps == 0 then None else Some(t.computationSteps))
    }
  }
}
