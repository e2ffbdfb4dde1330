# Encrypted Fibonacci engine, modelled in Dafny

This project models the core of `tfhe-applicability`, a benchmark that computes the
Fibonacci sequence over data encrypted with TFHE (fully homomorphic encryption):

- **the engine** `FibonacciEncrypted` (`src/fibonacci/implementation.rs`): key
  generation from a security level, encryption of the seeds 0 and 1, the sliding-window
  loop `next = a + b; a = b; b = next` on ciphertexts, element-wise decryption, and the
  bookkeeping of which timing phases have run, together with the timing summary;
- **the argument loop** at the start of `main` (`tfhe-applicability/examples/fibonacci.rs`), which sets the
  number of terms `k` and the fast mode and stops at a help flag.

The TFHE library is an abstract, well-specified dependency (module `Tfhe`): a ciphertext
carries a `u32` plaintext and the identity of its key pair; `Encrypt` and `Decrypt`
round-trip under the matching client key; `Add` wraps modulo 2^32. The key installed by
`set_server_key` is modelled as an explicit object, `ServerKeySlot`, that
`ComputeSequence` writes and each homomorphic addition reads.

Modules: `Wrappers` (Option), `Tfhe`, `FibonacciMath` (the sequence on plain numbers),
`Implementation` (implementation.rs), `Arguments` (the argument loop of fibonacci.rs),
`Scenarios` (the unit tests of tests.rs and end-to-end runs, written as client methods
that see only the engine's contracts).

Three details of the code that the model pins down:

- `compute_sequence(k)` seeds its output with both encrypted seeds before the loop
  `2..k`, so it returns `max(k, 2)` terms: `k = 0` and `k = 1` yield `[0, 1]`.
- An unparsable `--num=` value leaves `k` at its value so far (a previous valid
  `--num=` may have changed it), not necessarily at the default 10.
- The fast level builds exactly the default key-generation config; only its description
  differs. A custom config is used as given and never reported as invalid.

## Model

| member | source | states |
|---|---|---|
| `Tfhe.WrappingAdd` | tfhe-applicability/src/fibonacci/implementation.rs:151 | the plaintext sum of `FheUint32 + FheUint32` is `(x + y) mod 2^32`, and equals `x + y` when that fits |
| `Tfhe.GenerateKeys` | tfhe-applicability/src/fibonacci/implementation.rs:87 | `generate_keys` yields a matching client/server pair built from the given config |
| `Tfhe.Encrypt` | tfhe-applicability/src/fibonacci/implementation.rs:109-112 | an encryption under a client key carries that key and decrypts back to the plaintext |
| `Tfhe.Add` | tfhe-applicability/src/fibonacci/implementation.rs:151 | homomorphic addition under the evaluation key decrypts, under every matching client key, to the wrapped sum of the operands' plaintexts |
| `Tfhe.ServerKeySlot.SetServerKey` | tfhe-applicability/src/fibonacci/implementation.rs:129 | after `set_server_key` the given evaluation key is the active one |
| `FibonacciMath.WrappedFibIsFibModulo` | tfhe-applicability/src/fibonacci/implementation.rs:147-161 | every term of the wrapped recurrence is the true Fibonacci number modulo 2^32 (overflow wraps, no error) |
| `FibonacciMath.FirstTenTerms` | tfhe-applicability/src/fibonacci/tests.rs:16 | the first ten terms are 0, 1, 1, 2, 3, 5, 8, 13, 21, 34 |
| `Implementation.ConfigFor` | tfhe-applicability/src/fibonacci/implementation.rs:76-85 | a custom level builds its own config; the default and the fast level both build the default config |
| `Implementation.DecryptEach` | tfhe-applicability/src/fibonacci/implementation.rs:188-191 | decryption maps each ciphertext to its plaintext: same length, same order |
| `Implementation.RecordedAmong` | tfhe-applicability/src/fibonacci/implementation.rs:208-226 | the phase rows are exactly the recorded phases, kept in the fixed row order |
| `Implementation.FibonacciEncrypted.WithConfig` | tfhe-applicability/src/fibonacci/implementation.rs:71-102 | keys form a matching pair built from the level's config; only the key-generation time is recorded; the params are kept |
| `Implementation.FibonacciEncrypted.New` | tfhe-applicability/src/fibonacci/implementation.rs:58-60 | a fresh engine with the default parameters |
| `Implementation.FibonacciEncrypted.NewFast` | tfhe-applicability/src/fibonacci/implementation.rs:63-68 | a fresh engine with the fast parameters |
| `Implementation.FibonacciEncrypted.EncryptInitialValues` | tfhe-applicability/src/fibonacci/implementation.rs:105-121 | returns encryptions of 0 and 1 under the client key; records the encryption time and nothing else |
| `Implementation.FibonacciEncrypted.ComputeSequence` | tfhe-applicability/src/fibonacci/implementation.rs:124-181 | installs the evaluation key; returns `max(k, 2)` ciphertexts under the client key; terms 0 and 1 decrypt to the seeds; every later term decrypts to the wrapped sum of the two before it, i.e. to the i-th wrapped Fibonacci number; the step list is reset and holds `max(k, 2) - 2` entries; server-key setup, encryption and computation are recorded; key generation, decryption and total are untouched |
| `Implementation.FibonacciEncrypted.DecryptSequence` | tfhe-applicability/src/fibonacci/implementation.rs:184-199 | one plaintext per ciphertext in index order; records the decryption time and nothing else |
| `Implementation.FibonacciEncrypted.TimingSummary` | tfhe-applicability/src/fibonacci/implementation.rs:202-242 | a phase row exactly for each recorded phase, in fixed order, never one for the total; step j labelled as term j + 2; the average printed exactly when there are steps, and then divided by their positive number |
| `Arguments.TrimStartMatches` | tfhe-applicability/examples/fibonacci.rs:17 | `trim_start_matches` returns a suffix of its input that no longer starts with the prefix |
| `Arguments.TrimRepeated` | tfhe-applicability/examples/fibonacci.rs:17 | every leading copy of the prefix is stripped, and nothing after them |
| `Arguments.ParseUsize` | tfhe-applicability/examples/fibonacci.rs:17 | `parse::<usize>` accepts only an optional leading `+` followed by digits (every character after the first is a digit); its value is at most `usize::MAX`; the empty string and a lone `+` are rejected |
| `Arguments.LeadingZeroValue` | tfhe-applicability/examples/fibonacci.rs:17 | a leading zero does not change the number a non-empty digit string denotes |
| `Arguments.ParseUsizeLeadingZero` | tfhe-applicability/examples/fibonacci.rs:17 | `parse::<usize>` gives the same result for a digit string with a leading zero, with or without a `+`, as for the string itself |
| `Arguments.DecimalValueOfString` | tfhe-applicability/examples/fibonacci.rs:17 | the decimal digits of `n` denote `n` |
| `Arguments.ParseUsizeRoundTrip` | tfhe-applicability/examples/fibonacci.rs:17 | parsing the decimal form of any `n <= usize::MAX`, with or without `+`, gives back `n` |
| `Arguments.NumArgIsNoFlag` | tfhe-applicability/examples/fibonacci.rs:16-24 | an argument with the `--num=` prefix is never taken for `--fast` or a help flag |
| `Arguments.NumArgRoundTrip` | tfhe-applicability/examples/fibonacci.rs:16-18 | `--num=N`, with the prefix repeated any positive number of times (`--num=--num=5`), sets `k` to N |
| `Arguments.ParseArgs` | tfhe-applicability/examples/fibonacci.rs:11-28 | the loop decides the same command as the left-to-right fold `ParsedCommand`, returning at the first help flag |
| `Arguments.LastValidNumCons` | tfhe-applicability/examples/fibonacci.rs:16-21 | the last-valid-`--num=` value of a list is that of its tail started from the value the first argument leaves |
| `Arguments.ScanHelp` | tfhe-applicability/examples/fibonacci.rs:15-28 | the fold ends in the help exactly when some remaining argument is a help flag |
| `Arguments.ScanWithoutHelp` | tfhe-applicability/examples/fibonacci.rs:15-28 | without a help flag the fold yields the last valid `--num=` value (else the current `k`) and fast mode when it was on or `--fast` occurs |
| `Arguments.HelpIffFlagPresent` | tfhe-applicability/examples/fibonacci.rs:24-27 | the help is shown exactly when `--help` or `-h` occurs after the program name; arguments after it do not matter |
| `Arguments.ComputeWithoutHelp` | tfhe-applicability/examples/fibonacci.rs:11-28 | without a help flag: `k` is the last `--num=` value that parses (later ones win, invalid ones are ignored, 10 if none, so 10 with no arguments), fast mode is on exactly when `--fast` occurs, the program name is skipped and other arguments are ignored |
| `Scenarios.FibonacciSequence` | tfhe-applicability/src/fibonacci/tests.rs:4-19 | ten terms under the default configuration decrypt to 0, 1, 1, 2, 3, 5, 8, 13, 21, 34 |
| `Scenarios.InitialValues` | tfhe-applicability/src/fibonacci/tests.rs:21-31 | the encrypted seeds decrypt to 0 and 1 |
| `Scenarios.ShortRequest` | tfhe-applicability/src/fibonacci/implementation.rs:138-147 | requesting fewer than two terms still decrypts to `[0, 1]` |
| `Scenarios.IndependentSessionsAgree` | tfhe-applicability/src/fibonacci/implementation.rs:124-199 | sessions with independent keys and either level decrypt to the same sequence, the true Fibonacci numbers modulo 2^32, and decrypting twice gives the same result |
| `Scenarios.TimedRun` | tfhe-applicability/src/fibonacci/implementation.rs:124-242 | after compute and decrypt, every phase has a row, there is one step row per computed term labelled with an index of a computed term, and an average exactly when `k > 2` |

## Left out

- Durations: `Instant`, `Duration::as_secs_f64`, the `f64` milliseconds and the
  floating-point average. A timing field is modelled as recorded or not, and
  `computation_steps` as its number of entries; the average is modelled by the number
  of steps it is divided by.
- All printing (`println!`, the tables, the invalid-number notice, `print_help`) and the
  result and summary printing of `main` after the argument loop.
- `env::args()`: the loop receives the arguments as a sequence of strings.
- TFHE internals: key-generation parameters, ciphertext layout, encryption randomness,
  noise and bootstrapping. The randomness of key generation is a `keySeed` parameter.
- `Tfhe.Decrypt`: decrypting a ciphertext made under another client key gives an
  unspecified value in the library; the model only decrypts ciphertexts of the matching
  key, so `DecryptSequence` requires its input to be under the engine's own key.
- `Implementation.FibonacciEncrypted.ComputeSequence`: `k` is an unbounded natural; the
  `usize` bound and `Vec::with_capacity`'s allocation are not modelled, and the
  `anyhow::Result` it returns is always `Ok`, so the model returns the sequence itself.
- `Arguments.ParseUsize`: `usize` is taken to be 64 bits wide.
- The `try_encrypt(...).expect(...)` failure path: encryption of a `u32` never fails.
