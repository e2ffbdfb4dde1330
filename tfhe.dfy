/** The part of the TFHE library that the Fibonacci engine relies on, kept abstract:
    a ciphertext is an opaque value that carries a 32-bit plaintext and the identity
    of the key pair it was made under; encryption and decryption round-trip under
    the matching client key, and homomorphic addition wraps modulo 2^32. Key
    generation, noise, bootstrapping and the ciphertext layout are not modelled. */
module Tfhe {
  import opened Wrappers

  const Modulus: nat := 0x1_0000_0000

  /** Rust's `u32`. */
  type U32 = x: nat | x < 0x1_0000_0000

  /** The sum `FheUint32 + FheUint32` computes on the plaintexts: wrapping, never an error. */
  function WrappingAdd(x: U32, y: U32): (r: U32)
    ensures r == (x + y) % Modulus
    ensures x + y < Modulus ==> r == x + y
  {
    if x + y < Modulus then x + y else x + y - Modulus
  }

  /** A parameter set for key generation (`tfhe::Config`), opaque to the engine. */
  datatype Config = Config(parameters: seq<nat>)

  /** What `ConfigBuilder::default().build()` returns. */
  const DefaultConfig: Config := Config([])

  /** The private key: encrypts and decrypts. */
  datatype ClientKey = ClientKey(id: nat, config: Config)

  /** The evaluation key: enables homomorphic operations, cannot decrypt. */
  datatype ServerKey = ServerKey(id: nat, config: Config)

  /** An encrypted `u32` (`FheUint32`); only `Decrypt` looks inside. */
  datatype Ciphertext = Ciphertext(plain: U32, key: nat)

  predicate KeysMatch(ck: ClientKey, sk: ServerKey) {
    ck.id == sk.id && ck.config == sk.config
  }

  /** `generate_keys(config)`; the randomness of key generation is the parameter `seed`,
      so two generations with different seeds share no key material. */
  function GenerateKeys(config: Config, seed: nat): (keys: (ClientKey, ServerKey))
    ensures KeysMatch(keys.0, keys.1)
    ensures keys.0.config == config && keys.0.id == seed
  {
    (ClientKey(seed, config), ServerKey(seed, config))
  }

  /** `value.decrypt(&client_key)`; only ciphertexts made under this client key are
      decrypted (the library returns an unspecified value for any other). */
  function Decrypt(ck: ClientKey, ct: Ciphertext): U32
    requires ct.key == ck.id
  {
    ct.plain
  }

  /** `FheUint32::try_encrypt(value, &client_key)`, which never fails for a `u32`. */
  function Encrypt(ck: ClientKey, value: U32): (ct: Ciphertext)
    ensures ct.key == ck.id
    ensures Decrypt(ck, ct) == value
  {
    Ciphertext(value, ck.id)
  }

  /** `&x + &y` on two ciphertexts under the evaluation key `sk`: the result decrypts,
      under every client key matching `sk`, to the wrapped sum of what the operands decrypt to. */
  function Add(sk: ServerKey, x: Ciphertext, y: Ciphertext): (r: Ciphertext)
    requires x.key == sk.id && y.key == sk.id
    ensures r.key == sk.id
    ensures forall ck: ClientKey | ck.id == sk.id ::
      Decrypt(ck, r) == WrappingAdd(Decrypt(ck, x), Decrypt(ck, y))
  {
    Ciphertext(WrappingAdd(x.plain, y.plain), sk.id)
  }

  /** The evaluation key that `set_server_key` installs for later homomorphic
      operations of the current thread; an operation without one cannot run. */
  class ServerKeySlot {
    var active: Option<ServerKey>

    constructor ()
      ensures active == None
    {
      active := None;
    }

    /** `set_server_key(server_key)`: replaces whatever key was active. */
    method SetServerKey(sk: ServerKey)
      modifies this
      ensures active == Some(sk)
    {
      active := Some(sk);
    }
  }
}
