# Keccak XOF wrapper, modelled in Dafny

This project models `xof/keccak/keccak.go`, the kyber extendable-output function (XOF) built
on SHAKE256 (section 6.2 of FIPS 202). The wrapper `xof` has three fields:

- a sponge `sh`;
- a private copy of the construction seed;
- a keystream buffer `key`, which XORKeyStream and Reseed reuse.

Its methods are New, Clone, Reseed, Reset, Read, Write and XORKeyStream.

The sponge comes from `golang.org/x/crypto/sha3`. It is modelled in module `Sponge` as a value
`State(absorbed, squeezed)`. SHAKE256's output for an input is not computed: it is a parameter
`shake: (seq<byte>, nat) -> byte`, so every result holds for any output function. Under this
abstraction:

- Read of n bytes returns `shake(absorbed, squeezed + i)` for `i < n` and advances `squeezed`
  by n;
- Write appends to `absorbed`;
- Reset empties the sponge;
- Clone copies the value.

The model has three files:

- `sponge.dfy` (module `Sponge`): the sponge abstraction and the fact that consecutive reads form
  one stream.
- `xof_model.dfy` (module `XofModel`): the wrapper's state as a value `Model(sh, seed, key)`.
  Every operation is a function from the old state to the new one. The lemmas are about single
  operations and about arbitrary call sequences (`Run` over a list of `Call`s).
- `keccak.dfy` (module `Keccak`): class `Xof`, the imperative wrapper with array fields. A Go
  slice becomes an array plus a length: `key[..keyLen]` is the key slice, and `key.Length` is its
  capacity. Each method's postcondition ties `Abs()` to the matching `XofModel` function and
  states the buffer rules directly: which array is new (`fresh`), which is reused, and which
  bytes stay the same. The XOR loop is the method `Keccak.XorPrefix`.

Three behaviours of the code are worth knowing:

- The buffer is reallocated when its *length* is shorter than needed, even if its capacity
  would be enough (`keccak.go:32`, `keccak.go:65`). The model compares `keyLen`, as the code
  does.
- Reseed never updates the stored seed. After Reseed, Reset therefore goes back to the state
  seeded by New, not to the reseeded one.
- Clone does not copy the seed. A clone's Reset therefore yields an empty sponge.

## Model

| member | source | states |
|---|---|---|
| Sponge.ReadThenRead | xof/keccak/keccak.go:53-55 | two consecutive reads of n and m bytes equal one read of n + m bytes, in bytes and in final state |
| XofModel.NewAbsorbsSeed | xof/keccak/keccak.go:19-25 | a new XOF has absorbed exactly the seed, squeezed nothing, stores the seed and has an empty key |
| XofModel.ReseedContract | xof/keccak/keccak.go:31-46 | after Reseed the key has 128 bytes, which are the next 128 stream bytes; the new sponge has absorbed exactly those bytes and squeezed nothing; the seed is unchanged |
| XofModel.XorKeyStreamFailsIff | xof/keccak/keccak.go:61-64 | XORKeyStream fails exactly when dst is shorter than src |
| XofModel.XorKeyStreamContract | xof/keccak/keccak.go:65-81 | on success: dst[i] = src[i] xor the i-th next stream byte for i < len(src); dst beyond len(src) is unchanged; the key holds those len(src) bytes; the squeeze position advances by len(src); the seed is kept |
| XofModel.XorBytes | xof/keccak/keccak.go:79-81 | the XOR of src with the key has the length of src |
| XofModel.XorBytesTwice | xof/keccak/keccak.go:80 | XOR with the same key twice gives back the input |
| XofModel.XorKeyStreamRoundTrip | xof/keccak/keccak.go:61-82 | two XOFs in the same state: the second turns the first's ciphertext back into the plaintext, and both end in the same state |
| XofModel.XorKeyStreamOfZerosIsRead | xof/keccak/keccak.go:71-81 | XORKeyStream over zero bytes writes exactly what Read returns and moves the sponge the same way |
| XofModel.RunKeepsSeed | xof/keccak/keccak.go:31-82 | no sequence of Read, Write, Reseed, Reset and XORKeyStream calls changes the stored seed |
| XofModel.ResetRestoresSeed | xof/keccak/keccak.go:48-51 | after New(seed) and any call sequence, including Reseed, Reset gives absorbed = seed and squeezed = 0 |
| XofModel.CloneResetsToEmpty | xof/keccak/keccak.go:27-29 | a clone has the original's sponge; after any calls, its Reset gives absorbed = empty and squeezed = 0 |
| XofModel.ReadIsStream | xof/keccak/keccak.go:53-55 | reading n and then k bytes through the wrapper equals reading n + k bytes at once |
| Keccak.Xof.New | xof/keccak/keccak.go:19-25 | the seed array is a fresh copy of the caller's bytes; the sponge has absorbed them; the state equals XofModel.New |
| Keccak.Xof.FromSponge | xof/keccak/keccak.go:28 | an XOF holding only the given sponge, with an empty seed and key |
| Keccak.Xof.Clone | xof/keccak/keccak.go:27-29 | returns a fresh XOF whose state is XofModel.Clone of this one; this one is not modified |
| Keccak.Xof.ReadInto | xof/keccak/keccak.go:54 | the first n bytes of the buffer get the next n stream bytes; the rest of the buffer is untouched; the count is n. It also models the internal calls `x.Read(x.key)` at keccak.go:37 and keccak.go:71, where the buffer is the key array and n is the slice length |
| Keccak.Xof.Read | xof/keccak/keccak.go:53-55 | dst receives the next len(dst) stream bytes, and the returned count is len(dst) |
| Keccak.Xof.Write | xof/keccak/keccak.go:57-59 | absorbs src and returns len(src) |
| Keccak.Xof.Reset | xof/keccak/keccak.go:48-51 | the sponge becomes "absorbed = stored seed, squeezed = 0" |
| Keccak.Xof.Reseed | xof/keccak/keccak.go:31-46 | key length becomes 128; a new buffer is allocated only when the old slice is shorter than 128, otherwise the old array is reused; the sponge has absorbed exactly the 128 key bytes; the seed array is unchanged |
| Keccak.Xof.XORKeyStream | xof/keccak/keccak.go:61-82 | fails exactly when len(dst) < len(src) and then changes nothing; otherwise: the key length is len(src), with a new buffer only when the old slice was shorter; dst[i] = src[i] xor key[i] for i < len(src); dst beyond len(src) is unchanged; src is unchanged unless it is dst; the state equals XofModel.XorKeyStream |
| Keccak.XorPrefix | xof/keccak/keccak.go:79-81 | dst becomes src xor key on the first n bytes and keeps its old bytes after them, also when dst and src are the same array |
| Keccak.ResetAfterCallerChangesSeed | xof/keccak/keccak.go:20-24 | after New, changing the caller's seed array and then calling Reseed does not change the state Reset restores: absorbed is still the original seed and squeezed is 0 |

## Left out

- `src/Crypto/NullLibrary.hpp`: it only delegates to classes that are not part of this model, so it has no logic of its own.
- SHAKE256 itself (the Keccak-f permutation, padding, rate): foreign library code. It is the parameter `shake`, an arbitrary function from input and position to output byte.
- The `err != nil` panics after the sponge's Read and Write (`keccak.go:38-40`, `43-45`, `72-74`): in this abstraction the sponge never returns an error, so these branches cannot be reached and are not modelled.
- The `dst too short` panic (`keccak.go:62-64`): it is modelled as a `false` result of `Keccak.Xof.XORKeyStream` and as the `DstTooShort` outcome of `XofModel.XorKeyStream`. In `XofModel.Step`, a call that fails this way leaves the state as it was, as if the panic were recovered.
- The short-read panic (`keccak.go:75-77`): it is not modelled as a branch. `XORKeyStream` asserts that the read count equals `len(src)`, which shows the panic cannot happen.
- Write after Read: x/crypto's own rule for it is library behaviour that is not visible here. The model appends to the absorbed input, as the abstraction above says.
- The `(int, error)` results of Read and Write: the count is modelled, and the error is always nil.
- Partially overlapping `dst` and `src` slices: arrays have no offsets, so the model allows only `dst` and `src` being the same array, or disjoint arrays.
- Keccak.Xof.XORKeyStream, Keccak.Xof.Read: they require that `dst` is neither of the wrapper's private `seed` and `key` arrays, and that `src` is not `key`. This holds for every caller outside the package, because those fields are unexported. The package itself calls `x.Read(x.key)` twice, at `keccak.go:37` in Reseed and at `keccak.go:71` in XORKeyStream. Those two calls are modelled by `Keccak.Xof.ReadInto`, which accepts the key buffer and reads `keyLen` bytes into it, as the Go slice does.
- Nil slices: nil is modelled as an empty array.
- The `kyber.XOF` interface type that New and Clone return is not modelled; they return the class.
- Cryptographic strength, randomness of the output, and garbage-collection behaviour beyond buffer lengths and reuse.
