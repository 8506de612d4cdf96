/** The state of the keccak XOF wrapper as a value, and each of its operations as a function
    from the old state to the new one.  These functions are the specification the methods of
    Keccak.Xof are proved against; the lemmas state what the wrapper promises about them. */
module XofModel {
  import opened Sponge

  /** The wrapper's fields: the sponge, its private copy of the seed, and the current
      contents of the reused keystream buffer (the Go slice `key`, of length |key|). */
  datatype Model = Model(sh: State, seed: seq<byte>, key: seq<byte>)

  /** Result of XORKeyStream: it panics when dst is shorter than src, and otherwise gives the
      new contents of dst and the new state. */
  datatype XorOutcome = DstTooShort | Keyed(dst: seq<byte>, next: Model)

  /** Length of the buffer Reseed squeezes the new seed into. */
  const ReseedLength: nat := 128

  /** New(seed): a sponge that has absorbed the seed, and a copy of the seed. */
  function New(seed: seq<byte>): (m: Model)
  {
    Model(Sponge.Write(NewShake256(), seed), seed, [])
  }

  /** Clone: a copy of the sponge only; the clone has no seed and no key buffer. */
  function Clone(m: Model): (c: Model)
  {
    Model(Sponge.Clone(m.sh), [], [])
  }

  /** Reseed: squeeze 128 bytes into the key buffer and start a fresh sponge that has
      absorbed exactly those bytes.  The seed is not touched. */
  function Reseed(shake: Stream, m: Model): (r: Model)
  {
    var (key, _) := Sponge.Read(shake, m.sh, ReseedLength);
    Model(Sponge.Write(NewShake256(), key), m.seed, key)
  }

  /** Reset: reset the sponge and absorb the stored seed again. */
  function Reset(m: Model): (r: Model)
  {
    m.(sh := Sponge.Write(Sponge.Reset(m.sh), m.seed))
  }

  /** Read(dst) with |dst| == n: the bytes written to dst, and the new state. */
  function Read(shake: Stream, m: Model, n: nat): (r: (seq<byte>, Model))
  {
    var (out, sh) := Sponge.Read(shake, m.sh, n);
    (out, m.(sh := sh))
  }

  /** Write(src): absorb src. */
  function Write(m: Model, src: seq<byte>): (r: Model)
  {
    m.(sh := Sponge.Write(m.sh, src))
  }

  /** Byte-wise exclusive or of src with the first |src| bytes of key. */
  function XorBytes(src: seq<byte>, key: seq<byte>): (r: seq<byte>)
    requires |src| <= |key|
    ensures |r| == |src|
  {
    seq(|src|, i requires 0 <= i < |src| => src[i] ^ key[i])
  }

  /** XORKeyStream(dst, src): panics when dst is too short; otherwise squeezes |src| bytes
      into the key buffer and overwrites the first |src| bytes of dst with src xor key. */
  function XorKeyStream(shake: Stream, m: Model, dst: seq<byte>, src: seq<byte>): (r: XorOutcome)
  {
    if |dst| < |src| then DstTooShort
    else
      var (key, sh) := Sponge.Read(shake, m.sh, |src|);
      Keyed(XorBytes(src, key) + dst[|src|..], Model(sh, m.seed, key))
  }

  /** One call on the wrapper, for reasoning about arbitrary call sequences. */
  datatype Call =
    | CallRead(n: nat)
    | CallWrite(src: seq<byte>)
    | CallReseed
    | CallReset
    | CallXorKeyStream(dst: seq<byte>, src: seq<byte>)

  function Step(shake: Stream, m: Model, c: Call): (r: Model)
  {
    match c
    case CallRead(n) => Read(shake, m, n).1
    case CallWrite(src) => Write(m, src)
    case CallReseed => Reseed(shake, m)
    case CallReset => Reset(m)
    case CallXorKeyStream(dst, src) =>
      match XorKeyStream(shake, m, dst, src)
      case DstTooShort => m
      case Keyed(_, next) => next
  }

  function Run(shake: Stream, m: Model, calls: seq<Call>): (r: Model)
    decreases |calls|
  {
    if calls == [] then m else Run(shake, Step(shake, m, calls[0]), calls[1..])
  }

  // ---------------------------------------------------------------------------------------
  // Properties of single operations

  /** A new XOF has absorbed exactly the seed (a copy of it) and squeezed nothing. */
  lemma NewAbsorbsSeed(seed: seq<byte>)
    ensures New(seed).sh == State(seed, 0)
    ensures New(seed).seed == seed && New(seed).key == []
  {
  }

  /** Reseed leaves a 128-byte key holding the next 128 stream bytes, and a sponge that has
      absorbed exactly that key and squeezed nothing; the seed is unchanged. */
  lemma ReseedContract(shake: Stream, m: Model)
    ensures |Reseed(shake, m).key| == 128
    ensures forall i :: 0 <= i < 128 ==>
      Reseed(shake, m).key[i] == shake(m.sh.absorbed, m.sh.squeezed + i)
    ensures Reseed(shake, m).sh == State(Reseed(shake, m).key, 0)
    ensures Reseed(shake, m).seed == m.seed
  {
  }

  /** XORKeyStream fails exactly when dst is shorter than src. */
  lemma XorKeyStreamFailsIff(shake: Stream, m: Model, dst: seq<byte>, src: seq<byte>)
    ensures XorKeyStream(shake, m, dst, src).DstTooShort? <==> |dst| < |src|
  {
  }

  /** On success, XORKeyStream writes src xor the next |src| stream bytes into dst, leaves
      the rest of dst alone, keeps exactly those stream bytes in a key buffer of length |src|,
      advances the squeeze position by |src| and keeps the absorbed input and the seed. */
  lemma XorKeyStreamContract(shake: Stream, m: Model, dst: seq<byte>, src: seq<byte>)
    requires |src| <= |dst|
    ensures var r := XorKeyStream(shake, m, dst, src);
      && r.Keyed?
      && |r.dst| == |dst|
      && |r.next.key| == |src|
      && (forall i :: 0 <= i < |src| ==> r.next.key[i] == shake(m.sh.absorbed, m.sh.squeezed + i))
      && (forall i :: 0 <= i < |src| ==> r.dst[i] == src[i] ^ r.next.key[i])
      && (forall i :: |src| <= i < |dst| ==> r.dst[i] == dst[i])
      && r.next.sh == State(m.sh.absorbed, m.sh.squeezed + |src|)
      && r.next.seed == m.seed
  {
    var r := XorKeyStream(shake, m, dst, src);
    forall i | |src| <= i < |dst|
      ensures r.dst[i] == dst[i]
    {
      assert r.dst[i] == dst[|src|..][i - |src|];
    }
  }

  /** Exclusive or with the same key twice gives back the input. */
  lemma {:induction false} XorBytesTwice(src: seq<byte>, key: seq<byte>)
    requires |src| <= |key|
    ensures XorBytes(XorBytes(src, key), key) == src
  {
    var once := XorBytes(src, key);
    var twice := XorBytes(once, key);
    forall i | 0 <= i < |src|
      ensures twice[i] == src[i]
    {
      assert once[i] == src[i] ^ key[i];
      assert twice[i] == (src[i] ^ key[i]) ^ key[i];
    }
  }

  /** Two XOFs in the same state (a clone, or two instances built from the same seed)
      produce the same keystream, so the second undoes what the first did: feeding it the
      ciphertext gives back the plaintext, and both end in the same state. */
  lemma XorKeyStreamRoundTrip(shake: Stream, m: Model, dst1: seq<byte>, dst2: seq<byte>, src: seq<byte>)
    requires |src| <= |dst1| && |src| <= |dst2|
    ensures var r1 := XorKeyStream(shake, m, dst1, src);
      && r1.Keyed?
      && var r2 := XorKeyStream(shake, m, dst2, r1.dst[..|src|]);
      && r2.Keyed?
      && r2.dst[..|src|] == src
      && r2.next == r1.next
  {
    var (key, sh) := Sponge.Read(shake, m.sh, |src|);
    var r1 := XorKeyStream(shake, m, dst1, src);
    var c := XorBytes(src, key);
    assert r1.dst[..|src|] == c;
    var r2 := XorKeyStream(shake, m, dst2, c);
    XorBytesTwice(src, key);
    assert r2.dst[..|src|] == XorBytes(c, key);
  }

  /** XORKeyStream over zero bytes is Read: dst receives exactly the bytes Read would return,
      and the wrapper ends in the same sponge state. */
  lemma XorKeyStreamOfZerosIsRead(shake: Stream, m: Model, dst: seq<byte>, n: nat)
    requires n <= |dst|
    ensures var r := XorKeyStream(shake, m, dst, seq(n, _ => 0));
      && r.Keyed?
      && r.dst[..n] == Read(shake, m, n).0
      && r.next.sh == Read(shake, m, n).1.sh
  {
    var zeros: seq<byte> := seq(n, _ => 0);
    var r := XorKeyStream(shake, m, dst, zeros);
    var out := Read(shake, m, n).0;
    forall i | 0 <= i < n
      ensures r.dst[..n][i] == out[i]
    {
      assert r.dst[i] == zeros[i] ^ out[i];
    }
  }

  // ---------------------------------------------------------------------------------------
  // Seed bookkeeping over arbitrary call sequences

  /** No operation of the wrapper changes the stored seed; in particular Reseed does not. */
  lemma {:induction false} RunKeepsSeed(shake: Stream, m: Model, calls: seq<Call>)
    ensures Run(shake, m, calls).seed == m.seed
    decreases |calls|
  {
    if calls != [] {
      var next := Step(shake, m, calls[0]);
      assert next.seed == m.seed by {
        match calls[0]
        case CallXorKeyStream(dst, src) =>
          if |dst| >= |src| {
            XorKeyStreamContract(shake, m, dst, src);
          }
        case _ =>
      }
      RunKeepsSeed(shake, next, calls[1..]);
    }
  }

  /** Whatever calls follow New(seed), including Reseed, Reset returns the sponge to
      "absorbed the seed, squeezed nothing". */
  lemma ResetRestoresSeed(shake: Stream, seed: seq<byte>, calls: seq<Call>)
    ensures Reset(Run(shake, New(seed), calls)).sh == State(seed, 0)
    ensures Reset(Run(shake, New(seed), calls)).sh == New(seed).sh
  {
    RunKeepsSeed(shake, New(seed), calls);
  }

  /** A clone has the original's sponge but no seed, so after any calls its Reset gives an
      empty sponge, not the original's seeded one. */
  lemma CloneResetsToEmpty(shake: Stream, m: Model, calls: seq<Call>)
    ensures Clone(m).sh == m.sh
    ensures Reset(Run(shake, Clone(m), calls)).sh == State([], 0)
  {
    RunKeepsSeed(shake, Clone(m), calls);
  }

  /** Reading n bytes and then m bytes yields the same bytes and state as reading n + m
      bytes at once: the wrapper's Read is a single continuous stream. */
  lemma ReadIsStream(shake: Stream, m: Model, n: nat, k: nat)
    ensures var (a, m1) := Read(shake, m, n);
            var (b, m2) := Read(shake, m1, k);
            a + b == Read(shake, m, n + k).0 && m2 == Read(shake, m, n + k).1
  {
    Sponge.ReadThenRead(shake, m.sh, n, k);
  }
}
