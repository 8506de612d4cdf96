/** An abstraction of the SHAKE256 sponge of golang.org/x/crypto/sha3 (section 6.2 of
    FIPS 202), as the keccak XOF wrapper uses it.

    The sponge is a value: the bytes absorbed since the last reset and the number of output
    bytes squeezed since then.  What SHAKE256 outputs for a given input is not modelled; it is
    a parameter `shake` of type Stream, so every fact proved here holds for every output
    function. */
module Sponge {

  type byte = bv8

  /** shake(absorbed, i) is byte i of the SHAKE256 output stream of the input `absorbed`. */
  type Stream = (seq<byte>, nat) -> byte

  datatype State = State(absorbed: seq<byte>, squeezed: nat)

  /** sha3.NewShake256(): a sponge that has absorbed nothing. */
  function NewShake256(): (s: State)
  {
    State([], 0)
  }

  /** The n output bytes of `absorbed` that start at position `from`. */
  function Squeeze(shake: Stream, absorbed: seq<byte>, from: nat, n: nat): (out: seq<byte>)
  {
    seq(n, i requires 0 <= i < n => shake(absorbed, from + i))
  }

  /** ShakeHash.Write: absorb `data`. */
  function Write(s: State, data: seq<byte>): (t: State)
  {
    State(s.absorbed + data, s.squeezed)
  }

  /** ShakeHash.Read into a buffer of length n: the next n bytes of the stream, and the
      sponge advanced past them. */
  function Read(shake: Stream, s: State, n: nat): (r: (seq<byte>, State))
  {
    (Squeeze(shake, s.absorbed, s.squeezed, n), State(s.absorbed, s.squeezed + n))
  }

  /** ShakeHash.Reset: back to the state of a fresh sponge. */
  function Reset(s: State): (t: State)
  {
    NewShake256()
  }

  /** ShakeHash.Clone: an independent copy.  Since a State is a value, the copy is the same
      value, and later changes to either side cannot reach the other. */
  function Clone(s: State): (t: State)
  {
    s
  }

  /** Squeezing is a stream: two consecutive reads of n and m bytes give the same bytes and
      the same final sponge as one read of n + m bytes. */
  lemma {:induction false} ReadThenRead(shake: Stream, s: State, n: nat, m: nat)
    ensures var (a, s1) := Read(shake, s, n);
            var (b, s2) := Read(shake, s1, m);
            var (c, s3) := Read(shake, s, n + m);
            a + b == c && s2 == s3
  {
    var (a, s1) := Read(shake, s, n);
    var (b, s2) := Read(shake, s1, m);
    var (c, s3) := Read(shake, s, n + m);
    assert |a + b| == |c|;
    forall i | 0 <= i < n + m
      ensures (a + b)[i] == c[i]
    {
      if i < n {
        assert (a + b)[i] == a[i];
      } else {
        assert (a + b)[i] == b[i - n];
        assert s1.squeezed + (i - n) == s.squeezed + i;
      }
    }
  }
}
