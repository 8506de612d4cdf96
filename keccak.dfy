/** The keccak XOF wrapper: a SHAKE256 sponge, a private copy of the seed it was built from,
    and a keystream buffer reused across calls to XORKeyStream.

    Go slices are arrays here: `seed` holds the seed copy, and the key slice is the prefix
    key[..keyLen] of the backing array `key`, whose Length is the slice's capacity.  Every
    method is proved against the function of the same name in XofModel, through Abs(). */
module Keccak {
  import opened Sponge
  import XofModel

  class Xof {
    /** The SHAKE256 output function every sponge of this XOF uses. */
    const shake: Stream
    var sh: State
    var seed: array<byte>
    var key: array<byte>
    var keyLen: nat

    ghost predicate Valid()
      reads this
    {
      keyLen <= key.Length && seed != key
    }

    /** The wrapper's state as a value. */
    ghost function Abs(): (m: XofModel.Model)
      reads this, seed, key
      requires Valid()
    {
      XofModel.Model(sh, seed[..], key[..keyLen])
    }

    /** New(seed): absorb the seed and keep a private copy of it; no key buffer yet. */
    constructor New(shake: Stream, s: array<byte>)
      ensures Valid() && fresh(seed) && fresh(key)
      ensures this.shake == shake
      ensures Abs() == XofModel.New(old(s[..]))
    {
      this.shake := shake;
      seed := new byte[s.Length](i requires 0 <= i < s.Length reads s => s[i]);
      sh := Sponge.Write(NewShake256(), s[..]);
      key := new byte[0];
      keyLen := 0;
      new;
      assert seed[..] == s[..];
    }

    /** The struct literal in Clone: a sponge and nothing else (nil seed, nil key). */
    constructor FromSponge(shake: Stream, sh: State)
      ensures Valid() && fresh(seed) && fresh(key)
      ensures this.shake == shake && this.sh == sh
      ensures seed[..] == [] && keyLen == 0
    {
      this.shake := shake;
      this.sh := sh;
      seed := new byte[0];
      key := new byte[0];
      keyLen := 0;
    }

    /** Clone: a new XOF with a copy of the sponge but without the seed; this one is left as
        it was. */
    method Clone() returns (c: Xof)
      requires Valid()
      ensures fresh(c) && fresh(c.seed) && fresh(c.key) && c.Valid()
      ensures c.shake == shake
      ensures c.Abs() == XofModel.Clone(Abs())
    {
      c := new Xof.FromSponge(shake, Sponge.Clone(sh));
    }

    /** The sponge's Read into the first n bytes of buf: fills them with the next n stream
        bytes, advances the sponge, and always reports n bytes read. */
    method ReadInto(buf: array<byte>, n: nat) returns (count: nat)
      requires n <= buf.Length
      modifies this`sh, buf
      ensures count == n
      ensures (buf[..n], sh) == Sponge.Read(shake, old(sh), n)
      ensures buf[n..] == old(buf[n..])
    {
      var (out, next) := Sponge.Read(shake, sh, n);
      forall i | 0 <= i < n {
        buf[i] := out[i];
      }
      sh := next;
      count := n;
      assert buf[..n] == out;
    }

    /** Read(dst): fill dst with the next dst.Length stream bytes. */
    method Read(dst: array<byte>) returns (n: nat)
      requires Valid() && dst != seed && dst != key
      modifies this`sh, dst
      ensures Valid()
      ensures n == dst.Length
      ensures (dst[..], Abs()) == XofModel.Read(shake, old(Abs()), dst.Length)
    {
      n := ReadInto(dst, dst.Length);
      assert dst[..] == dst[..dst.Length];
    }

    /** Write(src): absorb src. */
    method Write(src: array<byte>) returns (n: nat)
      requires Valid()
      modifies this`sh
      ensures Valid()
      ensures n == src.Length
      ensures Abs() == XofModel.Write(old(Abs()), src[..])
    {
      sh := Sponge.Write(sh, src[..]);
      n := src.Length;
    }

    /** Reset: back to the sponge that has absorbed the stored seed and nothing else. */
    method Reset()
      requires Valid()
      modifies this`sh
      ensures Valid()
      ensures sh == State(seed[..], 0)
      ensures Abs() == XofModel.Reset(old(Abs()))
    {
      sh := Sponge.Reset(sh);
      sh := Sponge.Write(sh, seed[..]);
    }

    /** Reseed: squeeze 128 bytes into the key buffer (reusing it when it is long enough)
        and replace the sponge by a fresh one that has absorbed exactly those bytes. */
    method Reseed()
      requires Valid()
      modifies this, key
      ensures Valid() && seed == old(seed)
      ensures keyLen == XofModel.ReseedLength
      ensures old(keyLen) < XofModel.ReseedLength ==> fresh(key) && key.Length == XofModel.ReseedLength
      ensures old(keyLen) >= XofModel.ReseedLength ==> key == old(key)
      ensures sh == State(key[..keyLen], 0)
      ensures Abs() == XofModel.Reseed(shake, old(Abs()))
    {
      if keyLen < XofModel.ReseedLength {
        key := new byte[XofModel.ReseedLength];
      }
      keyLen := XofModel.ReseedLength;
      var n := ReadInto(key, keyLen);
      sh := NewShake256();
      sh := Sponge.Write(sh, key[..keyLen]);
    }

    /** XORKeyStream(dst, src): when dst is shorter than src, fail (the Go code panics) and
        change nothing; otherwise size the key buffer to src.Length (allocating only when the
        old slice is too short), squeeze src.Length keystream bytes into it, and set
        dst[i] to src[i] xor key[i] for every i < src.Length.  dst and src may be the same
        array (encryption in place). */
    method XORKeyStream(dst: array<byte>, src: array<byte>) returns (ok: bool)
      requires Valid()
      requires dst != seed && dst != key && src != key
      modifies this, key, dst
      ensures Valid() && seed == old(seed)
      ensures ok <==> src.Length <= dst.Length
      ensures !ok ==> unchanged(this) && unchanged(old(key)) && unchanged(dst)
      ensures ok ==> keyLen == src.Length
      ensures ok && old(keyLen) < src.Length ==> fresh(key) && key.Length == src.Length
      ensures ok && old(keyLen) >= src.Length ==> key == old(key)
      ensures ok ==> forall i :: 0 <= i < src.Length ==> dst[i] == old(src[i]) ^ key[i]
      ensures ok ==> forall i :: src.Length <= i < dst.Length ==> dst[i] == old(dst[i])
      ensures ok && src != dst ==> src[..] == old(src[..])
      ensures var r := XofModel.XorKeyStream(shake, old(Abs()), old(dst[..]), old(src[..]));
        if ok then r.Keyed? && dst[..] == r.dst && Abs() == r.next
        else r.DstTooShort? && Abs() == old(Abs())
    {
      if dst.Length < src.Length {
        return false;
      }
      if keyLen < src.Length {
        key := new byte[src.Length];
      }
      keyLen := src.Length;

      var n := ReadInto(key, keyLen);
      // The sponge always fills the whole buffer, so the Go code's short-read panic cannot
      // happen.
      assert n == src.Length;

      XorPrefix(dst, src, key, src.Length);
      ok := true;
      assert old(src[..])[..src.Length] == old(src[..]);
    }
  }

  /** The loop of XORKeyStream: dst[i] := src[i] ^ key[i] for every i < n.  dst and src may
      be the same array; the key buffer is a different one. */
  method XorPrefix(dst: array<byte>, src: array<byte>, key: array<byte>, n: nat)
    requires n <= dst.Length && n <= src.Length && n <= key.Length && key != dst
    modifies dst
    ensures dst[..] == XofModel.XorBytes(old(src[..n]), key[..n]) + old(dst[n..])
  {
    ghost var s0 := src[..];
    ghost var d0 := dst[..];
    var i := 0;
    while i < n
      invariant 0 <= i <= n
      invariant forall j :: 0 <= j < i ==> dst[j] == s0[j] ^ key[j]
      invariant forall j :: i <= j < dst.Length ==> dst[j] == d0[j]
      invariant forall j :: i <= j < src.Length ==> src[j] == s0[j]
    {
      dst[i] := src[i] ^ key[i];
      i := i + 1;
    }
    ghost var want := XofModel.XorBytes(s0[..n], key[..n]) + d0[n..];
    forall j | 0 <= j < dst.Length
      ensures dst[j] == want[j]
    {
      if j >= n {
        assert want[j] == d0[n..][j - n];
      }
    }
  }

  /** New copies the seed: a caller that changes its seed array after New does not change
      what Reset goes back to.  With the same seed, Reseed in between does not either. */
  method ResetAfterCallerChangesSeed(shake: Stream, s: array<byte>, b: byte) returns (x: Xof)
    requires s.Length > 0
    modifies s
    ensures fresh(x) && x.Valid()
    ensures x.sh == State(old(s[..]), 0)
  {
    x := new Xof.New(shake, s);
    s[0] := b;
    x.Reseed();
    x.Reset();
  }
}
