// A connection as two byte strings, and an AEAD as the pair of functions a framing layer uses.
module Net {
  import opened Bits
  import opened Results
  import Spec = AEADSpec

  class Conn {
    var input: seq<byte>  // still to be read
    var output: seq<byte> // written so far

    constructor (input: seq<byte>)
      ensures this.input == input && output == []
    {
      this.input, output := input, [];
    }

    method Write(p: seq<byte>)
      modifies `output
      ensures output == old(output) + p
    {
      output := output + p;
    }

    /** io.ReadFull: n bytes, or an error after consuming what there was. */
    method ReadFull(n: nat) returns (r: Option<seq<byte>>)
      modifies `input
      ensures r == TakeFull(old(input), n).0 && input == TakeFull(old(input), n).1
    {
      if |input| < n {
        r, input := None, [];
      } else {
        r, input := Some(input[..n]), input[n..];
      }
    }
  }

  function TakeFull(input: seq<byte>, n: nat): (Option<seq<byte>>, seq<byte>)
  {
    if |input| < n then (None, []) else (Some(input[..n]), input[n..])
  }

  /** All of the n bytes, with the rest left, or none of them. */
  lemma TakeFullIs(input: seq<byte>, n: nat)
    ensures var (r, rest) := TakeFull(input, n);
      (r.Some? <==> n <= |input|) && (r.Some? ==> |r.value| == n && input == r.value + rest) && (r.None? ==> rest == [])
  {
  }

  /** cipher.AEAD without additional data. */
  datatype AEAD = AEAD(nonceSize: nat, overhead: nat,
                       seal: (seq<byte>, seq<byte>) -> seq<byte>,
                       open: (seq<byte>, seq<byte>) -> Option<seq<byte>>)

  const MAX_TEXT: int := 0x1_0000

  /** The sealing law: overhead bytes are added, and open accepts exactly what seal makes. */
  ghost predicate Lawful(a: AEAD)
  {
    && a.nonceSize == 12 && a.overhead == 16
    && (forall n, p :: |n| == 12 && |p| <= MAX_TEXT ==> |a.seal(n, p)| == |p| + 16)
    && (forall n, p :: |n| == 12 && |p| <= MAX_TEXT ==> a.open(n, a.seal(n, p)) == Some(p))
    && (forall n, c :: |n| == 12 && |c| <= MAX_TEXT + 16 && a.open(n, c).Some? ==>
          |a.open(n, c).value| + 16 == |c| && c == a.seal(n, a.open(n, c).value))
  }

  lemma SealLaw(a: AEAD, n: seq<byte>, p: seq<byte>)
    requires Lawful(a) && |n| == 12 && |p| <= MAX_TEXT
    ensures a.nonceSize == 12 && a.overhead == 16
    ensures |a.seal(n, p)| == |p| + 16 && a.open(n, a.seal(n, p)) == Some(p)
  {
  }

  function ChaChaAEAD(key: Spec.AEADKey): AEAD
  {
    AEAD(Spec.NONCE_SIZE, Spec.OVERHEAD,
      (n: seq<byte>, p: seq<byte>) =>
        if |n| == 12 && |p| <= Spec.MAX_PLAINTEXT then Spec.Seal(key, n, p, []) else [],
      (n: seq<byte>, c: seq<byte>) =>
        if |n| == 12 && |c| <= Spec.MAX_CIPHERTEXT then Spec.Open(key, n, c, []) else None)
  }

  /** The in-tree ChaCha20-Poly1305 keeps the law the framing layers rest on. */
  lemma ChaChaLawful(key: Spec.AEADKey)
    ensures Lawful(ChaChaAEAD(key))
  {
    hide Spec.Seal, Spec.Open;
    var a := ChaChaAEAD(key);
    forall n: seq<byte>, p: seq<byte> | |n| == 12 && |p| <= MAX_TEXT
      ensures a.open(n, a.seal(n, p)) == Some(p)
    {
      Spec.RoundTrip(key, n, p, []);
    }
    forall n: seq<byte>, c: seq<byte> | |n| == 12 && |c| <= MAX_TEXT + 16 && a.open(n, c).Some?
      ensures |a.open(n, c).value| + 16 == |c| && c == a.seal(n, a.open(n, c).value)
    {
      Spec.OpenIffSealed(key, n, c, [], a.open(n, c).value);
    }
  }
}
