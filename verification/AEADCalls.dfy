// The calls that the framing layers make on a cipher.AEAD, in place on one buffer or into a fresh one. The cipher is
// any AEAD, or an object of the in-tree ChaCha20-Poly1305.
module AEADCalls {
  import opened Bits
  import opened Results
  import opened Slices
  import opened Net
  import opened ChaCha20Poly1305
  import Spec = AEADSpec

  datatype Sealer = Any(a: AEAD) | InTree(aead: Aead)

  /** The functions a sealer computes. */
  function Law(s: Sealer): AEAD
  {
    match s
    case Any(a) => a
    case InTree(aead) => ChaChaAEAD(aead.key)
  }

  method Buffer(content: seq<byte>, room: nat) returns (s: Slice)
    ensures fresh(s.data) && s.Valid() && s.off == 0 && s.len == s.cap == s.data.Length == |content| + room
    ensures s.Take(|content|).Bytes() == content && s.data[..|content|] == content
  {
    var n := |content| + room;
    var a := new byte[n](i requires 0 <= i < n => if i < |content| then content[i] else 0);
    s := Whole(a);
    assert a[..|content|] == content;
  }

  /** Sealing over the buffer that holds the plaintext and has room for the tag: Seal(b[:0], nonce, b[:n], nil). */
  method SealInPlace(s: Sealer, nonce: seq<byte>, plain: seq<byte>) returns (sealed: seq<byte>)
    requires |nonce| == 12 && |plain| <= MAX_TEXT
    ensures sealed == Law(s).seal(nonce, plain)
  {
    match s {
      case Any(a) =>
        sealed := a.seal(nonce, plain);
      case InTree(aead) =>
        hide Spec.Seal, Patched, InexactOverlap;
        var b := Buffer(plain, 16);
        var none := Buffer([], 0);
        SameStart(b, |plain|);
        PatchedWhole(b.data[..], Spec.Seal(aead.key, nonce, plain, []));
        var ret := SealInto(aead, b.Take(0), nonce, b.Take(|plain|), none);
        sealed := b.data[..];
    }
  }

  /** Sealing into a fresh slice: Seal(nil, nonce, plain, nil). */
  method SealFresh(s: Sealer, nonce: seq<byte>, plain: seq<byte>) returns (sealed: seq<byte>)
    requires |nonce| == 12 && |plain| <= MAX_TEXT
    ensures sealed == Law(s).seal(nonce, plain)
  {
    match s {
      case Any(a) =>
        sealed := a.seal(nonce, plain);
      case InTree(aead) =>
        hide Spec.Seal, Patched, InexactOverlap;
        var p := Buffer(plain, 0);
        var none := Buffer([], 0);
        assert p.Take(|plain|) == p;
        sealed := SealInto(aead, none, nonce, p, none);
    }
  }

  /** Opening over the buffer that holds the sealed bytes: Open(b[:0], nonce, b, nil). */
  method OpenInPlace(s: Sealer, nonce: seq<byte>, sealed: seq<byte>) returns (plain: Option<seq<byte>>)
    requires |nonce| == 12 && |sealed| <= MAX_TEXT + 16
    ensures plain == Law(s).open(nonce, sealed)
  {
    match s {
      case Any(a) =>
        plain := a.open(nonce, sealed);
      case InTree(aead) =>
        hide Spec.Open, InexactOverlap;
        var b := Buffer(sealed, 0);
        var none := Buffer([], 0);
        assert b.Take(|sealed|) == b;
        SameStart(b, |sealed|);
        plain := OpenInto(aead, b.Take(0), nonce, b, none);
    }
  }

  /** Opening into a fresh slice: Open(nil, nonce, sealed, nil). */
  method OpenFresh(s: Sealer, nonce: seq<byte>, sealed: seq<byte>) returns (plain: Option<seq<byte>>)
    requires |nonce| == 12 && |sealed| <= MAX_TEXT + 16
    ensures plain == Law(s).open(nonce, sealed)
  {
    match s {
      case Any(a) =>
        plain := a.open(nonce, sealed);
      case InTree(aead) =>
        hide Spec.Open, InexactOverlap;
        var b := Buffer(sealed, 0);
        var none := Buffer([], 0);
        assert b.Take(|sealed|) == b;
        plain := OpenInto(aead, none, nonce, b, none);
    }
  }

  /** An output that begins where the input does is no bad overlap. */
  lemma SameStart(b: Slice, n: nat)
    requires b.Valid() && n <= b.len
    ensures forall k: nat :: !BadOverlap(b.Take(0), k, b.Take(n))
  {
  }

  /** Seal with an empty dst, which shares memory with plaintext properly or not at all: no panic. */
  method SealInto(aead: Aead, dst: Slice, nonce: Spec.Nonce12, plaintext: Slice, none: Slice)
    returns (sealed: seq<byte>)
    requires dst.Valid() && plaintext.Valid() && none.Valid() && dst.len == 0 == none.len
    requires plaintext.len <= MAX_TEXT && !BadOverlap(dst, plaintext.len + 16, plaintext)
    modifies dst.data
    ensures sealed == Spec.Seal(aead.key, nonce, old(plaintext.Bytes()), [])
    ensures InPlace(dst, plaintext.len + 16) ==> dst.data[..] == Patched(old(dst.data[..]), dst.off, sealed)
  {
    hide Spec.Seal, Spec.Encrypt, BadOverlap, Patched, DataSeen;
    NoData(dst, Spec.Encrypt(aead.key, nonce, plaintext.Bytes()), none);
    assert dst.Bytes() == [];
    ghost var expected := Spec.Seal(aead.key, nonce, plaintext.Bytes(), []);
    var ok, ret := aead.Seal(dst, nonce, plaintext, none);
    assert [] + expected == expected;
    sealed := ret.data[ret.off..ret.off + ret.len];
  }

  lemma NoData(dst: Slice, c: seq<byte>, none: Slice)
    requires dst.Valid() && none.Valid() && none.len == 0
    ensures DataSeen(dst, c, none) == []
  {
    hide Patched;
  }

  /** Open with an empty dst, which shares memory with sealed properly or not at all: no panic. */
  method OpenInto(aead: Aead, dst: Slice, nonce: Spec.Nonce12, sealed: Slice, none: Slice)
    returns (plain: Option<seq<byte>>)
    requires dst.Valid() && sealed.Valid() && none.Valid() && dst.len == 0 == none.len
    requires sealed.len <= MAX_TEXT + 16
    requires sealed.len >= 16 ==> !BadOverlap(dst, sealed.len - 16, sealed.Take(sealed.len - 16))
    modifies dst.data
    ensures plain == Spec.Open(aead.key, nonce, old(sealed.Bytes()), [])
  {
    hide Spec.Open, BadOverlap, Patched;
    ShortNone(aead.key, nonce, sealed.Bytes());
    assert none.Bytes() == [] && dst.Bytes() == [];
    ghost var text := Spec.Open(aead.key, nonce, sealed.Bytes(), []);
    var ok, ret := aead.Open(dst, nonce, sealed, none);
    assert text.Some? ==> [] + text.value == text.value;
    plain := Content(ret);
  }

  lemma ShortNone(key: Spec.AEADKey, nonce: Spec.Nonce12, sealed: seq<byte>)
    ensures |sealed| < 16 ==> Spec.Open(key, nonce, sealed, []) == None
  {
  }

  method Content(s: Option<Slice>) returns (c: Option<seq<byte>>)
    requires s.Some? ==> s.value.Valid()
    ensures c == if s.Some? then Some(s.value.Bytes()) else None
  {
    c := if s.Some? then Some(s.value.data[s.value.off..s.value.off + s.value.len]) else None;
  }
}
