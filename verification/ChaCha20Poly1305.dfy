// Seal and Open of chacha20poly1305 on Go slices, in place or appending.
module ChaCha20Poly1305 {
  import opened Bits
  import opened Bytes
  import opened Results
  import opened Slices
  import opened ChaCha20Spec
  import opened Poly1305
  import Poly1305Spec
  import ChaCha20
  import Spec = AEADSpec

  method WriteWithPadding(p: MAC, b: seq<byte>)
    requires p.Valid() && !p.finalized
    modifies p.mac, p.mac.state, p.mac.buffer
    ensures p.Valid() && p.mac.absorbed == old(p.mac.absorbed) + Spec.Padded(b)
  {
    var ok := p.Write(b);
    var rem := |b| % 16;
    if rem != 0 {
      ok := p.Write(Zeros(16 - rem));
    }
  }

  method WriteUint64(p: MAC, n: nat)
    requires p.Valid() && !p.finalized
    modifies p.mac, p.mac.state, p.mac.buffer
    ensures p.Valid() && p.mac.absorbed == old(p.mac.absorbed) + ToLE(n, 8)
  {
    var ok := p.Write(ToLE(n, 8));
  }

  /** The window that appending n bytes to dst fills, when dst has the capacity. */
  predicate InPlace(dst: Slice, n: nat) { dst.cap >= dst.len + n }

  function OutputWindow(dst: Slice, n: nat): Slice
    requires InPlace(dst, n)
  {
    dst.(len := dst.len + n).Drop(dst.len)
  }

  /** The invalid buffer overlap panic. */
  predicate BadOverlap(dst: Slice, n: nat, input: Slice)
  {
    InPlace(dst, n) && InexactOverlap(OutputWindow(dst, n), input)
  }

  /** The panic happens exactly when the n bytes after dst, within its capacity, share a position with the input but do
      not start with it. */
  lemma BadOverlapIff(dst: Slice, n: nat, input: Slice)
    ensures BadOverlap(dst, n, input) <==>
      dst.len + n <= dst.cap && dst.data == input.data && dst.off + dst.len != input.off
      && exists j: int :: dst.off + dst.len <= j < dst.off + dst.len + n && Within(j, input)
  {
    if InPlace(dst, n) {
      var out := OutputWindow(dst, n);
      OverlapIff(out, input);
      if exists j: int :: dst.off + dst.len <= j < dst.off + dst.len + n && Within(j, input) {
        var j: int :| dst.off + dst.len <= j < dst.off + dst.len + n && Within(j, input);
        assert Within(j, out);
      }
    }
  }

  /** The cipher positioned at block 1, and the one-time key taken from block 0. */
  method Start(key: Spec.AEADKey, nonce: Spec.Nonce12, unaligned: bool)
    returns (s: ChaCha20.Cipher, polyKey: seq<byte>)
    ensures fresh(s) && fresh(s.buf) && s.Valid() && s.Pos() == BLOCK_SIZE && s.len == 0
    ensures s.key == Words(key) && s.nonce == Words(nonce)
    ensures polyKey == Spec.PolyKey(key, nonce)
  {
    hide XorStream, Words;
    var c := ChaCha20.NewUnauthenticatedCipher(key, nonce, unaligned);
    s := c.value;
    var k := new byte[32](i => 0);
    assert Whole(k).Bytes() == Zeros(32) == Zeros(32)[..32];
    PatchedWhole(k[..], Spec.PolyKey(key, nonce));
    var ok := s.XORKeyStream(Whole(k), Whole(k));
    polyKey := k[..];
    ok := s.SetCounter(1);
  }

  method Authenticate(polyKey: seq<byte>, aad: seq<byte>, ciphertext: seq<byte>) returns (p: MAC)
    requires |polyKey| == 32
    ensures fresh(p) && fresh(p.mac) && fresh(p.mac.state) && fresh(p.mac.buffer)
    ensures p.Valid() && !p.finalized && p.mac.key == polyKey && p.mac.absorbed == Spec.MacData(aad, ciphertext)
  {
    hide ToLE, Poly1305Spec.Absorb, MacGeneric.Valid, Spec.Padded;
    p := new MAC.New(polyKey);
    WriteWithPadding(p, aad);
    WriteWithPadding(p, ciphertext);
    WriteUint64(p, |aad|);
    WriteUint64(p, |ciphertext|);
  }

  /** Overwrites a window. */
  method Fill(dst: Slice, s: seq<byte>)
    requires dst.Valid() && |s| == dst.len
    modifies dst.data
    ensures dst.data[..] == Patched(old(dst.data[..]), dst.off, s)
  {
    forall i | 0 <= i < dst.len { dst.data[dst.off + i] := s[i]; }
  }

  /** What appending s to dst leaves behind. */
  twostate predicate Appended(dst: Slice, new ret: Slice, s: seq<byte>)
    requires dst.Valid()
    reads dst.data, ret.data
  {
    && ret.Valid() && ret.Bytes() == old(dst.Bytes()) + s
    && if InPlace(dst, |s|) then
         ret.data == dst.data && dst.data[..] == Patched(old(dst.data[..]), dst.off + dst.len, s)
       else
         dst.data[..] == old(dst.data[..])
  }

  /** Encryption and decryption alike: the stream from block 1 on. Not ok is the counter panic, before anything is
      written. */
  method CryptInto(s: ChaCha20.Cipher, out: Slice, input: Slice, ghost key: Spec.AEADKey, ghost nonce: Spec.Nonce12)
    returns (ok: bool)
    requires s.Valid() && s.Pos() == BLOCK_SIZE && s.len == 0 && s.key == Words(key) && s.nonce == Words(nonce)
    requires out.Valid() && input.Valid() && out.len == input.len
    requires out.data != s.buf && input.data != s.buf && !InexactOverlap(out, input)
    modifies s, s.buf, out.data
    ensures ok <==> input.len <= Spec.MAX_PLAINTEXT
    ensures ok ==> out.data[..] == Patched(old(out.data[..]), out.off, Spec.Encrypt(key, nonce, old(input.Bytes())))
    ensures !ok ==> out.data[..] == old(out.data[..])
  {
    hide XorStream, Words, Patched;
    assert out.Take(input.len) == out;
    assert input.Bytes()[..input.len] == input.Bytes();
    ghost var content := out.data[..];
    NothingUsed(s.key, s.nonce, content, out.off, input.Bytes());
    ok := s.XORKeyStream(out, input);
  }

  lemma NothingUsed(key: KeyWords, nonce: NonceWords, content: seq<byte>, at: nat, input: seq<byte>)
    requires at <= |content|
    ensures Patched(content, at, XorStream(key, nonce, BLOCK_SIZE, input[..0])) == content
  {
    ChaCha20.XorStreamEmpty(key, nonce, BLOCK_SIZE);
    assert input[..0] == [];
  }

  /** What window s shows once c has been written at position at of a, which content was. */
  ghost function Shown(a: array<byte>, content: seq<byte>, at: nat, c: seq<byte>, s: Slice): seq<byte>
    requires s.Valid() && |content| == a.Length && at + |c| <= |content|
    reads s.data
  {
    if s.data == a then Patched(content, at, c)[s.off..s.off + s.len] else s.Bytes()
  }

  /** The additional data as the MAC of Seal reads it: after the ciphertext c has been written behind dst. */
  ghost function DataSeen(dst: Slice, c: seq<byte>, data: Slice): seq<byte>
    requires dst.Valid() && data.Valid()
    reads dst.data, data.data
  {
    if InPlace(dst, |c| + 16) then Shown(dst.data, dst.data[..], dst.off + dst.len, c, data) else data.Bytes()
  }

  /** Additional data apart from the output is authenticated as it was given. */
  lemma DataApart(dst: Slice, c: seq<byte>, data: Slice)
    requires dst.Valid() && data.Valid()
    requires InPlace(dst, |c| + 16) ==> !AnyOverlap(OutputWindow(dst, |c| + 16), data)
    ensures DataSeen(dst, c, data) == data.Bytes()
  {
    if InPlace(dst, |c| + 16) && data.data == dst.data {
      PatchedApart(dst.data[..], dst.off + dst.len, c, data.off, data.len);
    }
  }

  lemma PatchedApart(content: seq<byte>, at: nat, c: seq<byte>, off: nat, len: nat)
    requires at + |c| + 16 <= |content| && off + len <= |content|
    requires len == 0 || off + len <= at || at + |c| + 16 <= off
    ensures Patched(content, at, c)[off..off + len] == content[off..off + len]
  {
    forall i | off <= i < off + len ensures Patched(content, at, c)[i] == content[i] {}
  }

  /** Ciphertext and tag written over out, which may start where plaintext does; the data is read in between. */
  method SealInto(key: Spec.AEADKey, nonce: Spec.Nonce12, out: Slice, plaintext: Slice, data: Slice, unaligned: bool)
    returns (ok: bool)
    requires out.Valid() && plaintext.Valid() && data.Valid()
    requires out.len == plaintext.len + 16 && !InexactOverlap(out, plaintext)
    modifies out.data
    ensures ok <==> plaintext.len <= Spec.MAX_PLAINTEXT
    ensures ok ==>
      var text, content := old(plaintext.Bytes()), old(out.data[..]);
      var seen := old(Shown(out.data, out.data[..], out.off, Spec.Encrypt(key, nonce, plaintext.Bytes()), data));
      out.data[..] == Patched(content, out.off, Spec.Seal(key, nonce, text, seen))
    ensures !ok ==> out.data[..] == old(out.data[..])
  {
    hide XorStream, Words, Spec.PolyKey, Spec.Encrypt, Spec.TagOf, Patched, InexactOverlap, MacGeneric.Valid;
    ghost var content := out.data[..];
    var ciphertext, tag := out.Take(plaintext.len), out.Drop(plaintext.len);
    PartOverlap(out, plaintext.len, plaintext);
    var s, polyKey := Start(key, nonce, unaligned);
    ghost var c := if plaintext.len <= Spec.MAX_PLAINTEXT then Spec.Encrypt(key, nonce, plaintext.Bytes()) else [];
    ok := CryptInto(s, ciphertext, plaintext, key, nonce);
    if !ok { return; }
    PatchedWindow(content, out.off, c);
    assert data.data == out.data ==> data.Bytes() == out.data[..][data.off..data.off + data.len];
    var aad := data.data[data.off..data.off + data.len];
    var t := MacOf(key, nonce, polyKey, aad, out.data[out.off..out.off + plaintext.len]);
    Fill(tag, t);
    PatchedTwice(content, out.off, c, t);
  }

  method MacOf(ghost key: Spec.AEADKey, ghost nonce: Spec.Nonce12, polyKey: seq<byte>, aad: seq<byte>, c: seq<byte>)
    returns (t: seq<byte>)
    requires polyKey == Spec.PolyKey(key, nonce)
    ensures t == Spec.TagOf(key, nonce, aad, c)
  {
    hide Spec.MacData, Spec.PolyKey, Poly1305Spec.Tag, MacGeneric.Valid;
    var p := Authenticate(polyKey, aad, c);
    t := p.Sum([]);
  }

  /** The output window for n more bytes after dst; not ok when it overlaps input inexactly. */
  method Reserve(dst: Slice, n: nat, input: Slice) returns (ok: bool, head: Slice, out: Slice)
    requires dst.Valid() && input.Valid()
    ensures ok <==> !BadOverlap(dst, n, input)
    ensures ok ==> !InexactOverlap(out, input)
    ensures head.Valid() && out.Valid() && head.len == dst.len + n && out == head.Drop(dst.len)
    ensures head.data[head.off..head.off + dst.len] == dst.Bytes()
    ensures if InPlace(dst, n) then head == dst.(len := dst.len + n) else fresh(head.data)
  {
    head, out := SliceForAppend(dst, n);
    assert head.Bytes()[..dst.len] == head.data[head.off..head.off + dst.len];
    ok := !InexactOverlap(out, input);
  }

  /** Filling the reserved window is appending. */
  lemma ReservedFilled(head: Slice, before: seq<byte>, k: nat, s: seq<byte>)
    requires head.Valid() && head.len == k + |s| && |before| == head.data.Length
    requires head.data[..] == Patched(before, head.off + k, s)
    ensures head.Bytes() == before[head.off..head.off + k] + s
  {
  }

  method SealGeneric(key: Spec.AEADKey, dst: Slice, nonce: Spec.Nonce12, plaintext: Slice, data: Slice, unaligned: bool)
    returns (ok: bool, ret: Slice)
    requires dst.Valid() && plaintext.Valid() && data.Valid()
    modifies dst.data
    ensures ok <==> plaintext.len <= Spec.MAX_PLAINTEXT && !BadOverlap(dst, plaintext.len + 16, plaintext)
    ensures ok ==> Appended(dst, ret, Spec.Seal(key, nonce, old(plaintext.Bytes()),
                                        old(DataSeen(dst, Spec.Encrypt(key, nonce, plaintext.Bytes()), data))))
    ensures !ok ==> dst.data[..] == old(dst.data[..])
  {
    hide Spec.Seal, Patched, InexactOverlap;
    var out: Slice;
    ok, ret, out := Reserve(dst, plaintext.len + 16, plaintext);
    if !ok { return; }
    ghost var before, sealed: seq<byte> := ret.data[..], [];
    if plaintext.len <= Spec.MAX_PLAINTEXT {
      ghost var c := Spec.Encrypt(key, nonce, plaintext.Bytes());
      sealed := Spec.Seal(key, nonce, plaintext.Bytes(), DataSeen(dst, c, data));
      assert DataSeen(dst, c, data) == Shown(out.data, before, out.off, c, data);
    }
    ok := SealInto(key, nonce, out, plaintext, data, unaligned);
    if ok {
      ReservedFilled(ret, before, dst.len, sealed);
    }
  }

  /** The first half of openGeneric: the cipher, and whether the tag at the end of sealed is the right one. */
  method CheckTag(key: Spec.AEADKey, nonce: Spec.Nonce12, sealed: Slice, data: Slice, unaligned: bool)
    returns (s: ChaCha20.Cipher, good: bool)
    requires sealed.Valid() && data.Valid() && 16 <= sealed.len
    ensures fresh(s) && fresh(s.buf) && s.Valid() && s.Pos() == BLOCK_SIZE && s.len == 0
    ensures s.key == Words(key) && s.nonce == Words(nonce)
    ensures good <==> Spec.Authentic(key, nonce, sealed.Bytes(), data.Bytes())
  {
    hide XorStream, Words, Spec.MacData, Spec.PolyKey, Poly1305Spec.Tag, MacGeneric.Valid;
    var n := sealed.len - 16;
    var aad := data.data[data.off..data.off + data.len];
    var tag := sealed.data[sealed.off + n..sealed.off + sealed.len];
    var c := sealed.data[sealed.off..sealed.off + n];
    SubBytes(sealed, 0, n);
    SubBytes(sealed, n, sealed.len);
    assert c == sealed.Bytes()[..n] && tag == sealed.Bytes()[n..];
    var polyKey: seq<byte>;
    s, polyKey := Start(key, nonce, unaligned);
    var p := Authenticate(polyKey, aad, c);
    good := p.Verify(tag);
    assert good <==> tag == Spec.TagOf(key, nonce, aad, c);
  }

  /** What Open finds in sealed; beyond the length the counter allows, nothing unless it panics. */
  ghost function Opening(key: Spec.AEADKey, nonce: Spec.Nonce12, sealed: Slice, data: Slice): Option<seq<byte>>
    requires sealed.Valid() && data.Valid()
    reads sealed.data, data.data
  {
    if sealed.len <= Spec.MAX_CIPHERTEXT then Spec.Open(key, nonce, sealed.Bytes(), data.Bytes()) else None
  }

  lemma OpeningIs(key: Spec.AEADKey, nonce: Spec.Nonce12, sealed: Slice, data: Slice)
    requires sealed.Valid() && data.Valid() && 16 <= sealed.len
    ensures Opening(key, nonce, sealed, data)
         == if sealed.len <= Spec.MAX_CIPHERTEXT && Spec.Authentic(key, nonce, sealed.Bytes(), data.Bytes())
            then Some(Spec.Encrypt(key, nonce, sealed.Take(sealed.len - 16).Bytes())) else None
  {
    hide Spec.Authentic, Spec.Encrypt;
    SubBytes(sealed, 0, sealed.len - 16);
  }

  /** Verifies, then decrypts; on a wrong tag the output window is zeroed and nothing is returned. */
  method OpenGeneric(key: Spec.AEADKey, dst: Slice, nonce: Spec.Nonce12, sealed: Slice, data: Slice, unaligned: bool)
    returns (ok: bool, ret: Option<Slice>)
    requires dst.Valid() && sealed.Valid() && data.Valid() && 16 <= sealed.len
    modifies dst.data
    ensures ok <==> !BadOverlap(dst, sealed.len - 16, sealed.Take(sealed.len - 16))
                    && (sealed.len <= Spec.MAX_CIPHERTEXT
                        || !old(Spec.Authentic(key, nonce, sealed.Bytes(), data.Bytes())))
    ensures !ok ==> dst.data[..] == old(dst.data[..])
    ensures ok ==> Opened(dst, sealed.len - 16, ret, old(Opening(key, nonce, sealed, data)))
  {
    hide Patched, BadOverlap, Spec.Authentic, Spec.Encrypt, Words, Opening;
    OpeningIs(key, nonce, sealed, data);
    var s, good := CheckTag(key, nonce, sealed, data, unaligned);
    ok, ret := OpenInto(s, good, dst, sealed.Take(sealed.len - 16), key, nonce);
  }

  /** The second half of openGeneric. */
  method OpenInto(s: ChaCha20.Cipher, good: bool, dst: Slice, ciphertext: Slice,
                  ghost key: Spec.AEADKey, ghost nonce: Spec.Nonce12) returns (ok: bool, ret: Option<Slice>)
    requires s.Valid() && s.Pos() == BLOCK_SIZE && s.len == 0 && s.key == Words(key) && s.nonce == Words(nonce)
    requires dst.Valid() && ciphertext.Valid() && dst.data != s.buf && ciphertext.data != s.buf
    modifies s, s.buf, dst.data
    ensures ok <==> !BadOverlap(dst, ciphertext.len, ciphertext) && (good ==> ciphertext.len <= Spec.MAX_PLAINTEXT)
    ensures ok ==> Opened(dst, ciphertext.len, ret, if good then Some(Spec.Encrypt(key, nonce, old(ciphertext.Bytes())))
                                                    else None)
    ensures !ok ==> dst.data[..] == old(dst.data[..])
  {
    hide Patched, InexactOverlap, Spec.Encrypt, Words;
    ret := None;
    var n := ciphertext.len;
    var head, out: Slice;
    ok, head, out := Reserve(dst, n, ciphertext);
    if !ok { return; }
    ghost var before, written := head.data[..], Zeros(n);
    if good {
      if n <= Spec.MAX_PLAINTEXT {
        written := Spec.Encrypt(key, nonce, ciphertext.Bytes());
      }
      ok := CryptInto(s, out, ciphertext, key, nonce);
      if !ok { return; }
      ret := Some(head);
    } else {
      Fill(out, Zeros(n));
    }
    ReservedFilled(head, before, dst.len, written);
  }

  /** What Open leaves behind: the text appended, or zeros in its place. */
  twostate predicate Opened(dst: Slice, n: nat, new ret: Option<Slice>, text: Option<seq<byte>>)
    requires dst.Valid()
    reads dst.data, if ret.Some? then {ret.value.data} else {}
  {
    && (ret.Some? <==> text.Some?)
    && (text.Some? ==> |text.value| == n && Appended(dst, ret.value, text.value))
    && (text.None? && InPlace(dst, n) ==> dst.data[..] == Patched(old(dst.data[..]), dst.off + dst.len, Zeros(n)))
    && (text.None? && !InPlace(dst, n) ==> dst.data[..] == old(dst.data[..]))
  }

  class Aead {
    const key: Spec.AEADKey
    const unaligned: bool

    constructor (key: Spec.AEADKey, unaligned: bool)
      ensures this.key == key
    {
      this.key, this.unaligned := key, unaligned;
    }

    /** Not ok is a panic: nonce length, plaintext length or buffer overlap. */
    method Seal(dst: Slice, nonce: seq<byte>, plaintext: Slice, data: Slice) returns (ok: bool, ret: Slice)
      requires dst.Valid() && plaintext.Valid() && data.Valid()
      modifies dst.data
      ensures ok <==> |nonce| == Spec.NONCE_SIZE && plaintext.len <= Spec.MAX_PLAINTEXT
                      && !BadOverlap(dst, plaintext.len + 16, plaintext)
      ensures ok ==> Appended(dst, ret, Spec.Seal(key, nonce, old(plaintext.Bytes()),
                                          old(DataSeen(dst, Spec.Encrypt(key, nonce, plaintext.Bytes()), data))))
      ensures !ok ==> dst.data[..] == old(dst.data[..])
    {
      hide Spec.Seal, InexactOverlap, Patched;
      if |nonce| != Spec.NONCE_SIZE || plaintext.len > 0x40_0000_0000 - 64 {
        return false, dst;
      }
      ok, ret := SealGeneric(key, dst, nonce, plaintext, data, unaligned);
    }

    /** ret is None when the authentication fails, with the output zeroed if it was large enough to hold a tag. */
    method Open(dst: Slice, nonce: seq<byte>, sealed: Slice, data: Slice) returns (ok: bool, ret: Option<Slice>)
      requires dst.Valid() && sealed.Valid() && data.Valid()
      modifies dst.data
      ensures ok <==> |nonce| == Spec.NONCE_SIZE
                      && (sealed.len < 16 || (sealed.len <= Spec.MAX_CIPHERTEXT
                          && !BadOverlap(dst, sealed.len - 16, sealed.Take(sealed.len - 16))))
      ensures ok && sealed.len >= 16 ==>
        Opened(dst, sealed.len - 16, ret, Spec.Open(key, nonce, old(sealed.Bytes()), old(data.Bytes())))
      ensures ok && sealed.len < 16 ==> ret.None?
      ensures !ok || sealed.len < 16 ==> dst.data[..] == old(dst.data[..])
    {
      hide Spec.Open, InexactOverlap, Patched;
      if |nonce| != Spec.NONCE_SIZE { return false, None; }
      if sealed.len < 16 { return true, None; }
      if sealed.len > 0x40_0000_0000 - 48 { return false, None; }
      ok, ret := OpenGeneric(key, dst, nonce, sealed, data, unaligned);
    }
  }

  class XAead {
    const key: Spec.AEADKey
    const unaligned: bool

    constructor (key: Spec.AEADKey, unaligned: bool)
      ensures this.key == key
    {
      this.key, this.unaligned := key, unaligned;
    }

    method Seal(dst: Slice, nonce: seq<byte>, plaintext: Slice, data: Slice) returns (ok: bool, ret: Slice)
      requires dst.Valid() && plaintext.Valid() && data.Valid()
      modifies dst.data
      ensures ok <==> |nonce| == Spec.NONCE_SIZE_X && plaintext.len <= Spec.MAX_PLAINTEXT
                      && !BadOverlap(dst, plaintext.len + 16, plaintext)
      ensures ok ==> Appended(dst, ret, Spec.XSeal(key, nonce, old(plaintext.Bytes()),
                                          old(DataSeen(dst, Spec.XEncrypt(key, nonce, plaintext.Bytes()), data))))
      ensures !ok ==> dst.data[..] == old(dst.data[..])
    {
      hide Spec.Seal, InexactOverlap, Patched, HChaCha20Spec;
      if |nonce| != Spec.NONCE_SIZE_X || plaintext.len > 0x40_0000_0000 - 64 {
        return false, dst;
      }
      var hKey := ChaCha20.HChaCha20(key, nonce[0..16]);
      var cNonce := Zeros(4) + nonce[16..24];
      ok, ret := SealGeneric(hKey.value, dst, cNonce, plaintext, data, unaligned);
    }

    method Open(dst: Slice, nonce: seq<byte>, sealed: Slice, data: Slice) returns (ok: bool, ret: Option<Slice>)
      requires dst.Valid() && sealed.Valid() && data.Valid()
      modifies dst.data
      ensures ok <==> |nonce| == Spec.NONCE_SIZE_X
                      && (sealed.len < 16 || (sealed.len <= Spec.MAX_CIPHERTEXT
                          && !BadOverlap(dst, sealed.len - 16, sealed.Take(sealed.len - 16))))
      ensures ok && sealed.len >= 16 ==>
        Opened(dst, sealed.len - 16, ret, Spec.XOpen(key, nonce, old(sealed.Bytes()), old(data.Bytes())))
      ensures ok && sealed.len < 16 ==> ret.None?
      ensures !ok || sealed.len < 16 ==> dst.data[..] == old(dst.data[..])
    {
      hide Spec.Open, InexactOverlap, Patched, HChaCha20Spec;
      if |nonce| != Spec.NONCE_SIZE_X { return false, None; }
      if sealed.len < 16 { return true, None; }
      if sealed.len > 0x40_0000_0000 - 48 { return false, None; }
      var hKey := ChaCha20.HChaCha20(key, nonce[0..16]);
      var cNonce := Zeros(4) + nonce[16..24];
      ok, ret := OpenGeneric(hKey.value, dst, cNonce, sealed, data, unaligned);
    }
  }

  method New(key: seq<byte>, unaligned: bool) returns (r: Result<Aead>)
    ensures r.Ok? <==> |key| == Spec.KEY_SIZE
    ensures r.Ok? ==> fresh(r.value) && r.value.key == key
    ensures r.Err? ==> r.message == "chacha20poly1305: bad key length"
  {
    if |key| != Spec.KEY_SIZE { return Err("chacha20poly1305: bad key length"); }
    var a := new Aead(key, unaligned);
    r := Ok(a);
  }

  method NewX(key: seq<byte>, unaligned: bool) returns (r: Result<XAead>)
    ensures r.Ok? <==> |key| == Spec.KEY_SIZE
    ensures r.Ok? ==> fresh(r.value) && r.value.key == key
    ensures r.Err? ==> r.message == "chacha20poly1305: bad key length"
  {
    if |key| != Spec.KEY_SIZE { return Err("chacha20poly1305: bad key length"); }
    var a := new XAead(key, unaligned);
    r := Ok(a);
  }
}
