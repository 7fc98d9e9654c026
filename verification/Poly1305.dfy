// The stateful MAC of sum_generic.go and poly1305.go, proved against Poly1305Spec.
module Poly1305 {
  import opened Bits
  import opened Bytes
  import opened Poly1305Spec
  import opened Poly1305Limbs

  /** The accumulator as a residue stays right when the block is added to unreduced limbs. */
  lemma StepModulo(h: nat, block: nat, r: nat)
    ensures (h + block) * r % P == (h % P + block) * r % P
  {
    var q := h / P;
    DivMod(h, P);
    assert (h + block) * r == (h % P + block) * r + (q * r) * P by {
      assert (q * P) * r == (q * r) * P;
      assert (h % P + block + q * P) * r == (h % P + block) * r + (q * P) * r;
    }
    ModPlusMultiple((h % P + block) * r, q * r, P);
  }

  lemma FullBlock(m: seq<byte>)
    requires |m| == TAG_SIZE
    ensures LE(m + [1]) == Uint64(m[..8]) + Uint64(m[8..]) * B64 + B128
  {
    assert LE([1]) == 1;
    hide LE, Uint64;
    TwoUint64(m);
    LEAppend(m, [1]);
    TwoWords(0, 0);
  }

  lemma PartialBlock(m: seq<byte>, buf: seq<byte>)
    requires |m| < TAG_SIZE && buf == m + [1] + Zeros(TAG_SIZE - |m| - 1)
    ensures LE(m + [1]) == Uint64(buf[..8]) + Uint64(buf[8..]) * B64
  {
    TwoUint64(buf);
    LEPadded(m + [1], TAG_SIZE - |m| - 1);
  }

  /** Both halves of the key masked separately are the clamp of RFC 8439 on the whole. */
  lemma ClampHalves(key: seq<byte>)
    requires |key| == 32
    ensures And(Uint64(key[0..8]), R_MASK0) <= R_MASK0
    ensures And(Uint64(key[8..16]), R_MASK1) <= R_MASK1
    ensures R(key) == And(Uint64(key[0..8]), R_MASK0) + And(Uint64(key[8..16]), R_MASK1) * B64
    ensures S(key) == Uint64(key[16..24]) + Uint64(key[24..32]) * B64
  {
    hide Bitwise, LE, Uint64;
    var lo, hi := Uint64(key[0..8]), Uint64(key[8..16]);
    TwoUint64(key[..16]);
    assert key[..16][..8] == key[0..8] && key[..16][8..] == key[8..16];
    TwoUint64(key[16..]);
    assert key[16..][..8] == key[16..24] && key[16..][8..] == key[24..32];
    MaskHalves(lo, hi);
  }

  lemma MaskHalves(lo: u64, hi: u64)
    ensures And(lo, R_MASK0) <= R_MASK0 && And(hi, R_MASK1) <= R_MASK1
    ensures And(lo + hi * B64, CLAMP) == And(lo, R_MASK0) + And(hi, R_MASK1) * B64
  {
    hide Bitwise;
    PowersOfTwo();
    AndAtMost(lo, R_MASK0);
    AndAtMost(hi, R_MASK1);
    BitwiseSplit(AND, hi, lo, R_MASK1, R_MASK0, 64);
    ShlIsProduct(hi, 64, B64);
    ShlIsProduct(R_MASK1, 64, B64);
    ShlIsProduct(And(hi, R_MASK1), 64, B64);
  }

  lemma AbsorbStep(acc: nat, r: nat, msg: seq<byte>)
    requires msg != []
    ensures var n := Min(TAG_SIZE, |msg|);
      Absorb(acc, r, msg) == Absorb((acc + LE(msg[..n] + [1])) * r % P, r, msg[n..])
  {
    hide LE;
  }

  lemma AbsorbNothing(acc: nat, r: nat)
    ensures Absorb(acc, r, []) == acc
  {
  }

  class MacState {
    var h0: u64
    var h1: u64
    var h2: u64
    var r0: u64
    var r1: u64
    var s0: u64
    var s1: u64

    /** The bounds on which the absence of overflow rests. */
    ghost predicate Valid()
      reads this
    {
      h2 <= 5 && r0 <= R_MASK0 && r1 <= R_MASK1
    }

    ghost function Residue(): nat
      reads this
    {
      Limbs(h0, h1, h2) % P
    }

    constructor Initialize(key: seq<byte>)
      requires |key| == 32
      ensures Valid() && Residue() == 0
      ensures r0 + r1 * B64 == R(key) && s0 + s1 * B64 == S(key)
    {
      ClampHalves(key);
      h0, h1, h2 := 0, 0, 0;
      r0 := And(Uint64(key[0..8]), R_MASK0);
      r1 := And(Uint64(key[8..16]), R_MASK1);
      s0 := Uint64(key[16..24]);
      s1 := Uint64(key[24..32]);
    }

    constructor Copy(other: MacState)
      ensures h0 == other.h0 && h1 == other.h1 && h2 == other.h2
      ensures r0 == other.r0 && r1 == other.r1 && s0 == other.s0 && s1 == other.s1
    {
      h0, h1, h2, r0, r1, s0, s1 := other.h0, other.h1, other.h2, other.r0, other.r1, other.s0, other.s1;
    }

    /** h = (h + m) * r for the first block m of what is left. */
    method Step(rest: seq<byte>) returns (rest': seq<byte>)
      requires Valid() && |rest| > 0
      modifies `h0, `h1, `h2
      ensures Valid()
      ensures var n := Min(TAG_SIZE, |rest|);
        rest' == rest[n..] && Residue() == (old(Residue()) + LE(rest[..n] + [1])) * (r0 + r1 * B64) % P
    {
      hide LE, Bitwise;
      ghost var m := rest[..Min(TAG_SIZE, |rest|)];
      ghost var before := Limbs(h0, h1, h2);
      var x0, x1, x2: u64;
      if |rest| >= TAG_SIZE {
        FullBlock(m);
        assert rest[0..8] == m[..8] && rest[8..16] == m[8..];
        x0, x1, x2 := AddBlock(h0, h1, h2, Uint64(rest[0..8]), Uint64(rest[8..16]), 1);
        rest' := rest[TAG_SIZE..];
      } else {
        var buf := rest + [1] + Zeros(TAG_SIZE - |rest| - 1);
        assert m == rest;
        PartialBlock(m, buf);
        x0, x1, x2 := AddBlock(h0, h1, h2, Uint64(buf[..8]), Uint64(buf[8..]), 0);
        rest' := [];
      }
      assert Limbs(x0, x1, x2) == before + LE(m + [1]);
      StepModulo(before, LE(m + [1]), r0 + r1 * B64);
      h0, h1, h2 := MulReduce(x0, x1, x2, r0, r1);
    }

    method UpdateGeneric(msg: seq<byte>)
      requires Valid()
      modifies `h0, `h1, `h2
      ensures Valid()
      ensures Residue() == Absorb(old(Residue()), r0 + r1 * B64, msg)
    {
      hide LE, Bitwise, Absorb, Limbs;
      var rest := msg;
      ghost var r := r0 + r1 * B64;
      while |rest| > 0
        invariant Valid()
        invariant Absorb(Residue(), r, rest) == Absorb(old(Residue()), r, msg)
        decreases |rest|
      {
        AbsorbStep(Residue(), r, rest);
        rest := Step(rest);
      }
      AbsorbNothing(Residue(), r);
    }
  }

  /** h + m: a carry chain whose last word also takes the bit above a full block. */
  method AddBlock(h0: u64, h1: u64, h2: u64, m0: u64, m1: u64, top: u64) returns (x0: u64, x1: u64, x2: u64)
    requires h2 <= 5 && top <= 1
    ensures x2 <= 7
    ensures Limbs(x0, x1, x2) == Limbs(h0, h1, h2) + m0 + m1 * B64 + top * B128
  {
    var (a, c) := BitsAdd64(h0, m0, 0);
    var (b, c') := BitsAdd64(h1, m1, c);
    x0, x1, x2 := a, b, h2 + c' + top;
  }

  /** Go's copy(dst[at:], src). */
  method CopyInto(dst: array<byte>, at: nat, src: seq<byte>) returns (n: nat)
    requires at <= dst.Length
    modifies dst
    ensures n == Min(dst.Length - at, |src|)
    ensures dst[..] == old(dst[..at]) + src[..n] + old(dst[at + n..])
  {
    n := Min(dst.Length - at, |src|);
    forall i | 0 <= i < n { dst[at + i] := src[i]; }
  }

  /** Bytes kept in the buffer and bytes added to them, after the blocks absorbed before. */
  lemma Regrouped(whole: seq<byte>, kept: seq<byte>, more: seq<byte>)
    ensures var all := whole + kept + more;
      all == whole + (kept + more) && all[..|whole|] == whole && all[|whole|..] == kept + more
  {
  }

  class MacGeneric {
    const state: MacState
    const buffer: array<byte>
    var offset: nat
    ghost const key: seq<byte>
    ghost var absorbed: seq<byte>

    ghost predicate Valid()
      reads this, state, buffer
    {
      Filled() && offset < TAG_SIZE
    }

    /** The buffer, perhaps full, holds what was absorbed after the last whole block. */
    ghost predicate Filled()
      reads this, state, buffer
    {
      && state.Valid() && |key| == 32 && buffer.Length == TAG_SIZE
      && offset <= TAG_SIZE && offset <= |absorbed|
      && (|absorbed| - offset) % TAG_SIZE == 0
      && buffer[..offset] == absorbed[|absorbed| - offset..]
      && state.r0 + state.r1 * B64 == R(key) && state.s0 + state.s1 * B64 == S(key)
      && state.Residue() == Absorb(0, R(key), absorbed[..|absorbed| - offset])
    }

    constructor (key: seq<byte>)
      requires |key| == 32
      ensures Valid() && fresh(state) && fresh(buffer)
      ensures this.key == key && absorbed == []
    {
      state := new MacState.Initialize(key);
      buffer := new byte[TAG_SIZE](i => 0);
      offset := 0;
      this.key, absorbed := key, [];
    }

    /** Absorbs whole blocks; only called with an empty buffer. */
    method Blocks(p: seq<byte>)
      requires Valid() && offset == 0 && |p| % TAG_SIZE == 0
      modifies state, `absorbed
      ensures Valid() && absorbed == old(absorbed) + p
    {
      hide Absorb, Bitwise, LE;
      AbsorbSplit(0, R(key), absorbed, p);
      assert absorbed[..|absorbed| - offset] == absorbed;
      state.UpdateGeneric(p);
      absorbed := absorbed + p;
      assert absorbed[..|absorbed| - offset] == absorbed;
      assert buffer[..offset] == absorbed[|absorbed| - offset..];
    }

    /** Copies into the room left in the buffer. */
    method Keep(p: seq<byte>) returns (n: nat)
      requires Filled()
      modifies `offset, `absorbed, buffer
      ensures Filled() && n == Min(TAG_SIZE - old(offset), |p|) && offset == old(offset) + n
      ensures n <= |p| && (offset == TAG_SIZE || (offset < TAG_SIZE && p[..n] == p))
      ensures old(offset) + |p| < TAG_SIZE ==> offset < TAG_SIZE
      ensures absorbed == old(absorbed) + p[..n]
    {
      hide Absorb, Bitwise, LE, R, S;
      ghost var whole, kept := absorbed[..|absorbed| - offset], buffer[..offset];
      assert absorbed == whole + kept;
      n := CopyInto(buffer, offset, p);
      Regrouped(whole, kept, p[..n]);
      absorbed := absorbed + p[..n];
      offset := offset + n;
      assert buffer[..offset] == kept + p[..n];
    }

    /** Absorbs a full buffer. */
    method Flush()
      requires Filled() && offset == TAG_SIZE
      modifies `offset, state
      ensures Valid() && offset == 0
    {
      hide Absorb, Bitwise, LE, R, S;
      ghost var whole := absorbed[..|absorbed| - offset];
      assert absorbed == whole + buffer[..] && buffer[..offset] == buffer[..];
      AbsorbSplit(0, R(key), whole, buffer[..]);
      offset := 0;
      state.UpdateGeneric(buffer[..]);
      assert absorbed[..|absorbed| - offset] == absorbed;
    }

    method Write(p: seq<byte>) returns (nn: nat)
      requires Valid()
      modifies this, state, buffer
      ensures Valid() && nn == |p|
      ensures absorbed == old(absorbed) + p
    {
      hide Absorb, Bitwise, LE, Filled, Min;
      nn := |p|;
      var p := p;
      if offset > 0 {
        var n := Keep(p);
        if offset < TAG_SIZE { return; }
        p := p[n..];
        Flush();
      }
      var n := |p| - |p| % TAG_SIZE;
      if n > 0 {
        Blocks(p[..n]);
        p := p[n..];
      }
      if |p| > 0 {
        n := Keep(p);
      }
    }

    /** The state is copied, so the running computation is left as it was. */
    method Sum() returns (out: seq<byte>)
      requires Valid()
      ensures out == Tag(key, absorbed)
    {
      hide Absorb, Bitwise, LE, ToLE;
      var copy := new MacState.Copy(state);
      ghost var whole := absorbed[..|absorbed| - offset];
      AbsorbSplit(0, R(key), whole, buffer[..offset]);
      assert whole + buffer[..offset] == absorbed;
      if offset > 0 {
        copy.UpdateGeneric(buffer[..offset]);
      } else {
        AbsorbNothing(copy.Residue(), R(key));
        assert buffer[..offset] == [];
      }
      out := Finalize(copy.h0, copy.h1, copy.h2, copy.s0, copy.s1);
    }
  }

  class MAC {
    const mac: MacGeneric
    var finalized: bool

    ghost predicate Valid()
      reads this, mac, mac.state, mac.buffer
    {
      mac.Valid()
    }

    constructor New(key: seq<byte>)
      requires |key| == 32
      ensures Valid() && fresh(mac) && fresh(mac.state) && fresh(mac.buffer)
      ensures mac.key == key && mac.absorbed == [] && !finalized
    {
      mac := new MacGeneric(key);
      finalized := false;
    }

    /** Not ok is the panic of a write after Sum or Verify. */
    method Write(p: seq<byte>) returns (ok: bool)
      requires Valid()
      modifies mac, mac.state, mac.buffer
      ensures Valid() && ok == !finalized
      ensures mac.absorbed == if ok then old(mac.absorbed) + p else old(mac.absorbed)
    {
      if finalized { return false; }
      var n := mac.Write(p);
      ok := true;
    }

    method Sum(b: seq<byte>) returns (r: seq<byte>)
      requires Valid()
      modifies `finalized
      ensures Valid() && finalized
      ensures r == b + Tag(mac.key, mac.absorbed)
    {
      var tag := mac.Sum();
      finalized := true;
      r := b + tag;
    }

    method Verify(expected: seq<byte>) returns (r: bool)
      requires Valid()
      modifies `finalized
      ensures Valid() && finalized
      ensures r <==> expected == Tag(mac.key, mac.absorbed)
    {
      var tag := mac.Sum();
      finalized := true;
      r := expected == tag;
    }
  }
}
