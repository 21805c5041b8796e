/** The streaming digest of the helper (scripts/context_tokenizer_counter.cpp, struct Sha256): state updated in
    place as bytes arrive, proved to be the whole-message digest of FIPS 180-4 for every split of the message. */
module Sha256 {
  import opened Common
  import opened Sha256Spec

  // `held` is what of `seen` has not been compressed yet; `h` is the hash value of the blocks before it.
  ghost predicate Holds(h: seq<Word>, held: seq<Byte>, seen: seq<Byte>) {
    && |held| <= |seen| && (|seen| - |held|) % BLOCK == 0
    && h == HashBlocks(seen[..|seen| - |held|])
    && held == seen[|seen| - |held|..]
  }

  lemma Extended(h: seq<Word>, held: seq<Byte>, seen: seq<Byte>, piece: seq<Byte>)
    requires Holds(h, held, seen)
    ensures Holds(h, held + piece, seen + piece)
  {
    var all, n := seen + piece, |seen| - |held|;
    assert |all| - |held + piece| == n;
    assert all[..n] == seen[..n] && all[n..] == seen[n..] + piece;
  }

  lemma Flushed(h: seq<Word>, held: seq<Byte>, seen: seq<Byte>)
    requires |h| == 8 && Holds(h, held, seen) && |held| == BLOCK
    ensures Holds(Sha256Spec.Compress(h, held), [], seen)
  {
    hide Sha256Spec.Compress;
    assert seen[..|seen| - 0] == seen && seen[|seen| - 0..] == [];
  }

  lemma WholeIsHashed(h: seq<Word>, held: seq<Byte>, seen: seq<Byte>)
    requires Holds(h, held, seen) && held == []
    ensures |seen| % BLOCK == 0 && h == HashBlocks(seen)
  {
    assert seen[..|seen|] == seen;
  }

  lemma FillOf(h: seq<Word>, held: seq<Byte>, seen: seq<Byte>)
    requires Holds(h, held, seen) && |held| < BLOCK
    ensures |held| == |seen| % BLOCK
  {
    var q := (|seen| - |held|) / BLOCK;
    assert |seen| == BLOCK * q + |held|;
  }

  // Zero bytes are due exactly until 56 bytes of the block are filled.
  lemma ZeroRun(length: nat, n: nat)
    requires n <= ZeroBytes(length)
    ensures (length + 1 + n) % BLOCK == 56 <==> n == ZeroBytes(length)
  {
    var q, r := length / BLOCK, length % BLOCK;
    assert length == BLOCK * q + r;
    if r < 56 {
      DivUnique(length + 1 + n, BLOCK, q, r + 1 + n);
    } else if r + 1 + n < BLOCK {
      DivUnique(length + 1 + n, BLOCK, q, r + 1 + n);
    } else {
      DivUnique(length + 1 + n, BLOCK, q + 1, r + 1 + n - BLOCK);
    }
  }

  lemma SameRemainder(t: nat, q: nat)
    ensures (TWO_64 * q + t) % BLOCK == t % BLOCK
    ensures 8 * (TWO_64 * q + t) % TWO_64 == 8 * t % TWO_64
  {
    var b := t / BLOCK;
    DivUnique(TWO_64 * q + t, BLOCK, TWO_64 / BLOCK * q + b, t % BLOCK);
    var c := 8 * t / TWO_64;
    DivUnique(8 * (TWO_64 * q + t), TWO_64, 8 * q + c, 8 * t % TWO_64);
  }

  // The wrapped byte counter gives the same trailer as the true length.
  lemma TrailerWraps(length: nat)
    ensures Trailer(length % TWO_64) == Trailer(length)
    ensures length % TWO_64 * 8 % TWO_64 == 8 * length % TWO_64
  {
    SameRemainder(length % TWO_64, length / TWO_64);
    assert length == TWO_64 * (length / TWO_64) + length % TWO_64;
    assert ZeroBytes(length % TWO_64) == ZeroBytes(length);
  }

  // The trailer in the pieces the source feeds to update, given the wrapped counter it computes them from.
  lemma PadPieces(m: seq<Byte>, total: nat, bits: nat)
    requires total == |m| % TWO_64 && bits == total * 8 % TWO_64
    ensures m + [0x80] + Zeros(ZeroBytes(|m|)) + LengthBytes(bits) == Pad(m)
    ensures |Pad(m)| % BLOCK == 0
  {
    TrailerWraps(|m|);
    assert Pad(m) == m + Trailer(|m|);
  }

  // What hex makes of the bytes seen and of the counter, whether or not the counter is theirs.
  function Closed(m: seq<Byte>, total: nat): (r: seq<Byte>)
    ensures |r| % BLOCK == 0 && |r| == |m| + 9 + ZeroBytes(|m|)
  {
    WholeBlocks(|m|);
    m + [0x80] + Zeros(ZeroBytes(|m|)) + LengthBytes(total * 8 % TWO_64)
  }

  lemma ClosedIsPad(m: seq<Byte>, total: nat)
    requires total == |m| % TWO_64
    ensures Closed(m, total) == Pad(m)
  {
    PadPieces(m, total, total * 8 % TWO_64);
  }

  // The number read back from its length bytes, k of them.
  lemma {:induction false} TopBytes(a: nat, b: nat, k: nat)
    requires k <= 8 && a < TWO_64 && b < TWO_64 && LengthBytes(a) == LengthBytes(b)
    ensures a / Pow2(64 - 8 * k) == b / Pow2(64 - 8 * k)
  {
    hide Pow2, LengthBytes;
    if k == 0 {
      Pow2Is64();
    } else {
      TopBytes(a, b, k - 1);
      LengthByte(a, k - 1);
      LengthByte(b, k - 1);
      OneByteMore(a, b, 64 - 8 * k);
    }
  }

  lemma LengthByte(n: nat, i: nat)
    requires i < 8
    ensures LengthBytes(n)[i] == n / Pow2(56 - 8 * i) % 256
  {
  }

  lemma OneByteMore(a: nat, b: nat, low: nat)
    requires a / Pow2(low + 8) == b / Pow2(low + 8) && a / Pow2(low) % 256 == b / Pow2(low) % 256
    ensures a / Pow2(low) == b / Pow2(low)
  {
    hide Pow2;
    NextByte(a, low);
    NextByte(b, low);
  }

  lemma NextByte(n: nat, low: nat)
    ensures n / Pow2(low) == 256 * (n / Pow2(low + 8)) + n / Pow2(low) % 256
  {
    assert Pow2(8) == 256 by { Pow2Add(4, 4); assert Pow2(4) == 16; }
    Pow2Add(low, 8);
    DivDiv(n, Pow2(low), 256);
  }

  lemma Pow2Is64()
    ensures Pow2(64) == TWO_64
  {
    assert Pow2(8) == 0x100;
    Pow2Add(8, 8);
    hide Pow2;
    Pow2Add(16, 16);
    Pow2Add(32, 32);
  }

  lemma LengthBytesDiffer(a: nat, b: nat)
    requires a < TWO_64 && b < TWO_64 && a != b
    ensures LengthBytes(a) != LengthBytes(b)
  {
    assert Pow2(0) == 1;
    if LengthBytes(a) == LengthBytes(b) {
      TopBytes(a, b, 8);
    }
  }

  // A second hex digests one block more than the first, and what it digests is the padding of no message.
  lemma SecondCallIsOff(m: seq<Byte>, x: seq<Byte>)
    requires |m| < TWO_61 && |x| < TWO_61
    ensures |Closed(Pad(m), |m| % TWO_64)| == |Pad(m)| + BLOCK
    ensures Closed(Pad(m), |m| % TWO_64) != Pad(x)
  {
    hide Closed, Pad, LengthBytes, ZeroBytes;
    var again := Closed(Pad(m), |m| % TWO_64);
    WholeTakesBlock(|Pad(m)|);
    PadEnds(x);
    PadEnds(m);
    ClosedEnds(Pad(m), |m| % TWO_64);
    Unwrapped(|m|);
    Unwrapped(|x|);
    if |x| != |m| {
      LengthBytesDiffer(8 * |m|, 8 * |x|);
    }
  }

  lemma Unwrapped(n: nat)
    requires n < TWO_61
    ensures n % TWO_64 == n && n * 8 % TWO_64 == 8 * n % TWO_64 == 8 * n && 8 * n < TWO_64
  {
  }

  // A message of whole blocks takes one more for its trailer.
  lemma WholeTakesBlock(length: nat)
    requires length % BLOCK == 0
    ensures 9 + ZeroBytes(length) == BLOCK
  {
  }

  lemma ClosedEnds(m: seq<Byte>, total: nat)
    ensures Closed(m, total)[|m| + 1 + ZeroBytes(|m|)..] == LengthBytes(total * 8 % TWO_64)
  {
    hide LengthBytes, ZeroBytes;
    var head := m + [0x80] + Zeros(ZeroBytes(|m|));
    assert Closed(m, total) == head + LengthBytes(total * 8 % TWO_64);
  }

  lemma PadEnds(m: seq<Byte>)
    ensures |Pad(m)| == |m| + 9 + ZeroBytes(|m|)
    ensures Pad(m)[|m| + 1 + ZeroBytes(|m|)..] == LengthBytes(8 * |m| % TWO_64)
  {
    hide LengthBytes, ZeroBytes;
    var head := m + [0x80] + Zeros(ZeroBytes(|m|));
    assert Pad(m) == head + LengthBytes(8 * |m| % TWO_64);
  }

  class Digest {
    const h: array<Word>
    const block: array<Byte>
    var fill: nat
    var total: nat          // 64-bit: wraps

    ghost var seen: seq<Byte>

    // The state is the fold of Compress over the whole blocks seen; the rest waits in `block`.
    ghost predicate Absorbing()
      reads this, h, block
    {
      h.Length == 8 && block.Length == BLOCK && fill < BLOCK && Holds(h[..], block[..fill], seen)
    }

    ghost predicate Valid()
      reads this, h, block
    {
      Absorbing() && total == |seen| % TWO_64
    }

    constructor ()
      ensures Valid() && seen == [] && fresh(h) && fresh(block)
    {
      h := new Word[8](i requires 0 <= i < 8 => INITIAL[i]);
      block := new Byte[64](_ => 0);
      fill, total := 0, 0;
      seen := [];
      new;
      assert h[..] == INITIAL;
    }

    static method Next(p: array<Byte>, w: array<Word>, i: nat) returns (word: Word)
      requires p.Length == BLOCK && w.Length == 64 && i < 64
      ensures word == NextWord(p[..], w[..i])
    {
      hide Add, SmallSigma0, SmallSigma1, BigEndian;
      if i < 16 {
        word := BigEndian(p[4 * i], p[4 * i + 1], p[4 * i + 2], p[4 * i + 3]);
      } else {
        var s0 := SmallSigma0(w[i - 15]);
        var s1 := SmallSigma1(w[i - 2]);
        word := Add(Add(Add(w[i - 16], s0), w[i - 7]), s1);
      }
    }

    // The words the standard calls W: the first sixteen from the block, the others from the ones before them.
    static method Expand(p: array<Byte>) returns (w: array<Word>)
      requires p.Length == BLOCK
      ensures fresh(w) && w[..] == Schedule(p[..], 64)
    {
      hide NextWord;
      w := new Word[64](_ => 0);
      for i := 0 to 64
        invariant w[..i] == Schedule(p[..], i)
      {
        ghost var before := w[..i];
        w[i] := Next(p, w, i);
        assert w[..i + 1] == before + [w[i]];
      }
      assert w[..64] == w[..];
    }

    method Compress(p: array<Byte>)
      requires h.Length == 8 && p.Length == BLOCK
      modifies h
      ensures h[..] == Sha256Spec.Compress(old(h[..]), p[..])
    {
      var w := Expand(p);
      var a, b, c, d, e, f, g, hh := h[0], h[1], h[2], h[3], h[4], h[5], h[6], h[7];
      for i := 0 to 64
        invariant Vars(a, b, c, d, e, f, g, hh) == Rounds(w[..], VarsOf(h[..]), i)
      {
        var t1 := Add(Add(Add(Add(hh, BigSigma1(e)), Ch(e, f, g)), K[i]), w[i]);
        var t2 := Add(BigSigma0(a), Maj(a, b, c));
        hh, g, f, e, d, c, b, a := g, f, e, Add(d, t1), c, b, a, Add(t1, t2);
      }
      AddTo(Vars(a, b, c, d, e, f, g, hh));
    }

    method AddTo(v: Vars)
      requires h.Length == 8
      modifies h
      ensures h[..] == Sum(old(h[..]), v)
    {
      hide Add;
      h[0], h[1], h[2], h[3] := Add(h[0], v.a), Add(h[1], v.b), Add(h[2], v.c), Add(h[3], v.d);
      h[4], h[5], h[6], h[7] := Add(h[4], v.e), Add(h[5], v.f), Add(h[6], v.g), Add(h[7], v.h);
    }

    // memcpy of one piece behind what the block already holds
    method Copy(piece: seq<Byte>)
      requires block.Length == BLOCK && fill + |piece| <= BLOCK
      modifies block
      ensures block[..fill + |piece|] == old(block[..fill]) + piece
    {
      forall j | 0 <= j < |piece| {
        block[fill + j] := piece[j];
      }
    }

    // One turn of update's loop: a piece that fits, and a compression when the block is full.
    method Absorb(piece: seq<Byte>)
      requires Absorbing() && fill + |piece| <= BLOCK
      modifies this`fill, this`seen, h, block
      ensures Absorbing() && seen == old(seen) + piece
    {
      hide Holds, Sha256Spec.Compress;
      Extended(h[..], block[..fill], seen, piece);
      Copy(piece);
      fill, seen := fill + |piece|, seen + piece;
      if fill == BLOCK {
        assert block[..fill] == block[..];
        Flushed(h[..], block[..], seen);
        Compress(block);
        fill := 0;
        assert block[..0] == [];
      }
    }

    // Absorbs `data` after whatever came before, however the pieces were cut.
    method Update(data: seq<Byte>)
      requires Absorbing()
      modifies this, h, block
      ensures Absorbing() && seen == old(seen) + data
      ensures total == (old(total) + |data|) % TWO_64
    {
      hide Holds;
      total := (total + |data|) % TWO_64;
      var at := 0;
      while at < |data|
        invariant at <= |data|
        invariant Absorbing() && seen == old(seen) + data[..at]
        invariant total == (old(total) + |data|) % TWO_64
      {
        var take := if BLOCK - fill < |data| - at then BLOCK - fill else |data| - at;
        Absorb(data[at..at + take]);
        at := at + take;
      }
    }

    lemma FillIs()
      requires Absorbing()
      ensures fill == |seen| % BLOCK
    {
      FillOf(h[..], block[..fill], seen);
    }

    method PadZeros(ghost m: seq<Byte>)
      requires Absorbing() && seen == m + [0x80]
      modifies this, h, block
      ensures Absorbing() && seen == m + [0x80] + Zeros(ZeroBytes(|m|))
    {
      hide Holds, ZeroBytes;
      ghost var n: nat := 0;
      FillIs();
      while fill != 56
        invariant Absorbing() && fill == |seen| % BLOCK
        invariant n <= ZeroBytes(|m|) && seen == m + [0x80] + Zeros(n)
        decreases ZeroBytes(|m|) - n
      {
        ZeroRun(|m|, n);
        Update([0]);
        assert Zeros(n + 1) == Zeros(n) + [0];
        n := n + 1;
        FillIs();
      }
      ZeroRun(|m|, n);
    }

    // 0x80, the zero bytes and the length: what section 5.1.1 puts after the message.
    method Finish()
      requires Absorbing()
      modifies this, h, block
      ensures Absorbing() && fill == 0 && total == old(total)
      ensures seen == Closed(old(seen), old(total))
    {
      hide Holds, ZeroBytes;
      var bits := total * 8 % TWO_64;
      var keep := total;
      ghost var m := seen;
      Update([0x80]);
      PadZeros(m);
      var length := BigEndian64(bits);
      Update(length[..]);
      assert seen == Closed(m, keep);
      total := keep;
      FillIs();
    }

    static method BigEndian64(bits: nat) returns (length: array<Byte>)
      ensures fresh(length) && length[..] == LengthBytes(bits)
    {
      length := new Byte[8](_ => 0);
      for i := 0 to 8
        invariant forall j :: 0 <= j < i ==> length[j] == LengthBytes(bits)[j]
      {
        length[i] := bits / Pow2(56 - 8 * i) % 256;
      }
    }

    // The digest of everything seen, in hexadecimal, when the counter is that of what was seen. The chaining value is
    // spent: only `total` is put back, so a second call closes the padded message once more.
    method Hex() returns (out: string)
      requires Absorbing()
      modifies this, h, block
      ensures Absorbing() && fill == 0 && total == old(total)
      ensures seen == Closed(old(seen), old(total)) && out == HexWords(HashBlocks(seen))
      ensures old(Valid()) ==> seen == Pad(old(seen)) && out == Sha256Hex(old(seen))
    {
      hide Closed, Pad, HashBlocks, HexWords, Holds;
      if total == |seen| % TWO_64 {
        ClosedIsPad(seen, total);
      }
      Finish();
      WholeIsHashed(h[..], block[..fill], seen);
      out := Spell(h);
    }

    static method Spell(h: array<Word>) returns (out: string)
      ensures out == HexWords(h[..])
    {
      out := "";
      for i := 0 to h.Length
        invariant out == HexWords(h[..i])
      {
        var word := SpellWord(h[i]);
        assert h[..i + 1][..i] == h[..i];
        out := out + word;
      }
      assert h[..h.Length] == h[..];
    }

    static method SpellWord(w: Word) returns (word: string)
      ensures word == HexWord(w)
    {
      word := "";
      var shift := 28;
      while shift >= 0
        invariant -4 <= shift <= 28 && shift == 28 - 4 * |word|
        invariant word == HexWord(w)[..|word|]
      {
        word := word + [HexDigit(w, shift)];
        shift := shift - 4;
      }
    }
  }

  function Joined(pieces: seq<seq<Byte>>): seq<Byte> {
    if |pieces| == 0 then [] else Joined(pieces[..|pieces| - 1]) + pieces[|pieces| - 1]
  }

  // The whole use of the digest: any pieces, one answer, and it depends on nothing but their concatenation.
  method HashPieces(pieces: seq<seq<Byte>>) returns (out: string)
    ensures out == Sha256Hex(Joined(pieces))
  {
    hide Holds;
    var digest := new Digest();
    for i := 0 to |pieces|
      invariant fresh(digest) && fresh(digest.h) && fresh(digest.block)
      invariant digest.Valid() && digest.seen == Joined(pieces[..i])
    {
      assert pieces[..i + 1][..i] == pieces[..i];
      CountWraps(|digest.seen|, |pieces[i]|);
      digest.Update(pieces[i]);
    }
    assert pieces[..|pieces|] == pieces;
    out := digest.Hex();
  }

  lemma CountWraps(seen: nat, more: nat)
    ensures (seen % TWO_64 + more) % TWO_64 == (seen + more) % TWO_64
  {
    var t, q := seen % TWO_64, seen / TWO_64;
    DivUnique(seen + more, TWO_64, q + (t + more) / TWO_64, (t + more) % TWO_64);
  }
}
