/** Bit searches over an allocation bitmap.

    A bitmap buffer is the sequence of its bits, bit 0 first. A 32-bit word is 32
    consecutive bits and a byte is 8, so the word and byte scans of the original are scans
    over aligned slices of the same sequence. */
module Bitops {

  const WORD: nat := 32
  const BYTE: nat := 8

  type Bits = seq<bool>

  predicate WordFull(bits: Bits, w: nat)
    requires WORD * (w + 1) <= |bits|
  {
    forall t | WORD * w <= t < WORD * w + WORD :: bits[t]
  }

  ghost predicate ByteFree(bits: Bits, k: nat)
    requires BYTE * (k + 1) <= |bits|
  {
    forall t | BYTE * k <= t < BYTE * k + BYTE :: !bits[t]
  }

  /** All bits of [from, to) are set. */
  ghost predicate AllSet(bits: Bits, from: nat, to: nat)
    requires to <= |bits|
  {
    forall t | from <= t < to :: bits[t]
  }

  /** All bits of [from, to) are clear. */
  ghost predicate AllClear(bits: Bits, from: nat, to: nat)
    requires to <= |bits|
  {
    forall t | from <= t < to :: !bits[t]
  }

  /** Skips full words, then set bits of the first word that is not full. A partial last
      word is not looked at: the answer is at most the size rounded down to whole words. */
  method FindFirstZeroBit(bits: Bits, size: nat) returns (r: nat)
    requires size / WORD * WORD <= |bits|
    ensures r <= size / WORD * WORD
    ensures AllSet(bits, 0, r)
    ensures r < size / WORD * WORD ==> !bits[r]
  {
    var words := size / WORD;
    var i := 0;
    while i < words && WordFull(bits, i)
      invariant i <= words
      invariant AllSet(bits, 0, WORD * i)
    {
      i := i + 1;
    }
    if i == words {
      return WORD * i;
    }
    var j := 0;
    while j < WORD && bits[WORD * i + j]
      invariant j <= WORD
      invariant AllSet(bits, 0, WORD * i + j)
    {
      j := j + 1;
    }
    return WORD * i + j;
  }

  /** A word shifted right: bit t of the result is bit t+k of the word, zero when past it. */
  function Shr(word: Bits, k: nat): (r: Bits)
    requires |word| == WORD && k <= WORD
    ensures |r| == WORD
    ensures forall t | 0 <= t < WORD :: r[t] == (t + k < WORD && word[t + k])
  {
    word[k..] + seq(k, _ => false)
  }

  /** A word shifted left: the low k bits are zero. */
  function Shl(word: Bits, k: nat): (r: Bits)
    requires |word| == WORD && k <= WORD
    ensures |r| == WORD
    ensures forall t | 0 <= t < WORD :: r[t] == (t >= k && word[t - k])
  {
    seq(k, _ => false) + word[..WORD - k]
  }

  function Or(a: Bits, b: Bits): (r: Bits)
    requires |a| == |b| == WORD
    ensures |r| == WORD
    ensures forall t | 0 <= t < WORD :: r[t] == (a[t] || b[t])
  {
    seq(WORD, t requires 0 <= t < WORD => a[t] || b[t])
  }

  function Ones(): (r: Bits)
    ensures |r| == WORD && forall t | 0 <= t < WORD :: r[t]
  {
    seq(WORD, _ => true)
  }

  function Word(bits: Bits, w: nat): (r: Bits)
    requires WORD * (w + 1) <= |bits|
    ensures |r| == WORD
    ensures forall t | 0 <= t < WORD :: r[t] == bits[WORD * w + t]
  {
    bits[WORD * w..WORD * w + WORD]
  }

  /** Set bits seen through a copy that starts at `from` are set bits of the original. */
  lemma AllSetFrom(bits: Bits, copy: Bits, from: nat, n: nat)
    requires n <= |copy| && from + n <= |bits|
    requires forall t | 0 <= t < n :: copy[t] == bits[from + t]
    requires AllSet(copy, 0, n)
    ensures AllSet(bits, from, from + n)
  {
    forall u | from <= u < from + n
      ensures bits[u]
    {
      assert copy[u - from];
    }
  }

  /** The first clear bit at or after an offset, searching the rest of the offset's word as
      a shifted copy and then whole words. */
  method FindNextZeroBit(bits: Bits, size: nat, offset: nat) returns (r: nat)
    requires size <= |bits| && size % WORD == 0
    requires offset < size
    ensures offset <= r <= size
    ensures AllSet(bits, offset, r)
    ensures r < size ==> !bits[r]
  {
    hide Shr, Word;
    var p := offset / WORD;
    var bit := offset % WORD;
    var done := 0;
    assert WORD * (p + 1) <= size;
    if bit != 0 {
      var q := Shr(Word(bits, p), bit);
      done := FindFirstZeroBit(q, WORD);
      assert forall t | 0 <= t < WORD - bit :: q[t] == bits[offset + t];
      if done < WORD - bit {
        AllSetFrom(bits, q, offset, done);
        return done + offset;
      }
      done := WORD - bit;
      AllSetFrom(bits, q, offset, done);
      p := p + 1;
    }
    var rest := bits[WORD * p..];
    assert offset + done == WORD * p;
    var res := FindFirstZeroBit(rest, size - WORD * p);
    AllSetFrom(bits, rest, WORD * p, res);
    return offset + done + res;
  }

  /** The first free byte at or after byte `from`, looking at n bytes; `from + n` if none.
      The bound is tested before the byte is read. */
  method MemscanFree(bits: Bits, from: nat, n: nat) returns (r: nat)
    requires BYTE * (from + n) <= |bits|
    ensures from <= r <= from + n
    ensures forall k | from <= k < r :: !ByteFree(bits, k)
    ensures r < from + n ==> ByteFree(bits, r)
  {
    var i := 0;
    while i < n && exists t | 8 * (from + i) <= t < 8 * (from + i) + 8 :: bits[t]
      invariant i <= n
      invariant forall k | from <= k < from + i :: !ByteFree(bits, k)
    {
      i := i + 1;
    }
    return from + i;
  }

  /** Number of clear bits. */
  function CountFree(bits: Bits): (n: nat)
    ensures n <= |bits|
  {
    if bits == [] then 0 else (if bits[0] then 0 else 1) + CountFree(bits[1..])
  }

  lemma {:induction false} CountFreeUpdate(bits: Bits, j: nat, v: bool)
    requires j < |bits|
    ensures CountFree(bits[j := v]) ==
            CountFree(bits) + (if v then 0 else 1) - (if bits[j] then 0 else 1)
  {
    if j > 0 {
      assert bits[j := v][1..] == bits[1..][j - 1 := v];
      CountFreeUpdate(bits[1..], j - 1, v);
    } else {
      assert bits[j := v][1..] == bits[1..];
    }
  }

  /** The count is positive exactly when some bit is clear. */
  lemma {:induction false} CountFreePositive(bits: Bits)
    ensures CountFree(bits) > 0 <==> exists j :: 0 <= j < |bits| && !bits[j]
  {
    if bits != [] {
      CountFreePositive(bits[1..]);
      if CountFree(bits[1..]) > 0 {
        var j :| 0 <= j < |bits[1..]| && !bits[1..][j];
        assert !bits[j + 1];
      }
      if j :| 0 <= j < |bits| && !bits[j] && bits[0] {
        assert !bits[1..][j - 1];
      }
    }
  }

  function Sum(ns: seq<nat>): nat {
    if ns == [] then 0 else ns[0] + Sum(ns[1..])
  }

  lemma {:induction false} SumUpdate(ns: seq<nat>, i: nat, n: nat)
    requires i < |ns|
    ensures Sum(ns[i := n]) == Sum(ns) + n - ns[i]
    ensures ns[i] <= Sum(ns)
  {
    if i > 0 {
      assert ns[i := n][1..] == ns[1..][i - 1 := n];
      SumUpdate(ns[1..], i - 1, n);
    } else {
      assert ns[i := n][1..] == ns[1..];
    }
  }

  lemma {:induction false} SumZero(ns: seq<nat>)
    requires forall i | 0 <= i < |ns| :: ns[i] == 0
    ensures Sum(ns) == 0
  {
    if ns != [] {
      SumZero(ns[1..]);
    }
  }
}
