/** The searches of ext2_new_block inside one group's bitmap. */
module BlockSearch {
  import opened Bitops
  import opened Geometry

  /** Bit u after the goal bit j counts as free in the window: it is clear. Only when the goal is
      the last bit of its word and the shift by 32 leaves the word as it is (`keep`), the bit 32
      places before must be clear as well. */
  predicate Shown(bits: Bits, j: nat, keep: bool, u: nat)
    requires j < u < |bits|
  {
    !bits[u] && !(j % WORD == WORD - 1 && keep && bits[u - WORD])
  }

  ghost predicate NoneShown(bits: Bits, j: nat, keep: bool, end: nat) {
    forall u: nat | j < u < end && u < |bits| :: !Shown(bits, j, keep, u)
  }

  /** r is the nearest bit after j that the window shows as free. */
  ghost predicate FirstShown(bits: Bits, j: nat, keep: bool, r: nat) {
    j < r <= j + WORD && r < |bits| && Shown(bits, j, keep, r) && NoneShown(bits, j, keep, r)
  }

  /** k is the first free byte that starts no earlier than byte j / 8. */
  ghost predicate FirstFreeByte(bits: Bits, j: nat, k: nat)
  {
    && j / BYTE <= k && BYTE * (k + 1) <= |bits| && ByteFree(bits, k)
    && forall m | j / BYTE <= m < k :: !ByteFree(bits, m)
  }

  ghost predicate NoFreeByte(bits: Bits, j: nat) {
    forall m | j / BYTE <= m && BYTE * (m + 1) <= |bits| :: !ByteFree(bits, m)
  }

  /** r is at most seven bits before free byte k, all bits between are clear, and the walk
      back stopped because it took seven steps, reached bit 0, or met a set bit. */
  ghost predicate RunInto(bits: Bits, k: nat, r: nat)
    requires BYTE * (k + 1) <= |bits|
  {
    && r <= BYTE * k <= r + 7
    && AllClear(bits, r, BYTE * (k + 1))
    && (r == 0 || BYTE * k == r + 7 || bits[r - 1])
  }

  /** The rule for a bit after an occupied goal bit j that the 32-bit window did not give:
      the run into the first free byte, or else the first clear bit. */
  ghost predicate FarChoice(bits: Bits, j: nat, r: nat) {
    if NoFreeByte(bits, j) then j <= r < |bits| && !bits[r] && AllSet(bits, j, r)
    else exists k :: FirstFreeByte(bits, j, k) && RunInto(bits, k, r)
  }

  /** The 32 bits after bit `bit` of a word, taken from that word and the next one. When the
      goal is the last bit of its word the shift is by 32, which may give zero or leave the
      word unshifted (`keep`). */
  function NearWord(word: Bits, next: Bits, bit: nat, keep: bool): (lmap: Bits)
    requires |word| == |next| == WORD && bit < WORD
    ensures |lmap| == WORD
    ensures forall t | 0 <= t < WORD - 1 - bit :: lmap[t] == word[bit + 1 + t]
    ensures forall t | WORD - 1 - bit <= t < WORD ::
              lmap[t] == (next[bit + 1 + t - WORD] || (bit == WORD - 1 && keep && word[t]))
  {
    var low := if bit + 1 == WORD && keep then word else Shr(word, bit + 1);
    Or(low, Shl(next, WORD - 1 - bit))
  }

  /** Looks at the 32 bits after an occupied goal bit through one shifted word. Only a goal at the
      last bit of a word that a shift by 32 leaves as it is can make it miss a clear bit. */
  method SearchWindow(bits: Bits, j: nat, keep: bool) returns (found: bool, r: nat)
    requires |bits| % WORD == 0 && j < |bits| && bits[j]
    ensures found ==> FirstShown(bits, j, keep, r)
    ensures !found ==> NoneShown(bits, j, keep, j + WORD + 1)
  {
    hide NearWord, Word, Ones;
    var w, bit := j / WORD, j % WORD;
    WordPosition(|bits|, j);
    var word := Word(bits, w);
    var next := if j + WORD < |bits| then Word(bits, w + 1) else Ones();
    var lmap := NearWord(word, next, bit, keep);
    var t := FindFirstZeroBit(lmap, WORD);
    forall u: nat | u < WORD && j + 1 + u < |bits|
      ensures lmap[u] <==> !Shown(bits, j, keep, j + 1 + u)
    {
      if u < WORD - 1 - bit {
        assert word[bit + 1 + u] == bits[j + 1 + u];
      } else {
        assert next[bit + 1 + u - WORD] == bits[j + 1 + u];
        assert bit == WORD - 1 ==> word[u] == bits[j + 1 + u - WORD];
      }
    }
    found := t < WORD && j + t + 1 < |bits|;
    r := if found then j + t + 1 else 0;
    forall u: nat | j < u <= j + WORD && u < |bits| && (!found || u < r)
      ensures !Shown(bits, j, keep, u)
    {
      assert lmap[u - j - 1] <==> !Shown(bits, j, keep, j + 1 + (u - j - 1));
    }
  }

  lemma WordPosition(len: nat, j: nat)
    requires len % WORD == 0 && j < len
    ensures j == WORD * (j / WORD) + j % WORD && WORD * (j / WORD + 1) <= len
    ensures j + WORD < len ==> WORD * (j / WORD + 2) <= len
    ensures j + WORD >= len ==> WORD * (j / WORD + 1) == len
  {
  }

  /** Walks back over at most seven clear bits. */
  method SearchBack(bits: Bits, k: nat) returns (r: nat)
    requires BYTE * (k + 1) <= |bits| && ByteFree(bits, k)
    ensures RunInto(bits, k, r)
  {
    r := BYTE * k;
    var steps := 0;
    while steps < 7 && r > 0 && !bits[r - 1]
      invariant r + steps == BYTE * k && steps <= 7
      invariant AllClear(bits, r, BYTE * (k + 1))
    {
      steps, r := steps + 1, r - 1;
    }
  }

  lemma BytesLeft(len: nat, j: nat)
    requires len % WORD == 0 && j < len
    ensures BYTE * (j / BYTE + (len - j + 7) / BYTE) == len
  {
    var m, q, s := len / WORD, j / BYTE, j % BYTE;
    assert len == WORD * m && j == BYTE * q + s;
    DivModUnique(len - j + 7, BYTE, 4 * m - q, 7 - s);
  }

  /** A run into a free byte stays clear of an occupied bit before that byte. */
  lemma RunAfter(bits: Bits, j: nat, k: nat, r: nat)
    requires j < |bits| && bits[j] && FirstFreeByte(bits, j, k) && RunInto(bits, k, r)
    ensures j < r < |bits| && !bits[r]
  {
    assert r < BYTE * (k + 1);
    assert BYTE * (j / BYTE) <= j < BYTE * (j / BYTE) + BYTE;
    assert !ByteFree(bits, j / BYTE);
  }

  /** The first free byte from the goal's byte on, walked back; else the next clear bit. */
  method SearchFar(bits: Bits, j: nat) returns (found: bool, r: nat)
    requires |bits| % WORD == 0 && j < |bits| && bits[j]
    ensures found ==> j < r < |bits| && !bits[r] && FarChoice(bits, j, r)
    ensures !found ==> AllSet(bits, j, |bits|)
  {
    var n := (|bits| - j + 7) / BYTE;
    BytesLeft(|bits|, j);
    var k := MemscanFree(bits, j / BYTE, n);
    if BYTE * k < |bits| {
      assert FirstFreeByte(bits, j, k);
      r := SearchBack(bits, k);
      RunAfter(bits, j, k, r);
      return true, r;
    }
    r := FindNextZeroBit(bits, |bits|, j);
    found := r < |bits|;
  }

  /** Another group is searched from its first bit. */
  method SearchWhole(bits: Bits) returns (found: bool, r: nat)
    requires |bits| % WORD == 0
    ensures found <==> exists t :: 0 <= t < |bits| && !bits[t]
    ensures found ==> r < |bits| && !bits[r] && FarChoice(bits, 0, r)
  {
    var k := MemscanFree(bits, 0, |bits| / BYTE);
    if BYTE * k < |bits| {
      r := SearchBack(bits, k);
      assert !bits[r] by { assert r < BYTE * (k + 1); }
      assert FirstFreeByte(bits, 0, k);
      return true, r;
    }
    r := FindFirstZeroBit(bits, |bits|);
    found := r < |bits|;
  }

  ghost predicate Windowed(bits: Bits, j: nat, keep: bool, r: nat) {
    if NoneShown(bits, j, keep, j + WORD + 1) then FarChoice(bits, j, r) else FirstShown(bits, j, keep, r)
  }

  /** The choice in the goal's own group: the goal if it is free, else the nearest free bit
      that the window shows (goal bit 0 has no window), else the far choice. */
  ghost predicate NearChoice(bits: Bits, j: nat, r: nat)
    requires j < |bits|
  {
    && r < |bits| && !bits[r] && r >= j
    && (bits[j] ==> r > j)
    && (!bits[j] ==> r == j)
    && (bits[j] && j == 0 ==> FarChoice(bits, j, r))
    && (bits[j] && j > 0 ==> exists keep: bool :: Windowed(bits, j, keep, r))
  }

  /** The search in the goal's group. */
  method SearchGroup(bits: Bits, j: nat) returns (found: bool, r: nat)
    requires |bits| % WORD == 0 && j < |bits|
    ensures found ==> NearChoice(bits, j, r)
    ensures !found ==> AllSet(bits, j, |bits|)
  {
    if !bits[j] {
      return true, j;
    }
    if j != 0 {
      var keep := *;
      found, r := SearchWindow(bits, j, keep);
      if found {
        assert Shown(bits, j, keep, r) && Windowed(bits, j, keep, r);
        return;
      }
      found, r := SearchFar(bits, j);
      assert found ==> Windowed(bits, j, keep, r);
      return;
    }
    found, r := SearchFar(bits, j);
  }
}
