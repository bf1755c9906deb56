/** GetByteArrayHashCode: a multiplicative hash `h*31 + x` over 32-bit wrapping integers,
    computed per fragment into one slot per worker and then folded over the slots.
    The workers write disjoint slots, so the sequential model below computes the same slots.

    A hash word is the bit pattern of the C# `int`, taken as a number below 2^32: unchecked
    `int` arithmetic wraps exactly as arithmetic modulo 2^32 does.

    Two versions are modelled. `HashAsWritten` follows the loop bounds of the source, under
    which only the first fragment is ever hashed. `Hash` is the evident intent: every
    fragment hashed into its own slot. The loader can key its cache by either. */
module ContentHash {
  import opened LittleEndian

  const Modulus := 0x1_0000_0000

  /** The bit pattern of a 32-bit `int`. */
  type Word = x: int | 0 <= x < Modulus

  /** One step of the hash, wrapping at 32 bits. */
  function Step(h: Word, x: Word): Word {
    (h * 31 + x) % Modulus
  }

  /** The hash of a sequence of words, starting from 0. */
  function Fold(s: seq<Word>): Word
    decreases |s|
  {
    if |s| == 0 then 0 else Step(Fold(s[..|s| - 1]), s[|s| - 1])
  }

  /** Bytes promoted to `int` as the source's `hashs[j] * 31 + array[i]` does. */
  function Widen(a: seq<byte>): (r: seq<Word>)
    ensures |r| == |a|
    ensures forall i :: 0 <= i < |a| ==> r[i] == a[i] as int
  {
    seq(|a|, i requires 0 <= i < |a| => a[i] as int)
  }

  /** The hash of the bytes `a[lo..hi]`; an empty range (`lo >= hi`) hashes to 0. */
  function FoldRange(a: seq<byte>, lo: int, hi: int): Word
    requires 0 <= lo && (lo < hi ==> hi <= |a|)
  {
    if lo < hi then Fold(Widen(a[lo..hi])) else 0
  }

  function Min(x: int, y: int): int {
    if x < y then x else y
  }

  /** `fragLength`: the length divided by the number of workers, rounded up. */
  function FragLength(len: nat, threads: nat): (r: nat)
    requires threads >= 1
    ensures r * threads >= len
    ensures len > 0 ==> (r - 1) * threads < len && r >= 1
    ensures len == 0 ==> r == 0
  {
    var q := len / threads;
    var m := len % threads;
    assert len == q * threads + m;
    var r := q + (if m == 0 then 0 else 1);
    assert r * threads == q * threads + (if m == 0 then 0 else threads);
    assert (r - 1) * threads == r * threads - threads;
    r
  }

  lemma MulMonotonic(x: nat, y: nat, z: nat)
    requires y <= z
    ensures x * y <= x * z
  {
  }

  // ---------------------------------------------------------------- as written

  /** Slot `j` after the parallel loop: `Parallel.For(0, threads - 1)` never runs the last
      slot, and each worker stops at `min(length - fragLength*j, fragLength)`, an absolute
      index compared with a relative bound. */
  function SlotAsWritten(a: seq<byte>, threads: nat, j: nat): Word
    requires threads >= 1 && j < threads
  {
    var fragLength := FragLength(|a|, threads);
    if j < threads - 1 then
      var remain := |a| - fragLength * j;
      FoldRange(a, fragLength * j, if remain < fragLength then remain else fragLength)
    else
      0
  }

  function SlotsAsWritten(a: seq<byte>, threads: nat): (r: seq<Word>)
    requires threads >= 1
    ensures |r| == threads
    ensures forall j :: 0 <= j < threads ==> r[j] == SlotAsWritten(a, threads, j)
  {
    seq(threads, j requires 0 <= j < threads => SlotAsWritten(a, threads, j))
  }

  /** The hash as the source computes it. */
  function HashAsWritten(a: seq<byte>, threads: nat): Word
    requires threads >= 1
  {
    Fold(SlotsAsWritten(a, threads))
  }

  /** `k` further steps with nothing added: the effect of trailing zero slots. */
  function Times31(h: Word, k: nat): Word
    decreases k
  {
    if k == 0 then h else Step(Times31(h, k - 1), 0)
  }

  /** Every slot but the first stays 0: a worker with `j >= 1` starts at `fragLength*j`,
      which is never below its bound. */
  lemma LaterSlotsStayZero(a: seq<byte>, threads: nat, j: nat)
    requires threads >= 1 && 1 <= j < threads
    ensures SlotAsWritten(a, threads, j) == 0
  {
    MulMonotonic(FragLength(|a|, threads), 1, j);
  }

  lemma {:induction false} FoldTrailingZeros(s: seq<Word>, k: nat)
    requires |s| >= 1 + k
    requires forall i :: |s| - k <= i < |s| ==> s[i] == 0
    ensures Fold(s) == Times31(Fold(s[..|s| - k]), k)
    decreases k
  {
    if k == 0 {
      assert s[..|s|] == s;
    } else {
      var n := |s| - 1;
      assert s[n] == 0;
      assert Fold(s) == Step(Fold(s[..n]), 0);
      assert s[..n][..|s[..n]| - (k - 1)] == s[..|s| - k];
      FoldTrailingZeros(s[..n], k - 1);
    }
  }

  /** As written, the hash depends on the first `fragLength` bytes only, and with a
      single worker it is 0 whatever the bytes. */
  lemma AsWrittenHashesFirstFragmentOnly(a: seq<byte>, threads: nat)
    requires threads >= 1
    ensures threads == 1 ==> HashAsWritten(a, threads) == 0
    ensures threads >= 2 ==>
      HashAsWritten(a, threads) == Times31(Fold(Widen(a[..Min(|a|, FragLength(|a|, threads))])), threads - 1)
  {
    var slots := SlotsAsWritten(a, threads);
    if threads == 1 {
      assert slots == [0];
      FoldSingle(0);
    } else {
      forall j | threads - (threads - 1) <= j < threads
        ensures slots[j] == 0
      {
        LaterSlotsStayZero(a, threads, j);
      }
      FoldTrailingZeros(slots, threads - 1);
      assert slots[..1] == [slots[0]];
      FoldSingle(slots[0]);
      FirstSlotAsWritten(a, threads);
    }
  }

  /** A single word hashes to itself. */
  lemma FoldSingle(x: Word)
    ensures Fold([x]) == x
  {
    assert [x][..0] == [];
  }

  /** The first worker hashes the bytes up to `fragLength`, clipped to the buffer. */
  lemma FirstSlotAsWritten(a: seq<byte>, threads: nat)
    requires threads >= 2
    ensures SlotAsWritten(a, threads, 0) == Fold(Widen(a[..Min(|a|, FragLength(|a|, threads))]))
  {
    var end := Min(|a|, FragLength(|a|, threads));
    assert SlotAsWritten(a, threads, 0) == FoldRange(a, 0, end);
    if end == 0 {
      assert Widen(a[..end]) == [];
    } else {
      assert a[0..end] == a[..end];
    }
  }

  /** Hence two buffers that agree on their first fragment collide, however they differ
      afterwards. */
  lemma AsWrittenIgnoresLaterFragments(a: seq<byte>, b: seq<byte>, threads: nat)
    requires threads >= 2 && |a| == |b|
    requires a[..Min(|a|, FragLength(|a|, threads))] == b[..Min(|b|, FragLength(|b|, threads))]
    ensures HashAsWritten(a, threads) == HashAsWritten(b, threads)
  {
    AsWrittenHashesFirstFragmentOnly(a, threads);
    AsWrittenHashesFirstFragmentOnly(b, threads);
  }

  /** A concrete collision: two workers, two one-byte fragments, the buffers differ in
      their last byte only. */
  lemma AsWrittenCollision()
    ensures HashAsWritten([0, 0], 2) == HashAsWritten([0, 1], 2)
  {
    AsWrittenIgnoresLaterFragments([0, 0], [0, 1], 2);
  }

  /** The inner loop of one worker: `h = h*31 + array[i]` for `i` from `lo` up to `hi`. */
  method HashRange(a: seq<byte>, lo: nat, hi: int) returns (h: Word)
    requires lo < hi ==> hi <= |a|
    ensures h == FoldRange(a, lo, hi)
  {
    h := 0;
    var i := lo;
    while i < hi
      invariant lo <= i
      invariant i > lo ==> i <= hi
      invariant h == FoldRange(a, lo, i)
    {
      assert Widen(a[lo..i + 1])[..i - lo] == Widen(a[lo..i]);
      h := (h * 31 + a[i] as int) % Modulus;
      i := i + 1;
    }
  }

  /** The final `foreach`: folds the slots in index order. */
  method FoldSlots(hashs: seq<Word>) returns (hash: Word)
    ensures hash == Fold(hashs)
  {
    hash := 0;
    var k := 0;
    while k < |hashs|
      invariant 0 <= k <= |hashs|
      invariant hash == Fold(hashs[..k])
    {
      assert hashs[..k + 1][..k] == hashs[..k];
      hash := (hash * 31 + hashs[k]) % Modulus;
      k := k + 1;
    }
    assert hashs[..|hashs|] == hashs;
  }

  /** The source's loops, run one worker after another. */
  method HashAsWrittenLoops(a: seq<byte>, threads: nat) returns (hash: Word)
    requires threads >= 1
    ensures hash == HashAsWritten(a, threads)
    ensures threads == 1 ==> hash == 0
  {
    var hashs := SlotLoop(a, threads);
    hash := FoldSlots(hashs);
    if threads == 1 {
      AsWrittenHashesFirstFragmentOnly(a, threads);
    }
  }

  /** The `Parallel.For` over `j` from 0 up to `threads - 1`, one worker after another. */
  method SlotLoop(a: seq<byte>, threads: nat) returns (hashs: seq<Word>)
    requires threads >= 1
    ensures hashs == SlotsAsWritten(a, threads)
  {
    var length := |a|;
    hashs := seq(threads, _ => 0);
    var fragLength := length / threads + (if length % threads == 0 then 0 else 1);
    assert fragLength == FragLength(length, threads);
    var j := 0;
    while j < threads - 1
      invariant 0 <= j <= threads - 1
      invariant |hashs| == threads
      invariant forall k :: 0 <= k < j ==> hashs[k] == SlotAsWritten(a, threads, k)
      invariant forall k :: j <= k < threads ==> hashs[k] == 0
    {
      var remain := length - fragLength * j;
      var h := HashRange(a, fragLength * j, if remain < fragLength then remain else fragLength);
      hashs := hashs[j := h];
      j := j + 1;
    }
  }

  // ---------------------------------------------------------------- as intended

  /** Fragment `j`: the bytes from `fragLength*j` to `fragLength*(j+1)`, clipped to the
      buffer, so the last fragment absorbs the remainder and later ones are empty. */
  function Fragment(a: seq<byte>, threads: nat, j: nat): seq<byte>
    requires threads >= 1 && j < threads
  {
    BoundMonotonic(|a|, threads, j, j + 1);
    a[Bound(|a|, threads, j)..Bound(|a|, threads, j + 1)]
  }

  /** Where fragment `j` starts: `fragLength*j`, clipped to the buffer. */
  function Bound(n: nat, threads: nat, j: nat): (r: nat)
    requires threads >= 1
    ensures r <= n
  {
    Min(n, FragLength(n, threads) * j)
  }

  lemma BoundMonotonic(n: nat, threads: nat, i: nat, j: nat)
    requires threads >= 1 && i <= j
    ensures Bound(n, threads, i) <= Bound(n, threads, j)
  {
    MulMonotonic(FragLength(n, threads), i, j);
  }

  function Slots(a: seq<byte>, threads: nat): (r: seq<Word>)
    requires threads >= 1
    ensures |r| == threads
    ensures forall j :: 0 <= j < threads ==> r[j] == Fold(Widen(Fragment(a, threads, j)))
  {
    seq(threads, j requires 0 <= j < threads => Fold(Widen(Fragment(a, threads, j))))
  }

  /** The content fingerprint: every fragment hashed into its slot, slots folded in order. */
  function Hash(a: seq<byte>, threads: nat): Word
    requires threads >= 1
  {
    Fold(Slots(a, threads))
  }

  function Concat(parts: seq<seq<byte>>): seq<byte>
    decreases |parts|
  {
    if |parts| == 0 then [] else Concat(parts[..|parts| - 1]) + parts[|parts| - 1]
  }

  function Fragments(a: seq<byte>, threads: nat): (r: seq<seq<byte>>)
    requires threads >= 1
    ensures |r| == threads
    ensures forall j :: 0 <= j < threads ==> r[j] == Fragment(a, threads, j)
  {
    seq(threads, j requires 0 <= j < threads => Fragment(a, threads, j))
  }

  /** The fragments, in order, are the buffer: no byte dropped, none hashed twice. */
  lemma {:induction false} FragmentsPartitionBuffer(a: seq<byte>, threads: nat)
    requires threads >= 1
    ensures Concat(Fragments(a, threads)) == a
  {
    var frags := Fragments(a, threads);
    var k := 0;
    while k < threads
      invariant 0 <= k <= threads
      invariant Concat(frags[..k]) == a[..Bound(|a|, threads, k)]
    {
      assert frags[..k + 1] == frags[..k] + [frags[k]];
      BoundMonotonic(|a|, threads, k, k + 1);
      PrefixThenSlice(a, Bound(|a|, threads, k), Bound(|a|, threads, k + 1));
      k := k + 1;
    }
    assert frags[..threads] == frags;
    LastBoundIsLength(|a|, threads);
  }

  lemma PrefixThenSlice(a: seq<byte>, lo: nat, hi: nat)
    requires lo <= hi <= |a|
    ensures a[..lo] + a[lo..hi] == a[..hi]
  {
  }

  /** Fragment `threads - 1` ends at the end of the buffer. */
  lemma LastBoundIsLength(n: nat, threads: nat)
    requires threads >= 1
    ensures Bound(n, threads, threads) == n
  {
  }

  /** With one worker the fingerprint is the plain `h*31 + b` hash of the whole buffer. */
  lemma SingleWorkerHashesWholeBuffer(a: seq<byte>)
    ensures Hash(a, 1) == Fold(Widen(a))
  {
    var slots := Slots(a, 1);
    assert FragLength(|a|, 1) == |a|;
    assert Fragment(a, 1, 0) == a[0..|a|] == a;
    assert slots[..0] == [];
    assert Fold(slots) == Step(Fold(slots[..0]), slots[0]);
  }

  /** Step is injective in the running hash: 31 is odd, hence invertible modulo 2^32
      (31 * 3186588639 == 1 + 23 * 2^32). */
  lemma StepInjective(x: Word, y: Word, v: Word)
    requires Step(x, v) == Step(y, v)
    ensures x == y
  {
    var d := x - y;
    var k := (x * 31 + v) / Modulus - (y * 31 + v) / Modulus;
    assert 31 * d == Modulus * k;
    assert d == 3186588639 * (31 * d) - 23 * Modulus * d;
    assert d == Modulus * (3186588639 * k - 23 * d);
  }

  /** Step is injective in the word it adds. */
  lemma StepSeesWord(h: Word, v: Word, w: Word)
    requires Step(h, v) == Step(h, w)
    ensures v == w
  {
    assert v - w == Modulus * ((h * 31 + v) / Modulus - (h * 31 + w) / Modulus);
  }

  /** Two word sequences that differ at exactly one index have different hashes. */
  lemma {:induction false} FoldSeesEveryWord(s: seq<Word>, t: seq<Word>, k: nat)
    requires |s| == |t| && k < |s| && s[k] != t[k]
    requires forall i :: 0 <= i < |s| && i != k ==> s[i] == t[i]
    ensures Fold(s) != Fold(t)
    decreases |s|
  {
    var n := |s| - 1;
    if k == n {
      assert s[..n] == t[..n];
      if Fold(s) == Fold(t) {
        StepSeesWord(Fold(s[..n]), s[n], t[n]);
      }
    } else {
      FoldSeesEveryWord(s[..n], t[..n], k);
      if Fold(s) == Fold(t) {
        StepInjective(Fold(s[..n]), Fold(t[..n]), s[n]);
      }
    }
  }

  /** The fragment that holds byte `k`. */
  lemma FragmentOfByte(n: nat, threads: nat, k: nat) returns (j: nat)
    requires threads >= 1 && k < n
    ensures j < threads
    ensures Bound(n, threads, j) <= k < Bound(n, threads, j + 1)
  {
    var fragLength := FragLength(n, threads);
    j := k / fragLength;
    assert fragLength * j <= k < fragLength * (j + 1);
    if j >= threads {
      MulMonotonic(fragLength, threads, j);
    }
  }

  /** A fragment that does not hold byte `k` is the same in both buffers. */
  lemma OtherFragmentsAgree(a: seq<byte>, b: seq<byte>, threads: nat, k: nat, i: nat, j: nat)
    requires threads >= 1 && |a| == |b| && i < threads && j < threads && i != j
    requires forall x :: 0 <= x < |a| && x != k ==> a[x] == b[x]
    requires Bound(|a|, threads, j) <= k < Bound(|a|, threads, j + 1)
    ensures Fragment(a, threads, i) == Fragment(b, threads, i)
  {
    if i < j {
      BoundMonotonic(|a|, threads, i + 1, j);
    } else {
      BoundMonotonic(|a|, threads, j + 1, i);
    }
    BoundMonotonic(|a|, threads, i, i + 1);
    var lo := Bound(|a|, threads, i);
    var hi := Bound(|a|, threads, i + 1);
    assert forall x :: lo <= x < hi ==> a[x] == b[x];
  }

  /** Changing any single byte changes the fingerprint, whatever the number of workers. */
  lemma HashSeesEveryByte(a: seq<byte>, b: seq<byte>, threads: nat, k: nat)
    requires threads >= 1 && |a| == |b| && k < |a| && a[k] != b[k]
    requires forall i :: 0 <= i < |a| && i != k ==> a[i] == b[i]
    ensures Hash(a, threads) != Hash(b, threads)
  {
    var j := FragmentOfByte(|a|, threads, k);
    var sa := Slots(a, threads);
    var sb := Slots(b, threads);
    forall i | 0 <= i < threads && i != j
      ensures sa[i] == sb[i]
    {
      OtherFragmentsAgree(a, b, threads, k, i, j);
    }
    FragmentSlotDiffers(a, b, threads, k, j);
    FoldSeesEveryWord(sa, sb, j);
  }

  /** The fragment holding byte `k` hashes differently in the two buffers. */
  lemma FragmentSlotDiffers(a: seq<byte>, b: seq<byte>, threads: nat, k: nat, j: nat)
    requires threads >= 1 && |a| == |b| && k < |a| && a[k] != b[k] && j < threads
    requires forall i :: 0 <= i < |a| && i != k ==> a[i] == b[i]
    requires Bound(|a|, threads, j) <= k < Bound(|a|, threads, j + 1)
    ensures Fold(Widen(Fragment(a, threads, j))) != Fold(Widen(Fragment(b, threads, j)))
  {
    SliceSeesByte(a, b, Bound(|a|, threads, j), Bound(|a|, threads, j + 1), k);
  }

  /** Two slices of buffers that differ at one byte inside the slice hash differently. */
  lemma SliceSeesByte(a: seq<byte>, b: seq<byte>, lo: nat, hi: nat, k: nat)
    requires |a| == |b| && lo <= k < hi <= |a| && a[k] != b[k]
    requires forall i :: 0 <= i < |a| && i != k ==> a[i] == b[i]
    ensures Fold(Widen(a[lo..hi])) != Fold(Widen(b[lo..hi]))
  {
    var fa := Widen(a[lo..hi]);
    var fb := Widen(b[lo..hi]);
    assert fa[k - lo] != fb[k - lo];
    FoldSeesEveryWord(fa, fb, k - lo);
  }
}
