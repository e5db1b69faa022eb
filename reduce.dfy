/**
 * The block reductions of the score map (src/ssimu2/score.hpp).
 *
 * Every work-item of the score kernel produces six float3 statistics. A
 * work-group adds its work-items' statistics with a pointer-jumping tree in
 * local memory; while 256 or more per-block sums remain, further passes add
 * them in consecutive groups of `th_x`. Global buffers keep the six
 * statistics as six sections of equal length (structure of arrays); local
 * buffers are modelled as arrays of `Stats` records.
 */
module Reduce {
  import opened Geometry
  import opened Float3

  /**
   * The six statistics of one pixel or one partial sum, in the order of the
   * kernel's sections: SSIM error and its 4th power, artifact and its 4th
   * power, detail loss and its 4th power.
   */
  datatype Stats = Stats(ssim1: F3, ssim4: F3, a1: F3, a4: F3, d1: F3, d4: F3)

  const ZeroStats: Stats := Stats(Zero, Zero, Zero, Zero, Zero, Zero)

  function AddStats(a: Stats, b: Stats): Stats
  {
    Stats(Add(a.ssim1, b.ssim1), Add(a.ssim4, b.ssim4), Add(a.a1, b.a1),
          Add(a.a4, b.a4), Add(a.d1, b.d1), Add(a.d4, b.d4))
  }

  /** Section `k` of a record. */
  function Field(s: Stats, k: int): F3
    requires 0 <= k < 6
  {
    match k
    case 0 => s.ssim1
    case 1 => s.ssim4
    case 2 => s.a1
    case 3 => s.a4
    case 4 => s.d1
    case _ => s.d4
  }

  /** Sum of a sequence of records, added from the left. */
  function SumStats(s: seq<Stats>): Stats
  {
    if |s| == 0 then ZeroStats else AddStats(SumStats(s[..|s| - 1]), s[|s| - 1])
  }

  /** Sum of a sequence of vectors, added from the left. */
  function SumF3(v: seq<F3>): F3
  {
    if |v| == 0 then Zero else Add(SumF3(v[..|v| - 1]), v[|v| - 1])
  }

  lemma AddStatsAssoc(a: Stats, b: Stats, c: Stats)
    ensures AddStats(AddStats(a, b), c) == AddStats(a, AddStats(b, c))
  {}

  lemma AddStatsZero(a: Stats)
    ensures AddStats(a, ZeroStats) == a && AddStats(ZeroStats, a) == a
  {}

  /** Adding two consecutive runs separately and then together gives the sum of the whole run. */
  lemma {:induction false} SumStatsSplit(a: seq<Stats>, b: seq<Stats>)
    ensures SumStats(a + b) == AddStats(SumStats(a), SumStats(b))
    decreases |b|
  {
    if |b| == 0 {
      assert a + b == a;
      AddStatsZero(SumStats(a));
    } else {
      var b' := b[..|b| - 1];
      assert (a + b)[..|a + b| - 1] == a + b';
      SumStatsSplit(a, b');
      AddStatsAssoc(SumStats(a), SumStats(b'), b[|b| - 1]);
    }
  }

  /** Sum of `s[i..k]` split at `j`. */
  lemma SumStatsSlices(s: seq<Stats>, i: int, j: int, k: int)
    requires 0 <= i <= j <= k <= |s|
    ensures SumStats(s[i..k]) == AddStats(SumStats(s[i..j]), SumStats(s[j..k]))
  {
    assert s[i..k] == s[i..j] + s[j..k];
    SumStatsSplit(s[i..j], s[j..k]);
  }

  lemma SumStatsSingle(x: Stats)
    ensures SumStats([x]) == x
  {
    assert [x][..0] == [];
    AddStatsZero(x);
  }

  /** Section `k` of every record of `s`. */
  function Column(s: seq<Stats>, k: int): seq<F3>
    requires 0 <= k < 6
  {
    seq(|s|, i requires 0 <= i < |s| => Field(s[i], k))
  }

  /** Adding one section on its own gives that section of the sum of the records. */
  lemma {:induction false} ColumnSum(s: seq<Stats>, k: int)
    requires 0 <= k < 6
    ensures SumF3(Column(s, k)) == Field(SumStats(s), k)
    decreases |s|
  {
    if |s| > 0 {
      var s' := s[..|s| - 1];
      assert Column(s, k)[..|s| - 1] == Column(s', k);
      ColumnSum(s', k);
    }
  }

  // ---------------------------------------------------------------------
  // The tree inside one work-group.
  // ---------------------------------------------------------------------

  /**
   * One round of the in-group tree with stride `next`: work-item `i` adds in
   * slot `i + next` when `i` is a multiple of `2 * next` and `i + next` is
   * below the group size `|s|`.
   */
  function StepSpec(s: seq<Stats>, next: int): seq<Stats>
    requires next >= 1
  {
    seq(|s|, i requires 0 <= i < |s| =>
      if i + next < |s| && i % (2 * next) == 0 then AddStats(s[i], s[i + next]) else s[i])
  }

  /**
   * No slot is both read and written in one round: the slot a writing
   * work-item reads is not a multiple of `2 * next`, so its owner does not
   * write. Running the work-items of a round one after another therefore
   * gives what the parallel round gives.
   */
  lemma StepPartnerIdle(i: int, next: int)
    requires next >= 1 && i >= 0 && i % (2 * next) == 0
    ensures (i + next) % (2 * next) == next
  {
    var q := i / (2 * next);
    assert i == (2 * next) * q;
    DivModUnique(2 * next, q, next);
  }

  lemma MultipleOfHalf(i: int, next: int)
    requires next >= 1 && i % (2 * next) == 0
    ensures i % next == 0
  {
    var q := i / (2 * next);
    assert i == (2 * next) * q;
    assert i == next * (2 * q) + 0;
    DivModUnique(next, 2 * q, 0);
  }

  lemma NextMultiple(i: int, next: int)
    requires next >= 1 && i % next == 0
    ensures (i + next) % next == 0
  {
    var q := i / next;
    assert i + next == next * (q + 1) + 0;
    DivModUnique(next, q + 1, 0);
  }

  /**
   * After the rounds with strides below `next`, every slot that is a
   * multiple of `next` holds the sum of the `next` original entries starting
   * there (fewer at the end).
   */
  predicate Segmented(s: seq<Stats>, orig: seq<Stats>, next: int)
    requires |s| == |orig| && next >= 1
  {
    forall i :: 0 <= i < |s| && i % next == 0 ==> s[i] == SumStats(orig[i..Min(i + next, |s|)])
  }

  /** A round with stride `next` doubles the length of the runs the slots hold. */
  lemma StepSegments(s: seq<Stats>, orig: seq<Stats>, next: int)
    requires |s| == |orig| && next >= 1
    requires Segmented(s, orig, next)
    ensures Segmented(StepSpec(s, next), orig, 2 * next)
  {
    var n := |s|;
    var t := StepSpec(s, next);
    forall i | 0 <= i < n && i % (2 * next) == 0
      ensures t[i] == SumStats(orig[i..Min(i + 2 * next, n)])
    {
      MultipleOfHalf(i, next);
      if i + next < n {
        NextMultiple(i, next);
        SumStatsSlices(orig, i, i + next, Min(i + 2 * next, n));
      }
    }
  }

  /** The original entries are runs of length one. */
  lemma SegmentedStart(s: seq<Stats>)
    ensures Segmented(s, s, 1)
  {
    forall i | 0 <= i < |s| && i % 1 == 0
      ensures s[i] == SumStats(s[i..Min(i + 1, |s|)])
    {
      assert s[i..i + 1] == [s[i]];
      SumStatsSingle(s[i]);
    }
  }

  /**
   * One round of the tree over the first `n` slots, each work-item `i`
   * taking its turn; the slots at and beyond `n` are not touched.
   */
  method Round(a: array<Stats>, n: int, next: int)
    requires 1 <= n <= a.Length && next >= 1
    modifies a
    ensures a[..n] == StepSpec(old(a[..n]), next)
    ensures forall k :: n <= k < a.Length ==> a[k] == old(a[k])
  {
    ghost var s0 := a[..n];
    ghost var t := StepSpec(s0, next);
    for i := 0 to n
      invariant forall j :: 0 <= j < i ==> a[j] == t[j]
      invariant forall j :: i <= j < a.Length ==> a[j] == old(a[j])
    {
      if i + next < n && i % (2 * next) == 0 {
        StepPartnerIdle(i, next);
        a[i] := AddStats(a[i], a[i + next]);
      }
    }
    assert a[..n] == t;
  }

  /**
   * The in-group reduction: strides 1, 2, 4, ... while below the group
   * size `n`; slot 0 then holds the sum of all `n` original entries, for
   * any `n`, a power of two or not.
   */
  method TreeReduce(a: array<Stats>, n: int)
    requires 1 <= n <= a.Length
    modifies a
    ensures a[0] == SumStats(old(a[..n]))
    ensures forall k :: n <= k < a.Length ==> a[k] == old(a[k])
  {
    ghost var orig := a[..n];
    SegmentedStart(orig);
    var next := 1;
    while next < n
      invariant next >= 1
      invariant Segmented(a[..n], orig, next)
      invariant forall k :: n <= k < a.Length ==> a[k] == old(a[k])
      decreases n - next
    {
      ghost var before := a[..n];
      Round(a, n, next);
      StepSegments(before, orig, next);
      next := next * 2;
    }
    assert 0 % next == 0;
    assert a[..n][0] == SumStats(orig[0..Min(next, n)]);
    assert orig[0..n] == orig;
  }

  // ---------------------------------------------------------------------
  // Reduction passes over the per-block sums.
  // ---------------------------------------------------------------------

  /**
   * `temp` holds `s` at offset `off` in the sectioned layout: section `k`
   * starts at `off + k * |s|` and its entry `b` is field `k` of `s[b]`.
   */
  predicate Holds(temp: seq<F3>, off: int, s: seq<Stats>)
  {
    0 <= off && off + 6 * |s| <= |temp| &&
    forall b :: 0 <= b < |s| ==>
      temp[off + b] == s[b].ssim1 && temp[off + |s| + b] == s[b].ssim4 &&
      temp[off + 2 * |s| + b] == s[b].a1 && temp[off + 3 * |s| + b] == s[b].a4 &&
      temp[off + 4 * |s| + b] == s[b].d1 && temp[off + 5 * |s| + b] == s[b].d4
  }

  /** The sums of consecutive groups of `t` entries, the last group possibly shorter. */
  function Chunked(s: seq<Stats>, t: int): seq<Stats>
    requires |s| >= 1 && t >= 1
    decreases |s|
  {
    if |s| <= t then [SumStats(s)] else [SumStats(s[..t])] + Chunked(s[t..], t)
  }

  /** A pass leaves one entry per work-group: `CeilDiv(|s|, t)` of them. */
  lemma {:induction false} ChunkedLength(s: seq<Stats>, t: int)
    requires |s| >= 1 && t >= 1
    ensures |Chunked(s, t)| == CeilDiv(|s|, t)
    decreases |s|
  {
    if |s| <= t {
      CeilDivUnique(|s|, t, 1);
    } else {
      ChunkedLength(s[t..], t);
      CeilDivUnique(|s|, t, CeilDiv(|s| - t, t) + 1);
    }
  }

  /** `CeilDiv(a, t)` is the only `r` with `(r - 1) * t < a <= r * t`. */
  lemma CeilDivUnique(a: int, t: int, r: int)
    requires a >= 1 && t >= 1
    requires r * t >= a && (r - 1) * t < a
    ensures r == CeilDiv(a, t)
  {
    var c := CeilDiv(a, t);
    if r > c {
      MulMono(c, r - 1, t);
    } else if r < c {
      MulMono(r, c - 1, t);
    }
  }

  /** A pass loses nothing: its partial sums add up to the sum of what it read. */
  lemma {:induction false} ChunkedSum(s: seq<Stats>, t: int)
    requires |s| >= 1 && t >= 1
    ensures SumStats(Chunked(s, t)) == SumStats(s)
    decreases |s|
  {
    if |s| <= t {
      SumStatsSingle(SumStats(s));
    } else {
      ChunkedSum(s[t..], t);
      SumStatsSplit([SumStats(s[..t])], Chunked(s[t..], t));
      SumStatsSingle(SumStats(s[..t]));
      assert s == s[..t] + s[t..];
      SumStatsSplit(s[..t], s[t..]);
    }
  }

  /** Where work-group `j` of a pass starts reading: `j * t`, written as repeated addition. */
  function GroupStart(t: int, j: nat): (r: int)
    requires t >= 0
    ensures r >= 0
  {
    if j == 0 then 0 else GroupStart(t, j - 1) + t
  }

  /** A slice of a suffix is a slice of the whole. */
  lemma SliceShift(s: seq<Stats>, t: int, a: int, b: int)
    requires 0 <= t <= |s| && 0 <= a <= b <= |s| - t
    ensures s[t..][a..b] == s[a + t..b + t]
  {}

  /** Group `j` of a pass starts inside `s` and is the sum of its (at most `t`) entries from `GroupStart(t, j)` on. */
  lemma {:induction false} ChunkedIndex(s: seq<Stats>, t: int, j: nat)
    requires |s| >= 1 && t >= 1 && j < |Chunked(s, t)|
    ensures GroupStart(t, j) < |s|
    ensures Chunked(s, t)[j] == SumStats(s[GroupStart(t, j)..Min(GroupStart(t, j) + t, |s|)])
    decreases j
  {
    if j > 0 {
      assert |s| > t;
      var rest := s[t..];
      assert Chunked(s, t)[j] == Chunked(rest, t)[j - 1];
      ChunkedIndex(rest, t, j - 1);
      var g := GroupStart(t, j - 1);
      assert GroupStart(t, j) == g + t;
      var e := Min(g + t, |rest|);
      assert Min(g + t + t, |s|) == e + t;
      SliceShift(s, t, g, e);
    } else if |s| <= t {
      assert s[0..|s|] == s;
    } else {
      assert s[0..t] == s[..t];
    }
  }

  /** Entry `th` of the group starting at `base`, zero past the end of `s`. */
  function Window(s: seq<Stats>, base: int, t: int): seq<Stats>
    requires 0 <= base && t >= 0
  {
    seq(t, th requires 0 <= th < t => if base + th < |s| then s[base + th] else ZeroStats)
  }

  /** Padding a group with zero records does not change its sum. */
  lemma {:induction false} WindowSum(s: seq<Stats>, base: int, t: int)
    requires 0 <= base < |s| && t >= 0
    ensures SumStats(Window(s, base, t)) == SumStats(s[base..Min(base + t, |s|)])
    decreases t
  {
    if t > 0 {
      var w := Window(s, base, t);
      assert w[..t - 1] == Window(s, base, t - 1);
      WindowSum(s, base, t - 1);
      if base + t - 1 < |s| {
        assert s[base..base + t] == s[base..base + t - 1] + [s[base + t - 1]];
        SumStatsSplit(s[base..base + t - 1], [s[base + t - 1]]);
        SumStatsSingle(s[base + t - 1]);
      } else {
        AddStatsZero(SumStats(s[base..Min(base + t, |s|)]));
      }
    }
  }

  /**
   * The first phase of one work-group of a pass: work-item `th` reads the
   * six sections of entry `base + th` of the source, or zeros past its end.
   */
  method LoadGroup(temp: array<F3>, src: int, oldblr: int, base: int, thX: int, ghost s: seq<Stats>) returns (smem: array<Stats>)
    requires |s| == oldblr && Holds(temp[..], src, s) && 0 <= base && thX >= 1
    ensures fresh(smem) && smem.Length == thX
    ensures smem[..] == Window(s, base, thX)
  {
    smem := new Stats[thX];
    for th := 0 to thX
      invariant forall j :: 0 <= j < th ==> smem[j] == Window(s, base, thX)[j]
    {
      var x := base + th;
      if x >= oldblr {
        smem[th] := ZeroStats;
      } else {
        smem[th] := Stats(temp[src + x], temp[src + x + oldblr], temp[src + x + 2 * oldblr],
                          temp[src + x + 3 * oldblr], temp[src + x + 4 * oldblr], temp[src + x + 5 * oldblr]);
      }
    }
    assert smem[..] == Window(s, base, thX);
  }

  /** Work-item 0 of work-group `block` writes the group's sum to the six destination sections. */
  method StoreGroup(temp: array<F3>, dst: int, blocks: int, block: int, v: Stats)
    requires 0 <= dst && 0 <= block < blocks && dst + 6 * blocks <= temp.Length
    modifies temp
    ensures temp[dst + block] == v.ssim1 && temp[dst + blocks + block] == v.ssim4
    ensures temp[dst + 2 * blocks + block] == v.a1 && temp[dst + 3 * blocks + block] == v.a4
    ensures temp[dst + 4 * blocks + block] == v.d1 && temp[dst + 5 * blocks + block] == v.d4
    ensures forall i :: (0 <= i < temp.Length && i != dst + block && i != dst + blocks + block &&
                         i != dst + 2 * blocks + block && i != dst + 3 * blocks + block &&
                         i != dst + 4 * blocks + block && i != dst + 5 * blocks + block) ==> temp[i] == old(temp[i])
  {
    temp[dst + block] := v.ssim1;
    temp[dst + blocks + block] := v.ssim4;
    temp[dst + 2 * blocks + block] := v.a1;
    temp[dst + 3 * blocks + block] := v.a4;
    temp[dst + 4 * blocks + block] := v.d1;
    temp[dst + 5 * blocks + block] := v.d4;
  }

  /** `t1` equals `t0` outside `lo..hi`. */
  predicate SameOutside(t0: seq<F3>, t1: seq<F3>, lo: int, hi: int)
  {
    |t1| == |t0| && forall i :: 0 <= i < |t0| && !(lo <= i < hi) ==> t1[i] == t0[i]
  }

  /** Writes outside a region leave what it holds alone. */
  lemma HoldsFrame(t0: seq<F3>, t1: seq<F3>, off: int, s: seq<Stats>, lo: int, hi: int)
    requires Holds(t0, off, s) && SameOutside(t0, t1, lo, hi)
    requires hi <= off || off + 6 * |s| <= lo
    ensures Holds(t1, off, s)
  {
    var n := |s|;
    forall b | 0 <= b < n
      ensures t1[off + b] == s[b].ssim1 && t1[off + n + b] == s[b].ssim4
      ensures t1[off + 2 * n + b] == s[b].a1 && t1[off + 3 * n + b] == s[b].a4
      ensures t1[off + 4 * n + b] == s[b].d1 && t1[off + 5 * n + b] == s[b].d4
    {
      assert t0[off + b] == s[b].ssim1;
    }
  }

  /** The first `block` destination entries of every section hold `c`. */
  predicate PrefixHolds(temp: seq<F3>, dst: int, blocks: int, c: seq<Stats>, block: int)
    requires 0 <= dst && 0 <= block <= blocks == |c| && dst + 6 * blocks <= |temp|
  {
    forall b :: 0 <= b < block ==>
      temp[dst + b] == c[b].ssim1 && temp[dst + blocks + b] == c[b].ssim4 &&
      temp[dst + 2 * blocks + b] == c[b].a1 && temp[dst + 3 * blocks + b] == c[b].a4 &&
      temp[dst + 4 * blocks + b] == c[b].d1 && temp[dst + 5 * blocks + b] == c[b].d4
  }

  /** Storing entry `block` extends the prefix by one. */
  lemma PrefixExtends(t0: seq<F3>, t1: seq<F3>, dst: int, blocks: int, c: seq<Stats>, block: int)
    requires 0 <= dst && 0 <= block < blocks == |c| && dst + 6 * blocks <= |t0| == |t1|
    requires PrefixHolds(t0, dst, blocks, c, block)
    requires t1[dst + block] == c[block].ssim1 && t1[dst + blocks + block] == c[block].ssim4
    requires t1[dst + 2 * blocks + block] == c[block].a1 && t1[dst + 3 * blocks + block] == c[block].a4
    requires t1[dst + 4 * blocks + block] == c[block].d1 && t1[dst + 5 * blocks + block] == c[block].d4
    requires forall i :: (0 <= i < |t0| && i != dst + block && i != dst + blocks + block &&
                          i != dst + 2 * blocks + block && i != dst + 3 * blocks + block &&
                          i != dst + 4 * blocks + block && i != dst + 5 * blocks + block) ==> t1[i] == t0[i]
    ensures PrefixHolds(t1, dst, blocks, c, block + 1)
  {
    forall b | 0 <= b < block
      ensures t1[dst + b] == c[b].ssim1 && t1[dst + blocks + b] == c[b].ssim4
      ensures t1[dst + 2 * blocks + b] == c[b].a1 && t1[dst + 3 * blocks + b] == c[b].a4
      ensures t1[dst + 4 * blocks + b] == c[b].d1 && t1[dst + 5 * blocks + b] == c[b].d4
    {
      assert t0[dst + b] == c[b].ssim1;
    }
  }

  /** A full prefix is the sectioned layout of `c`. */
  lemma PrefixComplete(temp: seq<F3>, dst: int, c: seq<Stats>)
    requires 0 <= dst && dst + 6 * |c| <= |temp|
    requires PrefixHolds(temp, dst, |c|, c, |c|)
    ensures Holds(temp, dst, c)
  {}

  /** The load and the tree of one work-group of a pass: the sum of its (at most `thX`) source entries. */
  method GroupSum(temp: array<F3>, src: int, oldblr: int, base: int, thX: int, ghost s: seq<Stats>) returns (v: Stats)
    requires |s| == oldblr && Holds(temp[..], src, s) && 0 <= base < oldblr && thX >= 1
    ensures v == SumStats(s[base..Min(base + thX, oldblr)])
  {
    var smem := LoadGroup(temp, src, oldblr, base, thX, s);
    ghost var loaded := smem[..];
    assert loaded[..thX] == loaded;
    TreeReduce(smem, thX);
    WindowSum(s, base, thX);
    v := smem[0];
  }

  /** The store of work-group `block` extends the written prefix of the destination by `c[block]`. */
  method StoreEntry(temp: array<F3>, src: int, dst: int, blocks: int, block: int, v: Stats,
                    ghost s: seq<Stats>, ghost c: seq<Stats>, ghost t0: seq<F3>)
    requires 0 <= dst && 0 <= block < blocks == |c| && dst + 6 * blocks <= temp.Length && v == c[block]
    requires Holds(temp[..], src, s) && (dst + 6 * blocks <= src || src + 6 * |s| <= dst)
    requires PrefixHolds(temp[..], dst, blocks, c, block)
    requires SameOutside(t0, temp[..], dst, dst + 6 * blocks)
    modifies temp
    ensures Holds(temp[..], src, s)
    ensures PrefixHolds(temp[..], dst, blocks, c, block + 1)
    ensures SameOutside(t0, temp[..], dst, dst + 6 * blocks)
  {
    ghost var before := temp[..];
    StoreGroup(temp, dst, blocks, block, v);
    PrefixExtends(before, temp[..], dst, blocks, c, block);
    assert SameOutside(before, temp[..], dst, dst + 6 * blocks);
    HoldsFrame(before, temp[..], src, s, dst, dst + 6 * blocks);
  }

  /**
   * Work-group `block` of a pass, reading from entry `base`: load, tree
   * reduction, store by work-item 0.
   */
  method PassGroup(temp: array<F3>, src: int, dst: int, oldblr: int, thX: int, blocks: int, block: int, base: int,
                   ghost s: seq<Stats>, ghost c: seq<Stats>, ghost t0: seq<F3>)
    requires |s| == oldblr && oldblr >= 1 && thX >= 1 && c == Chunked(s, thX) && blocks == |c|
    requires Holds(temp[..], src, s)
    requires 0 <= dst && dst + 6 * blocks <= temp.Length
    requires dst + 6 * blocks <= src || src + 6 * oldblr <= dst
    requires 0 <= block < blocks && base == GroupStart(thX, block)
    requires PrefixHolds(temp[..], dst, blocks, c, block)
    requires SameOutside(t0, temp[..], dst, dst + 6 * blocks)
    modifies temp
    ensures Holds(temp[..], src, s)
    ensures PrefixHolds(temp[..], dst, blocks, c, block + 1)
    ensures SameOutside(t0, temp[..], dst, dst + 6 * blocks)
  {
    ChunkedIndex(s, thX, block);
    var v := GroupSum(temp, src, oldblr, base, thX, s);
    StoreEntry(temp, src, dst, blocks, block, v, s, c, t0);
  }

  /** The work-groups of a pass, one after the other: all `blocks` destination entries get written. */
  method PassGroups(temp: array<F3>, src: int, dst: int, oldblr: int, thX: int, blocks: int, ghost s: seq<Stats>, ghost c: seq<Stats>)
    requires |s| == oldblr && oldblr >= 1 && thX >= 1 && c == Chunked(s, thX) && blocks == |c|
    requires Holds(temp[..], src, s)
    requires 0 <= dst && dst + 6 * blocks <= temp.Length
    requires dst + 6 * blocks <= src || src + 6 * oldblr <= dst
    modifies temp
    ensures PrefixHolds(temp[..], dst, blocks, c, blocks)
    ensures SameOutside(old(temp[..]), temp[..], dst, dst + 6 * blocks)
  {
    ghost var t0 := temp[..];
    var block := 0;
    var base := 0;
    while block < blocks
      invariant 0 <= block <= blocks
      invariant base == GroupStart(thX, block)
      invariant PrefixHolds(temp[..], dst, blocks, c, block)
      invariant Holds(temp[..], src, s)
      invariant SameOutside(t0, temp[..], dst, dst + 6 * blocks)
      decreases blocks - block
    {
      PassGroup(temp, src, dst, oldblr, thX, blocks, block, base, s, c, t0);
      block := block + 1;
      base := base + thX;
    }
  }

  /**
   * One reduction pass: `CeilDiv(oldblr, thX)` work-groups of `thX`
   * work-items each sum `thX` consecutive entries of the source and write
   * the sums in the sectioned layout at `dst`. Source and destination
   * regions must not overlap; nothing outside the destination changes.
   */
  method ReducePass(temp: array<F3>, src: int, dst: int, oldblr: int, thX: int, ghost s: seq<Stats>) returns (blocks: int)
    requires |s| == oldblr && oldblr >= 1 && thX >= 1
    requires Holds(temp[..], src, s)
    requires 0 <= dst && dst + 6 * CeilDiv(oldblr, thX) <= temp.Length
    requires dst + 6 * CeilDiv(oldblr, thX) <= src || src + 6 * oldblr <= dst
    modifies temp
    ensures blocks == CeilDiv(oldblr, thX)
    ensures Holds(temp[..], dst, Chunked(s, thX))
    ensures SameOutside(old(temp[..]), temp[..], dst, dst + 6 * blocks)
  {
    blocks := (oldblr - 1) / thX + 1;
    ghost var c := Chunked(s, thX);
    ChunkedLength(s, thX);
    PassGroups(temp, src, dst, oldblr, thX, blocks, s, c);
    PrefixComplete(temp[..], dst, c);
  }
}
