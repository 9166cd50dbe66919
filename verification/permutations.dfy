/**
 Ranking of play orders: an ordering of the five hand slots {0,..,4} is
 numbered 0..119 by its Lehmer code (factorial number system), and a partial
 ordering (a prefix) denotes the contiguous block of ranks of all orderings
 that start with it.
 */
module Permutations {

  const Slots: nat := 5

  function Factorial(n: nat): (r: nat)
    ensures r >= 1
  {
    if n <= 1 then 1 else n * Factorial(n - 1)
  }

  /** 5! is the number of hand orders. */
  lemma FactorialOfFive()
    ensures Factorial(0) == 1 && Factorial(1) == 1
    ensures Factorial(5) == 120
  {
  }

  /** Every entry is a hand slot. */
  predicate InSlots(p: seq<nat>)
  {
    forall i :: 0 <= i < |p| ==> p[i] < Slots
  }

  predicate Distinct(p: seq<nat>)
  {
    forall i, j :: 0 <= i < j < |p| ==> p[i] != p[j]
  }

  /** A prefix the ranking accepts: at most five slots, each below five. */
  predicate ValidPrefix(p: seq<nat>)
  {
    |p| <= Slots && InSlots(p)
  }

  /** A full play order: each of the five slots exactly once. */
  predicate IsPermutation(p: seq<nat>)
  {
    |p| == Slots && InSlots(p) && Distinct(p)
  }

  /** Number of values below `v` that do not occur in `used`
      (the count of `!used[j]` for `j` in `0..v`). */
  function Smaller(v: nat, used: seq<nat>): (r: nat)
    ensures r <= v
  {
    if v == 0 then 0 else Smaller(v - 1, used) + (if v - 1 in used then 0 else 1)
  }

  /** Lehmer accumulation: slot `p[i]` contributes its count of smaller
      unused slots times `(4 - i)!`. */
  function PrefixStart(p: seq<nat>): nat
    requires |p| <= Slots
  {
    if |p| == 0 then 0
    else
      var i := |p| - 1;
      PrefixStart(p[..i]) + Smaller(p[i], p[..i]) * Factorial(4 - i)
  }

  /** The half-open block of ranks of the orders starting with `prefix`. */
  function PermPrefixRange(prefix: seq<nat>): (r: (nat, nat))
    requires ValidPrefix(prefix)
    ensures r.1 - r.0 == Factorial(Slots - |prefix|)
    ensures Distinct(prefix) ==> r.1 <= 120
  {
    RangeBoundIfDistinct(prefix);
    (PrefixStart(prefix), PrefixStart(prefix) + Factorial(Slots - |prefix|))
  }

  /** The rank of a full play order. */
  function PermIndex(perm: seq<nat>): (r: nat)
    requires |perm| == Slots && InSlots(perm)
    ensures Distinct(perm) ==> r < 120
  {
    RangeBoundIfDistinct(perm);
    PrefixStart(perm)
  }

  // ----- counting unused slots -----

  lemma {:induction false} SmallerMono(a: nat, b: nat, used: seq<nat>)
    requires a <= b
    ensures Smaller(a, used) <= Smaller(b, used)
    decreases b
  {
    if a < b {
      SmallerMono(a, b - 1, used);
    }
  }

  /** An unused value is counted by every larger bound. */
  lemma SmallerStrict(a: nat, b: nat, used: seq<nat>)
    requires a < b && a !in used
    ensures Smaller(a, used) < Smaller(b, used)
  {
    SmallerMono(a + 1, b, used);
  }

  lemma {:induction false} SmallerAppend(n: nat, used: seq<nat>, u: nat)
    ensures Smaller(n, used + [u]) == Smaller(n, used) - (if u < n && u !in used then 1 else 0)
    ensures u < n && u !in used ==> Smaller(n, used) >= 1
  {
    if n > 0 {
      SmallerAppend(n - 1, used, u);
      assert (n - 1 in used + [u]) <==> (n - 1 in used || n - 1 == u);
    }
  }

  lemma {:induction false} SmallerEmpty(n: nat)
    ensures Smaller(n, []) == n
  {
    if n > 0 {
      SmallerEmpty(n - 1);
    }
  }

  /** Exactly `5 - |used|` slots are still free. */
  lemma {:induction false} SmallerAll(used: seq<nat>)
    requires ValidPrefix(used) && Distinct(used)
    ensures Smaller(Slots, used) == Slots - |used|
    decreases |used|
  {
    if |used| > 0 {
      var i := |used| - 1;
      var init := used[..i];
      assert used == init + [used[i]];
      assert ValidPrefix(init) && Distinct(init);
      SmallerAll(init);
      PrefixEntryFresh(used, i);
      SmallerAppend(Slots, init, used[i]);
      assert Smaller(Slots, used) == Smaller(Slots, init) - 1;
    } else {
      SmallerEmpty(Slots);
    }
  }

  /** A free slot `v` has at most `4 - |used|` smaller free slots. */
  lemma SmallerBound(v: nat, used: seq<nat>)
    requires ValidPrefix(used) && Distinct(used)
    requires v < Slots && v !in used
    ensures Smaller(v, used) + |used| <= 4
  {
    SmallerAll(used);
    SmallerStrict(v, Slots, used);
  }

  lemma PrefixEntryFresh(p: seq<nat>, k: nat)
    requires Distinct(p) && k < |p|
    ensures p[k] !in p[..k]
  {
    assert forall j :: 0 <= j < k ==> p[..k][j] == p[j] && p[j] != p[k];
  }

  // ----- ranges nest and are disjoint -----

  /** Appending a slot adds its count of smaller free slots times the size of the sub-blocks. */
  lemma StartAppend(p: seq<nat>, v: nat)
    requires |p| < Slots
    ensures PrefixStart(p + [v]) == PrefixStart(p) + Smaller(v, p) * Factorial(4 - |p|)
  {
    assert (p + [v])[..|p|] == p;
  }

  lemma FactorialStep(n: nat)
    ensures Factorial(n + 1) == (n + 1) * Factorial(n)
  {
  }

  lemma StepBound(a: nat, b: nat, f: nat)
    requires a <= b
    ensures 0 <= a * f
    ensures a * f + f <= (b + 1) * f
  {
  }

  lemma MulMono(a: nat, b: nat, f: nat)
    requires a <= b
    ensures a * f <= b * f
  {
  }

  /** Sub-block `sa` ends before sub-block `sb` starts when `sa < sb`. */
  lemma BlockOrder(s0: nat, sa: nat, sb: nat, f: nat)
    requires sa < sb
    ensures s0 + sa * f + f <= s0 + sb * f
  {
    StepBound(sa, sb - 1, f);
  }

  /** Extending a prefix narrows its block. */
  lemma {:induction false} Nesting(p: seq<nat>, q: seq<nat>)
    requires ValidPrefix(q) && Distinct(q)
    requires |p| <= |q| && q[..|p|] == p
    ensures PrefixStart(p) <= PrefixStart(q)
    ensures PrefixStart(q) + Factorial(Slots - |q|) <= PrefixStart(p) + Factorial(Slots - |p|)
    decreases |q|
  {
    if |p| < |q| {
      var i := |q| - 1;
      var q' := q[..i];
      var v := q[i];
      assert q == q' + [v];
      assert q'[..|p|] == p;
      assert ValidPrefix(q') && Distinct(q');
      Nesting(p, q');
      PrefixEntryFresh(q, i);
      SmallerBound(v, q');
      StartAppend(q', v);
      var f := Factorial(4 - i);
      FactorialStep(4 - i);
      var sm := Smaller(v, q');
      StepBound(sm, 4 - i, f);
      var s' := PrefixStart(q');
      assert PrefixStart(q) == s' + sm * f;
      assert Factorial(Slots - |q'|) == (5 - i) * f;
      assert Factorial(Slots - |q|) == f;
      assert sm * f + f <= (5 - i) * f;
      assert PrefixStart(q) + f <= s' + Factorial(Slots - |q'|);
    } else {
      assert q[..|q|] == q;
    }
  }

  /** A valid distinct prefix's block lies inside 0..120. */
  lemma RangeBound(p: seq<nat>)
    requires ValidPrefix(p) && Distinct(p)
    ensures PrefixStart(p) + Factorial(Slots - |p|) <= 120
  {
    assert p[..0] == [];
    Nesting([], p);
  }

  lemma RangeBoundIfDistinct(p: seq<nat>)
    requires ValidPrefix(p)
    ensures Distinct(p) ==> PrefixStart(p) + Factorial(Slots - |p|) <= 120
  {
    if Distinct(p) {
      RangeBound(p);
    }
  }

  /** Blocks of two different continuations of one prefix do not overlap. */
  lemma Disjoint(c: seq<nat>, a: nat, b: nat)
    requires ValidPrefix(c) && Distinct(c) && |c| < Slots
    requires a < b < Slots && a !in c && b !in c
    ensures PrefixStart(c + [a]) + Factorial(Slots - |c| - 1) <= PrefixStart(c + [b])
  {
    StartAppend(c, a);
    StartAppend(c, b);
    SmallerStrict(a, b, c);
    BlockOrder(PrefixStart(c), Smaller(a, c), Smaller(b, c), Factorial(4 - |c|));
  }

  /** The first position where two sequences differ. */
  lemma FirstDifference(p: seq<nat>, q: seq<nat>) returns (k: nat)
    requires |p| <= |q| && q[..|p|] != p
    ensures k < |p| && p[k] != q[k] && p[..k] == q[..k]
  {
    k := 0;
    while p[k] == q[k]
      invariant k < |p| && p[..k] == q[..k]
      decreases |p| - k
    {
      assert p[..k + 1] == q[..k + 1];
      assert p[..|p|] == p;
      assert k + 1 < |p|;
      k := k + 1;
    }
  }

  /** A full order's rank lies in a prefix's block iff the order starts with the prefix. */
  lemma PrefixMembership(p: seq<nat>, q: seq<nat>)
    requires ValidPrefix(p) && Distinct(p)
    requires IsPermutation(q)
    ensures PermPrefixRange(p).0 <= PermIndex(q) < PermPrefixRange(p).1 <==> q[..|p|] == p
  {
    if q[..|p|] == p {
      Nesting(p, q);
    } else {
      var k := FirstDifference(p, q);
      var c := p[..k];
      var a, b := p[k], q[k];
      PrefixEntryFresh(p, k);
      PrefixEntryFresh(q, k);
      assert p[..k + 1] == c + [a] && q[..k + 1] == c + [b];
      assert (c + [a])[..k] == c;
      Nesting(c + [a], p);
      Nesting(c + [b], q);
      if a < b {
        Disjoint(c, a, b);
      } else {
        Disjoint(c, b, a);
      }
    }
  }

  /** Different play orders have different ranks. */
  lemma PermIndexInjective(p: seq<nat>, q: seq<nat>)
    requires IsPermutation(p) && IsPermutation(q)
    requires PermIndex(p) == PermIndex(q)
    ensures p == q
  {
    PrefixMembership(q, p);
    assert p[..|q|] == p;
  }

  lemma IdentityIndex()
    ensures PermIndex([0, 1, 2, 3, 4]) == 0
  {
    var id: seq<nat> := [0, 1, 2, 3, 4];
    assert id[..0] == [];
    SmallerNone(0, []);
    SmallerNone(1, [0]);
    SmallerNone(2, [0, 1]);
    SmallerNone(3, [0, 1, 2]);
    SmallerNone(4, [0, 1, 2, 3]);
    assert id[..4] == [0, 1, 2, 3];
    assert id[..4][..3] == [0, 1, 2];
    assert id[..4][..3][..2] == [0, 1];
    assert id[..4][..3][..2][..1] == [0];
  }

  lemma EmptyPrefixRange()
    ensures PermPrefixRange([]) == (0, 120)
  {
  }

  /** A full order's block is its own rank alone. */
  lemma FullPrefixRange(p: seq<nat>)
    requires IsPermutation(p)
    ensures PermPrefixRange(p) == (PermIndex(p), PermIndex(p) + 1)
  {
  }

  // ----- ascending completion -----

  /** The first free slot at or above `v` (5 when there is none). */
  function MinFreeFrom(p: seq<nat>, v: nat): (r: nat)
    requires v <= Slots
    ensures v <= r <= Slots
    ensures forall j :: v <= j < r ==> j in p
    ensures r < Slots ==> r !in p
    decreases Slots - v
  {
    if v == Slots then Slots
    else if v !in p then v
    else MinFreeFrom(p, v + 1)
  }

  lemma {:induction false} SmallerNone(v: nat, p: seq<nat>)
    requires forall j :: 0 <= j < v ==> j in p
    ensures Smaller(v, p) == 0
  {
    if v > 0 {
      SmallerNone(v - 1, p);
    }
  }

  /** A prefix that is not yet full has a free slot. */
  lemma FreeSlotExists(p: seq<nat>)
    requires ValidPrefix(p) && Distinct(p) && |p| < Slots
    ensures MinFreeFrom(p, 0) < Slots
  {
    if MinFreeFrom(p, 0) == Slots {
      SmallerNone(Slots, p);
      SmallerAll(p);
    }
  }

  /** Completes a prefix with its free slots in ascending order. */
  function Complete(p: seq<nat>): (r: seq<nat>)
    requires ValidPrefix(p) && Distinct(p)
    ensures IsPermutation(r) && r[..|p|] == p
    decreases Slots - |p|
  {
    if |p| == Slots then p
    else
      FreeSlotExists(p);
      var v := MinFreeFrom(p, 0);
      var p' := p + [v];
      assert Distinct(p') by {
        forall i, j | 0 <= i < j < |p'| ensures p'[i] != p'[j] {
          if j == |p| { assert p'[i] == p[i]; }
        }
      }
      var r := Complete(p');
      assert r[..|p|] == r[..|p'|][..|p|];
      r
  }

  /** The block of a prefix starts at the rank of its ascending completion. */
  lemma {:induction false} CompleteStart(p: seq<nat>)
    requires ValidPrefix(p) && Distinct(p)
    ensures PermIndex(Complete(p)) == PermPrefixRange(p).0
    decreases Slots - |p|
  {
    if |p| < Slots {
      FreeSlotExists(p);
      var v := MinFreeFrom(p, 0);
      var p' := p + [v];
      assert p'[..|p|] == p;
      SmallerNone(v, p);
      assert Distinct(p') by {
        forall i, j | 0 <= i < j < |p'| ensures p'[i] != p'[j] {
          if j == |p| { assert p'[i] == p[i]; }
        }
      }
      CompleteStart(p');
    }
  }

  lemma CompleteExample()
    ensures Complete([1, 0]) == [1, 0, 2, 3, 4]
    ensures PermPrefixRange([1, 0]) == (PermIndex([1, 0, 2, 3, 4]), PermIndex([1, 0, 2, 3, 4]) + 6)
  {
    var p: seq<nat> := [1, 0];
    assert MinFreeFrom(p, 0) == 2;
    var p3: seq<nat> := [1, 0, 2];
    assert p + [2] == p3;
    assert MinFreeFrom(p3, 0) == 3;
    var p4: seq<nat> := [1, 0, 2, 3];
    assert p3 + [3] == p4;
    assert MinFreeFrom(p4, 0) == 4;
    assert p4 + [4] == [1, 0, 2, 3, 4];
    CompleteStart(p);
  }

  lemma SwappedIsPermutation()
    ensures IsPermutation([1, 0, 2, 3, 4]) && IsPermutation([0, 1, 2, 3, 4])
  {
  }

  /** Exchanging the first two slots of the identity gives rank 4! = 24. */
  lemma SwappedPairRank()
    ensures PermIndex([1, 0, 2, 3, 4]) == 24
  {
    CompleteExample();
    var p: seq<nat>, q: seq<nat> := [1, 0], [1];
    assert p[..1] == q && q[..0] == [];
    assert Smaller(1, []) == 1 && Smaller(0, q) == 0;
    assert Factorial(4) == 24;
    assert PrefixStart(q) == 24;
    assert PrefixStart(p) == 24;
  }

  // ----- every rank is reached -----

  /** Among the values below `n`, some free slot has exactly `d` smaller free slots. */
  lemma {:induction false} FreeWithCount(n: nat, d: nat, p: seq<nat>) returns (v: nat)
    requires d < Smaller(n, p)
    ensures v < n && v !in p && Smaller(v, p) == d
  {
    if Smaller(n - 1, p) > d {
      v := FreeWithCount(n - 1, d, p);
    } else {
      v := n - 1;
    }
  }

  /** The quotient of a block offset by the sub-block size is a digit below `m`. */
  lemma Quotient(off: nat, m: nat, f: nat)
    requires f >= 1 && off < m * f
    ensures off / f < m && (off / f) * f <= off < (off / f) * f + f
  {
    var d := off / f;
    assert off == d * f + off % f;
    if d >= m {
      MulMono(m, d, f);
    }
  }

  /** The first free slot at or above `v` with exactly `d` smaller free slots
      (5 when there is none). */
  function FreeWith(p: seq<nat>, d: nat, v: nat): (r: nat)
    requires v <= Slots
    ensures v <= r <= Slots
    ensures r < Slots ==> r !in p && Smaller(r, p) == d
    decreases Slots - v
  {
    if v == Slots then Slots
    else if v !in p && Smaller(v, p) == d then v
    else FreeWith(p, d, v + 1)
  }

  /** The scan finds a slot whenever one exists at or above its start. */
  lemma {:induction false} FreeWithFinds(p: seq<nat>, d: nat, v: nat, w: nat)
    requires v <= w < Slots && w !in p && Smaller(w, p) == d
    ensures FreeWith(p, d, v) < Slots
    decreases w - v
  {
    if v < w && !(v !in p && Smaller(v, p) == d) {
      FreeWithFinds(p, d, v + 1, w);
    }
  }

  /** A digit below the number of free slots names a free slot. */
  lemma FreeWithFound(p: seq<nat>, d: nat)
    requires d < Smaller(Slots, p)
    ensures FreeWith(p, d, 0) < Slots
  {
    var w := FreeWithCount(Slots, d, p);
    FreeWithFinds(p, d, 0, w);
  }

  /** The slot an unranking step appends to `p` for rank `n`: the free slot
      whose count of smaller free slots is the next factorial digit of `n`. */
  function NextSlot(p: seq<nat>, n: nat): nat
    requires |p| < Slots && PrefixStart(p) <= n
  {
    FreeWith(p, Digit(n - PrefixStart(p), Factorial(4 - |p|)), 0)
  }

  /** The factorial-number-system digit of an offset: how many whole
      sub-blocks of size `f` precede it. */
  function Digit(off: nat, f: nat): nat
    requires f >= 1
  {
    off / f
  }

  /** Appending a free slot keeps a prefix valid and distinct. */
  lemma AppendFree(p: seq<nat>, v: nat)
    requires ValidPrefix(p) && Distinct(p) && |p| < Slots
    requires v < Slots && v !in p
    ensures ValidPrefix(p + [v]) && Distinct(p + [v])
  {
    var p' := p + [v];
    assert forall i :: 0 <= i < |p| ==> p'[i] == p[i];
  }

  /** The digit's sub-block of a prefix's block holds the rank. */
  lemma DigitBlock(p: seq<nat>, n: nat, v: nat, d: nat)
    requires ValidPrefix(p) && Distinct(p) && |p| < Slots
    requires v < Slots && v !in p && Smaller(v, p) == d
    requires d * Factorial(4 - |p|) <= n - PrefixStart(p) < d * Factorial(4 - |p|) + Factorial(4 - |p|)
    requires PrefixStart(p) <= n
    ensures ValidPrefix(p + [v])
    ensures PermPrefixRange(p + [v]).0 <= n < PermPrefixRange(p + [v]).1
  {
    AppendFree(p, v);
    StartAppend(p, v);
    assert Slots - |p + [v]| == 4 - |p|;
  }

  /** One unranking step: the chosen slot is free and the rank stays inside the
      extended prefix's block. */
  lemma UnrankStep(p: seq<nat>, n: nat, v: nat)
    requires ValidPrefix(p) && Distinct(p) && |p| < Slots
    requires PermPrefixRange(p).0 <= n < PermPrefixRange(p).1
    requires v == NextSlot(p, n)
    ensures ValidPrefix(p + [v]) && Distinct(p + [v])
    ensures PermPrefixRange(p + [v]).0 <= n < PermPrefixRange(p + [v]).1
  {
    var f := Factorial(4 - |p|);
    FactorialStep(4 - |p|);
    assert Factorial(Slots - |p|) == (Slots - |p|) * f;
    Quotient(n - PrefixStart(p), Slots - |p|, f);
    var d := Digit(n - PrefixStart(p), f);
    SmallerAll(p);
    FreeWithFound(p, d);
    assert v == FreeWith(p, d, 0);
    AppendFree(p, v);
    DigitBlock(p, n, v, d);
  }

  /** The order of rank `n` among those starting with `p`: the inverse of the
      ranking, built by choosing, at each step, the free slot whose count of
      smaller free slots is the next factorial digit of `n`. */
  function UnrankFrom(p: seq<nat>, n: nat): (q: seq<nat>)
    requires ValidPrefix(p) && Distinct(p)
    requires PermPrefixRange(p).0 <= n < PermPrefixRange(p).1
    ensures IsPermutation(q) && q[..|p|] == p && PermIndex(q) == n
    decreases Slots - |p|
  {
    if |p| == Slots then
      assert p[..|p|] == p;
      p
    else
      var v := NextSlot(p, n);
      UnrankStep(p, n, v);
      var p' := p + [v];
      var q := UnrankFrom(p', n);
      assert p'[..|p|] == p;
      assert q[..|p|] == q[..|p'|][..|p|];
      q
  }

  /** The play order of rank `n`. */
  function Unrank(n: nat): (q: seq<nat>)
    requires n < 120
    ensures IsPermutation(q) && PermIndex(q) == n
  {
    EmptyPrefixRange();
    UnrankFrom([], n)
  }

  /** Ranking and unranking are inverse bijections between the 120 play
      orders and the ranks 0..119. */
  lemma UnrankRoundTrip(q: seq<nat>, n: nat)
    requires IsPermutation(q) && n < 120
    ensures Unrank(PermIndex(q)) == q
    ensures PermIndex(Unrank(n)) == n
  {
    PermIndexInjective(Unrank(PermIndex(q)), q);
  }

  /** An order lies in a prefix's block exactly when it starts with the prefix,
      stated on ranks: the ranks of a block unrank to its completions. */
  lemma UnrankInBlock(p: seq<nat>, n: nat)
    requires ValidPrefix(p) && Distinct(p) && n < 120
    ensures PermPrefixRange(p).0 <= n < PermPrefixRange(p).1 <==> Unrank(n)[..|p|] == p
  {
    PrefixMembership(p, Unrank(n));
  }

  // ----- the source's loop, with its `used` array -----

  /** Computes the prefix block as the source does: a `used` flag per slot and,
      for each prefix entry, a count of the unused slots below it. */
  method ComputePrefixRange(prefix: seq<nat>) returns (start: nat, end: nat)
    requires ValidPrefix(prefix)
    ensures (start, end) == PermPrefixRange(prefix)
  {
    var index := 0;
    var used: seq<bool> := [false, false, false, false, false];
    var i := 0;
    while i < |prefix|
      invariant 0 <= i <= |prefix|
      invariant |used| == Slots
      invariant forall j :: 0 <= j < Slots ==> (used[j] <==> j in prefix[..i])
      invariant index == PrefixStart(prefix[..i])
    {
      var v := prefix[i];
      var smaller := 0;
      var j := 0;
      while j < v
        invariant 0 <= j <= v
        invariant smaller == Smaller(j, prefix[..i])
      {
        if !used[j] {
          smaller := smaller + 1;
        }
        j := j + 1;
      }
      used := used[v := true];
      assert prefix[..i + 1] == prefix[..i] + [v];
      assert prefix[..i + 1][..i] == prefix[..i];
      index := index + smaller * Factorial(4 - i);
      i := i + 1;
    }
    assert prefix[..i] == prefix;
    start := index;
    end := index + Factorial(Slots - |prefix|);
  }
}
