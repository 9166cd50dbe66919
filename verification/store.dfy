/**
 The outcome store: one `GameResult` per combination of the four players'
 play orders, keyed by a base-120 packing of the four order indices into a
 32-bit key, and the histograms the engine reads out of it.
 */
module Store {
  import opened Watten

  /** Keys and counters are 32-bit unsigned integers. */
  const U32: nat := 0x1_0000_0000

  /** Number of keys that in-range order indices can produce: 120^4. */
  const Cells: nat := 207360000

  /** One combination of play-order indices, one per seat. */
  type Cell = (nat, nat, nat, nat)

  predicate InDomain(c: Cell)
  {
    c.0 < HandPermutations && c.1 < HandPermutations && c.2 < HandPermutations && c.3 < HandPermutations
  }

  /** The key of a cell: the base-120 number with digits p1 p2 p3 p4, cut to 32 bits
      (the `as u32` cast keeps the low 32 bits). */
  function MakeIndex(p1: nat, p2: nat, p3: nat, p4: nat): (k: nat)
    ensures k < U32
  {
    (((p1 * HandPermutations + p2) * HandPermutations + p3) * HandPermutations + p4) % U32
  }

  function Key(c: Cell): nat
  {
    MakeIndex(c.0, c.1, c.2, c.3)
  }

  /** Reads the four base-120 digits back out of a key. */
  function Unpack(k: nat): Cell
  {
    var q1 := k / 120;
    var q2 := q1 / 120;
    (q2 / 120, q2 % 120, q1 % 120, k % 120)
  }

  lemma DigitStep(x: nat, d: nat)
    requires d < 120
    ensures (x * 120 + d) / 120 == x && (x * 120 + d) % 120 == d
  {
  }

  lemma PackedBound(p1: nat, p2: nat, p3: nat, p4: nat)
    requires InDomain((p1, p2, p3, p4))
    ensures ((p1 * 120 + p2) * 120 + p3) * 120 + p4 < Cells
  {
    var a := p1 * 120 + p2;
    assert a < 14400;
    var b := a * 120 + p3;
    assert b < 1728000;
  }

  /** In range, the cast loses nothing: the key is below 120^4 and the digits come back. */
  lemma MakeIndexRoundTrip(p1: nat, p2: nat, p3: nat, p4: nat)
    requires InDomain((p1, p2, p3, p4))
    ensures MakeIndex(p1, p2, p3, p4) < Cells
    ensures Unpack(MakeIndex(p1, p2, p3, p4)) == (p1, p2, p3, p4)
  {
    var a := p1 * 120 + p2;
    var b := a * 120 + p3;
    var k := b * 120 + p4;
    PackedBound(p1, p2, p3, p4);
    assert MakeIndex(p1, p2, p3, p4) == k;
    DigitStep(b, p4);
    DigitStep(a, p3);
    DigitStep(p1, p2);
  }

  /** Distinct in-range cells never share a key. */
  lemma MakeIndexInjective(c: Cell, d: Cell)
    requires InDomain(c) && InDomain(d) && Key(c) == Key(d)
    ensures c == d
  {
    MakeIndexRoundTrip(c.0, c.1, c.2, c.3);
    MakeIndexRoundTrip(d.0, d.1, d.2, d.3);
  }

  /** Out of range the cast does alias: an index of 2^32 in the last seat reads as 0. */
  lemma MakeIndexAliases()
    ensures MakeIndex(0, 0, 0, U32) == MakeIndex(0, 0, 0, 0)
  {
  }

  // ----- set and get -----

  datatype Database = Database(results: map<nat, GameResult>)

  const Empty: Database := Database(map[])

  /** Records `r` for the cell; whatever the key held before is replaced. */
  function Set(db: Database, p1: nat, p2: nat, p3: nat, p4: nat, r: GameResult): (d: Database)
    ensures d.results.Keys == db.results.Keys + {MakeIndex(p1, p2, p3, p4)}
  {
    Database(db.results[MakeIndex(p1, p2, p3, p4) := r])
  }

  /** The result recorded for the cell, or `NotPlayed` when none is. */
  function Get(db: Database, p1: nat, p2: nat, p3: nat, p4: nat): GameResult
  {
    var k := MakeIndex(p1, p2, p3, p4);
    if k in db.results then db.results[k] else NotPlayed
  }

  function GetCell(db: Database, c: Cell): GameResult
  {
    Get(db, c.0, c.1, c.2, c.3)
  }

  lemma GetAfterSet(db: Database, p1: nat, p2: nat, p3: nat, p4: nat, r: GameResult)
    ensures Get(Set(db, p1, p2, p3, p4, r), p1, p2, p3, p4) == r
  {
  }

  /** Setting one in-range cell leaves every other in-range cell as it was. */
  lemma SetLeavesOthers(db: Database, c: Cell, d: Cell, r: GameResult)
    requires InDomain(c) && InDomain(d) && c != d
    ensures GetCell(Set(db, c.0, c.1, c.2, c.3, r), d) == GetCell(db, d)
  {
    if Key(c) == Key(d) {
      MakeIndexInjective(c, d);
    }
  }

  lemma GetEmpty(p1: nat, p2: nat, p3: nat, p4: nat)
    ensures Get(Empty, p1, p2, p3, p4) == NotPlayed
  {
  }

  // ----- the cells a count visits -----

  /** The cells of the cross product in loop order: the first seat's index
      outermost, the fourth seat's innermost. */
  function Cross(l1: seq<nat>, l2: seq<nat>, l3: seq<nat>, l4: seq<nat>): seq<Cell>
  {
    if |l1| == 0 then [] else Cross(l1[..|l1| - 1], l2, l3, l4) + Cross2(l1[|l1| - 1], l2, l3, l4)
  }

  function Cross2(a: nat, l2: seq<nat>, l3: seq<nat>, l4: seq<nat>): seq<Cell>
  {
    if |l2| == 0 then [] else Cross2(a, l2[..|l2| - 1], l3, l4) + Cross3(a, l2[|l2| - 1], l3, l4)
  }

  function Cross3(a: nat, b: nat, l3: seq<nat>, l4: seq<nat>): seq<Cell>
  {
    if |l3| == 0 then [] else Cross3(a, b, l3[..|l3| - 1], l4) + Cross4(a, b, l3[|l3| - 1], l4)
  }

  function Cross4(a: nat, b: nat, c: nat, l4: seq<nat>): seq<Cell>
  {
    if |l4| == 0 then [] else Cross4(a, b, c, l4[..|l4| - 1]) + [(a, b, c, l4[|l4| - 1])]
  }

  /** The indices `lo, lo + 1, ..., hi - 1` a Rust range visits; empty when `hi <= lo`. */
  function RangeSeq(lo: nat, hi: nat): seq<nat>
    decreases hi
  {
    if hi <= lo then [] else RangeSeq(lo, hi - 1) + [hi - 1]
  }

  /** A range visits `hi - lo` indices (none when `hi <= lo`), the k-th being `lo + k`. */
  lemma {:induction false} RangeSeqContents(lo: nat, hi: nat)
    ensures var r := RangeSeq(lo, hi);
      |r| == (if hi <= lo then 0 else hi - lo) && forall k :: 0 <= k < |r| ==> r[k] == lo + k
    decreases hi
  {
    if lo < hi {
      RangeSeqContents(lo, hi - 1);
    }
  }

  // ----- histograms -----

  const NoCounts: seq<nat> := [0, 0, 0, 0]

  /** One more result in bucket `o`, on a 32-bit counter. */
  function Bump(h: seq<nat>, o: nat): (r: seq<nat>)
    requires |h| == 4 && o < 4
    ensures |r| == 4
  {
    h[o := (h[o] + 1) % U32]
  }

  /** The counters after visiting `cells` in order, starting from `h`. */
  function TallyFrom(db: Database, h: seq<nat>, cells: seq<Cell>): (r: seq<nat>)
    requires |h| == 4
    ensures |r| == 4
  {
    if |cells| == 0 then h
    else Bump(TallyFrom(db, h, cells[..|cells| - 1]), GetCell(db, cells[|cells| - 1]).Ordinal())
  }

  /** What the counting loops return: the histogram of results over the cross product. */
  function Histogram(db: Database, l1: seq<nat>, l2: seq<nat>, l3: seq<nat>, l4: seq<nat>): (r: seq<nat>)
    ensures |r| == 4
  {
    TallyFrom(db, NoCounts, Cross(l1, l2, l3, l4))
  }

  /** Reference count: how many of `cells` hold result `r`, duplicates included. */
  function Count(db: Database, cells: seq<Cell>, r: GameResult): nat
  {
    if |cells| == 0 then 0
    else (if GetCell(db, cells[0]) == r then 1 else 0) + Count(db, cells[1..], r)
  }

  lemma TallyAppend(db: Database, h: seq<nat>, x: seq<Cell>, y: seq<Cell>)
    requires |h| == 4
    ensures TallyFrom(db, h, x + y) == TallyFrom(db, TallyFrom(db, h, x), y)
    decreases |y|
  {
    if |y| > 0 {
      assert (x + y)[..|x + y| - 1] == x + y[..|y| - 1];
      TallyAppend(db, h, x, y[..|y| - 1]);
    } else {
      assert x + y == x;
    }
  }

  lemma {:induction false} CountAppend(db: Database, x: seq<Cell>, c: Cell, r: GameResult)
    ensures Count(db, x + [c], r) == Count(db, x, r) + (if GetCell(db, c) == r then 1 else 0)
  {
    if |x| > 0 {
      assert (x + [c])[1..] == x[1..] + [c];
      CountAppend(db, x[1..], c, r);
    } else {
      assert (x + [c])[1..] == [];
    }
  }

  lemma ModStep(a: nat)
    ensures (a % U32 + 1) % U32 == (a + 1) % U32
  {
  }

  /** Bucket `r.Ordinal()` holds the number of cells whose result is `r`, modulo 2^32. */
  lemma {:induction false} TallyCounts(db: Database, cells: seq<Cell>, r: GameResult)
    ensures TallyFrom(db, NoCounts, cells)[r.Ordinal()] == Count(db, cells, r) % U32
    decreases |cells|
  {
    if |cells| > 0 {
      var init, last := cells[..|cells| - 1], cells[|cells| - 1];
      assert init + [last] == cells;
      TallyCounts(db, init, r);
      CountAppend(db, init, last, r);
      if GetCell(db, last) == r {
        ModStep(Count(db, init, r));
      }
    }
  }

  /** Every cell lands in exactly one bucket. */
  lemma {:induction false} CountsCoverCells(db: Database, cells: seq<Cell>)
    ensures Count(db, cells, NotPlayed) + Count(db, cells, Team1Win)
          + Count(db, cells, Team2Win) + Count(db, cells, RuleViolation) == |cells|
  {
    if |cells| > 0 {
      CountsCoverCells(db, cells[1..]);
    }
  }

  lemma {:induction false} Cross4Length(a: nat, b: nat, c: nat, l4: seq<nat>)
    ensures |Cross4(a, b, c, l4)| == |l4|
  {
    if |l4| > 0 {
      Cross4Length(a, b, c, l4[..|l4| - 1]);
    }
  }

  lemma Distribute(k: nat, f: nat)
    ensures k * f + f == (k + 1) * f
  {
  }

  lemma {:induction false} Cross3Length(a: nat, b: nat, l3: seq<nat>, l4: seq<nat>)
    ensures |Cross3(a, b, l3, l4)| == |l3| * |l4|
  {
    if |l3| > 0 {
      Cross3Length(a, b, l3[..|l3| - 1], l4);
      Cross4Length(a, b, l3[|l3| - 1], l4);
      Distribute(|l3| - 1, |l4|);
    }
  }

  lemma {:induction false} Cross2Length(a: nat, l2: seq<nat>, l3: seq<nat>, l4: seq<nat>)
    ensures |Cross2(a, l2, l3, l4)| == |l2| * (|l3| * |l4|)
  {
    if |l2| > 0 {
      Cross2Length(a, l2[..|l2| - 1], l3, l4);
      Cross3Length(a, l2[|l2| - 1], l3, l4);
      Distribute(|l2| - 1, |l3| * |l4|);
    }
  }

  /** The loops visit |l1| * |l2| * |l3| * |l4| cells, duplicates in the lists included. */
  lemma {:induction false} CrossLength(l1: seq<nat>, l2: seq<nat>, l3: seq<nat>, l4: seq<nat>)
    ensures |Cross(l1, l2, l3, l4)| == |l1| * (|l2| * (|l3| * |l4|))
  {
    if |l1| > 0 {
      CrossLength(l1[..|l1| - 1], l2, l3, l4);
      Cross2Length(l1[|l1| - 1], l2, l3, l4);
      Distribute(|l1| - 1, |l2| * (|l3| * |l4|));
    }
  }

  lemma JoinMembers(e: Cell, whole: seq<Cell>, left: seq<Cell>, right: seq<Cell>)
    requires whole == left + right
    ensures e in whole <==> e in left || e in right
  {
  }

  lemma SnocMembers(v: nat, l: seq<nat>)
    requires |l| > 0
    ensures v in l <==> v in l[..|l| - 1] || v == l[|l| - 1]
  {
    assert l == l[..|l| - 1] + [l[|l| - 1]];
  }

  lemma {:induction false} Cross4Members(a: nat, b: nat, c: nat, l4: seq<nat>, e: Cell)
    ensures e in Cross4(a, b, c, l4) <==> e.0 == a && e.1 == b && e.2 == c && e.3 in l4
  {
    if |l4| > 0 {
      var init, x := l4[..|l4| - 1], l4[|l4| - 1];
      Cross4Members(a, b, c, init, e);
      SnocMembers(e.3, l4);
      JoinMembers(e, Cross4(a, b, c, l4), Cross4(a, b, c, init), [(a, b, c, x)]);
    }
  }

  lemma {:induction false} Cross3Members(a: nat, b: nat, l3: seq<nat>, l4: seq<nat>, e: Cell)
    ensures e in Cross3(a, b, l3, l4) <==> e.0 == a && e.1 == b && e.2 in l3 && e.3 in l4
  {
    if |l3| > 0 {
      var init, x := l3[..|l3| - 1], l3[|l3| - 1];
      Cross3Members(a, b, init, l4, e);
      Cross4Members(a, b, x, l4, e);
      SnocMembers(e.2, l3);
      JoinMembers(e, Cross3(a, b, l3, l4), Cross3(a, b, init, l4), Cross4(a, b, x, l4));
    }
  }

  lemma {:induction false} Cross2Members(a: nat, l2: seq<nat>, l3: seq<nat>, l4: seq<nat>, e: Cell)
    ensures e in Cross2(a, l2, l3, l4) <==> e.0 == a && e.1 in l2 && e.2 in l3 && e.3 in l4
  {
    if |l2| > 0 {
      var init, x := l2[..|l2| - 1], l2[|l2| - 1];
      Cross2Members(a, init, l3, l4, e);
      Cross3Members(a, x, l3, l4, e);
      SnocMembers(e.1, l2);
      JoinMembers(e, Cross2(a, l2, l3, l4), Cross2(a, init, l3, l4), Cross3(a, x, l3, l4));
    }
  }

  /** A cell is visited iff each of its indices is in its seat's list. */
  lemma {:induction false} CrossMembers(l1: seq<nat>, l2: seq<nat>, l3: seq<nat>, l4: seq<nat>, e: Cell)
    ensures e in Cross(l1, l2, l3, l4) <==> e.0 in l1 && e.1 in l2 && e.2 in l3 && e.3 in l4
  {
    if |l1| > 0 {
      var init, x := l1[..|l1| - 1], l1[|l1| - 1];
      CrossMembers(init, l2, l3, l4, e);
      Cross2Members(x, l2, l3, l4, e);
      SnocMembers(e.0, l1);
      JoinMembers(e, Cross(l1, l2, l3, l4), Cross(init, l2, l3, l4), Cross2(x, l2, l3, l4));
    }
  }

  /** Bucket r of the histogram counts the visited cells holding r (modulo 2^32);
      while fewer than 2^32 cells are visited the four buckets add up to the
      product of the list lengths. */
  lemma HistogramCounts(db: Database, l1: seq<nat>, l2: seq<nat>, l3: seq<nat>, l4: seq<nat>, r: GameResult)
    ensures Histogram(db, l1, l2, l3, l4)[r.Ordinal()] == Count(db, Cross(l1, l2, l3, l4), r) % U32
  {
    TallyCounts(db, Cross(l1, l2, l3, l4), r);
  }

  lemma TallyTotal(db: Database, cells: seq<Cell>)
    requires |cells| < U32
    ensures var h := TallyFrom(db, NoCounts, cells); h[0] + h[1] + h[2] + h[3] == |cells|
  {
    var h := TallyFrom(db, NoCounts, cells);
    CountsCoverCells(db, cells);
    var c0, c1, c2, c3 := Count(db, cells, NotPlayed), Count(db, cells, Team1Win),
                          Count(db, cells, Team2Win), Count(db, cells, RuleViolation);
    TallyCounts(db, cells, NotPlayed);
    TallyCounts(db, cells, Team1Win);
    TallyCounts(db, cells, Team2Win);
    TallyCounts(db, cells, RuleViolation);
    assert c0 + c1 + c2 + c3 == |cells|;
    SmallMod(c0);
    SmallMod(c1);
    SmallMod(c2);
    SmallMod(c3);
  }

  lemma SmallMod(c: nat)
    requires c < U32
    ensures c % U32 == c
  {
  }

  lemma HistogramTotal(db: Database, l1: seq<nat>, l2: seq<nat>, l3: seq<nat>, l4: seq<nat>)
    requires |l1| * (|l2| * (|l3| * |l4|)) < U32
    ensures var h := Histogram(db, l1, l2, l3, l4);
      h[0] + h[1] + h[2] + h[3] == |l1| * (|l2| * (|l3| * |l4|))
  {
    CrossLength(l1, l2, l3, l4);
    TallyTotal(db, Cross(l1, l2, l3, l4));
  }

  /** An empty range or list in any seat gives all-zero counts. */
  lemma HistogramOfEmpty(db: Database, l1: seq<nat>, l2: seq<nat>, l3: seq<nat>, l4: seq<nat>)
    requires |l1| == 0 || |l2| == 0 || |l3| == 0 || |l4| == 0
    ensures Histogram(db, l1, l2, l3, l4) == NoCounts
  {
    CrossLength(l1, l2, l3, l4);
    var cells := Cross(l1, l2, l3, l4);
    assert |cells| == 0;
  }

  /** With only (0,0,0,0) recorded as a team-1 win, the one-cell count reads
      Team1Win = 1 and NotPlayed = 0. */
  lemma SingleCellExample(db: Database, l: seq<nat>)
    requires db == Set(Empty, 0, 0, 0, 0, Team1Win) && l == [0]
    ensures var h := Histogram(db, l, l, l, l);
      h[Team1Win.Ordinal()] == 1 && h[NotPlayed.Ordinal()] == 0
  {
    assert l[..0] == [];
    assert Cross4(0, 0, 0, l) == [(0, 0, 0, 0)];
    assert Cross3(0, 0, l, l) == [(0, 0, 0, 0)];
    assert Cross2(0, l, l, l) == [(0, 0, 0, 0)];
    var cells: seq<Cell> := [(0, 0, 0, 0)];
    assert Cross(l, l, l, l) == cells;
    assert cells[..0] == [];
    assert GetCell(db, (0, 0, 0, 0)) == Team1Win;
    assert TallyFrom(db, NoCounts, cells) == [0, 1, 0, 0];
  }

  // ----- the counting loops -----

  /** Appending one index to the innermost list adds one bump. */
  lemma Snoc4(db: Database, h: seq<nat>, a: nat, b: nat, c: nat, l: seq<nat>, x: nat)
    requires |h| == 4
    ensures TallyFrom(db, h, Cross4(a, b, c, l + [x]))
         == Bump(TallyFrom(db, h, Cross4(a, b, c, l)), GetCell(db, (a, b, c, x)).Ordinal())
  {
    assert (l + [x])[..|l|] == l;
    var s := Cross4(a, b, c, l);
    assert Cross4(a, b, c, l + [x]) == s + [(a, b, c, x)];
    assert (s + [(a, b, c, x)])[..|s|] == s;
  }

  /** Appending one index to an outer list appends one row of cells. */
  lemma Snoc3(db: Database, h: seq<nat>, a: nat, b: nat, l: seq<nat>, x: nat, l4: seq<nat>)
    requires |h| == 4
    ensures TallyFrom(db, h, Cross3(a, b, l + [x], l4))
         == TallyFrom(db, TallyFrom(db, h, Cross3(a, b, l, l4)), Cross4(a, b, x, l4))
  {
    assert (l + [x])[..|l|] == l;
    TallyAppend(db, h, Cross3(a, b, l, l4), Cross4(a, b, x, l4));
  }

  lemma Snoc2(db: Database, h: seq<nat>, a: nat, l: seq<nat>, x: nat, l3: seq<nat>, l4: seq<nat>)
    requires |h| == 4
    ensures TallyFrom(db, h, Cross2(a, l + [x], l3, l4))
         == TallyFrom(db, TallyFrom(db, h, Cross2(a, l, l3, l4)), Cross3(a, x, l3, l4))
  {
    assert (l + [x])[..|l|] == l;
    TallyAppend(db, h, Cross2(a, l, l3, l4), Cross3(a, x, l3, l4));
  }

  lemma Snoc1(db: Database, h: seq<nat>, l: seq<nat>, x: nat, l2: seq<nat>, l3: seq<nat>, l4: seq<nat>)
    requires |h| == 4
    ensures TallyFrom(db, h, Cross(l + [x], l2, l3, l4))
         == TallyFrom(db, TallyFrom(db, h, Cross(l, l2, l3, l4)), Cross2(x, l2, l3, l4))
  {
    assert (l + [x])[..|l|] == l;
    TallyAppend(db, h, Cross(l, l2, l3, l4), Cross2(x, l2, l3, l4));
  }

  lemma PrefixStep(l: seq<nat>, i: nat)
    requires i < |l|
    ensures l[..i + 1] == l[..i] + [l[i]]
  {
  }

  /** The innermost loop of `counts_in_lists`, continuing from counters `h`. */
  method ListRow4(db: Database, h: seq<nat>, a: nat, b: nat, c: nat, l4: seq<nat>) returns (counts: seq<nat>)
    requires |h| == 4
    ensures counts == TallyFrom(db, h, Cross4(a, b, c, l4))
  {
    counts := h;
    var i := 0;
    while i < |l4|
      invariant i <= |l4|
      invariant counts == TallyFrom(db, h, Cross4(a, b, c, l4[..i]))
    {
      var r := Get(db, a, b, c, l4[i]);
      counts := Bump(counts, r.Ordinal());
      PrefixStep(l4, i);
      Snoc4(db, h, a, b, c, l4[..i], l4[i]);
      i := i + 1;
    }
    assert l4[..i] == l4;
  }

  method ListRow3(db: Database, h: seq<nat>, a: nat, b: nat, l3: seq<nat>, l4: seq<nat>) returns (counts: seq<nat>)
    requires |h| == 4
    ensures counts == TallyFrom(db, h, Cross3(a, b, l3, l4))
  {
    counts := h;
    var i := 0;
    while i < |l3|
      invariant i <= |l3|
      invariant counts == TallyFrom(db, h, Cross3(a, b, l3[..i], l4))
    {
      counts := ListRow4(db, counts, a, b, l3[i], l4);
      PrefixStep(l3, i);
      Snoc3(db, h, a, b, l3[..i], l3[i], l4);
      i := i + 1;
    }
    assert l3[..i] == l3;
  }

  method ListRow2(db: Database, h: seq<nat>, a: nat, l2: seq<nat>, l3: seq<nat>, l4: seq<nat>) returns (counts: seq<nat>)
    requires |h| == 4
    ensures counts == TallyFrom(db, h, Cross2(a, l2, l3, l4))
  {
    counts := h;
    var i := 0;
    while i < |l2|
      invariant i <= |l2|
      invariant counts == TallyFrom(db, h, Cross2(a, l2[..i], l3, l4))
    {
      counts := ListRow3(db, counts, a, l2[i], l3, l4);
      PrefixStep(l2, i);
      Snoc2(db, h, a, l2[..i], l2[i], l3, l4);
      i := i + 1;
    }
    assert l2[..i] == l2;
  }

  /** `counts_in_lists`: four nested loops over explicit index lists, one bump
      per visited cell; duplicate list entries are visited once per occurrence. */
  method CountsInLists(db: Database, l1: seq<nat>, l2: seq<nat>, l3: seq<nat>, l4: seq<nat>)
    returns (counts: seq<nat>)
    ensures counts == Histogram(db, l1, l2, l3, l4)
  {
    counts := NoCounts;
    var i := 0;
    while i < |l1|
      invariant i <= |l1|
      invariant counts == TallyFrom(db, NoCounts, Cross(l1[..i], l2, l3, l4))
    {
      counts := ListRow2(db, counts, l1[i], l2, l3, l4);
      PrefixStep(l1, i);
      Snoc1(db, NoCounts, l1[..i], l1[i], l2, l3, l4);
      i := i + 1;
    }
    assert l1[..i] == l1;
  }

  // ----- counting over ranges -----

  /** A half-open index range `lo..hi`. */
  datatype Range = Range(lo: nat, hi: nat)

  /** The indices a range visits, in order. */
  function Indices(r: Range): seq<nat>
  {
    RangeSeq(r.lo, r.hi)
  }

  /** The index a range loop is at, `i`, sits at offset `i - lo` of the range's
      enumeration, and the loop's exit leaves the whole enumeration behind it. */
  lemma RangeAt(r: Range, i: nat)
    requires r.lo <= i && (i == r.lo || i <= r.hi)
    ensures i - r.lo <= |Indices(r)|
    ensures i < r.hi ==> i - r.lo < |Indices(r)| && Indices(r)[i - r.lo] == i
    ensures !(i < r.hi) ==> i - r.lo == |Indices(r)|
  {
    RangeSeqContents(r.lo, r.hi);
  }

  /** The innermost loop of `counts_in_ranges`, continuing from counters `h`. */
  method RangeRow4(db: Database, h: seq<nat>, a: nat, b: nat, c: nat, r4: Range) returns (counts: seq<nat>)
    requires |h| == 4
    ensures counts == TallyFrom(db, h, Cross4(a, b, c, Indices(r4)))
  {
    ghost var l := Indices(r4);
    counts := h;
    var i := r4.lo;
    while i < r4.hi
      invariant r4.lo <= i && (i == r4.lo || i <= r4.hi)
      invariant i - r4.lo <= |l| && counts == TallyFrom(db, h, Cross4(a, b, c, l[..i - r4.lo]))
    {
      RangeAt(r4, i);
      var r := Get(db, a, b, c, i);
      counts := Bump(counts, r.Ordinal());
      PrefixStep(l, i - r4.lo);
      Snoc4(db, h, a, b, c, l[..i - r4.lo], i);
      i := i + 1;
    }
    RangeAt(r4, i);
    assert l[..i - r4.lo] == l;
  }

  method RangeRow3(db: Database, h: seq<nat>, a: nat, b: nat, r3: Range, r4: Range) returns (counts: seq<nat>)
    requires |h| == 4
    ensures counts == TallyFrom(db, h, Cross3(a, b, Indices(r3), Indices(r4)))
  {
    ghost var l := Indices(r3);
    counts := h;
    var i := r3.lo;
    while i < r3.hi
      invariant r3.lo <= i && (i == r3.lo || i <= r3.hi)
      invariant i - r3.lo <= |l| && counts == TallyFrom(db, h, Cross3(a, b, l[..i - r3.lo], Indices(r4)))
    {
      RangeAt(r3, i);
      counts := RangeRow4(db, counts, a, b, i, r4);
      PrefixStep(l, i - r3.lo);
      Snoc3(db, h, a, b, l[..i - r3.lo], i, Indices(r4));
      i := i + 1;
    }
    RangeAt(r3, i);
    assert l[..i - r3.lo] == l;
  }

  method RangeRow2(db: Database, h: seq<nat>, a: nat, r2: Range, r3: Range, r4: Range) returns (counts: seq<nat>)
    requires |h| == 4
    ensures counts == TallyFrom(db, h, Cross2(a, Indices(r2), Indices(r3), Indices(r4)))
  {
    ghost var l := Indices(r2);
    counts := h;
    var i := r2.lo;
    while i < r2.hi
      invariant r2.lo <= i && (i == r2.lo || i <= r2.hi)
      invariant i - r2.lo <= |l| && counts == TallyFrom(db, h, Cross2(a, l[..i - r2.lo], Indices(r3), Indices(r4)))
    {
      RangeAt(r2, i);
      counts := RangeRow3(db, counts, a, i, r3, r4);
      PrefixStep(l, i - r2.lo);
      Snoc2(db, h, a, l[..i - r2.lo], i, Indices(r3), Indices(r4));
      i := i + 1;
    }
    RangeAt(r2, i);
    assert l[..i - r2.lo] == l;
  }

  /** `counts_in_ranges`: the same four nested loops over ranges. Its result is
      the histogram over the index lists the ranges enumerate, i.e. what
      `CountsInLists` returns on those lists. */
  method CountsInRanges(db: Database, r1: Range, r2: Range, r3: Range, r4: Range)
    returns (counts: seq<nat>)
    ensures counts == Histogram(db, Indices(r1), Indices(r2), Indices(r3), Indices(r4))
  {
    ghost var l := Indices(r1);
    counts := NoCounts;
    var i := r1.lo;
    while i < r1.hi
      invariant r1.lo <= i && (i == r1.lo || i <= r1.hi)
      invariant i - r1.lo <= |l| && counts == TallyFrom(db, NoCounts, Cross(l[..i - r1.lo], Indices(r2), Indices(r3), Indices(r4)))
    {
      RangeAt(r1, i);
      counts := RangeRow2(db, counts, i, r2, r3, r4);
      PrefixStep(l, i - r1.lo);
      Snoc1(db, NoCounts, l[..i - r1.lo], i, Indices(r2), Indices(r3), Indices(r4));
      i := i + 1;
    }
    RangeAt(r1, i);
    assert l[..i - r1.lo] == l;
  }

  /** The range form of the single-cell example. */
  lemma SingleCellRangeExample(db: Database, r: Range)
    requires db == Set(Empty, 0, 0, 0, 0, Team1Win) && r == Range(0, 1)
    ensures var h := Histogram(db, Indices(r), Indices(r), Indices(r), Indices(r));
      h[Team1Win.Ordinal()] == 1 && h[NotPlayed.Ordinal()] == 0
  {
    assert Indices(r) == [0];
    SingleCellExample(db, Indices(r));
  }
}
