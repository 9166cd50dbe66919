/**
 The list of all 120 play orders, produced by the recursive element-swap
 generator (Heap's algorithm). The generator's order is NOT the Lehmer order
 of `Permutations.PermIndex`: its second element is [1,0,2,3,4], whose rank is
 24. Positions in this list are what the outcome store is keyed by.
 */
module HandOrders {
  import opened Permutations
  import Watten

  type Order = seq<nat>

  function Swap(a: Order, i: nat, j: nat): (r: Order)
    requires i < |a| && j < |a|
    ensures |r| == |a|
  {
    a[i := a[j]][j := a[i]]
  }

  /** The arrangement `permute(arr, n)` leaves behind in its array. */
  function Settle(arr: Order, n: nat): (r: Order)
    requires 1 <= n <= |arr|
    ensures |r| == |arr|
    decreases n, 1
  {
    if n == 1 then arr else SettleFrom(arr, n, 0)
  }

  /** The arrangement after iteration `i` of `permute(arr, n)`: the recursive
      call, then a swap of slot `i` (even `n`) or slot 0 (odd `n`) with slot `n - 1`. */
  function Next(arr: Order, n: nat, i: nat): (r: Order)
    requires 2 <= n <= |arr| && i < n
    ensures |r| == |arr|
    decreases n, 0, 0
  {
    var moved := Settle(arr, n - 1);
    if n % 2 == 0 then Swap(moved, i, n - 1) else Swap(moved, 0, n - 1)
  }

  /** The arrangement left by iterations `i..n-1` of `permute(arr, n)`. */
  function SettleFrom(arr: Order, n: nat, i: nat): (r: Order)
    requires 2 <= n <= |arr| && i <= n
    ensures |r| == |arr|
    decreases n, 0, n - i
  {
    if i == n then arr else SettleFrom(Next(arr, n, i), n, i + 1)
  }

  /** `permute(arr, n)`: the orders it pushes onto the output list, in push order. */
  function Permute(arr: Order, n: nat): (r: seq<Order>)
    requires 1 <= n <= |arr|
    decreases n, 1
  {
    if n == 1 then [arr] else Rounds(arr, n, 0)
  }

  /** The orders pushed by iterations `i..n-1` of `permute(arr, n)`. */
  function Rounds(arr: Order, n: nat, i: nat): (r: seq<Order>)
    requires 2 <= n <= |arr| && i <= n
    decreases n, 0, n - i
  {
    if i == n then [] else Permute(arr, n - 1) + Rounds(Next(arr, n, i), n, i + 1)
  }

  /** `[0, 1, ..., n - 1]`. */
  function Ascending(n: nat): (r: Order)
    ensures |r| == n && forall k :: 0 <= k < n ==> r[k] == k
  {
    if n == 0 then [] else Ascending(n - 1) + [n - 1]
  }

  /** The array the generator starts from, slot `k` holding card `k`. */
  const Identity: Order := Ascending(Slots)

  /** All play orders of a five-card hand, in generator order. */
  function AllHandOrders(): seq<Order>
  {
    Permute(Identity, Slots)
  }

  // ----- what every emitted order looks like -----

  /** `o` is `a` rearranged within its first `n` slots. */
  predicate Rearranged(a: Order, o: Order, n: nat)
  {
    && |o| == |a| && n <= |a|
    && o[n..] == a[n..]
    && (Distinct(a) ==> Distinct(o))
    && (InSlots(a) ==> InSlots(o))
  }

  lemma SwapRearranges(a: Order, i: nat, j: nat, n: nat)
    requires i < n && j < n && n <= |a|
    ensures Rearranged(a, Swap(a, i, j), n)
  {
    var s := Swap(a, i, j);
    assert forall k :: 0 <= k < |s| && k != i && k != j ==> s[k] == a[k];
    if Distinct(a) {
      forall x, y | 0 <= x < y < |s| ensures s[x] != s[y] {
        var x' := if x == i then j else if x == j then i else x;
        var y' := if y == i then j else if y == j then i else y;
        assert s[x] == a[x'] && s[y] == a[y'];
      }
    }
  }

  lemma RearrangedTrans(a: Order, b: Order, c: Order, m: nat, n: nat)
    requires m <= n && Rearranged(a, b, m) && Rearranged(b, c, n)
    ensures Rearranged(a, c, n)
  {
    assert b[n..] == b[m..][n - m..];
    assert a[n..] == a[m..][n - m..];
  }

  lemma {:induction false} SettleShape(arr: Order, n: nat)
    requires 1 <= n <= |arr|
    ensures Rearranged(arr, Settle(arr, n), n)
    decreases n, 1
  {
    if n > 1 {
      SettleFromShape(arr, n, 0);
    }
  }

  lemma {:induction false} NextShape(arr: Order, n: nat, i: nat)
    requires 2 <= n <= |arr| && i < n
    ensures Rearranged(arr, Next(arr, n, i), n)
    decreases n, 0, 0
  {
    var moved := Settle(arr, n - 1);
    SettleShape(arr, n - 1);
    if n % 2 == 0 {
      SwapRearranges(moved, i, n - 1, n);
    } else {
      SwapRearranges(moved, 0, n - 1, n);
    }
    RearrangedTrans(arr, moved, Next(arr, n, i), n - 1, n);
  }

  lemma {:induction false} SettleFromShape(arr: Order, n: nat, i: nat)
    requires 2 <= n <= |arr| && i <= n
    ensures Rearranged(arr, SettleFrom(arr, n, i), n)
    decreases n, 0, n - i
  {
    if i < n {
      var nx := Next(arr, n, i);
      NextShape(arr, n, i);
      SettleFromShape(nx, n, i + 1);
      RearrangedTrans(arr, nx, SettleFrom(nx, n, i + 1), n, n);
    } else {
      assert arr[n..] == arr[n..];
    }
  }

  lemma {:induction false} PermuteShape(arr: Order, n: nat)
    requires 1 <= n <= |arr|
    ensures forall o :: o in Permute(arr, n) ==> Rearranged(arr, o, n)
    decreases n, 1
  {
    if n > 1 {
      RoundsShape(arr, n, 0);
    } else {
      assert arr[n..] == arr[n..];
    }
  }

  lemma {:induction false} RoundsShape(arr: Order, n: nat, i: nat)
    requires 2 <= n <= |arr| && i <= n
    ensures forall o :: o in Rounds(arr, n, i) ==> Rearranged(arr, o, n)
    decreases n, 0, n - i
  {
    if i < n {
      var nx := Next(arr, n, i);
      NextShape(arr, n, i);
      RoundsShape(nx, n, i + 1);
      PermuteShape(arr, n - 1);
      var outs, rest := Permute(arr, n - 1), Rounds(nx, n, i + 1);
      forall o | o in outs + rest ensures Rearranged(arr, o, n) {
        if o in outs {
          RearrangedTrans(arr, o, o, n - 1, n);
        } else {
          RearrangedTrans(arr, nx, o, n, n);
        }
      }
    }
  }

  // ----- length -----

  lemma {:induction false} PermuteLength(arr: Order, n: nat)
    requires 1 <= n <= |arr|
    ensures |Permute(arr, n)| == Factorial(n)
    decreases n, 1
  {
    if n > 1 {
      RoundsLength(arr, n, 0);
    }
  }

  lemma {:induction false} RoundsLength(arr: Order, n: nat, i: nat)
    requires 2 <= n <= |arr| && i <= n
    ensures |Rounds(arr, n, i)| == (n - i) * Factorial(n - 1)
    decreases n, 0, n - i
  {
    if i < n {
      PermuteLength(arr, n - 1);
      RoundsLength(Next(arr, n, i), n, i + 1);
      Distribute(n - i - 1, Factorial(n - 1));
    }
  }

  lemma Distribute(k: nat, f: nat)
    ensures (k + 1) * f == f + k * f
  {
  }

  // ----- first order -----

  lemma {:induction false} PermuteFirst(arr: Order, n: nat)
    requires 1 <= n <= |arr|
    ensures |Permute(arr, n)| > 0 && Permute(arr, n)[0] == arr
    decreases n
  {
    if n > 1 {
      PermuteFirst(arr, n - 1);
    }
  }

  // ----- distinctness -----

  predicate DistinctOrders(s: seq<Order>)
  {
    forall i, j :: 0 <= i < j < |s| ==> s[i] != s[j]
  }

  /** The arrangements at the start of iterations `i..n-1` of `permute(arr, n)`. */
  function Starts(arr: Order, n: nat, i: nat): (r: seq<Order>)
    requires 2 <= n <= |arr| && i <= n
    ensures |r| == n - i
    decreases n - i
  {
    if i == n then [] else [arr] + Starts(Next(arr, n, i), n, i + 1)
  }

  /** Each iteration of `permute(arr, n)` starts with a new value in slot `n - 1`. */
  predicate SlotsDiffer(starts: seq<Order>, n: nat)
    requires n >= 1
  {
    forall k, l :: 0 <= k < l < |starts| ==>
      |starts[k]| >= n && |starts[l]| >= n && starts[k][n - 1] != starts[l][n - 1]
  }

  /** Slot `n - 1` of `o` holds what it held in one of the arrangements `starts`. */
  predicate SlotFrom(o: Order, starts: seq<Order>, n: nat)
    requires n >= 1
  {
    exists k :: 0 <= k < |starts| && |o| >= n && |starts[k]| >= n && o[n - 1] == starts[k][n - 1]
  }

  /** Every order emitted by iterations `i..` keeps, in slot `n - 1`, the value
      that slot held when its iteration started. */
  lemma {:induction false} RoundsSlot(arr: Order, n: nat, i: nat)
    requires 2 <= n <= |arr| && i <= n
    ensures forall o :: o in Rounds(arr, n, i) ==> SlotFrom(o, Starts(arr, n, i), n)
    decreases n - i
  {
    if i < n {
      PermuteShape(arr, n - 1);
      var nx := Next(arr, n, i);
      RoundsSlot(nx, n, i + 1);
      var outs, rest := Permute(arr, n - 1), Rounds(nx, n, i + 1);
      var starts, later := Starts(arr, n, i), Starts(nx, n, i + 1);
      assert starts == [arr] + later;
      assert Rounds(arr, n, i) == outs + rest;
      forall o | o in outs + rest ensures SlotFrom(o, starts, n) {
        if o in outs {
          assert o[n - 1..][0] == arr[n - 1..][0];
          assert starts[0] == arr;
        } else {
          assert SlotFrom(o, later, n);
          var k :| 0 <= k < |later| && |o| >= n && |later[k]| >= n && o[n - 1] == later[k][n - 1];
          assert starts[k + 1] == later[k];
        }
      }
    }
  }

  lemma DistinctConcat(x: seq<Order>, y: seq<Order>)
    requires DistinctOrders(x) && DistinctOrders(y)
    requires forall o :: o in x ==> o !in y
    ensures DistinctOrders(x + y)
  {
    var s := x + y;
    forall i, j | 0 <= i < j < |s| ensures s[i] != s[j] {
      if i < |x| && j >= |x| {
        assert s[i] in x && s[j] in y;
      }
    }
  }

  // ----- concrete net effects of the generator on five slots -----
  // Stated over five separate values so that equal arrangements are equal
  // displays; level n builds on the arrangement level n - 1 leaves behind.

  lemma Expand(a: Order)
    requires |a| == 5
    ensures a == [a[0], a[1], a[2], a[3], a[4]]
  {
  }

  lemma LoopEnd(arr: Order, n: nat)
    requires 2 <= n <= |arr|
    ensures SettleFrom(arr, n, n) == arr
  {
  }

  lemma SettleStep(arr: Order, n: nat, i: nat, nx: Order, fin: Order)
    requires 2 <= n <= |arr| && i < n
    requires Next(arr, n, i) == nx && SettleFrom(nx, n, i + 1) == fin
    ensures SettleFrom(arr, n, i) == fin
  {
  }

  lemma StartsShift(arr: Order, n: nat, i: nat, nx: Order, k: nat)
    requires 2 <= n <= |arr| && i < n && 1 <= k < n - i
    requires Next(arr, n, i) == nx
    ensures Starts(arr, n, i)[k] == Starts(nx, n, i + 1)[k - 1]
  {
  }

  lemma SwapToLast(x: Order, i: nat, last: nat)
    requires |x| == 5 && i <= last < 5
    ensures Swap(x, i, last) == [Swapped(x, i, last, 0), Swapped(x, i, last, 1), Swapped(x, i, last, 2),
                                 Swapped(x, i, last, 3), Swapped(x, i, last, 4)]
  {
  }

  /** Slot `k` of `x` after exchanging slots `i` and `j`. */
  function Swapped(x: Order, i: nat, j: nat, k: nat): nat
    requires i < |x| && j < |x| && k < |x|
  {
    if k == j then x[i] else if k == i then x[j] else x[k]
  }

  lemma Next2(x0: nat, x1: nat, x2: nat, x3: nat, x4: nat, i: nat)
    requires i < 2
    ensures Next([x0, x1, x2, x3, x4], 2, i) == Swap([x0, x1, x2, x3, x4], i, 1)
  {
  }

  /** Two slots: the loop exchanges them once, then leaves them. */
  lemma Settle2(x0: nat, x1: nat, x2: nat, x3: nat, x4: nat)
    ensures Settle([x0, x1, x2, x3, x4], 2) == [x1, x0, x2, x3, x4]
    ensures Starts([x0, x1, x2, x3, x4], 2, 0)[1] == [x1, x0, x2, x3, x4]
  {
    var a, b := [x0, x1, x2, x3, x4], [x1, x0, x2, x3, x4];
    Next2(x0, x1, x2, x3, x4, 0);
    SwapToLast(a, 0, 1);
    Next2(x1, x0, x2, x3, x4, 1);
    SwapToLast(b, 1, 1);
    LoopEnd(b, 2);
    SettleStep(b, 2, 1, b, b);
    SettleStep(a, 2, 0, b, b);
    StartsShift(a, 2, 0, b, 1);
  }

  lemma Next3(x0: nat, x1: nat, x2: nat, x3: nat, x4: nat, i: nat)
    requires i < 3
    ensures Next([x0, x1, x2, x3, x4], 3, i) == [x2, x0, x1, x3, x4]
  {
    Settle2(x0, x1, x2, x3, x4);
    SwapToLast([x1, x0, x2, x3, x4], 0, 2);
  }

  /** Three slots: each iteration rotates them, so the loop ends where it began. */
  lemma Settle3(x0: nat, x1: nat, x2: nat, x3: nat, x4: nat)
    ensures Settle([x0, x1, x2, x3, x4], 3) == [x0, x1, x2, x3, x4]
  {
    var a, b1, b2 := [x0, x1, x2, x3, x4], [x2, x0, x1, x3, x4], [x1, x2, x0, x3, x4];
    Next3(x0, x1, x2, x3, x4, 0);
    Next3(x2, x0, x1, x3, x4, 1);
    Next3(x1, x2, x0, x3, x4, 2);
    LoopEnd(a, 3);
    SettleStep(b2, 3, 2, a, a);
    SettleStep(b1, 3, 1, b2, a);
    SettleStep(a, 3, 0, b1, a);
  }

  lemma Starts3(x0: nat, x1: nat, x2: nat, x3: nat, x4: nat)
    ensures var s := Starts([x0, x1, x2, x3, x4], 3, 0);
      s[0] == [x0, x1, x2, x3, x4] && s[1] == [x2, x0, x1, x3, x4] && s[2] == [x1, x2, x0, x3, x4]
  {
    var a, b1, b2 := [x0, x1, x2, x3, x4], [x2, x0, x1, x3, x4], [x1, x2, x0, x3, x4];
    Next3(x0, x1, x2, x3, x4, 0);
    Next3(x2, x0, x1, x3, x4, 1);
    StartsShift(b1, 3, 1, b2, 1);
    StartsShift(a, 3, 0, b1, 1);
    StartsShift(a, 3, 0, b1, 2);
  }

  lemma Next4(x0: nat, x1: nat, x2: nat, x3: nat, x4: nat, i: nat)
    requires i < 4
    ensures Next([x0, x1, x2, x3, x4], 4, i) == Swap([x0, x1, x2, x3, x4], i, 3)
  {
    Settle3(x0, x1, x2, x3, x4);
  }

  lemma Next4At(x0: nat, x1: nat, x2: nat, x3: nat, x4: nat)
    ensures Next([x0, x1, x2, x3, x4], 4, 0) == [x3, x1, x2, x0, x4]
    ensures Next([x3, x1, x2, x0, x4], 4, 1) == [x3, x0, x2, x1, x4]
    ensures Next([x3, x0, x2, x1, x4], 4, 2) == [x3, x0, x1, x2, x4]
    ensures Next([x3, x0, x1, x2, x4], 4, 3) == [x3, x0, x1, x2, x4]
  {
    Next4(x0, x1, x2, x3, x4, 0);
    SwapToLast([x0, x1, x2, x3, x4], 0, 3);
    Next4(x3, x1, x2, x0, x4, 1);
    SwapToLast([x3, x1, x2, x0, x4], 1, 3);
    Next4(x3, x0, x2, x1, x4, 2);
    SwapToLast([x3, x0, x2, x1, x4], 2, 3);
    Next4(x3, x0, x1, x2, x4, 3);
    SwapToLast([x3, x0, x1, x2, x4], 3, 3);
  }

  /** Four slots: the loop leaves the old slot 3 in front, the rest shifted up. */
  lemma Settle4(x0: nat, x1: nat, x2: nat, x3: nat, x4: nat)
    ensures Settle([x0, x1, x2, x3, x4], 4) == [x3, x0, x1, x2, x4]
  {
    var a, b1 := [x0, x1, x2, x3, x4], [x3, x1, x2, x0, x4];
    var b2, b3 := [x3, x0, x2, x1, x4], [x3, x0, x1, x2, x4];
    Next4At(x0, x1, x2, x3, x4);
    LoopEnd(b3, 4);
    SettleStep(b3, 4, 3, b3, b3);
    SettleStep(b2, 4, 2, b3, b3);
    SettleStep(b1, 4, 1, b2, b3);
    SettleStep(a, 4, 0, b1, b3);
  }

  lemma Starts4(x0: nat, x1: nat, x2: nat, x3: nat, x4: nat)
    ensures var s := Starts([x0, x1, x2, x3, x4], 4, 0);
      && s[0] == [x0, x1, x2, x3, x4] && s[1] == [x3, x1, x2, x0, x4]
      && s[2] == [x3, x0, x2, x1, x4] && s[3] == [x3, x0, x1, x2, x4]
  {
    var a, b1 := [x0, x1, x2, x3, x4], [x3, x1, x2, x0, x4];
    var b2, b3 := [x3, x0, x2, x1, x4], [x3, x0, x1, x2, x4];
    Next4At(x0, x1, x2, x3, x4);
    StartsShift(b2, 4, 2, b3, 1);
    StartsShift(b1, 4, 1, b2, 1);
    StartsShift(b1, 4, 1, b2, 2);
    StartsShift(a, 4, 0, b1, 1);
    StartsShift(a, 4, 0, b1, 2);
    StartsShift(a, 4, 0, b1, 3);
  }

  lemma Next5(x0: nat, x1: nat, x2: nat, x3: nat, x4: nat, i: nat)
    requires i < 5
    ensures Next([x0, x1, x2, x3, x4], 5, i) == [x4, x0, x1, x2, x3]
  {
    Settle4(x0, x1, x2, x3, x4);
    SwapToLast([x3, x0, x1, x2, x4], 0, 4);
  }

  lemma Starts5(x0: nat, x1: nat, x2: nat, x3: nat, x4: nat)
    ensures var s := Starts([x0, x1, x2, x3, x4], 5, 0);
      && s[0] == [x0, x1, x2, x3, x4] && s[1] == [x4, x0, x1, x2, x3]
      && s[2] == [x3, x4, x0, x1, x2] && s[3] == [x2, x3, x4, x0, x1]
      && s[4] == [x1, x2, x3, x4, x0]
  {
    var a, b1, b2 := [x0, x1, x2, x3, x4], [x4, x0, x1, x2, x3], [x3, x4, x0, x1, x2];
    var b3, b4 := [x2, x3, x4, x0, x1], [x1, x2, x3, x4, x0];
    Next5(x0, x1, x2, x3, x4, 0);
    Next5(x4, x0, x1, x2, x3, 1);
    Next5(x3, x4, x0, x1, x2, 2);
    Next5(x2, x3, x4, x0, x1, 3);
    StartsShift(b3, 5, 3, b4, 1);
    StartsShift(b2, 5, 2, b3, 1);
    StartsShift(b2, 5, 2, b3, 2);
    StartsShift(b1, 5, 1, b2, 1);
    StartsShift(b1, 5, 1, b2, 2);
    StartsShift(b1, 5, 1, b2, 3);
    StartsShift(a, 5, 0, b1, 1);
    StartsShift(a, 5, 0, b1, 2);
    StartsShift(a, 5, 0, b1, 3);
    StartsShift(a, 5, 0, b1, 4);
  }

  /** Five slots: each iteration rotates all five right by one, so the
      generator leaves its array as it found it. */
  lemma Settle5(x0: nat, x1: nat, x2: nat, x3: nat, x4: nat)
    ensures Settle([x0, x1, x2, x3, x4], 5) == [x0, x1, x2, x3, x4]
  {
    var a, b1, b2 := [x0, x1, x2, x3, x4], [x4, x0, x1, x2, x3], [x3, x4, x0, x1, x2];
    var b3, b4 := [x2, x3, x4, x0, x1], [x1, x2, x3, x4, x0];
    Next5(x0, x1, x2, x3, x4, 0);
    Next5(x4, x0, x1, x2, x3, 1);
    Next5(x3, x4, x0, x1, x2, 2);
    Next5(x2, x3, x4, x0, x1, 3);
    Next5(x1, x2, x3, x4, x0, 4);
    LoopEnd(a, 5);
    SettleStep(b4, 5, 4, a, a);
    SettleStep(b3, 5, 3, b4, a);
    SettleStep(b2, 5, 2, b3, a);
    SettleStep(b1, 5, 1, b2, a);
    SettleStep(a, 5, 0, b1, a);
  }

  /** `SlotsDiffer` for three, four and five start arrangements, from the values in slot `n - 1`. */
  lemma Column3(s: seq<Order>, n: nat, c0: nat, c1: nat, c2: nat)
    requires n >= 1 && |s| == 3 && c0 != c1 && c0 != c2 && c1 != c2
    requires |s[0]| >= n && |s[1]| >= n && |s[2]| >= n
    requires s[0][n - 1] == c0 && s[1][n - 1] == c1 && s[2][n - 1] == c2
    ensures SlotsDiffer(s, n)
  {
  }

  lemma Column4(s: seq<Order>, n: nat, c0: nat, c1: nat, c2: nat, c3: nat)
    requires n >= 1 && |s| == 4 && c0 != c1 && c0 != c2 && c0 != c3 && c1 != c2 && c1 != c3 && c2 != c3
    requires |s[0]| >= n && |s[1]| >= n && |s[2]| >= n && |s[3]| >= n
    requires s[0][n - 1] == c0 && s[1][n - 1] == c1 && s[2][n - 1] == c2 && s[3][n - 1] == c3
    ensures SlotsDiffer(s, n)
  {
  }

  lemma Column5(s: seq<Order>, n: nat, c0: nat, c1: nat, c2: nat, c3: nat, c4: nat)
    requires n >= 1 && |s| == 5
    requires c0 != c1 && c0 != c2 && c0 != c3 && c0 != c4 && c1 != c2
    requires c1 != c3 && c1 != c4 && c2 != c3 && c2 != c4 && c3 != c4
    requires |s[0]| >= n && |s[1]| >= n && |s[2]| >= n && |s[3]| >= n && |s[4]| >= n
    requires s[0][n - 1] == c0 && s[1][n - 1] == c1 && s[2][n - 1] == c2
    requires s[3][n - 1] == c3 && s[4][n - 1] == c4
    ensures SlotsDiffer(s, n)
  {
  }

  lemma Differ2(a: Order, n: nat, x0: nat, x1: nat, x2: nat, x3: nat, x4: nat)
    requires a == [x0, x1, x2, x3, x4] && n == 2
    requires x0 != x1
    ensures SlotsDiffer(Starts(a, n, 0), n)
  {
    Settle2(x0, x1, x2, x3, x4);
  }

  lemma Differ3(a: Order, n: nat, x0: nat, x1: nat, x2: nat, x3: nat, x4: nat)
    requires a == [x0, x1, x2, x3, x4] && n == 3
    requires x0 != x1 && x0 != x2 && x1 != x2
    ensures SlotsDiffer(Starts(a, n, 0), n)
  {
    Starts3(x0, x1, x2, x3, x4);
    var s := Starts(a, 3, 0);
    Column3(s, n, x2, x1, x0);
  }

  lemma Differ4(a: Order, n: nat, x0: nat, x1: nat, x2: nat, x3: nat, x4: nat)
    requires a == [x0, x1, x2, x3, x4] && n == 4
    requires x0 != x1 && x0 != x2 && x0 != x3 && x1 != x2 && x1 != x3 && x2 != x3
    ensures SlotsDiffer(Starts(a, n, 0), n)
  {
    Starts4(x0, x1, x2, x3, x4);
    var s := Starts(a, 4, 0);
    Column4(s, n, x3, x0, x1, x2);
  }

  lemma Differ5(a: Order, n: nat, x0: nat, x1: nat, x2: nat, x3: nat, x4: nat)
    requires a == [x0, x1, x2, x3, x4] && n == 5
    requires x0 != x1 && x0 != x2 && x0 != x3 && x0 != x4 && x1 != x2
    requires x1 != x3 && x1 != x4 && x2 != x3 && x2 != x4 && x3 != x4
    ensures SlotsDiffer(Starts(a, n, 0), n)
  {
    Starts5(x0, x1, x2, x3, x4);
    var s := Starts(a, 5, 0);
    Column5(s, n, x4, x3, x2, x1, x0);
  }

  lemma DistinctFive(a: Order)
    requires |a| == 5 && Distinct(a)
    ensures a[0] != a[1] && a[0] != a[2] && a[0] != a[3] && a[0] != a[4] && a[1] != a[2]
    ensures a[1] != a[3] && a[1] != a[4] && a[2] != a[3] && a[2] != a[4] && a[3] != a[4]
  {
  }

  /** On distinct values every level of the loop brings a new value into slot `n - 1`. */
  lemma SlotsDifferSmall(a: Order, n: nat)
    requires |a| == 5 && Distinct(a) && 2 <= n <= 5
    ensures SlotsDiffer(Starts(a, n, 0), n)
  {
    DistinctFive(a);
    Expand(a);
    if n == 2 {
      Differ2(a, n, a[0], a[1], a[2], a[3], a[4]);
    } else if n == 3 {
      Differ3(a, n, a[0], a[1], a[2], a[3], a[4]);
    } else if n == 4 {
      Differ4(a, n, a[0], a[1], a[2], a[3], a[4]);
    } else {
      Differ5(a, n, a[0], a[1], a[2], a[3], a[4]);
    }
  }

  lemma {:induction false} PermuteDistinct(arr: Order, n: nat)
    requires |arr| == 5 && Distinct(arr) && 1 <= n <= 5
    ensures DistinctOrders(Permute(arr, n))
    decreases n, 1
  {
    if n > 1 {
      SlotsDifferSmall(arr, n);
      RoundsDistinct(arr, n, 0);
    }
  }

  lemma {:induction false} RoundsDistinct(arr: Order, n: nat, i: nat)
    requires |arr| == 5 && Distinct(arr) && 2 <= n <= 5 && i <= n
    requires SlotsDiffer(Starts(arr, n, i), n)
    ensures DistinctOrders(Rounds(arr, n, i))
    decreases n, 0, n - i
  {
    if i < n {
      var nx := Next(arr, n, i);
      var starts, later := Starts(arr, n, i), Starts(nx, n, i + 1);
      assert starts == [arr] + later;
      assert SlotsDiffer(later, n) by {
        forall k, l | 0 <= k < l < |later|
          ensures |later[k]| >= n && |later[l]| >= n && later[k][n - 1] != later[l][n - 1]
        {
          assert later[k] == starts[k + 1] && later[l] == starts[l + 1];
        }
      }
      NextShape(arr, n, i);
      PermuteDistinct(arr, n - 1);
      RoundsDistinct(nx, n, i + 1);
      RoundsSlot(nx, n, i + 1);
      PermuteShape(arr, n - 1);
      var outs, rest := Permute(arr, n - 1), Rounds(nx, n, i + 1);
      forall o | o in rest ensures |o| >= n && o[n - 1] != arr[n - 1] {
        assert SlotFrom(o, later, n);
        var k :| 0 <= k < |later| && |o| >= n && |later[k]| >= n && o[n - 1] == later[k][n - 1];
        assert starts[0] == arr && starts[k + 1] == later[k];
      }
      forall o | o in outs ensures o !in rest {
        assert o[n - 1..][0] == arr[n - 1..][0];
      }
      DistinctConcat(outs, rest);
    }
  }

  // ----- the properties of the list -----

  /** Run on any permutation of the five slots, the generator emits 120
      distinct permutations, starting with its input. */
  lemma PermuteCount(a: Order)
    requires IsPermutation(a)
    ensures |Permute(a, Slots)| == 120
  {
    PermuteLength(a, 5);
  }

  lemma PermuteMembers(a: Order)
    requires IsPermutation(a)
    ensures forall o :: o in Permute(a, Slots) ==> IsPermutation(o)
  {
    PermuteShape(a, 5);
  }

  lemma PermuteStartsWithInput(a: Order)
    requires IsPermutation(a)
    ensures |Permute(a, Slots)| > 0 && Permute(a, Slots)[0] == a
  {
    PermuteFirst(a, 5);
  }

  lemma PermuteNoRepeats(a: Order)
    requires IsPermutation(a)
    ensures DistinctOrders(Permute(a, Slots))
  {
    PermuteDistinct(a, 5);
  }

  /** The generator leaves its array as it found it. */
  lemma PermuteRestores(a: Order)
    requires |a| == Slots
    ensures Settle(a, Slots) == a
  {
    Expand(a);
    Settle5(a[0], a[1], a[2], a[3], a[4]);
  }

  lemma IdentityIsPermutation()
    ensures Identity == [0, 1, 2, 3, 4] && IsPermutation(Identity)
  {
  }

  /** The order at any position of the list is a permutation of the five slots. */
  lemma OrderAt(k: nat)
    requires k < Watten.HandPermutations
    ensures k < |AllHandOrders()| && IsPermutation(AllHandOrders()[k])
  {
    AllHandOrdersFacts();
  }

  /** Order number `k` of the list; a permutation of the five slots. */
  function OrderNumber(k: nat): (o: Order)
    requires k < Watten.HandPermutations
    ensures IsPermutation(o)
  {
    OrderAt(k);
    AllHandOrders()[k]
  }

  lemma FirstOrderNumber(k: nat)
    requires k == 0
    ensures OrderNumber(k) == Identity
  {
    AllHandOrdersFacts();
  }

  lemma SecondOrderNumber(k: nat)
    requires k == 1
    ensures OrderNumber(k) == [1, 0, 2, 3, 4]
  {
    SecondOrder();
  }

  /** 120 orders, each a permutation of the five slots, the identity first,
      no order twice; the generator leaves its array as it found it. */
  lemma AllHandOrdersFacts()
    ensures |AllHandOrders()| == Watten.HandPermutations
    ensures forall o :: o in AllHandOrders() ==> IsPermutation(o)
    ensures AllHandOrders()[0] == Identity
    ensures DistinctOrders(AllHandOrders())
    ensures Settle(Identity, Slots) == Identity
  {
    IdentityIsPermutation();
    PermuteCount(Identity);
    PermuteMembers(Identity);
    PermuteStartsWithInput(Identity);
    PermuteNoRepeats(Identity);
    PermuteRestores(Identity);
  }

  /** `permute(arr, n + 1)` begins with everything `permute(arr, n)` emits. */
  lemma PermutePrefix(arr: Order, n: nat, k: nat)
    requires 1 <= n < |arr| && k < |Permute(arr, n)|
    ensures k < |Permute(arr, n + 1)| && Permute(arr, n + 1)[k] == Permute(arr, n)[k]
  {
    assert Permute(arr, n + 1) == Permute(arr, n) + Rounds(Next(arr, n + 1, 0), n + 1, 1);
  }

  lemma PermuteTwo(x0: nat, x1: nat, x2: nat, x3: nat, x4: nat)
    ensures |Permute([x0, x1, x2, x3, x4], 2)| == 2
    ensures Permute([x0, x1, x2, x3, x4], 2)[1] == [x1, x0, x2, x3, x4]
  {
    var a, b := [x0, x1, x2, x3, x4], [x1, x0, x2, x3, x4];
    Next2(x0, x1, x2, x3, x4, 0);
    SwapToLast(a, 0, 1);
    assert Permute(a, 2) == [a] + Rounds(b, 2, 1);
    assert Rounds(b, 2, 1) == [b] + Rounds(Next(b, 2, 1), 2, 2);
  }

  /** The second order the generator emits: slots 0 and 1 exchanged. */
  lemma SecondOrder()
    ensures |AllHandOrders()| > 1 && AllHandOrders()[1] == [1, 0, 2, 3, 4]
  {
    IdentityIsPermutation();
    var a := Identity;
    PermuteTwo(0, 1, 2, 3, 4);
    PermutePrefix(a, 2, 1);
    PermutePrefix(a, 3, 1);
    PermutePrefix(a, 4, 1);
  }
}
