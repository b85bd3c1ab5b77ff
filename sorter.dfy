/**
 * The interactive binary-insertion sorter of src/utils/sorter.js.
 *
 * The sorter places items one at a time. For the item at index `i` it keeps a
 * search window [lo, hi) into the already sorted prefix, asks the respondent
 * to compare the item with the pivot `sorted[mid]`, narrows the window with the
 * answer and, once the window is empty, splices the item in at `lo`.
 */
module Sorter {
  import opened Wrappers

  /** `s.splice(k, 0, x)`: x inserted at position k. */
  function Insert<T>(s: seq<T>, k: nat, x: T): (r: seq<T>)
    requires k <= |s|
    ensures |r| == |s| + 1 && r[k] == x
    ensures forall j :: 0 <= j < k ==> r[j] == s[j]
    ensures forall j :: k <= j < |s| ==> r[j + 1] == s[j]
    ensures multiset(r) == multiset(s) + multiset{x}
  {
    assert s == s[..k] + s[k..];
    s[..k] + [x] + s[k..]
  }

  class BinarySorter<T(==)> {
    const items: seq<T>
    var sorted: seq<T>
    var i: int
    var lo: int
    var hi: int
    var mid: int
    /** The number of answers recorded so far, that is, the comparisons asked of the respondent. */
    ghost var asked: nat

    /** `sorted` holds exactly the first i items, in some order. */
    ghost predicate Placed()
      reads this
    {
      0 < i <= |items| && |sorted| == i && multiset(sorted) == multiset(items[..i])
    }

    /** items[i] is being placed somewhere in the window [lo, hi) of `sorted`. */
    ghost predicate Placing()
      reads this
    {
      Placed() && i < |items| && 0 <= lo <= hi <= |sorted|
    }

    /** A pair is outstanding: the window is not empty and `mid` is its midpoint. */
    ghost predicate Searching()
      reads this
    {
      Placing() && lo < hi && mid == (lo + hi) / 2
    }

    /** Every item has been placed: `sorted` is a permutation of `items`. */
    ghost predicate Done()
      reads this
    {
      Placed() && i == |items| && multiset(sorted) == multiset(items)
    }

    /** The state between calls. */
    ghost predicate Valid()
      reads this
    {
      Searching() || Done()
    }

    /** The outstanding pair: the new item on the left, the pivot on the right. */
    function Current(): (p: (T, T))
      reads this
      requires Searching()
      ensures p.0 == items[i] && p.1 == sorted[mid] && lo <= mid < hi
    {
      (items[i], sorted[mid])
    }

    /**
     * The state an answer leaves behind, given the state before it: `winner`
     * answered the pair at `mid0` of the window [lo0, hi0) while the item of
     * index `at` was placed into `prev`. A win for that item keeps
     * [lo0, mid0), any other value keeps [mid0 + 1, hi0); a window left empty
     * places the item there.
     */
    ghost predicate Answered(prev: seq<T>, at: int, lo0: int, hi0: int, mid0: int, winner: T, p: Option<(T, T)>)
      reads this
      requires 0 <= at < |items| && 0 <= lo0 <= mid0 < hi0 <= |prev|
    {
      var lo' := if winner == items[at] then lo0 else mid0 + 1;
      var hi' := if winner == items[at] then mid0 else hi0;
      if lo' < hi' then
        sorted == prev && i == at && lo == lo' && hi == hi' && Searching() && p == Some(Current())
      else
        Advanced(prev, at, lo', p)
    }

    /**
     * What a completed placement leaves behind: `prev` with the item of index
     * `placed` spliced in at `at`, the cursor one further, and either the first
     * pair for the next item or, when no item is left, completion.
     */
    ghost predicate Advanced(prev: seq<T>, placed: int, at: int, p: Option<(T, T)>)
      reads this
      requires 0 <= placed < |items| && 0 <= at <= |prev|
    {
      && sorted == Insert(prev, at, items[placed])
      && i == placed + 1
      && (p.None? <==> i == |items|)
      && (p.None? ==> Done())
      && (p.Some? ==> Searching() && lo == 0 && hi == |sorted| && p.value == Current())
    }

    constructor (items: seq<T>)
      ensures this.items == items
      ensures sorted == [] && i == 0 && lo == 0 && hi == 0 && mid == 0 && asked == 0
    {
      this.items := items;
      sorted := [];
      i := 0;
      lo := 0;
      hi := 0;
      mid := 0;
      asked := 0;
    }

    /** Seeds `sorted` with the first item and asks for the first pair. */
    method Start() returns (p: Option<(T, T)>)
      requires sorted == [] && i == 0 && |items| >= 1
      modifies this
      ensures Valid()
      ensures p.None? <==> |items| == 1
      ensures p.None? ==> sorted == items
      ensures asked == old(asked)
      ensures p.Some? ==> sorted == [items[0]] && lo == 0 && hi == 1 && p.value == (items[1], items[0])
    {
      sorted := sorted + [items[0]];
      i := 1;
      assert items[..1] == [items[0]];
      p := NextPair();
      if p.None? {
        assert items == items[..1];
      }
    }

    /** Opens the full window for the next unplaced item, or reports completion. */
    method NextPair() returns (p: Option<(T, T)>)
      requires Placed()
      modifies this
      ensures Valid()
      ensures sorted == old(sorted) && i == old(i) && asked == old(asked)
      ensures p.None? <==> i == |items|
      ensures p.Some? ==> lo == 0 && hi == |sorted| && Searching() && p.value == Current()
    {
      if i >= |items| {
        assert items[..i] == items;
        return None;
      }
      lo := 0;
      hi := |sorted|;
      p := Step();
    }

    /**
     * With a non-empty window, the pair for its midpoint; with an empty one,
     * the item is spliced in at `lo` and the next item's first pair follows.
     * The source's step/nextPair tail recursion is the loop below.
     */
    method Step() returns (p: Option<(T, T)>)
      requires Placing()
      modifies this
      ensures Valid() && asked == old(asked)
      ensures old(lo) < old(hi) ==>
        sorted == old(sorted) && i == old(i) && lo == old(lo) && hi == old(hi)
        && Searching() && p == Some(Current())
      ensures old(lo) >= old(hi) ==> Advanced(old(sorted), old(i), old(lo), p)
    {
      while lo >= hi
        invariant Placing()
        invariant i == old(i) ==> sorted == old(sorted) && lo == old(lo) && hi == old(hi)
        invariant i != old(i) ==>
          && old(lo) >= old(hi) && i == old(i) + 1
          && sorted == Insert(old(sorted), old(lo), items[old(i)])
          && lo == 0 && hi == |sorted|
        modifies this`sorted, this`i, this`lo, this`hi
        decreases |items| - i
      {
        // insert and advance
        assert items[..i + 1] == items[..i] + [items[i]];
        sorted := Insert(sorted, lo, items[i]);
        i := i + 1;
        // the next item's window, as nextPair opens it
        if i >= |items| {
          assert items[..i] == items;
          return None;
        }
        lo, hi := 0, |sorted|;
      }
      mid := (lo + hi) / 2;
      p := Some((items[i], sorted[mid]));
    }

    /**
     * The respondent's answer to the outstanding pair: a win for the new item
     * keeps the lower half [lo, mid), any other value keeps [mid + 1, hi).
     */
    method Record(winner: T) returns (p: Option<(T, T)>)
      requires Searching()
      modifies this
      ensures Valid()
      ensures i == old(i) ==> hi - lo < old(hi) - old(lo)
      ensures Answered(old(sorted), old(i), old(lo), old(hi), old(mid), winner, p)
      ensures asked == old(asked) + 1
    {
      var current := items[i];
      asked := asked + 1;
      if winner == current {
        hi := mid;
      } else {
        lo := mid + 1;
      }
      p := Step();
    }
  }

  /**
   * The window part of an answer, on values: a win for the item of index `at`
   * keeps [lo0, mid0), any other winner keeps [mid0 + 1, hi0), and a window
   * left empty splices the item into `prev` there and moves to the next item.
   */
  ghost predicate Narrowed<T>(items: seq<T>, prev: seq<T>, at: int, lo0: int, hi0: int, mid0: int, winner: T,
                              sorted: seq<T>, i: int, lo: int, hi: int)
    requires 0 <= at < |items| && 0 <= lo0 <= mid0 < hi0 <= |prev|
  {
    var lo' := if winner == items[at] then lo0 else mid0 + 1;
    var hi' := if winner == items[at] then mid0 else hi0;
    if lo' < hi' then
      sorted == prev && i == at && lo == lo' && hi == hi'
    else
      sorted == Insert(prev, lo', items[at]) && i == at + 1
  }

  /** The state Record leaves has the window Narrowed describes. */
  lemma AnsweredNarrows<T>(s: BinarySorter<T>, prev: seq<T>, at: int, lo0: int, hi0: int, mid0: int,
                           winner: T, p: Option<(T, T)>)
    requires 0 <= at < |s.items| && 0 <= lo0 <= mid0 < hi0 <= |prev|
    requires s.Answered(prev, at, lo0, hi0, mid0, winner, p)
    ensures Narrowed(s.items, prev, at, lo0, hi0, mid0, winner, s.sorted, s.i, s.lo, s.hi)
  {
  }

  /** No value occurs twice. */
  ghost predicate Distinct<T>(s: seq<T>) {
    forall j, k :: 0 <= j < k < |s| ==> s[j] != s[k]
  }

  /** `better` is a strict total order on the values of xs. */
  ghost predicate StrictOrderOn<T>(better: (T, T) -> bool, xs: seq<T>) {
    && (forall a, b :: a in xs && b in xs && a != b ==> better(a, b) || better(b, a))
    && (forall a, b :: a in xs && b in xs && better(a, b) ==> !better(b, a))
    && (forall a, b, c :: a in xs && b in xs && c in xs && better(a, b) && better(b, c) ==> better(a, c))
  }

  /** Every entry is preferred to every later one. */
  ghost predicate RankedBy<T>(better: (T, T) -> bool, s: seq<T>) {
    forall j, k :: 0 <= j < k < |s| ==> better(s[j], s[k])
  }

  /** The window facts while x is placed into s: all before lo are preferred to x, x to all from hi on. */
  ghost predicate Window<T>(better: (T, T) -> bool, s: seq<T>, x: T, lo: int, hi: int) {
    && (forall k :: 0 <= k < lo && k < |s| ==> better(s[k], x))
    && (forall k :: hi <= k < |s| && 0 <= k ==> better(x, s[k]))
  }

  /** The number of binary digits of n, that is, the ceiling of log2(n + 1). */
  function BitLength(n: nat): nat {
    if n == 0 then 0 else 1 + BitLength(n / 2)
  }

  function Pow2(e: nat): nat {
    if e == 0 then 1 else 2 * Pow2(e - 1)
  }

  /** BitLength(n) is the b with 2^(b-1) <= n < 2^b: the ceiling of log2(n + 1). */
  lemma {:induction false} BitLengthIsLog2(n: nat)
    ensures n == 0 <==> BitLength(n) == 0
    ensures n > 0 ==> Pow2(BitLength(n) - 1) <= n < Pow2(BitLength(n))
  {
    if n > 1 {
      BitLengthIsLog2(n / 2);
    }
  }

  lemma {:induction false} BitLengthMonotone(m: nat, n: nat)
    requires m <= n
    ensures BitLength(m) <= BitLength(n)
    decreases n
  {
    if m > 0 {
      BitLengthMonotone(m / 2, n / 2);
    }
  }

  function Sum(costs: seq<nat>): nat {
    if costs == [] then 0 else Sum(costs[..|costs| - 1]) + costs[|costs| - 1]
  }

  /**
   * Placing the items after the first with between 1 and BitLength(k + 1)
   * comparisons each, as RankBy does, costs n - 1 to (n - 1) * ceil(log2 n)
   * comparisons for n items.
   */
  lemma {:induction false} TotalCostBounds(costs: seq<nat>)
    requires forall k :: 0 <= k < |costs| ==> 1 <= costs[k] <= BitLength(k + 1)
    ensures |costs| <= Sum(costs)
    ensures Sum(costs) <= |costs| * BitLength(|costs|)
  {
    if costs != [] {
      var n := |costs|;
      var prefix := costs[..n - 1];
      assert forall k :: 0 <= k < |prefix| ==> prefix[k] == costs[k];
      TotalCostBounds(prefix);
      assert Sum(costs) == Sum(prefix) + costs[n - 1];
      BitLengthMonotone(n - 1, n);
      var b, b' := BitLength(n), BitLength(n - 1);
      MulMonotone(n - 1, b', b);
      MulSucc(n - 1, b);
    }
  }

  lemma MulMonotone(a: nat, x: nat, y: nat)
    requires x <= y
    ensures a * x <= a * y
  {
  }

  lemma MulSucc(a: nat, b: nat)
    ensures (a + 1) * b == a * b + b
  {
  }

  /** Splicing x in where everything before is preferred to it and it to everything after keeps the ranking. */
  lemma InsertKeepsRanked<T>(better: (T, T) -> bool, s: seq<T>, k: nat, x: T)
    requires k <= |s| && RankedBy(better, s)
    requires forall j :: 0 <= j < k ==> better(s[j], x)
    requires forall j :: k <= j < |s| ==> better(x, s[j])
    ensures RankedBy(better, Insert(s, k, x))
  {
    var r := Insert(s, k, x);
    forall a, b | 0 <= a < b < |r| ensures better(r[a], r[b]) {
      if b < k {
      } else if a < k && b == k {
      } else if a < k {
        assert r[b] == s[b - 1];
      } else if a == k {
        assert r[b] == s[b - 1];
      } else {
        assert r[a] == s[a - 1] && r[b] == s[b - 1];
      }
    }
  }

  /**
   * The respondent of RankBy: it names the item that `better` prefers.
   */
  function Prefer<T>(better: (T, T) -> bool, p: (T, T)): (w: T)
    ensures w == p.0 || w == p.1
    ensures better(p.0, p.1) ==> w == p.0
    ensures !better(p.0, p.1) ==> w == p.1
  {
    if better(p.0, p.1) then p.0 else p.1
  }

  /**
   * What RankBy keeps between answers, on the sorter's values: the placed
   * prefix is ranked, every finished item's cost is within its bound, and
   * while a pair is outstanding the window facts hold and the comparisons
   * spent on the current item plus those the window can still take stay
   * within BitLength(i).
   */
  ghost predicate Progress<T>(better: (T, T) -> bool, items: seq<T>, sorted: seq<T>, i: int, lo: int, hi: int,
                              searching: bool, costs: seq<nat>, c: nat)
  {
    && RankedBy(better, sorted)
    && |costs| == i - 1
    && (forall k :: 0 <= k < |costs| ==> 1 <= costs[k] <= BitLength(k + 1))
    && (searching ==>
          && 0 <= i < |items| && 0 <= lo <= hi <= |sorted|
          && Window(better, sorted, items[i], lo, hi)
          && c + BitLength(hi - lo) <= BitLength(i))
  }

  /** Appending one item's cost adds it to the total. */
  lemma SumAppend(costs: seq<nat>, x: nat)
    ensures Sum(costs + [x]) == Sum(costs) + x
  {
    assert (costs + [x])[..|costs|] == costs;
  }

  /**
   * Drives a sorter with answers from a fixed strict order. The result ranks
   * preferred items first and is a permutation of the items. `costs[k]` is the
   * number of comparisons that placing the item of index k + 1 took, between 1
   * and ceil(log2(k + 2)), and together they are every answer the returned
   * sorter recorded.
   */
  method RankBy<T(==)>(items: seq<T>, better: (T, T) -> bool)
      returns (ranking: seq<T>, costs: seq<nat>, sorter: BinarySorter<T>)
    requires |items| >= 1 && Distinct(items) && StrictOrderOn(better, items)
    ensures multiset(ranking) == multiset(items)
    ensures RankedBy(better, ranking)
    ensures |costs| == |items| - 1
    ensures forall k :: 0 <= k < |costs| ==> 1 <= costs[k] <= BitLength(k + 1)
    ensures sorter.items == items && sorter.Done() && ranking == sorter.sorted
    ensures Sum(costs) == sorter.asked
  {
    sorter := new BinarySorter(items);
    var p := sorter.Start();
    costs := [];
    var c: nat := 0;
    while p.Some?
      invariant sorter.items == items && sorter.Valid()
      invariant p.Some? <==> sorter.Searching()
      invariant p.Some? ==> p.value == sorter.Current()
      invariant Progress(better, items, sorter.sorted, sorter.i, sorter.lo, sorter.hi, p.Some?, costs, c)
      invariant sorter.asked == Sum(costs) + c && (p.None? ==> c == 0)
      decreases |items| - sorter.i, sorter.hi - sorter.lo
    {
      ghost var costs0 := costs;
      p, costs, c := AnswerBy(sorter, better, p.value, costs, c);
      if costs != costs0 {
        SumAppend(costs0, costs[|costs| - 1]);
      }
    }
    ranking := sorter.sorted;
  }

  /**
   * One round of RankBy: the respondent answers the outstanding pair, the
   * sorter records the answer, and the comparison count of the current item
   * grows by one or, when the item was placed, is filed in `costs`.
   */
  method AnswerBy<T(==)>(sorter: BinarySorter<T>, better: (T, T) -> bool, pair: (T, T), costs: seq<nat>, c: nat)
      returns (p: Option<(T, T)>, costs': seq<nat>, c': nat)
    requires Distinct(sorter.items) && StrictOrderOn(better, sorter.items)
    requires sorter.Searching() && pair == sorter.Current()
    requires Progress(better, sorter.items, sorter.sorted, sorter.i, sorter.lo, sorter.hi, true, costs, c)
    modifies sorter
    ensures sorter.Valid() && (p.Some? <==> sorter.Searching()) && (p.Some? ==> p.value == sorter.Current())
    ensures Progress(better, sorter.items, sorter.sorted, sorter.i, sorter.lo, sorter.hi, p.Some?, costs', c')
    ensures old(sorter.i) < sorter.i || (sorter.i == old(sorter.i) && sorter.hi - sorter.lo < old(sorter.hi - sorter.lo))
    ensures sorter.asked == old(sorter.asked) + 1
    ensures sorter.i == old(sorter.i) ==> costs' == costs && c' == c + 1
    ensures sorter.i != old(sorter.i) ==> costs' == costs + [c + 1] && c' == 0
  {
    var i0 := sorter.i;
    ghost var s0, lo0, hi0, mid0 := sorter.sorted, sorter.lo, sorter.hi, sorter.mid;
    var winner := Prefer(better, pair);
    p := sorter.Record(winner);
    if sorter.i == i0 {
      costs', c' := costs, c + 1;
    } else {
      costs', c' := costs + [c + 1], 0;
    }
    AnswerKeepsProgress(sorter, better, s0, i0, lo0, hi0, mid0, winner, p, costs, c, costs', c');
  }

  /**
   * AnswerBy's step on the sorter's state after Record: the answer keeps
   * Progress, with the item's count grown by one or filed in the costs.
   */
  lemma AnswerKeepsProgress<T>(sorter: BinarySorter<T>, better: (T, T) -> bool,
                               s0: seq<T>, i0: int, lo0: int, hi0: int, mid0: int, winner: T, p: Option<(T, T)>,
                               costs: seq<nat>, c: nat, costs': seq<nat>, c': nat)
    requires Distinct(sorter.items) && StrictOrderOn(better, sorter.items)
    requires 0 <= i0 < |sorter.items| && |s0| == i0 && multiset(s0) == multiset(sorter.items[..i0])
    requires 0 <= lo0 <= mid0 < hi0 <= |s0| && mid0 == (lo0 + hi0) / 2
    requires Progress(better, sorter.items, s0, i0, lo0, hi0, true, costs, c)
    requires winner == Prefer(better, (sorter.items[i0], s0[mid0]))
    requires sorter.Answered(s0, i0, lo0, hi0, mid0, winner, p)
    requires sorter.i == i0 ==> costs' == costs && c' == c + 1
    requires sorter.i != i0 ==> costs' == costs + [c + 1] && c' == 0
    ensures sorter.Valid() && (p.Some? <==> sorter.Searching()) && (p.Some? ==> p.value == sorter.Current())
    ensures Progress(better, sorter.items, sorter.sorted, sorter.i, sorter.lo, sorter.hi, p.Some?, costs', c')
    ensures i0 < sorter.i || (sorter.i == i0 && sorter.hi - sorter.lo < hi0 - lo0)
  {
    var lo' := if winner == sorter.items[i0] then lo0 else mid0 + 1;
    var hi' := if winner == sorter.items[i0] then mid0 else hi0;
    if lo' < hi' {
      assert sorter.sorted == s0 && sorter.i == i0 && sorter.lo == lo' && sorter.hi == hi' && p.Some?;
    } else {
      assert sorter.Advanced(s0, i0, lo', p);
      assert sorter.sorted == Insert(s0, lo', sorter.items[i0]) && sorter.i == i0 + 1;
    }
    OneAnswer(better, sorter.items, s0, i0, lo0, hi0, mid0, costs, c, winner,
              sorter.sorted, sorter.i, sorter.lo, sorter.hi, p.Some?, costs', c');
  }

  /**
   * One answer from a respondent who follows `better`, applied as Record
   * applies it, keeps Progress: the window facts survive the narrowing, the
   * window at least halves, and a completed item is spliced in between the
   * entries it loses to and those it beats.
   */
  lemma OneAnswer<T>(better: (T, T) -> bool, items: seq<T>,
                     s: seq<T>, i: int, lo: int, hi: int, mid: int, costs: seq<nat>, c: nat, winner: T,
                     s1: seq<T>, i1: int, lo1: int, hi1: int, searching1: bool, costs1: seq<nat>, c1: nat)
    requires StrictOrderOn(better, items) && Distinct(items)
    requires Progress(better, items, s, i, lo, hi, true, costs, c)
    requires |s| == i && multiset(s) == multiset(items[..i]) && lo < hi && mid == (lo + hi) / 2
    requires winner == Prefer(better, (items[i], s[mid]))
    requires
      var lo' := if winner == items[i] then lo else mid + 1;
      var hi' := if winner == items[i] then mid else hi;
      if lo' < hi' then
        s1 == s && i1 == i && lo1 == lo' && hi1 == hi' && searching1 && costs1 == costs && c1 == c + 1
      else
        && s1 == Insert(s, lo', items[i]) && i1 == i + 1 && costs1 == costs + [c + 1] && c1 == 0
        && (searching1 ==> i1 < |items| && lo1 == 0 && hi1 == |s1|)
    ensures Progress(better, items, s1, i1, lo1, hi1, searching1, costs1, c1)
  {
    var x := items[i];
    NewItemIsNotPlaced(items, s, i);
    Narrow(better, items, s, x, lo, hi, mid);
    var newWins := better(x, s[mid]);
    assert winner == x <==> newWins by {
      if !newWins {
        assert s[mid] != x;
      }
    }
    var lo' := if newWins then lo else mid + 1;
    var hi' := if newWins then mid else hi;
    HalvedWindow(lo, hi, mid, lo', hi');
    assert Window(better, s, x, lo', hi');
    if lo' >= hi' {
      PlacedKeepsProgress(better, items, s, i, lo', costs, c, s1, i1, lo1, hi1, searching1, costs1, c1);
    }
  }

  /**
   * The item of index i spliced in at k, where everything before k beats it and
   * it beats everything after: the ranking extends, its cost c + 1 is filed,
   * and the next item starts with the full window and no comparisons yet.
   */
  lemma PlacedKeepsProgress<T>(better: (T, T) -> bool, items: seq<T>, s: seq<T>, i: int, k: int,
                               costs: seq<nat>, c: nat,
                               s1: seq<T>, i1: int, lo1: int, hi1: int, searching1: bool, costs1: seq<nat>, c1: nat)
    requires 0 <= i < |items| && |s| == i && 0 <= k <= |s| && RankedBy(better, s)
    requires Window(better, s, items[i], k, k)
    requires |costs| == i - 1 && forall j :: 0 <= j < |costs| ==> 1 <= costs[j] <= BitLength(j + 1)
    requires c + 1 <= BitLength(i)
    requires s1 == Insert(s, k, items[i]) && i1 == i + 1 && costs1 == costs + [c + 1] && c1 == 0
    requires searching1 ==> i1 < |items| && lo1 == 0 && hi1 == |s1|
    ensures Progress(better, items, s1, i1, lo1, hi1, searching1, costs1, c1)
  {
    InsertKeepsRanked(better, s, k, items[i]);
    assert costs1[|costs|] == c + 1;
    assert forall j :: 0 <= j < |costs| ==> costs1[j] == costs[j];
  }

  /** The item being placed is none of those already placed. */
  lemma NewItemIsNotPlaced<T>(items: seq<T>, sorted: seq<T>, i: int)
    requires Distinct(items) && 0 <= i < |items| && multiset(sorted) == multiset(items[..i])
    ensures forall k :: 0 <= k < |sorted| ==> sorted[k] in items && sorted[k] != items[i]
  {
    forall k | 0 <= k < |sorted| ensures sorted[k] in items && sorted[k] != items[i] {
      assert sorted[k] in multiset(items[..i]);
      var j :| 0 <= j < i && items[j] == sorted[k];
    }
  }

  /** A truthful answer keeps the window facts: all before lo beat x, x beats all from hi. */
  lemma Narrow<T>(better: (T, T) -> bool, items: seq<T>, s: seq<T>, x: T, lo: int, hi: int, mid: int)
    requires StrictOrderOn(better, items) && RankedBy(better, s)
    requires x in items && forall k :: 0 <= k < |s| ==> s[k] in items && s[k] != x
    requires 0 <= lo <= mid < hi <= |s|
    requires forall k :: 0 <= k < lo ==> better(s[k], x)
    requires forall k :: hi <= k < |s| ==> better(x, s[k])
    ensures better(x, s[mid]) ==> forall k :: mid <= k < |s| ==> better(x, s[k])
    ensures !better(x, s[mid]) ==> forall k :: 0 <= k < mid + 1 ==> better(s[k], x)
  {
    if better(x, s[mid]) {
      forall k | mid < k < |s| ensures better(x, s[k]) {
        assert better(s[mid], s[k]);
      }
    } else {
      assert better(s[mid], x);
      forall k | 0 <= k < mid ensures better(s[k], x) {
        assert better(s[k], s[mid]);
      }
    }
  }

  /** Either half left after a comparison is at most half the window. */
  lemma HalvedWindow(lo: int, hi: int, mid: int, lo': int, hi': int)
    requires lo < hi && mid == (lo + hi) / 2
    requires (lo' == lo && hi' == mid) || (lo' == mid + 1 && hi' == hi)
    ensures 0 <= hi' - lo' <= (hi - lo) / 2
    ensures BitLength(hi' - lo') + 1 <= BitLength(hi - lo)
  {
    BitLengthMonotone(hi' - lo', (hi - lo) / 2);
  }

  /**
   * Two rankings of the same values by the same strict order are equal: the
   * sorter's result under a consistent respondent is the order itself.
   */
  lemma {:induction false} RankingIsUnique<T>(better: (T, T) -> bool, r1: seq<T>, r2: seq<T>)
    requires StrictOrderOn(better, r1)
    requires multiset(r1) == multiset(r2)
    requires RankedBy(better, r1) && RankedBy(better, r2)
    ensures r1 == r2
  {
    if r1 != [] {
      assert |r2| == |r1| by {
        assert |multiset(r1)| == |multiset(r2)|;
      }
      assert r2[0] in multiset(r1);
      assert r1[0] in multiset(r2);
      assert r1[0] == r2[0];
      assert r1 == [r1[0]] + r1[1..];
      assert r2 == [r2[0]] + r2[1..];
      assert multiset(r1[1..]) == multiset(r1) - multiset{r1[0]};
      assert multiset(r2[1..]) == multiset(r2) - multiset{r2[0]};
      RankingIsUnique(better, r1[1..], r2[1..]);
    }
  }
}
