/** The per-symbol order-book filter and throttle. */
module BookThrottle {

  const MIN_BOOK_PROCESS_INTERVAL_NS := 200_000_000

  /** An order book as the filter sees it; an empty side makes the mid zero or the spread non-finite. */
  datatype Book = Book(symbol: string, mid: real, spreadFinite: bool, receiveNs: int) {
    predicate Valid() { mid > 0.0 && spreadFinite }
  }

  datatype Throttle = Throttle(lastReceive: map<string, int>, processed: map<string, nat>, invalid: nat)

  const EMPTY_THROTTLE := Throttle(map[], map[], 0)

  datatype Outcome = Dropped | Invalid | Throttled | Processed

  function LastReceive(st: Throttle, s: string): int {
    if s in st.lastReceive then st.lastReceive[s] else 0
  }

  function ProcessedCount(st: Throttle, s: string): nat {
    if s in st.processed then st.processed[s] else 0
  }

  function Offer(active: set<string>, st: Throttle, b: Book): (Throttle, Outcome) {
    if b.symbol !in active then (st, Dropped)
    else if !b.Valid() then (st.(invalid := st.invalid + 1), Invalid)
    else if b.receiveNs - LastReceive(st, b.symbol) < MIN_BOOK_PROCESS_INTERVAL_NS then (st, Throttled)
    else (st.(lastReceive := st.lastReceive[b.symbol := b.receiveNs],
              processed := st.processed[b.symbol := ProcessedCount(st, b.symbol) + 1]), Processed)
  }

  /** What happens to a book: it is not followed, has no positive mid or no finite spread, comes too soon, or counts. */
  lemma OfferExactly(active: set<string>, st: Throttle, b: Book)
    ensures var (after, o) := Offer(active, st, b);
            var usable := b.mid > 0.0 && b.spreadFinite;
            var soon := b.receiveNs < LastReceive(st, b.symbol) + 200_000_000;
            && (o == Dropped <==> b.symbol !in active)
            && (o == Invalid <==> b.symbol in active && !usable)
            && (o == Throttled <==> b.symbol in active && usable && soon)
            && (o == Processed <==> b.symbol in active && usable && !soon)
            && after.invalid == st.invalid + (if o == Invalid then 1 else 0)
  {
  }

  /** The skipped books counted are the unusable ones of the symbols followed. */
  lemma {:induction false} InvalidCounted(active: set<string>, bs: seq<Book>)
    ensures Run(active, bs).invalid == Unusable(active, bs)
  {
    if bs != [] {
      InvalidCounted(active, bs[..|bs| - 1]);
    }
  }

  function Unusable(active: set<string>, bs: seq<Book>): nat {
    if bs == [] then 0
    else
      var b := bs[|bs| - 1];
      Unusable(active, bs[..|bs| - 1])
      + (if b.symbol in active && (b.mid <= 0.0 || !b.spreadFinite) then 1 else 0)
  }

  function Run(active: set<string>, bs: seq<Book>): Throttle {
    if bs == [] then EMPTY_THROTTLE
    else Offer(active, Run(active, bs[..|bs| - 1]), bs[|bs| - 1]).0
  }

  /** The receive times of one symbol's processed books. */
  function ProcessedTimes(active: set<string>, bs: seq<Book>, s: string): seq<int> {
    if bs == [] then []
    else
      var k := |bs| - 1;
      if bs[k].symbol == s && Offer(active, Run(active, bs[..k]), bs[k]).1.Processed?
      then ProcessedTimes(active, bs[..k], s) + [bs[k].receiveNs]
      else ProcessedTimes(active, bs[..k], s)
  }

  /** The receive times of one symbol's valid books. */
  function ValidTimes(bs: seq<Book>, s: string): seq<int> {
    if bs == [] then []
    else
      var k := |bs| - 1;
      if bs[k].symbol == s && bs[k].Valid() then ValidTimes(bs[..k], s) + [bs[k].receiveNs] else ValidTimes(bs[..k], s)
  }

  function Last(ts: seq<int>): int {
    if ts == [] then 0 else ts[|ts| - 1]
  }

  /** The single-symbol throttle: take a time when it is at least one interval after the last one taken. */
  function Greedy(ts: seq<int>): (r: seq<int>)
    ensures |r| <= |ts|
  {
    if ts == [] then []
    else
      var k := |ts| - 1;
      var taken := Greedy(ts[..k]);
      if ts[k] - Last(taken) >= MIN_BOOK_PROCESS_INTERVAL_NS then taken + [ts[k]] else taken
  }

  /**
   * Only the symbol's own valid books move its throttle: invalid books and other symbols have no effect on what it
   * processes.
   */
  lemma {:induction false} OnlyOwnValidBooksCount(active: set<string>, bs: seq<Book>, s: string)
    requires s in active
    ensures ProcessedTimes(active, bs, s) == Greedy(ValidTimes(bs, s))
    ensures LastReceive(Run(active, bs), s) == Last(Greedy(ValidTimes(bs, s)))
    ensures ProcessedCount(Run(active, bs), s) == |Greedy(ValidTimes(bs, s))|
  {
    if bs != [] {
      var k := |bs| - 1;
      OnlyOwnValidBooksCount(active, bs[..k], s);
      if bs[k].symbol == s && bs[k].Valid() {
        var before := ValidTimes(bs[..k], s);
        assert (before + [bs[k].receiveNs])[..|before|] == before;
      }
    }
  }

  ghost predicate Spaced(ts: seq<int>) {
    forall i :: 0 <= i < |ts| - 1 ==> ts[i + 1] - ts[i] >= 200_000_000
  }

  lemma {:induction false} GreedyIsSpaced(ts: seq<int>)
    ensures Spaced(Greedy(ts))
    ensures Greedy(ts) != [] ==> Greedy(ts)[0] >= MIN_BOOK_PROCESS_INTERVAL_NS
    ensures forall t :: t in Greedy(ts) ==> t in ts
  {
    if ts != [] {
      GreedyIsSpaced(ts[..|ts| - 1]);
      assert ts == ts[..|ts| - 1] + [ts[|ts| - 1]];
    }
  }

  lemma {:induction false} GreedyGrows(ts: seq<int>, n: nat)
    requires n <= |ts|
    ensures Greedy(ts[..n]) <= Greedy(ts)
    decreases |ts|
  {
    if n < |ts| {
      GreedyGrows(ts[..|ts| - 1], n);
      assert ts[..|ts| - 1][..n] == ts[..n];
    } else {
      assert ts[..n] == ts;
    }
  }

  ghost predicate NonDecreasing(ts: seq<int>) {
    forall i, j :: 0 <= i < j < |ts| ==> ts[i] <= ts[j]
  }

  /** `picks` are increasing positions of `ts` whose times are spaced by the interval. */
  ghost predicate SpacedPicks(ts: seq<int>, picks: seq<nat>) {
    && (forall i :: 0 <= i < |picks| ==> picks[i] < |ts|)
    && (forall i :: 0 <= i < |picks| - 1 ==> picks[i] < picks[i + 1])
    && (forall i :: 0 <= i < |picks| - 1 ==> ts[picks[i + 1]] - ts[picks[i]] >= 200_000_000)
    && (picks != [] ==> ts[picks[0]] >= 200_000_000)
  }

  /** With `k` books taken well before `t`, or more, the throttle has `k + 1` of them by `t`. */
  lemma GreedyKeepsUp(before: seq<int>, t: int, k: nat)
    requires |Greedy(before)| >= k && (forall x :: x in before ==> x <= t)
    requires t - (if k == 0 then 0 else Greedy(before)[k - 1]) >= MIN_BOOK_PROCESS_INTERVAL_NS
    ensures |Greedy(before + [t])| > k && Greedy(before + [t])[k] <= t
  {
    assert (before + [t])[..|before|] == before;
    GreedyIsSpaced(before);
    if |Greedy(before)| > k {
      assert Greedy(before)[k] in Greedy(before);
    }
  }

  /** Greedy stays ahead: by the time of pick `k` it has taken more than `k` books, the `k`-th no later. */
  lemma {:induction false} GreedyStaysAhead(ts: seq<int>, picks: seq<nat>, k: nat)
    requires NonDecreasing(ts) && SpacedPicks(ts, picks) && k < |picks|
    ensures |Greedy(ts[..picks[k] + 1])| > k
    ensures Greedy(ts[..picks[k] + 1])[k] <= ts[picks[k]]
    decreases k
  {
    var p := picks[k];
    var before := ts[..p];
    assert ts[..p + 1] == before + [ts[p]];
    if k > 0 {
      var q := picks[k - 1];
      GreedyStaysAhead(ts, picks, k - 1);
      GreedyGrows(before, q + 1);
      assert before[..q + 1] == ts[..q + 1];
    }
    GreedyKeepsUp(before, ts[p], k);
  }

  /** No subsequence spaced by the interval is longer than what the throttle processes. */
  lemma GreedyIsOptimal(ts: seq<int>, picks: seq<nat>)
    requires NonDecreasing(ts) && SpacedPicks(ts, picks)
    ensures |picks| <= |Greedy(ts)|
  {
    if picks != [] {
      GreedyStaysAhead(ts, picks, |picks| - 1);
      GreedyGrows(ts, picks[|picks| - 1] + 1);
    }
  }

  /**
   * The same for a symbol inside any interleaved stream whose own valid books arrive in order, one interval past
   * zero.
   */
  lemma ThrottleIsOptimal(active: set<string>, bs: seq<Book>, s: string, picks: seq<nat>)
    requires s in active && NonDecreasing(ValidTimes(bs, s))
    requires ValidTimes(bs, s) != [] ==> ValidTimes(bs, s)[0] >= MIN_BOOK_PROCESS_INTERVAL_NS
    requires forall i :: 0 <= i < |picks| ==> picks[i] < |ValidTimes(bs, s)|
    requires forall i :: 0 <= i < |picks| - 1 ==>
               picks[i] < picks[i + 1]
               && ValidTimes(bs, s)[picks[i + 1]] - ValidTimes(bs, s)[picks[i]] >= MIN_BOOK_PROCESS_INTERVAL_NS
    ensures |picks| <= |ProcessedTimes(active, bs, s)| == ProcessedCount(Run(active, bs), s)
  {
    OnlyOwnValidBooksCount(active, bs, s);
    GreedyIsOptimal(ValidTimes(bs, s), picks);
  }

  /** That optimality uses the arrival order: in this stream one book from the future makes the throttle miss two. */
  lemma OutOfOrderIsNotOptimal(d: int)
    requires d == MIN_BOOK_PROCESS_INTERVAL_NS
    ensures |Greedy([9 * d, d, 2 * d])| == 1 && SpacedPicks([9 * d, d, 2 * d], [1, 2])
  {
    var ts := [9 * d, d, 2 * d];
    assert ts[..2] == [9 * d, d] && ts[..2][..1] == [9 * d] && [9 * d][..0] == [];
    assert Greedy([9 * d]) == [9 * d];
    assert Greedy(ts[..2]) == [9 * d];
  }

  function CountIn(ts: seq<int>, lo: int, hi: int): nat {
    if ts == [] then 0
    else CountIn(ts[..|ts| - 1], lo, hi) + (if lo <= ts[|ts| - 1] <= hi then 1 else 0)
  }

  lemma {:induction false} CountInShrinks(ts: seq<int>, lo: int, hi: int, hi': int)
    requires hi' <= hi && forall i :: 0 <= i < |ts| ==> ts[i] <= hi'
    ensures CountIn(ts, lo, hi) == CountIn(ts, lo, hi')
  {
    if ts != [] {
      CountInShrinks(ts[..|ts| - 1], lo, hi, hi');
    }
  }

  lemma {:induction false} SpacedRises(ts: seq<int>, i: nat, j: nat)
    requires Spaced(ts) && i <= j < |ts|
    ensures ts[j] >= ts[i] + (j - i) * MIN_BOOK_PROCESS_INTERVAL_NS
    decreases j
  {
    if i < j {
      SpacedRises(ts, i, j - 1);
    }
  }

  lemma {:induction false} SpacedWindow(ts: seq<int>, lo: int, hi: int)
    requires Spaced(ts)
    ensures CountIn(ts, lo, hi) <= if hi < lo then 0 else (hi - lo) / MIN_BOOK_PROCESS_INTERVAL_NS + 1
  {
    if ts != [] {
      var k := |ts| - 1;
      var d := MIN_BOOK_PROCESS_INTERVAL_NS;
      if lo <= ts[k] <= hi {
        forall i | 0 <= i < k ensures ts[i] <= ts[k] - d {
          SpacedRises(ts, i, k);
        }
        CountInShrinks(ts[..k], lo, hi, ts[k] - d);
        SpacedWindow(ts[..k], lo, ts[k] - d);
        assert (ts[k] - d - lo) / d == (ts[k] - lo) / d - 1;
      } else {
        SpacedWindow(ts[..k], lo, hi);
      }
    }
  }

  /** In any run a closed window of `w` nanoseconds holds at most `w / interval + 1` processed books of a symbol. */
  lemma WindowBound(active: set<string>, bs: seq<Book>, s: string, lo: int, w: nat)
    requires s in active
    ensures CountIn(ProcessedTimes(active, bs, s), lo, lo + w) <= w / MIN_BOOK_PROCESS_INTERVAL_NS + 1
  {
    OnlyOwnValidBooksCount(active, bs, s);
    GreedyIsSpaced(ValidTimes(bs, s));
    SpacedWindow(Greedy(ValidTimes(bs, s)), lo, lo + w);
  }
}
