/** Per-symbol candle admission on one interleaved stream of many symbols. */
module CandleAdmission {
  import opened Records

  datatype Candle = Candle(symbol: string, ts: int)

  /** The last admitted timestamp per symbol and the two rejection counters. */
  datatype Ingress = Ingress(lastTs: map<string, int>, duplicates: nat, stale: nat)

  const EMPTY_INGRESS := Ingress(map[], 0, 0)

  datatype Outcome = Dropped | Duplicate | Stale | Admitted

  function LastTs(st: Ingress, s: string): int {
    if s in st.lastTs then st.lastTs[s] else 0
  }

  /** The check-and-update made under the lock. */
  function Offer(active: set<string>, st: Ingress, c: Candle): (Ingress, Outcome) {
    if c.symbol !in active then (st, Dropped)
    else if c.ts == LastTs(st, c.symbol) then (st.(duplicates := st.duplicates + 1), Duplicate)
    else if c.ts < LastTs(st, c.symbol) then (st.(stale := st.stale + 1), Stale)
    else (st.(lastTs := st.lastTs[c.symbol := c.ts]), Admitted)
  }

  function Run(active: set<string>, cs: seq<Candle>): Ingress {
    if cs == [] then EMPTY_INGRESS
    else Offer(active, Run(active, cs[..|cs| - 1]), cs[|cs| - 1]).0
  }

  function OutcomeAt(active: set<string>, cs: seq<Candle>, i: nat): Outcome
    requires i < |cs|
  {
    Offer(active, Run(active, cs[..i]), cs[i]).1
  }

  /** The timestamps of one symbol's candles, in arrival order. */
  function TimesOf(cs: seq<Candle>, s: string): seq<int> {
    if cs == [] then []
    else
      var k := |cs| - 1;
      if cs[k].symbol == s then TimesOf(cs[..k], s) + [cs[k].ts] else TimesOf(cs[..k], s)
  }

  /** The admitted timestamps of one symbol. */
  function AdmittedOf(active: set<string>, cs: seq<Candle>, s: string): seq<int> {
    if cs == [] then []
    else
      var k := |cs| - 1;
      if cs[k].symbol == s && OutcomeAt(active, cs, k).Admitted? then AdmittedOf(active, cs[..k], s) + [cs[k].ts]
      else AdmittedOf(active, cs[..k], s)
  }

  function Count(active: set<string>, cs: seq<Candle>, o: Outcome): nat {
    if cs == [] then 0
    else Count(active, cs[..|cs| - 1], o) + (if OutcomeAt(active, cs, |cs| - 1) == o then 1 else 0)
  }

  function ActiveCandles(active: set<string>, cs: seq<Candle>): nat {
    if cs == [] then 0
    else ActiveCandles(active, cs[..|cs| - 1]) + (if cs[|cs| - 1].symbol in active then 1 else 0)
  }

  /** Projected to one symbol, the interleaved run is single-symbol admission of the projected stream. */
  lemma {:induction false} ProjectionIsSingleSymbolRun(active: set<string>, cs: seq<Candle>, s: string)
    requires s in active
    ensures LastTs(Run(active, cs), s) == Peak(TimesOf(cs, s))
    ensures AdmittedOf(active, cs, s) == Admit(TimesOf(cs, s))
  {
    if cs != [] {
      var k := |cs| - 1;
      ProjectionIsSingleSymbolRun(active, cs[..k], s);
      if cs[k].symbol == s {
        var before := TimesOf(cs[..k], s);
        assert (before + [cs[k].ts])[..|before|] == before;
      }
    }
  }

  lemma {:induction false} TimesOfElements(cs: seq<Candle>, s: string, t: int)
    ensures t in TimesOf(cs, s) <==> Candle(s, t) in cs
  {
    if cs != [] {
      var k := |cs| - 1;
      TimesOfElements(cs[..k], s, t);
      assert cs == cs[..k] + [cs[k]];
    }
  }

  ghost predicate AboveAllEarlier(cs: seq<Candle>, i: nat)
    requires i < |cs|
  {
    forall j :: 0 <= j < i && cs[j].symbol == cs[i].symbol ==> cs[j].ts < cs[i].ts
  }

  ghost predicate BelowNoneEarlier(cs: seq<Candle>, i: nat)
    requires i < |cs|
  {
    forall j :: 0 <= j < i && cs[j].symbol == cs[i].symbol ==> cs[j].ts <= cs[i].ts
  }

  /** Candle `i` is admitted exactly when it is a strict running maximum above zero among its own symbol's candles. */
  lemma AdmitsExactlyStrictMaxima(active: set<string>, cs: seq<Candle>, i: nat)
    requires i < |cs|
    ensures OutcomeAt(active, cs, i) == Dropped <==> cs[i].symbol !in active
    ensures OutcomeAt(active, cs, i) == Admitted <==> cs[i].symbol in active && cs[i].ts > 0 && AboveAllEarlier(cs, i)
    ensures OutcomeAt(active, cs, i) == Stale
       <==> cs[i].symbol in active && !(cs[i].ts >= 0 && BelowNoneEarlier(cs, i))
  {
    var s := cs[i].symbol;
    if s in active {
      var past := TimesOf(cs[..i], s);
      ProjectionIsSingleSymbolRun(active, cs[..i], s);
      PeakIsMaximum(past);
      forall j | 0 <= j < i && cs[j].symbol == s ensures cs[j].ts <= Peak(past) {
        TimesOfElements(cs[..i], s, cs[j].ts);
        assert cs[..i][j] == Candle(s, cs[j].ts);
      }
      if Peak(past) != 0 {
        TimesOfElements(cs[..i], s, Peak(past));
        var j :| 0 <= j < i && cs[..i][j] == Candle(s, Peak(past));
        assert cs[j] == Candle(s, Peak(past));
      }
    }
  }

  /** Every active candle is counted once: admitted, duplicate or stale; and the two counters are those counts. */
  lemma {:induction false} CountsAreConserved(active: set<string>, cs: seq<Candle>)
    ensures Count(active, cs, Admitted) + Count(active, cs, Duplicate) + Count(active, cs, Stale)
            == ActiveCandles(active, cs)
    ensures Run(active, cs).duplicates == Count(active, cs, Duplicate)
    ensures Run(active, cs).stale == Count(active, cs, Stale)
  {
    if cs != [] {
      CountsAreConserved(active, cs[..|cs| - 1]);
    }
  }

  lemma MultisetWithout(ds: seq<Candle>, j: nat)
    requires j < |ds|
    ensures multiset(ds[..j] + ds[j + 1..]) == multiset(ds) - multiset{ds[j]}
  {
    assert ds == ds[..j] + ([ds[j]] + ds[j + 1..]);
    assert multiset(ds) == multiset(ds[..j] + ds[j + 1..]) + multiset{ds[j]};
  }

  lemma {:induction false} ActiveCandlesOfMultiset(active: set<string>, cs: seq<Candle>, ds: seq<Candle>)
    requires multiset(cs) == multiset(ds)
    ensures ActiveCandles(active, cs) == ActiveCandles(active, ds)
    decreases |cs|
  {
    if cs == [] {
      assert |ds| == |multiset(ds)| == 0;
    } else {
      var k := |cs| - 1;
      assert cs[..k] + cs[k + 1..] == cs[..k];
      MultisetWithout(cs, k);
      assert cs[k] in multiset(ds);
      var j :| 0 <= j < |ds| && ds[j] == cs[k];
      MultisetWithout(ds, j);
      ActiveCandlesOfMultiset(active, cs[..k], ds[..j] + ds[j + 1..]);
      ActiveCandlesWithout(active, ds, j);
    }
  }

  lemma {:induction false} ActiveCandlesWithout(active: set<string>, ds: seq<Candle>, j: nat)
    requires j < |ds|
    ensures ActiveCandles(active, ds)
         == ActiveCandles(active, ds[..j] + ds[j + 1..]) + (if ds[j].symbol in active then 1 else 0)
    decreases |ds|
  {
    var k := |ds| - 1;
    var rest := ds[..j] + ds[j + 1..];
    if j == k {
      assert rest == ds[..k];
    } else {
      ActiveCandlesWithout(active, ds[..k], j);
      assert rest[..|rest| - 1] == ds[..k][..j] + ds[..k][j + 1..];
      assert rest[|rest| - 1] == ds[k];
    }
  }

  /**
   * Whatever the interleaving of the locked sections, every symbol ends at the same baseline and the three counts
   * have the same sum.
   */
  lemma InterleavingsAgree(active: set<string>, cs: seq<Candle>, ds: seq<Candle>, s: string)
    requires multiset(cs) == multiset(ds) && s in active
    ensures LastTs(Run(active, cs), s) == LastTs(Run(active, ds), s)
    ensures Count(active, cs, Admitted) + Run(active, cs).duplicates + Run(active, cs).stale
         == Count(active, ds, Admitted) + Run(active, ds).duplicates + Run(active, ds).stale
  {
    ProjectionIsSingleSymbolRun(active, cs, s);
    ProjectionIsSingleSymbolRun(active, ds, s);
    SamePeak(cs, ds, s);
    SamePeak(ds, cs, s);
    CountsAreConserved(active, cs);
    CountsAreConserved(active, ds);
    ActiveCandlesOfMultiset(active, cs, ds);
  }

  lemma SamePeak(cs: seq<Candle>, ds: seq<Candle>, s: string)
    requires multiset(cs) == multiset(ds)
    ensures Peak(TimesOf(cs, s)) <= Peak(TimesOf(ds, s))
  {
    var p := Peak(TimesOf(cs, s));
    PeakIsMaximum(TimesOf(cs, s));
    PeakIsMaximum(TimesOf(ds, s));
    if p != 0 {
      TimesOfElements(cs, s, p);
      assert Candle(s, p) in multiset(ds);
      TimesOfElements(ds, s, p);
      var j :| 0 <= j < |TimesOf(ds, s)| && TimesOf(ds, s)[j] == p;
    }
  }
}
