/** Allocation of the deep market-data subscription. */
module DeepSymbols {
  import opened Text

  datatype Result = Selected(symbols: seq<string>) | CapacityInvalid | ProtectedExceeded | CapacityExceeded

  ghost predicate Distinct(s: seq<string>) {
    forall i, j :: 0 <= i < j < |s| ==> s[i] != s[j]
  }

  ghost predicate Ascending(s: seq<string>) {
    forall i, j :: 0 <= i < j < |s| ==> StrLt(s[i], s[j])
  }

  /** `tuple(dict.fromkeys(xs))`: first occurrences, in order. */
  function Dedup(xs: seq<string>): seq<string> {
    if xs == [] then []
    else
      var k := |xs| - 1;
      if xs[k] in xs[..k] then Dedup(xs[..k]) else Dedup(xs[..k]) + [xs[k]]
  }

  function Without(xs: seq<string>, s: set<string>): seq<string> {
    if xs == [] then []
    else if xs[0] in s then Without(xs[1..], s)
    else [xs[0]] + Without(xs[1..], s)
  }

  /** `m` comes before every other member of `s`. */
  predicate IsLeast(s: set<string>, m: string) {
    m in s && forall x :: x in s && x != m ==> StrLt(m, x)
  }

  lemma {:induction false} LeastExists(s: set<string>)
    requires s != {}
    ensures exists m :: IsLeast(s, m)
  {
    var a :| a in s;
    if s == {a} {
      assert IsLeast(s, a);
    } else {
      LeastExists(s - {a});
      var m :| IsLeast(s - {a}, m);
      StrLtTrichotomy(a, m);
      if StrLt(a, m) {
        forall x | x in s && x != a ensures StrLt(a, x) {
          if x != m {
            StrLtTransitive(a, m, x);
          }
        }
        assert IsLeast(s, a);
      } else {
        assert IsLeast(s, m);
      }
    }
  }

  lemma LeastUnique(s: set<string>)
    ensures forall m, n :: IsLeast(s, m) && IsLeast(s, n) ==> m == n
  {
    forall m, n | IsLeast(s, m) && IsLeast(s, n) ensures m == n {
      StrLtTrichotomy(m, n);
    }
  }

  /** `sorted(s)` of a set of strings. */
  function Sorted(s: set<string>): (r: seq<string>)
    ensures Ascending(r)
    ensures forall x :: x in r <==> x in s
    ensures |r| == |s|
  {
    if s == {} then []
    else
      LeastExists(s);
      LeastUnique(s);
      var m :| IsLeast(s, m);
      [m] + Sorted(s - {m})
  }

  /** The protected symbols, once each, in the order of their characters. */
  lemma SortedExactly(s: set<string>)
    ensures |Sorted(s)| == |s| && forall x :: x in Sorted(s) <==> x in s
    ensures forall i, j :: 0 <= i < j < |s| ==> Precedes(Sorted(s)[i], Sorted(s)[j])
  {
    forall i, j | 0 <= i < j < |s| ensures Precedes(Sorted(s)[i], Sorted(s)[j]) {
      StrLtExactly(Sorted(s)[i], Sorted(s)[j]);
    }
  }

  function Min(a: int, b: int): int {
    if a < b then a else b
  }

  /** The allocation once the protected symbols fit: a prefix of the wanted ones after them. */
  function Allocate(held: seq<string>, wanted: seq<string>, primary: string, available: int,
                    subscriptionLimit: int): Result
    requires available >= 0
  {
    var candidates := if available < |wanted| then wanted[..available] else wanted;
    var merged := Dedup(held + candidates);
    var selected := if merged == [] then [primary] else merged;
    if |selected| > subscriptionLimit then CapacityExceeded else Selected(selected)
  }

  /** `resolve_initial_market_data_deep_symbols`. */
  function Resolve(protectedSymbols: set<string>, entry: seq<string>, primary: string,
                   candidateLimit: int, subscriptionLimit: int): Result {
    if candidateLimit < 0 || subscriptionLimit <= 0 then CapacityInvalid
    else
      var held := Sorted(protectedSymbols);
      if |held| > subscriptionLimit then ProtectedExceeded
      else
        Allocate(held, Without(Dedup(entry), protectedSymbols), primary,
                 Min(candidateLimit, subscriptionLimit - |held|), subscriptionLimit)
  }

  // ---- Dedup and Without by what they keep ----

  lemma {:induction false} DedupFacts(xs: seq<string>)
    ensures Distinct(Dedup(xs))
    ensures forall x :: x in Dedup(xs) <==> x in xs
  {
    if xs != [] {
      var k := |xs| - 1;
      DedupFacts(xs[..k]);
      assert xs == xs[..k] + [xs[k]];
    }
  }

  lemma {:induction false} DedupOfDistinct(xs: seq<string>)
    requires Distinct(xs)
    ensures Dedup(xs) == xs
  {
    if xs != [] {
      var k := |xs| - 1;
      DedupOfDistinct(xs[..k]);
      assert xs == xs[..k] + [xs[k]];
    }
  }

  lemma {:induction false} WithoutFacts(xs: seq<string>, s: set<string>)
    ensures forall x :: x in Without(xs, s) <==> x in xs && x !in s
    ensures Distinct(xs) ==> Distinct(Without(xs, s))
  {
    if xs != [] {
      WithoutFacts(xs[1..], s);
      assert xs == [xs[0]] + xs[1..];
      var rest := Without(xs[1..], s);
      if Distinct(xs) {
        forall j | 0 <= j < |rest| ensures rest[j] != xs[0] {
          assert rest[j] in rest;
          assert rest[j] in xs[1..];
        }
      }
    }
  }

  /** Where `x` first occurs. */
  ghost predicate FirstAt(xs: seq<string>, x: string, i: nat) {
    i < |xs| && xs[i] == x && x !in xs[..i]
  }

  /** The unprotected entries keep the order of their first occurrences. */
  lemma {:induction false} DedupKeepsOrder(xs: seq<string>, i: nat, j: nat, p: nat, q: nat)
    requires i < j < |Dedup(xs)| && FirstAt(xs, Dedup(xs)[i], p) && FirstAt(xs, Dedup(xs)[j], q)
    ensures p < q
  {
    var k := |xs| - 1;
    DedupFacts(xs[..k]);
    DedupFacts(xs);
    var d := Dedup(xs);
    var before := Dedup(xs[..k]);
    assert before[i] in before;
    assert p < k;
    if j < |before| {
      assert before[j] in before;
      assert q < k;
      assert xs[..k][..p] == xs[..p] && xs[..k][..q] == xs[..q];
      DedupKeepsOrder(xs[..k], i, j, p, q);
    }
  }

  lemma {:induction false} WithoutKeepsOrder(xs: seq<string>, s: set<string>, i: nat, j: nat) returns (p: nat, q: nat)
    requires i < j < |Without(xs, s)|
    ensures p < q < |xs| && xs[p] == Without(xs, s)[i] && xs[q] == Without(xs, s)[j]
  {
    if xs[0] in s {
      p, q := WithoutKeepsOrder(xs[1..], s, i, j);
      p, q := p + 1, q + 1;
    } else if i > 0 {
      p, q := WithoutKeepsOrder(xs[1..], s, i - 1, j - 1);
      p, q := p + 1, q + 1;
    } else {
      WithoutFacts(xs[1..], s);
      p := 0;
      assert Without(xs[1..], s)[j - 1] in xs[1..];
      q :| 0 < q < |xs| && xs[q] == Without(xs, s)[j];
    }
  }

  /** What is wanted: the unprotected entries, each once, in the order in which they first occur. */
  lemma WantedExactly(entry: seq<string>, protectedSymbols: set<string>)
    ensures var wanted := Without(Dedup(entry), protectedSymbols);
            && Distinct(wanted)
            && (forall x :: x in wanted <==> x in entry && x !in protectedSymbols)
            && (forall i, j, p, q ::
                  0 <= i < j < |wanted| && FirstAt(entry, wanted[i], p) && FirstAt(entry, wanted[j], q) ==> p < q)
  {
    DedupFacts(entry);
    WithoutFacts(Dedup(entry), protectedSymbols);
    var wanted := Without(Dedup(entry), protectedSymbols);
    forall i, j, p, q | 0 <= i < j < |wanted| && FirstAt(entry, wanted[i], p) && FirstAt(entry, wanted[j], q)
      ensures p < q
    {
      var u, v := WithoutKeepsOrder(Dedup(entry), protectedSymbols, i, j);
      DedupKeepsOrder(entry, u, v, p, q);
    }
  }

  /** Protected symbols and a prefix of the wanted ones never repeat. */
  lemma MergedIsDistinct(protectedSymbols: set<string>, entry: seq<string>, n: nat)
    requires n <= |Without(Dedup(entry), protectedSymbols)|
    ensures Distinct(Sorted(protectedSymbols) + Without(Dedup(entry), protectedSymbols)[..n])
  {
    WantedExactly(entry, protectedSymbols);
    var held, chosen := Sorted(protectedSymbols), Without(Dedup(entry), protectedSymbols)[..n];
    AscendingIsDistinct(held);
    forall i, j | 0 <= i < |held| && 0 <= j < |chosen| ensures held[i] != chosen[j] {
      assert held[i] in held && chosen[j] in Without(Dedup(entry), protectedSymbols);
    }
    JoinDistinct(held, chosen);
  }

  lemma AscendingIsDistinct(s: seq<string>)
    requires Ascending(s)
    ensures Distinct(s)
  {
    forall i, j | 0 <= i < j < |s| ensures s[i] != s[j] {
      StrLtIrreflexive(s[i]);
    }
  }

  lemma JoinDistinct(a: seq<string>, b: seq<string>)
    requires Distinct(a) && Distinct(b)
    requires forall i, j :: 0 <= i < |a| && 0 <= j < |b| ==> a[i] != b[j]
    ensures Distinct(a + b)
  {
  }

  /** The longest prefix length both limits allow. */
  ghost predicate Longest(n: nat, wanted: nat, held: nat, candidateLimit: int, subscriptionLimit: int) {
    && n <= wanted && n <= candidateLimit && held + n <= subscriptionLimit
    && (n < wanted ==> n == candidateLimit || held + n == subscriptionLimit)
  }

  lemma AllocatePrefix(held: seq<string>, wanted: seq<string>, primary: string, available: int,
                       subscriptionLimit: int, n: nat)
    requires n == Min(available, |wanted|) && |held| + n <= subscriptionLimit && 0 < subscriptionLimit
    requires Distinct(held + wanted[..n])
    ensures available >= 0
    ensures Allocate(held, wanted, primary, available, subscriptionLimit)
            == Selected(if held == [] && n == 0 then [primary] else held + wanted[..n])
  {
    assert wanted[..|wanted|] == wanted;
    DedupOfDistinct(held + wanted[..n]);
  }

  lemma ResolveAllocates(protectedSymbols: set<string>, entry: seq<string>, primary: string,
                         candidateLimit: int, subscriptionLimit: int)
    requires candidateLimit >= 0 && 0 < subscriptionLimit && |protectedSymbols| <= subscriptionLimit
    ensures Resolve(protectedSymbols, entry, primary, candidateLimit, subscriptionLimit)
            == Allocate(Sorted(protectedSymbols), Without(Dedup(entry), protectedSymbols), primary,
                        Min(candidateLimit, subscriptionLimit - |protectedSymbols|), subscriptionLimit)
  {
  }

  /**
   * On success the result is the protected symbols and the longest allowed prefix of the wanted ones, or just the
   * primary.
   */
  lemma LongestPrefix(protectedSymbols: set<string>, entry: seq<string>, primary: string,
                      candidateLimit: int, subscriptionLimit: int) returns (n: nat)
    requires candidateLimit >= 0 && 0 < subscriptionLimit && |protectedSymbols| <= subscriptionLimit
    ensures var wanted := Without(Dedup(entry), protectedSymbols);
            && Longest(n, |wanted|, |protectedSymbols|, candidateLimit, subscriptionLimit)
            && Resolve(protectedSymbols, entry, primary, candidateLimit, subscriptionLimit)
               == Selected(if protectedSymbols == {} && n == 0 then [primary]
                           else Sorted(protectedSymbols) + wanted[..n])
  {
    var wanted := Without(Dedup(entry), protectedSymbols);
    var available := Min(candidateLimit, subscriptionLimit - |protectedSymbols|);
    n := Min(available, |wanted|);
    MergedIsDistinct(protectedSymbols, entry, n);
    AllocatePrefix(Sorted(protectedSymbols), wanted, primary, available, subscriptionLimit, n);
    ResolveAllocates(protectedSymbols, entry, primary, candidateLimit, subscriptionLimit);
  }

  /**
   * The outcome in full: it fails exactly for bad limits or too many protected symbols; the last capacity error is
   * unreachable.
   */
  lemma AllocationExactly(protectedSymbols: set<string>, entry: seq<string>, primary: string,
                          candidateLimit: int, subscriptionLimit: int)
    ensures var r := Resolve(protectedSymbols, entry, primary, candidateLimit, subscriptionLimit);
            && (r.CapacityInvalid? <==> candidateLimit < 0 || subscriptionLimit <= 0)
            && (r.ProtectedExceeded? <==>
                  candidateLimit >= 0 && subscriptionLimit > 0 && |protectedSymbols| > subscriptionLimit)
            && !r.CapacityExceeded?
            && (r.Selected? ==>
                  && Distinct(r.symbols) && 0 < |r.symbols| <= subscriptionLimit
                  && (forall x :: x in protectedSymbols ==> x in r.symbols))
  {
    if candidateLimit >= 0 && 0 < subscriptionLimit && |protectedSymbols| <= subscriptionLimit {
      var n := LongestPrefix(protectedSymbols, entry, primary, candidateLimit, subscriptionLimit);
      MergedIsDistinct(protectedSymbols, entry, n);
    }
  }
}
