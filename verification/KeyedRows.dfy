/** Insertion-ordered dictionaries as their values, and the stable sort of such values, for any row type. */
module KeyedRows {

  /** Some row carries the id. */
  predicate Has<T, I(==)>(d: seq<T>, id: T -> I, key: I) {
    exists i :: 0 <= i < |d| && id(d[i]) == key
  }

  ghost predicate Distinct<T, I>(d: seq<T>, id: T -> I) {
    forall i, j :: 0 <= i < j < |d| ==> id(d[i]) != id(d[j])
  }

  function Replaced<T, I(==)>(r: T, x: T, id: T -> I): T {
    if id(r) == id(x) then x else r
  }

  function Replace<T, I(==)>(d: seq<T>, x: T, id: T -> I): seq<T> {
    seq(|d|, i requires 0 <= i < |d| => Replaced(d[i], x, id))
  }

  /** Dictionary assignment: an existing key keeps its place, a new one goes last. */
  function Upsert<T, I(==)>(d: seq<T>, x: T, id: T -> I): seq<T> {
    if Has(d, id, id(x)) then Replace(d, x, id) else d + [x]
  }

  /** Put `x` before the first row below it. */
  function Insert<T>(s: seq<T>, x: T, below: (T, T) -> bool): seq<T> {
    if s == [] then [x]
    else if below(s[0], x) then [x] + s
    else [s[0]] + Insert(s[1..], x, below)
  }

  /** The stable sort that `below` gives: no row is below a later one, ties stay in their original order. */
  function Sort<T>(d: seq<T>, below: (T, T) -> bool): seq<T> {
    if d == [] then [] else Insert(Sort(d[..|d| - 1], below), d[|d| - 1], below)
  }

  /** The Python slice `rows[:n]`, negative `n` included. */
  function Slice<T>(rows: seq<T>, n: int): seq<T> {
    if n >= 0 then (if n <= |rows| then rows[..n] else rows)
    else if |rows| + n >= 0 then rows[..|rows| + n] else []
  }

  function Keep<T>(d: seq<T>, kept: T -> bool): seq<T> {
    if d == [] then []
    else if kept(d[0]) then [d[0]] + Keep(d[1..], kept)
    else Keep(d[1..], kept)
  }

  /** A strict order in which being neither above nor below is an equivalence, as comparing by a key gives. */
  ghost predicate KeyOrder<T(!new)>(below: (T, T) -> bool) {
    && (forall a, b :: below(a, b) ==> !below(b, a))
    && (forall a, b, c :: below(a, c) ==> below(a, b) || below(b, c))
  }

  ghost predicate Descending<T>(s: seq<T>, below: (T, T) -> bool) {
    forall i, j :: 0 <= i < j < |s| ==> !below(s[i], s[j])
  }

  predicate Tied<T>(a: T, b: T, below: (T, T) -> bool) { !below(a, b) && !below(b, a) }

  // ---- How the operations take a list apart ----

  lemma InsertCons<T(!new)>(h: T, t: seq<T>, x: T, below: (T, T) -> bool)
    ensures Insert([h] + t, x, below) == if below(h, x) then [x] + ([h] + t) else [h] + Insert(t, x, below)
  {
    assert ([h] + t)[1..] == t;
  }

  lemma SortSnoc<T(!new)>(d: seq<T>, x: T, below: (T, T) -> bool)
    ensures Sort(d + [x], below) == Insert(Sort(d, below), x, below)
  {
    assert (d + [x])[..|d|] == d;
  }

  lemma ReplaceCons<T(!new), I>(h: T, t: seq<T>, x: T, id: T -> I)
    ensures Replace([h] + t, x, id) == [Replaced(h, x, id)] + Replace(t, x, id)
  {
  }

  lemma ReplaceSnoc<T(!new), I>(d: seq<T>, y: T, x: T, id: T -> I)
    ensures Replace(d + [y], x, id) == Replace(d, x, id) + [Replaced(y, x, id)]
  {
  }

  lemma KeepCons<T(!new)>(h: T, t: seq<T>, kept: T -> bool)
    ensures Keep([h] + t, kept) == if kept(h) then [h] + Keep(t, kept) else Keep(t, kept)
  {
    assert ([h] + t)[1..] == t;
  }

  lemma DistinctCons<T(!new), I>(h: T, t: seq<T>, id: T -> I)
    ensures Distinct([h] + t, id) <==> Distinct(t, id) && !Has(t, id, id(h))
  {
    var s := [h] + t;
    if Distinct(s, id) {
      forall i, j | 0 <= i < j < |t| ensures id(t[i]) != id(t[j]) {
        assert id(s[i + 1]) != id(s[j + 1]);
      }
      forall j | 0 <= j < |t| ensures id(t[j]) != id(h) {
        assert id(s[0]) != id(s[j + 1]);
      }
    }
  }

  lemma DistinctSnoc<T(!new), I>(d: seq<T>, x: T, id: T -> I)
    ensures Distinct(d + [x], id) <==> Distinct(d, id) && !Has(d, id, id(x))
  {
    var s := d + [x];
    assert forall i :: 0 <= i < |d| ==> s[i] == d[i];
    if Distinct(s, id) {
      forall i | 0 <= i < |d| ensures id(d[i]) != id(x) {
        assert id(s[i]) != id(s[|d|]);
      }
    }
  }

  // ---- Insert and Sort ----

  lemma {:induction false} InsertContents<T(!new)>(s: seq<T>, x: T, below: (T, T) -> bool)
    ensures |Insert(s, x, below)| == |s| + 1
    ensures multiset(Insert(s, x, below)) == multiset(s) + multiset{x}
  {
    if s != [] && !below(s[0], x) {
      InsertContents(s[1..], x, below);
      assert s == [s[0]] + s[1..];
    }
  }

  lemma InsertMembers<T(!new)>(s: seq<T>, x: T, below: (T, T) -> bool)
    ensures forall r :: r in Insert(s, x, below) <==> r in s || r == x
  {
    InsertContents(s, x, below);
    forall r ensures r in Insert(s, x, below) <==> r in s || r == x {
      assert r in Insert(s, x, below) <==> r in multiset(Insert(s, x, below));
    }
  }

  lemma {:induction false} InsertDescending<T(!new)>(s: seq<T>, x: T, below: (T, T) -> bool)
    requires KeyOrder(below) && Descending(s, below)
    ensures Descending(Insert(s, x, below), below)
  {
    if s != [] {
      if !below(s[0], x) {
        InsertDescending(s[1..], x, below);
        InsertMembers(s[1..], x, below);
        HeadAbove(s[0], Insert(s[1..], x, below), below);
      }
    }
  }

  lemma HeadAbove<T(!new)>(h: T, t: seq<T>, below: (T, T) -> bool)
    requires Descending(t, below) && forall r :: r in t ==> !below(h, r)
    ensures Descending([h] + t, below)
  {
  }

  lemma {:induction false} SortMembers<T(!new)>(d: seq<T>, below: (T, T) -> bool)
    ensures |Sort(d, below)| == |d|
    ensures multiset(Sort(d, below)) == multiset(d)
    ensures forall r :: r in Sort(d, below) <==> r in d
  {
    if d != [] {
      var k := |d| - 1;
      SortMembers(d[..k], below);
      InsertContents(Sort(d[..k], below), d[k], below);
      assert d == d[..k] + [d[k]];
    }
    forall r ensures r in Sort(d, below) <==> r in d {
      assert r in multiset(Sort(d, below)) <==> r in multiset(d);
    }
  }

  /** The sort is a descending permutation. */
  lemma {:induction false} SortContents<T(!new)>(d: seq<T>, below: (T, T) -> bool)
    requires KeyOrder(below)
    ensures Descending(Sort(d, below), below)
    ensures |Sort(d, below)| == |d| && multiset(Sort(d, below)) == multiset(d)
  {
    SortMembers(d, below);
    if d != [] {
      SortContents(d[..|d| - 1], below);
      InsertDescending(Sort(d[..|d| - 1], below), d[|d| - 1], below);
    }
  }

  lemma SortHas<T(!new), I>(d: seq<T>, below: (T, T) -> bool, id: T -> I, key: I)
    ensures Has(Sort(d, below), id, key) == Has(d, id, key)
  {
    SortMembers(d, below);
    var s := Sort(d, below);
    if Has(d, id, key) {
      var i :| 0 <= i < |d| && id(d[i]) == key;
      assert d[i] in s;
    }
    if Has(s, id, key) {
      var i :| 0 <= i < |s| && id(s[i]) == key;
      assert s[i] in d;
    }
  }

  lemma {:induction false} InsertDistinct<T(!new), I>(s: seq<T>, x: T, below: (T, T) -> bool, id: T -> I)
    requires Distinct(s, id) && !Has(s, id, id(x))
    ensures Distinct(Insert(s, x, below), id)
  {
    if s == [] || below(s[0], x) {
      DistinctCons(x, s, id);
      assert [x] + s == Insert(s, x, below);
    } else {
      var h, t := s[0], s[1..];
      assert s == [h] + t;
      DistinctCons(h, t, id);
      assert forall i :: 0 <= i < |t| ==> id(t[i]) == id(s[i + 1]);
      InsertDistinct(t, x, below, id);
      InsertMembers(t, x, below);
      forall r | r in Insert(t, x, below) ensures id(r) != id(h) {
      }
      DistinctCons(h, Insert(t, x, below), id);
    }
  }

  lemma {:induction false} SortDistinct<T(!new), I>(d: seq<T>, below: (T, T) -> bool, id: T -> I)
    requires Distinct(d, id)
    ensures Distinct(Sort(d, below), id)
  {
    if d != [] {
      var k := |d| - 1;
      assert d == d[..k] + [d[k]];
      DistinctSnoc(d[..k], d[k], id);
      SortDistinct(d[..k], below, id);
      SortHas(d[..k], below, id, id(d[k]));
      InsertDistinct(Sort(d[..k], below), d[k], below, id);
    }
  }

  // ---- Stability ----

  function TiedWith<T>(d: seq<T>, r: T, below: (T, T) -> bool): seq<T> {
    if d == [] then []
    else if Tied(d[0], r, below) then [d[0]] + TiedWith(d[1..], r, below)
    else TiedWith(d[1..], r, below)
  }

  lemma TiedCons<T(!new)>(h: T, t: seq<T>, r: T, below: (T, T) -> bool)
    ensures TiedWith([h] + t, r, below)
            == if Tied(h, r, below) then [h] + TiedWith(t, r, below) else TiedWith(t, r, below)
  {
    assert ([h] + t)[1..] == t;
  }

  lemma {:induction false} TiedSnoc<T(!new)>(d: seq<T>, x: T, r: T, below: (T, T) -> bool)
    ensures TiedWith(d + [x], r, below)
            == if Tied(x, r, below) then TiedWith(d, r, below) + [x] else TiedWith(d, r, below)
  {
    if d == [] {
      TiedCons(x, [], r, below);
      assert d + [x] == [x] + [];
    } else {
      var h, t := d[0], d[1..];
      TiedSnoc(t, x, r, below);
      assert d + [x] == [h] + (t + [x]);
      TiedCons(h, t + [x], r, below);
    }
  }

  lemma {:induction false} NoneTied<T(!new)>(s: seq<T>, r: T, below: (T, T) -> bool)
    requires forall y :: y in s ==> !Tied(y, r, below)
    ensures TiedWith(s, r, below) == []
  {
    if s != [] {
      NoneTied(s[1..], r, below);
    }
  }

  lemma {:induction false} TiedInsert<T(!new)>(s: seq<T>, x: T, r: T, below: (T, T) -> bool)
    requires KeyOrder(below) && Descending(s, below)
    ensures TiedWith(Insert(s, x, below), r, below)
            == if Tied(x, r, below) then TiedWith(s, r, below) + [x] else TiedWith(s, r, below)
  {
    if s != [] {
      var h, t := s[0], s[1..];
      assert s == [h] + t;
      if below(h, x) {
        TiedCons(x, s, r, below);
        if Tied(x, r, below) {
          forall y | y in s ensures !Tied(y, r, below) {
            assert !below(h, y);
          }
          NoneTied(s, r, below);
        }
      } else {
        TiedInsert(t, x, r, below);
        TiedCons(h, Insert(t, x, below), r, below);
        TiedCons(h, t, r, below);
      }
    } else {
      TiedCons(x, [], r, below);
      assert [x] + [] == [x];
    }
  }

  /** The sort is stable: rows tied with any one row keep their dictionary order. */
  lemma {:induction false} SortStable<T(!new)>(d: seq<T>, r: T, below: (T, T) -> bool)
    requires KeyOrder(below)
    ensures TiedWith(Sort(d, below), r, below) == TiedWith(d, r, below)
  {
    if d != [] {
      var init, last := d[..|d| - 1], d[|d| - 1];
      assert d == init + [last];
      SortStable(init, r, below);
      SortContents(init, below);
      SortSnoc(init, last, below);
      TiedInsert(Sort(init, below), last, r, below);
      TiedSnoc(init, last, r, below);
    }
  }

  // ---- Sorting commutes with dictionary assignment when an id keeps its place among the others ----

  /** `a` and `c` stand on the same side of `b`, or both are tied with it. */
  predicate SameSide<T>(a: T, c: T, b: T, below: (T, T) -> bool) {
    below(a, b) == below(c, b) && below(b, a) == below(b, c)
  }

  /** A row with the id of `x` compares with the rows of other ids as `x` does. */
  ghost predicate KeepsPlace<T(!new), I>(d: seq<T>, x: T, below: (T, T) -> bool, id: T -> I) {
    forall r, y :: r in d && y in d && id(r) == id(x) && id(y) != id(x) ==> SameSide(r, x, y, below)
  }

  lemma {:induction false} ReplaceInsertOther<T(!new), I>(s: seq<T>, x: T, y: T, below: (T, T) -> bool, id: T -> I)
    requires id(y) != id(x) && forall r :: r in s && id(r) == id(x) ==> SameSide(r, x, y, below)
    ensures Replace(Insert(s, y, below), x, id) == Insert(Replace(s, x, id), y, below)
  {
    if s == [] {
      ReplaceCons(y, [], x, id);
    } else {
      var h, t := s[0], s[1..];
      assert s == [h] + t && h in s;
      ReplaceCons(h, t, x, id);
      InsertCons(h, t, y, below);
      InsertCons(Replaced(h, x, id), Replace(t, x, id), y, below);
      if below(h, y) {
        ReplaceCons(y, s, x, id);
      } else {
        ReplaceInsertOther(t, x, y, below, id);
        ReplaceCons(h, Insert(t, y, below), x, id);
      }
    }
  }

  lemma ReplaceAbsent<T(!new), I>(s: seq<T>, x: T, id: T -> I)
    requires !Has(s, id, id(x))
    ensures Replace(s, x, id) == s
  {
    assert forall i :: 0 <= i < |s| ==> id(s[i]) != id(x);
  }

  lemma {:induction false} ReplaceInsertSame<T(!new), I>(s: seq<T>, x: T, y: T, below: (T, T) -> bool, id: T -> I)
    requires !Has(s, id, id(x)) && id(y) == id(x) && forall r :: r in s ==> below(r, y) == below(r, x)
    ensures Replace(Insert(s, y, below), x, id) == Insert(s, x, below)
  {
    if s == [] || below(s[0], y) {
      ReplaceAbsent(s, x, id);
      ReplaceCons(y, s, x, id);
      assert [x] + s == Insert(s, x, below);
    } else {
      var h, t := s[0], s[1..];
      assert s == [h] + t && h in s && id(s[0]) != id(x);
      assert forall i :: 0 <= i < |t| ==> id(t[i]) == id(s[i + 1]);
      ReplaceInsertSame(t, x, y, below, id);
      ReplaceCons(h, Insert(t, y, below), x, id);
      InsertCons(h, t, y, below);
      InsertCons(h, t, x, below);
    }
  }

  /** One more row at the end, with the id of `x` or another one. */
  lemma InsertReplaced<T(!new), I>(init: seq<T>, last: T, x: T, below: (T, T) -> bool, id: T -> I)
    requires !Has(init, id, id(last)) && KeepsPlace(init + [last], x, below, id)
    ensures Insert(Replace(Sort(init, below), x, id), Replaced(last, x, id), below)
            == Replace(Insert(Sort(init, below), last, below), x, id)
  {
    var s, d := Sort(init, below), init + [last];
    SortMembers(init, below);
    assert last in d && forall r :: r in s ==> r in d;
    if id(last) == id(x) {
      SortHas(init, below, id, id(x));
      ReplaceAbsent(s, x, id);
      forall r | r in s ensures below(r, last) == below(r, x) {
        assert id(r) != id(x);
        assert SameSide(last, x, r, below);
      }
      ReplaceInsertSame(s, x, last, below, id);
    } else {
      ReplaceInsertOther(s, x, last, below, id);
    }
  }

  lemma {:induction false} SortReplace<T(!new), I>(d: seq<T>, x: T, below: (T, T) -> bool, id: T -> I)
    requires Distinct(d, id) && KeepsPlace(d, x, below, id)
    ensures Sort(Replace(d, x, id), below) == Replace(Sort(d, below), x, id)
  {
    if d != [] {
      var init, last := d[..|d| - 1], d[|d| - 1];
      assert d == init + [last];
      DistinctSnoc(init, last, id);
      SortReplace(init, x, below, id);
      ReplaceSnoc(init, last, x, id);
      SortSnoc(init, last, below);
      SortSnoc(Replace(init, x, id), Replaced(last, x, id), below);
      InsertReplaced(init, last, x, below, id);
    }
  }

  lemma ReplaceKeepsDistinct<T(!new), I>(d: seq<T>, x: T, id: T -> I)
    requires Distinct(d, id)
    ensures Distinct(Replace(d, x, id), id)
  {
    var r := Replace(d, x, id);
    forall i, j | 0 <= i < j < |r| ensures id(r[i]) != id(r[j]) {
      assert id(r[i]) == id(d[i]) && id(r[j]) == id(d[j]);
    }
  }

  /** Overwriting among one or two rows. */
  lemma UpsertSmall<T(!new), I>(r: T, y: T, x: T, id: T -> I)
    requires id(r) == id(x) && id(y) != id(x)
    ensures Upsert([r], x, id) == [x] && Upsert([r, y], x, id) == [x, y] && Upsert([y, r], x, id) == [y, x]
  {
    assert id([r][0]) == id(x) && id([r, y][0]) == id(x) && id([y, r][1]) == id(x);
  }

  lemma UpsertKeepsDistinct<T(!new), I>(d: seq<T>, x: T, id: T -> I)
    requires Distinct(d, id)
    ensures Distinct(Upsert(d, x, id), id)
    ensures forall r :: r in Upsert(d, x, id) ==> r in d || r == x
  {
    if Has(d, id, id(x)) {
      ReplaceKeepsDistinct(d, x, id);
    } else {
      DistinctSnoc(d, x, id);
    }
  }

  lemma SortUpsert<T(!new), I>(d: seq<T>, x: T, below: (T, T) -> bool, id: T -> I)
    requires Distinct(d, id) && KeepsPlace(d, x, below, id)
    ensures Sort(Upsert(d, x, id), below)
            == if Has(d, id, id(x)) then Replace(Sort(d, below), x, id) else Insert(Sort(d, below), x, below)
  {
    if Has(d, id, id(x)) {
      SortReplace(d, x, below, id);
    } else {
      SortSnoc(d, x, below);
    }
  }

  // ---- Sorting commutes with keeping some rows ----

  lemma {:induction false} KeepConcat<T(!new)>(a: seq<T>, b: seq<T>, kept: T -> bool)
    ensures Keep(a + b, kept) == Keep(a, kept) + Keep(b, kept)
  {
    if a == [] {
      assert a + b == b;
    } else {
      var h, t := a[0], a[1..];
      KeepConcat(t, b, kept);
      assert a == [h] + t && a + b == [h] + (t + b);
      KeepCons(h, t + b, kept);
      KeepCons(h, t, kept);
    }
  }

  lemma {:induction false} KeepMembers<T(!new)>(d: seq<T>, kept: T -> bool)
    ensures forall r :: r in Keep(d, kept) <==> r in d && kept(r)
  {
    if d != [] {
      KeepMembers(d[1..], kept);
      assert d == [d[0]] + d[1..];
    }
  }

  lemma {:induction false} KeepDistinct<T(!new), I>(d: seq<T>, kept: T -> bool, id: T -> I)
    requires Distinct(d, id)
    ensures Distinct(Keep(d, kept), id)
  {
    if d != [] {
      var h, t := d[0], d[1..];
      assert d == [h] + t;
      DistinctCons(h, t, id);
      KeepDistinct(t, kept, id);
      KeepMembers(t, kept);
      if kept(h) {
        forall r | r in Keep(t, kept) ensures id(r) != id(h) {
          assert r in t;
        }
        DistinctCons(h, Keep(t, kept), id);
      }
    }
  }

  lemma {:induction false} KeepAll<T(!new)>(d: seq<T>, kept: T -> bool)
    requires forall r :: r in d ==> kept(r)
    ensures Keep(d, kept) == d
  {
    if d != [] {
      KeepAll(d[1..], kept);
      assert d[0] in d;
    }
  }

  lemma {:induction false} KeepNone<T(!new)>(d: seq<T>, kept: T -> bool)
    requires forall r :: r in d ==> !kept(r)
    ensures Keep(d, kept) == []
  {
    if d != [] {
      KeepNone(d[1..], kept);
      assert d[0] in d;
    }
  }

  /** Keeping exactly the rows before position `k` is taking them. */
  lemma KeepIsPrefix<T(!new)>(s: seq<T>, k: nat, kept: T -> bool)
    requires k <= |s| && forall i :: 0 <= i < |s| ==> (kept(s[i]) <==> i < k)
    ensures Keep(s, kept) == s[..k]
  {
    assert s == s[..k] + s[k..];
    KeepConcat(s[..k], s[k..], kept);
    KeepAll(s[..k], kept);
    KeepNone(s[k..], kept);
  }

  lemma {:induction false} InsertFirst<T(!new)>(s: seq<T>, x: T, below: (T, T) -> bool)
    requires forall r :: r in s ==> below(r, x)
    ensures Insert(s, x, below) == [x] + s
  {
    if s != [] {
      assert s[0] in s;
    }
  }

  lemma {:induction false} KeepInsert<T(!new)>(s: seq<T>, x: T, below: (T, T) -> bool, kept: T -> bool)
    requires KeyOrder(below) && Descending(s, below)
    ensures Keep(Insert(s, x, below), kept) == if kept(x) then Insert(Keep(s, kept), x, below) else Keep(s, kept)
  {
    if s == [] {
      KeepCons(x, [], kept);
      assert [x] + [] == [x];
    } else {
      var h, t := s[0], s[1..];
      assert s == [h] + t;
      if below(h, x) {
        KeepCons(x, s, kept);
        KeepMembers(s, kept);
        forall r | r in Keep(s, kept) ensures below(r, x) {
          assert !below(h, r);
        }
        InsertFirst(Keep(s, kept), x, below);
      } else {
        KeepInsert(t, x, below, kept);
        KeepCons(h, Insert(t, x, below), kept);
        KeepCons(h, t, kept);
        InsertCons(h, Keep(t, kept), x, below);
      }
    }
  }

  lemma {:induction false} SortKeep<T(!new)>(d: seq<T>, below: (T, T) -> bool, kept: T -> bool)
    requires KeyOrder(below)
    ensures Sort(Keep(d, kept), below) == Keep(Sort(d, below), kept)
  {
    if d != [] {
      var k := |d| - 1;
      var init, last := d[..k], d[k];
      assert d == init + [last];
      SortKeep(init, below, kept);
      KeepConcat(init, [last], kept);
      KeepCons(last, [], kept);
      assert [last] + [] == [last];
      SortContents(init, below);
      KeepInsert(Sort(init, below), last, below, kept);
      if kept(last) {
        SortSnoc(Keep(init, kept), last, below);
      } else {
        assert Keep(d, kept) == Keep(init, kept);
      }
    }
  }

  // ---- Top-N of an insertion needs only the previous top-N ----

  lemma SliceCons<T(!new)>(h: T, t: seq<T>, n: nat)
    requires n > 0
    ensures Slice([h] + t, n) == [h] + Slice(t, n - 1)
  {
  }

  lemma {:induction false} SliceInsert<T(!new)>(s: seq<T>, x: T, n: nat, below: (T, T) -> bool)
    ensures Slice(Insert(Slice(s, n), x, below), n) == Slice(Insert(s, x, below), n)
  {
    if s != [] && n > 0 {
      var h, t := s[0], s[1..];
      assert s == [h] + t;
      SliceCons(h, t, n);
      InsertCons(h, t, x, below);
      InsertCons(h, Slice(t, n - 1), x, below);
      if below(h, x) {
        SliceOfSlice(x, s, n);
      } else {
        SliceInsert(t, x, n - 1, below);
        SliceCons(h, Insert(t, x, below), n);
        SliceCons(h, Insert(Slice(t, n - 1), x, below), n);
      }
    }
  }

  lemma SliceOfSlice<T(!new)>(x: T, s: seq<T>, n: nat)
    ensures Slice([x] + Slice(s, n), n) == Slice([x] + s, n)
  {
  }

  lemma {:induction false} InsertLast<T(!new)>(s: seq<T>, x: T, below: (T, T) -> bool)
    requires forall r :: r in s ==> !below(r, x)
    ensures Insert(s, x, below) == s + [x]
  {
    if s != [] {
      assert s[0] in s;
      InsertLast(s[1..], x, below);
    }
  }

  lemma SliceReplace<T(!new), I>(s: seq<T>, x: T, n: nat, id: T -> I)
    ensures Slice(Replace(s, x, id), n) == Replace(Slice(s, n), x, id)
  {
  }

  /** A row outside the top `n` stays outside when it is written again. */
  lemma RewriteBelowTop<T(!new), I>(s: seq<T>, x: T, n: nat, below: (T, T) -> bool, id: T -> I)
    requires Descending(s, below) && KeepsPlace(s, x, below, id) && Has(s, id, id(x)) && !Has(Slice(s, n), id, id(x))
    ensures Slice(Insert(Slice(s, n), x, below), n) == Slice(s, n) == Slice(Replace(s, x, id), n)
  {
    var m := Slice(s, n);
    var p :| 0 <= p < |s| && id(s[p]) == id(x);
    assert forall i :: 0 <= i < |m| ==> m[i] == s[i];
    assert |m| <= p && s[p] in s;
    forall r | r in m ensures !below(r, x) {
      var i :| 0 <= i < |m| && m[i] == r;
      assert id(m[i]) != id(x) && r in s;
      assert !below(s[i], s[p]) && SameSide(s[p], x, r, below);
    }
    InsertLast(m, x, below);
    SliceReplace(s, x, n, id);
    ReplaceAbsent(m, x, id);
  }

  lemma SliceHas<T(!new), I>(s: seq<T>, x: T, n: nat, id: T -> I)
    requires Has(Slice(s, n), id, id(x))
    ensures Has(s, id, id(x))
  {
    var i :| 0 <= i < |Slice(s, n)| && id(Slice(s, n)[i]) == id(x);
    assert id(s[i]) == id(x);
  }

  /** The same on sorted lists: top-N after a write needs only the top-N before it. */
  lemma SortedTopNStep<T(!new), I>(s: seq<T>, x: T, n: nat, below: (T, T) -> bool, id: T -> I)
    requires Descending(s, below) && KeepsPlace(s, x, below, id)
    ensures var m := Slice(s, n);
            Slice(if Has(m, id, id(x)) then Replace(m, x, id) else Insert(m, x, below), n)
            == Slice(if Has(s, id, id(x)) then Replace(s, x, id) else Insert(s, x, below), n)
  {
    var m := Slice(s, n);
    if Has(m, id, id(x)) {
      SliceHas(s, x, n, id);
      SliceReplace(s, x, n, id);
      SliceReplace(m, x, n, id);
      assert Slice(m, n) == m;
    } else if Has(s, id, id(x)) {
      RewriteBelowTop(s, x, n, below, id);
    } else {
      SliceInsert(s, x, n, below);
    }
  }

  /** One write: trimming the previous top-N plus the write gives the top-N of everything plus the write. */
  lemma TopNStep<T(!new), I>(full: seq<T>, mem: seq<T>, x: T, n: nat, below: (T, T) -> bool, id: T -> I)
    requires KeyOrder(below)
    requires Distinct(full, id) && KeepsPlace(full, x, below, id) && Distinct(mem, id) && KeepsPlace(mem, x, below, id)
    requires Sort(mem, below) == Sort(full, below) || Sort(mem, below) == Slice(Sort(full, below), n)
    ensures Slice(Sort(Upsert(mem, x, id), below), n) == Slice(Sort(Upsert(full, x, id), below), n)
  {
    SortUpsert(full, x, below, id);
    SortUpsert(mem, x, below, id);
    SortHas(full, below, id, id(x));
    SortHas(mem, below, id, id(x));
    SortContents(full, below);
    SortMembers(full, below);
    SortedTopNStep(Sort(full, below), x, n, below, id);
  }
}
