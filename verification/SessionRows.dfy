/** Session rows: keyed by their stripped id, sorted by request time, and trimmed by raw id. */
module SessionRows {
  import opened Text
  import K = KeyedRows

  /** A session's stored metadata; an absent or falsy text field is the empty string. */
  datatype Session = Session(rawId: string, requestedAt: string, startedAt: string, payload: int) {
    function Id(): string { Strip(rawId) }

    function SortKey(): string { if requestedAt != "" then requestedAt else startedAt }

    predicate CleanId() { rawId == Id() }
  }

  /** The values of an insertion-ordered dictionary whose keys are the rows' own ids. */
  type Rows = seq<Session>

  function IdOf(s: Session): string { s.Id() }

  predicate Below(a: Session, b: Session) { StrLt(a.SortKey(), b.SortKey()) }

  predicate Has(d: Rows, id: string) { K.Has(d, IdOf, id) }

  ghost predicate DistinctIds(d: Rows) { K.Distinct(d, IdOf) }

  function Upsert(d: Rows, s: Session): Rows { K.Upsert(d, s, IdOf) }

  /** `rows.sort(key=..., reverse=True)`: descending, ties in original order. */
  function SortDesc(d: Rows): Rows { K.Sort(d, Below) }

  function Slice(rows: Rows, n: int): Rows { K.Slice(rows, n) }

  function Keep(d: Rows, ids: set<string>): Rows { K.Keep(d, (r: Session) => r.Id() in ids) }

  /** The ids `_trim_memory` keeps: the raw ids of the first `n` sorted rows. */
  function KeepIds(d: Rows, n: int): set<string> {
    var top := Slice(SortDesc(d), n);
    set i | 0 <= i < |top| :: top[i].rawId
  }

  function Trim(d: Rows, n: int): Rows {
    Keep(d, KeepIds(d, n))
  }

  lemma BelowIsKeyOrder()
    ensures K.KeyOrder(Below)
  {
    forall a: Session, b: Session | Below(a, b) ensures !Below(b, a) {
      StrLtTrichotomy(a.SortKey(), b.SortKey());
    }
    forall a: Session, b: Session, c: Session | Below(a, c) ensures Below(a, b) || Below(b, c) {
      StrLtSplit(a.SortKey(), b.SortKey(), c.SortKey());
    }
  }

  /** When a session was asked for, or else started, as its text says. */
  ghost predicate Timed(s: Session, t: string) {
    (s.requestedAt != "" && t == s.requestedAt) || (s.requestedAt == "" && t == s.startedAt)
  }

  /** `b` was asked for after `a`: where their times first differ, `a`'s ends or has the smaller character. */
  ghost predicate Older(a: Session, b: Session) {
    exists t, u :: Timed(a, t) && Timed(b, u) && Precedes(t, u)
  }

  lemma OlderIsBelow(a: Session, b: Session)
    ensures Older(a, b) <==> Below(a, b)
  {
    StrLtExactly(a.SortKey(), b.SortKey());
    assert Timed(a, a.SortKey()) && Timed(b, b.SortKey());
  }

  lemma NotOlderThanSelf(s: Session)
    ensures !Older(s, s)
  {
    OlderIsBelow(s, s);
    StrLtIrreflexive(s.SortKey());
  }

  /** The sorted rows: the same rows, newest first. */
  lemma SortContents(d: Rows)
    ensures |SortDesc(d)| == |d| && multiset(SortDesc(d)) == multiset(d)
    ensures forall i, j :: 0 <= i < j < |d| ==> !Older(SortDesc(d)[i], SortDesc(d)[j])
  {
    BelowIsKeyOrder();
    K.SortContents(d, Below);
    forall i, j | 0 <= i < j < |d| ensures !Older(SortDesc(d)[i], SortDesc(d)[j]) {
      OlderIsBelow(SortDesc(d)[i], SortDesc(d)[j]);
    }
  }

  /** Rows that share a row's sort key keep their dictionary order. */
  lemma SortStable(d: Rows, r: Session)
    ensures K.TiedWith(SortDesc(d), r, Below) == K.TiedWith(d, r, Below)
  {
    BelowIsKeyOrder();
    K.SortStable(d, r, Below);
  }

  /**
   * `a` and `c` share an id and their keys differ; the key of `b`, another id's row, lies between them or equals one.
   */
  predicate Encloses(a: Session, c: Session, b: Session) {
    && a.Id() == c.Id() && b.Id() != a.Id() && StrLt(a.SortKey(), c.SortKey())
    && StrLe(a.SortKey(), b.SortKey()) && StrLe(b.SortKey(), c.SortKey())
  }

  /** Two rows of one id stand on the same side of another id's row exactly when they do not enclose it. */
  lemma SameSideIffNotEnclosed(a: Session, c: Session, b: Session)
    requires a.Id() == c.Id() && b.Id() != a.Id()
    ensures K.SameSide(a, c, b, Below) <==> !Encloses(a, c, b) && !Encloses(c, a, b)
  {
    var x, y, z := a.SortKey(), c.SortKey(), b.SortKey();
    StrLtTrichotomy(x, y);
    StrLtTrichotomy(x, z);
    StrLtTrichotomy(y, z);
    if StrLt(x, z) && StrLt(z, y) {
      StrLtTransitive(x, z, y);
    } else if StrLt(y, z) && StrLt(z, x) {
      StrLtTransitive(y, z, x);
    }
  }

  ghost predicate CleanIds(u: iset<Session>) {
    forall s :: s in u && s.Id() != "" ==> s.CleanId()
  }

  ghost predicate NothingEnclosed(u: iset<Session>) {
    forall a, b, c :: a in u && b in u && c in u && a.Id() != "" && b.Id() != "" ==> !Encloses(a, c, b)
  }

  /** Ids have no blanks around them, and no id's keys enclose another id's key. */
  ghost predicate Harmless(u: iset<Session>) {
    CleanIds(u) && NothingEnclosed(u)
  }

  ghost predicate RowsOver(d: Rows, u: iset<Session>) {
    forall r :: r in d ==> r in u && r.Id() != ""
  }

  lemma HarmlessKeepsPlace(u: iset<Session>, d: Rows, x: Session)
    requires Harmless(u) && RowsOver(d, u) && x in u && x.Id() != ""
    ensures K.KeepsPlace(d, x, Below, IdOf)
  {
    forall r, y | r in d && y in d && IdOf(r) == IdOf(x) && IdOf(y) != IdOf(x) ensures K.SameSide(r, x, y, Below) {
      SameSideIffNotEnclosed(r, x, y);
    }
  }

  lemma UpsertOver(u: iset<Session>, d: Rows, x: Session)
    requires DistinctIds(d) && RowsOver(d, u) && x in u && x.Id() != ""
    ensures DistinctIds(Upsert(d, x)) && RowsOver(Upsert(d, x), u)
  {
    K.UpsertKeepsDistinct(d, x, IdOf);
  }

  /** One write: trimming the previous top-N plus the write gives the top-N of everything plus the write. */
  lemma TopNStep(u: iset<Session>, full: Rows, mem: Rows, x: Session, n: nat)
    requires Harmless(u) && x in u && x.Id() != ""
    requires DistinctIds(full) && RowsOver(full, u) && DistinctIds(mem) && RowsOver(mem, u)
    requires SortDesc(mem) == SortDesc(full) || SortDesc(mem) == Slice(SortDesc(full), n)
    ensures Slice(SortDesc(Upsert(mem, x)), n) == Slice(SortDesc(Upsert(full, x)), n)
  {
    BelowIsKeyOrder();
    HarmlessKeepsPlace(u, full, x);
    HarmlessKeepsPlace(u, mem, x);
    K.TopNStep(full, mem, x, n, Below, IdOf);
  }

  // ---- Trimming ----

  lemma KeepMembers(d: Rows, ids: set<string>)
    ensures forall r :: r in Keep(d, ids) <==> r in d && r.Id() in ids
    ensures DistinctIds(d) ==> DistinctIds(Keep(d, ids))
  {
    K.KeepMembers(d, (r: Session) => r.Id() in ids);
    if DistinctIds(d) {
      K.KeepDistinct(d, (r: Session) => r.Id() in ids, IdOf);
    }
  }

  lemma SliceMembers(s: Rows, n: int, r: Session)
    requires r in Slice(s, n)
    ensures r in s
  {
  }

  lemma SameIdSameRow(d: Rows, a: Session, b: Session)
    requires DistinctIds(d) && a in d && b in d && a.Id() == b.Id()
    ensures a == b
  {
    var i :| 0 <= i < |d| && d[i] == a;
    var j :| 0 <= j < |d| && d[j] == b;
    assert IdOf(d[i]) == IdOf(d[j]);
  }

  /** A row survives a trim exactly when it is among the first `n` sorted rows and its id has no surrounding blanks. */
  lemma TrimKeepsExactly(d: Rows, n: int, r: Session)
    requires DistinctIds(d)
    ensures r in Trim(d, n) <==> r in Slice(SortDesc(d), n) && r.CleanId()
  {
    KeepMembers(d, KeepIds(d, n));
    K.SortMembers(d, Below);
    var top := Slice(SortDesc(d), n);
    if r in top && r.CleanId() {
      SliceMembers(SortDesc(d), n, r);
      var i :| 0 <= i < |top| && top[i] == r;
      assert r.Id() in KeepIds(d, n);
    }
    if r in Trim(d, n) {
      var i :| 0 <= i < |top| && top[i].rawId == r.Id();
      StripIdempotent(r.rawId);
      SliceMembers(SortDesc(d), n, top[i]);
      SameIdSameRow(d, top[i], r);
    }
  }

  /** With clean ids no row a trim drops is newer than one it keeps. */
  lemma TrimDropsOldest(d: Rows, n: int, kept: Session, dropped: Session)
    requires DistinctIds(d) && kept in Trim(d, n) && dropped in d && dropped !in Trim(d, n) && dropped.CleanId()
    ensures !Older(kept, dropped)
  {
    TrimKeepsExactly(d, n, kept);
    TrimKeepsExactly(d, n, dropped);
    SortContents(d);
    K.SortMembers(d, Below);
    var s := SortDesc(d);
    var i :| 0 <= i < |Slice(s, n)| && Slice(s, n)[i] == kept;
    var j :| 0 <= j < |s| && s[j] == dropped;
    assert j >= |Slice(s, n)|;
  }

  ghost predicate AllClean(d: Rows) {
    forall r :: r in d ==> r.CleanId()
  }

  lemma KeepPrefix(s: Rows, k: nat, ids: set<string>)
    requires DistinctIds(s) && k <= |s| && AllClean(s) && ids == set i | 0 <= i < k :: s[i].rawId
    ensures Keep(s, ids) == s[..k]
  {
    forall i | 0 <= i < |s| ensures s[i].rawId == IdOf(s[i]) {
      assert s[i] in s;
    }
    forall i | 0 <= i < |s| ensures IdOf(s[i]) in ids <==> i < k {
      OwnIdOnly(s, k, i);
    }
    K.KeepIsPrefix(s, k, (r: Session) => r.Id() in ids);
  }

  lemma OwnIdOnly(s: Rows, k: nat, i: nat)
    requires DistinctIds(s) && i < |s| && k <= |s|
    ensures (exists j :: 0 <= j < k && IdOf(s[j]) == IdOf(s[i])) <==> i < k
  {
    assert forall j :: 0 <= j < k && j != i ==> IdOf(s[j]) != IdOf(s[i]);
  }

  lemma TrimKeepsRows(d: Rows, n: int)
    requires DistinctIds(d)
    ensures DistinctIds(Trim(d, n))
    ensures forall r :: r in Trim(d, n) ==> r in d
  {
    KeepMembers(d, KeepIds(d, n));
  }

  lemma SortKeep(d: Rows, ids: set<string>)
    ensures SortDesc(Keep(d, ids)) == Keep(SortDesc(d), ids)
  {
    BelowIsKeyOrder();
    K.SortKeep(d, Below, (r: Session) => r.Id() in ids);
  }

  lemma SortedRows(d: Rows)
    requires DistinctIds(d)
    ensures DistinctIds(SortDesc(d))
    ensures forall r :: r in SortDesc(d) <==> r in d
  {
    K.SortMembers(d, Below);
    K.SortDistinct(d, Below, IdOf);
  }

  /** With clean ids a trim is a prefix of the sorted view. */
  lemma TrimIsPrefix(d: Rows, n: int)
    requires DistinctIds(d) && AllClean(d)
    ensures SortDesc(Trim(d, n)) == Slice(SortDesc(d), n)
    ensures DistinctIds(Trim(d, n)) && AllClean(Trim(d, n))
  {
    var s := SortDesc(d);
    SortedRows(d);
    var top := Slice(s, n);
    assert top == s[..|top|];
    KeepPrefix(s, |top|, KeepIds(d, n));
    SortKeep(d, KeepIds(d, n));
    TrimKeepsRows(d, n);
  }
}
