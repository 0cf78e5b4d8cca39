/** The operator session store: an append-only log, a trimmed in-memory map, and replay. */
module SessionLog {
  import opened Options
  import opened SessionRows
  import K = KeyedRows
  import Text

  /** An audit event; the empty dictionary is falsy and is skipped on load. */
  datatype AuditEvent = AuditEvent(fields: map<string, int>)

  /** A line of the JSONL file after `json.loads`, or why it has none. */
  datatype Line = Blank | Corrupt | SessionLine(session: Session) | AuditLine(event: AuditEvent) | OtherLine

  datatype Store = Store(sessions: Rows, audits: seq<AuditEvent>, corrupt: nat)

  const EMPTY_STORE := Store([], [], 0)

  function LoadLine(st: Store, line: Line): Store {
    match line
    case Corrupt => st.(corrupt := st.corrupt + 1)
    case SessionLine(s) => if s.Id() != "" then st.(sessions := Upsert(st.sessions, s)) else st
    case AuditLine(e) => if e.fields != map[] then st.(audits := st.audits + [e]) else st
    case _ => st
  }

  /** What a fresh store holds after reading the whole log. */
  function Load(log: seq<Line>): Store {
    if log == [] then EMPTY_STORE else LoadLine(Load(log[..|log| - 1]), log[|log| - 1])
  }

  /** Everything an operator process does with the store; `Reopen` is a restart. */
  datatype Op = WriteSession(session: Session) | WriteAudit(event: AuditEvent) | Reopen

  datatype World = World(log: seq<Line>, store: Store)

  function Step(w: World, op: Op, maxSessions: int): World {
    match op
    case WriteSession(s) =>
      if s.Id() == "" then w
      else World(w.log + [SessionLine(s)], w.store.(sessions := Trim(Upsert(w.store.sessions, s), maxSessions)))
    case WriteAudit(e) => World(w.log + [AuditLine(e)], w.store.(audits := w.store.audits + [e]))
    case Reopen => w.(store := Load(w.log))
  }

  function Run(w: World, ops: seq<Op>, maxSessions: int): World {
    if ops == [] then w else Step(Run(w, ops[..|ops| - 1], maxSessions), ops[|ops| - 1], maxSessions)
  }

  /** `sessions()` without a limit. */
  function View(st: Store): Rows {
    SortDesc(st.sessions)
  }

  /** `sessions(limit=...)`: a negative limit is zero. */
  function Sessions(st: Store, limit: Option<int>): Rows {
    if limit.None? then View(st) else Slice(View(st), if limit.value > 0 then limit.value else 0)
  }

  function LatestSession(st: Store): Option<Session> {
    SortContents(st.sessions);
    if st.sessions == [] then None else Some(SortDesc(st.sessions)[0])
  }

  /** The latest session is one of the store's, and none of the store's is newer. */
  lemma LatestIsNewest(st: Store)
    ensures LatestSession(st).Some? <==> st.sessions != []
    ensures LatestSession(st).Some? ==>
              LatestSession(st).value in st.sessions
              && forall s :: s in st.sessions ==> !Older(LatestSession(st).value, s)
  {
    if st.sessions != [] {
      var rows := View(st);
      SortContents(st.sessions);
      K.SortMembers(st.sessions, Below);
      forall s | s in st.sessions ensures !Older(rows[0], s) {
        var j :| 0 <= j < |rows| && rows[j] == s;
        NotOlderThanSelf(s);
      }
    }
  }

  /** A listing is the newest rows of the store, as many as asked for and there are. */
  lemma SessionsExactly(st: Store, limit: Option<int>, s: Session)
    ensures var rows := Sessions(st, limit);
            && rows <= View(st)
            && |rows| == (if limit == None || limit.value >= |st.sessions| then |st.sessions|
                          else if limit.value <= 0 then 0 else limit.value)
            && (s in st.sessions && s !in rows ==> forall r :: r in rows ==> !Older(r, s))
  {
    SortContents(st.sessions);
    K.SortMembers(st.sessions, Below);
    var rows, view := Sessions(st, limit), View(st);
    if s in st.sessions && s !in rows {
      var j :| 0 <= j < |view| && view[j] == s;
      forall r | r in rows ensures !Older(r, s) {
        var i :| 0 <= i < |rows| && rows[i] == r;
        assert view[i] == r && i < j;
      }
    }
  }

  function CorruptLines(log: seq<Line>): nat {
    if log == [] then 0 else CorruptLines(log[..|log| - 1]) + (if log[|log| - 1] == Corrupt then 1 else 0)
  }

  /** The counter is the number of lines that could not be read. */
  lemma {:induction false} CorruptCounted(log: seq<Line>)
    ensures Load(log).corrupt == CorruptLines(log)
  {
    if log != [] {
      CorruptCounted(log[..|log| - 1]);
    }
  }

  predicate Writes(op: Op) { op.WriteSession? && op.session.Id() != "" }

  /** Whether a session with an id was written since the store was last opened, after one more operation. */
  predicate WroteAfter(op: Op, before: bool) {
    !op.Reopen? && (before || Writes(op))
  }

  predicate WroteSinceOpen(ops: seq<Op>) {
    ops != [] && WroteAfter(ops[|ops| - 1], WroteSinceOpen(ops[..|ops| - 1]))
  }

  /** The sessions with an id in the log, and those written by the operations, are all from `u`. */
  ghost predicate LogOver(log: seq<Line>, u: iset<Session>) {
    forall l :: l in log && l.SessionLine? && l.session.Id() != "" ==> l.session in u
  }

  ghost predicate OpsOver(ops: seq<Op>, u: iset<Session>) {
    forall op :: op in ops && Writes(op) ==> op.session in u
  }

  lemma LoadAppend(log: seq<Line>, line: Line)
    ensures Load(log + [line]) == LoadLine(Load(log), line)
  {
    assert (log + [line])[..|log|] == log;
  }

  lemma RunAppend(w: World, ops: seq<Op>, op: Op, n: int)
    ensures Run(w, ops + [op], n) == Step(Run(w, ops, n), op, n)
  {
    assert (ops + [op])[..|ops|] == ops;
  }

  lemma LineOver(st: Store, line: Line, u: iset<Session>)
    requires DistinctIds(st.sessions) && RowsOver(st.sessions, u)
    requires line.SessionLine? && line.session.Id() != "" ==> line.session in u
    ensures DistinctIds(LoadLine(st, line).sessions) && RowsOver(LoadLine(st, line).sessions, u)
  {
    if line.SessionLine? && line.session.Id() != "" {
      UpsertOver(u, st.sessions, line.session);
    }
  }

  lemma {:induction false} LoadOver(log: seq<Line>, u: iset<Session>)
    requires LogOver(log, u)
    ensures DistinctIds(Load(log).sessions) && RowsOver(Load(log).sessions, u)
  {
    if log != [] {
      var k := |log| - 1;
      assert forall l :: l in log[..k] ==> l in log;
      LoadOver(log[..k], u);
      assert log[k] in log;
      LineOver(Load(log[..k]), log[k], u);
    }
  }

  /** What the store shows against what a replay would: the trimmed slice after a write, everything before one. */
  ghost predicate Agrees(w: World, n: int, wrote: bool) {
    View(w.store) == if wrote then Slice(View(Load(w.log)), n) else View(Load(w.log))
  }

  ghost predicate Over(w: World, u: iset<Session>) {
    LogOver(w.log, u) && DistinctIds(w.store.sessions) && RowsOver(w.store.sessions, u)
  }

  lemma WriteOver(u: iset<Session>, w: World, s: Session, n: int)
    requires Over(w, u) && s.Id() != "" && s in u
    ensures Over(Step(w, WriteSession(s), n), u)
  {
    UpsertOver(u, w.store.sessions, s);
    TrimKeepsRows(Upsert(w.store.sessions, s), n);
  }

  lemma StepOver(u: iset<Session>, w: World, op: Op, n: int)
    requires Over(w, u) && (Writes(op) ==> op.session in u)
    ensures Over(Step(w, op, n), u)
  {
    if Writes(op) {
      WriteOver(u, w, op.session, n);
    } else if op.Reopen? {
      LoadOver(w.log, u);
    }
  }

  lemma {:induction false} RunOver(u: iset<Session>, log: seq<Line>, ops: seq<Op>, n: int)
    requires LogOver(log, u) && OpsOver(ops, u)
    ensures Over(Run(World(log, Load(log)), ops, n), u)
  {
    if ops == [] {
      LoadOver(log, u);
    } else {
      var k := |ops| - 1;
      assert forall op :: op in ops[..k] ==> op in ops;
      assert ops[k] in ops;
      RunOver(u, log, ops[..k], n);
      StepOver(u, Run(World(log, Load(log)), ops[..k], n), ops[k], n);
    }
  }

  /** What memory shows after a write: the trimmed top of its rows with the write in them. */
  lemma ViewAfterWrite(u: iset<Session>, mem: Rows, s: Session, n: int)
    requires Harmless(u) && DistinctIds(mem) && RowsOver(mem, u) && s in u && s.Id() != ""
    ensures SortDesc(Trim(Upsert(mem, s), n)) == Slice(SortDesc(Upsert(mem, s)), n)
  {
    UpsertOver(u, mem, s);
    TrimIsPrefix(Upsert(mem, s), n);
  }

  lemma WriteAgrees(u: iset<Session>, w: World, s: Session, n: nat, wrote: bool)
    requires Harmless(u) && Over(w, u) && Agrees(w, n, wrote) && s.Id() != "" && s in u
    ensures Agrees(Step(w, WriteSession(s), n), n, true)
  {
    LoadOver(w.log, u);
    LoadAppend(w.log, SessionLine(s));
    TopNStep(u, Load(w.log).sessions, w.store.sessions, s, n);
    ViewAfterWrite(u, w.store.sessions, s, n);
  }

  /** Operations that write no session keep the agreement, a reopen by making memory the replay. */
  lemma QuietStepAgrees(w: World, op: Op, n: int, wrote: bool)
    requires !Writes(op) && Agrees(w, n, wrote)
    ensures Agrees(Step(w, op, n), n, WroteAfter(op, wrote))
  {
    if op.WriteAudit? {
      LoadAppend(w.log, AuditLine(op.event));
    }
  }

  lemma StepAgrees(u: iset<Session>, w: World, op: Op, n: nat, wrote: bool)
    requires Harmless(u) && Over(w, u) && Agrees(w, n, wrote) && (Writes(op) ==> op.session in u)
    ensures Agrees(Step(w, op, n), n, WroteAfter(op, wrote))
  {
    if Writes(op) {
      WriteAgrees(u, w, op.session, n, wrote);
    } else {
      QuietStepAgrees(w, op, n, wrote);
    }
  }

  lemma {:induction false} RunAgrees(u: iset<Session>, log: seq<Line>, ops: seq<Op>, n: nat)
    requires Harmless(u) && LogOver(log, u) && OpsOver(ops, u)
    ensures Agrees(Run(World(log, Load(log)), ops, n), n, WroteSinceOpen(ops))
  {
    if ops != [] {
      var k := |ops| - 1;
      assert forall op :: op in ops[..k] ==> op in ops;
      assert ops[k] in ops;
      RunAgrees(u, log, ops[..k], n);
      RunOver(u, log, ops[..k], n);
      StepAgrees(u, Run(World(log, Load(log)), ops[..k], n), ops[k], n, WroteSinceOpen(ops[..k]));
    }
  }

  /**
   * Online top-N equals offline top-N: after any run over harmless sessions the view is the first `n` rows of a replay,
   * once something was written since opening, and the whole replay before; and the latest session agrees.
   */
  lemma TrimmedViewAgreesWithReplay(u: iset<Session>, log: seq<Line>, ops: seq<Op>, n: nat)
    requires Harmless(u) && LogOver(log, u) && OpsOver(ops, u)
    ensures var w := Run(World(log, Load(log)), ops, n);
            Agrees(w, n, WroteSinceOpen(ops)) && (n > 0 ==> LatestSession(w.store) == LatestSession(Load(w.log)))
  {
    RunAgrees(u, log, ops, n);
    if n > 0 {
      LatestAgrees(Run(World(log, Load(log)), ops, n), n, WroteSinceOpen(ops));
    }
  }

  lemma LatestAgrees(w: World, n: int, wrote: bool)
    requires Agrees(w, n, wrote) && n > 0
    ensures LatestSession(w.store) == LatestSession(Load(w.log))
  {
    SortContents(w.store.sessions);
    SortContents(Load(w.log).sessions);
  }

  // ---- What a replay holds ----

  lemma UpsertElements(d: Rows, s: Session, r: Session)
    requires DistinctIds(d)
    ensures r in Upsert(d, s) <==> r == s || (r in d && r.Id() != s.Id())
    ensures DistinctIds(Upsert(d, s))
  {
    var u := Upsert(d, s);
    if Has(d, s.Id()) {
      var i :| 0 <= i < |d| && d[i].Id() == s.Id();
      assert u[i] == s;
      if r in d && r.Id() != s.Id() {
        var j :| 0 <= j < |d| && d[j] == r;
        assert u[j] == r;
      }
    } else {
      assert forall i :: 0 <= i < |d| ==> d[i].Id() != s.Id();
    }
  }

  /** The session line at position `i` is `s`, and no later one carries its id. */
  ghost predicate LastWrittenAt(log: seq<Line>, s: Session, i: int) {
    && 0 <= i < |log| && log[i] == SessionLine(s)
    && forall j :: i < j < |log| && log[j].SessionLine? ==> log[j].session.Id() != s.Id()
  }

  ghost predicate LastWritten(log: seq<Line>, s: Session) {
    exists i :: LastWrittenAt(log, s, i)
  }

  predicate Overwrites(line: Line, s: Session) {
    line.SessionLine? && line.session.Id() == s.Id()
  }

  lemma LastWrittenAtStep(log: seq<Line>, line: Line, s: Session, i: int)
    ensures LastWrittenAt(log + [line], s, i)
       <==> if i == |log| then line == SessionLine(s) else LastWrittenAt(log, s, i) && !Overwrites(line, s)
  {
    var l := log + [line];
    assert l[|log|] == line && forall j :: 0 <= j < |log| ==> l[j] == log[j];
  }

  lemma LastWrittenStep(log: seq<Line>, line: Line, s: Session)
    ensures LastWritten(log + [line], s)
       <==> line == SessionLine(s) || (LastWritten(log, s) && !Overwrites(line, s))
  {
    forall i ensures LastWrittenAt(log + [line], s, i)
                <==> if i == |log| then line == SessionLine(s) else LastWrittenAt(log, s, i) && !Overwrites(line, s)
    {
      LastWrittenAtStep(log, line, s, i);
    }
    if line == SessionLine(s) {
      assert LastWrittenAt(log + [line], s, |log|);
    } else if LastWritten(log, s) && !Overwrites(line, s) {
      var i :| LastWrittenAt(log, s, i);
      assert LastWrittenAt(log + [line], s, i);
    }
  }

  /** A replay holds exactly the latest payload written under each non-empty id, once. */
  lemma {:induction false} ReplayHoldsLatest(log: seq<Line>, s: Session)
    ensures s in Load(log).sessions <==> s.Id() != "" && LastWritten(log, s)
    ensures DistinctIds(Load(log).sessions)
  {
    if log != [] {
      var k := |log| - 1;
      ReplayHoldsLatest(log[..k], s);
      assert log == log[..k] + [log[k]];
      LastWrittenStep(log[..k], log[k], s);
      if log[k].SessionLine? {
        UpsertElements(Load(log[..k]).sessions, log[k].session, s);
      }
    }
  }

  // ---- Audit events ----

  function EmptyAuditsSinceOpen(ops: seq<Op>): nat {
    if ops == [] then 0
    else match ops[|ops| - 1]
         case WriteSession(_) => EmptyAuditsSinceOpen(ops[..|ops| - 1])
         case WriteAudit(e) => EmptyAuditsSinceOpen(ops[..|ops| - 1]) + (if e.fields == map[] then 1 else 0)
         case Reopen => 0
  }

  lemma {:induction false} AuditDrift(log: seq<Line>, ops: seq<Op>, maxSessions: int)
    ensures var w := Run(World(log, Load(log)), ops, maxSessions);
            && |w.store.audits| == |Load(w.log).audits| + EmptyAuditsSinceOpen(ops)
            && (EmptyAuditsSinceOpen(ops) == 0 ==> w.store.audits == Load(w.log).audits)
  {
    if ops != [] {
      var k := |ops| - 1;
      AuditDrift(log, ops[..k], maxSessions);
      AuditStep(Run(World(log, Load(log)), ops[..k], maxSessions), ops[k], maxSessions);
    }
  }

  lemma AuditStep(w: World, op: Op, maxSessions: int)
    ensures var w' := Step(w, op, maxSessions);
            match op
            case WriteSession(_) => w'.store.audits == w.store.audits && Load(w'.log).audits == Load(w.log).audits
            case WriteAudit(e) =>
              && w'.store.audits == w.store.audits + [e]
              && Load(w'.log).audits == Load(w.log).audits + (if e.fields == map[] then [] else [e])
            case Reopen => w'.store.audits == Load(w'.log).audits
  {
    match op
    case WriteSession(s) => LoadAppend(w.log, SessionLine(s));
    case WriteAudit(e) => LoadAppend(w.log, AuditLine(e));
    case Reopen =>
  }

  /** The audit list in memory equals its replay exactly when no empty event was written since the store was opened. */
  lemma AuditsAgreeWithReplayIff(log: seq<Line>, ops: seq<Op>, maxSessions: int)
    ensures var w := Run(World(log, Load(log)), ops, maxSessions);
            w.store.audits == Load(w.log).audits <==> EmptyAuditsSinceOpen(ops) == 0
  {
    AuditDrift(log, ops, maxSessions);
  }

  // ---- Exactly when every run agrees ----

  lemma UncleanIsTrimmed(x: Session, n: int)
    requires !x.CleanId()
    ensures Trim([x], n) == []
  {
    var t := Trim([x], n);
    TrimKeepsRows([x], n);
    if t != [] {
      assert t[0] in t;
      assert t[0] == x;
      TrimKeepsExactly([x], n, x);
    }
  }

  lemma FirstWrite(x: Session, n: int)
    requires x.Id() != ""
    ensures Run(World([], EMPTY_STORE), [WriteSession(x)], n) == World([SessionLine(x)], Store(Trim([x], n), [], 0))
    ensures Load([SessionLine(x)]) == Store([x], [], 0) && SortDesc([x]) == [x]
  {
    RunAppend(World([], EMPTY_STORE), [], WriteSession(x), n);
    LoadAppend([], SessionLine(x));
    assert [] + [WriteSession(x)] == [WriteSession(x)] && [] + [SessionLine(x)] == [SessionLine(x)];
    assert Upsert([], x) == [x];
    K.SortSnoc([], x, Below);
    assert [] + [x] == [x];
  }

  /** A session whose id has surrounding blanks is lost from memory at once, though the log keeps it. */
  lemma BlankIdBreaksAgreement(x: Session)
    requires x.Id() != "" && !x.CleanId()
    ensures !Agrees(Run(World([], EMPTY_STORE), [WriteSession(x)], 1), 1, true)
  {
    FirstWrite(x, 1);
    UncleanIsTrimmed(x, 1);
  }

  lemma SortOne(x: Session)
    ensures SortDesc([x]) == [x]
  {
    K.SortSnoc([], x, Below);
    assert [] + [x] == [x];
  }

  lemma SortTwo(x: Session, y: Session)
    ensures SortDesc([x, y]) == if Below(x, y) then [y, x] else [x, y]
  {
    K.SortSnoc([], x, Below);
    K.SortSnoc([x], y, Below);
    K.InsertCons(x, [], y, Below);
    assert [] + [x] == [x] && [x] + [y] == [x, y] && [x] + [] == [x];
  }

  lemma TrimToOne(d: Rows, x: Session)
    requires DistinctIds(d) && AllClean(d) && Slice(SortDesc(d), 1) == [x]
    ensures Trim(d, 1) == [x]
  {
    TrimIsPrefix(d, 1);
    var t := Trim(d, 1);
    SortContents(t);
    assert t[0] in multiset(t);
  }

  /** A write at limit 1 that leaves the row `kept`. */
  lemma WriteKeepsOne(log: seq<Line>, log': seq<Line>, before: Rows, s: Session, after: Rows, kept: Session)
    requires s.Id() != "" && after == Upsert(before, s) && DistinctIds(after) && AllClean(after)
    requires Slice(SortDesc(after), 1) == [kept] && log' == log + [SessionLine(s)]
    ensures Step(World(log, Store(before, [], 0)), WriteSession(s), 1) == World(log', Store([kept], [], 0))
  {
    TrimToOne(after, kept);
  }

  function ThreeWrites(x: Session, y: Session, z: Session): seq<Op> {
    [WriteSession(x), WriteSession(y), WriteSession(z)]
  }

  lemma LoadSnoc(log: seq<Line>, line: Line, all: seq<Line>)
    requires all == log + [line]
    ensures Load(all) == LoadLine(Load(log), line)
  {
    LoadAppend(log, line);
  }

  lemma LoadThree(x: Session, y: Session, z: Session, two: Rows)
    requires x.Id() != "" && y.Id() != "" && z.Id() != "" && two == Upsert([x], y)
    ensures Load(ThreeLines(x, y, z)).sessions == Upsert(two, z)
  {
    var l1, l2 := [SessionLine(x)], [SessionLine(x), SessionLine(y)];
    FirstWrite(x, 1);
    LoadSnoc(l1, SessionLine(y), l2);
    LoadSnoc(l2, SessionLine(z), ThreeLines(x, y, z));
  }

  lemma RunSnoc(w: World, ops: seq<Op>, op: Op, all: seq<Op>, n: int)
    requires all == ops + [op]
    ensures Run(w, all, n) == Step(Run(w, ops, n), op, n)
  {
    RunAppend(w, ops, op, n);
  }

  lemma RunThree(w: World, x: Session, y: Session, z: Session, w1: World, w2: World, w3: World)
    requires w1 == Step(w, WriteSession(x), 1) && w2 == Step(w1, WriteSession(y), 1)
             && w3 == Step(w2, WriteSession(z), 1)
    ensures Run(w, ThreeWrites(x, y, z), 1) == w3
  {
    var o1, o2 := [WriteSession(x)], [WriteSession(x), WriteSession(y)];
    RunSnoc(w, [], WriteSession(x), o1, 1);
    RunSnoc(w, o1, WriteSession(y), o2, 1);
    RunSnoc(w, o2, WriteSession(z), ThreeWrites(x, y, z), 1);
  }

  /** The states of three writes at limit 1 in which `kept` is left after two of them, `left` after all three. */
  lemma KeepThroughThree(x: Session, y: Session, z: Session, kept: Session, left: Session,
                         l1: seq<Line>, l2: seq<Line>, l3: seq<Line>)
    requires x.Id() != "" && y.Id() != "" && z.Id() != "" && AllClean([x]) && AllClean([x, y])
    requires SortDesc([x]) == [x] && Upsert([], x) == [x] && Upsert([x], y) == [x, y] && DistinctIds([x, y])
    requires Slice(SortDesc([x, y]), 1) == [kept]
    requires Slice(SortDesc(Upsert([kept], z)), 1) == [left]
    requires DistinctIds(Upsert([kept], z)) && AllClean(Upsert([kept], z))
    requires l1 == [] + [SessionLine(x)] && l2 == l1 + [SessionLine(y)] && l3 == l2 + [SessionLine(z)]
    ensures Run(World([], EMPTY_STORE), ThreeWrites(x, y, z), 1) == World(l3, Store([left], [], 0))
  {
    WriteKeepsOne([], l1, [], x, [x], x);
    WriteKeepsOne(l1, l2, [x], y, [x, y], kept);
    WriteKeepsOne(l2, l3, [kept], z, Upsert([kept], z), left);
    RunThree(World([], EMPTY_STORE), x, y, z, World(l1, Store([x], [], 0)), World(l2, Store([kept], [], 0)),
             World(l3, Store([left], [], 0)));
  }

  lemma CleanUpsert(kept: Session, z: Session)
    requires kept.CleanId() && z.CleanId()
    ensures DistinctIds(Upsert([kept], z)) && AllClean(Upsert([kept], z))
  {
    K.UpsertKeepsDistinct([kept], z, IdOf);
  }

  lemma TwoRows(x: Session, y: Session)
    requires x.CleanId() && y.CleanId() && x.Id() != y.Id()
    ensures Upsert([], x) == [x] && Upsert([x], y) == [x, y] && DistinctIds([x, y])
    ensures AllClean([x]) && AllClean([x, y])
  {
  }

  lemma NewRow(d: Rows, x: Session)
    requires !K.Has(d, IdOf, IdOf(x))
    ensures Upsert(d, x) == d + [x]
  {
  }

  function ThreeLines(x: Session, y: Session, z: Session): seq<Line> {
    [SessionLine(x), SessionLine(y), SessionLine(z)]
  }

  lemma MemoryAfterThree(x: Session, y: Session, z: Session, kept: Session, left: Session)
    requires x.Id() != "" && y.Id() != "" && z.Id() != "" && x.CleanId() && y.CleanId() && z.CleanId()
             && x.Id() != y.Id()
    requires (kept == x || kept == y) && Slice(SortDesc([x, y]), 1) == [kept]
    requires Slice(SortDesc(Upsert([kept], z)), 1) == [left]
    ensures Run(World([], EMPTY_STORE), ThreeWrites(x, y, z), 1) == World(ThreeLines(x, y, z), Store([left], [], 0))
  {
    TwoRows(x, y);
    SortOne(x);
    CleanUpsert(kept, z);
    KeepThroughThree(x, y, z, kept, left, [SessionLine(x)], [SessionLine(x), SessionLine(y)], ThreeLines(x, y, z));
  }

  /** Three writes at limit 1 that leave `left` in memory while a replay of them ranks another row first. */
  lemma ThreeWritesDisagree(x: Session, y: Session, z: Session, kept: Session, left: Session, top: Session)
    requires x.Id() != "" && y.Id() != "" && z.Id() != "" && x.CleanId() && y.CleanId() && z.CleanId()
             && x.Id() != y.Id()
    requires (kept == x || kept == y) && Slice(SortDesc([x, y]), 1) == [kept]
    requires Slice(SortDesc(Upsert([kept], z)), 1) == [left]
    requires Slice(SortDesc(Upsert([x, y], z)), 1) == [top] && left != top
    ensures !Agrees(Run(World([], EMPTY_STORE), ThreeWrites(x, y, z), 1), 1, true)
  {
    MemoryAfterThree(x, y, z, kept, left);
    SortOne(left);
    NewRow([x], y);
    LoadThree(x, y, z, [x, y]);
  }

  ghost predicate ThreeClean(a: Session, b: Session, c: Session) {
    a.CleanId() && b.CleanId() && c.CleanId() && a.Id() == c.Id() != b.Id() && a.Id() != "" && b.Id() != ""
  }

  lemma Overwrite(a: Session, b: Session, c: Session)
    requires a.Id() == c.Id() != b.Id()
    ensures Upsert([a], c) == [c] && Upsert([a, b], c) == [c, b] && Upsert([b, a], c) == [b, c]
  {
    K.UpsertSmall(a, b, c, IdOf);
  }

  /** Rewriting the kept row `a` below `b` leaves it in memory, although a replay ranks `b` first. */
  lemma LoweredBelow(a: Session, b: Session, c: Session)
    requires ThreeClean(a, b, c) && !Below(a, b) && Below(c, b)
    ensures !Agrees(Run(World([], EMPTY_STORE), ThreeWrites(a, b, c), 1), 1, true)
  {
    SortTwo(a, b);
    SortOne(c);
    SortTwo(c, b);
    Overwrite(a, b, c);
    ThreeWritesDisagree(a, b, c, a, c, b);
  }

  /** Lowering the kept row `a` to no more than an earlier `b` leaves it in memory, although a replay puts `b` first. */
  lemma LoweredToTie(a: Session, b: Session, c: Session)
    requires ThreeClean(a, b, c) && Below(b, a) && !Below(b, c)
    ensures !Agrees(Run(World([], EMPTY_STORE), ThreeWrites(b, a, c), 1), 1, true)
  {
    SortTwo(b, a);
    SortTwo(b, c);
    SortOne(c);
    Overwrite(a, b, c);
    ThreeWritesDisagree(b, a, c, a, c, b);
  }

  /** An enclosed key always breaks agreement in some run of three writes at limit 1. */
  lemma EnclosedKeyBreaksAgreement(a: Session, c: Session, b: Session) returns (ops: seq<Op>)
    requires ThreeClean(a, b, c) && Encloses(a, c, b)
    ensures ops == ThreeWrites(c, b, a) || ops == ThreeWrites(b, c, a)
    ensures !Agrees(Run(World([], EMPTY_STORE), ops, 1), 1, true)
  {
    Text.StrLtTrichotomy(a.SortKey(), b.SortKey());
    if Below(a, b) {
      ops := ThreeWrites(c, b, a);
      LoweredBelow(c, b, a);
    } else {
      ops := ThreeWrites(b, c, a);
      LoweredToTie(c, b, a);
    }
  }

  /** Every run over `u` from an empty log agrees with a replay at limit `n`. */
  ghost predicate AllRunsAgree(u: iset<Session>, n: int) {
    forall ops :: OpsOver(ops, u) ==> Agrees(Run(World([], EMPTY_STORE), ops, n), n, WroteSinceOpen(ops))
  }

  lemma WritesAlways(ops: seq<Op>)
    requires ops != [] && Writes(ops[|ops| - 1])
    ensures WroteSinceOpen(ops)
  {
  }

  /**
   * Every run at every limit agrees with a replay exactly when ids are clean and no id's keys enclose another id's
   * key.
   */
  lemma AllRunsAgreeIffHarmless(u: iset<Session>)
    ensures (forall n: nat :: AllRunsAgree(u, n)) <==> Harmless(u)
  {
    if Harmless(u) {
      forall n: nat ensures AllRunsAgree(u, n) {
        forall ops | OpsOver(ops, u) ensures Agrees(Run(World([], EMPTY_STORE), ops, n), n, WroteSinceOpen(ops)) {
          RunAgrees(u, [], ops, n);
        }
      }
    } else {
      var ops := Counterexample(u);
      assert !AllRunsAgree(u, 1);
    }
  }

  lemma UncleanCounterexample(u: iset<Session>) returns (ops: seq<Op>)
    requires !CleanIds(u)
    ensures OpsOver(ops, u) && !Agrees(Run(World([], EMPTY_STORE), ops, 1), 1, WroteSinceOpen(ops))
  {
    var s :| s in u && s.Id() != "" && !s.CleanId();
    ops := [WriteSession(s)];
    BlankIdBreaksAgreement(s);
    WritesAlways(ops);
  }

  lemma Counterexample(u: iset<Session>) returns (ops: seq<Op>)
    requires !Harmless(u)
    ensures OpsOver(ops, u) && !Agrees(Run(World([], EMPTY_STORE), ops, 1), 1, WroteSinceOpen(ops))
  {
    if !CleanIds(u) {
      ops := UncleanCounterexample(u);
    } else {
      ops := EnclosedCounterexample(u);
    }
  }

  lemma ThreeOver(u: iset<Session>, x: Session, y: Session, z: Session)
    requires x in u && y in u && z in u && z.Id() != ""
    ensures OpsOver(ThreeWrites(x, y, z), u) && WroteSinceOpen(ThreeWrites(x, y, z))
  {
    WritesAlways(ThreeWrites(x, y, z));
  }

  lemma FindEnclosed(u: iset<Session>) returns (a: Session, c: Session, b: Session)
    requires CleanIds(u) && !NothingEnclosed(u)
    ensures a in u && b in u && c in u && ThreeClean(a, b, c) && Encloses(a, c, b)
  {
    a, b, c :| a in u && b in u && c in u && a.Id() != "" && b.Id() != "" && Encloses(a, c, b);
  }

  lemma EnclosedCounterexample(u: iset<Session>) returns (ops: seq<Op>)
    requires CleanIds(u) && !NothingEnclosed(u)
    ensures OpsOver(ops, u) && !Agrees(Run(World([], EMPTY_STORE), ops, 1), 1, WroteSinceOpen(ops))
  {
    var a, c, b := FindEnclosed(u);
    ops := EnclosedKeyBreaksAgreement(a, c, b);
    ThreeOver(u, c, b, a);
    ThreeOver(u, b, c, a);
  }

  // ---- Negative limits ----

  /** At most `m` different ids. */
  ghost predicate FewIds(u: iset<Session>, m: int) {
    forall d: Rows :: DistinctIds(d) && RowsOver(d, u) ==> |d| <= m
  }

  lemma ShortIsDropped(d: Rows, n: int)
    requires n < 0 && |d| <= -n
    ensures Slice(SortDesc(d), n) == [] && Trim(d, n) == []
  {
    SortContents(d);
    assert KeepIds(d, n) == {};
    K.KeepNone(d, (r: Session) => r.Id() in KeepIds(d, n));
  }

  lemma FewRowsWrite(u: iset<Session>, d: Rows, s: Session, n: int)
    requires n < 0 && FewIds(u, -n) && DistinctIds(d) && RowsOver(d, u) && s.Id() != "" && s in u
    ensures Slice(SortDesc(Upsert(d, s)), n) == [] && Trim(Upsert(d, s), n) == []
  {
    UpsertOver(u, d, s);
    ShortIsDropped(Upsert(d, s), n);
  }

  /** A write over few ids leaves nothing in memory, and nothing in the same slice of a replay. */
  lemma FewIdsWrite(u: iset<Session>, w: World, s: Session, n: int)
    requires n < 0 && FewIds(u, -n) && Over(w, u) && s.Id() != "" && s in u
    ensures Agrees(Step(w, WriteSession(s), n), n, true)
  {
    LoadAppend(w.log, SessionLine(s));
    LoadOver(w.log, u);
    FewRowsWrite(u, Load(w.log).sessions, s, n);
    FewRowsWrite(u, w.store.sessions, s, n);
    assert SortDesc([]) == [];
  }

  lemma FewIdsStep(u: iset<Session>, w: World, op: Op, n: int, wrote: bool)
    requires n < 0 && FewIds(u, -n) && Over(w, u) && Agrees(w, n, wrote) && (Writes(op) ==> op.session in u)
    ensures Agrees(Step(w, op, n), n, WroteAfter(op, wrote))
  {
    if Writes(op) {
      FewIdsWrite(u, w, op.session, n);
    } else {
      QuietStepAgrees(w, op, n, wrote);
    }
  }

  lemma {:induction false} FewIdsAgree(u: iset<Session>, log: seq<Line>, ops: seq<Op>, n: int)
    requires n < 0 && FewIds(u, -n) && LogOver(log, u) && OpsOver(ops, u)
    ensures Agrees(Run(World(log, Load(log)), ops, n), n, WroteSinceOpen(ops))
  {
    if ops != [] {
      var k := |ops| - 1;
      assert forall op :: op in ops[..k] ==> op in ops;
      assert ops[k] in ops;
      FewIdsAgree(u, log, ops[..k], n);
      RunOver(u, log, ops[..k], n);
      FewIdsStep(u, Run(World(log, Load(log)), ops[..k], n), ops[k], n, WroteSinceOpen(ops[..k]));
    }
  }

  function WriteAll(d: Rows): seq<Op> {
    if d == [] then [] else WriteAll(d[..|d| - 1]) + [WriteSession(d[|d| - 1])]
  }

  lemma WriteOneMore(w: World, init: Rows, last: Session, n: int)
    requires n < 0 && w.store.sessions == [] && Load(w.log).sessions == init
    requires !K.Has(init, IdOf, IdOf(last)) && last.Id() != ""
    ensures Step(w, WriteSession(last), n).store.sessions == []
    ensures Load(Step(w, WriteSession(last), n).log).sessions == init + [last]
  {
    LoadAppend(w.log, SessionLine(last));
    NewRow(init, last);
    NewRow([], last);
    assert [] + [last] == [last];
    ShortIsDropped([last], n);
  }

  /** Writing rows of different ids under a negative limit keeps none of them; the log replays them all. */
  lemma {:induction false} WriteAllKeepsNothing(d: Rows, n: int)
    requires n < 0 && DistinctIds(d) && forall r :: r in d ==> r.Id() != ""
    ensures var w := Run(World([], EMPTY_STORE), WriteAll(d), n);
            w.store.sessions == [] && Load(w.log).sessions == d
  {
    if d != [] {
      var init, last := d[..|d| - 1], d[|d| - 1];
      assert d == init + [last] && last in d;
      K.DistinctSnoc(init, last, IdOf);
      WriteAllKeepsNothing(init, n);
      WriteOneMore(Run(World([], EMPTY_STORE), WriteAll(init), n), init, last, n);
      RunAppend(World([], EMPTY_STORE), WriteAll(init), WriteSession(last), n);
    }
  }

  lemma {:induction false} WriteAllOver(u: iset<Session>, d: Rows)
    requires RowsOver(d, u)
    ensures OpsOver(WriteAll(d), u) && (d != [] ==> WroteSinceOpen(WriteAll(d)))
  {
    if d != [] {
      var init, last := d[..|d| - 1], d[|d| - 1];
      assert d == init + [last] && last in d;
      WriteAllOver(u, init);
      WritesAlways(WriteAll(d));
    }
  }

  lemma ManyIdsDisagree(u: iset<Session>, d: Rows, n: int)
    requires n < 0 && DistinctIds(d) && RowsOver(d, u) && |d| > -n
    ensures OpsOver(WriteAll(d), u)
    ensures !Agrees(Run(World([], EMPTY_STORE), WriteAll(d), n), n, WroteSinceOpen(WriteAll(d)))
  {
    WriteAllKeepsNothing(d, n);
    WriteAllOver(u, d);
    SortContents(d);
    assert |Slice(SortDesc(d), n)| == |d| + n;
    ShortIsDropped([], n);
    SortContents([]);
  }

  /** At a negative limit every run agrees exactly when there are no more ids than the limit drops. */
  lemma NegativeLimitAgreesIff(u: iset<Session>, n: int)
    requires n < 0
    ensures AllRunsAgree(u, n) <==> FewIds(u, -n)
  {
    if FewIds(u, -n) {
      forall ops | OpsOver(ops, u) ensures Agrees(Run(World([], EMPTY_STORE), ops, n), n, WroteSinceOpen(ops)) {
        FewIdsAgree(u, [], ops, n);
      }
    } else {
      var d: Rows :| DistinctIds(d) && RowsOver(d, u) && |d| > -n;
      ManyIdsDisagree(u, d, n);
    }
  }
}
