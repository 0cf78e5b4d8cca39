/** The store object itself: fields updated in place over a log file that outlives it. */
module OperatorSessionStore {
  import opened Options
  import opened SessionRows
  import opened SessionLog

  /** The JSONL file; only appended to. */
  class LogFile {
    var lines: seq<Line>

    constructor (lines: seq<Line>)
      ensures this.lines == lines
    {
      this.lines := lines;
    }
  }

  class SessionStore {
    const file: LogFile
    const maxSessions: int
    var corruptLineCount: nat
    var sessions: Rows
    var auditEvents: seq<AuditEvent>

    function Value(): Store
      reads this
    {
      Store(sessions, auditEvents, corruptLineCount)
    }

    ghost function State(): World
      reads this, file
    {
      World(file.lines, Value())
    }

    /** A new store replays the log it is opened on. */
    constructor (file: LogFile, maxSessions: int)
      ensures this.file == file && this.maxSessions == maxSessions
      ensures State() == World(file.lines, Load(file.lines))
    {
      this.file := file;
      this.maxSessions := maxSessions;
      corruptLineCount := 0;
      sessions := [];
      auditEvents := [];
      new;
      ReadLog();
    }

    method ReadLog()
      requires Value() == EMPTY_STORE
      modifies this
      ensures Value() == Load(file.lines)
    {
      var i := 0;
      while i < |file.lines|
        invariant i <= |file.lines|
        invariant Value() == Load(file.lines[..i])
      {
        assert file.lines[..i + 1] == file.lines[..i] + [file.lines[i]];
        LoadAppend(file.lines[..i], file.lines[i]);
        match file.lines[i] {
          case Blank =>
          case Corrupt => corruptLineCount := corruptLineCount + 1;
          case SessionLine(s) =>
            if s.Id() != "" {
              sessions := Upsert(sessions, s);
            }
          case AuditLine(e) =>
            if e.fields != map[] {
              auditEvents := auditEvents + [e];
            }
          case OtherLine =>
        }
        i := i + 1;
      }
      assert file.lines[..i] == file.lines;
    }

    method WriteSession(s: Session)
      modifies this, file
      ensures State() == Step(old(State()), Op.WriteSession(s), maxSessions)
    {
      if s.Id() == "" {
        return;
      }
      sessions := Upsert(sessions, s);
      file.lines := file.lines + [SessionLine(s)];
      TrimMemory();
    }

    method WriteAuditEvent(e: AuditEvent)
      modifies this, file
      ensures State() == Step(old(State()), WriteAudit(e), maxSessions)
    {
      auditEvents := auditEvents + [e];
      file.lines := file.lines + [AuditLine(e)];
    }

    method TrimMemory()
      modifies this`sessions
      ensures sessions == Trim(old(sessions), maxSessions)
    {
      var rows := GetSessions(None);
      var top := Slice(rows, maxSessions);
      var keepIds := set i | 0 <= i < |top| :: top[i].rawId;
      sessions := Keep(sessions, keepIds);
    }

    method GetSessions(limit: Option<int>) returns (rows: Rows)
      ensures rows == Sessions(Value(), limit)
    {
      rows := SortDesc(sessions);
      if limit.Some? {
        rows := Slice(rows, if limit.value > 0 then limit.value else 0);
      }
    }

    method GetLatestSession() returns (latest: Option<Session>)
      ensures latest == LatestSession(Value())
    {
      if sessions == [] {
        return None;
      }
      var rows := GetSessions(None);
      SortContents(sessions);
      latest := Some(rows[0]);
    }
  }
}
