/** The buffered, sorted, size-bounded sentiment admission and the one-line rule it refines. */
module SentimentAdmission {
  import opened Records
  import K = KeyedRows

  datatype Update = Update(value: real, ts: int)

  const BUFFER_MAX: nat := 100

  // ---- The simple rule: deliver iff newer than the last delivered ----

  datatype Delivery = Delivery(lastSent: int, sent: seq<Update>)

  function Deliver(d: Delivery, u: Update): Delivery {
    if u.ts > d.lastSent then Delivery(u.ts, d.sent + [u]) else d
  }

  function DeliverAll(us: seq<Update>): Delivery {
    if us == [] then Delivery(0, []) else Deliver(DeliverAll(us[..|us| - 1]), us[|us| - 1])
  }

  function Times(us: seq<Update>): (r: seq<int>)
    ensures |r| == |us|
  {
    seq(|us|, i requires 0 <= i < |us| => us[i].ts)
  }

  /** The engine sees exactly the strict running maxima of the input, in order. */
  lemma {:induction false} EngineSeesRunningMaxima(us: seq<Update>)
    ensures Times(DeliverAll(us).sent) == Admit(Times(us))
    ensures DeliverAll(us).lastSent == Peak(Times(us))
  {
    if us != [] {
      var k := |us| - 1;
      EngineSeesRunningMaxima(us[..k]);
      assert Times(us)[..k] == Times(us[..k]);
    }
  }

  /** Update `i` is delivered by its own call exactly when it is a positive strict maximum of the input so far. */
  lemma DeliveredIffRecord(us: seq<Update>, i: nat)
    requires i < |us|
    ensures DeliverAll(us[..i + 1]).sent == DeliverAll(us[..i]).sent + (if IsRecord(Times(us), i) then [us[i]] else [])
  {
    assert us[..i + 1][..i] == us[..i];
    EngineSeesRunningMaxima(us[..i]);
    assert Times(us[..i]) == Times(us)[..i];
    AdmittedIffRecord(Times(us), i);
  }

  // ---- The deque and the sort ----

  /** `deque(maxlen=BUFFER_MAX).append`: the oldest entry falls out of a full buffer. */
  function Push(buffer: seq<Update>, u: Update): (r: seq<Update>)
    ensures r != [] && r[|r| - 1] == u
  {
    if |buffer| < BUFFER_MAX then buffer + [u] else buffer[|buffer| + 1 - BUFFER_MAX..] + [u]
  }

  /** The deque holds the last hundred of what was there and what is pushed. */
  lemma PushExactly(buffer: seq<Update>, u: Update)
    requires |buffer| <= 100
    ensures var all := buffer + [u];
            Push(buffer, u) == if |all| <= 100 then all else all[|all| - 100..]
  {
  }

  /** The entries newer than `last`, appended one by one to an empty deque. */
  function Newer(buffer: seq<Update>, last: int): seq<Update> {
    if buffer == [] then []
    else
      var k := |buffer| - 1;
      if buffer[k].ts > last then Push(Newer(buffer[..k], last), buffer[k]) else Newer(buffer[..k], last)
  }

  lemma {:induction false} NoneNewer(buffer: seq<Update>, last: int)
    requires forall i :: 0 <= i < |buffer| ==> buffer[i].ts <= last
    ensures Newer(buffer, last) == []
  {
    if buffer != [] {
      NoneNewer(buffer[..|buffer| - 1], last);
    }
  }

  predicate Later(a: Update, b: Update) { a.ts > b.ts }

  /** `sorted(buffer, key=timestamp)`: ascending, stable. */
  function SortByTs(s: seq<Update>): seq<Update> {
    K.Sort(s, Later)
  }

  /** The sorted buffer holds the buffer's entries in ascending order. */
  lemma SortContents(s: seq<Update>)
    ensures multiset(SortByTs(s)) == multiset(s) && |SortByTs(s)| == |s|
    ensures forall i, j :: 0 <= i < j < |s| ==> SortByTs(s)[i].ts <= SortByTs(s)[j].ts
  {
    K.SortContents(s, Later);
  }

  /** At most the pushed entry is newer than `last`, and it is in the sorted buffer. */
  lemma SortedHasOneNew(buffer: seq<Update>, u: Update, last: int)
    requires forall i :: 0 <= i < |buffer| ==> buffer[i].ts <= last
    ensures var s := SortByTs(Push(buffer, u));
            && (exists p :: 0 <= p < |s| && s[p] == u)
            && (forall i :: 0 <= i < |s| ==> s[i].ts <= last || s[i] == u)
  {
    var b := Push(buffer, u);
    K.SortMembers(b, Later);
    assert b[|b| - 1] == u;
    assert u in SortByTs(b);
    forall i | 0 <= i < |SortByTs(b)| ensures SortByTs(b)[i].ts <= last || SortByTs(b)[i] == u {
      assert SortByTs(b)[i] in b;
    }
  }

  // ---- The buffered admission ----

  class SymbolRuntime {
    var buffer: seq<Update>
    var lastSent: int
    /** What the velocity engine has been given, in order. */
    var sent: seq<Update>

    function Delivered(): Delivery
      reads this
    {
      Delivery(lastSent, sent)
    }

    /** Between calls nothing waits: every buffered entry is at or below the last sent time, and the bound holds. */
    ghost predicate Valid()
      reads this
    {
      |buffer| <= BUFFER_MAX && forall i :: 0 <= i < |buffer| ==> buffer[i].ts <= lastSent
    }

    constructor ()
      ensures Valid() && Delivered() == DeliverAll([]) && buffer == []
    {
      buffer, lastSent, sent := [], 0, [];
    }

    /** Rebuild the buffer from the entries newer than the last one sent. */
    method KeepNewer()
      modifies `buffer
      ensures buffer == Newer(old(buffer), lastSent)
    {
      var remaining := [];
      var j := 0;
      while j < |buffer|
        invariant j <= |buffer| && remaining == Newer(buffer[..j], lastSent)
      {
        assert buffer[..j + 1][..j] == buffer[..j];
        if buffer[j].ts > lastSent {
          remaining := Push(remaining, buffer[j]);
        }
        j := j + 1;
      }
      assert buffer[..j] == buffer;
      buffer := remaining;
    }

    /** Append, sort, send what is newer in order, drop what was sent; no engine, no change. */
    method AdmitSentimentUpdate(hasEngine: bool, u: Update) returns (delivered: bool)
      requires Valid()
      modifies this
      ensures Valid()
      ensures Delivered() == if hasEngine then Deliver(old(Delivered()), u) else old(Delivered())
      ensures delivered <==> hasEngine && u.ts > old(lastSent)
      ensures delivered ==> buffer == []
      ensures hasEngine && !delivered ==> buffer == Push(old(buffer), u)
    {
      if !hasEngine {
        return false;
      }
      SortedHasOneNew(buffer, u, lastSent);
      buffer := Push(buffer, u);
      var sorted := SortByTs(buffer);
      var updatesSent := 0;
      var i := 0;
      while i < |sorted|
        invariant i <= |sorted|
        invariant buffer == Push(old(buffer), u) && sorted == SortByTs(buffer)
        invariant Delivered() == if u in sorted[..i] then Deliver(old(Delivered()), u) else old(Delivered())
        invariant updatesSent == |sent| - |old(sent)|
      {
        var next := sorted[i];
        if next.ts > lastSent {
          sent := sent + [next];
          lastSent := next.ts;
          updatesSent := updatesSent + 1;
        }
        i := i + 1;
      }
      assert sorted[..i] == sorted;
      if updatesSent > 0 {
        NoneNewer(buffer, lastSent);
        KeepNewer();
      }
      return updatesSent > 0;
    }
  }
}
