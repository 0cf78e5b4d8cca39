/** At-most-once admission of LiquidityVoid observations over interleaved books and candles. */
module LiquidityVoid {
  import opened Options
  import opened ObservedPairs

  /** A book observation (no signal, adapter failure, or a vote), or a candle whose dispatch looks at the lane. */
  datatype Event =
    | BookEvent(symbol: string, produced: Option<Produced>)
    | CandleEvent(symbol: string, ts: int)

  datatype Admission = Admission(symbol: string, vote: Vote, candleTs: int)

  datatype World = World(states: map<string, VoidState>, admitted: seq<Admission>)

  function StateOf(w: World, s: string): VoidState {
    if s in w.states then w.states[s] else EMPTY_VOID
  }

  function Step(paper: bool, w: World, e: Event): World {
    match e
    case BookEvent(s, produced) => w.(states := w.states[s := ObserveVoid(StateOf(w, s), produced)])
    case CandleEvent(s, ts) =>
      var (st, taken) := ConsumeVoid(paper, s, StateOf(w, s), ts);
      World(w.states[s := st], if taken.None? then w.admitted else w.admitted + [Admission(s, taken.value.1, ts)])
  }

  function Run(paper: bool, es: seq<Event>): World {
    if es == [] then World(map[], []) else Step(paper, Run(paper, es[..|es| - 1]), es[|es| - 1])
  }

  /** Event `i` produced a vote with id `id`. */
  predicate Voted(es: seq<Event>, i: nat, id: string)
    requires i < |es|
  {
    && es[i].BookEvent? && es[i].produced.Some? && es[i].produced.value.vote.Some?
    && es[i].produced.value.vote.value.uuid == id
  }

  /** Each non-empty vote id is produced by one event only. */
  ghost predicate FreshIds(es: seq<Event>) {
    forall i, j, id :: 0 <= i < j < |es| && id != "" && Voted(es, i, id) ==> !Voted(es, j, id)
  }

  ghost predicate WasAdmitted(w: World, id: string) {
    exists k :: 0 <= k < |w.admitted| && w.admitted[k].vote.uuid == id
  }

  ghost predicate Observed(es: seq<Event>, s: string, v: Vote) {
    exists i :: 0 <= i < |es| && Voted(es, i, v.uuid) && es[i].symbol == s && es[i].produced.value.vote == Some(v)
  }

  /**
   * Buffered and admitted votes come from observations of their symbol, an admitted vote still buffered is the one
   * marked consumed, and admissions are distinct, named and not after their candle.
   */
  ghost predicate Sound(es: seq<Event>, w: World) {
    && (forall s :: StateOf(w, s).vote.Some? ==>
          Observed(es, s, StateOf(w, s).vote.value)
          && (WasAdmitted(w, StateOf(w, s).vote.value.uuid)
              ==> StateOf(w, s).consumed == Some(StateOf(w, s).vote.value.uuid)))
    && (forall k :: 0 <= k < |w.admitted| ==>
          Observed(es, w.admitted[k].symbol, w.admitted[k].vote) && w.admitted[k].vote.uuid != ""
          && w.admitted[k].vote.ts.Some? && w.admitted[k].vote.ts.value <= w.admitted[k].candleTs)
    && (forall j, k :: 0 <= j < k < |w.admitted| ==> w.admitted[j].vote.uuid != w.admitted[k].vote.uuid)
  }

  lemma ObservedGrows(es: seq<Event>, e: Event, s: string, v: Vote)
    requires Observed(es, s, v)
    ensures Observed(es + [e], s, v)
  {
    var i :| 0 <= i < |es| && Voted(es, i, v.uuid) && es[i].symbol == s && es[i].produced.value.vote == Some(v);
    assert (es + [e])[i] == es[i];
    assert Voted(es + [e], i, v.uuid);
  }

  lemma SameIdSameObservation(es: seq<Event>, s: string, v: Vote, t: string, u: Vote)
    requires FreshIds(es) && Observed(es, s, v) && Observed(es, t, u) && v.uuid == u.uuid && v.uuid != ""
    ensures s == t && v == u
  {
    var i :| 0 <= i < |es| && Voted(es, i, v.uuid) && es[i].symbol == s && es[i].produced.value.vote == Some(v);
    var j :| 0 <= j < |es| && Voted(es, j, u.uuid) && es[j].symbol == t && es[j].produced.value.vote == Some(u);
  }

  lemma NewVoteNotAdmitted(es: seq<Event>, w: World, e: Event, v: Vote)
    requires Sound(es, w) && FreshIds(es + [e])
    requires e.BookEvent? && e.produced.Some? && e.produced.value.vote == Some(v)
    ensures !WasAdmitted(w, v.uuid)
  {
    var es' := es + [e];
    assert Voted(es', |es|, v.uuid);
    forall k | 0 <= k < |w.admitted| ensures w.admitted[k].vote.uuid != v.uuid {
      var a := w.admitted[k];
      ObservedGrows(es, e, a.symbol, a.vote);
      var i :| 0 <= i < |es| && Voted(es, i, a.vote.uuid) && es[i].symbol == a.symbol
          && es[i].produced.value.vote == Some(a.vote);
      assert Voted(es', i, a.vote.uuid);
    }
  }

  lemma BookSound(paper: bool, es: seq<Event>, w: World, e: Event)
    requires Sound(es, w) && e.BookEvent? && FreshIds(es + [e])
    ensures Sound(es + [e], Step(paper, w, e))
  {
    var es', w' := es + [e], Step(paper, w, e);
    forall k | 0 <= k < |w.admitted| ensures Observed(es', w.admitted[k].symbol, w.admitted[k].vote) {
      ObservedGrows(es, e, w.admitted[k].symbol, w.admitted[k].vote);
    }
    forall s | StateOf(w', s).vote.Some?
      ensures Observed(es', s, StateOf(w', s).vote.value)
      ensures WasAdmitted(w', StateOf(w', s).vote.value.uuid)
              ==> StateOf(w', s).consumed == Some(StateOf(w', s).vote.value.uuid)
    {
      var v := StateOf(w', s).vote.value;
      if s == e.symbol && e.produced.Some? && e.produced.value.vote.Some? {
        assert es'[|es|] == e && Voted(es', |es|, v.uuid);
        NewVoteNotAdmitted(es, w, e, v);
        assert w'.admitted == w.admitted;
      } else {
        assert StateOf(w, s).vote == StateOf(w', s).vote;
        ObservedGrows(es, e, s, v);
        if WasAdmitted(w', v.uuid) {
          assert WasAdmitted(w, v.uuid);
        }
      }
    }
  }

  lemma CandleSound(paper: bool, es: seq<Event>, w: World, e: Event)
    requires Sound(es, w) && e.CandleEvent? && FreshIds(es + [e])
    ensures Sound(es + [e], Step(paper, w, e))
  {
    var es', w' := es + [e], Step(paper, w, e);
    forall s, v | Observed(es, s, v) ensures Observed(es', s, v) {
      ObservedGrows(es, e, s, v);
    }
    forall s ensures StateOf(w', s).vote == StateOf(w, s).vote {
    }
    var here := StateOf(w, e.symbol);
    forall s | StateOf(w', s).vote.Some? && WasAdmitted(w', StateOf(w', s).vote.value.uuid)
      ensures StateOf(w', s).consumed == Some(StateOf(w', s).vote.value.uuid)
    {
      var v := StateOf(w', s).vote.value;
      var k :| 0 <= k < |w'.admitted| && w'.admitted[k].vote.uuid == v.uuid;
      if k < |w.admitted| {
        assert w.admitted[k].vote.uuid == v.uuid;
        assert WasAdmitted(w, v.uuid);
      } else {
        SameIdSameObservation(es', s, v, e.symbol, here.vote.value);
      }
    }
    if VoidAdmissible(paper, e.symbol, here, e.ts) {
      assert !WasAdmitted(w, here.vote.value.uuid);
    }
  }

  lemma {:induction false} RunSound(paper: bool, es: seq<Event>)
    requires FreshIds(es)
    ensures Sound(es, Run(paper, es))
  {
    if es != [] {
      var k := |es| - 1;
      assert es == es[..k] + [es[k]];
      assert FreshIds(es[..k]) by {
        assert forall i, id :: 0 <= i < k ==> Voted(es[..k], i, id) == Voted(es, i, id);
      }
      RunSound(paper, es[..k]);
      if es[k].BookEvent? {
        BookSound(paper, es[..k], Run(paper, es[..k]), es[k]);
      } else {
        CandleSound(paper, es[..k], Run(paper, es[..k]), es[k]);
      }
    }
  }

  /**
   * With fresh vote ids no id is admitted twice, and every admitted vote was observed for that symbol and is not
   * after its candle.
   */
  lemma AtMostOnce(paper: bool, es: seq<Event>)
    requires FreshIds(es)
    ensures var a := Run(paper, es).admitted;
            && (forall j, k :: 0 <= j < k < |a| ==> a[j].vote.uuid != a[k].vote.uuid)
            && (forall k :: 0 <= k < |a| ==> Observed(es, a[k].symbol, a[k].vote)
                                             && a[k].vote.ts.Some? && a[k].vote.ts.value <= a[k].candleTs)
  {
    RunSound(paper, es);
  }

  /** A candle either admits and marks its vote consumed, or changes nothing at all. */
  lemma BlockedChangesNothing(paper: bool, w: World, s: string, ts: int, t: string)
    ensures var w' := Step(paper, w, CandleEvent(s, ts));
            && (w'.admitted != w.admitted <==> VoidAdmissible(paper, s, StateOf(w, s), ts))
            && (w'.admitted == w.admitted ==> StateOf(w', t) == StateOf(w, t))
            && (w'.admitted != w.admitted ==>
                  StateOf(w', s).consumed == Some(w'.admitted[|w.admitted|].vote.uuid) != StateOf(w, s).consumed)
  {
    if !VoidAdmissible(paper, s, StateOf(w, s), ts) {
      assert Step(paper, w, CandleEvent(s, ts)).admitted == w.admitted;
    } else {
      assert |Step(paper, w, CandleEvent(s, ts)).admitted| == |w.admitted| + 1;
    }
  }

  // ---- Exactly when each id is admitted at most once ----

  /** The lane's signal and vote as if nothing were ever consumed. */
  function Seen(es: seq<Event>, s: string): VoidState {
    if es == [] then EMPTY_VOID
    else
      var before, e := Seen(es[..|es| - 1], s), es[|es| - 1];
      if e.BookEvent? && e.symbol == s then ObserveVoid(before, e.produced) else before
  }

  /** A vote id that passes every gate but the consumed marker when a candle of its symbol looks. */
  datatype Offer = Offer(symbol: string, id: string)

  function Offers(paper: bool, es: seq<Event>): seq<Offer> {
    if es == [] then []
    else
      var before, e := Offers(paper, es[..|es| - 1]), es[|es| - 1];
      var st := Seen(es[..|es| - 1], e.symbol);
      if e.CandleEvent? && VoidAdmissible(paper, e.symbol, st, e.ts) then before + [Offer(e.symbol, st.vote.value.uuid)]
      else before
  }

  /** The last id offered on a symbol. */
  function LastOn(o: seq<Offer>, s: string): Option<string> {
    if o == [] then None
    else if o[|o| - 1].symbol == s then Some(o[|o| - 1].id)
    else LastOn(o[..|o| - 1], s)
  }

  /** The offers that differ from the last one on their symbol. */
  function Changes(o: seq<Offer>): seq<Offer> {
    if o == [] then []
    else
      var init, x := o[..|o| - 1], o[|o| - 1];
      if LastOn(init, x.symbol) == Some(x.id) then Changes(init) else Changes(init) + [x]
  }

  function Key(a: Admission): Offer { Offer(a.symbol, a.vote.uuid) }

  function Keys(a: seq<Admission>): seq<Offer> {
    seq(|a|, i requires 0 <= i < |a| => Key(a[i]))
  }

  lemma KeysSnoc(a: seq<Admission>, x: Admission)
    ensures Keys(a + [x]) == Keys(a) + [Key(x)]
  {
  }

  /** The consumed marker is the last id offered, and what is admitted are the changes among the offers. */
  lemma {:induction false} AdmitsTheChanges(paper: bool, es: seq<Event>)
    ensures forall s :: StateOf(Run(paper, es), s) == Seen(es, s).(consumed := LastOn(Offers(paper, es), s))
    ensures Keys(Run(paper, es).admitted) == Changes(Offers(paper, es))
  {
    if es != [] {
      var k := |es| - 1;
      AdmitsTheChanges(paper, es[..k]);
      if es[k].CandleEvent? {
        LookAdmitsAChange(paper, es[..k], es[k], es);
      }
    }
  }

  lemma {:induction false} SeenConsumesNothing(es: seq<Event>, s: string)
    ensures Seen(es, s).consumed == None
  {
    if es != [] {
      SeenConsumesNothing(es[..|es| - 1], s);
    }
  }

  lemma LookAdmitsAChange(paper: bool, es: seq<Event>, e: Event, all: seq<Event>)
    requires e.CandleEvent? && all == es + [e]
    requires forall s :: StateOf(Run(paper, es), s) == Seen(es, s).(consumed := LastOn(Offers(paper, es), s))
    requires Keys(Run(paper, es).admitted) == Changes(Offers(paper, es))
    ensures forall s :: StateOf(Run(paper, all), s) == Seen(all, s).(consumed := LastOn(Offers(paper, all), s))
    ensures Keys(Run(paper, all).admitted) == Changes(Offers(paper, all))
  {
    assert all[..|es|] == es;
    var w, o, st := Run(paper, es), Offers(paper, es), Seen(es, e.symbol);
    SeenConsumesNothing(es, e.symbol);
    if VoidAdmissible(paper, e.symbol, st, e.ts) {
      var x := Offer(e.symbol, st.vote.value.uuid);
      assert (o + [x])[..|o|] == o;
      KeysSnoc(w.admitted, Admission(e.symbol, st.vote.value, e.ts));
    }
  }

  /** No id is offered on two symbols, and none returns on its symbol after a different one was offered there. */
  ghost predicate NoReturn(o: seq<Offer>) {
    forall i, k :: 0 <= i < k < |o| && o[i].id == o[k].id ==> Undisturbed(o, i, k)
  }

  ghost predicate Undisturbed(o: seq<Offer>, i: int, k: int)
    requires 0 <= i < k < |o|
  {
    o[i].symbol == o[k].symbol && forall j :: i < j < k && o[j].symbol == o[i].symbol ==> o[j].id == o[i].id
  }

  ghost predicate DistinctOffers(o: seq<Offer>) {
    forall i, j :: 0 <= i < j < |o| ==> o[i].id != o[j].id
  }

  function Ids(o: seq<Offer>): set<string> {
    set x | x in o :: x.id
  }

  lemma IdsSnoc(o: seq<Offer>, x: Offer)
    ensures Ids(o + [x]) == Ids(o) + {x.id}
  {
    assert forall y :: y in o + [x] <==> y in o || y == x;
    assert x in o + [x];
  }

  lemma {:induction false} ChangesHaveEveryId(o: seq<Offer>)
    ensures Ids(Changes(o)) == Ids(o)
  {
    if o != [] {
      var init, x := o[..|o| - 1], o[|o| - 1];
      assert o == init + [x];
      ChangesHaveEveryId(init);
      IdsSnoc(init, x);
      if LastOn(init, x.symbol) == Some(x.id) {
        var l := LastAt(init, x.symbol);
        assert init[l] in init;
      } else {
        IdsSnoc(Changes(init), x);
      }
    }
  }

  /** Where the last offer of a symbol is. */
  lemma {:induction false} LastAt(o: seq<Offer>, s: string) returns (l: nat)
    requires LastOn(o, s).Some?
    ensures l < |o| && o[l] == Offer(s, LastOn(o, s).value) && forall j :: l < j < |o| ==> o[j].symbol != s
  {
    if o[|o| - 1].symbol == s {
      l := |o| - 1;
    } else {
      l := LastAt(o[..|o| - 1], s);
    }
  }

  lemma {:induction false} OfferedHasLast(o: seq<Offer>, i: nat)
    requires i < |o|
    ensures LastOn(o, o[i].symbol).Some?
  {
    if i < |o| - 1 {
      OfferedHasLast(o[..|o| - 1], i);
    }
  }

  /** An offer that repeats the last one of its symbol returns to nothing. */
  lemma RepeatIsNoReturn(o: seq<Offer>, x: Offer)
    requires NoReturn(o) && LastOn(o, x.symbol) == Some(x.id)
    ensures NoReturn(o + [x])
  {
    var all := o + [x];
    var l := LastAt(o, x.symbol);
    assert forall i :: l < i < |o| ==> o[i].symbol != o[l].symbol && o[i].id != o[l].id;
    forall i, k | 0 <= i < k < |all| && all[i].id == all[k].id ensures Undisturbed(all, i, k) {
      if k < |o| {
        assert Undisturbed(o, i, k);
      } else if i < l {
        assert Undisturbed(o, i, l);
      }
    }
  }

  /** An id offered before comes back on another symbol or after a different one. */
  lemma ChangeReturns(o: seq<Offer>, x: Offer, i: nat)
    requires LastOn(o, x.symbol) != Some(x.id) && i < |o| && o[i].id == x.id
    ensures !NoReturn(o + [x])
  {
    var all := o + [x];
    if o[i].symbol == x.symbol {
      OfferedHasLast(o, i);
      var l := LastAt(o, x.symbol);
      assert i < l && all[l].symbol == x.symbol && all[l].id != x.id;
    }
    assert all[i].id == all[|o|].id && !Undisturbed(all, i, |o|);
  }

  lemma NewIdReturnsNothing(o: seq<Offer>, x: Offer)
    requires NoReturn(o) && x.id !in Ids(o)
    ensures NoReturn(o + [x])
  {
    var all := o + [x];
    assert forall i :: 0 <= i < |o| ==> o[i] in o && o[i].id != x.id;
    forall i, k | 0 <= i < k < |all| && all[i].id == all[k].id ensures Undisturbed(all, i, k) {
      assert Undisturbed(o, i, k);
    }
  }

  /** A changed offer returns to something exactly when its id was offered before. */
  lemma ChangeReturnsIff(o: seq<Offer>, x: Offer)
    requires NoReturn(o) && LastOn(o, x.symbol) != Some(x.id)
    ensures NoReturn(o + [x]) <==> x.id !in Ids(o)
  {
    if x.id in Ids(o) {
      var i :| 0 <= i < |o| && o[i].id == x.id;
      ChangeReturns(o, x, i);
    } else {
      NewIdReturnsNothing(o, x);
    }
  }

  lemma NoReturnPrefix(o: seq<Offer>, x: Offer)
    requires NoReturn(o + [x])
    ensures NoReturn(o)
  {
    var all := o + [x];
    forall i, k | 0 <= i < k < |o| && o[i].id == o[k].id ensures Undisturbed(o, i, k) {
      assert all[i].id == all[k].id && Undisturbed(all, i, k);
      assert forall j :: i < j < k ==> all[j] == o[j];
    }
  }

  lemma DistinctSnoc(c: seq<Offer>, x: Offer)
    ensures DistinctOffers(c + [x]) <==> DistinctOffers(c) && x.id !in Ids(c)
  {
    var all := c + [x];
    assert all[|c|] == x && forall i :: 0 <= i < |c| ==> all[i] == c[i];
    assert forall i :: 0 <= i < |c| ==> c[i] in c;
    if DistinctOffers(all) {
      assert forall i, j :: 0 <= i < j < |c| ==> all[i].id != all[j].id;
      assert forall i :: 0 <= i < |c| ==> all[i].id != all[|c|].id;
    }
  }

  lemma {:induction false} DistinctChangesIff(o: seq<Offer>)
    ensures DistinctOffers(Changes(o)) <==> NoReturn(o)
  {
    if o != [] {
      var init, x := o[..|o| - 1], o[|o| - 1];
      assert o == init + [x];
      DistinctChangesIff(init);
      if NoReturn(o) {
        NoReturnPrefix(init, x);
      }
      if LastOn(init, x.symbol) == Some(x.id) {
        if NoReturn(init) {
          RepeatIsNoReturn(init, x);
        }
      } else {
        DistinctSnoc(Changes(init), x);
        ChangesHaveEveryId(init);
        if NoReturn(init) {
          ChangeReturnsIff(init, x);
        }
      }
    }
  }

  /**
   * In every run each id is admitted at most once exactly when, among the ids offered to candles, none is offered on
   * two symbols and none returns after a different one. The adapter stamps each vote with a new random id, so none
   * does.
   */
  lemma AtMostOnceIff(paper: bool, es: seq<Event>)
    ensures var a := Run(paper, es).admitted;
            (forall j, k :: 0 <= j < k < |a| ==> a[j].vote.uuid != a[k].vote.uuid) <==> NoReturn(Offers(paper, es))
  {
    AdmitsTheChanges(paper, es);
    DistinctChangesIff(Offers(paper, es));
    var a := Run(paper, es).admitted;
    assert forall j :: 0 <= j < |a| ==> Keys(a)[j].id == a[j].vote.uuid;
    if DistinctOffers(Keys(a)) {
      assert forall j, k :: 0 <= j < k < |a| ==> Keys(a)[j].id != Keys(a)[k].id;
    }
  }

  // ---- Exactly when a candle admits ----

  /** Event `i` is the last book of the symbol that brought a signal. */
  ghost predicate LastSignalAt(es: seq<Event>, s: string, i: int) {
    && 0 <= i < |es| && es[i].BookEvent? && es[i].symbol == s && es[i].produced != None
    && forall j :: i < j < |es| && es[j].BookEvent? && es[j].symbol == s ==> es[j].produced == None
  }

  /** Event `i` is the last book of the symbol whose adapter made a vote. */
  ghost predicate LastVoteAt(es: seq<Event>, s: string, i: int) {
    && 0 <= i < |es| && es[i].BookEvent? && es[i].symbol == s && Makes(es[i].produced)
    && forall j :: i < j < |es| && es[j].BookEvent? && es[j].symbol == s ==> !Makes(es[j].produced)
  }

  predicate Makes(p: Option<Produced>) { p != None && p.value.vote != None }

  lemma {:induction false} SeenSignal(es: seq<Event>, s: string, i: int)
    requires LastSignalAt(es, s, i)
    ensures Seen(es, s).signal == Some(es[i].produced.value.signal)
  {
    var k := |es| - 1;
    if i < k {
      assert LastSignalAt(es[..k], s, i);
      SeenSignal(es[..k], s, i);
    }
  }

  lemma {:induction false} SeenVote(es: seq<Event>, s: string, i: int)
    requires LastVoteAt(es, s, i)
    ensures Seen(es, s).vote == es[i].produced.value.vote
  {
    var k := |es| - 1;
    if i < k {
      assert LastVoteAt(es[..k], s, i);
      SeenVote(es[..k], s, i);
    }
  }

  lemma {:induction false} SeenSomething(es: seq<Event>, s: string)
    ensures Seen(es, s).signal != None ==> exists i :: LastSignalAt(es, s, i)
    ensures Seen(es, s).vote != None ==> exists i :: LastVoteAt(es, s, i)
  {
    if es != [] {
      var k := |es| - 1;
      SeenSomething(es[..k], s);
      if Seen(es, s).signal != None {
        if es[k].BookEvent? && es[k].symbol == s && es[k].produced != None {
          assert LastSignalAt(es, s, k);
        } else {
          var i :| LastSignalAt(es[..k], s, i);
          assert LastSignalAt(es, s, i);
        }
      }
      if Seen(es, s).vote != None {
        if es[k].BookEvent? && es[k].symbol == s && Makes(es[k].produced) {
          assert LastVoteAt(es, s, k);
        } else {
          var i :| LastVoteAt(es[..k], s, i);
          assert LastVoteAt(es, s, i);
        }
      }
    }
  }

  /** A signal and vote that may be admitted on a candle of the symbol: its own, stamped in time, with an id. */
  predicate Presentable(sig: Signal, v: Vote, s: string, ts: int) {
    (sig.symbol == None || sig.symbol == Some(s)) && v.ts != None && v.ts.value <= ts && v.uuid != ""
  }

  /** The signal of book `i` and the vote of book `j` are the last ones, presentable, and not offered just before. */
  ghost predicate PresentsLast(paper: bool, es: seq<Event>, s: string, ts: int, i: int, j: int) {
    && LastSignalAt(es, s, i) && LastVoteAt(es, s, j)
    && Presentable(es[i].produced.value.signal, es[j].produced.value.vote.value, s, ts)
    && LastOn(Offers(paper, es), s) != Some(es[j].produced.value.vote.value.uuid)
  }

  lemma AdmissibleIff(paper: bool, es: seq<Event>, s: string, ts: int)
    ensures VoidAdmissible(paper, s, Seen(es, s).(consumed := LastOn(Offers(paper, es), s)), ts)
       <==> paper && exists i, j :: PresentsLast(paper, es, s, ts, i, j)
  {
    var now := Seen(es, s).(consumed := LastOn(Offers(paper, es), s));
    SeenSomething(es, s);
    if VoidAdmissible(paper, s, now, ts) {
      var i :| LastSignalAt(es, s, i);
      var j :| LastVoteAt(es, s, j);
      SeenSignal(es, s, i);
      SeenVote(es, s, j);
      assert PresentsLast(paper, es, s, ts, i, j);
    }
    if paper && exists i, j :: PresentsLast(paper, es, s, ts, i, j) {
      var i, j :| PresentsLast(paper, es, s, ts, i, j);
      SeenSignal(es, s, i);
      SeenVote(es, s, j);
    }
  }

  /**
   * In every run the next candle of a symbol admits exactly in paper trading, when the last signal and the last vote of
   * its books are presentable and the vote's id is not the one last offered there.
   */
  lemma CandleAdmitsIff(paper: bool, es: seq<Event>, s: string, ts: int)
    ensures |Run(paper, es + [CandleEvent(s, ts)]).admitted| == |Run(paper, es).admitted| + 1
       <==> paper && exists i, j :: PresentsLast(paper, es, s, ts, i, j)
  {
    assert (es + [CandleEvent(s, ts)])[..|es|] == es;
    AdmitsTheChanges(paper, es);
    AdmissibleIff(paper, es, s, ts);
  }
}
