/**
 A run in which done turns into failed: two polls of one job are in flight at once, because
 claim_async_polls leaves status and next_run_at alone, and they read different answers.
 */
module SwapRun {
  import opened Basics
  import opened Responses
  import opened Deliveries
  import opened ClaimOrder
  import opened WorkQueue
  import opened QueueSafety
  import opened QueueHistory

  const ROW := Delivery(1, 1, Ready, 0, 0, None, None, None, None, 0, None, 0, None, None, None, None, None, None)
  const START := State(0, map[], map[1 := false], map[1 := false], map[0 := Config(1, 1, 2)], map[], map[])

  ghost predicate Leads(es: seq<Event>, s: State) {
    Reach(START, es) && End(START, es) == s
  }

  lemma Extend(es: seq<Event>, s: State, e: Event)
    requires Leads(es, s) && Enabled(s, e)
    ensures Leads(es + [e], Apply(s, e))
  {
    assert Init(es + [e]) == es && Last(es + [e]) == e;
  }

  lemma ExtendTwice(es: seq<Event>, s: State, e: Event, f: Event)
    requires Leads(es, s) && Enabled(s, e) && Enabled(Apply(s, e), f)
    ensures Leads(es + [e] + [f], Apply(Apply(s, e), f))
  {
    Extend(es, s, e);
    Extend(es + [e], Apply(s, e), f);
  }

  /** The only row was claimed and is about to be dispatched. */
  ghost predicate Fetched(s: State) {
    && s.clock == 0 && s.servers == START.servers && s.procs == START.procs && s.polls == map[]
    && s.rows.Keys == {1} && s.rows[1] == Claimed(ROW, 0)
    && At(s.sends, Cursor(0)) == [1] && At(s.sends, Channel(0)) == [] && At(s.sends, Worker(0, 0)) == []
  }

  /** The only row, waiting for its job and due for a poll. */
  ghost predicate Waiting(s: State) {
    && s.clock == 0 && s.servers == START.servers && s.procs == START.procs
    && s.rows.Keys == {1} && s.rows[1].status.AwaitingAsync? && s.rows[1].nextRunAt == 0 && s.rows[1].serverId == 1
    && At(s.polls, Cursor(0)) == [] && At(s.polls, Channel(0)) == []
  }

  const INSERT := Event(0, Insert(map[1 := ROW]))
  const FETCH := Event(0, Claim(SendLane, 0, {}, [1]))
  const POLL := Event(0, Claim(PollLane, 0, {}, [1]))

  /** A claim with room for one row takes the only one there is. */
  lemma ClaimTheOnlyRow(s: State, e: Event)
    requires e.act.Claim? && e.act == Claim(e.act.lane, 0, {}, [1])
    requires s.clock <= e.at && s.procs == START.procs && Claimable(s, e.act.lane, {}, e.at) == {1}
    ensures Enabled(s, e)
  {
    assert Elements([1]) == {1};
  }

  lemma Fetch() returns (es: seq<Event>, s: State)
    ensures Leads(es, s) && Fetched(s)
  {
    Extend([], START, INSERT);
    var inserted := Apply(START, INSERT);
    assert inserted.rows == map[1 := ROW];
    assert Claimable(inserted, SendLane, {}, 0) == {1};
    ClaimTheOnlyRow(inserted, FETCH);
    Extend([] + [INSERT], inserted, FETCH);
    es, s := [] + [INSERT] + [FETCH], Apply(inserted, FETCH);
    assert s.rows.Keys == {1} && s.rows[1] == Claimed(ROW, 0) by { RowStep(inserted, FETCH, 1); }
  }

  lemma SendHanded(s: State)
    requires Fetched(s)
    ensures var dispatch, take := Event(0, Dispatch(SendLane, 0)), Event(0, Take(SendLane, 0, 0));
      && Enabled(s, dispatch) && Enabled(Apply(s, dispatch), take)
      && var t := Apply(Apply(s, dispatch), take);
      && t == s.(sends := t.sends) && At(t.sends, Worker(0, 0)) == [1]
  {
    var t := Apply(s, Event(0, Dispatch(SendLane, 0)));
    assert At(t.sends, Channel(0)) == [1] && At(t.sends, Worker(0, 0)) == [];
  }

  lemma Accept() returns (es: seq<Event>, s: State)
    ensures Leads(es, s) && Waiting(s) && s.polls == map[]
  {
    es, s := Fetch();
    SendHanded(s);
    var dispatch, take := Event(0, Dispatch(SendLane, 0)), Event(0, Take(SendLane, 0, 0));
    ExtendTwice(es, s, dispatch, take);
    es, s := es + [dispatch] + [take], Apply(Apply(s, dispatch), take);
    assert LastSegment("x") == LastSegment("") + "x" by { assert "x"[..0] == ""; }
    var finish := Event(0, FinishSend(0, 0, 1, true, Http(202, "x", None, ""), 0));
    Extend(es, s, finish);
    es, s := es + [finish], Apply(s, finish);
  }

  /** A poll of the row is claimed; the row itself stays due. */
  lemma ClaimPoll(es: seq<Event>, s: State) returns (es': seq<Event>, t: State)
    requires Leads(es, s) && Waiting(s)
    ensures Leads(es', t)
    ensures t.clock == 0 && t.servers == s.servers && t.procs == s.procs
    ensures t.rows.Keys == {1} && t.rows[1] == Touched(s.rows[1], 0)
    ensures At(t.polls, Cursor(0)) == [1] && At(t.polls, Channel(0)) == []
    ensures forall w :: At(t.polls, Worker(0, w)) == At(s.polls, Worker(0, w))
  {
    assert Claimable(s, PollLane, {}, 0) == {1};
    ClaimTheOnlyRow(s, POLL);
    RowStep(s, POLL, 1);
    Extend(es, s, POLL);
    es', t := es + [POLL], Apply(s, POLL);
  }

  /** The claimed poll is handed to worker w. */
  lemma PollHanded(s: State, w: nat)
    requires s.clock == 0 && s.procs == START.procs && w < 2
    requires At(s.polls, Cursor(0)) == [1] && At(s.polls, Channel(0)) == [] && At(s.polls, Worker(0, w)) == []
    ensures var dispatch, take := Event(0, Dispatch(PollLane, 0)), Event(0, Take(PollLane, 0, w));
      && Enabled(s, dispatch) && Enabled(Apply(s, dispatch), take)
      && var t := Apply(Apply(s, dispatch), take);
      && t == s.(polls := t.polls) && At(t.polls, Cursor(0)) == [] && At(t.polls, Channel(0)) == []
      && At(t.polls, Worker(0, w)) == [1] && At(t.polls, Worker(0, 1 - w)) == At(s.polls, Worker(0, 1 - w))
  {
    var u := Apply(s, Event(0, Dispatch(PollLane, 0)));
    assert At(u.polls, Cursor(0)) == [] && At(u.polls, Channel(0)) == [1] && At(u.polls, Worker(0, w)) == [];
  }

  lemma HandPoll(es: seq<Event>, s: State, w: nat) returns (es': seq<Event>, t: State)
    requires Leads(es, s) && s.clock == 0 && s.procs == START.procs && w < 2
    requires At(s.polls, Cursor(0)) == [1] && At(s.polls, Channel(0)) == [] && At(s.polls, Worker(0, w)) == []
    ensures Leads(es', t) && t == s.(polls := t.polls)
    ensures At(t.polls, Cursor(0)) == [] && At(t.polls, Channel(0)) == []
    ensures At(t.polls, Worker(0, w)) == [1] && At(t.polls, Worker(0, 1 - w)) == At(s.polls, Worker(0, 1 - w))
  {
    PollHanded(s, w);
    var dispatch, take := Event(0, Dispatch(PollLane, 0)), Event(0, Take(PollLane, 0, w));
    ExtendTwice(es, s, dispatch, take);
    es', t := es + [dispatch] + [take], Apply(Apply(s, dispatch), take);
  }

  lemma TakePoll(es: seq<Event>, s: State, w: nat) returns (es': seq<Event>, t: State)
    requires Leads(es, s) && Waiting(s) && w < 2 && At(s.polls, Worker(0, w)) == []
    ensures Leads(es', t) && Waiting(t) && At(t.polls, Worker(0, w)) == [1]
    ensures At(t.polls, Worker(0, 1 - w)) == At(s.polls, Worker(0, 1 - w))
  {
    var es1, s1 := ClaimPoll(es, s);
    es', t := HandPoll(es1, s1, w);
  }

  /** Two polls of the one delivery, each in the hands of its own worker. */
  lemma TwoPollsInFlight() returns (es: seq<Event>, s: State)
    ensures Leads(es, s) && Waiting(s)
    ensures At(s.polls, Worker(0, 0)) == [1] && At(s.polls, Worker(0, 1)) == [1]
  {
    var accepted, s0 := Accept();
    var first, s1 := TakePoll(accepted, s0, 0);
    assert At(s1.polls, Worker(0, 1)) == [];
    es, s := TakePoll(first, s1, 1);
  }

  lemma UnjudgedWhileWaiting(es: seq<Event>, s: State)
    requires Leads(es, s) && Waiting(s)
    ensures Verdicts(es, 1) == []
  {
    Accounts(START, es, 1);
    VerdictsAreTerminal(es, 1);
  }

  lemma VerdictsExtend(es: seq<Event>, e: Event, id: Id)
    ensures Verdicts(es + [e], id) == Verdicts(es, id) + VerdictOf(ActionOn(e, id))
  {
    assert Init(es + [e]) == es && Last(es + [e]) == e;
  }

  const GOOD := Event(0, FinishPoll(0, 0, 1, Object(Text("COMPLETED"), Payload("", None)), 0))
  const BAD := Event(0, FinishPoll(0, 1, 1, Object(Text("FAILED"), Payload("", None)), 0))

  lemma PollAnswers(es: seq<Event>, s: State, e: Event)
    requires Leads(es, s) && s.clock == 0 && e.at == 0 && e.act.FinishPoll? && e.act.id == 1
    requires At(s.polls, Worker(e.act.proc, e.act.worker)) == [1]
    ensures Leads(es + [e], Apply(s, e)) && Apply(s, e).clock == 0
    ensures Verdicts(es + [e], 1) == Verdicts(es, 1) + VerdictOf(ActionOn(e, 1))
    ensures forall pl | pl != Worker(e.act.proc, e.act.worker) :: At(Apply(s, e).polls, pl) == At(s.polls, pl)
  {
    Extend(es, s, e);
    VerdictsExtend(es, e, 1);
  }

  lemma AnswersDiffer()
    ensures VerdictOf(ActionOn(GOOD, 1)) == [Done] && VerdictOf(ActionOn(BAD, 1)) == [Failed]
  {
    WordClasses();
  }

  lemma BothPollsAnswer(es: seq<Event>, s: State)
    requires Leads(es, s) && s.clock == 0 && Verdicts(es, 1) == []
    requires At(s.polls, Worker(0, 0)) == [1] && At(s.polls, Worker(0, 1)) == [1]
    ensures Reach(START, es + [GOOD] + [BAD]) && Verdicts(es + [GOOD] + [BAD], 1) == [Done] + [Failed]
  {
    AnswersDiffer();
    PollAnswers(es, s, GOOD);
    PollAnswers(es + [GOOD], Apply(s, GOOD), BAD);
  }

  /** done and failed can swap: the agreement of the terminal reads is needed. */
  lemma DoneCanBecomeFailed()
    ensures exists es :: Reach(START, es) && !NeverSwaps(START, es, 1)
  {
    var es, s := TwoPollsInFlight();
    UnjudgedWhileWaiting(es, s);
    BothPollsAnswer(es, s);
    var run := es + [GOOD] + [BAD];
    var v := Verdicts(run, 1);
    assert v[0] == Done && v[1] == Failed;
    NeverSwapsIff(START, run, 1);
  }
}
