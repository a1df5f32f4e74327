/** The end of an object: a no-senders notification, the last message of all, lets its handler free the object
    (dp_memory_object.c:534-649). By then nothing is read, written or pending; but a broadcast may still be owed. */
module ProtocolEnds {
  import opened Sums
  import opened Protocol
  import opened ProtocolInvariant
  import opened ProtocolSteps
  import opened ProtocolRuns

  /** Below a termination that has had its turn everything is done, for good. The object closes with a termination,
      and a no-senders notification comes right after one. */
  ghost predicate Ended(s: State) {
    && (forall j: nat :: j < s.seqno && j < |s.log| && s.log[j].kind.Terminate? ==> WritesDone(s, j) && ReadsDone(s, j))
    && (s.dead ==> !s.open && |s.log| >= 2 && s.log[|s.log| - 2].kind.Terminate? && s.log[|s.log| - 1].kind.NoSenders?)
    && (!s.dead && !s.open ==> s.log != [] && s.log[|s.log| - 1].kind.Terminate?)
  }

  lemma RunEnded(s: State, k: nat)
    requires Inv(s) && Ended(s) && CanRun(s, k)
    ensures Ended(Ran(s, k))
  {
    var r, c := s.reqs[k], CountersOf(s);
    assert RequestOk(s, k);
    EveryMoveFits(r, k, c, s.pending, s.maxRefs);
    EveryMovePhase(r, k, c, s.pending, s.maxRefs);
    EveryMoveWakes(r, k, c, s.pending, s.maxRefs);
    MoveEnded(s, k, MoveOf(r, k, c, s.pending, s.maxRefs));
  }

  lemma MoveEnded(s: State, k: nat, m: Move)
    requires Order(s) && Counts(s) && Ended(s) && k in s.reqs && MoveFits(s.reqs[k], k, CountersOf(s), s.pending, m)
    requires MovePhase(s.reqs[k], k, CountersOf(s), s.pending, m) && MoveWakes(s.reqs[k], k, CountersOf(s), s.pending, m)
    ensures Ended(Moved(s, k, m))
  {
    assert RequestOk(s, k);
    var s' := Moved(s, k, m);
    forall j: nat | j < s'.seqno && j < |s'.log| && s'.log[j].kind.Terminate? ensures WritesDone(s', j) && ReadsDone(s', j) {
      if j == s.seqno {
        CountersZero(s, j);
      }
      DoneStays(s, k, m, j);
    }
  }

  lemma PendingEnded(s: State, s': State, k: nat)
    requires Ended(s) && OnlyPending(s, s', k) && s'.open == s.open
    requires IssuedBy(s', k) > IssuedBy(s, k) ==> k in s.reqs && s.reqs[k].kind.Write? && Busy(s.reqs[k])
    ensures Ended(s')
  {
    forall j: nat | j < s.seqno && j < |s.log| && s.log[j].kind.Terminate? ensures WritesDone(s', j) && ReadsDone(s', j) {
      assert WritesDone(s, j) && ReadsDone(s, j);
      forall i: nat | i < j ensures IssuedBy(s', i) == 0 {
        assert IssuedBy(s, i) == 0;
      }
    }
  }

  lemma IssueEnded(s: State, k: nat, n: nat)
    requires Ended(s) && Enabled(s, Issue(k, n))
    ensures Ended(Next(s, Issue(k, n)))
  {
    PendingEnded(s, Next(s, Issue(k, n)), k);
  }

  lemma ReplyEnded(s: State, k: nat, n: nat)
    requires Ended(s) && Enabled(s, Reply(k, n))
    ensures Ended(Next(s, Reply(k, n)))
  {
    PendingEnded(s, Next(s, Reply(k, n)), k);
  }

  lemma ArriveEnded(s: State, kind: Kind)
    requires Order(s) && Ended(s) && MayArrive(s, kind) && |s.log| !in s.reqs
    ensures Ended(Arrived(s, kind))
  {
    var s' := Arrived(s, kind);
    forall j: nat | j < s'.seqno && j < |s'.log| && s'.log[j].kind.Terminate? ensures WritesDone(s', j) && ReadsDone(s', j) {
      assert WritesDone(s, j) && ReadsDone(s, j);
      assert forall i: nat :: i < j ==> (i in s'.reqs <==> i in s.reqs) && IssuedBy(s', i) == IssuedBy(s, i);
    }
  }

  lemma WakeEnded(s: State)
    requires Ended(s) && s.due > 0
    ensures Ended(Next(s, WakeAsync))
  {
    var s' := Next(s, WakeAsync);
    forall j: nat | j < s.seqno && j < |s.log| && s.log[j].kind.Terminate? ensures WritesDone(s', j) && ReadsDone(s', j) {
      DoneAlike(s, s', j);
    }
  }

  lemma StepEnded(s: State, e: Step)
    requires Inv(s) && Ended(s) && Enabled(s, e)
    ensures Ended(Next(s, e))
  {
    match e
    case Arrive(kind) =>
      ArriveOrder(s, kind);
      ArriveEnded(s, kind);
    case Run(k) => RunEnded(s, k);
    case Issue(k, n) => IssueEnded(s, k, n);
    case Reply(k, n) => ReplyEnded(s, k, n);
    case WakeAsync => WakeEnded(s);
  }

  lemma {:induction false} RunsEnd(s: State, es: seq<Step>)
    requires Inv(s) && Ended(s) && Legal(s, es)
    ensures Inv(After(s, es)) && Ended(After(s, es))
    decreases |es|
  {
    if es != [] {
      StepKeeps(s, es[0]);
      StepEnded(s, es[0]);
      RunsEnd(Next(s, es[0]), es[1..]);
    }
  }

  // ---- When the object is freed ----

  /** The next stretch of request `k` frees the object: a no-senders notification past its wait. */
  predicate Frees(s: State, k: nat) {
    CanRun(s, k) && s.reqs[k].kind.NoSenders? && s.reqs[k].pc.WaitAsync? && s.pending == 0
  }

  ghost predicate NoneIssued(s: State) {
    forall j :: j in s.issued ==> s.issued[j] == 0
  }

  /** The object is freed when nothing is being read or written and no page is pending, though the handler waits for
      the pending pages alone. */
  lemma FreedIdle(s: State, k: nat)
    requires Inv(s) && Ended(s) && Frees(s, k)
    ensures forall j :: j in s.reqs ==> !Busy(s.reqs[j])
    ensures NoneIssued(s)
    ensures s.dead && s.readers == 0 && s.writers == 0
  {
    assert RequestOk(s, k) && k == |s.log| - 1 == s.seqno;
    assert WritesDone(s, k - 1) && ReadsDone(s, k - 1);
    forall j | j in s.reqs ensures !Busy(s.reqs[j]) {
      assert RequestOk(s, j);
    }
    forall j | j in s.issued ensures s.issued[j] == 0 {
      CountersPositive(s, j);
    }
    IdleCounts(s);
  }

  lemma IdleCounts(s: State)
    requires Counts(s) && forall j :: j in s.reqs ==> !Busy(s.reqs[j])
    ensures s.readers == 0 && s.writers == 0
  {
    ZeroTerms(j => ReaderTerm(s, j), |s.log|);
    ZeroTerms(j => WriterTerm(s, j), |s.log|);
  }

  // ---- What is left of other requests ----

  /** The step reads or writes the object. Giving up references does not: they are those of a port. */
  predicate Touches(s: State, e: Step) {
    !(e.Run? && e.k in s.reqs && s.reqs[e.k].pc.Dropping?)
  }

  /** On the way some step touches the object. */
  ghost predicate Touched(s: State, es: seq<Step>)
    decreases |es|
  {
    es != [] && Enabled(s, es[0]) && (Touches(s, es[0]) || Touched(Next(s, es[0]), es[1..]))
  }

  /** A broadcast is still owed: by a request that has let go of the object's lock, or by a completion. */
  ghost predicate Owed(s: State) {
    s.due > 0 || exists j :: j in s.reqs && (s.reqs[j].pc.Unlocked? || s.reqs[j].pc.Finished?)
  }

  /** Only requests that give up references are left, and no message can come. */
  ghost predicate Quiet(s: State) {
    s.dead && s.due == 0 && (forall j :: j in s.reqs ==> s.reqs[j].pc.Dropping?) && NoneIssued(s)
  }

  lemma {:induction false} QuietStays(s: State, es: seq<Step>)
    requires Quiet(s)
    ensures !Touched(s, es)
    decreases |es|
  {
    if es != [] && Enabled(s, es[0]) {
      assert es[0].Run? && es[0].k in s.reqs;
      assert Quiet(Next(s, es[0]));
      QuietStays(Next(s, es[0]), es[1..]);
    }
  }

  /** After the object has been freed some later step touches it, on some way on, exactly if a broadcast is owed at
      that moment. */
  lemma FreedTouchedIff(s: State, k: nat)
    requires Inv(s) && Ended(s) && Frees(s, k)
    ensures (exists es :: Touched(Ran(s, k), es)) <==> Owed(Ran(s, k))
  {
    var s' := Ran(s, k);
    FreedIdle(s, k);
    RunKeeps(s, k);
    AfterFreed(s, k);
    if Owed(s') {
      OwedTouches(s');
    } else {
      assert Quiet(s');
      forall es ensures !Touched(s', es) {
        QuietStays(s', es);
      }
    }
  }

  lemma OwedTouches(s: State)
    requires Order(s) && Owed(s)
    ensures exists es :: Touched(s, es)
  {
    if s.due > 0 {
      assert Touched(s, [WakeAsync]);
    } else {
      var j :| j in s.reqs && (s.reqs[j].pc.Unlocked? || s.reqs[j].pc.Finished?);
      assert RequestOk(s, j);
      assert Touched(s, [Run(j)]);
    }
  }

  /** The requests left have had their turn and neither read nor write. */
  lemma AfterFreed(s: State, k: nat)
    requires Inv(s) && Frees(s, k) && s.dead && (forall j :: j in s.reqs ==> !Busy(s.reqs[j])) && NoneIssued(s)
    ensures var s' := Ran(s, k);
            && k !in s'.reqs && s'.dead && s'.due == s.due && NoneIssued(s')
            && forall j :: j in s'.reqs ==> s'.reqs[j].pc.Unlocked? || s'.reqs[j].pc.Finished? || s'.reqs[j].pc.Dropping?
  {
    var s' := Ran(s, k);
    assert RequestOk(s, k);
    forall j | j in s'.reqs ensures s'.reqs[j].pc.Unlocked? || s'.reqs[j].pc.Finished? || s'.reqs[j].pc.Dropping? {
      assert j in s.reqs && j != k && RequestOk(s, j);
    }
  }

  ghost predicate Leads(s: State, es: seq<Step>, t: State) { Legal(s, es) && After(s, es) == t }

  lemma {:induction false} OneMore(s: State, es: seq<Step>, t: State, e: Step)
    requires Leads(s, es, t) && Enabled(t, e)
    ensures Leads(s, es + [e], Next(t, e))
    decreases |es|
  {
    if es == [] {
      assert [] + [e] == [e] && [e][1..] == [];
    } else {
      OneMore(Next(s, es[0]), es[1..], t, e);
      assert (es + [e])[1..] == es[1..] + [e];
    }
  }

  /** A termination and a no-senders notification, with `n` turns over. */
  ghost predicate Stage(s: State, n: nat, first: Pc, second: Pc) {
    && s.reqs == map[0 := Request(Terminate, 0, first, false), 1 := Request(NoSenders, 0, second, false)]
    && s.seqno == n && s.readers == 0 && s.writers == 0 && s.pending == 0
  }

  /** Where the termination goes from there. */
  function Onward(pc: Pc, refs: nat): Pc {
    match pc
    case WaitSeq => WaitReaders
    case WaitReaders => WaitWriters
    case WaitWriters => WaitAsync
    case _ => Unlocked(refs)
  }

  lemma First(s: State, es: seq<Step>, t: State, pc: Pc)
    requires Leads(s, es, t) && Stage(t, 0, pc, WaitSeq) && pc in {WaitSeq, WaitReaders, WaitWriters, WaitAsync}
    ensures Leads(s, es + [Run(0)], Ran(t, 0)) && Stage(Ran(t, 0), if pc.WaitAsync? then 1 else 0, Onward(pc, t.refs), WaitSeq)
  {
    FirstTurn(t, pc);
    OneMore(s, es, t, Run(0));
  }

  lemma FirstTurn(t: State, pc: Pc)
    requires Stage(t, 0, pc, WaitSeq) && pc in {WaitSeq, WaitReaders, WaitWriters, WaitAsync}
    ensures Stage(Ran(t, 0), if pc.WaitAsync? then 1 else 0, Onward(pc, t.refs), WaitSeq)
  {
  }

  lemma Second(s: State, first: Pc)
    requires Stage(s, 1, first, WaitSeq)
    ensures Stage(Ran(s, 1), 1, first, WaitAsync)
  {
  }

  lemma Last(s: State, refs: nat)
    requires Stage(s, 1, Unlocked(refs), WaitAsync)
    ensures Frees(s, 1) && Owed(Ran(s, 1))
  {
    assert Ran(s, 1).reqs[0].pc.Unlocked?;
  }

  lemma BothArrive(s: State)
    requires Initial(s)
    ensures var t := Arrived(Arrived(s, Terminate), NoSenders);
            Leads(s, [Arrive(Terminate), Arrive(NoSenders)], t) && Stage(t, 0, WaitSeq, WaitSeq)
  {
    OneMore(s, [], s, Arrive(Terminate));
    assert [] + [Arrive(Terminate)] == [Arrive(Terminate)];
    OneMore(s, [Arrive(Terminate)], Arrived(s, Terminate), Arrive(NoSenders));
    assert [Arrive(Terminate)] + [Arrive(NoSenders)] == [Arrive(Terminate), Arrive(NoSenders)];
  }

  lemma Terminates(s: State) returns (es: seq<Step>, t: State, refs: nat)
    requires Initial(s)
    ensures Leads(s, es, t) && Stage(t, 1, Unlocked(refs), WaitSeq)
  {
    BothArrive(s);
    var t2 := Arrived(Arrived(s, Terminate), NoSenders);
    es := [Arrive(Terminate), Arrive(NoSenders)];
    First(s, es, t2, WaitSeq);
    var t3 := Ran(t2, 0);
    First(s, es + [Run(0)], t3, WaitReaders);
    var t4 := Ran(t3, 0);
    First(s, es + [Run(0)] + [Run(0)], t4, WaitWriters);
    var t5 := Ran(t4, 0);
    First(s, es + [Run(0)] + [Run(0)] + [Run(0)], t5, WaitAsync);
    es, t, refs := es + [Run(0)] + [Run(0)] + [Run(0)] + [Run(0)], Ran(t5, 0), t5.refs;
  }

  /** There is such a run: the termination lets go of the lock, and before it broadcasts the object is freed. */
  lemma FreedTooEarly(s: State) returns (es: seq<Step>)
    requires Initial(s)
    ensures Legal(s, es) && Frees(After(s, es), 1) && Owed(Ran(After(s, es), 1))
  {
    var before, t, refs := Terminates(s);
    OneMore(s, before, t, Run(1));
    Second(t, Unlocked(refs));
    es := before + [Run(1)];
    Last(Ran(t, 1), refs);
  }
}
