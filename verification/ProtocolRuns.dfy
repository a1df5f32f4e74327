/** What holds in every reachable state of the protocol: reads and terminations come after the writes
    before them, and no request waits for ever. */
module ProtocolRuns {
  import opened Sums
  import opened Protocol
  import opened ProtocolInvariant
  import opened ProtocolSteps

  ghost predicate Legal(s: State, es: seq<Step>)
    decreases |es|
  {
    es == [] || (Enabled(s, es[0]) && Legal(Next(s, es[0]), es[1..]))
  }

  ghost function After(s: State, es: seq<Step>): State
    requires Legal(s, es)
    decreases |es|
  {
    if es == [] then s else After(Next(s, es[0]), es[1..])
  }

  lemma {:induction false} RunsKeep(s: State, es: seq<Step>)
    requires Inv(s) && Legal(s, es)
    ensures Inv(After(s, es))
    decreases |es|
  {
    if es != [] {
      StepKeeps(s, es[0]);
      RunsKeep(Next(s, es[0]), es[1..]);
    }
  }

  lemma InitialKeeps(s: State)
    requires Initial(s)
    ensures Inv(s)
  {
    assert Sum(j => ReaderTerm(s, j), 0) == 0 && Sum(j => WriterTerm(s, j), 0) == 0 && Sum(j => IssuedBy(s, j), 0) == 0;
  }

  /** A data request that has started reading: every write numbered below it has finished and has no
      page pending, now and for as long as it reads. */
  lemma ReadsSeeWrites(s: State, es: seq<Step>, k: nat)
    requires Initial(s) && Legal(s, es)
    requires var t := After(s, es); k in t.reqs && t.reqs[k].kind.Read? && Busy(t.reqs[k])
    ensures WritesDone(After(s, es), k)
  {
    InitialKeeps(s);
    RunsKeep(s, es);
  }

  /** A read starts exactly when no page at all of the object is pending and nothing is being written. */
  lemma ReadStartsQuiet(s: State, es: seq<Step>, k: nat)
    requires Initial(s) && Legal(s, es)
    requires var t := After(s, es); CanRun(t, k) && t.reqs[k].kind.Read? && !Busy(t.reqs[k])
    requires var t := After(s, es); k in Ran(t, k).reqs && Busy(Ran(t, k).reqs[k])
    ensures var t := After(s, es); t.pending == 0 && t.writers == 0 && t.seqno == k
    ensures var t := After(s, es); forall j: nat :: j in t.reqs && t.reqs[j].kind.Write? ==> !Busy(t.reqs[j])
  {
    InitialKeeps(s);
    RunsKeep(s, es);
    var t := After(s, es);
    assert RequestOk(t, k);
    EveryMovePhase(t.reqs[k], k, CountersOf(t), t.pending, t.maxRefs);
    forall j: nat | j in t.reqs && t.reqs[j].kind.Write? ensures !Busy(t.reqs[j]) {
      assert RequestOk(t, j);
      CountersPositive(t, j);
    }
  }

  /** A termination past its waits: every read and write numbered below it has finished. */
  lemma TerminationIsLast(s: State, es: seq<Step>, k: nat)
    requires Initial(s) && Legal(s, es)
    requires var t := After(s, es); k in t.reqs && t.reqs[k].kind.Terminate? && Past(t.reqs[k].pc)
    ensures WritesDone(After(s, es), k) && ReadsDone(After(s, es), k)
  {
    InitialKeeps(s);
    RunsKeep(s, es);
  }

  // ---- No deadlock ----

  /** The steps that finish work: a thread runs, a reply comes in, its broadcast is made. */
  predicate Finishing(e: Step) { e.Run? || e.Reply? || e.WakeAsync? }

  /** A reader counted is between vs_start_read and vs_finish_read, and awake. */
  lemma SomeReader(s: State) returns (k: nat)
    requires Inv(s) && s.readers > 0
    ensures CanRun(s, k)
  {
    k := SomeTerm(j => ReaderTerm(s, j), |s.log|);
    assert ReaderTerm(s, k) > 0 && RequestOk(s, k);
  }

  lemma SomeWriter(s: State) returns (k: nat)
    requires Inv(s) && s.writers > 0
    ensures CanRun(s, k)
  {
    k := SomeTerm(j => WriterTerm(s, j), |s.log|);
    assert WriterTerm(s, k) > 0 && RequestOk(s, k);
  }

  /** The request whose turn it is can run, or someone it waits for can. */
  lemma HolderMoves(s: State, k: nat) returns (j: nat)
    requires Inv(s) && k in s.reqs && Holding(s.reqs[k].pc) && s.pending == 0 && s.due == 0
    ensures CanRun(s, j)
  {
    j := k;
    assert RequestOk(s, k);
    if s.reqs[k].asleep {
      assert !s.reqs[k].pc.WaitAsync?;
      if s.reqs[k].pc.WaitReaders? {
        if s.readers > 0 {
          j := SomeReader(s);
        } else {
          j :| j in s.reqs && s.reqs[j].pc == Finished && s.reqs[j].kind == Read;
          assert RequestOk(s, j);
        }
      } else {
        if s.writers > 0 {
          j := SomeWriter(s);
        } else {
          j :| j in s.reqs && s.reqs[j].pc == Finished && s.reqs[j].kind == Write;
          assert RequestOk(s, j);
        }
      }
    }
  }

  lemma WaiterMoves(s: State, k: nat) returns (j: nat)
    requires Inv(s) && k in s.reqs && s.reqs[k].pc.WaitSeq? && s.pending == 0 && s.due == 0
    ensures CanRun(s, j)
  {
    j := s.seqno;
    assert RequestOk(s, k) && s.seqno in s.reqs && RequestOk(s, j);
    if s.reqs[j].asleep {
      if s.reqs[j].pc.WaitSeq? {
        j :| j in s.reqs && s.reqs[j].pc.Unlocked?;
        assert RequestOk(s, j);
      } else {
        j := HolderMoves(s, j);
      }
    }
  }

  /** Whenever a request is unfinished, some thread can run or an asynchronous reply is due. */
  lemma Progress(s: State, k: nat) returns (e: Step)
    requires Inv(s) && k in s.reqs
    ensures Finishing(e) && Enabled(s, e)
  {
    assert RequestOk(s, k);
    if s.due > 0 {
      e := WakeAsync;
    } else if s.pending > 0 {
      var j := SomeTerm(i => IssuedBy(s, i), |s.log|);
      e := Reply(j, 1);
    } else if s.reqs[k].pc.WaitSeq? {
      var j := WaiterMoves(s, k);
      e := Run(j);
    } else if Holding(s.reqs[k].pc) {
      var j := HolderMoves(s, k);
      e := Run(j);
    } else {
      e := Run(k);
    }
  }

  // ---- No thread spins ----

  /** How many stretches a handler has left at most. */
  function Rank(pc: Pc): nat {
    match pc
    case WaitSeq => 9
    case Trimming(_) => 8
    case Entered => 7
    case WaitReaders => 6
    case WaitWriters => 5
    case WaitAsync => 4
    case Unlocked(_) => 3
    case Body => 2
    case Finished => 1
    case Dropping(_) => 1
  }

  /** Finishing a stretch may wake every other thread once; `room` is more than there are threads. */
  function Work(s: State, room: nat, k: nat): nat {
    if k in s.reqs then Rank(s.reqs[k].pc) * room + (if s.reqs[k].asleep then 0 else 1) else 0
  }

  function Left(s: State): nat {
    var room := |s.log| + 1;
    Sum(k => Work(s, room, k), |s.log|) + (2 * s.pending + s.due) * room
  }

  lemma {:induction false} SumGrowth(f: nat -> nat, g: nat -> nat, n: nat, k: nat, drop: nat)
    requires k < n && g(k) + drop <= f(k) && forall j: nat :: j < n && j != k ==> g(j) <= f(j) + 1
    ensures Sum(g, n) + drop <= Sum(f, n) + n - 1
  {
    if k == n - 1 {
      SumSlack(f, g, n - 1);
    } else {
      SumGrowth(f, g, n - 1, k, drop);
    }
  }

  lemma {:induction false} SumSlack(f: nat -> nat, g: nat -> nat, n: nat)
    requires forall j: nat :: j < n ==> g(j) <= f(j) + 1
    ensures Sum(g, n) <= Sum(f, n) + n
  {
    if n > 0 {
      SumSlack(f, g, n - 1);
    }
  }

  lemma RankFalls(r: Request, k: nat, c: Counters, pending: nat, maxRefs: nat)
    requires PcFits(r)
    ensures var m := MoveOf(r, k, c, pending, maxRefs); m.to.Goes? ==> Rank(m.to.pc) < Rank(r.pc)
    ensures var m := MoveOf(r, k, c, pending, maxRefs); m.to.Sleeps? ==> m.wake.Nothing?
  {
  }

  lemma RunLeft(s: State, k: nat, m: Move)
    requires CanRun(s, k) && k < |s.log| && (m.to.Goes? ==> Rank(m.to.pc) < Rank(s.reqs[k].pc)) && (m.to.Sleeps? ==> m.wake.Nothing?)
    ensures Left(Moved(s, k, m)) < Left(s)
  {
    var s' := Moved(s, k, m);
    var room := |s.log| + 1;
    var f, g := j => Work(s, room, j), j => Work(s', room, j);
    if m.to.Sleeps? {
      SumChange(f, g, |s.log|, k);
    } else {
      forall j: nat | j < |s.log| && j != k ensures g(j) <= f(j) + 1 {
        assert j in s'.reqs ==> s'.reqs[j].pc == s.reqs[j].pc;
      }
      RankDrop(s.reqs[k].pc, if m.to.Goes? then Rank(m.to.pc) else 0, room);
      assert g(k) + room <= f(k);
      SumGrowth(f, g, |s.log|, k, room);
    }
  }

  lemma RankDrop(pc: Pc, low: nat, room: nat)
    requires low < Rank(pc)
    ensures low * room + room <= Rank(pc) * room
  {
    assert (low + 1) * room <= Rank(pc) * room;
  }

  lemma ReplyLeft(s: State, s': State)
    requires s'.log == s.log && s'.reqs == s.reqs && 2 * s'.pending + s'.due < 2 * s.pending + s.due
    ensures Left(s') < Left(s)
  {
    var room := |s.log| + 1;
    SumSame(j => Work(s, room, j), j => Work(s', room, j), |s.log|);
    LessTimes(2 * s'.pending + s'.due, 2 * s.pending + s.due, room);
  }

  lemma LessTimes(a: nat, b: nat, room: nat)
    requires a < b && room > 0
    ensures a * room < b * room
  {
    assert (a + 1) * room <= b * room;
  }

  lemma WakeLeft(s: State, s': State)
    requires s'.log == s.log && s'.pending == s.pending && s'.due + 1 == s.due
    requires forall j: nat :: (j in s'.reqs <==> j in s.reqs) && (j in s.reqs ==> s'.reqs[j].pc == s.reqs[j].pc)
    ensures Left(s') < Left(s)
  {
    var room := |s.log| + 1;
    SumSlack(j => Work(s, room, j), j => Work(s', room, j), |s.log|);
    OneTimes(2 * s'.pending + s'.due, room);
  }

  lemma OneTimes(a: nat, room: nat)
    ensures (a + 1) * room == a * room + room
  {
  }

  /** Every finishing step leaves less to do: without new requests, and once the writes have issued
      their pages, the threads come to rest. */
  lemma StepsLeft(s: State, e: Step)
    requires Order(s) && Finishing(e) && Enabled(s, e)
    ensures Left(Next(s, e)) < Left(s)
  {
    match e
    case Run(k) =>
      assert RequestOk(s, k);
      RankFalls(s.reqs[k], k, CountersOf(s), s.pending, s.maxRefs);
      RunLeft(s, k, MoveOf(s.reqs[k], k, CountersOf(s), s.pending, s.maxRefs));
    case Reply(k, n) => ReplyLeft(s, Next(s, e));
    case WakeAsync => WakeLeft(s, Next(s, e));
  }

  /** However the threads and the replies are scheduled, a run of finishing steps is no longer than
      the work left at its start, and if it can go no further every request has been served. */
  lemma {:induction false} EveryRequestServed(s: State, es: seq<Step>)
    requires Inv(s) && Legal(s, es) && forall i :: 0 <= i < |es| ==> Finishing(es[i])
    ensures |es| <= Left(s)
    ensures (forall e :: Finishing(e) ==> !Enabled(After(s, es), e)) ==> After(s, es).reqs == map[]
    decreases |es|
  {
    if es == [] {
      if s.reqs != map[] && forall e :: Finishing(e) ==> !Enabled(s, e) {
        var k :| k in s.reqs;
        var e := Progress(s, k);
        assert false;
      }
    } else {
      StepKeeps(s, es[0]);
      StepsLeft(s, es[0]);
      assert forall i :: 0 <= i < |es| - 1 ==> es[1..][i] == es[i + 1];
      EveryRequestServed(Next(s, es[0]), es[1..]);
    }
  }
}
