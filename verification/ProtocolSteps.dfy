/** Every step of the protocol keeps the invariant. */
module ProtocolSteps {
  import opened Sums
  import opened Protocol
  import opened ProtocolInvariant

  ghost predicate Inv(s: State) {
    Order(s) && Counts(s) && Phases(s) && Ordered(s) && Awakened(s)
  }

  /** What every move does to the request that makes it. */
  ghost predicate MoveFits(r: Request, k: nat, c: Counters, pending: nat, m: Move) {
    && (m.now.seqno == c.seqno || (m.now.seqno == c.seqno + 1 && c.seqno == k))
    && (m.to.Goes? ==>
          var r2 := Placed(r, m.to);
          && PcFits(r2) && !m.to.pc.WaitSeq?
          && (Holding(r2.pc) ==> k == m.now.seqno) && (Past(r2.pc) ==> k < m.now.seqno))
    && (m.to.Sleeps? ==> Waiting(r.pc) && m.now == c)
    && (m.to.Gone? ==> k < m.now.seqno || r.kind.NoSenders?)
    && (m.to.Gone? && r.kind.NoSenders? ==> m.now.seqno == k)
  }

  lemma EveryMoveFits(r: Request, k: nat, c: Counters, pending: nat, maxRefs: nat)
    requires PcFits(r) && (r.pc.WaitSeq? ==> c.seqno <= k) && (Holding(r.pc) ==> k == c.seqno) && (Past(r.pc) ==> k < c.seqno)
    ensures MoveFits(r, k, c, pending, MoveOf(r, k, c, pending, maxRefs))
  {
  }

  lemma MoveOthers(s: State, k: nat, m: Move)
    requires k in s.reqs
    ensures Others(s, Moved(s, k, m), k)
  {
  }

  lemma MoveOrder(s: State, k: nat, m: Move)
    requires Order(s) && k in s.reqs && MoveFits(s.reqs[k], k, CountersOf(s), s.pending, m)
    ensures Order(Moved(s, k, m))
  {
    assert RequestOk(s, k);
    var s' := Moved(s, k, m);
    forall j | j in s'.reqs ensures RequestOk(s', j) {
      assert j in s.reqs && RequestOk(s, j);
    }
  }

  // ---- Counters ----

  predicate BusyAfter(r: Request, m: Move) {
    match m.to
    case Goes(pc) => Busy(r.(pc := pc))
    case Sleeps => Busy(r)
    case Gone => false
  }

  function One(b: bool): nat { if b then 1 else 0 }

  ghost predicate MoveCounts(r: Request, c: Counters, m: Move) {
    && m.now.readers + One(r.kind.Read? && Busy(r)) == c.readers + One(r.kind.Read? && BusyAfter(r, m))
    && m.now.writers + One(r.kind.Write? && Busy(r)) == c.writers + One(r.kind.Write? && BusyAfter(r, m))
  }

  lemma EveryMoveCounts(r: Request, k: nat, c: Counters, pending: nat, maxRefs: nat)
    requires PcFits(r)
    requires r.kind.Read? && Busy(r) ==> c.readers > 0
    requires r.kind.Write? && Busy(r) ==> c.writers > 0
    ensures MoveCounts(r, c, MoveOf(r, k, c, pending, maxRefs))
  {
  }

  lemma MoveKeepsCounts(s: State, k: nat, m: Move)
    requires Counts(s) && k in s.reqs && k < |s.log| && MoveCounts(s.reqs[k], CountersOf(s), m) && m.now.seqno >= s.seqno
    ensures Counts(Moved(s, k, m))
  {
    MoveOthers(s, k, m);
    CountsMove(s, Moved(s, k, m), k);
  }

  // ---- Waits that have been passed ----

  ghost predicate MovePhase(r: Request, k: nat, c: Counters, pending: nat, m: Move) {
    && (m.to.Sleeps? ==> m.now == c)
    && (m.now.readers > c.readers || m.now.writers > c.writers ==> c.seqno == k && m.now.seqno == k + 1)
    && (m.to.Goes? && r.kind.Terminate? && (m.to.pc.WaitWriters? || m.to.pc.WaitAsync?) ==> m.now.readers == 0)
    && (m.to.Goes? && !r.kind.NoSenders? && m.to.pc.WaitAsync? ==> m.now.writers == 0)
    && (m.to.Goes? && r.kind.Read? && Busy(r.(pc := m.to.pc)) && !Busy(r) ==> c.writers == 0 && pending == 0)
    && (m.to.Goes? && r.kind.Terminate? && Past(m.to.pc) && !Past(r.pc) ==> c.readers == 0 && c.writers == 0 && pending == 0)
    && (m.to.Goes? && Busy(r.(pc := m.to.pc)) && !Busy(r) ==> c.seqno == k)
  }

  lemma EveryMovePhase(r: Request, k: nat, c: Counters, pending: nat, maxRefs: nat)
    requires PcFits(r) && (Holding(r.pc) ==> k == c.seqno) && (r.pc.WaitSeq? ==> c.seqno <= k)
    requires r.kind.Terminate? && (r.pc.WaitWriters? || r.pc.WaitAsync?) ==> c.readers == 0
    requires !r.kind.NoSenders? && r.pc.WaitAsync? ==> c.writers == 0
    ensures MovePhase(r, k, c, pending, MoveOf(r, k, c, pending, maxRefs))
  {
  }

  lemma MovePhases(s: State, k: nat, m: Move)
    requires Order(s) && Phases(s) && k in s.reqs && MovePhase(s.reqs[k], k, CountersOf(s), s.pending, m)
    ensures Phases(Moved(s, k, m))
  {
    var s' := Moved(s, k, m);
    forall j | j in s'.reqs
      ensures s'.reqs[j].kind.Terminate? && (s'.reqs[j].pc.WaitWriters? || s'.reqs[j].pc.WaitAsync?) ==> s'.readers == 0
      ensures !s'.reqs[j].kind.NoSenders? && s'.reqs[j].pc.WaitAsync? ==> s'.writers == 0
    {
      assert j in s.reqs && RequestOk(s, j);
    }
  }

  // ---- Safety ----

  /** What is done stays done while request `k` moves, unless `k` itself is below. */
  lemma DoneStays(s: State, k: nat, m: Move, n: nat)
    requires k in s.reqs && (k < n ==> !BusyAfter(s.reqs[k], m) || Busy(s.reqs[k]))
    ensures WritesDone(s, n) ==> WritesDone(Moved(s, k, m), n)
    ensures ReadsDone(s, n) ==> ReadsDone(Moved(s, k, m), n)
  {
    var s' := Moved(s, k, m);
    if WritesDone(s, n) {
      forall j: nat | j < n
        ensures (j in s'.reqs && s'.reqs[j].kind.Write? ==> !Busy(s'.reqs[j])) && IssuedBy(s', j) == 0
      {
        assert IssuedBy(s, j) == 0;
      }
    }
  }

  lemma MoveOrdered(s: State, k: nat, m: Move)
    requires Order(s) && Counts(s) && Ordered(s) && k in s.reqs && MovePhase(s.reqs[k], k, CountersOf(s), s.pending, m)
    ensures Ordered(Moved(s, k, m))
  {
    var s' := Moved(s, k, m);
    assert RequestOk(s, k);
    forall j | j in s'.reqs
      ensures s'.reqs[j].kind.Read? && Busy(s'.reqs[j]) ==> WritesDone(s', j)
      ensures s'.reqs[j].kind.Terminate? && Past(s'.reqs[j].pc) ==> WritesDone(s', j) && ReadsDone(s', j)
    {
      assert j in s.reqs && RequestOk(s, j);
      if Past(s'.reqs[j].pc) {
        CountersZero(s, j);
        DoneStays(s, k, m, j);
      }
    }
  }

  // ---- Wakeups ----

  ghost predicate MoveWakes(r: Request, k: nat, c: Counters, pending: nat, m: Move) {
    && (r.pc.Unlocked? ==> m.wake.WakeSeq?)
    && (r.pc.Finished? && r.kind.Read? ==> m.wake.WakeReaders?)
    && (r.pc.Finished? && r.kind.Write? ==> m.wake.WakeWriters?)
    && (m.now.seqno != c.seqno ==> m.to.Goes? && m.to.pc.Unlocked?)
    && (m.now.readers == 0 && c.readers > 0 ==> r.kind.Read? && m.to == Goes(Finished))
    && (m.now.writers == 0 && c.writers > 0 ==> r.kind.Write? && m.to == Goes(Finished))
    && (m.to.Sleeps? ==>
          && m.now == c && (r.pc.WaitSeq? ==> c.seqno != k) && (r.pc.WaitReaders? ==> c.readers > 0)
          && (r.pc.WaitWriters? ==> c.writers > 0) && (r.pc.WaitAsync? ==> pending > 0))
  }

  lemma EveryMoveWakes(r: Request, k: nat, c: Counters, pending: nat, maxRefs: nat)
    requires PcFits(r)
    ensures MoveWakes(r, k, c, pending, MoveOf(r, k, c, pending, maxRefs))
  {
  }

  lemma MoveAwakened(s: State, k: nat, m: Move)
    requires Awakened(s) && k in s.reqs && MoveWakes(s.reqs[k], k, CountersOf(s), s.pending, m)
    ensures Awakened(Moved(s, k, m))
  {
    var s' := Moved(s, k, m);
    forall j | j in s'.reqs && s'.reqs[j].asleep
      ensures s'.reqs[j].pc.WaitSeq? && s'.seqno == j ==> SomeUnlocked(s')
      ensures s'.reqs[j].pc.WaitReaders? && s'.readers == 0 ==> SomeAt(s', Finished, Read)
      ensures s'.reqs[j].pc.WaitWriters? && s'.writers == 0 ==> SomeAt(s', Finished, Write)
      ensures s'.reqs[j].pc.WaitAsync? && s'.pending == 0 ==> s'.due > 0
    {
      if j != k {
        SleeperCovered(s, k, m, j);
      }
    }
  }

  lemma SleeperCovered(s: State, k: nat, m: Move, j: nat)
    requires Awakened(s) && k in s.reqs && MoveWakes(s.reqs[k], k, CountersOf(s), s.pending, m)
    requires j != k && j in s.reqs && s.reqs[j].asleep && !Wakes(m.wake, s.reqs[j].pc)
    ensures s.reqs[j].pc.WaitSeq? && m.now.seqno == j ==> SomeUnlocked(Moved(s, k, m))
    ensures s.reqs[j].pc.WaitReaders? && m.now.readers == 0 ==> SomeAt(Moved(s, k, m), Finished, Read)
    ensures s.reqs[j].pc.WaitWriters? && m.now.writers == 0 ==> SomeAt(Moved(s, k, m), Finished, Write)
  {
    var s' := Moved(s, k, m);
    if s.reqs[j].pc.WaitSeq? && m.now.seqno == j {
      if m.now.seqno != s.seqno {
        assert s'.reqs[k].pc.Unlocked?;
      } else {
        var i :| i in s.reqs && s.reqs[i].pc.Unlocked?;
        assert i != k && s'.reqs[i].pc.Unlocked?;
      }
    }
    if s.reqs[j].pc.WaitReaders? && m.now.readers == 0 {
      if s.readers > 0 {
        assert s'.reqs[k].pc == Finished && s'.reqs[k].kind == Read;
      } else {
        var i :| i in s.reqs && s.reqs[i].pc == Finished && s.reqs[i].kind == Read;
        assert i != k && s'.reqs[i].pc == Finished && s'.reqs[i].kind == Read;
      }
    }
    if s.reqs[j].pc.WaitWriters? && m.now.writers == 0 {
      if s.writers > 0 {
        assert s'.reqs[k].pc == Finished && s'.reqs[k].kind == Write;
      } else {
        var i :| i in s.reqs && s.reqs[i].pc == Finished && s.reqs[i].kind == Write;
        assert i != k && s'.reqs[i].pc == Finished && s'.reqs[i].kind == Write;
      }
    }
  }

  // ---- The other steps ----

  lemma RunKeeps(s: State, k: nat)
    requires Inv(s) && CanRun(s, k)
    ensures Inv(Ran(s, k))
  {
    var r, c := s.reqs[k], CountersOf(s);
    assert RequestOk(s, k);
    CountersPositive(s, k);
    EveryMoveFits(r, k, c, s.pending, s.maxRefs);
    EveryMoveCounts(r, k, c, s.pending, s.maxRefs);
    EveryMovePhase(r, k, c, s.pending, s.maxRefs);
    EveryMoveWakes(r, k, c, s.pending, s.maxRefs);
    MoveKeeps(s, k, MoveOf(r, k, c, s.pending, s.maxRefs));
  }

  lemma MoveKeeps(s: State, k: nat, m: Move)
    requires Inv(s) && k in s.reqs && MoveFits(s.reqs[k], k, CountersOf(s), s.pending, m) && MoveCounts(s.reqs[k], CountersOf(s), m)
    requires MovePhase(s.reqs[k], k, CountersOf(s), s.pending, m) && MoveWakes(s.reqs[k], k, CountersOf(s), s.pending, m)
    ensures Inv(Moved(s, k, m))
  {
    assert RequestOk(s, k);
    MoveOrder(s, k, m);
    MoveKeepsCounts(s, k, m);
    MovePhases(s, k, m);
    MoveOrdered(s, k, m);
    MoveAwakened(s, k, m);
  }

  lemma ArriveOrder(s: State, kind: Kind)
    requires Order(s) && MayArrive(s, kind)
    ensures Order(Arrived(s, kind)) && |s.log| !in s.reqs
  {
    var s' := Arrived(s, kind);
    var n := |s.log|;
    assert forall k :: k in s.reqs ==> RequestOk(s, k) && k < n;
    forall k | k in s'.reqs ensures RequestOk(s', k) {
      assert k != n ==> RequestOk(s, k);
    }
  }

  lemma ArriveCounts(s: State, kind: Kind)
    requires Order(s) && Counts(s) && MayArrive(s, kind) && |s.log| !in s.reqs
    ensures Counts(Arrived(s, kind))
  {
    var s' := Arrived(s, kind);
    var n := |s.log|;
    assert s'.reqs[n].pc == WaitSeq && ReaderTerm(s', n) == 0 && WriterTerm(s', n) == 0;
    assert n !in s.issued && IssuedBy(s', n) == 0;
    SumSame(j => ReaderTerm(s, j), j => ReaderTerm(s', j), n);
    SumSame(j => WriterTerm(s, j), j => WriterTerm(s', j), n);
    SumSame(j => IssuedBy(s, j), j => IssuedBy(s', j), n);
    assert |s'.log| == n + 1;
    assert Sum(j => ReaderTerm(s', j), n + 1) == Sum(j => ReaderTerm(s', j), n) + ReaderTerm(s', n);
    assert Sum(j => WriterTerm(s', j), n + 1) == Sum(j => WriterTerm(s', j), n) + WriterTerm(s', n);
    assert Sum(j => IssuedBy(s', j), n + 1) == Sum(j => IssuedBy(s', j), n) + IssuedBy(s', n);
  }

  lemma ArriveKeeps(s: State, kind: Kind)
    requires Inv(s) && MayArrive(s, kind)
    ensures Inv(Arrived(s, kind))
  {
    ArriveOrder(s, kind);
    ArriveCounts(s, kind);
    ArriveOrdered(s, kind);
    ArriveAwakened(s, kind);
  }

  lemma ArriveOrdered(s: State, kind: Kind)
    requires Order(s) && Ordered(s) && |s.log| !in s.reqs
    ensures Ordered(Arrived(s, kind))
  {
    var s' := Arrived(s, kind);
    forall k | k in s'.reqs && k != |s.log|
      ensures s'.reqs[k].kind.Read? && Busy(s'.reqs[k]) ==> WritesDone(s', k)
      ensures s'.reqs[k].kind.Terminate? && Past(s'.reqs[k].pc) ==> WritesDone(s', k) && ReadsDone(s', k)
    {
      assert RequestOk(s, k) && s'.reqs[k] == s.reqs[k];
      assert forall j: nat :: j < k ==> (j in s'.reqs <==> j in s.reqs) && IssuedBy(s', j) == IssuedBy(s, j);
    }
  }

  lemma ArriveAwakened(s: State, kind: Kind)
    requires Awakened(s) && |s.log| !in s.reqs
    ensures Awakened(Arrived(s, kind))
  {
    var s' := Arrived(s, kind);
    if SomeUnlocked(s) {
      var i :| i in s.reqs && s.reqs[i].pc.Unlocked?;
      assert s'.reqs[i].pc.Unlocked?;
    }
    forall kd: Kind ensures SomeAt(s, Finished, kd) ==> SomeAt(s', Finished, kd) {
      if SomeAt(s, Finished, kd) {
        var i :| i in s.reqs && s.reqs[i].pc == Finished && s.reqs[i].kind == kd;
        assert s'.reqs[i].pc == Finished && s'.reqs[i].kind == kd;
      }
    }
  }

  /** A write issues pages, or a reply for some comes in: only the pending count changes. */
  ghost predicate OnlyPending(s: State, s': State, k: nat) {
    && s'.log == s.log && s'.reqs == s.reqs && s'.seqno == s.seqno && s'.readers == s.readers && s'.writers == s.writers
    && s'.dead == s.dead && s'.due >= s.due
    && s'.issued.Keys == s.issued.Keys + {k}
    && (forall j: nat :: j != k ==> IssuedBy(s', j) == IssuedBy(s, j))
    && s'.pending + IssuedBy(s, k) == s.pending + IssuedBy(s', k)
    && (s'.pending == 0 && s.pending > 0 ==> s'.due > 0)
  }

  lemma PendingKeeps(s: State, s': State, k: nat)
    requires Inv(s) && OnlyPending(s, s', k) && k < s.seqno
    requires IssuedBy(s', k) > IssuedBy(s, k) ==> k in s.reqs && s.reqs[k].kind.Write? && Busy(s.reqs[k])
    ensures Inv(s')
  {
    PendingCounts(s, s', k);
    forall j | j in s'.reqs ensures RequestOk(s', j) {
      assert RequestOk(s, j);
    }
    PendingOrdered(s, s', k);
    assert SomeUnlocked(s) ==> SomeUnlocked(s');
    assert forall kd: Kind :: SomeAt(s, Finished, kd) ==> SomeAt(s', Finished, kd);
  }

  lemma PendingCounts(s: State, s': State, k: nat)
    requires Counts(s) && OnlyPending(s, s', k) && k < s.seqno <= |s.log|
    ensures Counts(s')
  {
    SumSame(j => ReaderTerm(s, j), j => ReaderTerm(s', j), |s.log|);
    SumSame(j => WriterTerm(s, j), j => WriterTerm(s', j), |s.log|);
    SumChange(j => IssuedBy(s, j), j => IssuedBy(s', j), |s.log|, k);
  }

  lemma PendingOrdered(s: State, s': State, k: nat)
    requires Ordered(s) && OnlyPending(s, s', k)
    requires IssuedBy(s', k) > IssuedBy(s, k) ==> k in s.reqs && s.reqs[k].kind.Write? && Busy(s.reqs[k])
    ensures Ordered(s')
  {
    forall j | j in s'.reqs
      ensures s'.reqs[j].kind.Read? && Busy(s'.reqs[j]) ==> WritesDone(s', j)
      ensures s'.reqs[j].kind.Terminate? && Past(s'.reqs[j].pc) ==> WritesDone(s', j) && ReadsDone(s', j)
    {
      if WritesDone(s, j) {
        forall i: nat | i < j ensures IssuedBy(s', i) == 0 {
          assert IssuedBy(s, i) == 0;
        }
      }
    }
  }

  /** Some threads wake up and nothing else of the protocol changes. */
  ghost predicate OnlyWoken(s: State, s': State) {
    && s'.log == s.log && s'.seqno == s.seqno && s'.readers == s.readers && s'.writers == s.writers
    && s'.pending == s.pending && s'.issued == s.issued && s'.dead == s.dead
    && (forall j: nat :: (j in s'.reqs <==> j in s.reqs) && (j in s.reqs ==> Same(s.reqs[j], s'.reqs[j])))
  }

  lemma WokenOrder(s: State, s': State)
    requires Order(s) && OnlyWoken(s, s')
    ensures Order(s')
  {
    forall j | j in s'.reqs ensures RequestOk(s', j) {
      assert RequestOk(s, j);
    }
  }

  lemma WokenCounts(s: State, s': State)
    requires Counts(s) && OnlyWoken(s, s')
    ensures Counts(s')
  {
    SumSame(j => ReaderTerm(s, j), j => ReaderTerm(s', j), |s.log|);
    SumSame(j => WriterTerm(s, j), j => WriterTerm(s', j), |s.log|);
    SumSame(j => IssuedBy(s, j), j => IssuedBy(s', j), |s.log|);
  }

  lemma WokenOrdered(s: State, s': State)
    requires Phases(s) && Ordered(s) && OnlyWoken(s, s')
    ensures Phases(s') && Ordered(s')
  {
    forall j | j in s'.reqs
      ensures s'.reqs[j].kind.Read? && Busy(s'.reqs[j]) ==> WritesDone(s', j)
      ensures s'.reqs[j].kind.Terminate? && Past(s'.reqs[j].pc) ==> WritesDone(s', j) && ReadsDone(s', j)
    {
      assert Same(s.reqs[j], s'.reqs[j]);
      assert WritesDone(s, j) ==> WritesDone(s', j) by { DoneAlike(s, s', j); }
      assert ReadsDone(s, j) ==> ReadsDone(s', j) by { DoneAlike(s, s', j); }
    }
  }

  lemma DoneAlike(s: State, s': State, n: nat)
    requires OnlyWoken(s, s')
    ensures WritesDone(s, n) ==> WritesDone(s', n)
    ensures ReadsDone(s, n) ==> ReadsDone(s', n)
  {
    if WritesDone(s, n) {
      forall j: nat | j < n
        ensures (j in s'.reqs && s'.reqs[j].kind.Write? ==> !Busy(s'.reqs[j])) && IssuedBy(s', j) == 0
      {
        assert IssuedBy(s, j) == 0;
      }
    }
  }

  lemma SomeStay(s: State, s': State)
    requires OnlyWoken(s, s')
    ensures SomeUnlocked(s) ==> SomeUnlocked(s')
    ensures forall kd: Kind :: SomeAt(s, Finished, kd) ==> SomeAt(s', Finished, kd)
  {
    if SomeUnlocked(s) {
      var i :| i in s.reqs && s.reqs[i].pc.Unlocked?;
      assert s'.reqs[i].pc.Unlocked?;
    }
    forall kd: Kind ensures SomeAt(s, Finished, kd) ==> SomeAt(s', Finished, kd) {
      if SomeAt(s, Finished, kd) {
        var i :| i in s.reqs && s.reqs[i].pc == Finished && s.reqs[i].kind == kd;
        assert s'.reqs[i].pc == Finished && s'.reqs[i].kind == kd;
      }
    }
  }

  lemma WakeAsyncKeeps(s: State)
    requires Inv(s) && s.due > 0
    ensures Inv(Next(s, WakeAsync))
  {
    var s' := Next(s, WakeAsync);
    assert OnlyWoken(s, s');
    WokenOrder(s, s');
    WokenCounts(s, s');
    WokenOrdered(s, s');
    SomeStay(s, s');
  }

  /** Every step keeps the invariant. */
  lemma StepKeeps(s: State, e: Step)
    requires Inv(s) && Enabled(s, e)
    ensures Inv(Next(s, e))
  {
    match e
    case Arrive(kind) => ArriveKeeps(s, kind);
    case Run(k) => RunKeeps(s, k);
    case Issue(k, n) =>
      assert RequestOk(s, k);
      PendingKeeps(s, Next(s, e), k);
    case Reply(k, n) => PendingKeeps(s, Next(s, e), k);
    case WakeAsync => WakeAsyncKeeps(s);
  }
}
