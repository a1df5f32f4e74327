/** What every interleaving of the protocol keeps. */
module ProtocolInvariant {
  import opened Sums
  import opened Protocol

  /** A request whose turn it is, and one that has had its turn. */
  predicate Holding(pc: Pc) { pc.Trimming? || pc.Entered? || pc.WaitReaders? || pc.WaitWriters? || pc.WaitAsync? }
  predicate Past(pc: Pc) { pc.Unlocked? || pc.Body? || pc.Finished? || pc.Dropping? }
  predicate Waiting(pc: Pc) { pc.WaitSeq? || pc.WaitReaders? || pc.WaitWriters? || pc.WaitAsync? }

  /** Between vs_start_read and vs_finish_read, or vs_start_write and vs_finish_write. */
  predicate Busy(r: Request) { (r.kind.Read? || r.kind.Write?) && (r.pc.Unlocked? || r.pc.Body?) }

  predicate PcFits(r: Request) {
    match r.pc
    case WaitSeq => true
    case Trimming(_) => r.kind.Read? || r.kind.Write? || r.kind.Sync?
    case Entered => r.kind.Read? || r.kind.Write? || r.kind.Sync?
    case WaitReaders => r.kind.Terminate?
    case WaitWriters => r.kind.Read? || r.kind.Terminate?
    case WaitAsync => r.kind.Read? || r.kind.Terminate? || r.kind.NoSenders?
    case Unlocked(drop) => !r.kind.NoSenders? && (drop > 0 ==> r.kind.Terminate?)
    case Body => r.kind.Read? || r.kind.Write?
    case Finished => r.kind.Read? || r.kind.Write?
    case Dropping(_) => r.kind.Terminate?
  }

  ghost predicate RequestOk(s: State, k: nat)
    requires k in s.reqs
  {
    var r := s.reqs[k];
    && k < |s.log| && s.log[k] == Message(r.kind, r.port) && PcFits(r)
    && (r.asleep ==> Waiting(r.pc))
    && (r.kind.NoSenders? ==> s.dead && k == |s.log| - 1)
    && (r.pc.WaitSeq? ==> s.seqno <= k) && (Holding(r.pc) ==> k == s.seqno) && (Past(r.pc) ==> k < s.seqno)
  }

  /** Every message received is served in its turn: those from `seqno` on are still with a thread. */
  ghost predicate Order(s: State) {
    && s.seqno <= |s.log|
    && (forall k :: k in s.reqs ==> RequestOk(s, k))
    && (forall k: nat :: s.seqno <= k < |s.log| ==> k in s.reqs || (s.dead && k == |s.log| - 1))
  }

  // ---- Counters ----

  function ReaderTerm(s: State, k: nat): nat { if k in s.reqs && s.reqs[k].kind.Read? && Busy(s.reqs[k]) then 1 else 0 }
  function WriterTerm(s: State, k: nat): nat { if k in s.reqs && s.reqs[k].kind.Write? && Busy(s.reqs[k]) then 1 else 0 }

  ghost predicate Counts(s: State) {
    && s.readers == Sum(k => ReaderTerm(s, k), |s.log|)
    && s.writers == Sum(k => WriterTerm(s, k), |s.log|)
    && s.pending == Sum(k => IssuedBy(s, k), |s.log|)
    && (forall k :: k in s.issued ==> k < s.seqno)
  }

  /** A wait that has been passed stays passed: nobody else can start a read or a write meanwhile. */
  ghost predicate Phases(s: State) {
    forall k :: k in s.reqs ==>
      && (s.reqs[k].kind.Terminate? && (s.reqs[k].pc.WaitWriters? || s.reqs[k].pc.WaitAsync?) ==> s.readers == 0)
      && (!s.reqs[k].kind.NoSenders? && s.reqs[k].pc.WaitAsync? ==> s.writers == 0)
  }

  // ---- Safety ----

  /** Every write numbered below `n` has finished, and none of its pages is pending. */
  ghost predicate WritesDone(s: State, n: nat) {
    forall j: nat :: j < n ==> (j in s.reqs && s.reqs[j].kind.Write? ==> !Busy(s.reqs[j])) && IssuedBy(s, j) == 0
  }

  ghost predicate ReadsDone(s: State, n: nat) {
    forall j: nat :: j < n && j in s.reqs && s.reqs[j].kind.Read? ==> !Busy(s.reqs[j])
  }

  ghost predicate Ordered(s: State) {
    forall k :: k in s.reqs ==>
      && (s.reqs[k].kind.Read? && Busy(s.reqs[k]) ==> WritesDone(s, k))
      && (s.reqs[k].kind.Terminate? && Past(s.reqs[k].pc) ==> WritesDone(s, k) && ReadsDone(s, k))
  }

  // ---- No wakeup is lost ----

  ghost predicate SomeAt(s: State, pc: Pc, kind: Kind) {
    exists k :: k in s.reqs && s.reqs[k].pc == pc && s.reqs[k].kind == kind
  }

  ghost predicate SomeUnlocked(s: State) {
    exists k :: k in s.reqs && s.reqs[k].pc.Unlocked?
  }

  ghost predicate Awakened(s: State) {
    forall k :: k in s.reqs && s.reqs[k].asleep ==>
      && (s.reqs[k].pc.WaitSeq? && s.seqno == k ==> SomeUnlocked(s))
      && (s.reqs[k].pc.WaitReaders? && s.readers == 0 ==> SomeAt(s, Finished, Read))
      && (s.reqs[k].pc.WaitWriters? && s.writers == 0 ==> SomeAt(s, Finished, Write))
      && (s.reqs[k].pc.WaitAsync? && s.pending == 0 ==> s.due > 0)
  }

  // ---- One request moves ----

  /** Apart from request `k`, requests may only wake up. */
  ghost predicate Others(s: State, s': State, k: nat) {
    && s'.log == s.log
    && forall j: nat :: j != k ==> (j in s'.reqs <==> j in s.reqs) && (j in s.reqs ==> Same(s.reqs[j], s'.reqs[j]))
  }

  predicate Same(r: Request, r2: Request) {
    r2.kind == r.kind && r2.port == r.port && r2.pc == r.pc && (r2.asleep ==> r.asleep)
  }

  /** The counters follow the request that moves. */
  lemma CountsMove(s: State, s': State, k: nat)
    requires Counts(s) && Others(s, s', k) && k < |s.log|
    requires s'.pending == s.pending && s'.issued == s.issued && s'.seqno >= s.seqno
    requires s'.readers + ReaderTerm(s, k) == s.readers + ReaderTerm(s', k)
    requires s'.writers + WriterTerm(s, k) == s.writers + WriterTerm(s', k)
    ensures Counts(s')
  {
    SumChange(j => ReaderTerm(s, j), j => ReaderTerm(s', j), |s.log|, k);
    SumChange(j => WriterTerm(s, j), j => WriterTerm(s', j), |s.log|, k);
    SumSame(j => IssuedBy(s, j), j => IssuedBy(s', j), |s.log|);
  }

  lemma CountersPositive(s: State, k: nat)
    requires Counts(s) && k < |s.log|
    ensures ReaderTerm(s, k) <= s.readers && WriterTerm(s, k) <= s.writers && IssuedBy(s, k) <= s.pending
  {
    TermBound(j => ReaderTerm(s, j), |s.log|, k);
    TermBound(j => WriterTerm(s, j), |s.log|, k);
    TermBound(j => IssuedBy(s, j), |s.log|, k);
  }

  /** When the counters are zero, everything numbered below is done. */
  lemma CountersZero(s: State, n: nat)
    requires Counts(s) && n <= |s.log|
    ensures s.writers == 0 && s.pending == 0 ==> WritesDone(s, n)
    ensures s.readers == 0 ==> ReadsDone(s, n)
  {
    forall j: nat | j < n ensures ReaderTerm(s, j) <= s.readers && WriterTerm(s, j) <= s.writers && IssuedBy(s, j) <= s.pending {
      CountersPositive(s, j);
    }
    if s.writers == 0 && s.pending == 0 {
      forall j: nat | j < n
        ensures (j in s.reqs && s.reqs[j].kind.Write? ==> !Busy(s.reqs[j])) && IssuedBy(s, j) == 0
      {
        assert WriterTerm(s, j) == 0;
      }
    }
    if s.readers == 0 {
      forall j: nat | j < n && j in s.reqs && s.reqs[j].kind.Read? ensures !Busy(s.reqs[j]) {
        assert ReaderTerm(s, j) == 0;
      }
    }
  }
}
