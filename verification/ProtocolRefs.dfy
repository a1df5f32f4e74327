/** The user references held for each control port are conserved: a received request carries one until
    it is admitted, and what is admitted is counted in vs_control_refs (dp_memory_object.c:308-334,
    571-590). */
module ProtocolRefs {
  import opened Sums
  import opened Protocol
  import opened ProtocolInvariant
  import opened ProtocolSteps
  import opened ProtocolRuns

  // ---- The messages received ----

  /** The control port once the first `n` messages have had their turn. */
  function PortAt(log: seq<Message>, n: nat): int
    requires n <= |log|
  {
    if n == 0 then 0
    else if log[n - 1].kind.Init? then log[n - 1].port
    else if log[n - 1].kind.Terminate? then NOPORT
    else PortAt(log, n - 1)
  }

  lemma {:induction false} PortAtPrefix(log: seq<Message>, m: Message, n: nat)
    requires n <= |log|
    ensures PortAt(log + [m], n) == PortAt(log, n)
  {
    if n > 0 {
      PortAtPrefix(log, m, n - 1);
    }
  }

  ghost predicate MessageOk(log: seq<Message>, k: nat)
    requires k < |log|
  {
    var m := log[k];
    && PortAt(log, k) == (if m.kind.Init? || m.kind.NoSenders? then NOPORT else m.port)
    && (m.kind.Init? ==> forall i: nat :: i < k ==> log[i].port < m.port)
    && (!m.kind.NoSenders? ==> forall i: nat :: i < k && log[i].port == m.port ==> !log[i].kind.Terminate?)
  }

  /** The kernel's promises, as the log shows them. */
  ghost predicate LogOk(s: State) {
    && (forall k: nat :: k < |s.log| ==> MessageOk(s.log, k) && s.log[k].port <= s.generation)
    && PortAt(s.log, |s.log|) == (if s.open then s.generation else NOPORT)
    && (s.open ==> forall i: nat :: i < |s.log| && s.log[i].kind.Terminate? ==> s.log[i].port < s.generation)
  }

  lemma ArriveLog(s: State, kind: Kind)
    requires LogOk(s) && MayArrive(s, kind)
    ensures LogOk(Arrived(s, kind))
  {
    var s' := Arrived(s, kind);
    var n := |s.log|;
    var m := s'.log[n];
    forall k: nat | k < n + 1 ensures MessageOk(s'.log, k) && s'.log[k].port <= s'.generation {
      PortAtPrefix(s.log, m, k);
      if k < n {
        assert MessageOk(s.log, k);
      }
    }
  }

  /** The port is the one the messages that have had their turn leave. */
  ghost predicate PortOk(s: State) {
    s.seqno <= |s.log| && s.port == PortAt(s.log, s.seqno)
  }

  // ---- References ----

  /** References a request accounts for. */
  function Term(r: Request): nat {
    match r.pc
    case WaitSeq => if CarriesRef(r.kind) then 1 else 0
    case Trimming(n) => n
    case Unlocked(n) => n
    case Dropping(n) => n
    case _ => 0
  }

  function TermAfter(r: Request, m: Move): nat {
    match m.to
    case Goes(pc) => Term(r.(pc := pc))
    case Sleeps => Term(r)
    case Gone => 0
  }

  function Share(c: Counters, g: nat): nat { if c.port == g then c.refs else 0 }

  function RefTerm(s: State, g: nat, k: nat): nat {
    if k in s.reqs && s.reqs[k].port == g then Term(s.reqs[k]) else 0
  }

  /** The references held for each port are those of the object, those of requests received and not
      yet admitted, and those a trim or a termination is about to give up. */
  ghost predicate Conserved(s: State) {
    && (forall g: nat :: g in s.held <==> g <= s.generation)
    && (forall g: nat :: g <= s.generation ==>
          s.held[g] == Share(CountersOf(s), g) + Sum(k => RefTerm(s, g, k), |s.log|))
  }

  ghost predicate RefsInv(s: State) {
    Inv(s) && LogOk(s) && PortOk(s) && Conserved(s)
  }

  ghost predicate MoveRefs(r: Request, c: Counters, m: Move) {
    && Share(m.now, r.port) + TermAfter(r, m) + m.give == Share(c, r.port) + Term(r)
    && (forall g: nat :: g != r.port ==> Share(m.now, g) == Share(c, g))
    && (m.now.seqno == c.seqno ==> m.now.port == c.port)
    && (m.now.seqno != c.seqno ==> m.now.port == (if r.kind.Init? then r.port else if r.kind.Terminate? then NOPORT else c.port))
  }

  /** A request that has its turn finds the port its message came with, and an initialization none. */
  ghost predicate TurnOk(r: Request, c: Counters) {
    c.port == (if r.kind.Init? || r.kind.NoSenders? then NOPORT else r.port)
  }

  lemma EveryMoveRefs(r: Request, k: nat, c: Counters, pending: nat, maxRefs: nat)
    requires PcFits(r) && (c.seqno == k ==> TurnOk(r, c)) && (Holding(r.pc) ==> k == c.seqno)
    ensures MoveRefs(r, c, MoveOf(r, k, c, pending, maxRefs))
  {
  }

  lemma MoveConserves(s: State, k: nat, m: Move)
    requires Conserved(s) && k in s.reqs && k < |s.log| && s.reqs[k].port <= s.generation && MoveRefs(s.reqs[k], CountersOf(s), m)
    ensures Conserved(Moved(s, k, m))
  {
    var s' := Moved(s, k, m);
    forall g: nat | g <= s'.generation
      ensures s'.held[g] == Share(CountersOf(s'), g) + Sum(j => RefTerm(s', g, j), |s'.log|)
    {
      MovedHeld(s, k, m, g);
    }
  }

  lemma MovedHeld(s: State, k: nat, m: Move, g: nat)
    requires Conserved(s) && k in s.reqs && k < |s.log| && MoveRefs(s.reqs[k], CountersOf(s), m) && g <= s.generation
    ensures var s' := Moved(s, k, m); g in s'.held && s'.held[g] == Share(CountersOf(s'), g) + Sum(j => RefTerm(s', g, j), |s'.log|)
  {
    var s' := Moved(s, k, m);
    MoveOthers(s, k, m);
    SumChange(j => RefTerm(s, g, j), j => RefTerm(s', g, j), |s.log|, k);
  }

  lemma MovePort(s: State, k: nat, m: Move)
    requires PortOk(s) && k in s.reqs && k < |s.log| && s.log[k] == Message(s.reqs[k].kind, s.reqs[k].port)
    requires MoveRefs(s.reqs[k], CountersOf(s), m) && (m.now.seqno == s.seqno || (m.now.seqno == s.seqno + 1 && s.seqno == k))
    ensures PortOk(Moved(s, k, m))
  {
  }

  lemma TurnFinds(s: State, k: nat)
    requires Order(s) && LogOk(s) && PortOk(s) && k in s.reqs && k == s.seqno
    ensures TurnOk(s.reqs[k], CountersOf(s))
  {
    assert RequestOk(s, k) && MessageOk(s.log, k);
  }

  lemma RunKeepsRefs(s: State, k: nat)
    requires RefsInv(s) && CanRun(s, k)
    ensures RefsInv(Ran(s, k))
  {
    var r, c := s.reqs[k], CountersOf(s);
    assert RequestOk(s, k);
    if k == s.seqno { TurnFinds(s, k); }
    RunKeeps(s, k);
    EveryMoveFits(r, k, c, s.pending, s.maxRefs);
    EveryMoveRefs(r, k, c, s.pending, s.maxRefs);
    var m := MoveOf(r, k, c, s.pending, s.maxRefs);
    MoveConserves(s, k, m);
    MovePort(s, k, m);
  }

  lemma ArriveSum(s: State, kind: Kind, g: nat)
    requires |s.log| !in s.reqs && (forall k :: k in s.reqs ==> s.reqs[k].port <= s.generation)
    ensures var own := if g == Arrived(s, kind).generation && CarriesRef(kind) then 1 else 0;
            Sum(j => RefTerm(Arrived(s, kind), g, j), |s.log| + 1) == Sum(j => RefTerm(s, g, j), |s.log|) + own
    ensures g > s.generation ==> Sum(j => RefTerm(s, g, j), |s.log|) == 0
  {
    var s' := Arrived(s, kind);
    SumSame(j => RefTerm(s, g, j), j => RefTerm(s', g, j), |s.log|);
    if g > s.generation {
      ZeroTerms(j => RefTerm(s, g, j), |s.log|);
    }
  }

  lemma ArriveConserves(s: State, kind: Kind)
    requires Conserved(s) && s.port <= s.generation
    requires |s.log| !in s.reqs && (forall k :: k in s.reqs ==> s.reqs[k].port <= s.generation)
    ensures Conserved(Arrived(s, kind))
  {
    var s' := Arrived(s, kind);
    forall g: nat | g <= s'.generation
      ensures s'.held[g] == Share(CountersOf(s'), g) + Sum(j => RefTerm(s', g, j), |s'.log|)
    {
      ArriveSum(s, kind, g);
    }
  }

  lemma {:induction false} PortBound(log: seq<Message>, n: nat, top: nat)
    requires n <= |log| && forall k: nat :: k < |log| ==> log[k].port <= top
    ensures PortAt(log, n) <= top
  {
    if n > 0 {
      PortBound(log, n - 1, top);
    }
  }

  lemma ArriveKeepsRefs(s: State, kind: Kind)
    requires RefsInv(s) && MayArrive(s, kind)
    ensures RefsInv(Arrived(s, kind))
  {
    ArriveKeeps(s, kind);
    ArriveLog(s, kind);
    PortBound(s.log, s.seqno, s.generation);
    assert forall k :: k in s.reqs ==> RequestOk(s, k) && k < |s.log| && s.reqs[k].port <= s.generation;
    ArriveConserves(s, kind);
    PortAtPrefix(s.log, Arrived(s, kind).log[|s.log|], s.seqno);
  }

  lemma SameRefs(s: State, s': State)
    requires LogOk(s) && PortOk(s) && Conserved(s)
    requires s'.log == s.log && s'.seqno == s.seqno && s'.port == s.port && s'.refs == s.refs && s'.held == s.held
    requires s'.generation == s.generation && s'.open == s.open
    requires forall j: nat :: (j in s'.reqs <==> j in s.reqs) && (j in s.reqs ==> Same(s.reqs[j], s'.reqs[j]))
    ensures LogOk(s') && PortOk(s') && Conserved(s')
  {
    forall g: nat | g <= s'.generation
      ensures s'.held[g] == Share(CountersOf(s'), g) + Sum(j => RefTerm(s', g, j), |s'.log|)
    {
      SumSame(j => RefTerm(s, g, j), j => RefTerm(s', g, j), |s.log|);
    }
  }

  lemma StepKeepsRefs(s: State, e: Step)
    requires RefsInv(s) && Enabled(s, e)
    ensures RefsInv(Next(s, e))
  {
    match e
    case Arrive(kind) => ArriveKeepsRefs(s, kind);
    case Run(k) => RunKeepsRefs(s, k);
    case _ =>
      StepKeeps(s, e);
      SameRefs(s, Next(s, e));
  }

  lemma {:induction false} RunsKeepRefs(s: State, es: seq<Step>)
    requires RefsInv(s) && Legal(s, es)
    ensures RefsInv(After(s, es))
    decreases |es|
  {
    if es != [] {
      StepKeepsRefs(s, es[0]);
      RunsKeepRefs(Next(s, es[0]), es[1..]);
    }
  }

  lemma InitialKeepsRefs(s: State)
    requires Initial(s)
    ensures RefsInv(s)
  {
    InitialKeeps(s);
    assert Sum(j => RefTerm(s, 0, j), 0) == 0;
  }

  /** In every reachable state the references are conserved and none is given up that is not held. */
  lemma ReferencesConserved(s: State, es: seq<Step>)
    requires Initial(s) && Legal(s, es)
    ensures Conserved(After(s, es))
    ensures forall g: nat :: g in After(s, es).held ==> After(s, es).held[g] >= 0
  {
    InitialKeepsRefs(s);
    RunsKeepRefs(s, es);
  }

  /** What a termination is about to give up is all there is: afterwards the port holds none. */
  lemma TerminationDropsAll(s: State, es: seq<Step>, k: nat)
    requires Initial(s) && Legal(s, es)
    requires var t := After(s, es); k in t.reqs && t.reqs[k].pc.Dropping?
    ensures var t := After(s, es); CanRun(t, k) && t.reqs[k].port in Ran(t, k).held && Ran(t, k).held[t.reqs[k].port] == 0
  {
    InitialKeepsRefs(s);
    RunsKeepRefs(s, es);
    DroppingIsAll(After(s, es), k);
  }

  lemma DroppingIsAll(t: State, k: nat)
    requires RefsInv(t) && k in t.reqs && t.reqs[k].pc.Dropping?
    ensures CanRun(t, k) && t.reqs[k].port in t.held && t.held[t.reqs[k].port] == t.reqs[k].pc.refs
  {
    var g := t.reqs[k].port;
    assert RequestOk(t, k) && MessageOk(t.log, k);
    PortAfter(t.log, k, t.seqno);
    OnlyDropping(t, k);
  }

  lemma OnlyDropping(t: State, k: nat)
    requires Order(t) && LogOk(t) && k in t.reqs && k < |t.log| && t.reqs[k].pc.Dropping?
    ensures Sum(j => RefTerm(t, t.reqs[k].port, j), |t.log|) == t.reqs[k].pc.refs
  {
    var g := t.reqs[k].port;
    var f := j => RefTerm(t, g, j);
    forall j: nat | j < |t.log| && j != k ensures f(j) == 0 {
      if j in t.reqs && t.reqs[j].port == g {
        NoOtherTerms(t, k, j);
      }
    }
    OneTerm(f, |t.log|, k);
  }

  /** Once a termination has had its turn its port is not the current one. */
  lemma {:induction false} PortAfter(log: seq<Message>, k: nat, n: nat)
    requires k < n <= |log| && log[k].kind.Terminate? && forall j: nat :: j < |log| ==> MessageOk(log, j)
    ensures PortAt(log, n) != log[k].port
    decreases n
  {
    if n > k + 1 {
      PortAfter(log, k, n - 1);
      assert MessageOk(log, n - 1);
    }
  }

  lemma NoOtherTerms(t: State, k: nat, j: nat)
    requires Order(t) && LogOk(t) && k in t.reqs && t.reqs[k].pc.Dropping? && j in t.reqs && j != k && t.reqs[j].port == t.reqs[k].port
    ensures Term(t.reqs[j]) == 0
  {
    assert RequestOk(t, k) && RequestOk(t, j);
    assert MessageOk(t.log, j) && MessageOk(t.log, k);
  }

  /** Neither check against a port that is still there can fail: the object has no control port when
      an initialization or the no-senders notification has its turn. */
  lemma NoBadRequest(s: State, es: seq<Step>, k: nat)
    requires Initial(s) && Legal(s, es)
    requires var t := After(s, es); k in t.reqs && t.seqno == k && (t.reqs[k].kind.Init? || t.reqs[k].kind.NoSenders?)
    ensures After(s, es).port == NOPORT
  {
    InitialKeepsRefs(s);
    RunsKeepRefs(s, es);
    TurnFinds(After(s, es), k);
  }
}
