/** The protocol and the pager together, for one memory object: its write requests send transfers to the
    pager, asynchronous or not, its read requests fetch through it, and its no-senders notification frees what it
    has; transfers of other objects and all device steps interleave with them. */
module Together {
  import opened Sums
  import opened Slots
  import P = Protocol
  import PI = ProtocolInvariant
  import PS = ProtocolSteps
  import PR = ProtocolRuns
  import PE = ProtocolEnds
  import G = Pager
  import GR = PagerRuns
  import R = PagerReads

  /** What became of a transfer: it may have been lost to a write error of its own or of an earlier one. */
  datatype Fate = Out | Stored | Lost

  /** A write transfer of the object: the request that sent it, its pages, and their contents. */
  datatype Transfer = Transfer(writer: nat, cluster: nat, off: nat, data: seq<G.Content>, async: bool, fate: Fate) {
    predicate Covers(c: nat, i: nat) { cluster == c && off <= i < off + |data| }
  }

  /** `sent`: the object's write transfers in the order in which they were sent. `reader`: the request that fetches
      with a given transfer. `last`: for every page of the object that is stored, the transfer that stored it. */
  datatype State = State(p: P.State, g: G.State, obj: nat, sent: seq<Transfer>, reader: map<nat, nat>, last: map<(nat, nat), nat>)

  /** The object's write transfers have even numbers in the pager, in order; all others have odd ones. */
  function WriteId(i: nat): nat { 2 * i }

  datatype Step =
    | Serve(step: P.Step)
    | Send(k: nat, page: nat, data: seq<G.Content>, mem: Memory, space: Option<Loc>, async: bool)
    | Finish(i: nat, error: nat)
    | Fetch(k: nat, id: nat, page: nat, cnt: nat)
    | Free(k: nat)
    | Page(event: G.Event)

  predicate Working(p: P.State, k: nat, kind: P.Kind) {
    k in p.reqs && p.reqs[k].kind == kind && p.reqs[k].pc.Body?
  }

  /** The step of the pager in a step of both, if there is one. */
  function EventOf(s: State, e: Step): Option<G.Event> {
    match e
    case Serve(_) => None
    case Send(k, page, data, mem, space, async) => Some(SendEvent(s, page, data, mem, space))
    case Finish(i, error) => Some(G.WriteDone(WriteId(i), error))
    case Fetch(k, id, page, cnt) => Some(G.ReadMap(id, s.obj, page, cnt))
    case Free(_) => Some(G.Destroy(s.obj))
    case Page(event) => Some(event)
  }

  function SendEvent(s: State, page: nat, data: seq<G.Content>, mem: Memory, space: Option<Loc>): G.Event {
    G.WriteMap(WriteId(|s.sent|), s.obj, page, data, mem, space)
  }

  /** The thread of a write goes on when its synchronous transfers are over, that of a read when its fetches are. */
  ghost predicate MayGoOn(s: State, k: nat) {
    && (Working(s.p, k, P.Write) ==> forall i: nat :: i < |s.sent| && s.sent[i].fate.Out? && !s.sent[i].async ==> s.sent[i].writer != k)
    && (Working(s.p, k, P.Read) ==> forall id :: Fetching(s, id) && id in s.reader ==> s.reader[id] != k)
  }

  predicate Fetching(s: State, id: nat) {
    id in s.g.ops && s.g.ops[id].Reading? && s.g.ops[id].obj == s.obj
  }

  ghost predicate Enabled(s: State, e: Step) {
    && (EventOf(s, e).Some? ==> G.Enabled(s.g, EventOf(s, e).value))
    && match e
       case Serve(pe) =>
         && P.Enabled(s.p, pe) && !pe.Issue? && !pe.Reply?
         && (pe.Arrive? ==> s.obj in s.g.objs) && (pe.Run? ==> MayGoOn(s, pe.k) && !PE.Frees(s.p, pe.k))
       case Send(k, page, data, mem, space, async) => Working(s.p, k, P.Write)
       case Finish(i, error) => i < |s.sent| && s.sent[i].fate.Out?
       case Fetch(k, id, page, cnt) => Working(s.p, k, P.Read) && id % 2 == 1
       case Free(k) => PE.Frees(s.p, k)
       case Page(ge) => Foreign(s, ge)
  }

  /** A step of the pager that is not made for a request of the object. */
  predicate Foreign(s: State, e: G.Event) {
    match e
    case Create(o, size) => o == s.obj ==> s.p.log == []
    case Destroy(o) => o != s.obj
    case WriteMap(id, o, page, data, mem, space) => id % 2 == 1 && o != s.obj
    case WriteDone(id, error) => id % 2 == 1
    case ReadMap(id, o, page, cnt) => id % 2 == 1 && o != s.obj
    case _ => true
  }

  /** An asynchronous transfer of `n` pages is counted, or its reply comes. */
  function Issued(p: P.State, k: nat, n: nat): P.State {
    p.(pending := p.pending + n, issued := p.issued[k := P.IssuedBy(p, k) + n])
  }

  function Replied(p: P.State, k: nat, n: nat): P.State {
    if P.Enabled(p, P.Reply(k, n)) then P.Next(p, P.Reply(k, n)) else p
  }

  function FateOf(s: State, i: nat, error: nat): Fate
    requires i < |s.sent|
  {
    if error == 0 && !G.Ent(s.g, s.obj, s.sent[i].cluster).error then Stored else Lost
  }

  /** Transfer `i` has stored its pages, or read `op` has taken its pages out. */
  function Stamp(last: map<(nat, nat), nat>, t: Transfer, i: nat): map<(nat, nat), nat> {
    last + map j: nat | t.off <= j < t.off + |t.data| :: (t.cluster, j) := i
  }

  function Unstamp(last: map<(nat, nat), nat>, op: G.Op): map<(nat, nat), nat> {
    map q | q in last && !(q.0 == op.k && op.off <= q.1 < op.off + op.Len()) :: last[q]
  }

  ghost function Next(s: State, e: Step): State
    requires Enabled(s, e)
  {
    match e
    case Serve(pe) => s.(p := P.Next(s.p, pe))
    case Send(k, page, data, mem, space, async) =>
      var g := G.Next(s.g, SendEvent(s, page, data, mem, space)).0;
      var id := WriteId(|s.sent|);
      if id !in g.ops || !g.ops[id].Writing? then s.(g := g)
      else
        var op := g.ops[id];
        s.(p := if async then Issued(s.p, k, |op.data|) else s.p, g := g, sent := s.sent + [Transfer(k, op.k, op.off, op.data, async, Out)])
    case Finish(i, error) =>
      var t, fate := s.sent[i], FateOf(s, i, error);
      s.(p := if t.async then Replied(s.p, t.writer, |t.data|) else s.p,
         g := G.Next(s.g, G.WriteDone(WriteId(i), error)).0,
         sent := s.sent[i := t.(fate := fate)],
         last := if fate.Stored? then Stamp(s.last, t, i) else s.last)
    case Fetch(k, id, page, cnt) => s.(g := G.Next(s.g, G.ReadMap(id, s.obj, page, cnt)).0, reader := s.reader[id := k])
    case Free(k) => s.(p := P.Ran(s.p, k), g := G.Next(s.g, G.Destroy(s.obj)).0, last := map[])
    case Page(ge) =>
      s.(g := G.Next(s.g, ge).0,
         last := if ge.Supply? && s.g.ops[ge.id].obj == s.obj then Unstamp(s.last, s.g.ops[ge.id]) else s.last)
  }

  // ---- What links the two ----

  /** The pages of transfer `i` that request `k` has issued and that are not yet completed. */
  function Due(sent: seq<Transfer>, k: nat, i: nat): nat {
    if i < |sent| && sent[i].writer == k && sent[i].async && sent[i].fate.Out? then |sent[i].data| else 0
  }

  function DueOf(sent: seq<Transfer>, k: nat): nat -> nat { i => Due(sent, k, i) }

  function AllDue(sent: seq<Transfer>, k: nat): nat { Sum(DueOf(sent, k), |sent|) }

  predicate OpIs(ops: map<nat, G.Op>, obj: nat, id: nat, t: Transfer) {
    && id in ops && ops[id].Writing? && ops[id].obj == obj && ops[id].k == t.cluster && ops[id].off == t.off
    && ops[id].data == t.data && t.data != []
  }

  /** The write transfers that are out are the pager's, and no others. */
  ghost predicate OpsLinked(ops: map<nat, G.Op>, obj: nat, sent: seq<Transfer>) {
    && (forall i: nat :: i < |sent| && sent[i].fate.Out? ==> OpIs(ops, obj, WriteId(i), sent[i]))
    && (forall id :: id in ops && (id % 2 == 0 || (ops[id].Writing? && ops[id].obj == obj)) ==> IsSent(sent, id))
  }

  predicate IsSent(sent: seq<Transfer>, id: nat) {
    id % 2 == 0 && id / 2 < |sent| && sent[id / 2].fate.Out?
  }

  /** A synchronous transfer that is out belongs to a write at work. */
  ghost predicate WritersWork(p: P.State, sent: seq<Transfer>) {
    forall i: nat :: i < |sent| && sent[i].fate.Out? && !sent[i].async ==> Working(p, sent[i].writer, P.Write)
  }

  /** The protocol's counts are those of the transfers that are out. */
  ghost predicate CountsLinked(p: P.State, sent: seq<Transfer>) {
    forall k: nat :: P.IssuedBy(p, k) == AllDue(sent, k)
  }

  /** A fetch that is out belongs to a read at work. */
  ghost predicate ReadersWork(p: P.State, ops: map<nat, G.Op>, obj: nat, reader: map<nat, nat>) {
    forall id :: id in ops && ops[id].Reading? && ops[id].obj == obj ==> id in reader && Working(p, reader[id], P.Read)
  }

  /** The object is there from its first request until it is freed. */
  ghost predicate ObjectThere(p: P.State, objs: set<nat>, obj: nat) {
    p.log != [] && (p.dead ==> |p.log| - 1 in p.reqs) ==> obj in objs
  }

  ghost predicate Linked(s: State) {
    && OpsLinked(s.g.ops, s.obj, s.sent) && WritersWork(s.p, s.sent) && CountsLinked(s.p, s.sent)
    && ReadersWork(s.p, s.g.ops, s.obj, s.reader) && ObjectThere(s.p, s.g.objs.Keys, s.obj)
  }

  ghost predicate Inv(s: State) { PS.Inv(s.p) && PE.Ended(s.p) && Linked(s) }

  ghost predicate Initial(s: State) {
    P.Initial(s.p) && GR.Initial(s.g) && s.sent == [] && s.last == map[]
  }

  lemma InitialInv(s: State)
    requires Initial(s)
    ensures Inv(s)
  {
    PR.InitialKeeps(s.p);
  }

  // ---- Counting ----

  lemma DueMore(sent: seq<Transfer>, t: Transfer, k: nat)
    ensures AllDue(sent + [t], k) == AllDue(sent, k) + (if t.writer == k && t.async && t.fate.Out? then |t.data| else 0)
  {
    SumSame(DueOf(sent + [t], k), DueOf(sent, k), |sent|);
  }

  lemma DueLess(sent: seq<Transfer>, i: nat, k: nat, fate: Fate)
    requires i < |sent| && sent[i].fate.Out? && !fate.Out?
    ensures AllDue(sent[i := sent[i].(fate := fate)], k) + (if sent[i].writer == k && sent[i].async then |sent[i].data| else 0) == AllDue(sent, k)
  {
    SumChange(DueOf(sent, k), DueOf(sent[i := sent[i].(fate := fate)], k), |sent|, i);
  }

  /** The reply to a transfer that is out can always be counted. */
  lemma ReplyDue(s: State, i: nat)
    requires Inv(s) && i < |s.sent| && s.sent[i].fate.Out? && s.sent[i].async
    ensures P.Enabled(s.p, P.Reply(s.sent[i].writer, |s.sent[i].data|))
  {
    var k := s.sent[i].writer;
    TermBound(DueOf(s.sent, k), |s.sent|, i);
    assert P.IssuedBy(s.p, k) >= |s.sent[i].data|;
    assert OpIs(s.g.ops, s.obj, WriteId(i), s.sent[i]);
    assert k in s.p.issued;
    PI.CountersPositive(s.p, k);
  }

  // ---- Steps of the protocol ----

  /** A request goes on working as long as its own thread does not. */
  lemma StillWorking(p: P.State, e: P.Step, k: nat, kind: P.Kind)
    requires P.Enabled(p, e) && Working(p, k, kind) && k < |p.log| && !(e.Run? && e.k == k)
    ensures Working(P.Next(p, e), k, kind)
  {
  }

  lemma ServeWriters(p: P.State, e: P.Step, sent: seq<Transfer>)
    requires PI.Order(p) && P.Enabled(p, e) && WritersWork(p, sent)
    requires e.Run? && Working(p, e.k, P.Write) ==> forall i: nat :: i < |sent| && sent[i].fate.Out? && !sent[i].async ==> sent[i].writer != e.k
    ensures WritersWork(P.Next(p, e), sent)
  {
    forall i: nat | i < |sent| && sent[i].fate.Out? && !sent[i].async ensures Working(P.Next(p, e), sent[i].writer, P.Write) {
      assert Working(p, sent[i].writer, P.Write) && PI.RequestOk(p, sent[i].writer);
      StillWorking(p, e, sent[i].writer, P.Write);
    }
  }

  lemma ServeReaders(p: P.State, e: P.Step, ops: map<nat, G.Op>, obj: nat, reader: map<nat, nat>)
    requires PI.Order(p) && P.Enabled(p, e) && ReadersWork(p, ops, obj, reader)
    requires e.Run? && Working(p, e.k, P.Read) ==>
               forall id :: id in ops && ops[id].Reading? && ops[id].obj == obj && id in reader ==> reader[id] != e.k
    ensures ReadersWork(P.Next(p, e), ops, obj, reader)
  {
    forall id | id in ops && ops[id].Reading? && ops[id].obj == obj ensures id in reader && Working(P.Next(p, e), reader[id], P.Read) {
      assert Working(p, reader[id], P.Read) && PI.RequestOk(p, reader[id]);
      StillWorking(p, e, reader[id], P.Read);
    }
  }

  lemma SameCounts(p: P.State, p': P.State, sent: seq<Transfer>)
    requires CountsLinked(p, sent) && p'.issued == p.issued
    ensures CountsLinked(p', sent)
  {
    forall k: nat ensures P.IssuedBy(p', k) == AllDue(sent, k) {
      assert P.IssuedBy(p, k) == AllDue(sent, k);
    }
  }

  /** A no-senders notification leaves only when it frees the object. */
  lemma ServeThere(p: P.State, e: P.Step, objs: set<nat>, obj: nat)
    requires PI.Order(p) && PE.Ended(p) && P.Enabled(p, e) && ObjectThere(p, objs, obj) && (e.Arrive? ==> obj in objs)
    requires e.Run? ==> !PE.Frees(p, e.k)
    ensures ObjectThere(P.Next(p, e), objs, obj)
  {
    var n: int := |p.log| - 1;
    if p.dead && n in p.reqs {
      assert PI.RequestOk(p, n);
    }
  }

  lemma ServeKeeps(s: State, e: P.Step)
    requires Inv(s) && Enabled(s, Serve(e))
    ensures Inv(Next(s, Serve(e)))
  {
    PS.StepKeeps(s.p, e);
    PE.StepEnded(s.p, e);
    ServeWriters(s.p, e, s.sent);
    ServeReaders(s.p, e, s.g.ops, s.obj, s.reader);
    SameCounts(s.p, P.Next(s.p, e), s.sent);
    ServeThere(s.p, e, s.g.objs.Keys, s.obj);
  }

  // ---- Steps of the pager ----

  lemma OpsStay(ops: map<nat, G.Op>, ops': map<nat, G.Op>, e: G.Event, obj: nat, sent: seq<Transfer>)
    requires OpsLinked(ops, obj, sent) && R.OpsStep(ops, ops', e)
    requires e.WriteMap? ==> e.id % 2 == 1 && e.obj != obj
    requires e.WriteDone? || e.ReadMap? ==> e.id % 2 == 1
    ensures OpsLinked(ops', obj, sent)
  {
    forall i: nat | i < |sent| && sent[i].fate.Out? ensures OpIs(ops', obj, WriteId(i), sent[i]) {
      assert OpIs(ops, obj, WriteId(i), sent[i]) && WriteId(i) % 2 == 0;
      assert WriteId(i) in ops' && R.Alike(ops'[WriteId(i)], ops[WriteId(i)]);
    }
    forall id | id in ops' && (id % 2 == 0 || (ops'[id].Writing? && ops'[id].obj == obj)) ensures IsSent(sent, id) {
      assert id in ops && R.Alike(ops'[id], ops[id]);
    }
  }

  lemma ReadersStay(p: P.State, ops: map<nat, G.Op>, ops': map<nat, G.Op>, e: G.Event, obj: nat, reader: map<nat, nat>)
    requires ReadersWork(p, ops, obj, reader) && R.OpsStep(ops, ops', e) && (e.ReadMap? ==> e.obj != obj)
    ensures ReadersWork(p, ops', obj, reader)
  {
    forall id | id in ops' && ops'[id].Reading? && ops'[id].obj == obj ensures id in reader && Working(p, reader[id], P.Read) {
      assert id in ops && R.Alike(ops'[id], ops[id]);
    }
  }

  lemma ObjectsStay(g: G.State, e: G.Event, obj: nat)
    requires G.Enabled(g, e) && obj in g.objs && !(e.Destroy? && e.obj == obj)
    ensures obj in G.Next(g, e).0.objs
  {
  }

  lemma ObjectsSame(g: G.State, e: G.Event, obj: nat, p: P.State)
    requires G.Enabled(g, e) && !(e.Destroy? && e.obj == obj) && ObjectThere(p, g.objs.Keys, obj)
    ensures ObjectThere(p, G.Next(g, e).0.objs.Keys, obj)
  {
    if obj in g.objs {
      ObjectsStay(g, e, obj);
    }
  }

  lemma PageKeeps(s: State, e: G.Event)
    requires Inv(s) && Enabled(s, Page(e))
    ensures Inv(Next(s, Page(e)))
  {
    var ops := G.Next(s.g, e).0.ops;
    R.StepOps(s.g, e);
    OpsStay(s.g.ops, ops, e, s.obj, s.sent);
    ReadersStay(s.p, s.g.ops, ops, e, s.obj, s.reader);
    ObjectsSame(s.g, e, s.obj, s.p);
  }

  lemma FetchReaders(p: P.State, ops: map<nat, G.Op>, ops': map<nat, G.Op>, e: G.Event, obj: nat, reader: map<nat, nat>, k: nat)
    requires ReadersWork(p, ops, obj, reader) && R.OpsStep(ops, ops', e) && e.ReadMap? && e.id !in ops && Working(p, k, P.Read)
    ensures ReadersWork(p, ops', obj, reader[e.id := k])
  {
    forall id | id in ops' && ops'[id].Reading? && ops'[id].obj == obj && id != e.id ensures id in reader && Working(p, reader[id], P.Read) {
      assert id in ops && R.Alike(ops'[id], ops[id]);
    }
  }

  lemma FetchKeeps(s: State, k: nat, id: nat, page: nat, cnt: nat)
    requires Inv(s) && Enabled(s, Fetch(k, id, page, cnt))
    ensures Inv(Next(s, Fetch(k, id, page, cnt)))
  {
    var e := G.ReadMap(id, s.obj, page, cnt);
    var ops := G.Next(s.g, e).0.ops;
    R.StepOps(s.g, e);
    OpsStay(s.g.ops, ops, e, s.obj, s.sent);
    FetchReaders(s.p, s.g.ops, ops, e, s.obj, s.reader, k);
    ObjectsSame(s.g, e, s.obj, s.p);
  }

  // ---- Transfers that are sent ----

  /** The pages of a new transfer. */
  lemma SendOps(g: G.State, e: G.Event)
    requires G.Enabled(g, e) && e.WriteMap? && e.id in G.Next(g, e).0.ops
    ensures var op := G.Next(g, e).0.ops[e.id];
            && op.Writing? && op.obj == e.obj && op.k == e.page / g.cs && op.off == e.page % g.cs && op.data != []
            && |op.data| == G.Chunk(g.cs, e.page, |e.data|)
  {
  }

  lemma SendLinksOps(ops: map<nat, G.Op>, ops': map<nat, G.Op>, e: G.Event, obj: nat, sent: seq<Transfer>, t: Transfer)
    requires OpsLinked(ops, obj, sent) && R.OpsStep(ops, ops', e) && e.WriteMap? && e.id == WriteId(|sent|) && e.id !in ops
    requires t.fate.Out? && OpIs(ops', obj, e.id, t)
    ensures OpsLinked(ops', obj, sent + [t])
  {
    var sent' := sent + [t];
    forall i: nat | i < |sent'| && sent'[i].fate.Out? ensures OpIs(ops', obj, WriteId(i), sent'[i]) {
      if i < |sent| {
        assert OpIs(ops, obj, WriteId(i), sent[i]) && WriteId(i) != e.id;
        assert WriteId(i) in ops' && R.Alike(ops'[WriteId(i)], ops[WriteId(i)]);
      }
    }
    forall id | id in ops' && (id % 2 == 0 || (ops'[id].Writing? && ops'[id].obj == obj)) ensures IsSent(sent', id) {
      if id in ops {
        assert R.Alike(ops'[id], ops[id]) && IsSent(sent, id);
      } else {
        assert WriteId(|sent|) / 2 == |sent|;
      }
    }
  }

  lemma NotSentOps(ops: map<nat, G.Op>, ops': map<nat, G.Op>, e: G.Event, obj: nat, sent: seq<Transfer>)
    requires OpsLinked(ops, obj, sent) && R.OpsStep(ops, ops', e) && e.WriteMap? && e.id !in ops'
    ensures OpsLinked(ops', obj, sent)
  {
    forall i: nat | i < |sent| && sent[i].fate.Out? ensures OpIs(ops', obj, WriteId(i), sent[i]) {
      assert OpIs(ops, obj, WriteId(i), sent[i]);
      assert WriteId(i) in ops' && R.Alike(ops'[WriteId(i)], ops[WriteId(i)]);
    }
    forall id | id in ops' && (id % 2 == 0 || (ops'[id].Writing? && ops'[id].obj == obj)) ensures IsSent(sent, id) {
      assert id in ops && R.Alike(ops'[id], ops[id]);
    }
  }

  lemma SendCounts(p: P.State, sent: seq<Transfer>, t: Transfer)
    requires CountsLinked(p, sent) && t.fate.Out?
    ensures CountsLinked(if t.async then Issued(p, t.writer, |t.data|) else p, sent + [t])
  {
    var p' := if t.async then Issued(p, t.writer, |t.data|) else p;
    forall j: nat ensures P.IssuedBy(p', j) == AllDue(sent + [t], j) {
      assert P.IssuedBy(p, j) == AllDue(sent, j);
      DueMore(sent, t, j);
    }
  }

  lemma IssueKeeps(p: P.State, k: nat, n: nat)
    requires PS.Inv(p) && Working(p, k, P.Write)
    ensures PS.Inv(Issued(p, k, n))
  {
    PS.StepKeeps(p, P.Issue(k, n));
    assert P.Next(p, P.Issue(k, n)) == Issued(p, k, n);
  }

  lemma IssueEnded(p: P.State, k: nat, n: nat)
    requires PE.Ended(p) && Working(p, k, P.Write)
    ensures PE.Ended(Issued(p, k, n))
  {
    PE.IssueEnded(p, k, n);
    assert P.Next(p, P.Issue(k, n)) == Issued(p, k, n);
  }

  lemma SendLinks(s: State, k: nat, page: nat, data: seq<G.Content>, mem: Memory, space: Option<Loc>, async: bool)
    requires Linked(s) && Enabled(s, Send(k, page, data, mem, space, async))
    ensures Linked(Next(s, Send(k, page, data, mem, space, async)))
  {
    var e := SendEvent(s, page, data, mem, space);
    SendStays(s, e);
    if e.id in G.Next(s.g, e).0.ops {
      var t := SentTransfer(s, k, e, async);
      SentLinks(s, e, t);
    }
  }

  /** What a send keeps if nothing comes of it. */
  lemma SendStays(s: State, e: G.Event)
    requires Linked(s) && G.Enabled(s.g, e) && e.WriteMap? && e.id == WriteId(|s.sent|)
    ensures ReadersWork(s.p, G.Next(s.g, e).0.ops, s.obj, s.reader) && ObjectThere(s.p, G.Next(s.g, e).0.objs.Keys, s.obj)
    ensures var ops := G.Next(s.g, e).0.ops; e.id !in ops ==> OpsLinked(ops, s.obj, s.sent)
  {
    var ops := G.Next(s.g, e).0.ops;
    R.StepOps(s.g, e);
    ReadersStay(s.p, s.g.ops, ops, e, s.obj, s.reader);
    ObjectsSame(s.g, e, s.obj, s.p);
    if e.id !in ops {
      NotSentOps(s.g.ops, ops, e, s.obj, s.sent);
    }
  }

  lemma SentLinks(s: State, e: G.Event, t: Transfer)
    requires Linked(s) && G.Enabled(s.g, e) && e.WriteMap? && e.id == WriteId(|s.sent|) && Working(s.p, t.writer, P.Write)
    requires t.fate.Out? && OpIs(G.Next(s.g, e).0.ops, s.obj, e.id, t)
    ensures var p := if t.async then Issued(s.p, t.writer, |t.data|) else s.p;
            OpsLinked(G.Next(s.g, e).0.ops, s.obj, s.sent + [t]) && CountsLinked(p, s.sent + [t]) && WritersWork(p, s.sent + [t])
  {
    R.StepOps(s.g, e);
    SendLinksOps(s.g.ops, G.Next(s.g, e).0.ops, e, s.obj, s.sent, t);
    SendCounts(s.p, s.sent, t);
  }

  lemma SentTransfer(s: State, k: nat, e: G.Event, async: bool) returns (t: Transfer)
    requires G.Enabled(s.g, e) && e.WriteMap? && e.id in G.Next(s.g, e).0.ops
    ensures var op := G.Next(s.g, e).0.ops[e.id];
            op.Writing? && t == Transfer(k, op.k, op.off, op.data, async, Out) && OpIs(G.Next(s.g, e).0.ops, e.obj, e.id, t)
  {
    SendOps(s.g, e);
    var op := G.Next(s.g, e).0.ops[e.id];
    t := Transfer(k, op.k, op.off, op.data, async, Out);
  }

  lemma SendKeeps(s: State, k: nat, page: nat, data: seq<G.Content>, mem: Memory, space: Option<Loc>, async: bool)
    requires Inv(s) && Enabled(s, Send(k, page, data, mem, space, async))
    ensures Inv(Next(s, Send(k, page, data, mem, space, async)))
  {
    SendLinks(s, k, page, data, mem, space, async);
    var ops := G.Next(s.g, SendEvent(s, page, data, mem, space)).0.ops;
    if WriteId(|s.sent|) in ops {
      IssueKeeps(s.p, k, |ops[WriteId(|s.sent|)].data|);
      IssueEnded(s.p, k, |ops[WriteId(|s.sent|)].data|);
    }
  }

  // ---- Transfers that are completed ----

  lemma FinishLinksOps(ops: map<nat, G.Op>, obj: nat, sent: seq<Transfer>, i: nat, fate: Fate)
    requires OpsLinked(ops, obj, sent) && i < |sent| && sent[i].fate.Out? && !fate.Out?
    ensures OpsLinked(ops - {WriteId(i)}, obj, sent[i := sent[i].(fate := fate)])
  {
    var ops', sent' := ops - {WriteId(i)}, sent[i := sent[i].(fate := fate)];
    forall j: nat | j < |sent'| && sent'[j].fate.Out? ensures OpIs(ops', obj, WriteId(j), sent'[j]) {
      assert j != i && OpIs(ops, obj, WriteId(j), sent[j]) && WriteId(j) != WriteId(i);
    }
    forall id | id in ops' && (id % 2 == 0 || (ops'[id].Writing? && ops'[id].obj == obj)) ensures IsSent(sent', id) {
      assert IsSent(sent, id) && id != WriteId(i);
    }
  }

  lemma DoneOps(g: G.State, id: nat, error: nat)
    requires G.Enabled(g, G.WriteDone(id, error))
    ensures G.Next(g, G.WriteDone(id, error)).0.ops == g.ops - {id}
  {
  }

  lemma FinishCounts(p: P.State, sent: seq<Transfer>, i: nat, fate: Fate)
    requires CountsLinked(p, sent) && i < |sent| && sent[i].fate.Out? && !fate.Out?
    requires sent[i].async ==> P.Enabled(p, P.Reply(sent[i].writer, |sent[i].data|))
    ensures CountsLinked(if sent[i].async then Replied(p, sent[i].writer, |sent[i].data|) else p, sent[i := sent[i].(fate := fate)])
  {
    var p' := if sent[i].async then Replied(p, sent[i].writer, |sent[i].data|) else p;
    forall k: nat ensures P.IssuedBy(p', k) == AllDue(sent[i := sent[i].(fate := fate)], k) {
      assert P.IssuedBy(p, k) == AllDue(sent, k);
      DueLess(sent, i, k, fate);
    }
  }

  lemma ReplyKeeps(p: P.State, k: nat, n: nat)
    requires PS.Inv(p) && PE.Ended(p) && P.Enabled(p, P.Reply(k, n))
    ensures PS.Inv(Replied(p, k, n)) && PE.Ended(Replied(p, k, n))
  {
    PS.StepKeeps(p, P.Reply(k, n));
    PE.ReplyEnded(p, k, n);
  }

  lemma FinishProtocol(s: State, i: nat)
    requires Inv(s) && i < |s.sent| && s.sent[i].fate.Out?
    ensures var t := s.sent[i];
            var p := if t.async then Replied(s.p, t.writer, |t.data|) else s.p;
            PS.Inv(p) && PE.Ended(p)
    ensures var t := s.sent[i]; t.async ==> P.Enabled(s.p, P.Reply(t.writer, |t.data|))
  {
    if s.sent[i].async {
      ReplyDue(s, i);
      ReplyKeeps(s.p, s.sent[i].writer, |s.sent[i].data|);
    }
  }

  lemma FinishOps(s: State, i: nat, error: nat)
    requires OpsLinked(s.g.ops, s.obj, s.sent) && ReadersWork(s.p, s.g.ops, s.obj, s.reader) && Enabled(s, Finish(i, error))
    ensures var s' := Next(s, Finish(i, error)); OpsLinked(s'.g.ops, s.obj, s'.sent) && ReadersWork(s.p, s'.g.ops, s.obj, s.reader)
  {
    var e := G.WriteDone(WriteId(i), error);
    R.StepOps(s.g, e);
    DoneOps(s.g, WriteId(i), error);
    FinishLinksOps(s.g.ops, s.obj, s.sent, i, FateOf(s, i, error));
    ReadersStay(s.p, s.g.ops, s.g.ops - {WriteId(i)}, e, s.obj, s.reader);
  }

  lemma FinishLinks(s: State, i: nat, error: nat)
    requires Linked(s) && Enabled(s, Finish(i, error))
    requires var t := s.sent[i]; t.async ==> P.Enabled(s.p, P.Reply(t.writer, |t.data|))
    ensures Linked(Next(s, Finish(i, error)))
  {
    FinishOps(s, i, error);
    FinishCounts(s.p, s.sent, i, FateOf(s, i, error));
    ObjectsSame(s.g, G.WriteDone(WriteId(i), error), s.obj, s.p);
  }

  lemma FinishKeeps(s: State, i: nat, error: nat)
    requires Inv(s) && Enabled(s, Finish(i, error))
    ensures Inv(Next(s, Finish(i, error)))
  {
    FinishProtocol(s, i);
    FinishLinks(s, i, error);
  }

  // ---- The object is freed ----

  /** When its no-senders notification frees the object no transfer of it is out, so that nothing the pager does for
      others is for it: the pager may destroy it. */
  lemma NothingOut(s: State, k: nat)
    requires Inv(s) && PE.Frees(s.p, k)
    ensures forall i: nat :: i < |s.sent| ==> !s.sent[i].fate.Out?
    ensures forall id :: id in s.g.ops ==> s.g.ops[id].obj != s.obj
    ensures s.obj in s.g.objs
  {
    PE.FreedIdle(s.p, k);
    forall i: nat | i < |s.sent| ensures !s.sent[i].fate.Out? {
      NotOut(s, i);
    }
    forall id | id in s.g.ops ensures s.g.ops[id].obj != s.obj {
      assert s.g.ops[id].Reading? && s.g.ops[id].obj == s.obj ==> Working(s.p, s.reader[id], P.Read);
    }
    assert PI.RequestOk(s.p, k);
  }

  lemma NotOut(s: State, i: nat)
    requires Linked(s) && i < |s.sent| && PE.NoneIssued(s.p) && forall j :: j in s.p.reqs ==> !PI.Busy(s.p.reqs[j])
    ensures !s.sent[i].fate.Out?
  {
    var t, j := s.sent[i], s.sent[i].writer;
    TermBound(DueOf(s.sent, j), |s.sent|, i);
    assert P.IssuedBy(s.p, j) == AllDue(s.sent, j) == 0;
    assert DueOf(s.sent, j)(i) == Due(s.sent, j, i);
    assert t.fate.Out? ==> OpIs(s.g.ops, s.obj, WriteId(i), t) && (!t.async ==> Working(s.p, j, P.Write));
  }

  /** Whenever the handler gets there, it can free the object. */
  lemma FreeReady(s: State, k: nat)
    requires Inv(s) && PE.Frees(s.p, k) && s.g.cs > 0
    ensures Enabled(s, Free(k))
  {
    NothingOut(s, k);
  }

  lemma NoneAtWork(p: P.State, ops: map<nat, G.Op>, obj: nat, sent: seq<Transfer>, reader: map<nat, nat>)
    requires forall i: nat :: i < |sent| ==> !sent[i].fate.Out?
    requires forall id :: id in ops ==> ops[id].obj != obj
    ensures WritersWork(p, sent) && ReadersWork(p, ops, obj, reader)
  {
  }

  lemma FreeLinks(s: State, k: nat)
    requires Inv(s) && Enabled(s, Free(k))
    ensures Linked(Next(s, Free(k)))
  {
    NothingOut(s, k);
    NoneAtWork(P.Ran(s.p, k), s.g.ops, s.obj, s.sent, s.reader);
    SameCounts(s.p, P.Ran(s.p, k), s.sent);
    FreedGone(s.p, k);
    assert Next(s, Free(k)).g.ops == s.g.ops;
  }

  lemma FreeKeeps(s: State, k: nat)
    requires Inv(s) && Enabled(s, Free(k))
    ensures Inv(Next(s, Free(k)))
  {
    FreeLinks(s, k);
    PS.RunKeeps(s.p, k);
    PE.RunEnded(s.p, k);
  }

  lemma FreedGone(p: P.State, k: nat)
    requires PE.Frees(p, k) && PI.Order(p)
    ensures P.Ran(p, k).dead && |P.Ran(p, k).log| - 1 !in P.Ran(p, k).reqs
  {
    assert PI.RequestOk(p, k);
  }

  // ---- Every run ----

  lemma StepKeeps(s: State, e: Step)
    requires Inv(s) && Enabled(s, e)
    ensures Inv(Next(s, e))
  {
    match e
    case Serve(pe) => ServeKeeps(s, pe);
    case Send(k, page, data, mem, space, async) => SendKeeps(s, k, page, data, mem, space, async);
    case Finish(i, error) => FinishKeeps(s, i, error);
    case Fetch(k, id, page, cnt) => FetchKeeps(s, k, id, page, cnt);
    case Free(k) => FreeKeeps(s, k);
    case Page(ge) => PageKeeps(s, ge);
  }

  ghost predicate IsRun(states: seq<State>, steps: seq<Step>) {
    && |states| == |steps| + 1 && Initial(states[0])
    && forall i :: 0 <= i < |steps| ==> Enabled(states[i], steps[i]) && states[i + 1] == Next(states[i], steps[i])
  }

  lemma RunsKeep(states: seq<State>, steps: seq<Step>)
    requires IsRun(states, steps)
    ensures forall i :: 0 <= i < |states| ==> Inv(states[i])
  {
    InitialInv(states[0]);
    for n := 0 to |steps|
      invariant forall i :: 0 <= i <= n ==> Inv(states[i])
    {
      StepKeeps(states[n], steps[n]);
    }
  }

  // ---- Reads and earlier writes ----

  /** While data request `k` reads, no transfer of a write with a lower number is out: all that those wrote has
      been stored, or its cluster has been ruined. */
  lemma EarlierWritesOver(s: State, k: nat)
    requires Inv(s) && k in s.p.reqs && s.p.reqs[k].kind.Read? && PI.Busy(s.p.reqs[k])
    ensures forall i: nat :: i < |s.sent| && s.sent[i].writer < k ==> !s.sent[i].fate.Out?
    ensures forall id :: id in s.g.ops && s.g.ops[id].Writing? && s.g.ops[id].obj == s.obj ==> id / 2 < |s.sent| && s.sent[id / 2].writer >= k
  {
    EarlierDone(s.p, k);
    forall i: nat | i < |s.sent| && s.sent[i].writer < k ensures !s.sent[i].fate.Out? {
      TransferOver(s, k, i);
    }
    assert forall id :: id in s.g.ops && s.g.ops[id].Writing? && s.g.ops[id].obj == s.obj ==> IsSent(s.sent, id);
  }

  lemma EarlierDone(p: P.State, k: nat)
    requires PS.Inv(p) && k in p.reqs && p.reqs[k].kind.Read? && PI.Busy(p.reqs[k])
    ensures PI.WritesDone(p, k)
  {
  }

  lemma TransferOver(s: State, k: nat, i: nat)
    requires Linked(s) && PI.WritesDone(s.p, k) && i < |s.sent| && s.sent[i].writer < k
    ensures !s.sent[i].fate.Out?
  {
    var t, j := s.sent[i], s.sent[i].writer;
    TermBound(DueOf(s.sent, j), |s.sent|, i);
    assert P.IssuedBy(s.p, j) == AllDue(s.sent, j) == 0;
    assert DueOf(s.sent, j)(i) == Due(s.sent, j, i);
    assert t.fate.Out? ==> OpIs(s.g.ops, s.obj, WriteId(i), t) && (!t.async ==> Working(s.p, j, P.Write));
  }
}
