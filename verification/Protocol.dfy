/** The sequence-number protocol of one memory object (dp_memory_object.c:89-690): requests are
    numbered in the order in which they are received, any number of threads serve them, and the
    counts of readers, writers and pending asynchronous pages make reads and terminations wait. A
    request is named by its sequence number. Each step is one stretch of a handler between taking
    and dropping the object's lock, and a wait that finds its condition false goes to sleep until
    the condition variable is broadcast. */
module Protocol {
  import opened Sums

  datatype Kind = Init | Read | Write | Sync | Terminate | NoSenders

  /** Where the thread serving a request is. */
  datatype Pc =
    | WaitSeq                 // vs_lock
    | Trimming(excess: nat)   // vs_check_request: unlocked, giving up excess references
    | Entered                 // its turn, reference counted
    | WaitReaders             // vs_wait_for_readers
    | WaitWriters             // vs_wait_for_writers, first loop
    | WaitAsync               // vs_async_wait
    | Unlocked(drop: nat)     // vs_unlock done, its broadcast due; a termination has `drop` references to give up
    | Body                    // reading or writing
    | Finished                // last reader or writer out, the broadcast due
    | Dropping(refs: nat)     // the termination gives up its references

  datatype Message = Message(kind: Kind, port: nat)

  datatype Request = Request(kind: Kind, port: nat, pc: Pc, asleep: bool)

  /** `log`: the messages received, in order; the k-th has sequence number k. `issued`: asynchronous
      pages issued for each write and not yet completed. `due`: broadcasts of vs_waiting_async that
      some completion has still to make. `held`: user references held for each control port, one port
      per initialization of the object; `port` is the current one, if any. */
  datatype State = State(
    log: seq<Message>,
    seqno: nat,
    reqs: map<nat, Request>,
    readers: nat,
    writers: nat,
    pending: nat,
    issued: map<nat, nat>,
    due: nat,
    maxRefs: nat,
    port: int,
    refs: nat,
    held: map<nat, int>,
    generation: nat,
    open: bool,
    dead: bool)

  datatype Step =
    | Arrive(kind: Kind)
    | Run(k: nat)
    | Issue(k: nat, n: nat)
    | Reply(k: nat, n: nat)
    | WakeAsync

  const NOPORT: int := -1

  /** memory_object_create: the object starts with one reference to its first control port. */
  ghost predicate Initial(s: State) {
    && s.log == [] && s.seqno == 0 && s.reqs == map[] && s.readers == 0 && s.writers == 0
    && s.pending == 0 && s.issued == map[] && s.due == 0 && s.maxRefs > 0
    && s.port == 0 && s.refs == 1 && s.held == map[0 := 1] && s.generation == 0 && s.open && !s.dead
  }

  predicate CarriesRef(k: Kind) { k.Init? || k.Read? || k.Write? || k.Sync? }

  /** The kernel's side: requests come while the object is initialized, a new initialization only
      after a termination, and a no-senders notification last of all. */
  predicate MayArrive(s: State, kind: Kind) {
    !s.dead && (if kind.Init? || kind.NoSenders? then !s.open else s.open)
  }

  function Arrived(s: State, kind: Kind): State {
    var g := if kind.Init? then s.generation + 1 else s.generation;
    var was := if g in s.held then s.held[g] else 0;
    s.(log := s.log + [Message(kind, g)],
       reqs := s.reqs[|s.log| := Request(kind, g, WaitSeq, false)],
       held := s.held[g := if CarriesRef(kind) then was + 1 else was],
       generation := g,
       open := if kind.Init? then true else if kind.Terminate? || kind.NoSenders? then false else s.open,
       dead := kind.NoSenders?)
  }

  /** What a request's next stretch does: where the thread goes (`Gone` when the handler returns),
      the object's counters after it, the references it gives up, and the condition it broadcasts. */
  datatype Where = Goes(pc: Pc) | Sleeps | Gone
  datatype Broadcast = Nothing | WakeSeq | WakeReaders | WakeWriters
  datatype Counters = Counters(seqno: nat, readers: nat, writers: nat, port: int, refs: nat)
  datatype Move = Move(to: Where, now: Counters, give: nat, wake: Broadcast)

  /** vs_lock, up to the point where the lock is next dropped. */
  function MoveWaitSeq(r: Request, k: nat, c: Counters, maxRefs: nat): Move {
    if c.seqno != k then Move(Sleeps, c, 0, Nothing)
    else match r.kind
      case Init => Move(Goes(Unlocked(0)), c.(port := r.port, refs := 1, seqno := c.seqno + 1), 0, Nothing)
      case Terminate => Move(Goes(WaitReaders), c, 0, Nothing)
      case NoSenders => Move(Goes(WaitAsync), c, 0, Nothing)
      case _ => // vs_check_request
        if c.refs + 1 > maxRefs then Move(Goes(Trimming(c.refs)), c.(refs := 1), 0, Nothing)
        else Move(Goes(Entered), c.(refs := c.refs + 1), 0, Nothing)
  }

  function MoveEntered(r: Request, c: Counters): Move {
    match r.kind
    case Read => Move(Goes(WaitWriters), c, 0, Nothing)
    case Write => Move(Goes(Unlocked(0)), c.(writers := c.writers + 1, seqno := c.seqno + 1), 0, Nothing)
    case _ => Move(Goes(Unlocked(0)), c.(seqno := c.seqno + 1), 0, Nothing)
  }

  /** The end of vs_wait_for_writers, and what follows under the same lock. */
  function MoveWaitAsync(r: Request, c: Counters, pending: nat): Move {
    if pending > 0 then Move(Sleeps, c, 0, Nothing)
    else match r.kind
      case Read => Move(Goes(Unlocked(0)), c.(readers := c.readers + 1, seqno := c.seqno + 1), 0, Nothing)
      case Terminate => Move(Goes(Unlocked(c.refs)), c.(port := NOPORT, refs := 0, seqno := c.seqno + 1), 0, Nothing)
      case _ => Move(Gone, c, 0, Nothing)
  }

  /** The broadcast of vs_unlock, and where the handler goes on. */
  function MoveUnlocked(r: Request, c: Counters, drop: nat): Move {
    match r.kind
    case Read => Move(Goes(Body), c, 0, WakeSeq)
    case Write => Move(Goes(Body), c, 0, WakeSeq)
    case Terminate => Move(Goes(Dropping(drop)), c, 0, WakeSeq)
    case _ => Move(Gone, c, 0, WakeSeq)
  }

  function Dec(n: nat): nat { if n > 0 then n - 1 else 0 }

  /** vs_finish_read and vs_finish_write. */
  function MoveBody(r: Request, c: Counters): Move {
    if r.kind.Read? then Move(if Dec(c.readers) == 0 then Goes(Finished) else Gone, c.(readers := Dec(c.readers)), 0, Nothing)
    else Move(if Dec(c.writers) == 0 then Goes(Finished) else Gone, c.(writers := Dec(c.writers)), 0, Nothing)
  }

  function MoveOf(r: Request, k: nat, c: Counters, pending: nat, maxRefs: nat): Move {
    match r.pc
    case WaitSeq => MoveWaitSeq(r, k, c, maxRefs)
    case Trimming(n) => Move(Goes(Entered), c, n, Nothing)
    case Entered => MoveEntered(r, c)
    case WaitReaders => Move(if c.readers > 0 then Sleeps else Goes(WaitWriters), c, 0, Nothing)
    case WaitWriters => Move(if c.writers > 0 then Sleeps else Goes(WaitAsync), c, 0, Nothing)
    case WaitAsync => MoveWaitAsync(r, c, pending)
    case Unlocked(drop) => MoveUnlocked(r, c, drop)
    case Body => MoveBody(r, c)
    case Finished => Move(Gone, c, 0, if r.kind.Read? then WakeReaders else WakeWriters)
    case Dropping(n) => Move(Gone, c, n, Nothing)
  }

  /** condition_broadcast wakes every thread asleep on the condition. */
  predicate Wakes(b: Broadcast, pc: Pc) {
    match b
    case Nothing => false
    case WakeSeq => pc.WaitSeq?
    case WakeReaders => pc.WaitReaders?
    case WakeWriters => pc.WaitWriters?
  }

  function Woken(r: Request, b: Broadcast): Request {
    if Wakes(b, r.pc) then r.(asleep := false) else r
  }

  function Placed(r: Request, to: Where): Request {
    match to
    case Goes(pc) => r.(pc := pc, asleep := false)
    case Sleeps => r.(asleep := true)
    case Gone => r
  }

  function MovedReqs(reqs: map<nat, Request>, k: nat, m: Move): map<nat, Request> {
    map j | j in reqs && !(j == k && m.to.Gone?) :: if j == k then Placed(reqs[j], m.to) else Woken(reqs[j], m.wake)
  }

  function CountersOf(s: State): Counters {
    Counters(s.seqno, s.readers, s.writers, s.port, s.refs)
  }

  function Moved(s: State, k: nat, m: Move): State
    requires k in s.reqs
  {
    var g := s.reqs[k].port;
    s.(reqs := MovedReqs(s.reqs, k, m),
       seqno := m.now.seqno, readers := m.now.readers, writers := m.now.writers, port := m.now.port, refs := m.now.refs,
       held := if g in s.held then s.held[g := s.held[g] - m.give] else s.held)
  }

  predicate CanRun(s: State, k: nat) {
    k in s.reqs && !s.reqs[k].asleep
  }

  function Ran(s: State, k: nat): State
    requires k in s.reqs
  {
    Moved(s, k, MoveOf(s.reqs[k], k, CountersOf(s), s.pending, s.maxRefs))
  }

  function IssuedBy(s: State, k: nat): nat { if k in s.issued then s.issued[k] else 0 }

  predicate Enabled(s: State, e: Step) {
    match e
    case Arrive(kind) => MayArrive(s, kind)
    case Run(k) => CanRun(s, k)
    case Issue(k, n) => k in s.reqs && s.reqs[k].kind.Write? && s.reqs[k].pc.Body?
    case Reply(k, n) => 0 < n <= IssuedBy(s, k) && n <= s.pending
    case WakeAsync => s.due > 0
  }

  function Next(s: State, e: Step): State
    requires Enabled(s, e)
  {
    match e
    case Arrive(kind) => Arrived(s, kind)
    case Run(k) => Ran(s, k)
    case Issue(k, n) => s.(pending := s.pending + n, issued := s.issued[k := IssuedBy(s, k) + n])
    case Reply(k, n) =>
      s.(pending := s.pending - n, issued := s.issued[k := s.issued[k] - n], due := if s.pending == n then s.due + 1 else s.due)
    case WakeAsync =>
      s.(due := s.due - 1,
         reqs := map j | j in s.reqs :: if s.reqs[j].pc.WaitAsync? then s.reqs[j].(asleep := false) else s.reqs[j])
  }
}
