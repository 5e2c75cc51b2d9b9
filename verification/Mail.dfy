/** The mailbox protocol on values: what happens to one mailbox, and to the notifications that tell a VM
    that a mailbox it wanted to write to has become free. */
module Mail {
  import opened Common

  // ---- One mailbox ---------------------------------------------------------------------------

  datatype MailboxState = Empty | Received | Read

  datatype Message = Message(source: nat, target: nat, payload: seq<bv8>)

  /** A mailbox with the history of messages successfully sent to it and of those read from it. */
  datatype Box = Box(state: MailboxState, buffer: Message, sent: seq<Message>, read: seq<Message>)

  datatype BoxStep =
    | Deliver(msg: Message)   // a successful send to a secondary VM
    | DeliverRead(msg: Message) // a successful send to the primary VM, which reads it at once
    | Scribble(msg: Message)  // a failed architected message leaves its header in the buffer
    | TryRead                 // receive, or resuming a vCPU that waits for a message
    | Clear

  /** What each step does to the mailbox; sends happen only while it is empty. */
  function Apply(b: Box, s: BoxStep): Box {
    match s
    case Deliver(m) => if b.state.Empty? then b.(state := Received, buffer := m, sent := b.sent + [m]) else b
    case DeliverRead(m) =>
      if b.state.Empty? then b.(state := Read, buffer := m, sent := b.sent + [m], read := b.read + [m]) else b
    case Scribble(m) => if b.state.Empty? then b.(buffer := m) else b
    case TryRead => if b.state.Received? then b.(state := Read, read := b.read + [b.buffer]) else b
    case Clear => if b.state.Read? then b.(state := Empty) else b
  }

  /** The messages read are those sent, in order and without gaps, up to one that is outstanding; and
      a message that has been delivered is still in the buffer. */
  predicate InOrder(b: Box) {
    && b.sent == b.read + (if b.state.Received? then [b.buffer] else [])
    && (!b.state.Empty? ==> b.sent != [] && b.sent[|b.sent| - 1] == b.buffer)
  }

  function ApplyAll(b: Box, steps: seq<BoxStep>): Box
    decreases |steps|
  {
    if steps == [] then b else ApplyAll(Apply(b, steps[0]), steps[1..])
  }

  lemma StepInOrder(b: Box, s: BoxStep)
    requires InOrder(b)
    ensures InOrder(Apply(b, s))
    ensures b.sent <= Apply(b, s).sent && b.read <= Apply(b, s).read
  {
  }

  /** Exactly-once, in-order delivery in every interleaving of sends, receives, resumptions and clears. */
  lemma {:induction false} ExactlyOnce(b: Box, steps: seq<BoxStep>)
    requires InOrder(b)
    ensures var b' := ApplyAll(b, steps);
            InOrder(b') && b'.read <= b'.sent && |b'.sent| <= |b'.read| + 1 && b.sent <= b'.sent && b.read <= b'.read
    decreases |steps|
  {
    if steps != [] {
      StepInOrder(b, steps[0]);
      ExactlyOnce(Apply(b, steps[0]), steps[1..]);
    }
  }

  /** A delivered message is not overwritten until its receiver clears the mailbox. */
  lemma {:induction false} NotOverwritten(b: Box, steps: seq<BoxStep>)
    requires !b.state.Empty? && Clear !in steps
    ensures ApplyAll(b, steps).buffer == b.buffer && !ApplyAll(b, steps).state.Empty?
    decreases |steps|
  {
    if steps != [] {
      assert steps[0] in steps;
      NotOverwritten(Apply(b, steps[0]), steps[1..]);
    }
  }

  /** A message that nobody tries to read stays, whatever is sent or cleared meanwhile. */
  lemma {:induction false} UnreadStays(b: Box, steps: seq<BoxStep>)
    requires b.state.Received? && TryRead !in steps
    ensures ApplyAll(b, steps) == b
    decreases |steps|
  {
    if steps != [] {
      assert steps[0] in steps;
      UnreadStays(Apply(b, steps[0]), steps[1..]);
    }
  }

  /** A delivered message is read exactly if its receiver ever tries, however many clears come before, and
      until then the mailbox does not become free. */
  lemma {:induction false} ReadIffTried(b: Box, steps: seq<BoxStep>)
    requires InOrder(b) && b.state.Received?
    ensures b.read + [b.buffer] <= ApplyAll(b, steps).read <==> TryRead in steps
    ensures ApplyAll(b, steps).state.Empty? ==> TryRead in steps
    decreases |steps|
  {
    if TryRead !in steps {
      UnreadStays(b, steps);
    } else if steps[0] == TryRead {
      StepInOrder(b, TryRead);
      ExactlyOnce(Apply(b, TryRead), steps[1..]);
    } else {
      assert Apply(b, steps[0]) == b;
      assert TryRead in steps[1..];
      ReadIffTried(b, steps[1..]);
    }
  }

  // ---- Notifications -------------------------------------------------------------------------

  type Pair = (nat, nat) // (waiting VM, VM waited for)

  /** Who waits for whom, which VMs have become writable for whom, which waiters have been taken out of a
      waiter list but not yet been put into a ready list, and what has happened to all registrations. */
  datatype Book = Book(waiting: map<nat, seq<nat>>, ready: map<nat, seq<nat>>, taken: multiset<Pair>,
                       registered: multiset<Pair>, delivered: multiset<Pair>, merged: multiset<Pair>)

  predicate WFBook(b: Book, vms: set<nat>) {
    b.waiting.Keys == vms && b.ready.Keys == vms
  }

  function One(c: bool): nat {
    if c then 1 else 0
  }

  /** Where the registrations of `w` for `t` are now. */
  ghost predicate Accounted(b: Book, w: nat, t: nat)
    requires w in b.ready && t in b.waiting
  {
    b.registered[(w, t)] ==
    b.delivered[(w, t)] + b.merged[(w, t)] + One(w in b.waiting[t]) + b.taken[(w, t)] + One(t in b.ready[w])
  }

  /** Each VM is in each list at most once, and no registration is lost or duplicated. */
  ghost predicate BookInv(b: Book, vms: set<nat>) {
    && WFBook(b, vms)
    && (forall t | t in vms :: Distinct(b.waiting[t]) && forall w | w in b.waiting[t] :: w in vms)
    && (forall w | w in vms :: Distinct(b.ready[w]) && forall t | t in b.ready[w] :: t in vms)
    && (forall w, t | w in vms && t in vms :: Accounted(b, w, t))
    && (forall p | p in b.taken :: p.0 in vms && p.1 in vms)
  }

  /** `w` will be told about `t`. */
  ghost predicate Pending(b: Book, w: nat, t: nat)
    requires w in b.ready && t in b.waiting
  {
    w in b.waiting[t] || (w, t) in b.taken || t in b.ready[w]
  }

  function Register(b: Book, w: nat, t: nat): Book
    requires t in b.waiting
  {
    if w in b.waiting[t] then b
    else b.(waiting := b.waiting[t := b.waiting[t] + [w]], registered := b.registered + multiset{(w, t)})
  }

  function Fetch(b: Book, t: nat): Book
    requires t in b.waiting && b.waiting[t] != []
  {
    b.(waiting := b.waiting[t := b.waiting[t][1..]], taken := b.taken + multiset{(b.waiting[t][0], t)})
  }

  function Enqueue(b: Book, w: nat, t: nat): Book
    requires w in b.ready
  {
    if t in b.ready[w] then b.(taken := b.taken - multiset{(w, t)}, merged := b.merged + multiset{(w, t)})
    else b.(taken := b.taken - multiset{(w, t)}, ready := b.ready[w := b.ready[w] + [t]])
  }

  function Dequeue(b: Book, w: nat): Book
    requires w in b.ready && b.ready[w] != []
  {
    b.(ready := b.ready[w := b.ready[w][1..]], delivered := b.delivered + multiset{(w, b.ready[w][0])})
  }

  lemma RegisterKeeps(b: Book, vms: set<nat>, w: nat, t: nat)
    requires BookInv(b, vms) && w in vms && t in vms
    ensures BookInv(Register(b, w, t), vms) && Pending(Register(b, w, t), w, t)
    ensures forall x, y | x in vms && y in vms && Pending(b, x, y) :: Pending(Register(b, w, t), x, y)
  {
    hide Distinct;
    if w !in b.waiting[t] { LastAdded(b.waiting[t], w); }
    var b' := Register(b, w, t);
    forall x, y | x in vms && y in vms ensures Accounted(b', x, y) {
      assert Accounted(b, x, y);
    }
  }

  lemma FetchKeeps(b: Book, vms: set<nat>, t: nat)
    requires BookInv(b, vms) && t in vms && b.waiting[t] != []
    ensures BookInv(Fetch(b, t), vms)
    ensures forall x, y | x in vms && y in vms && Pending(b, x, y) :: Pending(Fetch(b, t), x, y)
  {
    var b', w := Fetch(b, t), b.waiting[t][0];
    FirstGone(b.waiting[t]);
    forall x, y | x in vms && y in vms ensures Accounted(b', x, y) {
      assert Accounted(b, x, y);
    }
  }

  lemma LastAdded(s: seq<nat>, x: nat)
    requires Distinct(s) && x !in s
    ensures Distinct(s + [x]) && forall y :: y in s + [x] <==> y in s || y == x
  {
  }

  lemma FirstGone(s: seq<nat>)
    requires Distinct(s) && s != []
    ensures Distinct(s[1..]) && forall x :: x in s[1..] <==> x in s && x != s[0]
  {
  }

  lemma EnqueueKeeps(b: Book, vms: set<nat>, w: nat, t: nat)
    requires BookInv(b, vms) && (w, t) in b.taken
    ensures w in vms && t in vms && BookInv(Enqueue(b, w, t), vms)
    ensures t in Enqueue(b, w, t).ready[w]
    ensures forall x, y | x in vms && y in vms && Pending(b, x, y) :: Pending(Enqueue(b, w, t), x, y)
  {
    hide Distinct, Accounted;
    if t !in b.ready[w] { LastAdded(b.ready[w], t); }
    var b' := Enqueue(b, w, t);
    forall x, y | x in vms && y in vms ensures Accounted(b', x, y) {
      EnqueueAccounts(b, w, t, x, y);
    }
  }

  lemma EnqueueAccounts(b: Book, w: nat, t: nat, x: nat, y: nat)
    requires w in b.ready && (w, t) in b.taken && x in b.ready && y in b.waiting && Accounted(b, x, y)
    ensures Accounted(Enqueue(b, w, t), x, y)
  {
  }

  /** Only the pair that is reported stops being pending, unless it has registered again. */
  lemma DequeueKeeps(b: Book, vms: set<nat>, w: nat)
    requires BookInv(b, vms) && w in vms && b.ready[w] != []
    ensures BookInv(Dequeue(b, w), vms) && b.registered[(w, b.ready[w][0])] > b.delivered[(w, b.ready[w][0])]
    ensures forall x, y | x in vms && y in vms && Pending(b, x, y) && (x, y) != (w, b.ready[w][0]) ::
              Pending(Dequeue(b, w), x, y)
  {
    hide Distinct, Accounted;
    var b', t := Dequeue(b, w), b.ready[w][0];
    FirstGone(b.ready[w]);
    DequeueAccounts(b, w, w, t);
    forall x, y | x in vms && y in vms ensures Accounted(b', x, y) {
      DequeueAccounts(b, w, x, y);
    }
  }

  lemma DequeueAccounts(b: Book, w: nat, x: nat, y: nat)
    requires w in b.ready && b.ready[w] != [] && Distinct(b.ready[w]) && x in b.ready && y in b.waiting &&
             Accounted(b, x, y)
    ensures Accounted(Dequeue(b, w), x, y)
    ensures (x, y) == (w, b.ready[w][0]) ==> b.registered[(x, y)] > b.delivered[(x, y)]
  {
    FirstGone(b.ready[w]);
  }

  // ---- Runs of notifications -----------------------------------------------------------------

  datatype NoteStep = DoRegister(w: nat, t: nat) | DoFetch(t: nat) | DoEnqueue(w: nat, t: nat) | DoDequeue(w: nat)

  function Note(b: Book, vms: set<nat>, s: NoteStep): Book
    requires WFBook(b, vms)
  {
    match s
    case DoRegister(w, t) => if w in vms && t in vms then Register(b, w, t) else b
    case DoFetch(t) => if t in vms && b.waiting[t] != [] then Fetch(b, t) else b
    case DoEnqueue(w, t) => if (w, t) in b.taken && w in vms then Enqueue(b, w, t) else b
    case DoDequeue(w) => if w in vms && b.ready[w] != [] then Dequeue(b, w) else b
  }

  /** This step tells `w` that `t` has become writable. */
  predicate Tells(b: Book, vms: set<nat>, s: NoteStep, w: nat, t: nat)
    requires WFBook(b, vms)
  {
    s == DoDequeue(w) && w in vms && b.ready[w] != [] && b.ready[w][0] == t
  }

  lemma NoteKeeps(b: Book, vms: set<nat>, s: NoteStep)
    requires BookInv(b, vms)
    ensures BookInv(Note(b, vms, s), vms)
    ensures forall w, t | w in vms && t in vms && Pending(b, w, t) && !Tells(b, vms, s, w, t) ::
              Pending(Note(b, vms, s), w, t)
  {
    hide BookInv, Accounted, Distinct, Register, Fetch, Enqueue, Dequeue;
    BookShape(b, vms);
    match s
    case DoRegister(w, t) => if w in vms && t in vms { RegisterKeeps(b, vms, w, t); }
    case DoFetch(t) => if t in vms && b.waiting[t] != [] { FetchKeeps(b, vms, t); }
    case DoEnqueue(w, t) => if (w, t) in b.taken && w in vms { EnqueueKeeps(b, vms, w, t); }
    case DoDequeue(w) => if w in vms && b.ready[w] != [] { DequeueKeeps(b, vms, w); }
  }

  lemma BookShape(b: Book, vms: set<nat>)
    requires BookInv(b, vms)
    ensures WFBook(b, vms)
  {
  }

  ghost function Notes(b: Book, vms: set<nat>, steps: seq<NoteStep>): (b': Book)
    requires BookInv(b, vms)
    ensures BookInv(b', vms)
    decreases |steps|
  {
    if steps == [] then b
    else
      NoteKeeps(b, vms, steps[0]);
      Notes(Note(b, vms, steps[0]), vms, steps[1..])
  }

  ghost predicate Told(b: Book, vms: set<nat>, steps: seq<NoteStep>, w: nat, t: nat)
    requires BookInv(b, vms)
    decreases |steps|
  {
    steps != [] &&
    (Tells(b, vms, steps[0], w, t) ||
     (NoteKeeps(b, vms, steps[0]); Told(Note(b, vms, steps[0]), vms, steps[1..], w, t)))
  }

  /** In every run, a VM that has registered stays due to be told until it is told. */
  lemma {:induction false} NeverLost(b: Book, vms: set<nat>, steps: seq<NoteStep>, w: nat, t: nat)
    requires BookInv(b, vms) && w in vms && t in vms && Pending(b, w, t) && !Told(b, vms, steps, w, t)
    ensures Pending(Notes(b, vms, steps), w, t)
    decreases |steps|
  {
    hide BookInv, Note, Pending;
    BookShape(b, vms);
    if steps != [] {
      NoteKeeps(b, vms, steps[0]);
      NeverLost(Note(b, vms, steps[0]), vms, steps[1..], w, t);
    }
  }

  /** In every run, a VM is told about another at most as often as it has registered. */
  lemma {:induction false} NeverDuplicated(b: Book, vms: set<nat>, steps: seq<NoteStep>, w: nat, t: nat)
    requires BookInv(b, vms) && w in vms && t in vms
    ensures Notes(b, vms, steps).delivered[(w, t)] <= Notes(b, vms, steps).registered[(w, t)]
  {
    assert Accounted(Notes(b, vms, steps), w, t);
  }
}
