/** Mailboxes and notifications of all VMs on intrusive lists, as `hypervisor.rs` and `vm.rs` keep them. */
module Mailboxes {
  import opened Common
  import opened Mail
  import L = Links

  const PRIMARY: nat := 1
  const PAYLOAD_MAX: nat := 4080
  const ARCHITECTED_HEADER: nat := 8

  /** The list heads of each VM's mailbox and the links of each VM's wait entries. */
  datatype Node =
    | WaiterList(vm: nat)
    | ReadyList(vm: nat)
    | WaitLinks(owner: nat, target: nat)
    | ReadyLinks(owner: nat, target: nat)

  type Rings = map<Node, seq<Node>>

  ghost function WaitNodes(ws: seq<nat>, t: nat): (s: seq<Node>)
    ensures |s| == |ws| && forall i | 0 <= i < |s| :: s[i] == WaitLinks(ws[i], t)
  {
    seq(|ws|, i requires 0 <= i < |ws| => WaitLinks(ws[i], t))
  }

  ghost function ReadyNodes(w: nat, ts: seq<nat>): (s: seq<Node>)
    ensures |s| == |ts| && forall i | 0 <= i < |s| :: s[i] == ReadyLinks(w, ts[i])
  {
    seq(|ts|, i requires 0 <= i < |ts| => ReadyLinks(w, ts[i]))
  }

  ghost predicate Alone(rings: Rings, n: Node) {
    n in rings && rings[n] == []
  }

  /** The waiter lists hold exactly the waiting VMs; entries exist for targets below `slots`. */
  ghost predicate WaitSide(rings: Rings, waiting: map<nat, seq<nat>>, vms: set<nat>, slots: nat) {
    && waiting.Keys == vms
    && (forall t | t in vms :: WaiterList(t) in rings && rings[WaiterList(t)] == WaitNodes(waiting[t], t))
    && (forall w, t | w in vms && t in vms && t < slots && w !in waiting[t] :: Alone(rings, WaitLinks(w, t)))
    && (forall t | t in vms && waiting[t] != [] :: t < slots)
  }

  /** The ready lists hold exactly the targets that have become writable. */
  ghost predicate ReadySide(rings: Rings, ready: map<nat, seq<nat>>, vms: set<nat>, slots: nat) {
    && ready.Keys == vms
    && (forall w | w in vms :: ReadyList(w) in rings && rings[ReadyList(w)] == ReadyNodes(w, ready[w]))
    && (forall w, t | w in vms && t in vms && t < slots && t !in ready[w] :: Alone(rings, ReadyLinks(w, t)))
  }

  ghost predicate Reflects(rings: Rings, b: Book, vms: set<nat>, slots: nat) {
    && WaitSide(rings, b.waiting, vms, slots) && ReadySide(rings, b.ready, vms, slots)
    && (forall p | p in b.taken :: p.1 < slots)
  }

  lemma WaitAdd(rings: Rings, waiting: map<nat, seq<nat>>, vms: set<nat>, slots: nat, w: nat, t: nat)
    requires WaitSide(rings, waiting, vms, slots) && w in vms && t in vms && t < slots && w !in waiting[t]
    ensures WaitSide((rings - {WaitLinks(w, t)})[WaiterList(t) := rings[WaiterList(t)] + [WaitLinks(w, t)]],
                     waiting[t := waiting[t] + [w]], vms, slots)
  {
    assert WaitNodes(waiting[t] + [w], t) == WaitNodes(waiting[t], t) + [WaitLinks(w, t)];
  }

  lemma WaitPop(rings: Rings, waiting: map<nat, seq<nat>>, vms: set<nat>, slots: nat, t: nat)
    requires WaitSide(rings, waiting, vms, slots) && t in vms && waiting[t] != []
    ensures WaitSide(rings[WaiterList(t) := rings[WaiterList(t)][1..]][WaitLinks(waiting[t][0], t) := []],
                     waiting[t := waiting[t][1..]], vms, slots)
  {
    assert WaitNodes(waiting[t][1..], t) == WaitNodes(waiting[t], t)[1..];
    assert waiting[t] == [waiting[t][0]] + waiting[t][1..];
  }

  lemma ReadyAdd(rings: Rings, ready: map<nat, seq<nat>>, vms: set<nat>, slots: nat, w: nat, t: nat)
    requires ReadySide(rings, ready, vms, slots) && w in vms && t in vms && t !in ready[w]
    ensures ReadySide((rings - {ReadyLinks(w, t)})[ReadyList(w) := rings[ReadyList(w)] + [ReadyLinks(w, t)]],
                      ready[w := ready[w] + [t]], vms, slots)
  {
    assert ReadyNodes(w, ready[w] + [t]) == ReadyNodes(w, ready[w]) + [ReadyLinks(w, t)];
  }

  lemma ReadyPop(rings: Rings, ready: map<nat, seq<nat>>, vms: set<nat>, slots: nat, w: nat)
    requires ReadySide(rings, ready, vms, slots) && w in vms && ready[w] != []
    ensures ReadySide(rings[ReadyList(w) := rings[ReadyList(w)][1..]][ReadyLinks(w, ready[w][0]) := []],
                      ready[w := ready[w][1..]], vms, slots)
  {
    assert ReadyNodes(w, ready[w][1..]) == ReadyNodes(w, ready[w])[1..];
    assert ready[w] == [ready[w][0]] + ready[w][1..];
  }

  lemma WaitFrame(rings: Rings, rings': Rings, waiting: map<nat, seq<nat>>, vms: set<nat>, slots: nat)
    requires WaitSide(rings, waiting, vms, slots)
    requires forall n | n in rings && (n.WaiterList? || n.WaitLinks?) :: n in rings' && rings'[n] == rings[n]
    ensures WaitSide(rings', waiting, vms, slots)
  {
  }

  lemma ReadyFrame(rings: Rings, rings': Rings, ready: map<nat, seq<nat>>, vms: set<nat>, slots: nat)
    requires ReadySide(rings, ready, vms, slots)
    requires forall n | n in rings && (n.ReadyList? || n.ReadyLinks?) :: n in rings' && rings'[n] == rings[n]
    ensures ReadySide(rings', ready, vms, slots)
  {
  }

  lemma RegisterReflects(rings: Rings, b: Book, vms: set<nat>, slots: nat, w: nat, t: nat)
    requires Reflects(rings, b, vms, slots) && w in vms && t in vms && t < slots && w !in b.waiting[t]
    ensures Reflects((rings - {WaitLinks(w, t)})[WaiterList(t) := rings[WaiterList(t)] + [WaitLinks(w, t)]],
                     Register(b, w, t), vms, slots)
  {
    var rings' := (rings - {WaitLinks(w, t)})[WaiterList(t) := rings[WaiterList(t)] + [WaitLinks(w, t)]];
    WaitAdd(rings, b.waiting, vms, slots, w, t);
    ReadyFrame(rings, rings', b.ready, vms, slots);
  }

  lemma FetchReflects(rings: Rings, b: Book, vms: set<nat>, slots: nat, t: nat)
    requires Reflects(rings, b, vms, slots) && t in vms && b.waiting[t] != []
    ensures Reflects(rings[WaiterList(t) := rings[WaiterList(t)][1..]][WaitLinks(b.waiting[t][0], t) := []],
                     Fetch(b, t), vms, slots)
  {
    var rings' := rings[WaiterList(t) := rings[WaiterList(t)][1..]][WaitLinks(b.waiting[t][0], t) := []];
    WaitPop(rings, b.waiting, vms, slots, t);
    ReadyFrame(rings, rings', b.ready, vms, slots);
  }

  lemma EnqueueReflects(rings: Rings, b: Book, vms: set<nat>, slots: nat, w: nat, t: nat)
    requires Reflects(rings, b, vms, slots) && w in vms && t in vms && t !in b.ready[w]
    ensures Reflects((rings - {ReadyLinks(w, t)})[ReadyList(w) := rings[ReadyList(w)] + [ReadyLinks(w, t)]],
                     Enqueue(b, w, t), vms, slots)
  {
    var rings' := (rings - {ReadyLinks(w, t)})[ReadyList(w) := rings[ReadyList(w)] + [ReadyLinks(w, t)]];
    ReadyAdd(rings, b.ready, vms, slots, w, t);
    WaitFrame(rings, rings', b.waiting, vms, slots);
  }

  lemma DequeueReflects(rings: Rings, b: Book, vms: set<nat>, slots: nat, w: nat)
    requires Reflects(rings, b, vms, slots) && w in vms && b.ready[w] != []
    ensures Reflects(rings[ReadyList(w) := rings[ReadyList(w)][1..]][ReadyLinks(w, b.ready[w][0]) := []],
                     Dequeue(b, w), vms, slots)
  {
    var rings' := rings[ReadyList(w) := rings[ReadyList(w)][1..]][ReadyLinks(w, b.ready[w][0]) := []];
    ReadyPop(rings, b.ready, vms, slots, w);
    WaitFrame(rings, rings', b.waiting, vms, slots);
  }

  lemma MergeReflects(rings: Rings, b: Book, vms: set<nat>, slots: nat, w: nat, t: nat)
    requires Reflects(rings, b, vms, slots) && w in vms && t in b.ready[w]
    ensures Reflects(rings, Enqueue(b, w, t), vms, slots)
  {
  }

  // ---- Where a node is -----------------------------------------------------------------------

  lemma WaiterRing(rings: Rings, b: Book, vms: set<nat>, slots: nat, t: nat)
    requires Reflects(rings, b, vms, slots) && t in vms
    ensures t in b.waiting && WaiterList(t) in rings && rings[WaiterList(t)] == WaitNodes(b.waiting[t], t)
  {
  }

  lemma WaitRing(rings: Rings, b: Book, vms: set<nat>, slots: nat, w: nat, t: nat)
    requires Reflects(rings, b, vms, slots) && w in vms && t in vms && t < slots
    ensures t in b.waiting && WaiterList(t) in rings
    ensures w !in b.waiting[t] ==> Alone(rings, WaitLinks(w, t))
    ensures w in b.waiting[t] ==> WaitLinks(w, t) in rings[WaiterList(t)]
  {
    if w in b.waiting[t] {
      var i :| 0 <= i < |b.waiting[t]| && b.waiting[t][i] == w;
      assert rings[WaiterList(t)][i] == WaitLinks(w, t);
    }
  }

  lemma ReadyHead(rings: Rings, b: Book, vms: set<nat>, slots: nat, w: nat)
    requires Reflects(rings, b, vms, slots) && w in vms
    ensures w in b.ready && ReadyList(w) in rings && rings[ReadyList(w)] == ReadyNodes(w, b.ready[w])
  {
  }

  lemma ReadyRing(rings: Rings, b: Book, vms: set<nat>, slots: nat, w: nat, t: nat)
    requires Reflects(rings, b, vms, slots) && w in vms && t in vms && (w, t) in b.taken
    ensures w in b.ready && ReadyList(w) in rings
    ensures t !in b.ready[w] ==> Alone(rings, ReadyLinks(w, t))
    ensures t in b.ready[w] ==> ReadyLinks(w, t) in rings[ReadyList(w)]
  {
    if t in b.ready[w] {
      var i :| 0 <= i < |b.ready[w]| && b.ready[w][i] == t;
      assert rings[ReadyList(w)][i] == ReadyLinks(w, t);
    }
  }

  // ---- Initialisation ------------------------------------------------------------------------

  /** The nodes that are part of VM `v`, with wait entries for targets below `slots`. */
  predicate PartOf(n: Node, v: nat, slots: nat) {
    match n
    case WaiterList(w) => w == v
    case ReadyList(w) => w == v
    case WaitLinks(w, t) => w == v && t < slots
    case ReadyLinks(w, t) => w == v && t < slots
  }

  ghost predicate Blank(rings: Rings) {
    forall n | n in rings :: rings[n] == []
  }

  method InitVm(lists: L.Lists<Node>, v: nat, slots: nat)
    requires lists.Valid() && Blank(lists.rings) && forall n | PartOf(n, v, slots) :: n !in lists.rings
    modifies lists
    ensures lists.Valid() && Blank(lists.rings)
    ensures forall n :: n in lists.rings <==> n in old(lists.rings) || PartOf(n, v, slots)
  {
    hide L.Rings;
    lists.Init(WaiterList(v));
    lists.Init(ReadyList(v));
    var i := 0;
    while i < slots
      invariant i <= slots && lists.Valid() && Blank(lists.rings)
      invariant forall n :: n in lists.rings <==> n in old(lists.rings) || PartOf(n, v, i)
    {
      lists.Init(WaitLinks(v, i));
      lists.Init(ReadyLinks(v, i));
      i := i + 1;
    }
  }

  ghost function NoLists(vms: set<nat>): (m: map<nat, seq<nat>>)
    ensures m.Keys == vms && forall v | v in vms :: m[v] == []
  {
    map v | v in vms :: []
  }

  ghost function NoBook(vms: set<nat>): Book {
    Book(NoLists(vms), NoLists(vms), multiset{}, multiset{}, multiset{}, multiset{})
  }

  lemma BlankReflects(rings: Rings, vms: set<nat>, slots: nat)
    requires Blank(rings) && forall v, n | v in vms && PartOf(n, v, slots) :: n in rings
    ensures Reflects(rings, NoBook(vms), vms, slots) && BookInv(NoBook(vms), vms)
  {
    forall v | v in vms ensures WaiterList(v) in rings && ReadyList(v) in rings {
      assert PartOf(WaiterList(v), v, slots) && PartOf(ReadyList(v), v, slots);
    }
    forall w, t | w in vms && t in vms && t < slots
      ensures Alone(rings, WaitLinks(w, t)) && Alone(rings, ReadyLinks(w, t))
    {
      assert PartOf(WaitLinks(w, t), w, slots) && PartOf(ReadyLinks(w, t), w, slots);
    }
  }

  /** How the message is handled: implementation-defined ones are just copied, architected ones also
      change memory ownership, with the given result. */
  datatype Kind = Implementation | Architected(result: SpciReturn)

  /** The ids of `count` VMs. */
  ghost function Ids(count: nat): (ids: set<nat>)
    ensures forall v :: v in ids <==> 1 <= v <= count
  {
    if count == 0 then {} else Ids(count - 1) + {count}
  }

  /** The lists and the book agree, and the book balances. */
  ghost predicate Noted(rings: Rings, b: Book, count: nat, slots: nat) {
    Reflects(rings, b, Ids(count), slots) && BookInv(b, Ids(count))
  }

  /** The mailboxes of all VMs with their histories. */
  type Boxes = map<nat, Box>

  ghost predicate Ordered(boxes: Boxes, count: nat) {
    boxes.Keys == Ids(count) && forall v | v in boxes :: InOrder(boxes[v])
  }

  lemma OrderedStep(boxes: Boxes, count: nat, v: nat, s: BoxStep)
    requires Ordered(boxes, count) && 1 <= v <= count
    ensures v in boxes && Ordered(boxes[v := Apply(boxes[v], s)], count)
  {
    hide Apply, InOrder;
    StepInOrder(boxes[v], s);
  }

  lemma NotedVm(rings: Rings, b: Book, count: nat, slots: nat, v: nat)
    requires Noted(rings, b, count, slots) && 1 <= v <= count
    ensures v in Ids(count) && v in b.waiting && v in b.ready
  {
  }

  class Mailboxes {
    const count: nat
    const maxVms: nat
    const lists: L.Lists<Node>
    var state: map<nat, MailboxState>
    var buffer: map<nat, Message>
    var configured: set<nat>

    ghost var boxes: Boxes
    ghost var book: Book

    predicate IsVm(v: nat) {
      1 <= v <= count
    }

    /** The mailbox part. */
    ghost predicate BoxesOk()
      reads `state, `buffer, `boxes
    {
      && Ordered(boxes, count) && state.Keys == boxes.Keys && buffer.Keys == boxes.Keys
      && forall v | v in boxes :: boxes[v].state == state[v] && boxes[v].buffer == buffer[v]
    }

    /** The notification part. */
    ghost predicate NotesOk()
      reads `book, lists
    {
      lists.Valid() && Noted(lists.rings, book, count, maxVms)
    }

    ghost predicate Valid()
      reads this, lists
    {
      1 <= count <= maxVms && BoxesOk() && NotesOk()
    }

    constructor (count: nat, maxVms: nat)
      requires 1 <= count <= maxVms
      ensures Valid() && fresh(lists) && this.count == count && this.maxVms == maxVms
      ensures book == NoBook(Ids(count)) && configured == {} &&
              forall v | v in boxes :: boxes[v] == Box(Empty, boxes[v].buffer, [], [])
    {
      hide Noted, L.Rings, NoBook, Ordered, Fill, Ids;
      var empty := NewLists(count, maxVms);
      NewBoxes(count);
      this.count, this.maxVms, configured, lists := count, maxVms, {}, empty;
      state, buffer := Fill(count, Empty), Fill(count, Message(0, 0, []));
      boxes, book := Fill(count, Box(Empty, Message(0, 0, []), [], [])), NoBook(Ids(count));
    }

    /** Waits to be told when the mailbox of `t` becomes writable, unless already waiting. */
    method WaitFor(w: nat, t: nat) returns (ok: bool)
      requires NotesOk() && IsVm(w) && IsVm(t) && t < maxVms
      modifies `book, lists
      ensures NotesOk() && t in old(book).waiting && book == Register(old(book), w, t)
      ensures ok <==> w !in old(book).waiting[t]
    {
      hide BookInv, Reflects, L.Rings;
      RegisterKeeps(book, Ids(count), w, t);
      WaitRing(lists.rings, book, Ids(count), maxVms, w, t);
      ghost var l := if w in book.waiting[t] then WaiterList(t) else WaitLinks(w, t);
      var free := lists.Empty(WaitLinks(w, t), l);
      if !free {
        return false;
      }
      RegisterReflects(lists.rings, book, Ids(count), maxVms, w, t);
      lists.Append(WaiterList(t), WaitLinks(w, t));
      book := Register(book, w, t);
      return true;
    }

    /** Takes the next waiter out of the list if the mailbox is writable. */
    method FetchWaiter(t: nat) returns (entry: Option<(nat, nat)>)
      requires Valid() && IsVm(t)
      modifies `book, lists
      ensures Valid() && t in old(book).waiting && t in state
      ensures entry.Some? <==> state[t].Empty? && t in configured && old(book).waiting[t] != []
      ensures entry.None? ==> book == old(book)
      ensures entry.Some? ==> entry.value == (old(book).waiting[t][0], t) && book == Fetch(old(book), t)
    {
      hide BookInv, Reflects, L.Rings, BoxesOk;
      BoxKeys(t);
      WaiterRing(lists.rings, book, Ids(count), maxVms, t);
      var none := lists.Empty(WaiterList(t), WaiterList(t));
      if !state[t].Empty? || t !in configured || none {
        return None;
      }
      FetchKeeps(book, Ids(count), t);
      FetchReflects(lists.rings, book, Ids(count), maxVms, t);
      var e := lists.PopFront(WaiterList(t));
      book := Fetch(book, t);
      return Some((e.owner, e.target));
    }

    lemma BoxKeys(v: nat)
      requires BoxesOk()
      ensures v in state <==> IsVm(v)
      ensures v in boxes <==> IsVm(v)
    {
    }

    /** Puts a fetched entry into the ready list of the VM that waits, unless it is there already. */
    method EnqueueReady(entry: (nat, nat))
      requires NotesOk() && entry in book.taken
      modifies `book, lists
      ensures NotesOk() && entry.0 in old(book).ready && book == Enqueue(old(book), entry.0, entry.1)
    {
      hide BookInv, Reflects, L.Rings;
      var (w, t) := entry;
      EnqueueKeeps(book, Ids(count), w, t);
      ReadyRing(lists.rings, book, Ids(count), maxVms, w, t);
      ghost var l := if t in book.ready[w] then ReadyList(w) else ReadyLinks(w, t);
      var free := lists.Empty(ReadyLinks(w, t), l);
      if free {
        EnqueueReflects(lists.rings, book, Ids(count), maxVms, w, t);
        lists.Append(ReadyList(w), ReadyLinks(w, t));
      } else {
        MergeReflects(lists.rings, book, Ids(count), maxVms, w, t);
      }
      book := Enqueue(book, w, t);
    }

    /** The next VM whose mailbox became writable for `w`. */
    method WritableGet(w: nat) returns (r: Option<nat>)
      requires NotesOk() && IsVm(w)
      modifies `book, lists
      ensures NotesOk() && w in old(book).ready
      ensures r.None? <==> old(book).ready[w] == []
      ensures r.None? ==> book == old(book)
      ensures r.Some? ==> r.value == old(book).ready[w][0] && book == Dequeue(old(book), w)
    {
      hide BookInv, Reflects, L.Rings;
      ReadyHead(lists.rings, book, Ids(count), maxVms, w);
      var none := lists.Empty(ReadyList(w), ReadyList(w));
      if none {
        return None;
      }
      DequeueKeeps(book, Ids(count), w);
      DequeueReflects(lists.rings, book, Ids(count), maxVms, w);
      var e := lists.PopFront(ReadyList(w));
      book := Dequeue(book, w);
      return Some(e.target);
    }

    /** The checks that come before any lock on the target is taken. */
    predicate BadRequest(from: nat, msg: Message)
      reads `configured
    {
      from !in configured || msg.source != from || |msg.payload| > PAYLOAD_MAX || msg.target == from ||
        !IsVm(msg.target)
    }

    /** Sends a message if the target's mailbox is free; if it is not, the sender may ask to be told when
        it is. A failed architected message may leave its header in the free buffer. */
    method Send(from: nat, msg: Message, notify: bool, kind: Kind) returns (r: SpciReturn)
      requires Valid() && IsVm(from) && msg.target >= 1
      requires notify && !BadRequest(from, msg) && !Writable(state, msg.target) ==> msg.target < maxVms
      modifies `state, `buffer, `boxes, `book, lists
      ensures Valid()
      ensures BadRequest(from, msg) ==> r.InvalidParameters? && boxes == old(boxes) && book == old(book)
      ensures !BadRequest(from, msg) ==> msg.target in old(boxes) && msg.target in old(book).waiting
      ensures !BadRequest(from, msg) && Writable(old(state), msg.target) && TooShort(msg, kind) ==>
              r.InvalidParameters? && boxes == old(boxes) && book == old(book)
      ensures !BadRequest(from, msg) && Writable(old(state), msg.target) && !TooShort(msg, kind) ==>
              && r == (if kind.Architected? then kind.result else Success) && book == old(book)
              && boxes == old(boxes)[msg.target := Apply(old(boxes)[msg.target], Arrival(msg, r))]
      ensures !BadRequest(from, msg) && !Writable(old(state), msg.target) ==>
              && r.Busy? && boxes == old(boxes)
              && book == if notify then Register(old(book), from, msg.target) else old(book)
    {
      hide Noted, Ordered, L.Rings, Apply, BoxesOk;
      if BadRequest(from, msg) {
        return InvalidParameters;
      }
      var to := msg.target;
      BoxKeys(to);
      NotedVm(lists.rings, book, count, maxVms, to);
      if !Writable(state, to) {
        if notify {
          var _ := WaitFor(from, to);
        }
        return Busy;
      }
      if TooShort(msg, kind) {
        return InvalidParameters;
      }
      r := Accept(to, msg, kind);
    }

    /** Architected messages have a header of their own. */
    predicate TooShort(msg: Message, kind: Kind) {
      kind.Architected? && |msg.payload| < ARCHITECTED_HEADER
    }

    /** What a message does to a mailbox that can take it. */
    ghost function Arrival(msg: Message, r: SpciReturn): BoxStep {
      if !r.Success? then Scribble(msg) else if msg.target == PRIMARY then DeliverRead(msg) else Deliver(msg)
    }

    method Accept(to: nat, msg: Message, kind: Kind) returns (r: SpciReturn)
      requires BoxesOk() && to in state && state[to].Empty? && to == msg.target
      modifies `state, `buffer, `boxes
      ensures BoxesOk() && to in old(boxes) && r == if kind.Architected? then kind.result else Success
      ensures boxes == old(boxes)[to := Apply(old(boxes)[to], Arrival(msg, r))]
    {
      hide Ordered, Apply;
      r := if kind.Architected? then kind.result else Success;
      BoxKeys(to);
      OrderedStep(boxes, count, to, Arrival(msg, r));
      Sent(boxes[to], msg);
      boxes := boxes[to := Apply(boxes[to], Arrival(msg, r))];
      buffer := buffer[to := msg];
      if kind.Architected? && kind.result != Success {
        return;
      }
      state := state[to := if to == PRIMARY then Read else Received];
    }

    predicate Writable(state: map<nat, MailboxState>, v: nat)
      reads `configured
    {
      v in state && state[v].Empty? && v in configured
    }

    /** Marks a pending message read; receiving and resuming a waiting vCPU both do this. */
    method TryToRead(v: nat) returns (msg: Option<Message>)
      requires BoxesOk() && IsVm(v)
      modifies `state, `boxes
      ensures BoxesOk() && v in old(boxes) && boxes == old(boxes)[v := Apply(old(boxes)[v], TryRead)]
      ensures msg == if old(boxes)[v].state.Received? then Some(old(boxes)[v].buffer) else None
    {
      hide Ordered;
      BoxKeys(v);
      OrderedStep(boxes, count, v, TryRead);
      boxes := boxes[v := Apply(boxes[v], TryRead)];
      if state[v].Received? {
        state := state[v := Read];
        return Some(buffer[v]);
      }
      return None;
    }

    /** Receives a message for a VM other than the primary, which must not call this. `blocks` tells whether
        the vCPU now waits; it does not if an interrupt is pending. */
    method Recv(v: nat, block: bool, interrupted: bool) returns (r: SpciReturn, blocks: bool)
      requires BoxesOk() && IsVm(v)
      modifies `state, `boxes
      ensures BoxesOk() && v in old(boxes)
      ensures boxes == if v == PRIMARY then old(boxes) else old(boxes)[v := Apply(old(boxes)[v], TryRead)]
      ensures r.Success? <==> v != PRIMARY && old(boxes)[v].state.Received?
      ensures r.Retry? <==> v != PRIMARY && !old(boxes)[v].state.Received? && !block
      ensures r.Success? || r.Retry? || r.Interrupted?
      ensures blocks <==> v != PRIMARY && !old(boxes)[v].state.Received? && block && !interrupted
    {
      hide Ordered;
      BoxKeys(v);
      if v == PRIMARY {
        return Interrupted, false;
      }
      var msg := TryToRead(v);
      if msg.Some? {
        return Success, false;
      }
      if !block {
        return Retry, false;
      }
      return Interrupted, !interrupted;
    }

    /** Frees the mailbox for the next message: -1 if the message has not been read, 1 if the primary has
        waiters to wake, and otherwise 0. `switch` tells whether control goes to the primary. */
    method ClearMailbox(v: nat) returns (r: int, switch: bool)
      requires Valid() && IsVm(v)
      modifies `state, `boxes
      ensures Valid() && v in old(boxes) && boxes == old(boxes)[v := Apply(old(boxes)[v], Clear)] && v in book.waiting
      ensures r == if old(boxes)[v].state.Received? then -1
                   else if old(boxes)[v].state.Read? && v == PRIMARY && book.waiting[v] != [] then 1 else 0
      ensures switch <==> old(boxes)[v].state.Read? && v != PRIMARY && book.waiting[v] != []
    {
      hide Ordered, Noted, L.Rings;
      BoxKeys(v);
      NotedVm(lists.rings, book, count, maxVms, v);
      OrderedStep(boxes, count, v, Clear);
      boxes := boxes[v := Apply(boxes[v], Clear)];
      match state[v]
      case Empty => return 0, false;
      case Received => return -1, false;
      case Read =>
        state := state[v := Empty];
        r, switch := WaiterResult(v);
    }

    /** A VM's mailbox has been set up; whoever waits for it can be told. */
    method SetConfigured(v: nat) returns (r: int, switch: bool)
      requires Valid() && IsVm(v)
      modifies `configured
      ensures Valid() && configured == old(configured) + {v} && v in book.waiting
      ensures r == if v == PRIMARY && book.waiting[v] != [] then 1 else 0
      ensures switch <==> v != PRIMARY && book.waiting[v] != []
    {
      hide Noted, Ordered, L.Rings;
      configured := configured + {v};
      r, switch := WaiterResult(v);
    }

    /** The next VM to be told that the mailbox of `t` has become writable; only for the primary. The two
        halves take different locks, so other calls may come in between. */
    method WaiterGet(caller: nat, t: nat) returns (r: Option<nat>)
      requires Valid() && t >= 1
      modifies `book, lists
      ensures Valid()
      ensures r.Some? <==>
                caller == PRIMARY && Writable(state, t) && t in old(book).waiting && old(book).waiting[t] != []
      ensures r.None? ==> book == old(book)
      ensures r.Some? ==> r.value == old(book).waiting[t][0]
      ensures r.Some? ==> r.value in Fetch(old(book), t).ready && book == Enqueue(Fetch(old(book), t), r.value, t)
    {
      hide Noted, Ordered, L.Rings, BoxesOk;
      BoxKeys(t);
      if caller != PRIMARY || !IsVm(t) {
        return None;
      }
      NotedVm(lists.rings, book, count, maxVms, t);
      var entry := FetchWaiter(t);
      if entry.None? {
        return None;
      }
      EnqueueReady(entry.value);
      return Some(entry.value.0);
    }

    method WaiterResult(v: nat) returns (r: int, switch: bool)
      requires NotesOk() && IsVm(v)
      ensures v in book.waiting && r == (if v == PRIMARY && book.waiting[v] != [] then 1 else 0)
      ensures switch <==> v != PRIMARY && book.waiting[v] != []
    {
      hide BookInv, Reflects, L.Rings;
      WaiterRing(lists.rings, book, Ids(count), maxVms, v);
      var none := lists.Empty(WaiterList(v), WaiterList(v));
      if none {
        return 0, false;
      }
      if v == PRIMARY {
        return 1, false;
      }
      return 0, true;
    }
  }

  function Fill<T>(count: nat, x: T): (m: map<nat, T>)
    ensures forall v :: v in m <==> 1 <= v <= count
    ensures forall v | v in m :: m[v] == x
  {
    if count == 0 then map[] else Fill(count - 1, x)[count := x]
  }

  lemma NewBoxes(count: nat)
    ensures Ordered(Fill(count, Box(Empty, Message(0, 0, []), [], [])), count)
  {
  }

  /** Initialises the lists and wait entries of all VMs. */
  method NewLists(count: nat, slots: nat) returns (lists: L.Lists<Node>)
    ensures fresh(lists) && lists.Valid() && Noted(lists.rings, NoBook(Ids(count)), count, slots)
  {
    hide Noted, NoBook, PartOf, L.Rings;
    lists := new L.Lists();
    var v := 1;
    while v <= count
      invariant 1 <= v <= count + 1 && lists.Valid() && Blank(lists.rings) && Initialised(lists.rings, v, slots)
    {
      InitNext(lists.rings, v, slots);
      ghost var was := lists.rings;
      InitVm(lists, v, slots);
      InitDone(was, lists.rings, v, slots);
      v := v + 1;
    }
    InitNoted(lists.rings, count, slots);
  }

  lemma Sent(b: Box, msg: Message)
    requires b.state.Empty?
    ensures Apply(b, Scribble(msg)).state.Empty? && Apply(b, Scribble(msg)).buffer == msg
    ensures Apply(b, Deliver(msg)).state.Received? && Apply(b, Deliver(msg)).buffer == msg
    ensures Apply(b, DeliverRead(msg)).state.Read? && Apply(b, DeliverRead(msg)).buffer == msg
  {
  }

  /** The nodes of the VMs below `v` have been initialised, and no others. */
  ghost predicate Initialised(rings: Rings, v: nat, slots: nat) {
    forall n {:trigger n in rings} :: n in rings <==> 1 <= Owner(n) < v && PartOf(n, Owner(n), slots)
  }

  function Owner(n: Node): nat {
    if n.WaiterList? || n.ReadyList? then n.vm else n.owner
  }

  lemma InitNext(rings: Rings, v: nat, slots: nat)
    requires Initialised(rings, v, slots)
    ensures forall n | PartOf(n, v, slots) :: n !in rings
  {
  }

  lemma InitDone(rings: Rings, rings': Rings, v: nat, slots: nat)
    requires Initialised(rings, v, slots) && v >= 1 && forall n :: n in rings' <==> n in rings || PartOf(n, v, slots)
    ensures Initialised(rings', v + 1, slots)
  {
    forall n ensures n in rings' <==> 1 <= Owner(n) < v + 1 && PartOf(n, Owner(n), slots) {
      assert PartOf(n, v, slots) ==> Owner(n) == v;
    }
  }

  lemma InitNoted(rings: Rings, count: nat, slots: nat)
    requires Blank(rings) && Initialised(rings, count + 1, slots)
    ensures Noted(rings, NoBook(Ids(count)), count, slots)
  {
    forall v, n | v in Ids(count) && PartOf(n, v, slots) ensures n in rings {
      assert Owner(n) == v;
    }
    BlankReflects(rings, Ids(count), slots);
  }
}
