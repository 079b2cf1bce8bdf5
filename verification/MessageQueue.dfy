/** rt-thread/src/ipc.c, message queues: the object. The pool is one array of byte
    cells; node i starts at i * (msg_size + 4), its first cell holds the next pointer,
    the payload follows the four header bytes. Pointers are offsets, -1 is NULL. */
module MessageQueue {
  import opened Common
  import opened IpcWait
  import opened Lists
  import opened MessageQueueSpec

  const LINK: nat := 4                 // sizeof(struct rt_mq_message)

  /** i * (size + LINK). */
  function Addr(i: nat, size: nat): nat { if i == 0 then 0 else Addr(i - 1, size) + size + LINK }

  /** The address of the i-th node of a list, NULL behind its end. */
  function AddrAt(list: seq<nat>, i: nat, size: nat): int { if i < |list| then Addr(list[i], size) else -1 }

  lemma {:induction false} Apart(x: nat, y: nat, size: nat)
    requires x < y
    ensures Addr(x, size) + LINK + size <= Addr(y, size)
  {
    if x < y - 1 { Apart(x, y - 1, size); }
  }

  ghost predicate Roomy(cells: seq<int>, n: nat, size: nat) { |cells| >= Addr(n, size) }

  ghost predicate NextIs(cells: seq<int>, x: nat, size: nat, next: int) {
    Addr(x, size) < |cells| && cells[Addr(x, size)] == next
  }

  /** ptr leads through exactly the nodes of the list. */
  ghost predicate Chain(cells: seq<int>, list: seq<nat>, ptr: int, size: nat) {
    && ptr == AddrAt(list, 0, size)
    && forall i {:trigger list[i]} :: 0 <= i < |list| ==> NextIs(cells, list[i], size, AddrAt(list, i + 1, size))
  }

  function Payload(cells: seq<int>, x: nat, size: nat): seq<int> {
    if Addr(x, size) + LINK + size <= |cells| then cells[Addr(x, size) + LINK..Addr(x, size) + LINK + size] else []
  }

  function Data(cells: seq<int>, n: nat, size: nat): (r: seq<seq<int>>)
    ensures |r| == n
  {
    seq(n, i requires 0 <= i < n => Payload(cells, i, size))
  }

  lemma NodeFits(cells: seq<int>, n: nat, size: nat, x: nat)
    requires Roomy(cells, n, size) && x < n
    ensures Addr(x, size) + LINK + size <= |cells|
  {
    Apart(x, n, size);
  }

  lemma DataSizes(cells: seq<int>, n: nat, size: nat)
    requires Roomy(cells, n, size)
    ensures forall i {:trigger Data(cells, n, size)[i]} :: 0 <= i < n ==> |Data(cells, n, size)[i]| == size
  {
    forall i | 0 <= i < n
      ensures |Data(cells, n, size)[i]| == size
    {
      NodeFits(cells, n, size, i);
    }
  }

  lemma ByteAt(cells: seq<int>, n: nat, size: nat, x: nat, k: nat)
    requires Roomy(cells, n, size) && x < n && k < size
    ensures Addr(x, size) + LINK + k < |cells|
    ensures |Data(cells, n, size)[x]| == size && Data(cells, n, size)[x][k] == cells[Addr(x, size) + LINK + k]
  {
    NodeFits(cells, n, size, x);
  }

  /** A write to a node's next field changes no payload and no other next field. */
  lemma PutNext(cells: seq<int>, n: nat, size: nat, x: nat, v: int)
    requires Roomy(cells, n, size) && x < n
    ensures Addr(x, size) < |cells|
    ensures var c := cells[Addr(x, size) := v];
      && Data(c, n, size) == Data(cells, n, size)
      && NextIs(c, x, size, v)
      && forall y, w {:trigger NextIs(c, y, size, w)} ::
          0 <= y < n && y != x && NextIs(cells, y, size, w) ==> NextIs(c, y, size, w)
  {
    NodeFits(cells, n, size, x);
    var c := cells[Addr(x, size) := v];
    forall y | 0 <= y < n
      ensures Payload(c, y, size) == Payload(cells, y, size)
      ensures y != x ==> Addr(y, size) != Addr(x, size)
    {
      NodeFits(cells, n, size, y);
      if x < y { Apart(x, y, size); }
      if y < x { Apart(y, x, size); }
    }
  }

  /** A write inside a node's payload changes that byte and no next field. */
  lemma PutByte(cells: seq<int>, n: nat, size: nat, x: nat, k: nat, b: int)
    requires Roomy(cells, n, size) && x < n && k < size
    ensures Addr(x, size) + LINK + k < |cells|
    ensures var c := cells[Addr(x, size) + LINK + k := b];
      && |Data(cells, n, size)[x]| == size
      && Data(c, n, size) == Data(cells, n, size)[x := Data(cells, n, size)[x][k := b]]
      && forall y, w {:trigger NextIs(c, y, size, w)} ::
          0 <= y < n && NextIs(cells, y, size, w) ==> NextIs(c, y, size, w)
  {
    NodeFits(cells, n, size, x);
    var c := cells[Addr(x, size) + LINK + k := b];
    forall y | 0 <= y < n
      ensures Payload(c, y, size) == if y == x then Payload(cells, x, size)[k := b] else Payload(cells, y, size)
      ensures Addr(y, size) != Addr(x, size) + LINK + k
    {
      NodeFits(cells, n, size, y);
      if x < y { Apart(x, y, size); }
      if y < x { Apart(y, x, size); }
    }
  }

  lemma ChainFrame(cells: seq<int>, c: seq<int>, n: nat, size: nat, list: seq<nat>, ptr: int, x: nat)
    requires Chain(cells, list, ptr, size) && x !in list && InRange(list, n)
    requires forall y, w {:trigger NextIs(c, y, size, w)} ::
        0 <= y < n && y != x && NextIs(cells, y, size, w) ==> NextIs(c, y, size, w)
    ensures Chain(c, list, ptr, size)
  {
    forall i | 0 <= i < |list|
      ensures NextIs(c, list[i], size, AddrAt(list, i + 1, size))
    {
      assert list[i] in list && NextIs(cells, list[i], size, AddrAt(list, i + 1, size));
    }
  }

  lemma ChainTail(cells: seq<int>, list: seq<nat>, ptr: int, size: nat)
    requires Chain(cells, list, ptr, size) && list != []
    ensures ptr == Addr(list[0], size) < |cells| && Chain(cells, list[1..], cells[Addr(list[0], size)], size)
  {
    var rest := list[1..];
    assert NextIs(cells, list[0], size, AddrAt(list, 1, size));
    forall i | 0 <= i < |rest|
      ensures NextIs(cells, rest[i], size, AddrAt(rest, i + 1, size))
    {
      assert rest[i] == list[i + 1] && AddrAt(rest, i + 1, size) == AddrAt(list, i + 2, size);
    }
  }

  lemma ChainPush(c: seq<int>, list: seq<nat>, ptr: int, size: nat, x: nat)
    requires Chain(c, list, ptr, size) && NextIs(c, x, size, ptr)
    ensures Chain(c, [x] + list, Addr(x, size), size)
  {
    var r := [x] + list;
    forall i | 0 <= i < |r|
      ensures NextIs(c, r[i], size, AddrAt(r, i + 1, size))
    {
      if i > 0 { assert r[i] == list[i - 1] && AddrAt(r, i + 1, size) == AddrAt(list, i, size); }
    }
  }

  /** Appending x, whose next is NULL already, to a chain ending in `last`. */
  lemma ChainAppend(cells: seq<int>, c: seq<int>, n: nat, size: nat, list: seq<nat>, ptr: int, x: nat)
    requires Chain(cells, list, ptr, size) && list != [] && InRange(list, n) && NoDup(list) && x !in list && x < n
    requires NextIs(cells, x, size, -1) && NextIs(c, list[|list| - 1], size, Addr(x, size))
    requires forall y, w {:trigger NextIs(c, y, size, w)} ::
        0 <= y < n && y != list[|list| - 1] && NextIs(cells, y, size, w) ==> NextIs(c, y, size, w)
    ensures Chain(c, list + [x], ptr, size)
  {
    var r := list + [x];
    forall i | 0 <= i < |r|
      ensures NextIs(c, r[i], size, AddrAt(r, i + 1, size))
    {
      if i < |list| - 1 {
        assert NextIs(cells, list[i], size, AddrAt(list, i + 1, size))
            && AddrAt(r, i + 1, size) == AddrAt(list, i + 1, size);
      } else if i == |list| - 1 {
        assert list[i] in list && AddrAt(r, i + 1, size) == Addr(x, size);
      } else {
        assert x != list[|list| - 1];
      }
    }
  }

  lemma Twice(list: seq<nat>, i: nat, j: nat)
    requires i < j < |list|
    ensures list[i] == list[j] ==> multiset(list)[list[i]] >= 2
  {
    assert list == list[..j] + list[j..] && list[..j][i] == list[i] && list[j..][0] == list[j];
    assert multiset(list)[list[i]] == multiset(list[..j])[list[i]] + multiset(list[j..])[list[i]];
  }

  lemma Distinct(list: seq<nat>, rest: multiset<nat>, n: nat)
    requires multiset(list) + rest == multiset(AllNodes(n))
    ensures NoDup(list) && InRange(list, n)
  {
    forall i | 0 <= i < |list|
      ensures list[i] < n
    {
      AllNodesOnce(n, list[i]);
      assert list[i] in multiset(list);
    }
    forall i, j | 0 <= i < j < |list|
      ensures list[i] != list[j]
    {
      AllNodesOnce(n, list[i]);
      assert (multiset(list) + rest)[list[i]] <= 1;
      if list[i] == list[j] { Twice(list, i, j); }
    }
  }

  /** Queued and free nodes: all different, all in the pool. */
  lemma ListsApart(s: State)
    requires Partitioned(s)
    ensures NoDup(Nodes(s.queue)) && InRange(Nodes(s.queue), |s.data|)
    ensures NoDup(s.free) && InRange(s.free, |s.data|)
    ensures forall x {:trigger x in s.free} :: x in s.free ==> x !in Nodes(s.queue)
  {
    var a, b, c := multiset(Nodes(s.queue)), multiset(s.free), Held(s.jobs);
    assert a + (b + c) == a + b + c && b + (a + c) == a + b + c;
    Distinct(Nodes(s.queue), b + c, |s.data|);
    Distinct(s.free, a + c, |s.data|);
    forall x | x in s.free
      ensures x !in Nodes(s.queue)
    {
      AllNodesOnce(|s.data|, x);
      assert x in b && (a + b + c)[x] == a[x] + b[x] + c[x];
    }
  }

  /** A sender that is not urgent has already ended the list behind its node. */
  ghost predicate EndsList(cells: seq<int>, j: Job, size: nat) {
    j.Filling? && !j.urgent ==> NextIs(cells, j.item.node, size, -1)
  }

  /** The pointers lead through the two lists, and the tail is the last queued node. */
  ghost predicate Layout(cells: seq<int>, s: State, head: int, tail: int, free: int, size: nat) {
    && Roomy(cells, |s.data|, size)
    && Chain(cells, Nodes(s.queue), head, size)
    && tail == (if s.queue == [] then -1 else Addr(s.queue[|s.queue| - 1].node, size))
    && Chain(cells, s.free, free, size)
    && forall t {:trigger s.jobs[t]} :: 0 <= t < |s.jobs| ==> EndsList(cells, s.jobs[t], size)
  }

  lemma JobsFrame(cells: seq<int>, c: seq<int>, s: State, size: nat, x: nat)
    requires Partitioned(s) && forall t {:trigger s.jobs[t]} :: 0 <= t < |s.jobs| ==> EndsList(cells, s.jobs[t], size)
    requires forall y, w {:trigger NextIs(c, y, size, w)} ::
        0 <= y < |s.data| && y != x && NextIs(cells, y, size, w) ==> NextIs(c, y, size, w)
    ensures forall t {:trigger s.jobs[t]} ::
        0 <= t < |s.jobs| && (s.jobs[t].NoJob? || s.jobs[t].item.node != x) ==> EndsList(c, s.jobs[t], size)
  {
    forall t | 0 <= t < |s.jobs| && (s.jobs[t].NoJob? || s.jobs[t].item.node != x)
      ensures EndsList(c, s.jobs[t], size)
    {
      if !s.jobs[t].NoJob? { HandIsAlone(s, t); }
      assert EndsList(cells, s.jobs[t], size);
    }
  }

  ghost predicate SameNexts(cells: seq<int>, c: seq<int>, n: nat, size: nat, x: nat) {
    forall y, w {:trigger NextIs(c, y, size, w)} ::
        0 <= y < n && y != x && NextIs(cells, y, size, w) ==> NextIs(c, y, size, w)
  }

  lemma AllocLayout(cells: seq<int>, c: seq<int>, s: State, head: int, tail: int, free: int, size: nat, t: nat,
      bytes: seq<int>, urgent: bool)
    requires Layout(cells, s, head, tail, free, size) && Partitioned(s) && t < |s.jobs| && s.jobs[t].NoJob?
        && |bytes| <= size && s.free != []
    requires |c| == |cells| && SameNexts(cells, c, |s.data|, size, s.free[0])
        && (!urgent ==> NextIs(c, s.free[0], size, -1))
    ensures free == Addr(s.free[0], size) < |cells|
    ensures Layout(c, SendEnter(s, t, bytes, urgent, size).0, head, tail, cells[free], size)
  {
    hide Chain, NextIs, Partitioned;
    ListsApart(s);
    HeadGone(s.free);
    var x := s.free[0];
    assert x in s.free;
    ChainTail(cells, s.free, free, size);
    AllInRange(s.free[1..], s.free, |s.data|);
    ChainFrame(cells, c, |s.data|, size, s.free[1..], cells[free], x);
    ChainFrame(cells, c, |s.data|, size, Nodes(s.queue), head, x);
    JobsFrame(cells, c, s, size, x);
    forall u | 0 <= u < |s.jobs| && !s.jobs[u].NoJob?
      ensures s.jobs[u].item.node != x
    {
      HandIsAlone(s, u);
    }
  }

  lemma LastNode(queue: seq<Item>)
    requires queue != []
    ensures var q := Nodes(queue); q[|q| - 1] == queue[|queue| - 1].node
    ensures forall x: Item {:trigger queue + [x]} :: Nodes(queue + [x]) == Nodes(queue) + [x.node]
  {
    forall x: Item
      ensures Nodes(queue + [x]) == Nodes(queue) + [x.node]
    {
    }
  }

  /** Linking the node in hand t at the back. */
  lemma BackLayout(cells: seq<int>, c: seq<int>, s: State, head: int, tail: int, free: int, size: nat, t: nat)
    requires Layout(cells, s, head, tail, free, size) && Partitioned(s) && MayLink(s, t) && !s.jobs[t].urgent
    requires var x := s.jobs[t].item.node;
      && |c| == |cells|
      && if s.queue == [] then c == cells
         else
           && NextIs(c, s.queue[|s.queue| - 1].node, size, Addr(x, size))
           && SameNexts(cells, c, |s.data|, size, s.queue[|s.queue| - 1].node)
    ensures var x := s.jobs[t].item.node;
            Layout(c, Link(s, t), if head == -1 then Addr(x, size) else head, Addr(x, size), free, size)
  {
    hide NextIs, Partitioned;
    ListsApart(s);
    HandIsAlone(s, t);
    var x := s.jobs[t].item;
    assert EndsList(cells, s.jobs[t], size);
    var q := Nodes(s.queue);
    if s.queue == [] {
      ChainPush(c, q, -1, size, x.node);
      assert Nodes(s.queue + [x]) == [x.node] + q;
    } else {
      LastNode(s.queue);
      var last := q[|q| - 1];
      assert last in q;
      ChainAppend(cells, c, |s.data|, size, q, head, x.node);
      ChainFrame(cells, c, |s.data|, size, s.free, free, last);
      JobsFrame(cells, c, s, size, last);
      LastAlone(s);
    }
  }

  lemma LastAlone(s: State)
    requires Partitioned(s) && s.queue != []
    ensures forall u {:trigger s.jobs[u]} ::
        0 <= u < |s.jobs| && !s.jobs[u].NoJob? ==> s.jobs[u].item.node != s.queue[|s.queue| - 1].node
  {
    forall u | 0 <= u < |s.jobs| && !s.jobs[u].NoJob?
      ensures s.jobs[u].item.node != s.queue[|s.queue| - 1].node
    {
      HandIsAlone(s, u);
    }
  }

  /** Linking it in front. */
  lemma FrontLayout(cells: seq<int>, c: seq<int>, s: State, head: int, tail: int, free: int, size: nat, t: nat)
    requires Layout(cells, s, head, tail, free, size) && Partitioned(s) && MayLink(s, t) && s.jobs[t].urgent
    requires var x := s.jobs[t].item.node;
        |c| == |cells| && NextIs(c, x, size, head) && SameNexts(cells, c, |s.data|, size, x)
    ensures var x := s.jobs[t].item.node;
            Layout(c, Link(s, t), Addr(x, size), if tail == -1 then Addr(x, size) else tail, free, size)
  {
    hide NextIs, Partitioned, Chain;
    ListsApart(s);
    HandIsAlone(s, t);
    var x := s.jobs[t].item;
    ChainFrame(cells, c, |s.data|, size, Nodes(s.queue), head, x.node);
    ChainPush(c, Nodes(s.queue), head, size, x.node);
    assert Nodes([x] + s.queue) == [x.node] + Nodes(s.queue);
    ChainFrame(cells, c, |s.data|, size, s.free, free, x.node);
    JobsFrame(cells, c, s, size, x.node);
  }

  lemma UnlinkLayout(cells: seq<int>, s: State, head: int, tail: int, free: int, size: nat)
    requires Layout(cells, s, head, tail, free, size) && Partitioned(s) && s.queue != []
    ensures head == Addr(s.queue[0].node, size) < |cells|
    ensures Layout(cells, s.(queue := s.queue[1..]), cells[head], if tail == head then -1 else tail, free, size)
  {
    hide NextIs, Partitioned, Chain;
    ListsApart(s);
    var q := Nodes(s.queue);
    ChainTail(cells, q, head, size);
    assert q[1..] == Nodes(s.queue[1..]);
    if |s.queue| > 1 {
      assert q[0] != q[|q| - 1];
      AddrDistinct(q[0], q[|q| - 1], size);
    }
  }

  lemma FillLayout(cells: seq<int>, c: seq<int>, s: State, head: int, tail: int, free: int, size: nat, t: nat)
    requires Layout(cells, s, head, tail, free, size) && Partitioned(s) && MayFill(s, t)
    requires |c| == |cells| && forall y, w {:trigger NextIs(c, y, size, w)} ::
        0 <= y < |s.data| && NextIs(cells, y, size, w) ==> NextIs(c, y, size, w)
    ensures Layout(c, MessageQueueSpec.FillByte(s, t), head, tail, free, size)
  {
    hide NextIs, Partitioned, Chain;
    ListsApart(s);
    ChainFrame(cells, c, |s.data|, size, s.free, free, |s.data|);
    ChainFrame(cells, c, |s.data|, size, Nodes(s.queue), head, |s.data|);
    HandIsAlone(s, t);
    assert EndsList(cells, s.jobs[t], size);
    JobsFrame(cells, c, s, size, |s.data|);
    forall u | 0 <= u < |s.jobs| && !s.jobs[u].NoJob?
      ensures s.jobs[u].item.node < |s.data|
    {
      HandIsAlone(s, u);
    }
  }

  lemma SamePlaces(s: State, s1: State)
    requires Partitioned(s) && s1.queue == s.queue && s1.free == s.free && s1.jobs == s.jobs && |s1.data| == |s.data|
    ensures Partitioned(s1)
  {
  }

  /** What is needed to know before the head of the queue is freed. */
  lemma HeadOut(s: State)
    requires Partitioned(s) && s.queue != []
    ensures var x := s.queue[0].node;
      && x < |s.data| && x !in s.free && Nodes(s.queue[1..]) == Nodes(s.queue)[1..]
      && x !in Nodes(s.queue[1..]) && InRange(Nodes(s.queue[1..]), |s.data|)
      && (forall u {:trigger s.jobs[u]} :: 0 <= u < |s.jobs| && !s.jobs[u].NoJob? ==> s.jobs[u].item.node != x)
      && Partitioned(s.(queue := s.queue[1..], free := [x] + s.free))
  {
    var q, x := Nodes(s.queue), s.queue[0].node;
    ListsApart(s);
    HeadGone(q);
    assert q[0] == x && q[0] in q && Nodes(s.queue[1..]) == q[1..];
    AllInRange(q[1..], q, |s.data|);
    NodesHead(s.queue);
    var f := [x] + s.free;
    SeqHead(f);
    Move(multiset(q), multiset(s.free), multiset(q[1..]), multiset(f), Held(s.jobs), x);
    forall u | 0 <= u < |s.jobs| && !s.jobs[u].NoJob?
      ensures s.jobs[u].item.node != x
    {
      HandIsAlone(s, u);
    }
  }

  lemma AddrDistinct(x: nat, y: nat, size: nat)
    requires x != y
    ensures Addr(x, size) != Addr(y, size)
  {
    if x < y { Apart(x, y, size); } else { Apart(y, x, size); }
  }

  /** msg_size: rounded up to words, then cut to 16 bits. */
  function MessageSize(asked: nat): nat { 4 * AlignWords(asked) % 0x1_0000 }

  /** max_msgs: cut to 16 bits as well. */
  function Capacity(length: nat, size: nat): nat { length / (size + LINK) % 0x1_0000 }

  lemma {:induction false} Product(i: nat, size: nat)
    ensures Addr(i, size) == i * (size + LINK)
  {
    if i > 0 { Product(i - 1, size); }
  }

  lemma Quotient(a: nat, b: nat)
    requires b > 0
    ensures a / b * b <= a && a / b % 0x1_0000 <= a / b
  {
  }

  lemma CapacityFits(length: nat, size: nat)
    ensures Addr(Capacity(length, size), size) <= length
  {
    var m := length / (size + LINK);
    Product(m, size);
    Quotient(length, size + LINK);
    if Capacity(length, size) < m { Apart(Capacity(length, size), m, size); }
  }

  // ---------------------------------------------------------------- the queue object

  class Queue {
    const pool: array<int>            // msg_pool
    const msgSize: nat
    const maxMsgs: nat
    var entry: nat
    var head: int                     // msg_queue_head
    var tail: int                     // msg_queue_tail
    var free: int                     // msg_queue_free
    var wait: seq<nat>                // parent.suspend_thread
    var threads: seq<Thread<Call>>
    ghost var queue: seq<Item>
    ghost var freeList: seq<nat>
    ghost var jobs: seq<Job>          // what each context's local variables amount to

    ghost function Abs(): State
      reads this, pool
    {
      State(Data(pool[..], maxMsgs, msgSize), queue, freeList, entry, wait, threads, jobs)
    }

    ghost predicate Valid()
      reads this, pool
    {
      Layout(pool[..], Abs(), head, tail, free, msgSize) && Inv(Abs(), msgSize)
    }

    /** rt_mq_init: both sizes are cut to 16 bits, and the free list starts with the
        last node. */
    constructor (msgpool: array<int>, asked: nat, n: nat)
      requires asked < WORD_RANGE && msgpool.Length < WORD_RANGE
      modifies msgpool
      ensures pool == msgpool && msgSize == MessageSize(asked) && maxMsgs == Capacity(msgpool.Length, msgSize)
      ensures Valid() && Abs() == Initial(Data(pool[..], maxMsgs, msgSize), n)
      ensures Data(pool[..], maxMsgs, msgSize) == Data(old(msgpool[..]), maxMsgs, msgSize)
    {
      hide Capacity, Inv, MessageSize;
      CapacityFits(msgpool.Length, MessageSize(asked));
      pool := msgpool;
      var size := MessageSize(asked);
      msgSize, maxMsgs := size, Capacity(msgpool.Length, size);
      head, tail, free := -1, -1, -1;
      entry := 0;
      wait := [];
      threads := seq(n, _ => Thread(EOK, Idle));
      queue, freeList, jobs := [], [], seq(n, _ => NoJob);
      new;
      Build();
      DataSizes(pool[..], maxMsgs, msgSize);
      assert Nodes(queue) == [];
      InitialKeeps(Data(pool[..], maxMsgs, msgSize), n, msgSize);
    }

    /** The loop of rt_mq_init that puts every node on the free list. */
    method Build()
      requires Roomy(pool[..], maxMsgs, msgSize) && freeList == [] && free == -1
      modifies this`free, this`freeList, pool
      ensures Data(pool[..], maxMsgs, msgSize) == old(Data(pool[..], maxMsgs, msgSize))
      ensures Chain(pool[..], freeList, free, msgSize)
      ensures freeList == seq(maxMsgs, i requires 0 <= i < maxMsgs => maxMsgs - 1 - i)
    {
      ghost var data := Data(pool[..], maxMsgs, msgSize);
      var temp := 0;
      while temp < maxMsgs
        invariant temp <= maxMsgs && |freeList| == temp
        invariant Data(pool[..], maxMsgs, msgSize) == data
        invariant forall i {:trigger freeList[i]} :: 0 <= i < temp ==> freeList[i] == temp - 1 - i
        invariant Chain(pool[..], freeList, free, msgSize)
      {
        FreeNode(Addr(temp, msgSize), temp);
        temp := temp + 1;
      }
    }

    lemma Facts()
      requires Valid()
      ensures free == -1 <==> freeList == []
      ensures freeList != [] ==> free == Addr(freeList[0], msgSize) < pool.Length && freeList[0] < maxMsgs
      ensures head == -1 <==> queue == []
      ensures Partitioned(Abs()) && |jobs| == |threads| && InRange(wait, |threads|) && entry == |queue|
      ensures wait != [] ==> wait[0] < |threads| && threads[wait[0]].phase.Blocked?
    {
      if wait != [] { assert wait[0] in wait && Abs().ts[wait[0]] == threads[wait[0]]; }
      ListsApart(Abs());
      if freeList != [] { ChainTail(pool[..], freeList, free, msgSize); }
    }

    /** rt_mq_send and rt_mq_urgent up to the copy; msg is the local pointer. */
    method SendEnter(t: nat, bytes: seq<int>, urgent: bool) returns (o: Outcome, msg: int)
      requires Valid() && t < |threads| && threads[t].phase.Idle? && jobs[t].NoJob? && bytes != []
      modifies this, pool
      ensures Valid() && (Abs(), o) == MessageQueueSpec.SendEnter(old(Abs()), t, bytes, urgent, msgSize)
      ensures o.Busy? ==> jobs[t].Filling? && msg == Addr(jobs[t].item.node, msgSize)
    {
      hide Data, Chain, NextIs, Inv;
      if |bytes| > msgSize { return Returned(ERROR), -1; }
      ghost var s, cells := Abs(), pool[..];
      SendEnterKeeps(s, t, bytes, urgent, msgSize);
      Facts();
      msg := free;
      if msg == -1 { return Returned(EFULL), -1; }
      ghost var x := freeList[0];
      free := pool[msg];
      if !urgent {
        PutNext(cells, maxMsgs, msgSize, x, -1);
        pool[msg] := -1;
        assert pool[..] == cells[msg := -1];
      }
      AllocLayout(cells, pool[..], s, head, tail, msg, msgSize, t, bytes, urgent);
      freeList := freeList[1..];
      jobs := jobs[t := Filling(Item(x, bytes), urgent, 0)];
      o := Busy;
    }

    /** One byte of the copy into the node, with interrupts on. */
    method FillByte(t: nat, msg: nat, bytes: seq<int>, k: nat)
      requires Valid() && MayFill(Abs(), t) && jobs[t].item.bytes == bytes && jobs[t].k == k
          && msg == Addr(jobs[t].item.node, msgSize)
      modifies this`jobs, pool
      ensures Valid() && Abs() == MessageQueueSpec.FillByte(old(Abs()), t)
    {
      hide Data, Chain, NextIs, Inv, Base, Payload;
      ghost var s, cells := Abs(), pool[..];
      Facts();
      FillByteKeeps(s, t, msgSize);
      PayloadSize(t);
      PutByte(cells, maxMsgs, msgSize, jobs[t].item.node, k, bytes[k]);
      pool[msg + LINK + k] := bytes[k];
      assert pool[..] == cells[msg + LINK + k := bytes[k]];
      FillLayout(cells, pool[..], s, head, tail, free, msgSize, t);
      jobs := jobs[t := jobs[t].(k := k + 1)];
    }

    lemma PayloadSize(t: nat)
      requires Valid() && t < |jobs| && !jobs[t].NoJob?
      ensures jobs[t].item.node < maxMsgs && |Data(pool[..], maxMsgs, msgSize)[jobs[t].item.node]| == msgSize
          && |jobs| == |threads|
      ensures Addr(jobs[t].item.node, msgSize) + LINK + msgSize <= pool.Length
    {
      HandIsAlone(Abs(), t);
      DataSizes(pool[..], maxMsgs, msgSize);
      NodeFits(pool[..], maxMsgs, msgSize, jobs[t].item.node);
    }

    /** The second region of rt_mq_send and rt_mq_urgent. */
    method Link(t: nat, msg: nat, urgent: bool)
      requires Valid() && MayLink(Abs(), t) && jobs[t].urgent == urgent && msg == Addr(jobs[t].item.node, msgSize)
      modifies this, pool
      ensures Valid() && Abs() == MessageQueueSpec.Link(old(Abs()), t)
    {
      hide Data, Chain, NextIs, Inv;
      ghost var s, x := Abs(), jobs[t].item;
      LinkKeeps(s, t, msgSize);
      Facts();
      if urgent { LinkFront(t, msg); } else { LinkBack(t, msg); }
      entry := entry + 1;
      ghost var q := queue;
      queue := if urgent then [x] + queue else queue + [x];
      jobs := jobs[t := NoJob];
      if wait != [] { WakeHead(); }
    }

    method LinkBack(t: nat, msg: nat)
      requires Valid() && MayLink(Abs(), t) && !jobs[t].urgent && msg == Addr(jobs[t].item.node, msgSize)
      modifies this`head, this`tail, pool
      ensures Data(pool[..], maxMsgs, msgSize) == old(Data(pool[..], maxMsgs, msgSize))
      ensures Layout(pool[..], MessageQueueSpec.Link(old(Abs()), t), head, tail, free, msgSize)
    {
      hide Data, NextIs, Inv, MessageQueueSpec.Link, Partitioned;
      ghost var s, cells, h, l := Abs(), pool[..], head, tail;
      Facts();
      if tail != -1 {
        ghost var last := queue[|queue| - 1].node;
        LastNode(queue);
        ListsApart(s);
        NodeFits(cells, maxMsgs, msgSize, last);
        PutNext(cells, maxMsgs, msgSize, last, msg);
        pool[tail] := msg;
        assert pool[..] == cells[tail := msg];
      }
      BackLayout(cells, pool[..], s, h, l, free, msgSize, t);
      tail := msg;
      if head == -1 { head := msg; }
    }

    method LinkFront(t: nat, msg: nat)
      requires Valid() && MayLink(Abs(), t) && jobs[t].urgent && msg == Addr(jobs[t].item.node, msgSize)
      modifies this`head, this`tail, pool
      ensures Data(pool[..], maxMsgs, msgSize) == old(Data(pool[..], maxMsgs, msgSize))
      ensures Layout(pool[..], MessageQueueSpec.Link(old(Abs()), t), head, tail, free, msgSize)
    {
      hide Data, NextIs, Inv, MessageQueueSpec.Link, Partitioned;
      ghost var s, cells, h, l := Abs(), pool[..], head, tail;
      Facts();
      PayloadSize(t);
      PutNext(cells, maxMsgs, msgSize, jobs[t].item.node, head);
      pool[msg] := head;
      assert pool[..] == cells[msg := head];
      FrontLayout(cells, pool[..], s, h, l, free, msgSize, t);
      head := msg;
      if tail == -1 { tail := msg; }
    }

    /** rt_ipc_list_resume on the head of the wait list. */
    method WakeHead()
      requires wait != [] && wait[0] < |threads| && threads[wait[0]].phase.Blocked?
      modifies this`wait, this`threads
      ensures wait == old(wait)[1..] && threads == Resume(old(threads), old(wait)[0])
    {
      var t := wait[0];
      var p := threads[t].phase;
      wait := wait[1..];
      threads := threads[t := Thread(threads[t].error, Ready(p.call, p.timeout, p.start))];
    }

    /** rt_mq_recv up to its copy, its first return or rt_schedule. */
    method RecvEnter(t: nat, want: nat, timeout: int, e: Env) returns (o: Outcome, msg: int)
      requires Valid() && |e.prio| == |threads| && t < |threads| && threads[t].phase.Idle? && jobs[t].NoJob?
      modifies this
      ensures Valid() && (Abs(), o) == MessageQueueSpec.RecvEnter(old(Abs()), t, want, timeout, e)
      ensures o.Busy? ==> jobs[t].Draining? && msg == Addr(jobs[t].item.node, msgSize)
    {
      hide Data, Inv, MessageQueueSpec.TryRecv;
      Facts();
      if entry == 0 && timeout == 0 { return Returned(ETIMEOUT), -1; }
      RecvEnterKeeps(Abs(), t, want, timeout, e, msgSize);
      o, msg := TryRecv(t, want, timeout, e);
    }

    method TryRecv(t: nat, want: nat, timeout: int, e: Env) returns (o: Outcome, msg: int)
      requires Layout(pool[..], Abs(), head, tail, free, msgSize) && Partitioned(Abs()) && InRange(wait, |threads|)
          && entry == |queue|
      requires |e.prio| == |threads| == |jobs| && t < |threads|
      modifies this
      ensures (Abs(), o) == MessageQueueSpec.TryRecv(old(Abs()), t, want, timeout, e)
      ensures Layout(pool[..], Abs(), head, tail, free, msgSize)
      ensures o.Busy? ==> jobs[t].Draining? && msg == Addr(jobs[t].item.node, msgSize)
    {
      hide Data, Chain, NextIs, Partitioned;
      if entry == 0 {
        threads := threads[t := threads[t].(error := EOK)];
        if timeout == 0 {
          threads := threads[t := threads[t].(error := ETIMEOUT)];
          assert threads == old(threads)[t := old(threads)[t].(error := ETIMEOUT)];
          return Returned(ETIMEOUT), -1;
        }
        wait := Suspend(wait, t, e.prio, e.flag);
        threads := threads[t := Thread(EOK, Blocked(want, timeout, if timeout > 0 then e.now else 0))];
        assert threads == old(threads)[t := threads[t]];
        return Waits, -1;
      }
      UnlinkLayout(pool[..], Abs(), head, tail, free, msgSize);
      msg := head;
      head := pool[msg];
      if tail == msg { tail := -1; }
      entry := entry - 1;
      jobs := jobs[t := Draining(queue[0], want, [])];
      queue := queue[1..];
      o := Busy;
    }

    /** What rt_mq_recv does when its thread comes back from rt_schedule. */
    method Rerun(t: nat, e: Env) returns (o: Outcome, msg: int)
      requires Valid() && |e.prio| == |threads| && t < |threads| && threads[t].phase.Ready?
      modifies this
      ensures Valid() && (Abs(), o) == MessageQueueSpec.Rerun(old(Abs()), t, e)
      ensures o.Busy? ==> jobs[t].Draining? && msg == Addr(jobs[t].item.node, msgSize)
    {
      hide Data, Chain, NextIs, Partitioned, Inv, MessageQueueSpec.TryRecv;
      Facts();
      RerunKeeps(Abs(), t, e, msgSize);
      var p := threads[t].phase;
      threads := threads[t := threads[t].(phase := Idle)];
      if threads[t].error != EOK { return Returned(threads[t].error), -1; }
      assert Partitioned(Abs()) by { SamePlaces(old(Abs()), Abs()); }
      o, msg := TryRecv(t, p.call, Remaining(p.timeout, p.start, e.now), e);
    }

    /** One byte of the copy into the receiver's buffer, with interrupts on. */
    method DrainByte(t: nat, msg: nat, k: nat) returns (b: int)
      requires Valid() && MayDrain(Abs(), t, msgSize) && |jobs[t].got| == k && msg == Addr(jobs[t].item.node, msgSize)
      modifies this`jobs
      ensures Valid() && Abs() == MessageQueueSpec.DrainByte(old(Abs()), t, msgSize)
      ensures jobs[t].Draining? && jobs[t].got == old(jobs)[t].got + [b]
    {
      hide Data, Chain, NextIs, Partitioned, Inv;
      DrainByteKeeps(Abs(), t, msgSize);
      PayloadSize(t);
      ByteAt(pool[..], maxMsgs, msgSize, jobs[t].item.node, k);
      b := pool[msg + LINK + k];
      jobs := jobs[t := jobs[t].(got := jobs[t].got + [b])];
    }

    /** The last region of rt_mq_recv. */
    method GiveBack(t: nat, msg: nat, buffer: seq<int>) returns (o: Outcome)
      requires Valid() && MayGive(Abs(), t, msgSize) && jobs[t].got == buffer && msg == Addr(jobs[t].item.node, msgSize)
      modifies this`jobs, this`free, this`freeList, pool
      ensures Valid() && (Abs(), o) == MessageQueueSpec.GiveBack(old(Abs()), t, msgSize)
    {
      hide Data, Chain, NextIs, Partitioned, Inv;
      ghost var s, cells, x := Abs(), pool[..], jobs[t].item.node;
      GiveBackKeeps(s, t, msgSize);
      Facts();
      PayloadSize(t);
      HandIsAlone(s, t);
      ListsApart(s);
      FreeNode(msg, x);
      ChainFrame(cells, pool[..], maxMsgs, msgSize, Nodes(queue), head, x);
      JobsFrame(cells, pool[..], s, msgSize, x);
      jobs := jobs[t := NoJob];
      o := Received(buffer);
    }

    /** msg->next = msg_queue_free; msg_queue_free = msg. */
    method FreeNode(msg: nat, ghost x: nat)
      requires Roomy(pool[..], maxMsgs, msgSize) && x < maxMsgs && msg == Addr(x, msgSize)
      requires Chain(pool[..], freeList, free, msgSize) && x !in freeList && InRange(freeList, maxMsgs)
      modifies this`free, this`freeList, pool
      ensures Chain(pool[..], freeList, free, msgSize) && freeList == [x] + old(freeList)
      ensures Data(pool[..], maxMsgs, msgSize) == old(Data(pool[..], maxMsgs, msgSize))
      ensures SameNexts(old(pool[..]), pool[..], maxMsgs, msgSize, x)
    {
      hide Data, Chain, NextIs;
      ghost var cells := pool[..];
      PutNext(cells, maxMsgs, msgSize, x, free);
      pool[msg] := free;
      assert pool[..] == cells[msg := free];
      ChainFrame(cells, pool[..], maxMsgs, msgSize, freeList, free, x);
      ChainPush(pool[..], freeList, free, msgSize, x);
      free := msg;
      freeList := [x] + freeList;
    }

    /** rt_thread_timeout for a thread waiting here. */
    method Timeout(t: nat)
      requires Valid() && t < |threads| && threads[t].phase.Blocked?
      modifies this`wait, this`threads
      ensures Valid() && Abs() == TimedOut(old(Abs()), t)
    {
      hide Data, Chain, NextIs, Partitioned, Inv;
      TimedOutKeeps(Abs(), t, msgSize);
      var p := threads[t].phase;
      wait := Without(wait, t);
      threads := threads[t := Thread(ETIMEOUT, Ready(p.call, p.timeout, p.start))];
      assert threads == ResumeWith(old(threads), t, ETIMEOUT);
    }

    /** rt_mq_control: reset is the only command. */
    method Control(reset: bool) returns (code: Code)
      requires Valid()
      modifies this, pool
      ensures Valid() && Abs() == if reset then Reset(old(Abs())) else old(Abs())
      ensures code == if reset then EOK else ERROR
    {
      hide Data, Chain, NextIs, Parts, Moved;
      if !reset { return ERROR; }
      ResetKeeps(Abs(), msgSize);
      WakeAll();
      while head != -1
        invariant Layout(pool[..], Abs(), head, tail, free, msgSize) && Partitioned(Abs())
        invariant Abs() == old(Abs()).(queue := queue, free := freeList, wait := wait, ts := threads)
        invariant wait == [] && threads == ResumeAll(old(threads), old(wait))
        invariant Moved(queue, freeList) == Moved(old(queue), old(freeList))
        decreases |queue|
      {
        HeadToFree();
      }
      entry := 0;
      Emptied();
      code := EOK;
    }

    lemma Emptied()
      requires Chain(pool[..], Nodes(queue), head, msgSize) && head == -1
      ensures queue == [] && Moved(queue, freeList) == freeList
    {
    }

    /** The head of the queue goes to the free list. */
    method HeadToFree()
      requires Layout(pool[..], Abs(), head, tail, free, msgSize) && Partitioned(Abs()) && head != -1
      modifies this`head, this`tail, this`free, this`queue, this`freeList, pool
      ensures Layout(pool[..], Abs(), head, tail, free, msgSize) && Partitioned(Abs())
      ensures Abs() == old(Abs()).(queue := queue, free := freeList)
      ensures old(queue) != [] && queue == old(queue)[1..] && Moved(queue, freeList) == Moved(old(queue), old(freeList))
    {
      hide Data, NextIs, Parts, Partitioned;
      ghost var s, cells, x := Abs(), pool[..], queue[0].node;
      ListsApart(s);
      HeadOut(s);
      UnlinkLayout(cells, s, head, tail, free, msgSize);
      var msg := head;
      head := pool[msg];
      if tail == msg { tail := -1; }
      queue := queue[1..];
      ghost var s1 := Abs();
      FreeNode(msg, x);
      ChainFrame(cells, pool[..], maxMsgs, msgSize, Nodes(queue), head, x);
      JobsFrame(cells, pool[..], s, msgSize, x);
    }

    /** rt_ipc_list_resume_all on the wait list. */
    method WakeAll()
      requires Waiting(Abs()) && InRange(wait, |threads|)
      modifies this`wait, this`threads
      ensures wait == [] && threads == ResumeAll(old(threads), old(wait))
    {
      forall t | t in wait
        ensures threads[t].phase.Blocked?
      {
        assert Abs().ts[t] == threads[t];
      }
      while wait != []
        invariant InRange(wait, |threads|) && NoDup(wait) && |threads| == |old(threads)|
        invariant forall t {:trigger t in wait} :: t in wait ==> threads[t].phase.Blocked?
        invariant ResumeAll(threads, wait) == ResumeAll(old(threads), old(wait))
        decreases |wait|
      {
        assert wait[0] in wait;
        HeadGone(wait);
        threads := threads[wait[0] := threads[wait[0]].(error := ERROR)];
        WakeHead();
      }
    }
  }
}
