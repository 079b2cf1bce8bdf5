/** rt-thread/src/ipc.c, message queues: the atomic steps of rt_mq_send, rt_mq_urgent,
    rt_mq_recv and the reset. Copying runs with interrupts on, so between taking a
    node and linking it, and between unlinking a node and returning it, a node is in
    the hands of one thread; every byte copied is a step of its own. */
module MessageQueueSpec {
  import opened Common
  import opened IpcWait
  import opened Lists

  /** A blocked rt_mq_recv remembers the size of its buffer. */
  type Call = nat

  /** A queued node and the message that was sent with it. */
  datatype Item = Item(node: nat, bytes: seq<int>)

  /** What a context is doing with interrupts on. */
  datatype Job = NoJob
               | Filling(item: Item, urgent: bool, k: nat)
               | Draining(item: Item, want: nat, got: seq<int>)

  datatype State = State(data: seq<seq<int>>, queue: seq<Item>, free: seq<nat>, entry: nat,
                         wait: seq<nat>, ts: seq<Thread<Call>>, jobs: seq<Job>)

  datatype Env = Env(prio: seq<nat>, flag: Flag, now: nat)

  datatype Outcome = Returned(code: Code) | Received(buffer: seq<int>) | Busy | Waits

  predicate Shaped(s: State, size: nat) {
    && |s.jobs| == |s.ts| && InRange(s.wait, |s.ts|)
    && forall i {:trigger s.data[i]} :: 0 <= i < |s.data| ==> |s.data[i]| == size
  }

  /** rt_mq_send and rt_mq_urgent up to the copy. */
  function SendEnter(s: State, t: nat, bytes: seq<int>, urgent: bool, size: nat): (State, Outcome)
    requires t < |s.jobs|
  {
    if |bytes| > size then (s, Returned(ERROR))
    else if s.free == [] then (s, Returned(EFULL))
    else (s.(free := s.free[1..], jobs := s.jobs[t := Filling(Item(s.free[0], bytes), urgent, 0)]), Busy)
  }

  predicate MayFill(s: State, t: nat) {
    t < |s.jobs| && s.jobs[t].Filling? && s.jobs[t].k < |s.jobs[t].item.bytes|
    && s.jobs[t].item.node < |s.data| && s.jobs[t].k < |s.data[s.jobs[t].item.node]|
  }

  /** One byte of rt_memcpy(msg + 1, buffer, size). */
  function FillByte(s: State, t: nat): State
    requires MayFill(s, t)
  {
    var j := s.jobs[t];
    s.(data := s.data[j.item.node := s.data[j.item.node][j.k := j.item.bytes[j.k]]],
        jobs := s.jobs[t := j.(k := j.k + 1)])
  }

  predicate MayLink(s: State, t: nat) {
    t < |s.jobs| && s.jobs[t].Filling? && s.jobs[t].k == |s.jobs[t].item.bytes|
  }

  /** The second region of a send: link at the back, or in front when urgent. */
  function Link(s: State, t: nat): State
    requires MayLink(s, t)
  {
    var j := s.jobs[t];
    var q1 := if j.urgent then [j.item] + s.queue else s.queue + [j.item];
    var s1 := s.(queue := q1, entry := s.entry + 1, jobs := s.jobs[t := NoJob]);
    if s.wait == [] then s1 else s1.(wait := s.wait[1..], ts := Resume(s.ts, s.wait[0]))
  }

  /** The loop of rt_mq_recv from its test up to the copy, a return or rt_schedule. */
  function TryRecv(s: State, t: nat, want: nat, timeout: int, e: Env): (State, Outcome)
    requires InRange(s.wait, |s.ts|) && |s.jobs| == |s.ts| == |e.prio| && t < |s.ts| && (s.entry > 0 ==> s.queue != [])
  {
    if s.entry > 0 then
      (s.(queue := s.queue[1..], entry := s.entry - 1, jobs := s.jobs[t := Draining(s.queue[0], want, [])]), Busy)
    else if timeout == 0 then (s.(ts := s.ts[t := s.ts[t].(error := ETIMEOUT)]), Returned(ETIMEOUT))
    else
      (s.(wait := Enqueue(s.wait, t, e.prio, e.flag),
          ts := s.ts[t := Thread(EOK, Blocked(want, timeout, if timeout > 0 then e.now else 0))]), Waits)
  }

  function RecvEnter(s: State, t: nat, want: nat, timeout: int, e: Env): (State, Outcome)
    requires InRange(s.wait, |s.ts|) && |s.jobs| == |s.ts| == |e.prio| && t < |s.ts| && (s.entry > 0 ==> s.queue != [])
  {
    if s.entry == 0 && timeout == 0 then (s, Returned(ETIMEOUT)) else TryRecv(s, t, want, timeout, e)
  }

  /** A resumed receiver runs on behind its rt_schedule call. */
  function Rerun(s: State, t: nat, e: Env): (State, Outcome)
    requires InRange(s.wait, |s.ts|) && |s.jobs| == |s.ts| == |e.prio| && t < |s.ts| && (s.entry > 0 ==> s.queue != [])
    requires s.ts[t].phase.Ready?
  {
    var p := s.ts[t].phase;
    var s1 := s.(ts := s.ts[t := s.ts[t].(phase := Idle)]);
    if s.ts[t].error != EOK then (s1, Returned(s.ts[t].error))
    else TryRecv(s1, t, p.call, Remaining(p.timeout, p.start, e.now), e)
  }

  predicate MayDrain(s: State, t: nat, size: nat) {
    && t < |s.jobs| && s.jobs[t].Draining? && |s.jobs[t].got| < Min(s.jobs[t].want, size)
    && s.jobs[t].item.node < |s.data| && |s.data[s.jobs[t].item.node]| == size
  }

  /** One byte of the copy into the receiver's buffer. */
  function DrainByte(s: State, t: nat, size: nat): State
    requires MayDrain(s, t, size)
  {
    var j := s.jobs[t];
    s.(jobs := s.jobs[t := j.(got := j.got + [s.data[j.item.node][|j.got|]])])
  }

  predicate MayGive(s: State, t: nat, size: nat) {
    t < |s.jobs| && s.jobs[t].Draining? && |s.jobs[t].got| == Min(s.jobs[t].want, size)
  }

  /** The last region of rt_mq_recv: the node goes to the free list. */
  function GiveBack(s: State, t: nat, size: nat): (State, Outcome)
    requires MayGive(s, t, size)
  {
    (s.(free := [s.jobs[t].item.node] + s.free, jobs := s.jobs[t := NoJob]), Received(s.jobs[t].got))
  }

  function TimedOut(s: State, t: nat): State {
    s.(wait := Without(s.wait, t), ts := ResumeWith(s.ts, t, ETIMEOUT))
  }

  /** The nodes a reset has moved to the free list, last moved first. */
  function Moved(queue: seq<Item>, free: seq<nat>): seq<nat>
    decreases |queue|
  {
    if queue == [] then free else Moved(queue[1..], [queue[0].node] + free)
  }

  /** rt_mq_control with RT_IPC_CMD_RESET. */
  function Reset(s: State): State {
    s.(queue := [], free := Moved(s.queue, s.free), entry := 0, wait := [], ts := ResumeAll(s.ts, s.wait))
  }

  // ---------------------------------------------------------------- who has which node

  function Held(jobs: seq<Job>): multiset<nat> {
    if jobs == [] then multiset{}
    else Held(jobs[..|jobs| - 1]) + InHand(jobs[|jobs| - 1])
  }

  function InHand(j: Job): multiset<nat> { if j.NoJob? then multiset{} else multiset{j.item.node} }

  function Nodes(queue: seq<Item>): seq<nat> { seq(|queue|, i requires 0 <= i < |queue| => queue[i].node) }

  function AllNodes(n: nat): seq<nat> { seq(n, i => i) }

  /** Every node of the pool is in exactly one place: queued, free, or in one hand. */
  ghost predicate Parts(queue: seq<Item>, free: seq<nat>, jobs: seq<Job>, n: nat) {
    multiset(Nodes(queue)) + multiset(free) + Held(jobs) == multiset(AllNodes(n))
  }

  ghost predicate Partitioned(s: State) { Parts(s.queue, s.free, s.jobs, |s.data|) }

  /** The first k bytes of a node's payload. */
  ghost predicate Holds(data: seq<seq<int>>, item: Item, k: nat) {
    item.node < |data| && k <= |item.bytes| <= |data[item.node]| && data[item.node][..k] == item.bytes[..k]
  }

  ghost predicate GoodJob(data: seq<seq<int>>, j: Job, size: nat) {
    match j
    case NoJob => true
    case Filling(item, _, k) => k <= |item.bytes| && Holds(data, item, k)
    case Draining(item, want, got) =>
      Holds(data, item, |item.bytes|) && |got| <= Min(want, size) && |got| <= |data[item.node]|
          && got == data[item.node][..|got|]
  }

  /** Queued payloads are complete, payloads in hand are as far as the copy is. */
  ghost predicate Intact(s: State, size: nat) {
    && (forall i {:trigger s.queue[i]} :: 0 <= i < |s.queue| ==> Holds(s.data, s.queue[i], |s.queue[i].bytes|))
    && (forall t {:trigger s.jobs[t]} :: 0 <= t < |s.jobs| ==> GoodJob(s.data, s.jobs[t], size))
  }

  ghost predicate Waiting(s: State) {
    && NoDup(s.wait) && |s.jobs| == |s.ts|
    && (forall t {:trigger s.ts[t]} :: 0 <= t < |s.ts| ==>
          && (t in s.wait <==> s.ts[t].phase.Blocked?)
          && (s.ts[t].phase.Blocked? ==> s.ts[t].error == EOK)
          && (!s.ts[t].phase.Idle? ==> s.jobs[t].NoJob?))
  }

  /** A receiver waits only while every message is already promised to a receiver
      that was resumed and has not run yet. */
  ghost predicate Promised(s: State, slack: nat) {
    s.wait != [] ==> s.entry <= |Woken(s.ts, AnyCall)| + slack
  }

  ghost predicate Base(s: State, size: nat) {
    Shaped(s, size) && s.entry == |s.queue| && Partitioned(s) && Intact(s, size) && Waiting(s)
  }

  ghost predicate Inv(s: State, size: nat) {
    Base(s, size) && Promised(s, 0)
  }

  // ---------------------------------------------------------------- lemmas on places

  lemma {:induction false} HeldUpdate(jobs: seq<Job>, t: nat, j: Job)
    requires t < |jobs|
    ensures Held(jobs[t := j]) + InHand(jobs[t]) == Held(jobs) + InHand(j)
  {
    var n := |jobs| - 1;
    var r := jobs[t := j];
    if t < n {
      HeldUpdate(jobs[..n], t, j);
      assert r[..n] == jobs[..n][t := j];
      Regroup(Held(r[..n]), InHand(jobs[n]), InHand(jobs[t]), Held(jobs[..n]), InHand(j));
    } else {
      assert r[..n] == jobs[..n];
      Commute(Held(jobs[..n]), InHand(j), InHand(jobs[t]));
    }
  }

  lemma Regroup(a: multiset<nat>, b: multiset<nat>, c: multiset<nat>, d: multiset<nat>, e: multiset<nat>)
    requires a + c == d + e
    ensures (a + b) + c == (d + b) + e
  {
    forall x
      ensures ((a + b) + c)[x] == ((d + b) + e)[x]
    {
      assert (a + c)[x] == (d + e)[x];
    }
  }

  lemma Commute(a: multiset<nat>, b: multiset<nat>, c: multiset<nat>)
    ensures (a + b) + c == (a + c) + b
  {
  }

  lemma HeldAt(jobs: seq<Job>, t: nat)
    requires t < |jobs|
    ensures InHand(jobs[t]) <= Held(jobs)
  {
    HeldUpdate(jobs, t, NoJob);
    hide Held;
  }

  lemma HeldTwice(jobs: seq<Job>, t: nat, u: nat, x: nat)
    requires t < |jobs| && u < |jobs| && t != u && x in InHand(jobs[t]) && x in InHand(jobs[u])
    ensures Held(jobs)[x] >= 2
  {
    HeldUpdate(jobs, t, NoJob);
    HeldAt(jobs[t := NoJob], u);
    hide Held;
    assert (Held(jobs[t := NoJob]) + InHand(jobs[t]))[x] == (Held(jobs) + InHand(NoJob))[x];
  }

  lemma AllNodesOnce(n: nat, i: nat)
    ensures multiset(AllNodes(n))[i] == if i < n then 1 else 0
    ensures |multiset(AllNodes(n))| == n
  {
    if n > 0 {
      AllNodesOnce(n - 1, i);
      assert AllNodes(n) == AllNodes(n - 1) + [n - 1];
    } else {
      assert AllNodes(0) == [];
    }
  }

  lemma NodesParts(a: seq<Item>, b: seq<Item>)
    ensures multiset(Nodes(a + b)) == multiset(Nodes(a)) + multiset(Nodes(b))
    ensures forall x: Item {:trigger Nodes([x])} :: Nodes([x]) == [x.node]
  {
    assert Nodes(a + b) == Nodes(a) + Nodes(b);
  }

  /** The counts of the four places always add up to max_msgs. */
  lemma CountsAddUp(s: State)
    requires Partitioned(s)
    ensures |s.queue| + |s.free| + |Held(s.jobs)| == |s.data|
  {
    AllNodesOnce(|s.data|, 0);
    assert |multiset(Nodes(s.queue)) + multiset(s.free) + Held(s.jobs)| == |s.queue| + |s.free| + |Held(s.jobs)|;
  }

  /** A node in one hand is nowhere else. */
  lemma HandIsAlone(s: State, t: nat)
    requires Partitioned(s) && t < |s.jobs| && !s.jobs[t].NoJob?
    ensures s.jobs[t].item.node < |s.data|
    ensures forall i {:trigger s.queue[i]} :: 0 <= i < |s.queue| ==> s.queue[i].node != s.jobs[t].item.node
    ensures s.jobs[t].item.node !in s.free
    ensures forall u {:trigger s.jobs[u]} ::
        0 <= u < |s.jobs| && u != t && !s.jobs[u].NoJob? ==> s.jobs[u].item.node != s.jobs[t].item.node
  {
    var x := s.jobs[t].item.node;
    AllNodesOnce(|s.data|, x);
    HeldAt(s.jobs, t);
    forall i | 0 <= i < |s.queue|
      ensures s.queue[i].node != x
    {
      assert Nodes(s.queue)[i] == s.queue[i].node;
    }
    forall u | 0 <= u < |s.jobs| && u != t && !s.jobs[u].NoJob?
      ensures s.jobs[u].item.node != x
    {
      if s.jobs[u].item.node == x { HeldTwice(s.jobs, t, u, x); }
    }
  }

  lemma FreeIsAlone(s: State)
    requires Partitioned(s) && s.free != []
    ensures s.free[0] < |s.data|
  {
    AllNodesOnce(|s.data|, s.free[0]);
    assert s.free[0] in multiset(s.free);
  }

  // ---------------------------------------------------------------- nodes move, none is lost

  /** One node x goes from place a to place b. */
  lemma Move(a: multiset<nat>, b: multiset<nat>, a': multiset<nat>, b': multiset<nat>, c: multiset<nat>, x: nat)
    requires a == a' + multiset{x} && b' == b + multiset{x}
    ensures c + a' + b' == c + a + b && a' + b' + c == a + b + c && b' + c + a' == b + c + a
    ensures b' + a' + c == b + a + c && a' + c + b' == a + c + b
  {
    forall y
      ensures a'[y] + b'[y] == a[y] + b[y]
    {
    }
  }

  lemma SeqHead(f: seq<nat>)
    requires f != []
    ensures multiset(f) == multiset(f[1..]) + multiset{f[0]}
  {
    assert f == [f[0]] + f[1..];
  }

  lemma AllocPlaces(s: State, t: nat, bytes: seq<int>, urgent: bool, size: nat)
    requires Partitioned(s) && t < |s.jobs| && s.jobs[t].NoJob?
    ensures Partitioned(SendEnter(s, t, bytes, urgent, size).0)
  {
    var s' := SendEnter(s, t, bytes, urgent, size).0;
    if s'.jobs != s.jobs {
      SeqHead(s.free);
      HeldUpdate(s.jobs, t, s'.jobs[t]);
      assert Held(s'.jobs) == Held(s.jobs) + multiset{s.free[0]};
      Move(multiset(s.free), Held(s.jobs), multiset(s'.free), Held(s'.jobs), multiset(Nodes(s.queue)), s.free[0]);
    }
  }

  lemma LinkPlaces(s: State, t: nat)
    requires Partitioned(s) && MayLink(s, t)
    ensures Partitioned(Link(s, t))
  {
    var s', x := Link(s, t), s.jobs[t].item;
    HeldUpdate(s.jobs, t, NoJob);
    assert Held(s.jobs) == Held(s'.jobs) + multiset{x.node};
    NodesParts(s.queue, [x]);
    NodesParts([x], s.queue);
    assert multiset(Nodes(s'.queue)) == multiset(Nodes(s.queue)) + multiset{x.node};
    Move(Held(s.jobs), multiset(Nodes(s.queue)), Held(s'.jobs), multiset(Nodes(s'.queue)), multiset(s.free), x.node);
  }

  lemma NodesHead(queue: seq<Item>)
    requires queue != []
    ensures multiset(Nodes(queue)) == multiset(Nodes(queue[1..])) + multiset{queue[0].node}
  {
    assert Nodes(queue)[1..] == Nodes(queue[1..]);
    SeqHead(Nodes(queue));
  }

  lemma UnlinkPlaces(s: State, t: nat, want: nat)
    requires Partitioned(s) && t < |s.jobs| && s.jobs[t].NoJob? && s.queue != []
    ensures Partitioned(s.(queue := s.queue[1..], jobs := s.jobs[t := Draining(s.queue[0], want, [])]))
  {
    var x := s.queue[0];
    var jobs' := s.jobs[t := Draining(x, want, [])];
    HeldUpdate(s.jobs, t, jobs'[t]);
    assert Held(jobs') == Held(s.jobs) + multiset{x.node};
    NodesHead(s.queue);
    Move(multiset(Nodes(s.queue)), Held(s.jobs), multiset(Nodes(s.queue[1..])), Held(jobs'), multiset(s.free), x.node);
  }

  lemma GivePlaces(s: State, t: nat, size: nat)
    requires Partitioned(s) && MayGive(s, t, size)
    ensures Partitioned(GiveBack(s, t, size).0)
  {
    var s', x := GiveBack(s, t, size).0, s.jobs[t].item.node;
    HeldUpdate(s.jobs, t, NoJob);
    assert Held(s.jobs) == Held(s'.jobs) + multiset{x};
    SeqHead(s'.free);
    Move(Held(s.jobs), multiset(s.free), Held(s'.jobs), multiset(s'.free), multiset(Nodes(s.queue)), x);
  }

  /** A thread goes on with the node it has. */
  lemma SameHand(jobs: seq<Job>, t: nat, j: Job)
    requires t < |jobs| && InHand(j) == InHand(jobs[t])
    ensures Held(jobs[t := j]) == Held(jobs)
  {
    HeldUpdate(jobs, t, j);
    forall x
      ensures Held(jobs[t := j])[x] == Held(jobs)[x]
    {
      assert (Held(jobs[t := j]) + InHand(jobs[t]))[x] == (Held(jobs) + InHand(j))[x];
    }
  }

  lemma SameHandPlaces(s: State, t: nat, j: Job)
    requires Partitioned(s) && t < |s.jobs| && InHand(j) == InHand(s.jobs[t])
    ensures Parts(s.queue, s.free, s.jobs[t := j], |s.data|)
  {
    SameHand(s.jobs, t, j);
  }

  lemma {:induction false} MovedPlaces(queue: seq<Item>, free: seq<nat>)
    ensures multiset(Moved(queue, free)) == multiset(Nodes(queue)) + multiset(free)
    decreases |queue|
  {
    if queue == [] {
      assert Nodes(queue) == [];
    } else {
      var x := queue[0];
      MovedPlaces(queue[1..], [x.node] + free);
      NodesHead(queue);
      assert multiset([x.node] + free) == multiset{x.node} + multiset(free);
      Commute(multiset(Nodes(queue[1..])), multiset{x.node}, multiset(free));
    }
  }

  // ---------------------------------------------------------------- payloads stay intact

  lemma FillIntact(s: State, t: nat, size: nat)
    requires Shaped(s, size) && Partitioned(s) && Intact(s, size) && MayFill(s, t)
    ensures Shaped(FillByte(s, t), size) && Intact(FillByte(s, t), size)
  {
    var s', j := FillByte(s, t), s.jobs[t];
    HandIsAlone(s, t);
    forall i | 0 <= i < |s.queue|
      ensures Holds(s'.data, s.queue[i], |s.queue[i].bytes|)
    {
      assert Holds(s.data, s.queue[i], |s.queue[i].bytes|);
    }
    forall u | 0 <= u < |s.jobs|
      ensures GoodJob(s'.data, s'.jobs[u], size)
    {
      assert GoodJob(s.data, s.jobs[u], size);
      if u == t {
        var d, d' := s.data[j.item.node], s'.data[j.item.node];
        assert d'[..j.k + 1] == d[..j.k] + [j.item.bytes[j.k]]
            && j.item.bytes[..j.k + 1] == j.item.bytes[..j.k] + [j.item.bytes[j.k]];
      }
    }
  }

  lemma DrainIntact(s: State, t: nat, size: nat)
    requires Intact(s, size) && MayDrain(s, t, size)
    ensures Intact(DrainByte(s, t, size), size)
  {
    var s', j := DrainByte(s, t, size), s.jobs[t];
    forall u | 0 <= u < |s.jobs|
      ensures GoodJob(s.data, s'.jobs[u], size)
    {
      assert GoodJob(s.data, s.jobs[u], size);
      if u == t {
        assert s.data[j.item.node][..|j.got| + 1] == s.data[j.item.node][..|j.got|] + [s.data[j.item.node][|j.got|]];
      }
    }
  }

  // ---------------------------------------------------------------- steps keep the invariant

  lemma SendEnterKeeps(s: State, t: nat, bytes: seq<int>, urgent: bool, size: nat)
    requires Inv(s, size) && t < |s.ts| && s.ts[t].phase.Idle? && s.jobs[t].NoJob?
    ensures Inv(SendEnter(s, t, bytes, urgent, size).0, size)
  {
    hide Parts;
    AllocPlaces(s, t, bytes, urgent, size);
    if s.free != [] {
      FreeIsAlone(s);
      assert s.data[s.free[0]] == s.data[s.free[0]];
    }
  }

  lemma FillByteKeeps(s: State, t: nat, size: nat)
    requires Inv(s, size) && MayFill(s, t)
    ensures Inv(FillByte(s, t), size)
  {
    hide Intact, Parts;
    FillIntact(s, t, size);
    SameHandPlaces(s, t, FillByte(s, t).jobs[t]);
  }

  lemma LinkKeeps(s: State, t: nat, size: nat)
    requires Inv(s, size) && MayLink(s, t)
    ensures Inv(Link(s, t), size)
  {
    hide Parts;
    var s' := Link(s, t);
    LinkPlaces(s, t);
    assert GoodJob(s.data, s.jobs[t], size);
    assert Intact(s', size);
    if s.wait != [] {
      HeadGone(s.wait);
      assert s.wait[0] in s.wait;
      WokenCount(s.ts, s.wait[0], s'.ts[s.wait[0]], AnyCall);
      AllInRange(s'.wait, s.wait, |s.ts|);
    }
    assert s.ts[t].phase.Idle?;
  }

  lemma TryRecvKeeps(s: State, t: nat, want: nat, timeout: int, e: Env, size: nat)
    requires Base(s, size) && Promised(s, 1) && |e.prio| == |s.ts| && t < |s.ts| && s.ts[t].phase.Idle?
        && s.jobs[t].NoJob?
    ensures Inv(TryRecv(s, t, want, timeout, e).0, size)
  {
    hide Parts;
    var s' := TryRecv(s, t, want, timeout, e).0;
    if s.entry > 0 {
      UnlinkPlaces(s, t, want);
      assert Holds(s.data, s.queue[0], |s.queue[0].bytes|);
      assert Intact(s', size);
    } else {
      WokenCount(s.ts, t, s'.ts[t], AnyCall);
      EnqueueMembers(s.wait, t, e.prio, e.flag);
    }
  }

  lemma RecvEnterKeeps(s: State, t: nat, want: nat, timeout: int, e: Env, size: nat)
    requires Inv(s, size) && |e.prio| == |s.ts| && t < |s.ts| && s.ts[t].phase.Idle? && s.jobs[t].NoJob?
    ensures Inv(TryRecv(s, t, want, timeout, e).0, size) && Inv(RecvEnter(s, t, want, timeout, e).0, size)
  {
    TryRecvKeeps(s, t, want, timeout, e, size);
  }

  lemma RerunKeeps(s: State, t: nat, e: Env, size: nat)
    requires Inv(s, size) && |e.prio| == |s.ts| && t < |s.ts| && s.ts[t].phase.Ready?
    ensures Inv(Rerun(s, t, e).0, size)
  {
    hide Parts;
    var p := s.ts[t].phase;
    var s1 := s.(ts := s.ts[t := s.ts[t].(phase := Idle)]);
    WokenCount(s.ts, t, s1.ts[t], AnyCall);
    if s.ts[t].error == EOK { TryRecvKeeps(s1, t, p.call, Remaining(p.timeout, p.start, e.now), e, size); }
  }

  lemma DrainByteKeeps(s: State, t: nat, size: nat)
    requires Inv(s, size) && MayDrain(s, t, size)
    ensures Inv(DrainByte(s, t, size), size)
  {
    hide Intact, Parts;
    DrainIntact(s, t, size);
    SameHandPlaces(s, t, DrainByte(s, t, size).jobs[t]);
  }

  lemma GiveBackKeeps(s: State, t: nat, size: nat)
    requires Inv(s, size) && MayGive(s, t, size)
    ensures Inv(GiveBack(s, t, size).0, size)
  {
    hide Parts;
    GivePlaces(s, t, size);
  }

  lemma TimedOutKeeps(s: State, t: nat, size: nat)
    requires Inv(s, size) && t < |s.ts| && s.ts[t].phase.Blocked?
    ensures Inv(TimedOut(s, t), size)
  {
    hide Parts;
    var s' := TimedOut(s, t);
    WithoutMembers(s.wait, t);
    AllInRange(s'.wait, s.wait, |s.ts|);
    WokenCount(s.ts, t, s'.ts[t], AnyCall);
    assert s'.ts == s.ts[t := s'.ts[t]];
  }

  lemma ResetPlaces(s: State)
    requires Partitioned(s)
    ensures Partitioned(Reset(s))
  {
    MovedPlaces(s.queue, s.free);
    assert Nodes([]) == [];
  }

  /** A reset frees every queued node, leaves nodes in hand alone, and sends every
      waiting receiver back with -RT_ERROR. */
  lemma ResetKeeps(s: State, size: nat)
    requires Inv(s, size)
    ensures Inv(Reset(s), size) && Reset(s).queue == []
    ensures forall t {:trigger s.ts[t]} ::
        0 <= t < |s.ts| && s.ts[t].phase.Blocked? ==> Reset(s).ts[t].phase.Ready? && Reset(s).ts[t].error == ERROR
  {
    hide Parts, Moved;
    var s' := Reset(s);
    ResetPlaces(s);
    forall t | 0 <= t < |s.ts|
      ensures s'.ts[t] == if t in s.wait
          then Thread(ERROR, Ready(s.ts[t].phase.call, s.ts[t].phase.timeout, s.ts[t].phase.start)) else s.ts[t]
    {
      ResumeAllAt(s.ts, s.wait, t);
    }
  }

  function Initial(data: seq<seq<int>>, threads: nat): State {
    State(data, [], seq(|data|, i requires 0 <= i < |data| => |data| - 1 - i), 0, [],
          seq(threads, _ => Thread(EOK, Idle)), seq(threads, _ => NoJob))
  }

  lemma {:induction false} NobodyHolds(n: nat)
    ensures Held(seq(n, _ => NoJob)) == multiset{}
  {
    if n > 0 {
      NobodyHolds(n - 1);
      assert seq(n, _ => NoJob)[..n - 1] == seq(n - 1, _ => NoJob);
    }
  }

  lemma {:induction false} ReversedNodes(n: nat)
    ensures multiset(seq(n, i requires 0 <= i < n => n - 1 - i)) == multiset(AllNodes(n))
  {
    if n > 0 {
      ReversedNodes(n - 1);
      assert seq(n, i requires 0 <= i < n => n - 1 - i) == [n - 1] + seq(n - 1, i requires 0 <= i < n - 1 => n - 2 - i);
      assert AllNodes(n) == AllNodes(n - 1) + [n - 1];
    }
  }

  lemma InitialKeeps(data: seq<seq<int>>, threads: nat, size: nat)
    requires forall i {:trigger data[i]} :: 0 <= i < |data| ==> |data[i]| == size
    ensures Inv(Initial(data, threads), size)
  {
    NobodyHolds(threads);
    ReversedNodes(|data|);
    assert Nodes([]) == [];
  }
}
