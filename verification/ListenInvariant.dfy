/** What every operation on the listen queue keeps. */
module ListenInvariant {
  import opened ListenSpec

  // ---- Counting occupied slots -------------------------------------------------------------------

  function One(s: Slot): nat { if Occupied(s) then 1 else 0 }

  lemma {:induction false} CountUpdate(slots: seq<Slot>, k: nat, s: Slot)
    requires k < |slots|
    ensures Count(slots[k := s]) == Count(slots) - One(slots[k]) + One(s)
  {
    if k == 0 {
      assert slots[0 := s][1..] == slots[1..];
    } else {
      assert slots[k := s][1..] == slots[1..][k - 1 := s];
      CountUpdate(slots[1..], k - 1, s);
    }
  }

  lemma {:induction false} CountBound(slots: seq<Slot>)
    ensures Count(slots) <= |slots|
    ensures Count(slots) == |slots| <==> FindFree(slots) == |slots|
  {
    if slots != [] {
      CountBound(slots[1..]);
    }
  }

  lemma {:induction false} CountPositive(slots: seq<Slot>, k: nat)
    requires k < |slots| && Occupied(slots[k])
    ensures Count(slots) > 0
  {
    if k > 0 {
      CountPositive(slots[1..], k - 1);
    }
  }

  // ---- A SYN arrives -------------------------------------------------------------------------------

  /** The counter decides as the slots do: the assertion that a slot is found never fails. */
  lemma {:induction false} SlotIsFound(st: State)
    requires Inv(st)
    ensures st.curLen < |st.slots| <==> FindFree(st.slots) < |st.slots|
    ensures 0 <= st.curLen <= |st.slots|
  {
    CountBound(st.slots);
  }

  /** A SYN is queued exactly when no pending connection has its peer, fewer than the limit are
      pending, and a descriptor is free. */
  lemma {:induction false} QueuesExact(st: State, syn: bool, peer: nat)
    requires Inv(st) && peer != 0
    ensures Queues(st, syn, peer) <==>
      && syn && (forall k :: 0 <= k < |st.slots| && Occupied(st.slots[k]) ==> st.slots[k].peer != peer)
      && Count(st.slots) < |st.slots| && (exists d :: 0 <= d < |st.used| && !st.used[d])
  {
    SlotIsFound(st);
    var k, d := FindPeer(st.slots, peer), FindUnused(st.used);
    hide FindFree, FindUnused, FindPeer, Count, Blocking, Order, Completed;
    if k < |st.slots| {
      assert SlotWell(st, st.slots[k]);
    }
  }

  lemma {:induction false} EnqueueSlots(st: State, syn: bool, peer: nat)
    requires Slots(st) && peer != 0
    ensures Slots(Enqueue(st, syn, peer))
  {
    if Queues(st, syn, peer) {
      var st' := Enqueue(st, syn, peer);
      var k, sd := FindFree(st.slots), FindUnused(st.used);
      hide FindFree, FindUnused, FindPeer;
      var s := Slot(peer, sd, st.queued);
      forall i | 0 <= i < |st.slots| && i != k ensures Apart(st.slots[i], s) && SlotWell(st', st.slots[i]) {
        assert SlotWell(st, st.slots[i]);
      }
      forall i, j | 0 <= i < j < |st.slots| ensures Apart(st'.slots[i], st'.slots[j]) {
        assert Apart(st.slots[i], st.slots[j]);
      }
    }
  }

  lemma {:induction false} EnqueueCompleted(st: State, syn: bool, peer: nat)
    requires Completed(st)
    ensures Completed(Enqueue(st, syn, peer))
  {
    hide FindFree, FindUnused, FindPeer;
  }

  lemma {:induction false} EnqueueBlocking(st: State, syn: bool, peer: nat)
    requires Slots(st) && Completed(st) && Blocking(st)
    ensures Blocking(Enqueue(st, syn, peer))
  {
    if Queues(st, syn, peer) {
      var st' := Enqueue(st, syn, peer);
      var k, sd := FindFree(st.slots), FindUnused(st.used);
      hide FindFree, FindUnused, FindPeer, FindSd;
      forall i | 0 <= i < |st.slots| && i != k && Occupied(st.slots[i]) ensures st.slots[i].sd != sd {
        assert SlotWell(st, st.slots[i]);
      }
      assert k !in st.completed;
      forall x | x in st'.blocking ensures x >= 0 && FindSd(st'.slots, x) < |st'.slots| {
        var j := if x == sd then k else FindSd(st.slots, x);
        assert st'.slots[j].sd == x;
      }
    }
  }

  lemma {:induction false} EnqueueOrder(st: State, syn: bool, peer: nat)
    requires Order(st) && Completed(st)
    ensures Order(Enqueue(st, syn, peer))
  {
    if Queues(st, syn, peer) {
      var k := FindFree(st.slots);
      hide FindFree, FindUnused, FindPeer;
      assert k !in st.completed;
      assert st.queued !in st.finished;
    }
  }

  lemma {:induction false} EnqueueInv(st: State, syn: bool, peer: nat)
    requires Inv(st) && peer != 0
    ensures Inv(Enqueue(st, syn, peer))
  {
    EnqueueSlots(st, syn, peer);
    EnqueueCompleted(st, syn, peer);
    EnqueueBlocking(st, syn, peer);
    EnqueueOrder(st, syn, peer);
    if Queues(st, syn, peer) {
      var k := FindFree(st.slots);
      CountUpdate(st.slots, k, Slot(peer, FindUnused(st.used), st.queued));
      hide FindFree, FindUnused, FindPeer, Count, Slots, Completed, Blocking, Order;
    }
  }

  // ---- A connection completes ------------------------------------------------------------------------

  /** Whoever still blocks is found in the queue, in an occupied slot that has not completed. */
  lemma {:induction false} RequestIsFound(st: State, sd: int)
    requires Inv(st) && sd in st.blocking
    ensures var k := FindSd(st.slots, sd);
      k < |st.slots| && Occupied(st.slots[k]) && k !in st.completed && st.slots[k].id !in st.finished
  {
    hide FindSd, Count;
  }

  lemma {:induction false} CompleteCompleted(st: State, sd: int)
    requires Inv(st) && sd in st.blocking
    ensures Completed(Complete(st, sd))
  {
    RequestIsFound(st, sd);
    hide FindSd, Count, Blocking, Order, Slots;
    var k := FindSd(st.slots, sd);
    assert forall i :: 0 <= i < |st.completed| ==> st.completed[i] != k;
  }

  lemma {:induction false} CompleteOrder(st: State, sd: int)
    requires Inv(st) && sd in st.blocking
    ensures Order(Complete(st, sd))
  {
    RequestIsFound(st, sd);
    var st', k := Complete(st, sd), FindSd(st.slots, sd);
    assert SlotWell(st, st.slots[k]);
    hide FindSd, Count, Blocking, Completed, Slots;
    assert st'.finished[..|st.accepted|] == st.finished[..|st.accepted|];
    assert st'.completed[|st.completed|] == k;
    forall j | 0 <= j < |st'.slots| && Occupied(st'.slots[j]) && st'.slots[j].id in st'.finished
      ensures j in st'.completed
    {
      if st'.slots[j].id in st.finished {
        assert j in st.completed;
      } else {
        SameId(st, j, k);
      }
    }
  }

  lemma {:induction false} SameId(st: State, j: nat, k: nat)
    requires Inv(st) && j < |st.slots| && k < |st.slots| && st.slots[j].id == st.slots[k].id
    requires Occupied(st.slots[j]) && Occupied(st.slots[k])
    ensures j == k
  {
    hide Count, Blocking, Completed, Order;
    assert j < k ==> Apart(st.slots[j], st.slots[k]);
    assert k < j ==> Apart(st.slots[k], st.slots[j]);
  }

  lemma {:induction false} CompleteInv(st: State, sd: int)
    requires Inv(st) && sd in st.blocking
    ensures Inv(Complete(st, sd))
  {
    RequestIsFound(st, sd);
    CompleteBlocking(st, sd);
    CompleteCompleted(st, sd);
    CompleteOrder(st, sd);
    hide FindSd, Count, Blocking, Completed, Order, Slots;
    SlotsSame(st, Complete(st, sd));
  }

  lemma {:induction false} SlotsSame(st: State, st': State)
    requires Slots(st) && st'.slots == st.slots && st'.used == st.used && st'.queued == st.queued
    ensures Slots(st')
  {
    forall k | 0 <= k < |st'.slots| ensures SlotWell(st', st'.slots[k]) {
      assert SlotWell(st, st.slots[k]);
    }
  }

  lemma {:induction false} CompleteBlocking(st: State, sd: int)
    requires Inv(st) && sd in st.blocking
    ensures Blocking(Complete(st, sd))
  {
    RequestIsFound(st, sd);
    var st' := Complete(st, sd);
    var k := FindSd(st.slots, sd);
    hide FindSd, Count, Order, Completed;
    forall i | 0 <= i < |st.slots| && Occupied(st.slots[i])
      ensures st.slots[i].sd in st'.blocking <==> i !in st'.completed
    {
      if i < k {
        assert Apart(st.slots[i], st.slots[k]);
      } else if k < i {
        assert Apart(st.slots[k], st.slots[i]);
      }
    }
  }

  // ---- A connection is accepted ----------------------------------------------------------------------

  lemma {:induction false} AcceptSlots(st: State)
    requires Slots(st) && st.completed != [] && st.completed[0] < |st.slots|
    ensures Slots(Accept(st))
  {
    var st' := Accept(st);
    var k := st.completed[0];
    forall i | 0 <= i < |st.slots| ensures SlotWell(st', st'.slots[i]) {
      assert SlotWell(st, st.slots[i]);
    }
    forall i, j | 0 <= i < j < |st.slots| ensures Apart(st'.slots[i], st'.slots[j]) {
      assert Apart(st.slots[i], st.slots[j]);
    }
  }

  lemma {:induction false} AcceptCompleted(st: State)
    requires Completed(st) && st.completed != []
    ensures Completed(Accept(st))
  {
    var st' := Accept(st);
    forall i | 0 <= i < |st'.completed| ensures st'.completed[i] == st.completed[i + 1] != st.completed[0] {
    }
  }

  lemma {:induction false} AcceptBlocking(st: State)
    requires Slots(st) && Completed(st) && Blocking(st) && st.completed != []
    ensures Blocking(Accept(st))
  {
    var st' := Accept(st);
    var k := st.completed[0];
    hide FindSd;
    assert st.completed == [k] + st'.completed;
    assert k in st.completed;
    forall x | x in st'.blocking ensures x >= 0 && FindSd(st'.slots, x) < |st'.slots| {
      var j := FindSd(st.slots, x);
      assert Occupied(st.slots[j]);
      assert j != k;
      assert st'.slots[j].sd == x;
    }
  }

  lemma {:induction false} AcceptFinished(st: State, k: nat)
    requires Completed(st) && Order(st) && st.completed != []
    requires k < |st.slots| && Occupied(Accept(st).slots[k]) && Accept(st).slots[k].id in st.finished
    ensures k in Accept(st).completed
  {
    assert k != st.completed[0];
    assert st.completed == [st.completed[0]] + st.completed[1..];
  }

  /** The completed entries after the first line up with what has finished. */
  lemma {:induction false} AcceptLines(st: State, i: nat)
    requires Completed(st) && Order(st) && st.completed != [] && i + 1 < |st.completed|
    ensures var st' := Accept(st);
      st'.completed[i] < |st'.slots| && st'.slots[st'.completed[i]].id == st.finished[|st.accepted| + 1 + i]
  {
    hide DistinctNats;
    assert st.completed[0] != st.completed[i + 1];
    assert st.slots[st.completed[i + 1]].id == st.finished[|st.accepted| + (i + 1)];
  }

  lemma {:induction false} AcceptPrefix(st: State)
    requires Completed(st) && Order(st) && st.completed != []
    ensures Accept(st).accepted == st.finished[..|st.accepted| + 1]
  {
    hide DistinctNats;
    var n := |st.accepted|;
    assert st.slots[st.completed[0]].id == st.finished[n + 0];
    assert st.finished[..n + 1] == st.finished[..n] + [st.finished[n]];
  }

  lemma {:induction false} AcceptLined(st: State)
    requires Completed(st) && Order(st) && st.completed != []
    ensures Lined(Accept(st))
  {
    hide DistinctNats, Known, Lined, Completed;
    FirstInRange(st);
    var st' := Accept(st);
    forall i | 0 <= i < |st'.completed| && |st'.accepted| + i < |st'.finished|
      ensures st'.completed[i] < |st'.slots| && st'.slots[st'.completed[i]].id == st'.finished[|st'.accepted| + i]
    {
      AcceptLines(st, i);
    }
    LinedIs(st');
  }

  lemma {:induction false} LinedIs(st: State)
    requires forall i :: 0 <= i < |st.completed| && |st.accepted| + i < |st.finished| ==>
      st.completed[i] < |st.slots| && st.slots[st.completed[i]].id == st.finished[|st.accepted| + i]
    ensures Lined(st)
  {
  }

  lemma {:induction false} AcceptKnown(st: State)
    requires Completed(st) && Order(st) && st.completed != []
    ensures Known(Accept(st))
  {
    var st' := Accept(st);
    forall k | 0 <= k < |st'.slots| && Occupied(st'.slots[k]) && st'.slots[k].id in st'.finished
      ensures k in st'.completed
    {
      AcceptFinished(st, k);
    }
  }

  lemma {:induction false} AcceptOrder(st: State)
    requires Completed(st) && Order(st) && st.completed != []
    ensures Order(Accept(st))
  {
    hide DistinctNats, Known, Lined, Completed;
    FirstInRange(st);
    AcceptPrefix(st);
    AcceptLined(st);
    AcceptKnown(st);
  }

  lemma {:induction false} FirstInRange(st: State)
    requires Completed(st) && st.completed != []
    ensures st.completed[0] < |st.slots|
  {
  }

  lemma {:induction false} AcceptInv(st: State)
    requires Inv(st) && st.completed != []
    ensures Inv(Accept(st))
    ensures st.curLen > 0
  {
    var k := st.completed[0];
    AcceptSlots(st);
    AcceptCompleted(st);
    AcceptBlocking(st);
    AcceptOrder(st);
    CountUpdate(st.slots, k, FREE);
    CountPositive(st.slots, k);
    hide Count, Slots, Blocking, Order;
  }

  // ---- Other sockets -----------------------------------------------------------------------------------

  lemma {:induction false} OpenInv(st: State)
    requires Inv(st)
    ensures Inv(Open(st))
  {
    hide Count, FindUnused, Completed, Order, FindSd;
    var st' := Open(st);
    forall k | 0 <= k < |st'.slots| ensures SlotWell(st', st'.slots[k]) {
      assert SlotWell(st, st.slots[k]);
    }
    SameRest(st, st');
  }

  lemma {:induction false} CloseInv(st: State, sd: nat)
    requires Inv(st) && sd < |st.used| && FindSd(st.slots, sd) == |st.slots|
    ensures Inv(Close(st, sd))
  {
    hide Count, Completed, Order, FindSd;
    var st' := Close(st, sd);
    forall k | 0 <= k < |st'.slots| ensures SlotWell(st', st'.slots[k]) {
      assert SlotWell(st, st.slots[k]);
    }
    SameRest(st, st');
  }

  lemma {:induction false} SameRest(st: State, st': State)
    requires Completed(st) && Blocking(st) && Order(st) && st' == st.(used := st'.used)
    ensures Completed(st') && Blocking(st') && Order(st')
  {
    hide FindSd;
  }

  // ---- Runs ------------------------------------------------------------------------------------------

  datatype Event = Syn(syn: bool, peer: nat) | Completes(sd: int) | Accepts | Opens | Closes(other: nat)

  /** A peer has an address, only a socket that still blocks completes, an accept waits for a
      completed connection, and the application closes only sockets that it was given. */
  predicate Enabled(st: State, e: Event) {
    match e
    case Syn(_, peer) => peer != 0
    case Completes(sd) => sd in st.blocking && FindSd(st.slots, sd) < |st.slots|
    case Accepts => st.completed != [] && st.completed[0] < |st.slots|
    case Opens => true
    case Closes(sd) => sd < |st.used| && FindSd(st.slots, sd) == |st.slots|
  }

  function Do(st: State, e: Event): State
    requires Enabled(st, e)
  {
    match e
    case Syn(syn, peer) => Enqueue(st, syn, peer)
    case Completes(sd) => Complete(st, sd)
    case Accepts => Accept(st)
    case Opens => Open(st)
    case Closes(sd) => Close(st, sd)
  }

  predicate Legal(st: State, run: seq<Event>)
    decreases |run|
  {
    run == [] || (Enabled(st, run[0]) && Legal(Do(st, run[0]), run[1..]))
  }

  function After(st: State, run: seq<Event>): State
    requires Legal(st, run)
    decreases |run|
  {
    if run == [] then st else After(Do(st, run[0]), run[1..])
  }

  /** After `mylisten` with the backlog, whatever descriptors are in use. */
  function Listening(backlog: nat, used: seq<bool>): State {
    State(seq(backlog + 1, _ => FREE), 0, [], used, {}, 0, [], [])
  }

  lemma {:induction false} CountNone(slots: seq<Slot>)
    requires forall k :: 0 <= k < |slots| ==> slots[k] == FREE
    ensures Count(slots) == 0
  {
    if slots != [] {
      CountNone(slots[1..]);
    }
  }

  lemma {:induction false} ListeningInv(backlog: nat, used: seq<bool>)
    ensures Inv(Listening(backlog, used))
  {
    CountNone(Listening(backlog, used).slots);
  }

  lemma {:induction false} RunKeepsInv(st: State, run: seq<Event>)
    requires Inv(st) && Legal(st, run)
    ensures Inv(After(st, run)) && |After(st, run).slots| == |st.slots|
    decreases |run|
  {
    if run != [] {
      match run[0] {
        case Syn(syn, peer) => EnqueueInv(st, syn, peer);
        case Completes(sd) => CompleteInv(st, sd);
        case Accepts => AcceptInv(st);
        case Opens => OpenInv(st);
        case Closes(sd) => CloseInv(st, sd);
      }
      assert |Do(st, run[0]).slots| == |st.slots|;
      hide Inv, Do, Enabled;
      RunKeepsInv(Do(st, run[0]), run[1..]);
    }
  }

  /** In every run the counter is the number of occupied slots, at most backlog + 1; completed
      entries are distinct occupied slots; pending peers and descriptors are distinct. */
  lemma {:induction false} QueueTheorem(backlog: nat, used: seq<bool>, run: seq<Event>)
    requires Legal(Listening(backlog, used), run)
    ensures var st := After(Listening(backlog, used), run);
      && 0 <= st.curLen == Count(st.slots) <= backlog + 1 == |st.slots|
      && Completed(st)
      && (forall i, j :: 0 <= i < j < |st.slots| && Occupied(st.slots[i]) && Occupied(st.slots[j]) ==>
            st.slots[i].peer != st.slots[j].peer && st.slots[i].sd != st.slots[j].sd)
  {
    ListeningInv(backlog, used);
    RunKeepsInv(Listening(backlog, used), run);
    var st := After(Listening(backlog, used), run);
    hide After, Legal, Blocking, Order;
    SlotIsFound(st);
    forall i, j | 0 <= i < j < |st.slots| && Occupied(st.slots[i]) && Occupied(st.slots[j])
      ensures st.slots[i].peer != st.slots[j].peer && st.slots[i].sd != st.slots[j].sd
    {
      assert Apart(st.slots[i], st.slots[j]);
    }
  }

  /** Connections are accepted each at most once, in the order in which they completed. */
  lemma {:induction false} AcceptOrderTheorem(backlog: nat, used: seq<bool>, run: seq<Event>)
    requires Legal(Listening(backlog, used), run)
    ensures var st := After(Listening(backlog, used), run);
      && st.accepted <= st.finished && DistinctNats(st.finished) && DistinctNats(st.accepted)
      && (st.completed != [] ==>
            && st.completed[0] < |st.slots| && |st.accepted| < |st.finished|
            && st.slots[st.completed[0]].id == st.finished[|st.accepted|])
  {
    ListeningInv(backlog, used);
    RunKeepsInv(Listening(backlog, used), run);
    hide After, Legal, Blocking, Slots, Count, Completed;
  }

  /** The three assertions of the code: a SYN below the limit finds a slot, a completing connection
      is in the queue, and an accept finds the counter positive. */
  lemma {:induction false} AssertionsHold(backlog: nat, used: seq<bool>, run: seq<Event>)
    requires Legal(Listening(backlog, used), run)
    ensures var st := After(Listening(backlog, used), run);
      && (st.curLen < |st.slots| ==> FindFree(st.slots) < |st.slots|)
      && (forall sd :: sd in st.blocking ==> FindSd(st.slots, sd) < |st.slots|)
      && (st.completed != [] ==> st.curLen > 0)
  {
    ListeningInv(backlog, used);
    RunKeepsInv(Listening(backlog, used), run);
    var st := After(Listening(backlog, used), run);
    SlotIsFound(st);
    if st.completed != [] {
      AcceptInv(st);
    }
  }
}
