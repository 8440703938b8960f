/** The backlog of a listening mysocket, with the descriptor table it takes new sockets from. */
module ListenSpec {
  /** `connect_request_t`: the peer's address, 0 for zeroed memory, and the new socket's descriptor,
      -1 in a free slot. `id` is history: the serial number of the connection. */
  datatype Slot = Slot(peer: nat, sd: int, id: nat)

  const FREE: Slot := Slot(0, -1, 0)

  /**
   * The queue, the descriptors in use and the sockets that still block their application.
   * History: how many connections were queued, and which completed and were accepted, in order.
   */
  datatype State = State(
    slots: seq<Slot>, curLen: int, completed: seq<nat>, used: seq<bool>, blocking: set<int>,
    queued: nat, finished: seq<nat>, accepted: seq<nat>)

  predicate Occupied(s: Slot) { s.sd >= 0 }

  function Count(slots: seq<Slot>): nat {
    if slots == [] then 0 else (if Occupied(slots[0]) then 1 else 0) + Count(slots[1..])
  }

  /** Index of the first slot for a peer, of the first free slot, of the first slot with a
      descriptor, or the number of slots. */
  function FindPeer(slots: seq<Slot>, peer: nat): (k: nat)
    ensures k <= |slots| && (k < |slots| ==> slots[k].peer == peer)
    ensures forall i :: 0 <= i < k ==> slots[i].peer != peer
  {
    if slots == [] || slots[0].peer == peer then 0 else 1 + FindPeer(slots[1..], peer)
  }

  function FindFree(slots: seq<Slot>): (k: nat)
    ensures k <= |slots| && (k < |slots| ==> slots[k].sd < 0)
    ensures forall i :: 0 <= i < k ==> slots[i].sd >= 0
  {
    if slots == [] || slots[0].sd < 0 then 0 else 1 + FindFree(slots[1..])
  }

  function FindSd(slots: seq<Slot>, sd: int): (k: nat)
    ensures k <= |slots| && (k < |slots| ==> slots[k].sd == sd)
    ensures forall i :: 0 <= i < k ==> slots[i].sd != sd
  {
    if slots == [] || slots[0].sd == sd then 0 else 1 + FindSd(slots[1..], sd)
  }

  /** `_mysock_new_mysocket`: the first descriptor not in use, or the size of the table. */
  function FindUnused(used: seq<bool>): (k: nat)
    ensures k <= |used| && (k < |used| ==> !used[k])
    ensures forall i :: 0 <= i < k ==> used[i]
  {
    if used == [] || !used[0] then 0 else 1 + FindUnused(used[1..])
  }

  /** A SYN is queued: it is no retransmission, and there is a slot and a descriptor for it. */
  predicate Queues(st: State, syn: bool, peer: nat) {
    && syn && FindPeer(st.slots, peer) == |st.slots|
    && st.curLen < |st.slots| && FindFree(st.slots) < |st.slots| && FindUnused(st.used) < |st.used|
  }

  /** `_mysock_enqueue_connection`. */
  function Enqueue(st: State, syn: bool, peer: nat): State {
    if !Queues(st, syn, peer) then st else
    var sd := FindUnused(st.used);
    st.(slots := st.slots[FindFree(st.slots) := Slot(peer, sd, st.queued)], curLen := st.curLen + 1,
        used := st.used[sd := true], blocking := st.blocking + {sd}, queued := st.queued + 1)
  }

  /** `stcp_unblock_application` and `_mysock_passive_connection_complete`. */
  function Complete(st: State, sd: int): State
    requires FindSd(st.slots, sd) < |st.slots|
  {
    var k := FindSd(st.slots, sd);
    st.(completed := st.completed + [k], blocking := st.blocking - {sd}, finished := st.finished + [st.slots[k].id])
  }

  /** `_mysock_dequeue_connection`, once a connection has completed. */
  function Accept(st: State): State
    requires st.completed != [] && st.completed[0] < |st.slots|
  {
    var k := st.completed[0];
    st.(slots := st.slots[k := FREE], curLen := st.curLen - 1, completed := st.completed[1..],
        accepted := st.accepted + [st.slots[k].id])
  }

  /** Another socket is opened, or one that is not in this queue is closed. */
  function Open(st: State): State {
    var sd := FindUnused(st.used);
    if sd == |st.used| then st else st.(used := st.used[sd := true])
  }

  function Close(st: State, sd: nat): State
    requires sd < |st.used|
  {
    st.(used := st.used[sd := false])
  }

  // ---- The invariant -----------------------------------------------------------------------------

  predicate SlotWell(st: State, s: Slot) {
    if Occupied(s) then s.peer != 0 && s.sd < |st.used| && st.used[s.sd] && s.id < st.queued else s == FREE
  }

  predicate Apart(a: Slot, b: Slot) {
    Occupied(a) && Occupied(b) ==> a.sd != b.sd && a.peer != b.peer && a.id != b.id
  }

  predicate Slots(st: State) {
    && (forall k :: 0 <= k < |st.slots| ==> SlotWell(st, st.slots[k]))
    && (forall i, j :: 0 <= i < j < |st.slots| ==> Apart(st.slots[i], st.slots[j]))
  }

  predicate Completed(st: State) {
    && (forall i :: 0 <= i < |st.completed| ==> st.completed[i] < |st.slots| && Occupied(st.slots[st.completed[i]]))
    && (forall i, j :: 0 <= i < j < |st.completed| ==> st.completed[i] != st.completed[j])
  }

  /** A slot that is occupied blocks its application until it completes. */
  predicate Blocking(st: State) {
    && (forall k :: 0 <= k < |st.slots| && Occupied(st.slots[k]) ==>
          (st.slots[k].sd in st.blocking <==> k !in st.completed))
    && (forall sd :: sd in st.blocking ==> sd >= 0 && FindSd(st.slots, sd) < |st.slots|)
  }

  predicate DistinctNats(s: seq<nat>) { forall i, j :: 0 <= i < j < |s| ==> s[i] != s[j] }

  /** Accepted are the first that completed, and the completed queue holds the rest, in order. */
  predicate Order(st: State) {
    && |st.finished| == |st.accepted| + |st.completed| && st.accepted == st.finished[..|st.accepted|]
    && DistinctNats(st.finished) && (forall i :: 0 <= i < |st.finished| ==> st.finished[i] < st.queued)
    && Lined(st) && Known(st)
  }

  predicate Lined(st: State) {
    forall i :: 0 <= i < |st.completed| && |st.accepted| + i < |st.finished| ==>
      st.completed[i] < |st.slots| && st.slots[st.completed[i]].id == st.finished[|st.accepted| + i]
  }

  predicate Known(st: State) {
    forall k :: 0 <= k < |st.slots| && Occupied(st.slots[k]) && st.slots[k].id in st.finished ==> k in st.completed
  }

  predicate Inv(st: State) {
    && Slots(st) && Completed(st) && Blocking(st) && Order(st) && st.curLen == Count(st.slots)
  }
}
