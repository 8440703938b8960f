/** `listen_queue_t` as the code updates it: the slot array and the descriptor table in place. */
module ListenQueue {
  import opened ListenSpec
  import Proofs = ListenInvariant

  lemma {:induction false} PeerAt(slots: seq<Slot>, k: nat, peer: nat)
    requires k <= |slots| && (forall i :: 0 <= i < k ==> slots[i].peer != peer) && (k < |slots| ==> slots[k].peer == peer)
    ensures FindPeer(slots, peer) == k
  {
  }

  lemma {:induction false} FreeAt(slots: seq<Slot>, k: nat)
    requires k <= |slots| && (forall i :: 0 <= i < k ==> slots[i].sd >= 0) && (k < |slots| ==> slots[k].sd < 0)
    ensures FindFree(slots) == k
  {
  }

  lemma {:induction false} SdAt(slots: seq<Slot>, k: nat, sd: int)
    requires k <= |slots| && (forall i :: 0 <= i < k ==> slots[i].sd != sd) && (k < |slots| ==> slots[k].sd == sd)
    ensures FindSd(slots, sd) == k
  {
  }

  lemma {:induction false} UnusedAt(used: seq<bool>, k: nat)
    requires k <= |used| && (forall i :: 0 <= i < k ==> used[i]) && (k < |used| ==> !used[k])
    ensures FindUnused(used) == k
  {
  }

  /** `Enqueue`, with the new socket's descriptor and slot named. */
  function Established(st: State, k: nat, sd: nat, peer: nat): State
    requires k < |st.slots| && sd < |st.used|
  {
    st.(slots := st.slots[k := Slot(peer, sd, st.queued)], curLen := st.curLen + 1,
        used := st.used[sd := true], blocking := st.blocking + {sd}, queued := st.queued + 1)
  }

  lemma {:induction false} EnqueueCases(st: State, syn: bool, peer: nat)
    ensures !Queues(st, syn, peer) ==> Enqueue(st, syn, peer) == st
    ensures Queues(st, syn, peer) ==>
      Enqueue(st, syn, peer) == Established(st, FindFree(st.slots), FindUnused(st.used), peer)
  {
  }

  class ListenQueue {
    const slots: array<Slot>
    const table: array<bool>
    /** The counter, the completed list and the blocked sockets; its `slots` and `used` are not read. */
    var rest: State

    ghost function View(): State
      reads this, slots, table
    {
      rest.(slots := slots[..], used := table[..])
    }

    /** `_mysock_set_backlog` on a new listening socket. */
    constructor (backlog: nat, table: array<bool>)
      ensures this.table == table && fresh(slots) && Inv(View())
      ensures View() == Proofs.Listening(backlog, table[..])
    {
      slots := new Slot[backlog + 1](_ => FREE);
      this.table := table;
      rest := State([], 0, [], [], {}, 0, [], []);
      new;
      assert slots[..] == seq(backlog + 1, _ => FREE);
      Proofs.ListeningInv(backlog, table[..]);
    }

    /** `_mysock_new_mysocket`: -1 when the table is full. */
    method NewMysocket() returns (sd: int)
      modifies table
      ensures var k := FindUnused(old(table[..]));
        if k == table.Length then sd == -1 && table[..] == old(table[..])
        else sd == k && table[..] == old(table[..])[k := true]
    {
      for k := 0 to table.Length
        invariant table[..] == old(table[..]) && forall i :: 0 <= i < k ==> table[i]
      {
        if !table[k] {
          UnusedAt(table[..], k);
          table[k] := true;
          return k;
        }
      }
      UnusedAt(table[..], table.Length);
      return -1;
    }

    /** The loops over the slots for a peer, for a free slot and for a descriptor. */
    method SlotOfPeer(peer: nat) returns (k: nat)
      ensures k == FindPeer(slots[..], peer)
    {
      k := 0;
      while k < slots.Length && slots[k].peer != peer
        invariant 0 <= k <= slots.Length && forall i :: 0 <= i < k ==> slots[i].peer != peer
      {
        k := k + 1;
      }
      PeerAt(slots[..], k, peer);
    }

    method FreeSlot() returns (k: nat)
      ensures k == FindFree(slots[..])
    {
      k := 0;
      while k < slots.Length && slots[k].sd >= 0
        invariant 0 <= k <= slots.Length && forall i :: 0 <= i < k ==> slots[i].sd >= 0
      {
        k := k + 1;
      }
      FreeAt(slots[..], k);
    }

    method SlotOfSd(sd: int) returns (k: nat)
      ensures k == FindSd(slots[..], sd)
    {
      k := 0;
      while k < slots.Length && slots[k].sd != sd
        invariant 0 <= k <= slots.Length && forall i :: 0 <= i < k ==> slots[i].sd != sd
      {
        k := k + 1;
      }
      SdAt(slots[..], k, sd);
    }

    /** A free slot was found: the new socket is made, or there is none. */
    method Establish(k: nat, peer: nat) returns (ok: bool)
      requires k < slots.Length
      modifies this, slots, table
      ensures ok == (FindUnused(old(table[..])) < table.Length)
      ensures !ok ==> View() == old(View())
      ensures ok ==> View() == Established(old(View()), k, FindUnused(old(table[..])), peer)
    {
      hide FindUnused;
      rest := rest.(curLen := rest.curLen + 1);
      var sd := NewMysocket();
      if sd < 0 {
        rest := rest.(curLen := rest.curLen - 1);
        return false;
      }
      slots[k] := Slot(peer, sd, rest.queued);
      rest := rest.(blocking := rest.blocking + {sd}, queued := rest.queued + 1);
      return true;
    }

    /** `_mysock_enqueue_connection`. */
    method EnqueueConnection(syn: bool, peer: nat) returns (ok: bool)
      requires Inv(View()) && peer != 0
      modifies this, slots, table
      ensures Inv(View()) && View() == Enqueue(old(View()), syn, peer) && ok == Queues(old(View()), syn, peer)
    {
      ghost var st := View();
      Proofs.SlotIsFound(st);
      Proofs.EnqueueInv(st, syn, peer);
      EnqueueCases(st, syn, peer);
      hide Inv, FindPeer, FindFree, FindUnused, Enqueue, Established;
      if !syn { return false; }
      var k := SlotOfPeer(peer);
      if k < slots.Length || rest.curLen >= slots.Length { return false; }
      k := FreeSlot();
      assert k < slots.Length;
      ok := Establish(k, peer);
    }

    /** `stcp_unblock_application` on a passive socket. */
    method ConnectionComplete(sd: int)
      requires Inv(View()) && sd in rest.blocking
      modifies this
      ensures Inv(View())
      ensures FindSd(old(View()).slots, sd) < |old(View()).slots| && View() == Complete(old(View()), sd)
    {
      ghost var st := View();
      Proofs.RequestIsFound(st, sd);
      Proofs.CompleteInv(st, sd);
      hide Inv;
      var k := SlotOfSd(sd);
      hide FindSd;
      assert k < slots.Length;
      rest := rest.(
        completed := rest.completed + [k], blocking := rest.blocking - {sd}, finished := rest.finished + [slots[k].id]);
    }

    /** `_mysock_dequeue_connection`, once a connection has completed. */
    method DequeueConnection() returns (sd: int)
      requires Inv(View()) && rest.completed != []
      modifies this, slots
      ensures Inv(View()) && old(Enabled()) && View() == Accept(old(View()))
      ensures 0 <= sd < table.Length && table[sd] && sd == old(slots[rest.completed[0]].sd)
    {
      ghost var st := View();
      Proofs.AcceptInv(st);
      var k := rest.completed[0];
      assert SlotWell(st, st.slots[k]);
      hide Inv;
      rest := rest.(completed := rest.completed[1..]);
      sd := slots[k].sd;
      rest := rest.(accepted := rest.accepted + [slots[k].id]);
      slots[k] := FREE;
      assert rest.curLen > 0;
      rest := rest.(curLen := rest.curLen - 1);
      assert slots[..] == st.slots[k := FREE];
    }

    ghost predicate Enabled()
      reads this, slots, table
    {
      rest.completed != [] && rest.completed[0] < slots.Length
    }
  }
}
