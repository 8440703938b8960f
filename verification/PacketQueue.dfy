/** The linked packet queue of a mysocket, and what the application reads from it. */
module PacketQueue {
  import opened Words

  type Buffer = seq<Byte>

  // ---- One dequeue, on the contents ------------------------------------------------------------------

  datatype Taken = Taken(len: nat, data: Buffer, rest: seq<Buffer>)

  /** `_mysock_dequeue_buffer` on a queue that is not empty. */
  function Take(q: seq<Buffer>, max: nat, partial: bool): Taken
    requires q != []
  {
    if |q[0]| > max && partial then Taken(max, q[0][..max], [q[0][max..]] + q[1..])
    else Taken(|q[0]|, q[0][..Min(max, |q[0]|)], q[1..])
  }

  // ---- The linked list -------------------------------------------------------------------------------

  class Node {
    var data: Buffer
    var next: Node?

    constructor (data: Buffer)
      ensures this.data == data && next == null
    {
      this.data := data;
      next := null;
    }
  }

  class Queue {
    var head: Node?
    var tail: Node?
    ghost var nodes: seq<Node>

    /** The list from the head runs through `nodes`, and ends at the tail. */
    ghost predicate Valid()
      reads this, nodes
    {
      && (nodes == [] ==> head == null && tail == null)
      && (nodes != [] ==> head == nodes[0] && tail == nodes[|nodes| - 1] && nodes[|nodes| - 1].next == null)
      && (forall i :: 0 <= i < |nodes| - 1 ==> nodes[i].next == nodes[i + 1])
      && (forall i, j :: 0 <= i < j < |nodes| ==> nodes[i] != nodes[j])
    }

    ghost function Contents(): seq<Buffer>
      reads this, nodes
    {
      seq(|nodes|, i requires 0 <= i < |nodes| reads this, nodes => nodes[i].data)
    }

    constructor ()
      ensures Valid() && Contents() == [] && nodes == []
    {
      head, tail, nodes := null, null, [];
    }

    /** `_mysock_enqueue_buffer`. */
    method Enqueue(packet: Buffer)
      requires Valid()
      modifies this, nodes
      ensures Valid() && Contents() == old(Contents()) + [packet]
      ensures fresh(set n | n in nodes && n !in old(nodes))
    {
      var node := new Node(packet);
      if head == null {
        assert tail == null;
        head, tail := node, node;
      } else {
        assert tail != null && tail.next == null && node.next == null;
        tail.next := node;
        tail := node;
      }
      nodes := nodes + [node];
    }

    /** `_mysock_dequeue_buffer`, once the queue is not empty. */
    method Dequeue(max: nat, partial: bool) returns (len: nat, dst: Buffer)
      requires Valid() && head != null
      modifies this, nodes
      ensures Valid() && Take(old(Contents()), max, partial) == Taken(len, dst, Contents())
      ensures var front, n := old(Contents())[0], Min(max, |old(Contents())[0]|);
        && dst == front[..n] && len == (if partial then n else |front|)
        && Contents() == (if partial && n < |front| then [front[n..]] else []) + old(Contents())[1..]
      ensures forall n :: n in nodes ==> n in old(nodes)
    {
      var node := head;
      if |node.data| > max && partial {
        dst := node.data[..max];
        node.data := node.data[max..];
        len := max;
        assert Contents() == [node.data] + old(Contents())[1..];
      } else {
        assert |nodes| > 1 ==> nodes[0].next == nodes[1];
        head := head.next;
        if head == null {
          assert tail == node;
          tail := null;
        }
        nodes := nodes[1..];
        dst := node.data[..Min(max, |node.data|)];
        len := |node.data|;
        assert Contents() == old(Contents())[1..];
      }
    }
  }
}
