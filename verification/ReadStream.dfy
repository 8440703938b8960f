/** The byte stream and end of file that `myread` shows, over any run of queued buffers and reads. */
module ReadStream {
  import opened Words
  import opened PacketQueue

  /** The queue towards the application and the `eof` flag; history: the buffers queued so far,
      an empty one marking the end of file, and the bytes read so far. */
  datatype Stream = Stream(queue: seq<Buffer>, eof: bool, written: seq<Buffer>, got: Buffer)

  const Fresh: Stream := Stream([], false, [], [])

  datatype Op = Put(buf: Buffer) | Get(size: nat)

  /** A read waits until there is something in the queue, unless the end was seen. */
  predicate Ready(st: Stream, op: Op) { op.Get? && !st.eof ==> st.queue != [] }

  /** The return value of `myread`. */
  function Returned(st: Stream, size: nat): nat
    requires Ready(st, Get(size))
  {
    if st.eof then 0 else Take(st.queue, size, true).len
  }

  function Do(st: Stream, op: Op): Stream
    requires Ready(st, op)
  {
    match op
    case Put(buf) => st.(queue := st.queue + [buf], written := st.written + [buf])
    case Get(size) =>
      if st.eof then st else
      var t := Take(st.queue, size, true);
      Stream(t.rest, t.len == 0, st.written, st.got + t.data)
  }

  /** The bytes before the first end-of-file marker. */
  function UpToEnd(bufs: seq<Buffer>): Buffer {
    if bufs == [] || bufs[0] == [] then [] else bufs[0] + UpToEnd(bufs[1..])
  }

  predicate Ended(bufs: seq<Buffer>) { [] in bufs }

  /** The end has been reached: everything before the marker was read. */
  predicate AtEnd(st: Stream) { Ended(st.written) && st.got == UpToEnd(st.written) }

  predicate Inv(st: Stream) {
    && Flatten(st.written) == st.got + Flatten(st.queue)
    && (if st.eof then AtEnd(st)
        else UpToEnd(st.written) == st.got + UpToEnd(st.queue) && (Ended(st.written) <==> Ended(st.queue)))
  }

  lemma {:induction false} UpToEndPush(bufs: seq<Buffer>, b: Buffer)
    ensures UpToEnd(bufs + [b]) == if Ended(bufs) then UpToEnd(bufs) else UpToEnd(bufs) + b
  {
    if bufs == [] {
      assert [b][1..] == [];
    } else {
      assert (bufs + [b])[0] == bufs[0] && (bufs + [b])[1..] == bufs[1..] + [b];
      if bufs[0] != [] {
        UpToEndPush(bufs[1..], b);
        assert bufs == [bufs[0]] + bufs[1..];
      }
    }
  }

  lemma {:induction false} PutInv(st: Stream, buf: Buffer)
    requires Inv(st)
    ensures Inv(Do(st, Put(buf)))
  {
    FlattenPush(st.written, buf);
    FlattenPush(st.queue, buf);
    UpToEndPush(st.written, buf);
    UpToEndPush(st.queue, buf);
    hide Flatten, UpToEnd;
  }

  lemma {:induction false} TakeFlatten(q: seq<Buffer>, size: nat)
    requires q != []
    ensures var t := Take(q, size, true); Flatten(q) == t.data + Flatten(t.rest)
  {
    var t := Take(q, size, true);
    if |q[0]| > size {
      FlattenCons(q[0][size..], q[1..]);
      hide Flatten;
      assert q[0] == q[0][..size] + q[0][size..];
    }
  }

  lemma {:induction false} TakeUpToEnd(q: seq<Buffer>, size: nat)
    requires q != [] && size > 0
    ensures var t := Take(q, size, true);
      if q[0] == [] then t.len == 0 && t.data == [] && Ended(q) && UpToEnd(q) == []
      else t.len > 0 && UpToEnd(q) == t.data + UpToEnd(t.rest) && (Ended(q) <==> Ended(t.rest))
  {
    var t := Take(q, size, true);
    assert q == [q[0]] + q[1..];
    if |q[0]| > size {
      assert t.rest[1..] == q[1..];
      assert q[0] == q[0][..size] + q[0][size..];
    }
  }

  lemma {:induction false} GetInv(st: Stream, size: nat)
    requires Inv(st) && Ready(st, Get(size)) && size > 0
    ensures Inv(Do(st, Get(size)))
  {
    if !st.eof {
      TakeFlatten(st.queue, size);
      TakeUpToEnd(st.queue, size);
      hide Flatten, UpToEnd, Ended, Take;
    }
  }

  /** A read returns 0 exactly when everything before the first marker has been read. */
  lemma {:induction false} ZeroIsEnd(st: Stream, size: nat)
    requires Inv(st) && Ready(st, Get(size)) && size > 0
    ensures Returned(st, size) == 0 <==> AtEnd(st)
  {
    if !st.eof {
      TakeUpToEnd(st.queue, size);
      hide Flatten, Take;
    }
  }

  /** A read of no bytes keeps the stream right exactly when it finds the end: with data pending it
      sets `eof`, and hides that data from every later read. */
  lemma {:induction false} ReadOfNothing(st: Stream)
    requires Inv(st) && Ready(st, Get(0))
    ensures Inv(Do(st, Get(0))) <==> st.eof || st.queue[0] == []
  {
    if !st.eof {
      TakeFlatten(st.queue, 0);
      if st.queue[0] == [] {
        assert Take(st.queue, 0, true) == Take(st.queue, 1, true);
        GetInv(st, 1);
      } else {
        hide Flatten;
        assert |UpToEnd(st.queue)| >= |st.queue[0]| > 0;
        assert Do(st, Get(0)).got == st.got;
      }
    }
  }

  // ---- Runs ----------------------------------------------------------------------------------------

  /** Every operation is ready, and every read asks for something unless it finds the end. */
  predicate Legal(st: Stream, ops: seq<Op>)
    decreases |ops|
  {
    ops == [] ||
    (&& Ready(st, ops[0]) && (ops[0].Get? ==> ops[0].size > 0 || st.eof || st.queue[0] == [])
     && Legal(Do(st, ops[0]), ops[1..]))
  }

  function After(st: Stream, ops: seq<Op>): Stream
    requires Legal(st, ops)
    decreases |ops|
  {
    if ops == [] then st else After(Do(st, ops[0]), ops[1..])
  }

  lemma {:induction false} RunInv(st: Stream, ops: seq<Op>)
    requires Inv(st) && Legal(st, ops)
    ensures Inv(After(st, ops))
    decreases |ops|
  {
    if ops != [] {
      match ops[0] {
        case Put(buf) => PutInv(st, buf);
        case Get(size) => if size > 0 { GetInv(st, size); } else { ReadOfNothing(st); }
      }
      hide Inv, Do;
      RunInv(Do(st, ops[0]), ops[1..]);
    }
  }

  /** Over every run, the bytes read are a prefix of the bytes written, the queue holding the rest,
      and the next read returns 0 exactly from the first marker on. */
  lemma {:induction false} StreamTheorem(ops: seq<Op>, size: nat)
    requires Legal(Fresh, ops) && Ready(After(Fresh, ops), Get(size)) && size > 0
    ensures var st := After(Fresh, ops);
      && Flatten(st.written) == st.got + Flatten(st.queue)
      && (Returned(st, size) == 0 <==> AtEnd(st))
  {
    RunInv(Fresh, ops);
    hide After, Legal;
    ZeroIsEnd(After(Fresh, ops), size);
  }

  /** Once a read has returned 0, every later read does. */
  lemma {:induction false} EndIsFinal(st: Stream, ops: seq<Op>)
    requires Legal(st, ops) && st.eof
    ensures After(st, ops).eof && After(st, ops).got == st.got
    decreases |ops|
  {
    if ops != [] {
      EndIsFinal(Do(st, ops[0]), ops[1..]);
    }
  }

  // ---- The socket calls ------------------------------------------------------------------------------

  /** The part of a mysocket context that `myread` uses. */
  class Reader {
    const queue: Queue
    var eof: bool
    ghost var written: seq<Buffer>
    ghost var got: Buffer

    ghost predicate Valid()
      reads this, queue, queue.nodes
    {
      queue.Valid()
    }

    ghost function View(): Stream
      reads this, queue, queue.nodes
    {
      Stream(queue.Contents(), eof, written, got)
    }

    constructor ()
      ensures Valid() && View() == Fresh && fresh(queue)
    {
      queue := new Queue();
      eof, written, got := false, [], [];
    }

    /** `stcp_app_send` and `stcp_fin_received`: the transport layer queues data, or the marker. */
    method Pass(buf: Buffer)
      requires Valid()
      modifies this, queue, queue.nodes
      ensures Valid() && View() == Do(old(View()), Put(buf))
    {
      queue.Enqueue(buf);
      written := written + [buf];
    }

    /** `myread`, once it does not have to wait. */
    method Read(size: nat) returns (len: nat, dst: Buffer)
      requires Valid() && (!eof ==> queue.head != null)
      modifies this, queue, queue.nodes
      ensures Valid() && View() == Do(old(View()), Get(size))
      ensures len == Returned(old(View()), size) && View().got == old(got) + dst
      ensures old(eof) ==> len == 0 && dst == []
      ensures !old(eof) ==>
        var front, n := old(queue.Contents())[0], Min(size, |old(queue.Contents())[0]|);
        && len == n && dst == front[..n]
        && queue.Contents() == (if n < |front| then [front[n..]] else []) + old(queue.Contents())[1..]
    {
      if eof { return 0, []; }
      len, dst := queue.Dequeue(size, true);
      got := got + dst;
      if len == 0 {
        eof := true;
      }
    }
  }
}
