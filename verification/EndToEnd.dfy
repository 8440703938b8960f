/** From `mywrite` at one end to `myread` at the other: the transport's runs and the reader's together. */
module EndToEnd {
  import opened Words
  import opened StcpEndpoint
  import opened StcpSystem
  import Invariant = StcpInvariant
  import Theorems = StcpTheorems
  import Reading = ReadStream
  import Linked = PacketQueue

  /** Where only the last buffer may be empty, the stream up to the marker is everything. */
  lemma {:induction false} MarkerLast(bufs: seq<seq<Byte>>)
    requires forall i :: 0 <= i < |bufs| - 1 ==> bufs[i] != []
    ensures Reading.UpToEnd(bufs) == Flatten(bufs)
    ensures Reading.Ended(bufs) <==> bufs != [] && bufs[|bufs| - 1] == []
  {
    if |bufs| > 1 {
      MarkerLast(bufs[1..]);
      assert bufs == [bufs[0]] + bufs[1..];
    } else if |bufs| == 1 {
      assert bufs[1..] == [];
      assert Flatten<Byte>([]) == [];
    }
  }

  /** What the reader of `y` may see, from what holds of the connection. */
  lemma {:induction false} MarkerIsFin(x: Host, y: Host)
    requires EofLast(y.e) && Tracks(x, y) && AppSide(x)
    ensures Reading.UpToEnd(y.e.appOut) == Delivered(y) <= x.plan
    ensures Reading.Ended(y.e.appOut) <==> y.e.ctx.finReceived
    ensures y.e.ctx.finReceived ==> Delivered(y) == x.plan
  {
    hide Reading.UpToEnd, Reading.Ended;
    MarkerLast(y.e.appOut);
    assert Flatten<Byte>([]) == [];
  }

  /** What has been queued for the application of `y`: when the transport thread has ended, one more
      empty buffer than the connection left. */
  predicate QueuedFor(y: Host, written: seq<seq<Byte>>) {
    written == y.e.appOut || (y.e.ctx.done && written == y.e.appOut + [[]])
  }

  /** The empty buffer that the ending thread adds changes nothing for the reader. */
  lemma {:induction false} ExtraMarker(y: Host, written: seq<seq<Byte>>)
    requires QueuedFor(y, written) && (y.e.ctx.done ==> Reading.Ended(y.e.appOut))
    ensures Reading.UpToEnd(written) == Reading.UpToEnd(y.e.appOut)
    ensures Reading.Ended(written) <==> Reading.Ended(y.e.appOut)
  {
    Reading.UpToEndPush(y.e.appOut, []);
  }

  lemma {:induction false} DoneIsFin(y: Host)
    requires Core(y)
    ensures y.e.ctx.done ==> y.e.ctx.finReceived
  {
    hide Wrap32, Snd;
  }

  /** The reader's runs on top: its bytes are a prefix, and 0 comes exactly at the end. */
  lemma {:induction false} ReaderSees(x: Host, y: Host, ops: seq<Reading.Op>, size: nat)
    requires Core(y) && EofLast(y.e) && Tracks(x, y) && AppSide(x)
    requires Reading.Legal(Reading.Fresh, ops) && size > 0
    requires QueuedFor(y, Reading.After(Reading.Fresh, ops).written)
    requires Reading.Ready(Reading.After(Reading.Fresh, ops), Reading.Get(size))
    ensures var st := Reading.After(Reading.Fresh, ops);
      st.got <= x.plan && (Reading.Returned(st, size) == 0 <==> y.e.ctx.finReceived && st.got == x.plan)
  {
    hide Reading.Legal, Reading.After, EofLast, Tracks, AppSide, Flatten, Core, QueuedFor, Reading.UpToEnd, Reading.Ended;
    var st := Reading.After(Reading.Fresh, ops);
    MarkerIsFin(x, y);
    DoneIsFin(y);
    ExtraMarker(y, st.written);
    Reading.StreamTheorem(ops, size);
    Reading.RunInv(Reading.Fresh, ops);
    assert st.got <= Reading.UpToEnd(st.written);
  }

  /**
   * In every run of the connection, whatever the interleaving, and however the two applications
   * read: the bytes each has read are a prefix of what the other writes, and its next read returns
   * 0 if and only if the FIN has come and it has read all of that.
   */
  lemma {:induction false} ReadsWhatWasWritten(
    issA: Word32, issB: Word32, scriptA: seq<seq<Byte>>, scriptB: seq<seq<Byte>>, steps: seq<Label>,
    reader: Side, ops: seq<Reading.Op>, size: nat)
    requires Legal(Initial(issA, issB, scriptA, scriptB), steps)
    requires Reading.Legal(Reading.Fresh, ops) && size > 0
    requires var s := After(Initial(issA, issB, scriptA, scriptB), steps);
      QueuedFor(if reader == A then s.a else s.b, Reading.After(Reading.Fresh, ops).written)
    requires Reading.Ready(Reading.After(Reading.Fresh, ops), Reading.Get(size))
    ensures var s := After(Initial(issA, issB, scriptA, scriptB), steps);
      var y, sent := if reader == A then s.a else s.b, Flatten(if reader == A then scriptB else scriptA);
      var st := Reading.After(Reading.Fresh, ops);
      st.got <= sent && (Reading.Returned(st, size) == 0 <==> y.e.ctx.finReceived && st.got == sent)
  {
    hide Wrap32, Legal, After, Reading.Legal, Reading.After, Carries, AckChain, Core, EofLast, Tracks, AppSide, Flatten;
    hide QueuedFor;
    var s0 := Initial(issA, issB, scriptA, scriptB);
    Invariant.InitialInv(issA, issB, scriptA, scriptB);
    Invariant.RunKeepsInv(s0, steps);
    Theorems.PlanFixed(s0, steps);
    var s := After(s0, steps);
    if reader == A {
      ReaderSees(s.b, s.a, ops, size);
    } else {
      ReaderSees(s.a, s.b, ops, size);
    }
  }

  /** The transport takes from the application's queue what the linked queue gives on a partial dequeue. */
  lemma {:induction false} SameDequeue(q: seq<seq<Byte>>, max: nat)
    requires q != []
    ensures var (data, rest) := ReadFront(q, max); Linked.Take(q, max, true) == Linked.Taken(|data|, data, rest)
  {
  }
}
