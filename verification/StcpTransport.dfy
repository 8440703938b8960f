/** transport.c and the event interface of stcp_api.c as the code runs them. */
module StcpTransport {
  import opened Words
  import opened StcpEndpoint

  class Transport {
    // the context_t record, updated field by field
    var ctx: Context
    // mysock_context_t
    var closeRequested: bool
    var networkRecvQueue: seq<Packet>
    var appSendQueue: seq<seq<Byte>>
    var appRecvQueue: seq<seq<Byte>>
    // packets handed to the network, and where the transport thread is
    var network: seq<Packet>
    var location: Location

    ghost function View(): Endpoint reads this {
      Endpoint(location, ctx, appRecvQueue, closeRequested, appSendQueue)
    }

    constructor (isActive: bool, iss: Word32)
      ensures View() == NewEndpoint(isActive, iss) && networkRecvQueue == [] && network == []
    {
      ctx := Context(false, CLOSED, iss, iss, 0, false, false, false, WINDOW, 0, 0, WINDOW, iss, iss);
      closeRequested, networkRecvQueue, appSendQueue, appRecvQueue := false, [], [], [];
      network := [];
      location := if isActive then Fresh else AwaitSyn;
    }

    method SendPacket(data: seq<Byte>, flags: Flags)
      requires |data| <= MSS
      modifies this`network
      ensures network == old(network) + [MakeSegment(ctx, data, flags)]
    {
      var availableWindow := Wrap16(ctx.recvWindow - ctx.recvUsed);
      network := network + [Segment(ctx.seqNum, ctx.ackNum, flags, availableWindow, data)];
    }

    // ---- transport_init ----

    method SendSyn()
      requires location == Fresh
      modifies this
      ensures networkRecvQueue == old(networkRecvQueue)
      ensures Reply(View(), network) == Reply(OpenActive(old(View())).e, old(network) + OpenActive(old(View())).out)
    {
      ctx := ctx.(state := SYN_SENT);
      SendPacket([], SYN);
      ctx := ctx.(seqNum := Wrap32(ctx.seqNum + 1));
      location := AwaitSynAck;
    }

    method AwaitPacket() returns (p: Packet)
      requires networkRecvQueue != []
      modifies this`networkRecvQueue
      ensures p == old(networkRecvQueue)[0] && networkRecvQueue == old(networkRecvQueue)[1..]
    {
      p := networkRecvQueue[0];
      networkRecvQueue := networkRecvQueue[1..];
    }

    /** The three waits of the handshake, each resumed by the first packet to arrive. */
    method ReceiveSynAck()
      requires location == AwaitSynAck && networkRecvQueue != []
      modifies this
      ensures networkRecvQueue == old(networkRecvQueue)[1..]
      ensures var r := OnSynAck(old(View()), old(networkRecvQueue)[0]); View() == r.e && network == old(network) + r.out
    {
      var p := AwaitPacket();
      if p.Segment? && p.flags.syn && p.flags.ack && p.ackno == ctx.seqNum {
        ctx := ctx.(ackNum := Wrap32(p.seqno + 1));
        ctx := ctx.(peerWindow := p.win);
        ctx := ctx.(nextExpected := Wrap32(p.seqno + 1));
        SendPacket([], ACK);
        ctx := ctx.(state := ESTABLISHED);
        location := Running;
      } else {
        location := Refused;
      }
    }

    method ReceiveSyn()
      requires location == AwaitSyn && networkRecvQueue != []
      modifies this
      ensures networkRecvQueue == old(networkRecvQueue)[1..]
      ensures var r := OnSyn(old(View()), old(networkRecvQueue)[0]); View() == r.e && network == old(network) + r.out
    {
      var p := AwaitPacket();
      if p.Segment? && p.flags.syn {
        ctx := ctx.(ackNum := Wrap32(p.seqno + 1));
        ctx := ctx.(state := SYN_RCVD);
        ctx := ctx.(nextExpected := Wrap32(p.seqno + 1));
        ctx := ctx.(peerWindow := p.win);
        SendPacket([], SYN_ACK);
        ctx := ctx.(seqNum := Wrap32(ctx.seqNum + 1));
        location := AwaitAck;
      } else {
        location := Refused;
      }
    }

    method ReceiveHandshakeAck()
      requires location == AwaitAck && networkRecvQueue != []
      modifies this
      ensures networkRecvQueue == old(networkRecvQueue)[1..]
      ensures var r := OnHandshakeAck(old(View()), old(networkRecvQueue)[0]); View() == r.e && network == old(network) + r.out
    {
      var p := AwaitPacket();
      if p.Segment? && p.flags.ack && p.ackno == ctx.seqNum {
        ctx := ctx.(peerWindow := p.win);
        ctx := ctx.(state := ESTABLISHED);
        location := Running;
      } else {
        location := Refused;
      }
    }

    // ---- control_loop ----

    /** `stcp_wait_for_event` with ANY_EVENT; the close event is reported once, and only when
        no application data is queued. */
    method WaitForEvent() returns (appData: bool, networkData: bool, close: bool)
      requires Ready(View(), networkRecvQueue)
      modifies this`closeRequested
      ensures appData == (appRecvQueue != []) && networkData == (networkRecvQueue != [])
      ensures close == (old(closeRequested) && appRecvQueue == [])
      ensures closeRequested == (old(closeRequested) && !close)
      ensures appData || networkData || close
    {
      appData := appRecvQueue != [];
      networkData := networkRecvQueue != [];
      close := closeRequested && appRecvQueue == [];
      if close {
        closeRequested := false;
      }
    }

    method HandleAppData()
      requires appRecvQueue != []
      modifies this`appRecvQueue, this`ctx, this`network
      ensures var r := OnAppData(old(View())); View() == r.e && network == old(network) + r.out
      ensures exists out :: network == old(network) + out && Takes(old(View()), Reply(View(), out))
    {
      AppDataTakes(View());
      var maxToSend: nat := Wrap32(ctx.peerWindow - Wrap32(ctx.lastSent - ctx.lastAck));
      if maxToSend > MSS {
        maxToSend := MSS;
      }
      if maxToSend > 0 {
        var (appBuf, rest) := ReadFront(appRecvQueue, maxToSend);
        appRecvQueue := rest;
        if |appBuf| > 0 {
          SendPacket(appBuf, ACK);
          ctx := ctx.(seqNum := Wrap32(ctx.seqNum + |appBuf|));
        }
      }
    }

    method HandleFin(p: Packet)
      requires p.Segment?
      modifies this
      ensures networkRecvQueue == old(networkRecvQueue)
      ensures var r := OnFin(old(View()), p); View() == r.e && network == old(network) + r.out
    {
      if p.flags.fin {
        ctx := ctx.(finReceived := true);
        ctx := ctx.(ackNum := Wrap32(p.seqno + 1));
        SendPacket([], ACK);
        appSendQueue := appSendQueue + [[]]; // stcp_fin_received
        if ctx.state == ESTABLISHED {
          ctx := ctx.(state := CLOSE_WAIT);
        } else if ctx.state == FIN_WAIT_1 {
          ctx := ctx.(state := CLOSING);
        } else if ctx.state == FIN_WAIT_2 {
          ctx := ctx.(done := true);
        }
      }
    }

    method HandleAck(p: Packet)
      requires p.Segment?
      modifies this`ctx
      ensures View() == old(View()).(ctx := OnAck(old(View()).ctx, p))
    {
      if p.flags.ack {
        if ctx.state == FIN_WAIT_1 && p.ackno == ctx.seqNum {
          ctx := ctx.(finAcked := true);
          ctx := ctx.(state := FIN_WAIT_2);
        } else if ctx.state == CLOSING && p.ackno == ctx.seqNum {
          ctx := ctx.(finAcked := true);
          ctx := ctx.(done := true);
        } else if ctx.state == LAST_ACK && p.ackno == ctx.seqNum {
          ctx := ctx.(finAcked := true);
          ctx := ctx.(state := CLOSED);
          ctx := ctx.(done := true);
        }
      }
    }

    method HandleData(p: Packet)
      requires p.Segment?
      modifies this`ctx, this`appSendQueue, this`network
      ensures var r := OnData(old(View()), p); View() == r.e && network == old(network) + r.out
    {
      var dataLen := |p.data|;
      if dataLen > 0 && p.seqno == ctx.ackNum {
        ctx := ctx.(recvUsed := Wrap16(ctx.recvUsed + dataLen));
        if p.seqno == ctx.nextExpected {
          ctx := ctx.(nextExpected := Wrap32(p.seqno + dataLen));
          appSendQueue := appSendQueue + [p.data]; // stcp_app_send
          ctx := ctx.(recvUsed := Wrap16(ctx.recvUsed - dataLen));
        }
        ctx := ctx.(ackNum := Wrap32(ctx.ackNum + dataLen));
        SendPacket([], ACK);
      } else if dataLen > 0 {
        SendPacket([], ACK);
      }
    }

    /** The NETWORK_DATA branch; `skip` is its `continue`. */
    method HandleNetworkData() returns (skip: bool)
      requires networkRecvQueue != []
      modifies this
      ensures networkRecvQueue == old(networkRecvQueue)[1..] && skip == old(networkRecvQueue)[0].Hangup?
      ensures closeRequested == old(closeRequested)
      ensures var r := OnNetwork(old(View()), old(networkRecvQueue)[0]); View() == r.e && network == old(network) + r.out
    {
      var p := AwaitPacket();
      if p.Hangup? {
        if ctx.state == ESTABLISHED {
          ctx := ctx.(state := CLOSED);
          ctx := ctx.(done := true);
        }
        return true;
      }
      ctx := ctx.(peerWindow := p.win);
      HandleFin(p);
      HandleAck(p);
      HandleData(p);
      skip := false;
    }

    method HandleClose()
      modifies this`ctx, this`network
      requires !closeRequested
      ensures var r := OnClose(old(View())); View() == r.e && network == old(network) + r.out
    {
      if !ctx.finSent {
        ctx := ctx.(finSent := true);
        SendPacket([], FIN_ACK);
        ctx := ctx.(seqNum := Wrap32(ctx.seqNum + 1));
        if ctx.state == ESTABLISHED {
          ctx := ctx.(state := FIN_WAIT_1);
        } else if ctx.state == CLOSE_WAIT {
          ctx := ctx.(state := LAST_ACK);
        }
      }
    }

    /** One pass of the loop. */
    method ControlLoopPass()
      requires location == Running && !ctx.done && Ready(View(), networkRecvQueue)
      modifies this
      ensures networkRecvQueue == if old(networkRecvQueue) == [] then [] else old(networkRecvQueue)[1..]
      ensures var r := Pass(old(View()), old(networkRecvQueue)); View() == r.e && network == old(network) + r.out
    {
      hide OnAppData, OnNetwork, OnClose, Takes;
      var appData, networkData, close := WaitForEvent();
      if appData {
        HandleAppData();
      }
      if networkData {
        var skip := HandleNetworkData();
        if skip {
          return;
        }
      }
      if close {
        HandleClose();
      }
    }

    /** `control_loop`: it ends when the connection is done. */
    method ControlLoop(events: seq<Event>) returns (n: nat)
      requires location == Running
      requires forall i, j :: 0 <= i < j < |events| && events[i].Closed? ==> !events[j].Written?
      requires closeRequested ==> forall i :: 0 <= i < |events| ==> !events[i].Written?
      modifies this
      ensures n <= |events| && (n < |events| ==> ctx.done)
      ensures Thread(View(), networkRecvQueue, network) ==
        ReactAll(Thread(old(View()), old(networkRecvQueue), old(network)), events[..n])
      ensures forall m :: 0 <= m < n ==>
        !ReactAll(Thread(old(View()), old(networkRecvQueue), old(network)), events[..m]).e.ctx.done
    {
      hide Pass;
      ghost var t0 := Thread(View(), networkRecvQueue, network);
      n := 0;
      while n < |events| && !ctx.done
        invariant 0 <= n <= |events| && location == Running
        invariant closeRequested ==> forall i :: n <= i < |events| ==> !events[i].Written?
        invariant Thread(View(), networkRecvQueue, network) == ReactAll(t0, events[..n])
        invariant forall m :: 0 <= m < n ==> !ReactAll(t0, events[..m]).e.ctx.done
        decreases |events| - n
      {
        assert events[..n + 1][..n] == events[..n];
        match events[n] {
          case Incoming(ps) => networkRecvQueue := networkRecvQueue + ps;
          case Written(buf) => Write(buf);
          case Closed => Close();
          case Wake =>
            if appRecvQueue != [] || networkRecvQueue != [] || closeRequested {
              PassKeeps(View(), networkRecvQueue);
              ControlLoopPass();
            }
        }
        n := n + 1;
      }
    }

    // ---- the application's side: mysock_api.c ----

    method Write(buf: seq<Byte>)
      requires !closeRequested
      modifies this`appRecvQueue
      ensures View() == old(View()).(appIn := old(View()).appIn + [buf])
    {
      appRecvQueue := appRecvQueue + [buf];
    }

    method Close()
      modifies this`closeRequested
      ensures View() == old(View()).(closeRequested := true)
    {
      closeRequested := true;
    }
  }
}
