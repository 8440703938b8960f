/**
 * The ARP cache and request queue of the router, and what drives them: forwarding, an ARP reply
 * and the one-second sweep, with the visit of a request and its recursion through the errors.
 */
module ArpSpec {
  import opened Words

  type Ip = Word32
  type Mac = x: int | 0 <= x < 0x1_0000_0000_0000

  /** A frame waiting for its next hop: a datagram taken in for forwarding, or a
      host-unreachable error that the router sends about another frame. */
  datatype Frame = Datagram(id: nat, src: Ip) | IcmpError(about: Frame, src: Ip)

  /** A queued frame with its outgoing interface. */
  datatype Packet = Packet(frame: Frame, iface: nat)

  datatype Hop = Hop(gw: Ip, iface: nat)

  /** The routing table as a function (None: no route or unknown interface) and the
      addresses of the interfaces. */
  datatype Env = Env(route: Ip -> Option<Hop>, address: nat -> Ip)

  datatype Entry = Entry(mac: Mac, ip: Ip, added: int, valid: bool)

  /** `struct sr_arpreq`; `asked` is history: when the request was broadcast. */
  datatype Request = Request(ip: Ip, sent: int, times: nat, packets: seq<Packet>, asked: seq<int>)

  /** What became of the host-unreachable error about a packet that was given up. */
  datatype Fate = NoRouteBack | SentBack(gw: Ip, mac: Mac) | QueuedBack(gw: Ip)

  datatype Stored = Stored(ip: Ip, mac: Mac, at: int)

  /**
   * The router's ARP state. Outputs: the packets sent after a wait, the errors sent at once and the packets
   * forwarded at once, each with its next hop and the address used. History: the packets that forwarding queued; every
   * packet accepted by the queue with its next hop; every packet given up, with its next hop and
   * the fate of the error; the requests given up and when; the replies accepted; the replies stored
   * in the cache; the time of the last sweep.
   */
  datatype State = State(
    cache: seq<Entry>, requests: seq<Request>,
    sent: seq<(Packet, Ip, Mac)>, errors: seq<(Packet, Ip, Mac)>, relayed: seq<(Packet, Ip, Mac)>,
    forwarded: multiset<(Packet, Ip)>, accepted: multiset<(Packet, Ip)>, givenUp: seq<(Packet, Ip, Fate)>,
    dropped: seq<(Request, int)>, replies: set<(Ip, Mac)>, stored: seq<Stored>, swept: Option<int>)

  const CACHE_SIZE: int := 100
  const TIMEOUT: int := 15
  const ATTEMPTS: int := 5

  // ---- The cache -----------------------------------------------------------------------------

  /** `sr_arpcache_lookup`: the last valid entry for the address. */
  function Lookup(cache: seq<Entry>, ip: Ip): Option<Mac> {
    if cache == [] then None else
    var e := cache[|cache| - 1];
    if e.valid && e.ip == ip then Some(e.mac) else Lookup(cache[..|cache| - 1], ip)
  }

  /** The first slot that is not in use, or the size of the cache. */
  function FirstFree(cache: seq<Entry>): (i: nat)
    ensures i <= |cache| && (i < |cache| ==> !cache[i].valid)
  {
    if cache == [] || !cache[0].valid then 0 else 1 + FirstFree(cache[1..])
  }

  function ExpireEntry(e: Entry, now: int): Entry {
    if e.valid && now - e.added > TIMEOUT then e.(valid := false) else e
  }

  function ExpireEntries(cache: seq<Entry>, now: int): (r: seq<Entry>)
    ensures |r| == |cache|
  {
    seq(|cache|, i requires 0 <= i < |cache| => ExpireEntry(cache[i], now))
  }

  // ---- The request queue ---------------------------------------------------------------------

  /** Position of the request for an address, or the length of the queue. */
  function Index(rs: seq<Request>, ip: Ip): (i: nat)
    ensures i <= |rs| && (i < |rs| ==> rs[i].ip == ip)
    ensures forall j :: 0 <= j < i ==> rs[j].ip != ip
  {
    if rs == [] || rs[0].ip == ip then 0 else 1 + Index(rs[1..], ip)
  }

  predicate Pending(st: State, ip: Ip) { Index(st.requests, ip) < |st.requests| }

  function RequestFor(st: State, ip: Ip): Request
    requires Pending(st, ip)
  {
    st.requests[Index(st.requests, ip)]
  }

  /** Changing a request in place moves no other. */
  lemma {:induction false} IndexUpdate(rs: seq<Request>, i: nat, r: Request, ip: Ip)
    requires i < |rs| && r.ip == rs[i].ip
    ensures Index(rs[i := r], ip) == Index(rs, ip)
  {
    if rs[0].ip != ip {
      if i == 0 {
        assert rs[0 := r][1..] == rs[1..];
      } else {
        assert rs[i := r][1..] == rs[1..][i - 1 := r];
        IndexUpdate(rs[1..], i - 1, r, ip);
      }
    }
  }

  /** `sr_arpcache_queuereq`. */
  function Enqueue(st: State, ip: Ip, p: Packet): (r: State)
    ensures Pending(r, ip)
  {
    var i := Index(st.requests, ip);
    if i < |st.requests| then
      var q := st.requests[i].(packets := [p] + st.requests[i].packets);
      IndexUpdate(st.requests, i, q, ip);
      st.(requests := st.requests[i := q], accepted := st.accepted + multiset{(p, ip)})
    else
      st.(requests := [Request(ip, 0, 0, [p], [])] + st.requests, accepted := st.accepted + multiset{(p, ip)})
  }

  /** Unlinking the request for an address. */
  function Unlink(rs: seq<Request>, ip: Ip): seq<Request> {
    if rs == [] then [] else if rs[0].ip == ip then rs[1..] else [rs[0]] + Unlink(rs[1..], ip)
  }

  predicate Due(r: Request, now: int) { now - r.sent > 1 }

  /** The request has been asked often enough and its time is up. */
  predicate Dead(r: Request, now: int) { Due(r, now) && r.times >= ATTEMPTS }

  predicate DeadAt(st: State, ip: Ip, now: int) { Pending(st, ip) && Dead(RequestFor(st, ip), now) }

  /** The part of `handle_arpreq` that broadcasts. */
  function Ask(st: State, ip: Ip, now: int): State
    requires Pending(st, ip)
  {
    var i := Index(st.requests, ip);
    var r := st.requests[i];
    st.(requests := st.requests[i := r.(sent := now, times := r.times + 1, asked := r.asked + [now])])
  }

  /** `handle_arpreq` on a request that is not dead. */
  function AskIfDue(st: State, ip: Ip, now: int): State
    requires Pending(st, ip)
  {
    if Due(RequestFor(st, ip), now) then Ask(st, ip, now) else st
  }

  /** The next hop of the error about `p`, when it has to wait there. */
  function WaitsAt(env: Env, cache: seq<Entry>, p: Packet): Option<Ip> {
    match env.route(p.frame.src)
    case None => None
    case Some(h) => if Lookup(cache, h.gw).Some? then None else Some(h.gw)
  }

  function ErrorAbout(env: Env, p: Packet, h: Hop): Packet {
    Packet(IcmpError(p.frame, env.address(p.iface)), h.iface)
  }

  /** The error about `p` as it is queued, where it has to wait. */
  function QueuedError(env: Env, st: State, p: Packet): (r: State)
    requires WaitsAt(env, st.cache, p).Some?
    ensures Pending(r, WaitsAt(env, st.cache, p).value)
  {
    var h := env.route(p.frame.src).value;
    Enqueue(st, h.gw, ErrorAbout(env, p, h))
  }

  /** The error about `p` when it does not have to wait: it is sent at once, or there is no route. */
  function ErrorNow(env: Env, st: State, p: Packet, hop: Ip): State
    requires WaitsAt(env, st.cache, p).None?
  {
    match env.route(p.frame.src)
    case None => st.(givenUp := st.givenUp + [(p, hop, NoRouteBack)])
    case Some(h) =>
      var mac := Lookup(st.cache, h.gw).value;
      st.(errors := st.errors + [(ErrorAbout(env, p, h), h.gw, mac)],
          givenUp := st.givenUp + [(p, hop, SentBack(h.gw, mac))])
  }

  function NoteQueued(st: State, p: Packet, hop: Ip, gw: Ip): State {
    st.(givenUp := st.givenUp + [(p, hop, QueuedBack(gw))])
  }

  /** `sr_arpreq_destroy` of a request whose packets were all given up. */
  function Retire(st: State, ip: Ip, r: Request, now: int): State {
    st.(requests := Unlink(st.requests, ip), dropped := st.dropped + [(r, now)])
  }

  // ---- The recursion -----------------------------------------------------------------------------

  /** `handle_arpreq` as written, calling itself through the errors it sends; None when `fuel` nested
      calls are not enough. */
  function Handle(env: Env, st: State, ip: Ip, now: int, fuel: nat): Option<State>
    requires Pending(st, ip)
    decreases fuel, 0
  {
    if fuel == 0 then None else
    var r := RequestFor(st, ip);
    if !Dead(r, now) then Some(AskIfDue(st, ip, now)) else
    match HandleAll(env, st, r.packets, ip, now, fuel - 1)
    case None => None
    case Some(st1) => Some(Retire(st1, ip, r, now))
  }

  /** The loop over the waiting packets of a dead request. */
  function HandleAll(env: Env, st: State, ps: seq<Packet>, hop: Ip, now: int, fuel: nat): Option<State>
    decreases fuel, |ps| + 1
  {
    if ps == [] then Some(st) else
    match SendError(env, st, ps[0], hop, now, fuel)
    case None => None
    case Some(st1) => HandleAll(env, st1, ps[1..], hop, now, fuel)
  }

  /** `sr_send_icmp_host_unreachable` for a packet that waited for `hop`. */
  function SendError(env: Env, st: State, p: Packet, hop: Ip, now: int, fuel: nat): Option<State>
    decreases fuel, 1
  {
    var w := WaitsAt(env, st.cache, p);
    if w.None? then Some(ErrorNow(env, st, p, hop)) else
    match Handle(env, QueuedError(env, st, p), w.value, now, fuel)
    case None => None
    case Some(st1) => Some(NoteQueued(st1, p, hop, w.value))
  }

  /** `handle_arpreq`: None when it does not return. More nested calls than requests are never needed. */
  function Visit(env: Env, st: State, ip: Ip, now: int): Option<State>
    requires Pending(st, ip)
  {
    Handle(env, st, ip, now, |st.requests| + 2)
  }

  // ---- The four drivers ------------------------------------------------------------------------

  /** What a call leaves, or that it never returns, or that it goes on with freed memory. */
  datatype Outcome = Done(st: State) | Endless | Dangling

  /** `sr_forward_packet` after the route lookup. */
  function Forward(env: Env, st: State, p: Packet, gw: Ip, now: int): Outcome {
    var m := Lookup(st.cache, gw);
    if m.Some? then Done(st.(relayed := st.relayed + [(p, gw, m.value)])) else
    match Visit(env, Enqueue(st.(forwarded := st.forwarded + multiset{(p, gw)}), gw, p), gw, now)
    case None => Endless
    case Some(st1) => Done(st1)
  }

  function SendAll(ps: seq<Packet>, hop: Ip, mac: Mac): seq<(Packet, Ip, Mac)> {
    seq(|ps|, i requires 0 <= i < |ps| => (ps[i], hop, mac))
  }

  /** `sr_arpcache_insert`, then the loop that sends what was waiting. */
  function Reply(st: State, ip: Ip, mac: Mac, now: int): State {
    var i := FirstFree(st.cache);
    var st1 := if i < |st.cache|
      then st.(cache := st.cache[i := Entry(mac, ip, now, true)], stored := st.stored + [Stored(ip, mac, now)])
      else st;
    var st2 := st1.(replies := st.replies + {(ip, mac)});
    if Pending(st, ip)
    then st2.(requests := Unlink(st.requests, ip), sent := st.sent + SendAll(RequestFor(st, ip).packets, ip, mac))
    else st2
  }

  function Ips(rs: seq<Request>): seq<Ip> { seq(|rs|, i requires 0 <= i < |rs| => rs[i].ip) }

  /** The request for the hop was given up, whatever has been queued for the hop since. */
  predicate Gone(st: State, st': State, ip: Ip, now: int) { DeadAt(st, ip, now) && !DeadAt(st', ip, now) }

  /** The hops whose requests have run out of attempts and of time. */
  function DeadIps(st: State, now: int): set<Ip> {
    set i | 0 <= i < |st.requests| && DeadAt(st, st.requests[i].ip, now) :: st.requests[i].ip
  }

  function Without(ips: seq<Ip>, gone: set<Ip>): (r: seq<Ip>)
    ensures |r| <= |ips|
  {
    if ips == [] then [] else (if ips[0] in gone then [] else [ips[0]]) + Without(ips[1..], gone)
  }

  /** The requests further on in the list that are still there. */
  function Still(st: State, st': State, ips: seq<Ip>, now: int): (r: seq<Ip>)
    ensures |r| <= |ips|
  {
    Without(ips, DeadIps(st, now) - DeadIps(st', now))
  }

  /** `sr_arpcache_sweepreqs`: the next request is noted before each visit, and is what the walk goes
      on with, even when the visit has freed it. */
  function Walk(env: Env, st: State, ips: seq<Ip>, now: int): Outcome
    decreases |ips|
  {
    if ips == [] then Done(st)
    else if !Pending(st, ips[0]) then Dangling
    else
      match Visit(env, st, ips[0], now)
      case None => Endless
      case Some(st1) =>
        if |ips| > 1 && Gone(st, st1, ips[1], now) then Dangling
        else Walk(env, st1, Still(st, st1, ips[1..], now), now)
  }

  function AgeCache(st: State, now: int): State {
    st.(cache := ExpireEntries(st.cache, now), swept := Some(now))
  }

  /** One round of `sr_arpcache_timeout`. */
  function Sweep(env: Env, st: State, now: int): Outcome {
    var st1 := AgeCache(st, now);
    Walk(env, st1, Ips(st1.requests), now)
  }
}
