/**
 * When the recursion behind a visit returns: a depth-first search over the hops that are being given
 * up. A hop is followed to the hops where the errors about its packets wait; the error that led to
 * it waits there too, and carries the router's own address as its source.
 */
module ArpSearch {
  import opened Words
  import opened ArpSpec

  lemma {:induction false} DeadIpsAre(st: State, now: int, x: Ip)
    ensures x in DeadIps(st, now) <==> DeadAt(st, x, now)
  {
    if DeadAt(st, x, now) {
      assert st.requests[Index(st.requests, x)].ip == x;
    }
  }

  /**
   * Following the errors about `ps`, where `white` are the dead hops not yet reached and `gray` those
   * in progress: None when one in progress is met again, and otherwise the hops still not reached.
   */
  function Explore(env: Env, st: State, ps: seq<Packet>, white: set<Ip>, gray: set<Ip>): (r: Option<set<Ip>>)
    ensures r.Some? ==> r.value <= white
    decreases white, |ps| + 1
  {
    if ps == [] then Some(white) else
    match Follow(env, st, ps[0], white, gray)
    case None => None
    case Some(left) => Explore(env, st, ps[1..], left, gray)
  }

  function Follow(env: Env, st: State, p: Packet, white: set<Ip>, gray: set<Ip>): (r: Option<set<Ip>>)
    ensures r.Some? ==> r.value <= white
    decreases white, 0
  {
    var w := WaitsAt(env, st.cache, p);
    if w.None? then Some(white)
    else if w.value in gray then None
    else if w.value in white && Pending(st, w.value) then
      var e := ErrorAbout(env, p, env.route(p.frame.src).value);
      Explore(env, st, [e] + RequestFor(st, w.value).packets, white - {w.value}, gray + {w.value})
    else Some(white)
  }

  /** The visit of the hop returns. */
  predicate Returns(env: Env, st: State, ip: Ip, now: int)
    requires Pending(st, ip)
  {
    DeadAt(st, ip, now) ==>
      Explore(env, st, RequestFor(st, ip).packets, DeadIps(st, now) - {ip}, {ip}).Some?
  }

  // ---- What a visit that returns does, without the detour over nested calls -------------------------

  /** The errors about `ps`, which waited for `hop`; also the dead hops that were not reached. */
  function GiveUpAll(env: Env, st: State, ps: seq<Packet>, hop: Ip, now: int, white: set<Ip>): (r: (State, set<Ip>))
    ensures r.1 <= white
    decreases white, |ps| + 1
  {
    if ps == [] then (st, white) else
    var s := GiveUp(env, st, ps[0], hop, now, white);
    GiveUpAll(env, s.0, ps[1..], hop, now, s.1)
  }

  function GiveUp(env: Env, st: State, p: Packet, hop: Ip, now: int, white: set<Ip>): (r: (State, set<Ip>))
    ensures r.1 <= white
    decreases white, 0
  {
    var w := WaitsAt(env, st.cache, p);
    if w.None? then (ErrorNow(env, st, p, hop), white) else
    var x, st1 := w.value, QueuedError(env, st, p);
    if x in white then
      var s := GiveUpAll(env, st1, RequestFor(st1, x).packets, x, now, white - {x});
      (NoteQueued(Retire(s.0, x, RequestFor(st1, x), now), p, hop, x), s.1)
    else (NoteQueued(AskIfDue(st1, x, now), p, hop, x), white)
  }

  function Visited(env: Env, st: State, ip: Ip, now: int): State
    requires Pending(st, ip)
  {
    var r := RequestFor(st, ip);
    if !Dead(r, now) then AskIfDue(st, ip, now)
    else Retire(GiveUpAll(env, st, r.packets, ip, now, DeadIps(st, now) - {ip}).0, ip, r, now)
  }
}
