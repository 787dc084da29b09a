// The ADA rendez-vous: the transfer protocol between servers, as a state machine over its steps.  Packets
// may be lost, delayed and reordered by the network, but not duplicated.
module Rendezvous {
  import opened Terms

  const ADA_MAX_RETRY: nat := 3

  /** Generation and sequence number of a PDU. */
  datatype Id = Id(gen: nat, num: nat)

  datatype Key = Key(src: nat, id: Id)

  /** A PDU to be transferred; resend is the retry flag, without which it gets a new identity when sent. */
  datatype Pdu = Pdu(src: nat, dst: nat, id: Id, retry: nat, resend: bool, data: nat)
  {
    function Name(): Key { Key(src, id) }
  }

  datatype Kind = Accept | Ack | Nack

  datatype Packet =
    | Request(p: Pdu)
    | Control(kind: Kind, src: nat, dst: nat, id: Id)

  /** A server: its counters, the PDUs waiting to be sent, the backups of those sent, and the backups of those
      received and offered for acceptance. */
  datatype Server = Server(name: nat, gen: nat, num: nat, queue: seq<Pdu>, sent: map<Id, Pdu>, offers: map<Key, Pdu>)

  /** What a handler gives: packets for the network, a PDU handed up, a PDU returned as failed. */
  datatype Effect = Effect(s: Server, out: seq<Packet>, up: Option<Pdu>, back: Option<Pdu>)

  const SEQ_LIMIT: nat := 0x1_0000_0000

  /** The next sequence number; when it wraps around, the generation becomes the present time. */
  function NextId(s: Server, time: nat): (Id, Server) {
    var next := (s.num + 1) % SEQ_LIMIT;
    (Id(s.gen, s.num), s.(num := next, gen := if next == 0 then time % 0x1_0000 else s.gen))
  }

  /** The i-th waiting PDU is backed up and sent. */
  function Down(s: Server, i: nat, time: nat): Effect
    requires i < |s.queue|
  {
    var p := s.queue[i];
    var s1 := s.(queue := s.queue[..i] + s.queue[i + 1..]);
    var (id, s2) := if p.resend then (p.id, s1) else NextId(s1, time);
    var q := if p.resend then p.(retry := p.retry + 1) else p.(id := id, retry := 1);
    Effect(s2.(sent := s2.sent[id := q]), [Request(q)], None, None)
  }

  /** The timer of a PDU sent fires: back to the queue, or returned when the retries are used up. */
  function SentTimeout(s: Server, id: Id): Effect {
    if id !in s.sent then Effect(s, [], None, None) else
    var p := s.sent[id];
    var s1 := s.(sent := s.sent - {id});
    if p.retry >= ADA_MAX_RETRY then Effect(s1, [], None, Some(p))
    else Effect(s1.(queue := s1.queue + [p.(resend := true)]), [], None, None)
  }

  /** The timer of a PDU offered fires: it is offered again. */
  function OfferTimeout(s: Server, k: Key): Effect {
    Effect(s, if k in s.offers then [Control(Accept, s.name, k.src, k.id)] else [], None, None)
  }

  /** A request arrives; a server that shuts down drops it. */
  function OnRequest(s: Server, p: Pdu, shutdown: bool): Effect {
    if shutdown then Effect(s, [], None, None)
    else Effect(s.(offers := s.offers[p.Name() := p]), [Control(Accept, s.name, p.src, p.id)], None, None)
  }

  /** A control packet from the server src arrives. */
  function OnControl(s: Server, kind: Kind, src: nat, id: Id): Effect {
    match kind
    case Accept =>
      if id.gen != s.gen || id !in s.sent then Effect(s, [Control(Nack, s.name, src, id)], None, None)
      else Effect(s.(sent := s.sent - {id}), [Control(Ack, s.name, src, id)], None, None)
    case Ack =>
      var k := Key(src, id);
      if k in s.offers then Effect(s.(offers := s.offers - {k}), [], Some(s.offers[k]), None)
      else Effect(s, [], None, None)
    case Nack =>
      Effect(s.(offers := s.offers - {Key(src, id)}), [], None, None)
  }

  datatype Delivery = Delivery(at: nat, p: Pdu)

  /** All servers and the network, with what has happened so far: the identities given out, the PDUs handed up and
      returned, and the packets that came to nothing. */
  datatype World = World(
    servers: map<nat, Server>,
    net: multiset<Packet>,
    issued: map<Key, Pdu>,
    handed: seq<Delivery>,
    back: seq<Pdu>,
    lost: multiset<Packet>)

  /** The steps of the system.  time is the clock of the server. */
  datatype Step =
    | Submit(n: nat, p: Pdu)
    | Send(n: nat, i: nat, time: nat)
    | SourceTimer(n: nat, id: Id)
    | TargetTimer(n: nat, k: Key)
    | Arrive(packet: Packet, shutdown: bool)
    | Lose(packet: Packet)

  function Target(p: Packet): nat {
    match p
    case Request(q) => q.dst
    case Control(_, _, dst, _) => dst
  }

  predicate Enabled(w: World, e: Step) {
    match e
    case Submit(n, p) => n in w.servers && p.src == n && !p.resend
    case Send(n, i, _) => n in w.servers && i < |w.servers[n].queue|
    case SourceTimer(n, _) => n in w.servers
    case TargetTimer(n, _) => n in w.servers
    case Arrive(p, _) => p in w.net && Target(p) in w.servers
    case Lose(p) => p in w.net
  }

  /** The next identity of the server n has not been used. */
  predicate Fresh(w: World, n: nat)
    requires n in w.servers
  {
    Key(n, Id(w.servers[n].gen, w.servers[n].num)) !in w.issued
  }

  /** The step gives out no identity, or one that has not been used. */
  predicate Unused(w: World, e: Step)
    requires Enabled(w, e)
  {
    e.Send? && !w.servers[e.n].queue[e.i].resend ==> Fresh(w, e.n)
  }

  function Handle(s: Server, p: Packet, shutdown: bool): Effect {
    match p
    case Request(q) => OnRequest(s, q, shutdown)
    case Control(kind, src, _, id) => OnControl(s, kind, src, id)
  }

  function After(w: World, n: nat, f: Effect): World {
    w.(servers := w.servers[n := f.s], net := w.net + multiset(f.out),
       handed := if f.up.Some? then w.handed + [Delivery(n, f.up.value)] else w.handed,
       back := if f.back.Some? then w.back + [f.back.value] else w.back)
  }

  /** A packet has arrived. */
  function Arrived(w: World, p: Packet, shutdown: bool): World
    requires Target(p) in w.servers
  {
    var f := Handle(w.servers[Target(p)], p, shutdown);
    var w1 := After(w.(net := w.net - multiset{p}), Target(p), f);
    if Wasted(p, f) then w1.(lost := w1.lost + multiset{p}) else w1
  }

  function Next(w: World, e: Step): World
    requires Enabled(w, e)
  {
    match e
    case Submit(n, p) =>
      var s := w.servers[n];
      w.(servers := w.servers[n := s.(queue := s.queue + [p])])
    case Send(n, i, time) =>
      var f := Down(w.servers[n], i, time);
      After(w.(issued := if w.servers[n].queue[i].resend then w.issued else w.issued[f.out[0].p.Name() := f.out[0].p]),
            n, f)
    case SourceTimer(n, id) => After(w, n, SentTimeout(w.servers[n], id))
    case TargetTimer(n, k) => After(w, n, OfferTimeout(w.servers[n], k))
    case Arrive(p, shutdown) => Arrived(w, p, shutdown)
    case Lose(p) => w.(net := w.net - multiset{p}, lost := w.lost + multiset{p})
  }

  /** An acknowledgement that finds no offer comes to nothing: the PDU is lost. */
  predicate Wasted(p: Packet, f: Effect) {
    p.Control? && p.kind == Ack && f.up.None?
  }

  /** How often the PDU k waits to be sent again, has been handed up, and has been returned. */
  function Waiting(q: seq<Pdu>, k: Key): nat {
    if q == [] then 0
    else Waiting(q[..|q| - 1], k) + if q[|q| - 1].resend && q[|q| - 1].Name() == k then 1 else 0
  }

  function HandedUp(ds: seq<Delivery>, k: Key): nat {
    if ds == [] then 0 else HandedUp(ds[..|ds| - 1], k) + if ds[|ds| - 1].p.Name() == k then 1 else 0
  }

  function Returned(ps: seq<Pdu>, k: Key): nat {
    if ps == [] then 0 else Returned(ps[..|ps| - 1], k) + if ps[|ps| - 1].Name() == k then 1 else 0
  }

  /** What the server n holds of k: a PDU waiting to be sent again, or a backup of one sent. */
  ghost function Held(s: Server, n: nat, k: Key): nat {
    if k.src == n then Waiting(s.queue, k) + if k.id in s.sent then 1 else 0 else 0
  }

  ghost function AtSource(w: World, k: Key): nat {
    if k.src in w.servers then Held(w.servers[k.src], k.src, k) else 0
  }

  /** The acknowledgement that carries the right to hand up k. */
  ghost function AckOf(issued: map<Key, Pdu>, k: Key): Packet {
    Control(Ack, k.src, if k in issued then issued[k].dst else 0, k.id)
  }

  /** Where the right to hand k up or to return it may be: with the source, in an acknowledgement, used, or lost. */
  ghost function Tokens(w: World, k: Key): nat {
    AtSource(w,
             k) + w.net[AckOf(w.issued, k)] + w.lost[AckOf(w.issued, k)] + HandedUp(w.handed, k) + Returned(w.back, k)
  }

  /** p is the PDU that was given the identity it carries. */
  ghost predicate Genuine(issued: map<Key, Pdu>, p: Pdu) {
    p.Name() in issued && issued[p.Name()].dst == p.dst && issued[p.Name()].data == p.data
  }

  ghost predicate QueueOK(issued: map<Key, Pdu>, n: nat, p: Pdu) {
    p.src == n && (p.resend ==> Genuine(issued, p) && 1 <= p.retry < ADA_MAX_RETRY)
  }

  ghost predicate SentOK(issued: map<Key, Pdu>, n: nat, id: Id, p: Pdu) {
    p.src == n && p.id == id && Genuine(issued, p) && 1 <= p.retry <= ADA_MAX_RETRY
  }

  ghost predicate OfferOK(issued: map<Key, Pdu>, n: nat, k: Key, p: Pdu) {
    p.Name() == k && p.dst == n && Genuine(issued, p)
  }

  ghost predicate ServerOK(issued: map<Key, Pdu>, n: nat, s: Server) {
    && s.name == n
    && (forall p {:trigger QueueOK(issued, n, p)} :: p in s.queue ==> QueueOK(issued, n, p))
    && (forall id {:trigger s.sent[id]} :: id in s.sent ==> SentOK(issued, n, id, s.sent[id]))
    && (forall k {:trigger s.offers[k]} :: k in s.offers ==> OfferOK(issued, n, k, s.offers[k]))
  }

  ghost predicate PacketOK(issued: map<Key, Pdu>, p: Packet) {
    match p
    case Request(q) => Genuine(issued, q)
    case Control(kind, src, dst, id) =>
      && (kind == Accept ==> Key(dst, id) in issued && issued[Key(dst, id)].dst == src)
      && (kind == Ack ==> Key(src, id) in issued && issued[Key(src, id)].dst == dst)
  }

  ghost predicate DeliveryOK(issued: map<Key, Pdu>, d: Delivery) {
    Genuine(issued, d.p) && d.at == d.p.dst
  }

  ghost predicate ReturnOK(issued: map<Key, Pdu>, p: Pdu) {
    Genuine(issued, p) && p.retry == ADA_MAX_RETRY
  }

  ghost predicate Once(w: World, k: Key) {
    Tokens(w, k) == if k in w.issued then 1 else 0
  }

  ghost predicate Inv(w: World) {
    && (forall n {:trigger w.servers[n]} :: n in w.servers ==> ServerOK(w.issued, n, w.servers[n]))
    && (forall p {:trigger PacketOK(w.issued, p)} :: p in w.net || p in w.lost ==> PacketOK(w.issued, p))
    && (forall d {:trigger DeliveryOK(w.issued, d)} :: d in w.handed ==> DeliveryOK(w.issued, d))
    && (forall p {:trigger ReturnOK(w.issued, p)} :: p in w.back ==> ReturnOK(w.issued, p))
    && (forall k {:trigger Once(w, k)} :: Once(w, k))
  }

  type Live = w: World | Inv(w) ghost witness World(map[], multiset{}, map[], [], [], multiset{})

  ghost predicate Starts(w: World) {
    && w.net == multiset{} && w.issued == map[] && w.handed == [] && w.back == [] && w.lost == multiset{}
    && forall n {:trigger w.servers[n]} :: n in w.servers ==>
         && w.servers[n].name == n && w.servers[n].num < SEQ_LIMIT && w.servers[n].queue == []
         && w.servers[n].sent == map[] && w.servers[n].offers == map[]
  }

  lemma StartLive(w: World)
    requires Starts(w)
    ensures Inv(w)
  {
    forall k ensures Once(w, k) {
      if k.src in w.servers { assert w.servers[k.src].queue == []; }
    }
  }

  lemma WaitingAppend(q: seq<Pdu>, p: Pdu, k: Key)
    ensures Waiting(q + [p], k) == Waiting(q, k) + if p.resend && p.Name() == k then 1 else 0
  {
    assert (q + [p])[..|q|] == q;
  }

  lemma {:induction false} WaitingRemove(q: seq<Pdu>, i: nat, k: Key)
    requires i < |q|
    ensures Waiting(q, k) == Waiting(q[..i] + q[i + 1..], k) + if q[i].resend && q[i].Name() == k then 1 else 0
    decreases |q|
  {
    var n := |q| - 1;
    if i < n {
      WaitingRemove(q[..n], i, k);
      assert q[..i] + q[i + 1..] == (q[..n][..i] + q[..n][i + 1..]) + [q[n]];
      WaitingAppend(q[..n][..i] + q[..n][i + 1..], q[n], k);
    } else {
      assert q[..i] + q[i + 1..] == q[..n];
    }
  }

  lemma HandedAppend(ds: seq<Delivery>, d: Delivery, k: Key)
    ensures HandedUp(ds + [d], k) == HandedUp(ds, k) + if d.p.Name() == k then 1 else 0
  {
    assert (ds + [d])[..|ds|] == ds;
  }

  lemma ReturnedAppend(ps: seq<Pdu>, p: Pdu, k: Key)
    ensures Returned(ps + [p], k) == Returned(ps, k) + if p.Name() == k then 1 else 0
  {
    assert (ps + [p])[..|ps|] == ps;
  }

  lemma NetOne(net: multiset<Packet>, out: seq<Packet>, q: Packet)
    requires |out| <= 1
    ensures (net + multiset(out))[q] == net[q] + if out != [] && out[0] == q then 1 else 0
  {
    assert out == [] || out == [out[0]];
  }

  /** What an effect gives off of k: an acknowledgement, a PDU handed up, a PDU returned. */
  ghost function Given(issued: map<Key, Pdu>, f: Effect, k: Key): nat {
    (if f.out != [] && f.out[0] == AckOf(issued, k) then 1 else 0)
    + (if f.up.Some? && f.up.value.Name() == k then 1
      else 0) + (if f.back.Some? && f.back.value.Name() == k then 1 else 0)
  }

  /** The new server and all an effect gives off are in order. */
  ghost predicate Sound(issued: map<Key, Pdu>, n: nat, f: Effect) {
    && ServerOK(issued, n, f.s) && |f.out| <= 1 && (f.out != [] ==> PacketOK(issued, f.out[0]))
    && (f.up.Some? ==> Genuine(issued, f.up.value) && f.up.value.dst == n)
    && (f.back.Some? ==> ReturnOK(issued, f.back.value))
  }

  /** more knows the identities that issued knows. */
  ghost predicate Knows(issued: map<Key, Pdu>, more: map<Key, Pdu>) {
    forall k {:trigger k in more} {:trigger k in issued} :: k in issued ==> k in more && more[k] == issued[k]
  }

  lemma GenuineKept(issued: map<Key, Pdu>, more: map<Key, Pdu>, p: Pdu)
    requires Knows(issued, more) && Genuine(issued, p)
    ensures Genuine(more, p)
  {
  }

  lemma ServerKept(issued: map<Key, Pdu>, more: map<Key, Pdu>, n: nat, s: Server)
    requires Knows(issued, more) && ServerOK(issued, n, s)
    ensures ServerOK(more, n, s)
  {
    forall p | p in s.queue ensures QueueOK(more, n, p) { assert QueueOK(issued, n, p); }
    forall id | id in s.sent ensures SentOK(more, n, id, s.sent[id]) { GenuineKept(issued, more, s.sent[id]); }
    forall k | k in s.offers ensures OfferOK(more, n, k, s.offers[k]) { GenuineKept(issued, more, s.offers[k]); }
  }

  lemma PacketKept(issued: map<Key, Pdu>, more: map<Key, Pdu>, p: Packet)
    requires Knows(issued, more) && PacketOK(issued, p)
    ensures PacketOK(more, p)
  {
  }

  /** v is w after the effect f at n, with the packets net and lost left of the old ones. */
  ghost predicate Became(w: World, v: World, n: nat, f: Effect, net: multiset<Packet>, lost: multiset<Packet>) {
    && n in w.servers && v.servers == w.servers[n := f.s] && Knows(w.issued, v.issued)
    && v.net == net + multiset(f.out) && v.lost == lost
    && v.handed == (if f.up.Some? then w.handed + [Delivery(n, f.up.value)] else w.handed)
    && v.back == if f.back.Some? then w.back + [f.back.value] else w.back
  }

  /** What the server and the old packets have less of k, the effect gives off; a new identity is one right more. */
  ghost predicate Balanced(w: World, issued: map<Key, Pdu>, n: nat, f: Effect,
                           net: multiset<Packet>, lost: multiset<Packet>, k: Key)
    requires n in w.servers
  {
    var was, now := AckOf(w.issued, k), AckOf(issued, k);
    Held(f.s, n, k) + Given(issued, f, k) + net[now] + lost[now]
      == Held(w.servers[n], n, k) + w.net[was] + w.lost[was] + if k in issued && k !in w.issued then 1 else 0
  }

  /** What an effect adds to the acknowledgements, to the PDUs handed up, and to those returned. */
  lemma EffectUsed(w: World, v: World, n: nat, f: Effect, net: multiset<Packet>, lost: multiset<Packet>, k: Key)
    requires Became(w, v, n, f, net, lost) && |f.out| <= 1
    ensures var q := AckOf(v.issued, k);
      v.net[q] + HandedUp(v.handed, k) + Returned(v.back, k)
        == net[q] + HandedUp(w.handed, k) + Returned(w.back, k) + Given(v.issued, f, k)
  {
    NetOne(net, f.out, AckOf(v.issued, k));
    if f.up.Some? { HandedAppend(w.handed, Delivery(n, f.up.value), k); }
    if f.back.Some? { ReturnedAppend(w.back, f.back.value, k); }
  }

  lemma EffectOnce(w: Live, v: World, n: nat, f: Effect, net: multiset<Packet>, lost: multiset<Packet>, k: Key)
    requires Became(w, v, n, f, net, lost) && |f.out| <= 1 && Balanced(w, v.issued, n, f, net, lost, k)
    ensures Once(v, k)
  {
    assert Once(w, k);
    EffectUsed(w, v, n, f, net, lost, k);
    assert AtSource(v, k) + Held(w.servers[n], n, k) == AtSource(w, k) + Held(f.s, n, k);
  }

  /** No packet comes from nowhere. */
  ghost predicate NoNew(w: World, net: multiset<Packet>, lost: multiset<Packet>) {
    forall p {:trigger Seen(w, p)} :: p in net || p in lost ==> Seen(w, p)
  }

  ghost predicate Seen(w: World, p: Packet) {
    p in w.net || p in w.lost
  }

  lemma EffectPackets(w: Live, v: World, n: nat, f: Effect, net: multiset<Packet>, lost: multiset<Packet>, p: Packet)
    requires Became(w, v, n, f, net, lost) && Sound(v.issued, n, f) && NoNew(w, net, lost)
    requires (p in v.net || p in v.lost)
    ensures PacketOK(v.issued, p)
  {
    NetOne(net, f.out, p);
    if p in net || p in lost {
      assert Seen(w, p) && PacketOK(w.issued, p);
      PacketKept(w.issued, v.issued, p);
    }
  }

  lemma EffectServers(w: Live, v: World, n: nat, f: Effect, net: multiset<Packet>, lost: multiset<Packet>)
    requires Became(w, v, n, f, net, lost) && Sound(v.issued, n, f)
    ensures forall m {:trigger v.servers[m]} :: m in v.servers ==> ServerOK(v.issued, m, v.servers[m])
    ensures forall d {:trigger DeliveryOK(v.issued, d)} :: d in v.handed ==> DeliveryOK(v.issued, d)
    ensures forall p {:trigger ReturnOK(v.issued, p)} :: p in v.back ==> ReturnOK(v.issued, p)
  {
    forall m | m in v.servers ensures ServerOK(v.issued, m, v.servers[m]) {
      if m != n { ServerKept(w.issued, v.issued, m, w.servers[m]); }
    }
    forall d | d in v.handed ensures DeliveryOK(v.issued, d) {
      if d in w.handed { assert DeliveryOK(w.issued, d); GenuineKept(w.issued, v.issued, d.p); }
    }
    forall p | p in v.back ensures ReturnOK(v.issued, p) {
      if p in w.back { assert ReturnOK(w.issued, p); GenuineKept(w.issued, v.issued, p); }
    }
  }

  lemma EffectLive(w: Live, v0: World, n: nat, f: Effect, net: multiset<Packet>,
                   lost: multiset<Packet>) returns (v: Live)
    requires Became(w, v0, n, f, net, lost) && Sound(v0.issued, n, f) && NoNew(w, net, lost)
    requires forall k {:trigger Balanced(w, v0.issued, n, f, net, lost, k)} ::
      Balanced(w, v0.issued, n, f, net, lost, k)
    ensures v == v0
  {
    EffectServers(w, v0, n, f, net, lost);
    forall p | p in v0.net || p in v0.lost ensures PacketOK(v0.issued, p) { EffectPackets(w, v0, n, f, net, lost, p); }
    forall k ensures Once(v0, k) {
      assert Balanced(w, v0.issued, n, f, net, lost, k);
      EffectOnce(w, v0, n, f, net, lost, k);
    }
    v := v0;
  }

  /** Submitting: a PDU without an identity. */
  lemma SubmitLive(w: Live, n: nat, p: Pdu) returns (v: Live)
    requires n in w.servers && p.src == n && !p.resend
    ensures v == w.(servers := w.servers[n := w.servers[n].(queue := w.servers[n].queue + [p])])
  {
    var s := w.servers[n];
    var f := Effect(s.(queue := s.queue + [p]), [], None, None);
    var v0 := w.(servers := w.servers[n := f.s]);
    assert w.net + multiset(f.out) == w.net;
    forall q | q in f.s.queue ensures QueueOK(w.issued, n, q) { if q in s.queue { assert QueueOK(w.issued, n, q); } }
    forall k ensures Balanced(w, w.issued, n, f, w.net, w.lost, k) { WaitingAppend(s.queue, p, k); }
    v := EffectLive(w, v0, n, f, w.net, w.lost);
  }

  /** The timer of a PDU sent. */
  lemma SentTimeoutSound(issued: map<Key, Pdu>, n: nat, s: Server, id: Id)
    requires ServerOK(issued, n, s)
    ensures Sound(issued, n, SentTimeout(s, id))
  {
    var f := SentTimeout(s, id);
    if id in s.sent { assert SentOK(issued, n, id, s.sent[id]); }
    forall p | p in f.s.queue ensures QueueOK(issued, n, p) { if p in s.queue { assert QueueOK(issued, n, p); } }
    forall i | i in f.s.sent ensures SentOK(issued, n, i, f.s.sent[i]) { assert SentOK(issued, n, i, s.sent[i]); }
  }

  /** A PDU whose timer fires is queued again or returned. */
  lemma SentTimeoutKeeps(issued: map<Key, Pdu>, n: nat, s: Server, id: Id, k: Key)
    requires id in s.sent ==> SentOK(issued, n, id, s.sent[id])
    ensures var f := SentTimeout(s, id); Held(f.s, n, k) + Given(issued, f, k) == Held(s, n, k)
  {
    if id in s.sent { WaitingAppend(s.queue, s.sent[id].(resend := true), k); }
  }

  lemma SentTimeoutBalanced(w: Live, n: nat, id: Id, k: Key)
    requires n in w.servers
    ensures Balanced(w, w.issued, n, SentTimeout(w.servers[n], id), w.net, w.lost, k)
  {
    var s := w.servers[n];
    if id in s.sent { assert SentOK(w.issued, n, id, s.sent[id]); }
    SentTimeoutKeeps(w.issued, n, s, id, k);
  }

  lemma SourceTimerLive(w: Live, n: nat, id: Id) returns (v: Live)
    requires n in w.servers
    ensures v == After(w, n, SentTimeout(w.servers[n], id))
  {
    var f := SentTimeout(w.servers[n], id);
    SentTimeoutSound(w.issued, n, w.servers[n], id);
    forall k ensures Balanced(w, w.issued, n, f, w.net, w.lost, k) { SentTimeoutBalanced(w, n, id, k); }
    v := EffectLive(w, After(w, n, f), n, f, w.net, w.lost);
  }

  lemma TargetTimerLive(w: Live, n: nat, key: Key) returns (v: Live)
    requires n in w.servers
    ensures v == After(w, n, OfferTimeout(w.servers[n], key))
  {
    var s, f := w.servers[n], OfferTimeout(w.servers[n], key);
    if key in s.offers { assert OfferOK(w.issued, n, key, s.offers[key]); }
    forall k ensures Balanced(w, w.issued, n, f, w.net, w.lost, k) { }
    v := EffectLive(w, After(w, n, f), n, f, w.net, w.lost);
  }

  lemma HandleSound(issued: map<Key, Pdu>, n: nat, s: Server, p: Packet, shutdown: bool)
    requires ServerOK(issued, n, s) && PacketOK(issued, p) && Target(p) == n
    ensures Sound(issued, n, Handle(s, p, shutdown))
  {
    var f := Handle(s, p, shutdown);
    assert f.s.queue == s.queue;
    forall i | i in f.s.sent ensures SentOK(issued, n, i, f.s.sent[i]) { assert SentOK(issued, n, i, s.sent[i]); }
    forall k | k in f.s.offers ensures OfferOK(issued, n, k, f.s.offers[k]) {
      if k in s.offers { assert OfferOK(issued, n, k, s.offers[k]); }
    }
    if p.Control? && Key(p.src, p.id) in s.offers {
      assert OfferOK(issued, n, Key(p.src, p.id), s.offers[Key(p.src, p.id)]);
    }
  }

  /** A request or a refusal moves no right; an acceptance in time turns the backup into an acknowledgement. */
  lemma HandleGives(issued: map<Key, Pdu>, n: nat, s: Server, p: Packet, shutdown: bool, k: Key)
    requires ServerOK(issued, n, s) && PacketOK(issued, p) && Target(p) == n && !(p.Control? && p.kind == Ack)
    ensures var f := Handle(s, p, shutdown); Held(f.s, n, k) + Given(issued, f, k) == Held(s, n, k)
  {
    var f := Handle(s, p, shutdown);
    assert f.s.queue == s.queue;
  }

  /** An acknowledgement hands up its PDU if the offer is still there. */
  lemma AckGives(issued: map<Key, Pdu>, n: nat, s: Server, p: Packet, shutdown: bool, k: Key)
    requires ServerOK(issued, n, s) && PacketOK(issued, p) && Target(p) == n && p.Control? && p.kind == Ack
    ensures var f := Handle(s, p, shutdown);
      && Held(f.s, n, k) == Held(s, n, k)
      && (p == AckOf(issued, k) <==> Key(p.src, p.id) == k)
      && Given(issued, f, k) == if f.up.Some? && p == AckOf(issued, k) then 1 else 0
  {
    var key := Key(p.src, p.id);
    if key in s.offers { assert OfferOK(issued, n, key, s.offers[key]); }
  }

  lemma ArriveBalanced(w: Live, p: Packet, shutdown: bool, k: Key)
    requires p in w.net && Target(p) in w.servers
    ensures var n := Target(p); var f := Handle(w.servers[n], p, shutdown);
      Balanced(w, w.issued, n, f, w.net - multiset{p}, if Wasted(p, f) then w.lost + multiset{p} else w.lost, k)
  {
    var n := Target(p);
    assert PacketOK(w.issued, p) && ServerOK(w.issued, n, w.servers[n]);
    if p.Control? && p.kind == Ack {
      AckGives(w.issued, n, w.servers[n], p, shutdown, k);
    } else {
      HandleGives(w.issued, n, w.servers[n], p, shutdown, k);
    }
  }

  lemma ArriveLive(w: Live, p: Packet, shutdown: bool) returns (v: Live)
    requires p in w.net && Target(p) in w.servers
    ensures v == Arrived(w, p, shutdown)
  {
    var n := Target(p);
    var f := Handle(w.servers[n], p, shutdown);
    var net, lost := w.net - multiset{p}, if Wasted(p, f) then w.lost + multiset{p} else w.lost;
    assert PacketOK(w.issued, p) && ServerOK(w.issued, n, w.servers[n]);
    HandleSound(w.issued, n, w.servers[n], p, shutdown);
    forall k ensures Balanced(w, w.issued, n, f, net, lost, k) { ArriveBalanced(w, p, shutdown, k); }
    v := EffectLive(w, Arrived(w, p, shutdown), n, f, net, lost);
  }

  lemma LoseLive(w: Live, p: Packet) returns (v: Live)
    requires p in w.net
    ensures v == w.(net := w.net - multiset{p}, lost := w.lost + multiset{p})
  {
    var v0 := w.(net := w.net - multiset{p}, lost := w.lost + multiset{p});
    forall q | q in v0.net || q in v0.lost ensures PacketOK(v0.issued, q) { assert PacketOK(w.issued, q); }
    forall k ensures Once(v0, k) { assert Once(w, k); }
    v := v0;
  }

  lemma DownSound(issued: map<Key, Pdu>, more: map<Key, Pdu>, n: nat, s: Server, i: nat, time: nat)
    requires ServerOK(issued, n, s) && i < |s.queue| && Knows(issued, more)
    requires more == if s.queue[i].resend then issued
                     else issued[Down(s, i, time).out[0].p.Name() := Down(s, i, time).out[0].p]
    ensures Sound(more, n, Down(s, i, time))
  {
    var f := Down(s, i, time);
    ServerKept(issued, more, n, s);
    assert QueueOK(issued, n, s.queue[i]);
    forall p | p in f.s.queue ensures QueueOK(more, n, p) { assert p in s.queue && QueueOK(more, n, p); }
    forall id | id in f.s.sent ensures SentOK(more, n, id, f.s.sent[id]) {
      if id in s.sent { assert SentOK(more, n, id, s.sent[id]); }
    }
  }

  /** An identity not yet given out is on no acknowledgement. */
  lemma NoAck(w: Live, k: Key, dst: nat)
    requires k !in w.issued
    ensures w.net[Control(Ack, k.src, dst, k.id)] == 0 && w.lost[Control(Ack, k.src, dst, k.id)] == 0
  {
    var ack := Control(Ack, k.src, dst, k.id);
    if ack in w.net || ack in w.lost { MustBeIssued(w, ack); }
  }

  lemma MustBeIssued(w: Live, p: Packet)
    requires p in w.net || p in w.lost
    ensures PacketOK(w.issued, p)
  {
    assert PacketOK(w.issued, p);
  }

  lemma DownBalanced(w: Live, n: nat, i: nat, time: nat, more: map<Key, Pdu>, k: Key)
    requires n in w.servers && i < |w.servers[n].queue| && (w.servers[n].queue[i].resend || Fresh(w, n))
    requires var s := w.servers[n];
      more == if s.queue[i].resend then w.issued
              else w.issued[Down(s, i, time).out[0].p.Name() := Down(s, i, time).out[0].p]
    ensures Balanced(w, more, n, Down(w.servers[n], i, time), w.net, w.lost, k)
  {
    var s := w.servers[n];
    assert ServerOK(w.issued, n, s) && QueueOK(w.issued, n, s.queue[i]) && Once(w, k);
    WaitingRemove(s.queue, i, k);
    if k !in w.issued && k in more { NoAck(w, k, more[k].dst); NoAck(w, k, 0); }
  }

  lemma SendLive(w: Live, n: nat, i: nat, time: nat) returns (v: Live)
    requires Enabled(w, Send(n, i, time)) && Unused(w, Send(n, i, time))
    ensures v == Next(w, Send(n, i, time))
  {
    var s, v0 := w.servers[n], Next(w, Send(n, i, time));
    var f := Down(s, i, time);
    assert ServerOK(w.issued, n, s) && QueueOK(w.issued, n, s.queue[i]);
    DownSound(w.issued, v0.issued, n, s, i, time);
    forall k ensures Balanced(w, v0.issued, n, f, w.net, w.lost, k) { DownBalanced(w, n, i, time, v0.issued, k); }
    v := EffectLive(w, v0, n, f, w.net, w.lost);
  }

  /** Every step that repeats no identity keeps the invariant. */
  lemma StepLive(w: Live, e: Step) returns (v: Live)
    requires Enabled(w, e) && Unused(w, e)
    ensures v == Next(w, e)
  {
    match e
    case Submit(n, p) => v := SubmitLive(w, n, p);
    case Send(n, i, time) => v := SendLive(w, n, i, time);
    case SourceTimer(n, id) => v := SourceTimerLive(w, n, id);
    case TargetTimer(n, k) => v := TargetTimerLive(w, n, k);
    case Arrive(p, shutdown) => v := ArriveLive(w, p, shutdown);
    case Lose(p) => v := LoseLive(w, p);
  }

  /** The world after a run, if each of its steps was possible. */
  function Run(w: World, es: seq<Step>): Option<World> {
    if es == [] then Some(w) else
    var r := Run(w, es[..|es| - 1]);
    if r.Some? && Enabled(r.value, es[|es| - 1]) then Some(Next(r.value, es[|es| - 1])) else None
  }

  /** No step of the run gives out an identity again. */
  predicate Unrepeated(w: World, es: seq<Step>)
    requires Run(w, es).Some?
  {
    es == [] || var fs := es[..|es| - 1];
    Unrepeated(w, fs) && Unused(Run(w, fs).value, es[|es| - 1])
  }

  lemma {:induction false} RunLive(w: World, es: seq<Step>) returns (v: Live)
    requires Starts(w) && Run(w, es).Some? && Unrepeated(w, es)
    ensures v == Run(w, es).value
    decreases |es|
  {
    if es == [] {
      StartLive(w);
      v := w;
    } else {
      var u := RunLive(w, es[..|es| - 1]);
      v := StepLive(u, es[|es| - 1]);
    }
  }

  /** At most once: in every run without a repeated identity a PDU is handed up at most once, never both handed up and
      returned, and never again after its acknowledgement has come to nothing; what is handed up is what was sent,
      where it was sent to, and what is returned has used up its retries. */
  lemma AtMostOnce(w: World, es: seq<Step>, k: Key)
    requires Starts(w) && Run(w, es).Some? && Unrepeated(w, es)
    ensures var v := Run(w, es).value;
      && HandedUp(v.handed, k) + Returned(v.back, k) <= 1
      && (k in v.issued && Control(Ack, k.src, v.issued[k].dst, k.id) in v.lost ==>
          HandedUp(v.handed, k) + Returned(v.back, k) == 0)
      && (forall d :: d in v.handed ==> DeliveryOK(v.issued, d))
      && (forall p :: p in v.back ==> ReturnOK(v.issued, p))
  {
    var v := RunLive(w, es);
    assert Once(v, k);
  }

  /** A request for k arrives at d, which does not shut down. */
  predicate Offers(e: Step, k: Key, d: nat) {
    e.Arrive? && e.packet.Request? && e.packet.p.Name() == k && e.packet.p.dst == d && !e.shutdown
  }

  /** A refusal or an acknowledgement of k arrives at d. */
  predicate Settles(e: Step, k: Key, d: nat) {
    e.Arrive? && (e.packet == Control(Nack, k.src, d, k.id) || e.packet == Control(Ack, k.src, d, k.id))
  }

  /** The last arrival that concerned k at d was a request. */
  predicate OfferOpen(es: seq<Step>, k: Key, d: nat) {
    es != [] && var e := es[|es| - 1];
    Offers(e, k, d) || (!Settles(e, k, d) && OfferOpen(es[..|es| - 1], k, d))
  }

  /** The acknowledgement of k has been lost on its way to d, or has arrived when no request for k had arrived since the
      last refusal or acknowledgement. */
  predicate CameToNothing(es: seq<Step>, k: Key, d: nat) {
    es != [] && var e, ack := es[|es| - 1], Control(Ack, k.src, d, k.id);
    || e == Lose(ack)
    || (e.Arrive? && e.packet == ack && !OfferOpen(es[..|es| - 1], k, d))
    || CameToNothing(es[..|es| - 1], k, d)
  }

  lemma HandleOffers(s: Server, p: Packet, shutdown: bool, k: Key)
    ensures k in Handle(s, p, shutdown).s.offers <==>
      (p.Request? && p.p.Name() == k && !shutdown)
      || (k in s.offers && !(p.Control? && p.kind != Accept && p.src == k.src && p.id == k.id))
  {
  }

  datatype Actor = Actor(n: nat, s: Server)

  /** The server whose handler a step runs, with what becomes of it. */
  function Acting(w: World, e: Step): Option<Actor>
    requires Enabled(w, e)
  {
    match e
    case Submit(n, p) => Some(Actor(n, w.servers[n].(queue := w.servers[n].queue + [p])))
    case Send(n, i, time) => Some(Actor(n, Down(w.servers[n], i, time).s))
    case SourceTimer(n, id) => Some(Actor(n, SentTimeout(w.servers[n], id).s))
    case TargetTimer(n, k) => Some(Actor(n, OfferTimeout(w.servers[n], k).s))
    case Arrive(p, shutdown) => Some(Actor(Target(p), Handle(w.servers[Target(p)], p, shutdown).s))
    case Lose(_) => None
  }

  lemma ActingIs(w: World, e: Step)
    requires Enabled(w, e)
    ensures match Acting(w, e)
      case Some(a) => !e.Lose? && a.n in w.servers && Next(w, e).servers == w.servers[a.n := a.s]
      case None => e.Lose? && Next(w, e).servers == w.servers
  {
  }

  lemma ActingOffers(w: World, e: Step, k: Key)
    requires Enabled(w, e) && !e.Lose?
    ensures var a := Acting(w, e).value;
      && a.n in w.servers
      && (k in a.s.offers <==> Offers(e, k, a.n) || (!Settles(e, k, a.n) && k in w.servers[a.n].offers))
  {
    if e.Arrive? { HandleOffers(w.servers[Target(e.packet)], e.packet, e.shutdown, k); }
  }

  /** How a step changes what d has on offer. */
  lemma OfferStep(w: World, e: Step, k: Key, d: nat)
    requires Enabled(w, e)
    ensures Next(w, e).servers.Keys == w.servers.Keys
    ensures d in w.servers ==>
      (k in Next(w, e).servers[d].offers <==> Offers(e, k, d) || (!Settles(e, k, d) && k in w.servers[d].offers))
  {
    ActingIs(w, e);
    if !e.Lose? { ActingOffers(w, e, k); }
  }

  /** How a step loses the acknowledgement. */
  lemma LossStep(w: World, e: Step, k: Key, d: nat)
    requires Enabled(w, e)
    ensures var ack := Control(Ack, k.src, d, k.id);
      ack in Next(w, e).lost <==>
        ack in w.lost || e == Lose(ack) || (e.Arrive? && e.packet == ack && k !in w.servers[d].offers)
  {
    match e
    case Arrive(p, _) => assert p == Control(Ack, k.src, d, k.id) ==> Key(p.src, p.id) == k;
    case _ =>
  }

  lemma {:induction false} OffersAreOpen(w: World, es: seq<Step>, k: Key, d: nat)
    requires Starts(w) && Run(w, es).Some?
    ensures Run(w, es).value.servers.Keys == w.servers.Keys
    ensures d in w.servers ==> (k in Run(w, es).value.servers[d].offers <==> OfferOpen(es, k, d))
    decreases |es|
  {
    if es != [] {
      var fs, e := es[..|es| - 1], es[|es| - 1];
      OffersAreOpen(w, fs, k, d);
      OfferStep(Run(w, fs).value, e, k, d);
    }
  }

  lemma {:induction false} LostByEvents(w: World, es: seq<Step>, k: Key, d: nat)
    requires Starts(w) && Run(w, es).Some?
    ensures Control(Ack, k.src, d, k.id) in Run(w, es).value.lost <==> CameToNothing(es, k, d)
    decreases |es|
  {
    if es != [] {
      var fs, e := es[..|es| - 1], es[|es| - 1];
      LostByEvents(w, fs, k, d);
      OffersAreOpen(w, fs, k, d);
      LossStep(Run(w, fs).value, e, k, d);
    }
  }

  /** Exactly once fails: a PDU that is issued, of which nothing is left at its source and no acknowledgement is under
      way, has been handed up or returned if and only if its acknowledgement has not come to nothing: it has neither
      been lost nor been overtaken by a refusal. */
  lemma ExactlyOnce(w: World, es: seq<Step>, k: Key)
    requires Starts(w) && Run(w, es).Some? && Unrepeated(w, es)
    ensures var v := Run(w, es).value;
      k in v.issued && AtSource(v, k) == 0 && AckOf(v.issued, k) !in v.net ==>
        (HandedUp(v.handed, k) + Returned(v.back, k) == 1 <==> !CameToNothing(es, k, v.issued[k].dst))
  {
    var v := RunLive(w, es);
    assert Once(v, k);
    if k in v.issued { LostByEvents(w, es, k, v.issued[k].dst); }
  }

  /** Nothing of any PDU is left with the servers 1 and 2, nor in the network, and none has been handed up or returned.
      */
  ghost predicate Vanished(v: World) {
    && 1 in v.servers && v.servers[1].queue == [] && v.servers[1].sent == map[] && v.servers[1].offers == map[]
    && 2 in v.servers && v.servers[2].queue == [] && v.servers[2].sent == map[] && v.servers[2].offers == map[]
    && v.net == multiset{} && v.handed == [] && v.back == []
  }

  /** What the runs below have in common: the servers 1 and 2 with what they hold of q, and the packets under way. */
  ghost predicate Stage(v: World, q: Pdu, queue: seq<Pdu>, sent: map<Id, Pdu>, offers: map<Key, Pdu>,
                        net: multiset<Packet>) {
    && 1 in v.servers && 2 in v.servers && q.src == 1 && q.dst == 2 && v.handed == [] && v.back == [] && v.net == net
    && v.servers[1].name == 1 && v.servers[1].gen == q.id.gen && v.servers[1].offers == map[]
    && v.servers[1].queue == queue && v.servers[1].sent == sent
    && v.servers[2].name == 2 && v.servers[2].queue == [] && v.servers[2].sent == map[] && v.servers[2].offers == offers
    && v.issued != map[]
  }

  /** Two servers and a PDU. */
  ghost predicate TwoServers(w: World, p: Pdu) {
    && Starts(w) && 1 in w.servers && 2 in w.servers && p.src == 1 && p.dst == 2 && !p.resend
    && w.servers[1].num + 1 < SEQ_LIMIT
  }

  /** The PDU has been sent. */
  lemma Sent(w: World, p: Pdu) returns (es: seq<Step>, q: Pdu)
    requires TwoServers(w, p)
    ensures Run(w, es).Some? && q.retry == 1 && !q.resend && NoLoss(es) && |es| == 2
    ensures Stage(Run(w, es).value, q, [], map[q.id := q], map[], multiset{Request(q)})
  {
    var id := Id(w.servers[1].gen, w.servers[1].num);
    q := p.(id := id, retry := 1);
    var s := w.servers[1];
    es := RunStep(w, [], Submit(1, p));
    assert Run(w, es).value.servers[1].queue == [p];
    es := RunStep(w, es, Send(1, 0, 0));
    assert Run(w, es).value.servers[1] == s.(num := s.num + 1, sent := map[id := q]);
    assert q.Name() in Run(w, es).value.issued;
  }

  lemma RunStep(w: World, es: seq<Step>, e: Step) returns (fs: seq<Step>)
    requires Run(w, es).Some? && Enabled(Run(w, es).value, e)
    ensures fs == es + [e] && Run(w, fs) == Some(Next(Run(w, es).value, e))
  {
    fs := es + [e];
    assert fs[..|fs| - 1] == es;
  }

  /** The request r for q arrives, and is offered. */
  lemma Offered(w: World, es: seq<Step>, q: Pdu, r: Pdu, sent: map<Id, Pdu>, offers: map<Key, Pdu>,
                net: multiset<Packet>)
    returns (fs: seq<Step>)
    requires Run(w, es).Some? && Stage(Run(w, es).value, q, [], sent, offers, net + multiset{Request(r)})
    requires r.Name() == q.Name() && r.dst == 2 && offers.Keys <= {q.Name()}
    ensures fs == es + [Arrive(Request(r), false)] && Run(w, fs).Some?
    ensures Stage(Run(w, fs).value, q, [], sent, map[q.Name() := r], net + multiset{Control(Accept, 2, 1, q.id)})
  {
    assert net + multiset{Request(r)} - multiset{Request(r)} == net;
    fs := RunStep(w, es, Arrive(Request(r), false));
    assert offers[q.Name() := r] == map[q.Name() := r];
  }

  /** The acceptance of a PDU that waits for one arrives. */
  lemma Accepted(w: World, es: seq<Step>, q: Pdu, r: Pdu, offers: map<Key, Pdu>,
                 net: multiset<Packet>) returns (fs: seq<Step>)
    requires Run(w, es).Some?
    requires Stage(Run(w, es).value, q, [], map[q.id := r], offers, net + multiset{Control(Accept, 2, 1, q.id)})
    ensures fs == es + [Arrive(Control(Accept, 2, 1, q.id), false)] && Run(w, fs).Some?
    ensures Stage(Run(w, fs).value, q, [], map[], offers, net + multiset{Control(Ack, 1, 2, q.id)})
  {
    assert net + multiset{Control(Accept, 2, 1, q.id)} - multiset{Control(Accept, 2, 1, q.id)} == net;
    fs := RunStep(w, es, Arrive(Control(Accept, 2, 1, q.id), false));
    assert map[q.id := r] - {q.id} == map[];
  }

  /** The acceptance of a PDU of which the source has no backup arrives. */
  lemma Refused(w: World, es: seq<Step>, q: Pdu, queue: seq<Pdu>, offers: map<Key, Pdu>, net: multiset<Packet>)
    returns (fs: seq<Step>)
    requires Run(w, es).Some?
    requires Stage(Run(w, es).value, q, queue, map[], offers, net + multiset{Control(Accept, 2, 1, q.id)})
    ensures fs == es + [Arrive(Control(Accept, 2, 1, q.id), false)] && Run(w, fs).Some?
    ensures Stage(Run(w, fs).value, q, queue, map[], offers, net + multiset{Control(Nack, 1, 2, q.id)})
  {
    assert net + multiset{Control(Accept, 2, 1, q.id)} - multiset{Control(Accept, 2, 1, q.id)} == net;
    fs := RunStep(w, es, Arrive(Control(Accept, 2, 1, q.id), false));
  }

  /** A refusal arrives, and the offer goes. */
  lemma Withdrawn(w: World, es: seq<Step>, q: Pdu, r: Pdu, net: multiset<Packet>) returns (fs: seq<Step>)
    requires Run(w, es).Some?
    requires Stage(Run(w, es).value, q, [], map[], map[q.Name() := r], net + multiset{Control(Nack, 1, 2, q.id)})
    ensures fs == es + [Arrive(Control(Nack, 1, 2, q.id), false)] && Run(w, fs).Some?
    ensures Stage(Run(w, fs).value, q, [], map[], map[], net)
  {
    assert net + multiset{Control(Nack, 1, 2, q.id)} - multiset{Control(Nack, 1, 2, q.id)} == net;
    fs := RunStep(w, es, Arrive(Control(Nack, 1, 2, q.id), false));
    assert map[q.Name() := r] - {q.Name()} == map[];
  }

  /** The acknowledgement is lost by the network.  The offer is repeated, and refused, since the source has forgotten
      it. */
  lemma AcknowledgementLost(w: World, p: Pdu) returns (es: seq<Step>)
    requires TwoServers(w, p)
    ensures Run(w, es).Some? && Run(w, es).value.issued != map[] && Vanished(Run(w, es).value) && |es| == 8
  {
    var q;
    es, q := Sent(w, p);
    var k := q.Name();
    es := Offered(w, es, q, q, map[q.id := q], map[], multiset{});
    es := Accepted(w, es, q, q, map[k := q], multiset{});
    es := RunStep(w, es, Lose(Control(Ack, 1, 2, q.id)));
    es := RunStep(w, es, TargetTimer(2, k));
    es := Refused(w, es, q, [], map[k := q], multiset{});
    es := Withdrawn(w, es, q, q, multiset{});
  }

  ghost predicate NoLoss(es: seq<Step>) {
    forall e :: e in es ==> !e.Lose?
  }

  /** The source's timer fires before the acceptance of q arrives; the acceptance is refused, and q sent again. */
  lemma SentAgain(w: World, es: seq<Step>, q: Pdu, q2: Pdu) returns (fs: seq<Step>)
    requires Run(w, es).Some? && NoLoss(es) && q.retry == 1 && q2 == q.(resend := true, retry := 2)
    requires Stage(Run(w, es).value, q, [], map[q.id := q], map[q.Name() := q], multiset{Control(Accept, 2, 1, q.id)})
    ensures Run(w, fs).Some? && NoLoss(fs) && |fs| == |es| + 3
    ensures Stage(Run(w, fs).value, q, [], map[q.id := q2], map[q.Name() := q],
                  multiset{Control(Nack, 1, 2, q.id)} + multiset{Request(q2)})
  {
    fs := RunStep(w, es, SourceTimer(1, q.id));
    assert map[q.id := q] - {q.id} == map[];
    fs := Refused(w, fs, q, [q.(resend := true)], map[q.Name() := q], multiset{});
    fs := RunStep(w, fs, Send(1, 0, 0));
  }

  /** q is offered and accepted again, but the refusal arrives before the acknowledgement. */
  lemma Overtaken(w: World, es: seq<Step>, q: Pdu, q2: Pdu) returns (fs: seq<Step>)
    requires Run(w, es).Some? && NoLoss(es) && q2 == q.(resend := true, retry := 2)
    requires Stage(Run(w, es).value, q, [], map[q.id := q2], map[q.Name() := q],
                   multiset{Control(Nack, 1, 2, q.id)} + multiset{Request(q2)})
    ensures Run(w, fs).Some? && NoLoss(fs) && |fs| == |es| + 3
    ensures Stage(Run(w, fs).value, q, [], map[], map[], multiset{Control(Ack, 1, 2, q.id)})
  {
    var ack, nack := multiset{Control(Ack, 1, 2, q.id)}, multiset{Control(Nack, 1, 2, q.id)};
    fs := Offered(w, es, q, q2, map[q.id := q2], map[q.Name() := q], nack);
    fs := Accepted(w, fs, q, q2, map[q.Name() := q2], nack);
    assert nack + ack == ack + nack;
    fs := Withdrawn(w, fs, q, q2, ack);
  }

  /** The network loses nothing, but a refusal overtakes an acknowledgement: the source's timer fires before the first
      acceptance arrives, which is refused; the PDU is sent again and accepted, and the refusal removes the new offer
      before the acknowledgement can. */
  lemma AcknowledgementWasted(w: World, p: Pdu) returns (es: seq<Step>)
    requires TwoServers(w, p)
    ensures NoLoss(es) && Run(w, es).Some? && Run(w, es).value.issued != map[] && Vanished(Run(w, es).value)
    ensures |es| == 10
  {
    var q;
    es, q := Sent(w, p);
    es := Offered(w, es, q, q, map[q.id := q], map[], multiset{});
    es := SentAgain(w, es, q, q.(resend := true, retry := 2));
    es := Overtaken(w, es, q, q.(resend := true, retry := 2));
    es := RunStep(w, es, Arrive(Control(Ack, 1, 2, q.id), false));
  }
}
