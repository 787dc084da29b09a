// Servers with their rendez-vous layers, and the network between them: whatever the handlers do in place is a step of
// the protocol, so every run of the servers transfers a PDU at most once.
module AdaSystem {
  import opened Terms
  import opened Rendezvous
  import opened AdaLayer
  import opened Identities

  class System {
    const layers: map<nat, Layer>
    var net: multiset<Packet>
    ghost var issued: map<Key, Pdu>
    ghost var handed: seq<Delivery>
    ghost var back: seq<Pdu>
    ghost var lost: multiset<Packet>

    ghost predicate Valid()
      reads layers.Values
    {
      && (forall n {:trigger layers[n]} :: n in layers ==> layers[n].name == n)
      && (forall n, m {:trigger layers[n], layers[m]} :: n in layers && m in layers && n != m ==>
          layers[n] != layers[m])
    }

    ghost function Servers(): map<nat, Server>
      reads layers.Values
    {
      map n | n in layers :: layers[n].State()
    }

    /** The state the protocol speaks of. */
    ghost function Now(): World
      reads this, layers.Values
    {
      World(Servers(), net, issued, handed, back, lost)
    }

    /** Servers that have just been started. */
    constructor (layers: map<nat, Layer>)
      requires forall n {:trigger layers[n]} :: n in layers ==> layers[n].name == n
      requires forall n, m {:trigger layers[n], layers[m]} :: n in layers && m in layers && n != m ==>
        layers[n] != layers[m]
      requires forall n {:trigger layers[n]} :: n in layers ==>
        layers[n].sequence < SEQ_LIMIT && layers[n].queue == [] && layers[n].sent == map[] && layers[n].offers == map[]
      ensures this.layers == layers && Valid() && Starts(Now())
    {
      this.layers := layers;
      net, issued, handed, back, lost := multiset{}, map[], [], [], multiset{};
    }

    /** The server n, whose state was that of w, has had the effect f. */
    ghost predicate Had(w: World, n: nat, f: Effect)
      requires n in layers
      reads this, layers.Values
    {
      Servers() == w.servers[n := f.s] && net == w.net && handed == w.handed && back == w.back
    }

    /** What the server n has passed to its neighbours since its queues had these lengths goes there. */
    method Forward(n: nat, sent: nat, up: nat, failed: nat, ghost w: World, ghost f: Effect)
      requires Valid() && n in layers && Had(w, n, f)
      requires var l := layers[n];
        && sent <= |l.network| && l.network[sent..] == f.out
        && up <= |l.delivered| && l.delivered[up..] == (if f.up.Some? then [f.up.value] else [])
        && failed <= |l.failed| && l.failed[failed..] == if f.back.Some? then [f.back.value] else []
      modifies this
      ensures Valid() && Servers() == old(Servers()) && issued == old(issued) && lost == old(lost)
      ensures var v := After(w, n, f); Servers() == v.servers && net == v.net && handed == v.handed && back == v.back
    {
      var l := layers[n];
      net := net + multiset(l.network[sent..]);
      if up < |l.delivered| { handed := handed + [Delivery(n, l.delivered[up])]; }
      back := back + l.failed[failed..];
    }

    /** A PDU is submitted. */
    method Submit(n: nat, p: Pdu)
      requires Valid() && Enabled(Now(), Step.Submit(n, p))
      modifies this, layers.Values
      ensures Valid() && Now() == Next(old(Now()), Step.Submit(n, p))
    {
      layers[n].queue := layers[n].queue + [p];
    }

    /** The i-th PDU waiting is sent. */
    method Send(n: nat, i: nat, time: nat)
      requires Valid() && Enabled(Now(), Step.Send(n, i, time))
      modifies this, layers.Values
      ensures Valid() && Now() == Next(old(Now()), Step.Send(n, i, time))
    {
      ghost var w := Now();
      ghost var f := Down(w.servers[n], i, time);
      var l := layers[n];
      var a, d, b := |l.network|, |l.delivered|, |l.failed|;
      issued := if l.queue[i].resend then issued else issued[f.out[0].p.Name() := f.out[0].p];
      l.SendDown(i, time);
      Forward(n, a, d, b, w, f);
    }

    /** A timer of the source fires. */
    method SourceTimer(n: nat, id: Id)
      requires Valid() && Enabled(Now(), Step.SourceTimer(n, id))
      modifies this, layers.Values
      ensures Valid() && Now() == Next(old(Now()), Step.SourceTimer(n, id))
    {
      ghost var w := Now();
      var l := layers[n];
      var a, d, b := |l.network|, |l.delivered|, |l.failed|;
      l.TimeoutSent(id);
      Forward(n, a, d, b, w, SentTimeout(w.servers[n], id));
    }

    /** A timer of the target fires. */
    method TargetTimer(n: nat, k: Key)
      requires Valid() && Enabled(Now(), Step.TargetTimer(n, k))
      modifies this, layers.Values
      ensures Valid() && Now() == Next(old(Now()), Step.TargetTimer(n, k))
    {
      ghost var w := Now();
      var l := layers[n];
      var a, d, b := |l.network|, |l.delivered|, |l.failed|;
      l.TimeoutOffer(k);
      Forward(n, a, d, b, w, OfferTimeout(w.servers[n], k));
    }

    /** The server a packet is for handles it. */
    method Deliver(p: Packet, shutdown: bool)
      requires Valid() && Target(p) in layers
      modifies this, layers.Values
      ensures Valid() && Now() == After(old(Now()), Target(p), Handle(old(Now().servers[Target(p)]), p, shutdown))
    {
      ghost var w := Now();
      var n := Target(p);
      var l := layers[n];
      var a, d, b := |l.network|, |l.delivered|, |l.failed|;
      l.Receive(p, shutdown);
      Forward(n, a, d, b, w, Handle(w.servers[n], p, shutdown));
    }

    method TakeOut(p: Packet)
      modifies this
      ensures Now() == old(Now().(net := net - multiset{p}))
    {
      net := net - multiset{p};
    }

    ghost method Waste(p: Packet)
      modifies this
      ensures Now() == old(Now().(lost := lost + multiset{p}))
    {
      lost := lost + multiset{p};
    }

    /** A packet arrives. */
    method Arrive(p: Packet, shutdown: bool)
      requires Valid() && Enabled(Now(), Step.Arrive(p, shutdown))
      modifies this, layers.Values
      ensures Valid() && Now() == Next(old(Now()), Step.Arrive(p, shutdown))
    {
      ghost var f := Handle(Now().servers[Target(p)], p, shutdown);
      TakeOut(p);
      Deliver(p, shutdown);
      if Wasted(p, f) { Waste(p); }
    }

    /** The network loses a packet. */
    method Lose(p: Packet)
      requires Valid() && Enabled(Now(), Step.Lose(p))
      modifies this
      ensures Valid() && Now() == Next(old(Now()), Step.Lose(p))
    {
      TakeOut(p);
      Waste(p);
    }

    method Take(e: Step)
      requires Valid() && Enabled(Now(), e)
      modifies this, layers.Values
      ensures Valid() && Now() == Next(old(Now()), e)
    {
      match e
      case Submit(n, p) => Submit(n, p);
      case Send(n, i, time) => Send(n, i, time);
      case SourceTimer(n, id) => SourceTimer(n, id);
      case TargetTimer(n, k) => TargetTimer(n, k);
      case Arrive(p, shutdown) => Arrive(p, shutdown);
      case Lose(p) => Lose(p);
    }

    /** A run of the servers is a run of the protocol. */
    method TakeAll(es: seq<Step>)
      requires Valid() && Run(Now(), es).Some?
      modifies this, layers.Values
      ensures Valid() && Run(old(Now()), es) == Some(Now())
      decreases |es|
    {
      if es != [] {
        TakeAll(es[..|es| - 1]);
        Take(es[|es| - 1]);
      }
    }

    /** So it hands up or returns each PDU at most once, if the generations that the servers take are new. */
    method TransferAll(es: seq<Step>, ghost k: Key)
      requires Valid() && Starts(Now()) && Run(Now(), es).Some?
      requires forall n {:trigger IdsOf(Now(), es, n)} :: n in layers ==> AlwaysRenews(IdsOf(Now(), es, n))
      modifies this, layers.Values
      ensures HandedUp(handed, k) + Returned(back, k) <= 1
      ensures forall d :: d in handed ==> DeliveryOK(issued, d)
    {
      ghost var w := Now();
      TakeAll(es);
      UnrepeatedExactly(w, es);
      AtMostOnce(w, es, k);
    }
  }
}
