// The ADA rendez-vous layer of one server: its handlers change counters, queues and backups in place, as the
// steps of the protocol say.
module AdaLayer {
  import opened Terms
  import opened Rendezvous

  class Layer {
    const name: nat
    var generation: nat
    var sequence: nat
    var queue: seq<Pdu>          // waiting to be sent
    var sent: map<Id, Pdu>       // backups "gen.seq"
    var offers: map<Key, Pdu>    // backups "server:gen.seq"
    var network: seq<Packet>     // packets passed to the layers below
    var delivered: seq<Pdu>      // PDUs passed to the marshaling layer
    var failed: seq<Pdu>         // PDUs passed to it with the error flag

    constructor (name: nat, time: nat)
      ensures this.name == name && State() == Server(name, time % 0x1_0000, 0, [], map[], map[])
      ensures network == [] && delivered == [] && failed == []
    {
      this.name := name;
      generation, sequence := time % 0x1_0000, 0;
      queue, sent, offers := [], map[], map[];
      network, delivered, failed := [], [], [];
    }

    /** The state the protocol speaks of. */
    function State(): Server
      reads this
    {
      Server(name, generation, sequence, queue, sent, offers)
    }

    /** The effect f has taken place. */
    twostate predicate Did(f: Effect)
      reads this
    {
      && State() == f.s && network == old(network) + f.out
      && delivered == old(delivered) + (if f.up.Some? then [f.up.value] else [])
      && failed == old(failed) + if f.back.Some? then [f.back.value] else []
    }

    /** get_seq_id and get_gen_id. */
    method NewId(time: nat) returns (id: Id)
      modifies this`generation, this`sequence
      ensures id == Id(old(generation), old(sequence)) && sequence == (old(sequence) + 1) % SEQ_LIMIT
      ensures generation == if sequence == 0 then time % 0x1_0000 else old(generation)
      ensures (id, State()) == NextId(old(State()), time)
    {
      id := Id(generation, sequence);
      sequence := (sequence + 1) % SEQ_LIMIT;
      if sequence == 0 {
        generation := time % 0x1_0000;
      }
    }

    /** dispatch_control_pdu. */
    method DispatchControl(kind: Kind, to: nat, id: Id)
      modifies this`network
      ensures network == old(network) + [Control(kind, name, to, id)]
    {
      network := network + [Control(kind, name, to, id)];
    }

    /** The down handler takes the i-th PDU from the queue. */
    method SendDown(i: nat, time: nat)
      requires i < |queue|
      modifies this
      ensures Did(Down(old(State()), i, time))
      ensures !old(queue[i].resend) ==>
        && network == old(network) + [Request(old(queue[i]).(id := Id(old(generation), old(sequence)), retry := 1))]
        && sequence == (old(sequence) + 1) % SEQ_LIMIT
        && generation == if sequence == 0 then time % 0x1_0000 else old(generation)
    {
      var pdu := queue[i];
      queue := queue[..i] + queue[i + 1..];
      if !pdu.resend {
        var id := NewId(time);
        pdu := pdu.(id := id, retry := 0);
      }
      pdu := pdu.(retry := pdu.retry + 1);
      sent := sent[pdu.id := pdu];
      network := network + [Request(pdu)];
    }

    /** The timer callback, for a backup of a PDU sent. */
    method TimeoutSent(id: Id)
      modifies this
      ensures Did(SentTimeout(old(State()), id))
      ensures sent == old(sent) - {id}
      ensures id in old(sent) ==> var p := old(sent)[id];
        if p.retry >= 3 then failed == old(failed) + [p] && queue == old(queue)
        else failed == old(failed) && queue == old(queue) + [p.(resend := true)]
    {
      if id !in sent { return; }
      var pdu := sent[id];
      sent := sent - {id};
      if pdu.retry >= ADA_MAX_RETRY {
        failed := failed + [pdu];
      } else {
        queue := queue + [pdu.(resend := true)];
      }
    }

    /** The timer callback, for a backup of a PDU received. */
    method TimeoutOffer(k: Key)
      modifies this
      ensures Did(OfferTimeout(old(State()), k))
      ensures network == old(network) + if k in offers then [Control(Accept, name, k.src, k.id)] else []
    {
      if k in offers {
        DispatchControl(Accept, k.src, k.id);
      }
    }

    /** The up handler for transport packets. */
    method TransportUp(pdu: Pdu, shutdown: bool)
      modifies this
      ensures Did(OnRequest(old(State()), pdu, shutdown))
      ensures if shutdown then offers == old(offers) && network == old(network) else
        offers == old(offers)[Key(pdu.src, pdu.id) := pdu]
        && network == old(network) + [Control(Accept, name, pdu.src, pdu.id)]
    {
      if shutdown { return; }
      offers := offers[Key(pdu.src, pdu.id) := pdu];
      DispatchControl(Accept, pdu.src, pdu.id);
    }

    /** The up handler for control packets. */
    method ControlUp(kind: Kind, src: nat, id: Id)
      modifies this
      ensures Did(OnControl(old(State()), kind, src, id))
      ensures kind == Accept ==> var known := id.gen == generation && id in old(sent);
        network == old(network) + [Control(if known then Ack else Nack, name, src, id)]
        && sent == (if known then old(sent) - {id} else old(sent)) && delivered == old(delivered)
      ensures kind != Accept ==> network == old(network) && sent == old(sent) && offers == old(offers) - {Key(src, id)}
      ensures delivered ==
        old(delivered) + if kind == Ack && Key(src, id) in old(offers) then [old(offers)[Key(src, id)]] else []
    {
      match kind
      case Accept =>
        if id.gen != generation {
          DispatchControl(Nack, src, id);
        } else if id !in sent {
          DispatchControl(Nack, src, id);
        } else {
          DispatchControl(Ack, src, id);
          sent := sent - {id};
        }
      case Ack =>
        var key := Key(src, id);
        if key in offers {
          delivered := delivered + [offers[key]];
          offers := offers - {key};
        }
      case Nack =>
        offers := offers - {Key(src, id)};
    }

    /** The up handlers, by the kind of packet. */
    method Receive(p: Packet, shutdown: bool)
      modifies this
      ensures Did(Handle(old(State()), p, shutdown))
    {
      match p
      case Request(q) => TransportUp(q, shutdown);
      case Control(kind, src, _, id) => ControlUp(kind, src, id);
    }
  }
}
