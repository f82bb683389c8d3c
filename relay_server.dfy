/** The relay process of server/server.js as an object: the module-level
    `clients` set and the `phoneClient` / `vrClient` slots become fields that the
    event handlers update in place, and every `send` / `ping` is appended to an
    outbox. Each handler is proved to do what the matching function of `Relay`
    says, so the properties proved there hold of the running server. */
module RelayServer {
  import opened Options
  import opened Relay

  class Server {
    var clients: seq<ConnId>
    var phone: Option<ConnId>
    var vr: Option<ConnId>
    /** Every frame written so far, with the socket it was written to. */
    var outbox: seq<Send>

    ghost predicate Valid()
      reads this
    {
      NoDups(clients)
    }

    /** The registry part of the state. */
    function State(): Registry
      reads this
    {
      Registry(clients, phone, vr)
    }

    constructor ()
      ensures Valid() && State() == Empty && outbox == []
    {
      clients, phone, vr, outbox := [], None, None, [];
    }

    /** The `connection` handler. */
    method OnConnect(c: ConnId)
      requires Valid()
      modifies this
      ensures Valid()
      ensures State() == Connect(old(State()), c).reg
      ensures outbox == old(outbox) + Connect(old(State()), c).sends
    {
      if c !in clients {
        clients := clients + [c];
      }
      outbox := outbox + [(c, Established(WelcomeText))];
    }

    /** `broadcast(message, sender)`: one pass over the set in its order. */
    method Broadcast(f: Frame, sender: ConnId, open: ConnId -> bool)
      modifies this`outbox
      ensures outbox == old(outbox) + Address(OpenExcept(clients, {sender}, open), f)
      ensures SubsequenceOf(Recipients(outbox[|old(outbox)|..]), clients)
      ensures Valid() ==> NoDups(Recipients(outbox[|old(outbox)|..]))
    {
      var cs := clients;
      var i := 0;
      ghost var done: seq<Send> := [];
      assert cs[..0] == [];
      while i < |cs|
        invariant 0 <= i <= |cs|
        invariant done == Visited(cs[..i], {sender}, open, f)
        invariant outbox == old(outbox) + done
      {
        assert cs[..i + 1][..i] == cs[..i];
        if cs[i] != sender && open(cs[i]) {
          outbox := outbox + [(cs[i], f)];
          done := done + [(cs[i], f)];
        }
        i := i + 1;
      }
      assert cs[..i] == cs;
      VisitedIsAddressed(cs, {sender}, open, f);
      assert outbox[|old(outbox)|..] == Address(OpenExcept(cs, {sender}, open), f);
      AddressedTo(OpenExcept(cs, {sender}, open), f);
    }

    /** The `message` handler: the first-match chain on `type`. */
    method OnMessage(sender: ConnId, m: Message, open: ConnId -> bool)
      requires Valid()
      modifies this
      ensures Valid()
      ensures State() == Receive(old(State()), sender, m, open).reg
      ensures outbox == old(outbox) + Receive(old(State()), sender, m, open).sends
    {
      match m {
        case Identify(clientType) =>
          if clientType == "phone" {
            phone := Some(sender);
          } else if clientType == "vr" {
            vr := Some(sender);
          }
        case SwipeRight(objectId) =>
          if vr.Some? && open(vr.value) {
            outbox := outbox + [(vr.value, Forward(m))];
            if phone.Some? && open(phone.value) {
              outbox := outbox + [(phone.value, SwipeConfirmed(objectId))];
            }
          } else {
            outbox := outbox + [(sender, Error(NoVrText))];
          }
        case SpawnConfirmed(_) =>
          if phone.Some? && open(phone.value) {
            outbox := outbox + [(phone.value, Forward(m))];
          }
        case Other(_) =>
          Broadcast(Forward(m), sender, open);
        case Unparseable =>
          outbox := outbox + [(sender, Error(BadFormatText))];
      }
    }

    /** The `close` handler. */
    method OnClose(c: ConnId)
      requires Valid()
      modifies this
      ensures Valid()
      ensures State() == Close(old(State()), c).reg
      ensures outbox == old(outbox)
    {
      clients := Unregister(clients, c);
      if phone == Some(c) {
        phone := None;
      }
      if vr == Some(c) {
        vr := None;
      }
    }

    /** One firing of the keep-alive interval. */
    method PingAll(open: ConnId -> bool)
      requires Valid()
      modifies this`outbox
      ensures Valid()
      ensures outbox == old(outbox) + KeepAlive(State(), open).sends
    {
      var cs := clients;
      var i := 0;
      ghost var done: seq<Send> := [];
      assert cs[..0] == [];
      while i < |cs|
        invariant 0 <= i <= |cs|
        invariant done == Visited(cs[..i], {}, open, Ping)
        invariant outbox == old(outbox) + done
      {
        assert cs[..i + 1][..i] == cs[..i];
        if open(cs[i]) {
          outbox := outbox + [(cs[i], Ping)];
          done := done + [(cs[i], Ping)];
        }
        i := i + 1;
      }
      assert cs[..i] == cs;
      VisitedIsAddressed(cs, {}, open, Ping);
    }

    /** Any one event, as the `ws` library delivers it. */
    method Handle(ev: Event)
      requires Valid()
      modifies this
      ensures Valid()
      ensures State() == Step(old(State()), ev).reg
      ensures outbox == old(outbox) + Step(old(State()), ev).sends
    {
      match ev {
        case Connected(c) => OnConnect(c);
        case Received(c, m, open) => OnMessage(c, m, open);
        case Closed(c) => OnClose(c);
        case Tick(open) => PingAll(open);
      }
    }
  }

  /** A server driven through a whole run of events ends in the state `Run`
      describes and has written exactly the frames it lists. */
  method Serve(evs: seq<Event>) returns (s: Server)
    ensures fresh(s) && s.Valid()
    ensures s.State() == Run(Empty, evs).reg && s.outbox == Run(Empty, evs).sends
  {
    s := new Server();
    var k := 0;
    while k < |evs|
      invariant 0 <= k <= |evs|
      invariant s.Valid()
      invariant s.State() == Run(Empty, evs[..k]).reg && s.outbox == Run(Empty, evs[..k]).sends
    {
      assert evs[..k + 1][..k] == evs[..k];
      s.Handle(evs[k]);
      k := k + 1;
    }
    assert evs[..k] == evs;
  }
}
