/** The routing rules of the WebSocket relay in server/server.js, stated on values.

    The relay keeps every accepted socket in an insertion-ordered set, plus two
    role slots: the phone (the swipe controller) and the VR headset (the spawner).
    Each event -- a connection, an inbound frame, a close, a keep-alive tick --
    yields a new registry and the frames it writes, each addressed to a socket. */
module Relay {
  import opened Options

  /** One accepted socket (a `ws` object of the server). */
  type ConnId = nat

  /** An inbound frame after JSON decoding, by its `type` field. `Other` is any
      other decoded value, including a number, string, boolean or array, whose
      `type` is undefined. `Unparseable` stands for a frame whose handling
      throws before anything is sent: text `JSON.parse` rejects, the value
      `null` (reading `type` throws), or a `swipe_right` / `spawn_confirmed`
      whose `objectId` the log line cannot turn into a string. */
  datatype Message =
    | Identify(clientType: string)
    | SwipeRight(objectId: string)
    | SpawnConfirmed(objectId: string)
    | Other(raw: string)
    | Unparseable

  /** An outbound frame. `Forward(m)` is the inbound message `m` passed on unchanged. */
  datatype Frame =
    | Established(text: string)
    | SwipeConfirmed(objectId: string)
    | Error(text: string)
    | Forward(msg: Message)
    | Ping

  type Send = (ConnId, Frame)

  const WelcomeText := "Connected to Dream Hackers server"
  const NoVrText := "VR client not connected"
  const BadFormatText := "Invalid message format"

  /** The open-socket set, kept in insertion order as a JavaScript Set iterates,
      and the two role slots. */
  datatype Registry = Registry(clients: seq<ConnId>, phone: Option<ConnId>, vr: Option<ConnId>)

  /** The registry of a freshly started server. */
  const Empty := Registry([], None, None)

  /** What one event does: the registry afterwards and the frames written, in order. */
  datatype Effect = Effect(reg: Registry, sends: seq<Send>)

  predicate NoDups(s: seq<ConnId>) {
    forall i, j :: 0 <= i < j < |s| ==> s[i] != s[j]
  }

  /** `a` is `b` with some elements left out, the rest in the same order. */
  predicate SubsequenceOf(a: seq<ConnId>, b: seq<ConnId>)
    decreases |b|
  {
    if a == [] then true
    else if b == [] then false
    else if a[0] == b[0] then SubsequenceOf(a[1..], b[1..])
    else SubsequenceOf(a, b[1..])
  }

  /** The sockets written to, in the order of the writes. */
  function Recipients(out: seq<Send>): (cs: seq<ConnId>)
    ensures |cs| == |out|
    ensures forall i :: 0 <= i < |out| ==> cs[i] == out[i].0
  {
    if out == [] then [] else [out[0].0] + Recipients(out[1..])
  }

  /** A slot is usable when it holds a socket whose state is OPEN. */
  predicate SlotOpen(slot: Option<ConnId>, open: ConnId -> bool) {
    slot.Some? && open(slot.value)
  }

  // ---------------------------------------------------------------------------
  // The socket set

  /** `clients.add(ws)`: a socket already present keeps its place. */
  function Register(cs: seq<ConnId>, c: ConnId): (r: seq<ConnId>)
    ensures forall x :: x in r <==> x in cs || x == c
    ensures NoDups(cs) ==> NoDups(r)
    ensures |cs| <= |r| && r[..|cs|] == cs
  {
    if c in cs then cs else cs + [c]
  }

  /** `clients.delete(ws)`: the others keep their relative order. */
  function Unregister(cs: seq<ConnId>, c: ConnId): (r: seq<ConnId>)
    ensures forall x :: x in r <==> x in cs && x != c
    ensures NoDups(cs) ==> NoDups(r)
    ensures |r| <= |cs|
    ensures c !in cs ==> r == cs
  {
    if cs == [] then []
    else if cs[0] == c then Unregister(cs[1..], c)
    else
      assert NoDups(cs) ==> cs[0] !in cs[1..] && NoDups(cs[1..]);
      [cs[0]] + Unregister(cs[1..], c)
  }

  /** The sockets of `cs`, in order, that are open and not in `skip`: the
      recipients of `broadcast` (skip = the sender) and of the keep-alive ping
      (skip = nobody). */
  function OpenExcept(cs: seq<ConnId>, skip: set<ConnId>, open: ConnId -> bool): (r: seq<ConnId>)
    ensures forall x :: x in r <==> x in cs && x !in skip && open(x)
    ensures NoDups(cs) ==> NoDups(r)
    ensures SubsequenceOf(r, cs)
  {
    if cs == [] then []
    else
      var rest := OpenExcept(cs[1..], skip, open);
      if cs[0] !in skip && open(cs[0]) then
        assert ([cs[0]] + rest)[1..] == rest;
        [cs[0]] + rest
      else
        assert rest != [] ==> rest[0] in rest && rest[0] != cs[0];
        rest
  }

  /** Visiting one more socket at the end extends the recipient list by at most
      that socket: the step a `forEach` over the set takes. */
  lemma {:induction false} OpenExceptSnoc(cs: seq<ConnId>, c: ConnId, skip: set<ConnId>, open: ConnId -> bool)
    ensures OpenExcept(cs + [c], skip, open)
         == OpenExcept(cs, skip, open) + (if c !in skip && open(c) then [c] else [])
  {
    var tail := if c !in skip && open(c) then [c] else [];
    if cs == [] {
      assert cs + [c] == [c];
      assert OpenExcept([c][1..], skip, open) == [];
    } else {
      var head := if cs[0] !in skip && open(cs[0]) then [cs[0]] else [];
      var ext := cs + [c];
      assert ext[0] == cs[0] && ext[1..] == cs[1..] + [c];
      calc {
        OpenExcept(ext, skip, open);
        head + OpenExcept(cs[1..] + [c], skip, open);
        { OpenExceptSnoc(cs[1..], c, skip, open); }
        head + (OpenExcept(cs[1..], skip, open) + tail);
        (head + OpenExcept(cs[1..], skip, open)) + tail;
      }
    }
  }

  /** The same frame written to each socket of `cs`, in order. */
  function Address(cs: seq<ConnId>, f: Frame): (out: seq<Send>)
    ensures |out| == |cs|
    ensures forall i :: 0 <= i < |cs| ==> out[i].0 == cs[i] && out[i].1 == f
  {
    if cs == [] then [] else [(cs[0], f)] + Address(cs[1..], f)
  }

  /** Addressing a list of sockets writes to exactly those sockets, in order. */
  lemma AddressedTo(cs: seq<ConnId>, f: Frame)
    ensures Recipients(Address(cs, f)) == cs
  {
    assert forall i :: 0 <= i < |cs| ==> Recipients(Address(cs, f))[i] == cs[i];
  }

  lemma AddressAppend(a: seq<ConnId>, b: seq<ConnId>, f: Frame)
    ensures Address(a + b, f) == Address(a, f) + Address(b, f)
  {
    assert forall i :: 0 <= i < |a + b| ==> Address(a + b, f)[i] == (Address(a, f) + Address(b, f))[i];
  }

  /** The frames a `forEach` over `cs` has written once it has visited every
      socket of `cs`: built from the back, one visited socket at a time. */
  function Visited(cs: seq<ConnId>, skip: set<ConnId>, open: ConnId -> bool, f: Frame): seq<Send>
    decreases |cs|
  {
    if cs == [] then []
    else
      var c := cs[|cs| - 1];
      Visited(cs[..|cs| - 1], skip, open, f) + (if c !in skip && open(c) then [(c, f)] else [])
  }

  /** Visiting the sockets one by one writes exactly the addressed recipients. */
  lemma {:induction false} VisitedIsAddressed(cs: seq<ConnId>, skip: set<ConnId>, open: ConnId -> bool, f: Frame)
    ensures Visited(cs, skip, open, f) == Address(OpenExcept(cs, skip, open), f)
    decreases |cs|
  {
    if cs != [] {
      var p, c := cs[..|cs| - 1], cs[|cs| - 1];
      assert cs == p + [c];
      VisitedIsAddressed(p, skip, open, f);
      OpenExceptSnoc(p, c, skip, open);
      AddressAppend(OpenExcept(p, skip, open), if c !in skip && open(c) then [c] else [], f);
    }
  }

  // ---------------------------------------------------------------------------
  // The three handlers of server/server.js and the keep-alive tick

  /** A new socket joins the set and is greeted; the role slots are untouched. */
  function Connect(r: Registry, c: ConnId): (e: Effect)
    ensures forall x :: x in e.reg.clients <==> x in r.clients || x == c
    ensures e.reg.phone == r.phone && e.reg.vr == r.vr
    ensures e.sends == [(c, Established(WelcomeText))]
  {
    Effect(r.(clients := Register(r.clients, c)), [(c, Established(WelcomeText))])
  }

  /** The first-match dispatch on the decoded `type` of a frame from `sender`. */
  function Receive(r: Registry, sender: ConnId, m: Message, open: ConnId -> bool): (e: Effect)
    // Only `identify` touches the registry, and never the socket set.
    ensures e.reg.clients == r.clients
    ensures !m.Identify? ==> e.reg == r
    // identify: fills the named slot with the sender, leaves the other one, writes nothing.
    ensures m.Identify? ==> e.sends == []
    ensures m == Identify("phone") ==> e.reg.phone == Some(sender) && e.reg.vr == r.vr
    ensures m == Identify("vr") ==> e.reg.vr == Some(sender) && e.reg.phone == r.phone
    ensures m.Identify? && m.clientType != "phone" && m.clientType != "vr" ==> e.reg == r
    // swipe_right with an open VR socket: the message to it first, then at most one
    // confirmation for the same object, and only to an open phone slot.
    ensures m.SwipeRight? && SlotOpen(r.vr, open) ==>
              1 <= |e.sends| <= 2 && e.sends[0] == (r.vr.value, Forward(m))
              && (|e.sends| == 2 <==> SlotOpen(r.phone, open))
              && (|e.sends| == 2 ==> e.sends[1] == (r.phone.value, SwipeConfirmed(m.objectId)))
    // swipe_right without one: a single error, to the sender.
    ensures m.SwipeRight? && !SlotOpen(r.vr, open) ==> e.sends == [(sender, Error(NoVrText))]
    // spawn_confirmed: passed on to an open phone slot, or dropped; never answered.
    ensures m.SpawnConfirmed? ==>
              |e.sends| <= 1 && (|e.sends| == 1 <==> SlotOpen(r.phone, open))
              && forall s :: s in e.sends ==> s == (r.phone.value, Forward(m))
    // anything else: unchanged, to every other open socket, in set order, each
    // socket once.
    ensures m.Other? ==>
              && (forall i :: 0 <= i < |e.sends| ==> e.sends[i].1 == Forward(m))
              && (forall x :: x in Recipients(e.sends) <==> x in r.clients && x != sender && open(x))
              && SubsequenceOf(Recipients(e.sends), r.clients)
              && (NoDups(r.clients) ==> NoDups(Recipients(e.sends)))
    // undecodable: a single error, to the sender.
    ensures m.Unparseable? ==> e.sends == [(sender, Error(BadFormatText))]
  {
    match m
    case Identify(clientType) =>
      if clientType == "phone" then Effect(r.(phone := Some(sender)), [])
      else if clientType == "vr" then Effect(r.(vr := Some(sender)), [])
      else Effect(r, [])
    case SwipeRight(objectId) =>
      if SlotOpen(r.vr, open) then
        var confirm := if SlotOpen(r.phone, open) then [(r.phone.value, SwipeConfirmed(objectId))] else [];
        Effect(r, [(r.vr.value, Forward(m))] + confirm)
      else
        Effect(r, [(sender, Error(NoVrText))])
    case SpawnConfirmed(_) =>
      Effect(r, if SlotOpen(r.phone, open) then [(r.phone.value, Forward(m))] else [])
    case Other(_) =>
      var peers := OpenExcept(r.clients, {sender}, open);
      AddressedTo(peers, Forward(m));
      Effect(r, Address(peers, Forward(m)))
    case Unparseable =>
      Effect(r, [(sender, Error(BadFormatText))])
  }

  /** A socket leaves the set; a slot is cleared only if it still holds that socket. */
  function Close(r: Registry, c: ConnId): (e: Effect)
    ensures forall x :: x in e.reg.clients <==> x in r.clients && x != c
    ensures r.phone == Some(c) ==> e.reg.phone == None
    ensures r.phone != Some(c) ==> e.reg.phone == r.phone
    ensures r.vr == Some(c) ==> e.reg.vr == None
    ensures r.vr != Some(c) ==> e.reg.vr == r.vr
    ensures e.sends == []
  {
    var phone := if r.phone == Some(c) then None else r.phone;
    var vr := if r.vr == Some(c) then None else r.vr;
    Effect(Registry(Unregister(r.clients, c), phone, vr), [])
  }

  /** The 30-second keep-alive tick, as one step: a ping to every open socket. */
  function KeepAlive(r: Registry, open: ConnId -> bool): (e: Effect)
    ensures e.reg == r
    ensures forall i :: 0 <= i < |e.sends| ==> e.sends[i].1 == Ping
    ensures forall x :: x in Recipients(e.sends) <==> x in r.clients && open(x)
    ensures SubsequenceOf(Recipients(e.sends), r.clients)
    ensures NoDups(r.clients) ==> NoDups(Recipients(e.sends))
  {
    AddressedTo(OpenExcept(r.clients, {}, open), Ping);
    Effect(r, Address(OpenExcept(r.clients, {}, open), Ping))
  }

  // ---------------------------------------------------------------------------
  // Runs of events

  datatype Event =
    | Connected(conn: ConnId)
    | Received(conn: ConnId, msg: Message, open: ConnId -> bool)
    | Closed(conn: ConnId)
    | Tick(open: ConnId -> bool)

  function Step(r: Registry, ev: Event): Effect {
    match ev
    case Connected(c) => Connect(r, c)
    case Received(c, m, open) => Receive(r, c, m, open)
    case Closed(c) => Close(r, c)
    case Tick(open) => KeepAlive(r, open)
  }

  /** The events applied in order; the frames of all of them, in order. */
  function Run(r: Registry, evs: seq<Event>): Effect
    decreases |evs|
  {
    if evs == [] then Effect(r, [])
    else
      var before := Run(r, evs[..|evs| - 1]);
      var last := Step(before.reg, evs[|evs| - 1]);
      Effect(last.reg, before.sends + last.sends)
  }

  /** No socket is ever listed twice, whatever happens. */
  lemma {:induction false} RunKeepsNoDups(r: Registry, evs: seq<Event>)
    requires NoDups(r.clients)
    ensures NoDups(Run(r, evs).reg.clients)
    decreases |evs|
  {
    if evs != [] {
      RunKeepsNoDups(r, evs[..|evs| - 1]);
    }
  }

  /** Each role slot is empty or holds a socket of the set. */
  predicate SlotsInSet(r: Registry) {
    && (r.phone.Some? ==> r.phone.value in r.clients)
    && (r.vr.Some? ==> r.vr.value in r.clients)
  }

  /** Frames arrive only from sockets the set holds at that point of the run,
      as the `ws` library delivers `message` events only between `connection`
      and `close`. */
  predicate FromMembers(r: Registry, evs: seq<Event>)
    decreases |evs|
  {
    || evs == []
    || (&& FromMembers(r, evs[..|evs| - 1])
        && (evs[|evs| - 1].Received? ==> evs[|evs| - 1].conn in Run(r, evs[..|evs| - 1]).reg.clients))
  }

  /** One event keeps the slots pointing into the set: an identify only names
      a member, and a close clears the slot of the socket it removes. */
  lemma StepKeepsSlotsInSet(r: Registry, ev: Event)
    requires SlotsInSet(r)
    requires ev.Received? ==> ev.conn in r.clients
    ensures SlotsInSet(Step(r, ev).reg)
  {
  }

  /** A role slot never holds a socket that has left the set. */
  lemma {:induction false} RunKeepsSlotsInSet(r: Registry, evs: seq<Event>)
    requires SlotsInSet(r) && FromMembers(r, evs)
    ensures SlotsInSet(Run(r, evs).reg)
    decreases |evs|
  {
    if evs != [] {
      var p := evs[..|evs| - 1];
      RunKeepsSlotsInSet(r, p);
      StepKeepsSlotsInSet(Run(r, p).reg, evs[|evs| - 1]);
    }
  }

  datatype Role = PhoneRole | VrRole

  function RoleName(role: Role): string {
    match role
    case PhoneRole => "phone"
    case VrRole => "vr"
  }

  function Slot(r: Registry, role: Role): Option<ConnId> {
    match role
    case PhoneRole => r.phone
    case VrRole => r.vr
  }

  /** `ev` is an `identify` for `role`. */
  predicate Claims(ev: Event, role: Role) {
    ev.Received? && ev.msg == Identify(RoleName(role))
  }

  /** Nothing in `evs` claims `role` or closes `x`. */
  predicate Undisturbed(evs: seq<Event>, role: Role, x: ConnId) {
    forall j :: 0 <= j < |evs| ==> !Claims(evs[j], role) && !(evs[j].Closed? && evs[j].conn == x)
  }

  /** `x` claimed `role` at some point in `evs`, and after that nobody else
      claimed it and `x` did not close. */
  ghost predicate LastClaimant(evs: seq<Event>, role: Role, x: ConnId) {
    exists i :: 0 <= i < |evs| && Claims(evs[i], role) && evs[i].conn == x && Undisturbed(evs[i + 1..], role, x)
  }

  lemma UndisturbedSnoc(evs: seq<Event>, ev: Event, role: Role, x: ConnId)
    ensures Undisturbed(evs + [ev], role, x)
        <==> Undisturbed(evs, role, x) && !Claims(ev, role) && !(ev.Closed? && ev.conn == x)
  {
    if Undisturbed(evs, role, x) && !Claims(ev, role) && !(ev.Closed? && ev.conn == x) {
      forall j | 0 <= j < |evs + [ev]|
        ensures !Claims((evs + [ev])[j], role) && !((evs + [ev])[j].Closed? && (evs + [ev])[j].conn == x)
      {
        if j < |evs| { assert (evs + [ev])[j] == evs[j]; }
      }
    }
    if Undisturbed(evs + [ev], role, x) {
      assert (evs + [ev])[|evs|] == ev;
      forall j | 0 <= j < |evs| ensures !Claims(evs[j], role) && !(evs[j].Closed? && evs[j].conn == x) {
        assert (evs + [ev])[j] == evs[j];
      }
    }
  }

  /** What one event does to a role slot. */
  lemma StepSlot(r: Registry, ev: Event, role: Role)
    ensures Claims(ev, role) ==> Slot(Step(r, ev).reg, role) == Some(ev.conn)
    ensures ev.Closed? ==> Slot(Step(r, ev).reg, role)
                           == (if Slot(r, role) == Some(ev.conn) then None else Slot(r, role))
    ensures !Claims(ev, role) && !ev.Closed? ==> Slot(Step(r, ev).reg, role) == Slot(r, role)
  {
  }

  /** Appending one event to a run: it makes its own sender the last claimant,
      or it removes `x` as one, or it leaves the question as it was. */
  lemma LastClaimantSnoc(p: seq<Event>, ev: Event, role: Role, x: ConnId)
    ensures LastClaimant(p + [ev], role, x)
        <==> (Claims(ev, role) && ev.conn == x)
             || (LastClaimant(p, role, x) && !Claims(ev, role) && !(ev.Closed? && ev.conn == x))
  {
    if Claims(ev, role) && ev.conn == x {
      NewClaimantIsLast(p, ev, role, x);
    } else if LastClaimant(p, role, x) && !Claims(ev, role) && !(ev.Closed? && ev.conn == x) {
      LastClaimantKept(p, ev, role, x);
    }
    if LastClaimant(p + [ev], role, x) && !(Claims(ev, role) && ev.conn == x) {
      LastClaimantWasLast(p, ev, role, x);
    }
  }

  lemma NewClaimantIsLast(p: seq<Event>, ev: Event, role: Role, x: ConnId)
    requires Claims(ev, role) && ev.conn == x
    ensures LastClaimant(p + [ev], role, x)
  {
    var evs := p + [ev];
    assert evs[|p|] == ev && evs[|p| + 1..] == [];
    assert Undisturbed(evs[|p| + 1..], role, x);
  }

  lemma LastClaimantKept(p: seq<Event>, ev: Event, role: Role, x: ConnId)
    requires LastClaimant(p, role, x) && !Claims(ev, role) && !(ev.Closed? && ev.conn == x)
    ensures LastClaimant(p + [ev], role, x)
  {
    var evs := p + [ev];
    var i :| 0 <= i < |p| && Claims(p[i], role) && p[i].conn == x && Undisturbed(p[i + 1..], role, x);
    assert evs[i] == p[i] && evs[i + 1..] == p[i + 1..] + [ev];
    UndisturbedSnoc(p[i + 1..], ev, role, x);
  }

  lemma LastClaimantWasLast(p: seq<Event>, ev: Event, role: Role, x: ConnId)
    requires LastClaimant(p + [ev], role, x) && !(Claims(ev, role) && ev.conn == x)
    ensures LastClaimant(p, role, x) && !Claims(ev, role) && !(ev.Closed? && ev.conn == x)
  {
    var evs := p + [ev];
    var i :| 0 <= i < |evs| && Claims(evs[i], role) && evs[i].conn == x && Undisturbed(evs[i + 1..], role, x);
    assert evs[|p|] == ev;
    assert i < |p|;
    assert evs[i] == p[i] && evs[i + 1..] == p[i + 1..] + [ev];
    UndisturbedSnoc(p[i + 1..], ev, role, x);
  }

  /** A role slot after any run holds exactly the socket that most recently
      identified for that role and has not closed since -- or, if nobody
      identified for it during the run, the socket it held at the start, unless
      that one closed. So identifying for one role never moves the other slot,
      and closing a socket that was replaced in its slot leaves the new holder. */
  lemma {:induction false} SlotIsLastClaimant(r: Registry, evs: seq<Event>, role: Role, x: ConnId)
    ensures Slot(Run(r, evs).reg, role) == Some(x)
        <==> LastClaimant(evs, role, x) || (Slot(r, role) == Some(x) && Undisturbed(evs, role, x))
    decreases |evs|
  {
    if evs == [] {
      assert !LastClaimant(evs, role, x);
    } else {
      var p, ev := evs[..|evs| - 1], evs[|evs| - 1];
      assert evs == p + [ev];
      SlotIsLastClaimant(r, p, role, x);
      StepSlot(Run(r, p).reg, ev, role);
      UndisturbedSnoc(p, ev, role, x);
      LastClaimantSnoc(p, ev, role, x);
    }
  }

  /** The replaced-phone case on its own: a phone replaced by a newer one stays
      in the socket set until it closes, and its close leaves the newer phone
      in the slot. */
  lemma ReplacedPhoneSurvivesOldClose(r: Registry, prior: ConnId, newer: ConnId, open: ConnId -> bool)
    requires prior != newer && prior in r.clients && newer in r.clients
    ensures var r1 := Receive(r, prior, Identify("phone"), open).reg;
            var r2 := Receive(r1, newer, Identify("phone"), open).reg;
            var r3 := Close(r2, prior).reg;
            prior in r2.clients && r2.phone == Some(newer) && r3.phone == Some(newer) && newer in r3.clients
  {
  }
}
