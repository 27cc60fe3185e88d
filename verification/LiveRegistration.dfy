/** How the live monitor's reader thread and the accept path share the pending
    buffers (ai_fingerprint/live_inference.py, register_connection,
    _append_registered_packet_locked, _reader_loop). The reader handles a packet
    in two locked steps; a registration can fall between them. */
module LiveRegistration {
  import opened Results
  import opened Seqs
  import opened Decimals

  datatype Peer = Peer(ip: string, port: int)

  /** The name of a trace. */
  datatype Alias = Alias(text: string)

  datatype Packet = Packet(peer: Peer, id: nat)

  const PENDING_LIMIT: nat := 256

  /** The three dictionaries of the monitor. */
  datatype Table = Table(aliases: map<Peer, Alias>, pending: map<Peer, seq<Packet>>, traces: map<Alias, seq<Packet>>)
  {
    function Pending(peer: Peer): seq<Packet> {
      if peer in pending then pending[peer] else []
    }

    function Trace(name: Alias): seq<Packet> {
      if name in traces then traces[name] else []
    }

    /** The reader's first locked step. */
    function Lookup(peer: Peer): Option<Alias> {
      if peer in aliases then Some(aliases[peer]) else None
    }

    /** The reader's second locked step, given what the first one found. */
    function Deposit(packet: Packet, found: Option<Alias>): Table {
      match found
      case None => this.(pending := pending[packet.peer := Bounded(Pending(packet.peer) + [packet])])
      case Some(name) => this.(traces := traces[name := Trace(name) + [packet]])
    }

    /** register_connection once its arguments are accepted. */
    function Register(peer: Peer, explicit: string): Table {
      if peer in aliases then this else
      var name := ChosenAlias(explicit, |aliases|);
      Table(aliases[peer := name],
            pending - {peer},
            if Pending(peer) == [] then traces else traces[name := Trace(name) + Pending(peer)])
    }
  }

  /** A deque with maxlen keeps its newest elements. */
  function Bounded(packets: seq<Packet>): seq<Packet> {
    if |packets| > PENDING_LIMIT then packets[|packets| - PENDING_LIMIT..] else packets
  }

  function ChosenAlias(explicit: string, registered: nat): (name: Alias)
    ensures name.text != ""
  {
    Alias(if explicit != "" then explicit else "trace_" + ThreeDigits(registered + 1))
  }

  datatype RegistrationError = ArgumentsRequired

  class LiveMonitor {
    var aliases: map<Peer, Alias>
    var pending: map<Peer, seq<Packet>>
    var traces: map<Alias, seq<Packet>>

    function Abstract(): Table
      reads this
    {
      Table(aliases, pending, traces)
    }

    constructor ()
      ensures Abstract() == Table(map[], map[], map[])
    {
      aliases, pending, traces := map[], map[], map[];
    }

    method LookupAlias(peer: Peer) returns (found: Option<Alias>)
      ensures found == Abstract().Lookup(peer)
    {
      if peer in aliases { return Some(aliases[peer]); }
      return None;
    }

    method AppendRegisteredPacket(name: Alias, packet: Packet)
      modifies this`traces
      ensures traces == old(traces)[name := old(Abstract().Trace(name)) + [packet]]
    {
      if name !in traces { traces := traces[name := []]; }
      traces := traces[name := traces[name] + [packet]];
    }

    /** The loop of register_connection over the released packets. */
    method AppendAll(name: Alias, packets: seq<Packet>)
      modifies this`traces
      ensures traces == if packets == [] then old(traces) else old(traces)[name := old(Abstract().Trace(name)) + packets]
    {
      ghost var before := Abstract().Trace(name);
      for k := 0 to |packets|
        invariant Abstract().Trace(name) == before + packets[..k]
        invariant k == 0 ==> traces == old(traces)
        invariant k > 0 ==> traces == old(traces)[name := Abstract().Trace(name)]
      {
        AppendRegisteredPacket(name, packets[k]);
        assert packets[..k + 1] == packets[..k] + [packets[k]];
      }
      assert packets[..|packets|] == packets;
    }

    method DepositPacket(packet: Packet, found: Option<Alias>)
      modifies this
      ensures Abstract() == old(Abstract()).Deposit(packet, found)
    {
      match found {
        case None =>
          var buffer := Abstract().Pending(packet.peer) + [packet];
          if |buffer| > PENDING_LIMIT { buffer := buffer[|buffer| - PENDING_LIMIT..]; }
          pending := pending[packet.peer := buffer];
        case Some(name) =>
          AppendRegisteredPacket(name, packet);
      }
    }

    method RegisterConnection(ip: string, port: int, explicit: string) returns (r: Result<Alias, RegistrationError>)
      modifies this
      ensures (ip == "" || port <= 0) ==> r == Err(ArgumentsRequired) && Abstract() == old(Abstract())
      ensures ip != "" && port > 0 ==>
                && Abstract() == old(Abstract()).Register(Peer(ip, port), explicit)
                && Abstract().Lookup(Peer(ip, port)).Some? && r == Ok(Abstract().Lookup(Peer(ip, port)).value)
    {
      if ip == "" || port <= 0 { return Err(ArgumentsRequired); }
      var peer := Peer(ip, port);
      if peer in aliases { return Ok(aliases[peer]); }
      var selected := ChosenAlias(explicit, |aliases|);
      aliases := aliases[peer := selected];
      var released := Abstract().Pending(peer);
      pending := pending - {peer};
      AppendAll(selected, released);
      return Ok(selected);
    }
  }

  // ----- the two threads -----

  /** The packet between the reader's two steps, and the alias it looked up. */
  datatype InFlight = InFlight(packet: Packet, found: Option<Alias>)

  /** read lists all packets in reader order; evicted and released record, per
      peer, what the 256 limit dropped and how many packets registration
      released. Those three are history: no step depends on them. */
  datatype System = System(
    table: Table,
    inFlight: Option<InFlight>,
    read: seq<Packet>,
    evicted: map<Peer, seq<Packet>>,
    released: map<Peer, nat>)

  datatype Step =
    | Read(packet: Packet)
    | Store
    | Accept(peer: Peer, explicit: string)

  predicate Enabled(s: System, step: Step) {
    match step
    case Read(_) => s.inFlight.None?
    case Store => s.inFlight.Some?
    case Accept(_, _) => true
  }

  function Perform(s: System, step: Step): System
    requires Enabled(s, step)
  {
    match step
    case Read(packet) =>
      s.(inFlight := Some(InFlight(packet, s.table.Lookup(packet.peer))), read := s.read + [packet])
    case Store =>
      var packet, found := s.inFlight.value.packet, s.inFlight.value.found;
      var buffer := s.table.Pending(packet.peer);
      s.(table := s.table.Deposit(packet, found),
         inFlight := None,
         evicted := if found.None? && |buffer| >= PENDING_LIMIT
                    then s.evicted[packet.peer := (if packet.peer in s.evicted then s.evicted[packet.peer] else [])
                                              + buffer[..|buffer| + 1 - PENDING_LIMIT]]
                    else s.evicted)
    case Accept(peer, explicit) =>
      s.(table := s.table.Register(peer, explicit),
         released := if peer in s.table.aliases then s.released else s.released[peer := |s.table.Pending(peer)|])
  }

  const START := System(Table(map[], map[], map[]), None, [], map[], map[])

  function Run(steps: seq<Step>): Option<System> {
    if steps == [] then Some(START) else
    var before := Run(steps[..|steps| - 1]);
    if before.Some? && Enabled(before.value, steps[|steps| - 1])
    then Some(Perform(before.value, steps[|steps| - 1])) else None
  }

  /** The packets of one peer, in order. */
  function Of(packets: seq<Packet>, peer: Peer): seq<Packet> {
    Filter(packets, From(peer))
  }

  function From(peer: Peer): Packet -> bool {
    (p: Packet) => p.peer == peer
  }

  /** What the system holds for one peer. */
  datatype View = View(
    name: Option<Alias>,      // its alias, once registered
    read: seq<Packet>,         // all its packets, in reader order
    evicted: seq<Packet>,      // dropped by the limit of the pending buffer
    delivered: seq<Packet>,    // in its trace
    released: nat,             // how many of those registration took from the buffer
    pending: seq<Packet>,
    flying: Option<InFlight>)  // between the reader's two steps
  {
    function Flying(): seq<Packet> {
      if flying.Some? then [flying.value.packet] else []
    }

    /** Each packet is in exactly one place and all places are in reader order.
        Before registration: evicted, then at most 256 pending, then in flight.
        After it: evicted, released by registration, at most one that
        registration overtook and that stays pending, then those appended to
        the trace directly, and one in flight. */
    ghost predicate Inv() {
      && released <= |delivered|
      && read == evicted + (delivered[..released] + (pending + (delivered[released..] + Flying())))
      && match name
         case None =>
           && delivered == []
           && |pending| <= PENDING_LIMIT
           && (evicted != [] ==> |pending| == PENDING_LIMIT)
           && (flying.Some? ==> flying.value.found.None?)
         case Some(own) =>
           && |pending| <= 1
           && (flying.Some? ==>
                 match flying.value.found
                 case None => pending == [] && released == |delivered|
                 case Some(found) => found == own)
    }

    function Reading(packet: Packet): View {
      this.(read := read + [packet], flying := Some(InFlight(packet, name)))
    }

    function Appending(): View
      requires flying.Some?
    {
      this.(delivered := delivered + [flying.value.packet], flying := None)
    }

    function Buffering(): View
      requires flying.Some?
    {
      var longer := pending + [flying.value.packet];
      var excess := if |longer| > PENDING_LIMIT then |longer| - PENDING_LIMIT else 0;
      this.(pending := longer[excess..], evicted := evicted + longer[..excess], flying := None)
    }

    function Registering(selected: Alias): View {
      this.(name := Some(selected), delivered := pending, released := |pending|, pending := [])
    }
  }

  lemma ReadingKeeps(v: View, packet: Packet)
    requires v.Inv() && v.flying.None?
    ensures v.Reading(packet).Inv()
  {
    var tail := v.delivered[v.released..];
    assert tail + [] == tail;
    assert v.read + [packet] == v.evicted + (v.delivered[..v.released] + (v.pending + (tail + [packet])));
  }

  lemma AppendingKeeps(v: View)
    requires v.Inv() && v.flying.Some? && v.flying.value.found.Some?
    ensures v.Appending().Inv()
  {
    var packet := v.flying.value.packet;
    assert (v.delivered + [packet])[..v.released] == v.delivered[..v.released];
    assert (v.delivered + [packet])[v.released..] == v.delivered[v.released..] + [packet];
    assert v.Appending().delivered[v.released..] + [] == v.delivered[v.released..] + [packet];
  }

  lemma BufferingKeeps(v: View)
    requires v.Inv() && v.flying.Some? && v.flying.value.found.None?
    ensures v.Buffering().Inv()
  {
    var packet, w := v.flying.value.packet, v.Buffering();
    assert v.delivered[v.released..] == [];
    var before, longer := v.delivered[..v.released], v.pending + [packet];
    assert v.pending + ([] + [packet]) == longer;
    assert v.read == v.evicted + (before + longer);
    assert w.pending + ([] + []) == w.pending;
    if |longer| > PENDING_LIMIT {
      assert before == [];
      assert longer == longer[..1] + longer[1..];
      assert v.evicted + ([] + longer) == (v.evicted + longer[..1]) + ([] + longer[1..]);
    } else {
      assert longer[..0] == [] && longer[0..] == longer && v.evicted + [] == v.evicted;
    }
  }

  lemma RegisteringKeeps(v: View, selected: Alias)
    requires v.Inv() && v.name.None?
    ensures v.Registering(selected).Inv()
  {
    assert v.delivered[..v.released] == [] && v.delivered[v.released..] == [];
    assert v.pending[..|v.pending|] == v.pending && v.pending[|v.pending|..] == [];
    assert [] + (v.pending + ([] + v.Flying())) == v.pending + ([] + ([] + v.Flying()));
  }

  function ViewOf(s: System, peer: Peer): View {
    View(s.table.Lookup(peer),
         Of(s.read, peer),
         if peer in s.evicted then s.evicted[peer] else [],
         if peer in s.table.aliases then Of(s.table.Trace(s.table.aliases[peer]), peer) else [],
         if peer in s.released then s.released[peer] else 0,
         s.table.Pending(peer),
         if s.inFlight.Some? && s.inFlight.value.packet.peer == peer then s.inFlight else None)
  }

  /** A buffer holds its own peer's packets, and no trace but the peer's own
      holds any. */
  ghost predicate Placed(s: System, peer: Peer) {
    && (forall p :: p in s.table.Pending(peer) ==> p.peer == peer)
    && (forall name :: s.table.Lookup(peer) != Some(name) ==> Of(s.table.Trace(name), peer) == [])
  }

  lemma OfAppend(a: seq<Packet>, b: seq<Packet>, peer: Peer)
    ensures Of(a + b, peer) == Of(a, peer) + Of(b, peer)
  {
    FilterAppend(a, b, From(peer));
  }

  lemma OfOne(packet: Packet, peer: Peer)
    ensures Of([packet], peer) == if packet.peer == peer then [packet] else []
  {
    assert [] + [packet] == [packet];
    FilterLast([], packet, From(peer));
  }

  lemma ReadView(s: System, packet: Packet, peer: Peer)
    requires s.inFlight.None?
    ensures ViewOf(Perform(s, Read(packet)), peer) ==
            if packet.peer == peer then ViewOf(s, peer).Reading(packet) else ViewOf(s, peer)
  {
    var v, w := ViewOf(s, peer), ViewOf(Perform(s, Read(packet)), peer);
    OfAppend(s.read, [packet], peer);
    OfOne(packet, peer);
    assert w.read == v.read + if packet.peer == peer then [packet] else [];
    assert w == v.(read := w.read, flying := w.flying);
  }

  lemma ReadPlaced(s: System, packet: Packet, peer: Peer)
    requires Placed(s, peer) && s.inFlight.None?
    ensures Placed(Perform(s, Read(packet)), peer)
  {
    assert Perform(s, Read(packet)).table == s.table;
  }

  lemma AppendView(s: System, peer: Peer)
    requires Placed(s, peer) && s.inFlight.Some? && s.inFlight.value.found.Some?
    requires s.inFlight.value.packet.peer == peer ==> s.inFlight.value.found == s.table.Lookup(peer)
    ensures var t := Perform(s, Store);
            && Placed(t, peer)
            && ViewOf(t, peer) ==
               if s.inFlight.value.packet.peer == peer then ViewOf(s, peer).Appending() else ViewOf(s, peer)
  {
    var packet, t := s.inFlight.value.packet, Perform(s, Store);
    AppendTraces(s, peer);
    assert t.table.aliases == s.table.aliases && t.table.pending == s.table.pending;
    var v, w := ViewOf(s, peer), ViewOf(t, peer);
    assert w.delivered == if packet.peer == peer then v.delivered + [packet] else v.delivered;
    assert w == v.(delivered := w.delivered, flying := w.flying);
  }

  lemma AppendTraces(s: System, peer: Peer)
    requires s.inFlight.Some? && s.inFlight.value.found.Some?
    ensures var packet := s.inFlight.value.packet;
            forall other :: Of(Perform(s, Store).table.Trace(other), peer) ==
              Of(s.table.Trace(other), peer)
              + if Some(other) == s.inFlight.value.found && packet.peer == peer then [packet] else []
  {
    var packet, t := s.inFlight.value.packet, Perform(s, Store);
    forall other
      ensures Of(t.table.Trace(other), peer) ==
              Of(s.table.Trace(other), peer)
              + if Some(other) == s.inFlight.value.found && packet.peer == peer then [packet] else []
    {
      if Some(other) == s.inFlight.value.found {
        assert t.table.Trace(other) == s.table.Trace(other) + [packet];
        OfAppend(s.table.Trace(other), [packet], peer);
        OfOne(packet, peer);
      } else {
        assert t.table.Trace(other) == s.table.Trace(other);
      }
    }
  }

  lemma BufferPlaced(s: System, peer: Peer)
    requires Placed(s, peer) && s.inFlight.Some? && s.inFlight.value.found.None?
    ensures Placed(Perform(s, Store), peer)
  {
    var t := Perform(s, Store);
    assert t.table.traces == s.table.traces && t.table.aliases == s.table.aliases;
    assert forall name :: t.table.Trace(name) == s.table.Trace(name);
  }

  lemma BufferView(s: System, peer: Peer)
    requires s.inFlight.Some? && s.inFlight.value.found.None?
    requires |s.table.Pending(peer)| <= PENDING_LIMIT
    ensures ViewOf(Perform(s, Store), peer) ==
            if s.inFlight.value.packet.peer == peer then ViewOf(s, peer).Buffering() else ViewOf(s, peer)
  {
    var packet, t := s.inFlight.value.packet, Perform(s, Store);
    var v, w := ViewOf(s, peer), ViewOf(t, peer);
    assert t.table.traces == s.table.traces && t.table.aliases == s.table.aliases;
    assert w == v.(pending := w.pending, evicted := w.evicted, flying := w.flying);
    if packet.peer == peer {
      ExcessOf(v.pending, packet, v.evicted);
      assert w.pending == v.Buffering().pending && w.evicted == v.Buffering().evicted;
    }
  }

  lemma ExcessOf(buffer: seq<Packet>, packet: Packet, evicted: seq<Packet>)
    requires |buffer| <= PENDING_LIMIT
    ensures |buffer| == PENDING_LIMIT ==> (buffer + [packet])[..1] == buffer[..1]
    ensures |buffer| < PENDING_LIMIT ==>
              (buffer + [packet])[0..] == buffer + [packet] && evicted + (buffer + [packet])[..0] == evicted
  {
  }

  /** t is s after peer registered was given the alias name. */
  ghost predicate Registered(s: System, t: System, registered: Peer, name: Alias) {
    && registered !in s.table.aliases
    && t.table.aliases == s.table.aliases[registered := name]
    && t.table.pending == s.table.pending - {registered}
    && (forall other :: other != name ==> t.table.Trace(other) == s.table.Trace(other))
    && t.table.Trace(name) == s.table.Trace(name) + s.table.Pending(registered)
    && t.released == s.released[registered := |s.table.Pending(registered)|]
    && t.read == s.read && t.evicted == s.evicted && t.inFlight == s.inFlight
  }

  lemma AcceptRegisters(s: System, registered: Peer, explicit: string)
    requires registered !in s.table.aliases
    ensures Registered(s, Perform(s, Accept(registered, explicit)), registered, ChosenAlias(explicit, |s.table.aliases|))
  {
  }

  lemma AcceptView(s: System, registered: Peer, explicit: string, peer: Peer)
    requires Placed(s, peer) && Placed(s, registered)
    ensures var t := Perform(s, Accept(registered, explicit));
            && Placed(t, peer)
            && ViewOf(t, peer) ==
               if registered == peer && peer !in s.table.aliases
               then ViewOf(s, peer).Registering(ChosenAlias(explicit, |s.table.aliases|)) else ViewOf(s, peer)
  {
    if registered !in s.table.aliases {
      AcceptRegisters(s, registered, explicit);
      RegisteredView(s, Perform(s, Accept(registered, explicit)), registered, ChosenAlias(explicit, |s.table.aliases|), peer);
    }
  }

  lemma RegisteredView(s: System, t: System, registered: Peer, name: Alias, peer: Peer)
    requires Placed(s, peer) && Placed(s, registered) && Registered(s, t, registered, name)
    ensures Placed(t, peer)
    ensures ViewOf(t, peer) == if registered == peer then ViewOf(s, peer).Registering(name) else ViewOf(s, peer)
  {
    RegisteredTraces(s, t, registered, name, peer);
    var v, w := ViewOf(s, peer), ViewOf(t, peer);
    if registered == peer {
      assert w.delivered == v.pending by { assert [] + v.pending == v.pending; }
      assert w.pending == [] && w.released == |v.pending|;
      assert w == v.(name := w.name, delivered := w.delivered, released := w.released, pending := w.pending);
    } else {
      assert t.table.Lookup(peer) == s.table.Lookup(peer) && t.table.Pending(peer) == s.table.Pending(peer);
      assert w.delivered == v.delivered;
      assert w == v;
    }
  }

  lemma RegisteredTraces(s: System, t: System, registered: Peer, name: Alias, peer: Peer)
    requires Placed(s, peer) && Placed(s, registered) && Registered(s, t, registered, name)
    ensures Placed(t, peer)
    ensures forall other :: Of(t.table.Trace(other), peer) ==
              Of(s.table.Trace(other), peer) + if other == name && registered == peer then s.table.Pending(peer) else []
  {
    var buffer := s.table.Pending(registered);
    OfAppend(s.table.Trace(name), buffer, peer);
    if registered == peer { FilterEverything(buffer, From(peer)); } else { FilterNothing(buffer, From(peer)); }
    forall other
      ensures Of(t.table.Trace(other), peer) ==
              Of(s.table.Trace(other), peer) + if other == name && registered == peer then s.table.Pending(peer) else []
    {
    }
  }

  /** Under every interleaving, every packet of every peer is in exactly one of
      its trace, its pending buffer, the packets evicted by the limit, or in
      flight, and all of these are in reader order. */
  lemma {:induction false} NoPacketLostOrDuplicated(steps: seq<Step>, peer: Peer)
    requires Run(steps).Some?
    ensures Placed(Run(steps).value, peer) && ViewOf(Run(steps).value, peer).Inv()
  {
    if steps == [] {
      assert Of([], peer) == [];
      assert ViewOf(START, peer) == View(None, [], [], [], 0, [], None);
    } else {
      var before := steps[..|steps| - 1];
      var s := Run(before).value;
      NoPacketLostOrDuplicated(before, peer);
      match steps[|steps| - 1] {
        case Read(packet) =>
          ReadPlaced(s, packet, peer);
          ReadView(s, packet, peer);
          if packet.peer == peer { ReadingKeeps(ViewOf(s, peer), packet); }
        case Store =>
          StoreKeeps(s, peer);
        case Accept(registered, explicit) =>
          NoPacketLostOrDuplicated(before, registered);
          AcceptView(s, registered, explicit, peer);
          if registered == peer && peer !in s.table.aliases {
            RegisteringKeeps(ViewOf(s, peer), ChosenAlias(explicit, |s.table.aliases|));
          }
      }
    }
  }

  lemma StoreKeeps(s: System, peer: Peer)
    requires Placed(s, peer) && ViewOf(s, peer).Inv() && s.inFlight.Some?
    ensures Placed(Perform(s, Store), peer) && ViewOf(Perform(s, Store), peer).Inv()
  {
    if s.inFlight.value.found.Some? {
      AppendView(s, peer);
      if s.inFlight.value.packet.peer == peer { AppendingKeeps(ViewOf(s, peer)); }
    } else {
      BufferPlaced(s, peer);
      BufferView(s, peer);
      if s.inFlight.value.packet.peer == peer { BufferingKeeps(ViewOf(s, peer)); }
    }
  }

  /** The packets of a peer that the reader has stored: all it has read, except
      one between the two steps. */
  function Stored(s: System, peer: Peer): seq<Packet> {
    var all, flying := Of(s.read, peer), |ViewOf(s, peer).Flying()|;
    if flying <= |all| then all[..|all| - flying] else []
  }

  /** Before registration the buffer is exactly the most recent 256 packets that
      the reader has stored. */
  lemma {:induction false} PendingIsMostRecent(steps: seq<Step>, peer: Peer)
    requires Run(steps).Some? && peer !in Run(steps).value.table.aliases
    ensures var pending, stored := Run(steps).value.table.Pending(peer), Stored(Run(steps).value, peer);
            pending == if |stored| <= 256 then stored else stored[|stored| - 256..]
  {
    hide Run;
    NoPacketLostOrDuplicated(steps, peer);
    UnregisteredView(ViewOf(Run(steps).value, peer));
  }

  lemma UnregisteredView(v: View)
    requires v.Inv() && v.name.None?
    ensures |v.Flying()| <= |v.read| && v.pending == Bounded(v.read[..|v.read| - |v.Flying()|])
  {
    assert v.delivered[..v.released] == [] && v.delivered[v.released..] == [];
    assert v.read == v.evicted + v.pending + v.Flying();
    assert v.read[..|v.read| - |v.Flying()|] == v.evicted + v.pending;
  }

  // ----- whole traces -----

  /** No other connection was registered under this peer's alias. */
  ghost predicate OwnsAlias(table: Table, peer: Peer) {
    peer in table.aliases && forall other :: other in table.aliases && other != peer ==> table.aliases[other] != table.aliases[peer]
  }

  lemma TraceOfOwner(packets: seq<Packet>, peer: Peer)
    requires forall other :: other != peer ==> Of(packets, other) == []
    ensures Of(packets, peer) == packets
  {
    forall p | p in packets ensures p.peer == peer {
      FilterMember(packets, From(p.peer), p);
      assert p.peer != peer ==> Of(packets, p.peer) == [];
    }
    FilterEverything(packets, From(peer));
  }

  /** A trace whose alias belongs to one connection is in reader order: it is
      the connection's packets without the evicted ones and the one that
      registration overtook. */
  lemma OwnedTraceInReaderOrder(steps: seq<Step>, peer: Peer)
    requires Run(steps).Some? && OwnsAlias(Run(steps).value.table, peer)
    ensures var v := ViewOf(Run(steps).value, peer);
            && v.delivered == Run(steps).value.table.Trace(v.name.value)
            && v.released <= |v.delivered| && |v.pending| <= 1
            && v.read == v.evicted + (v.delivered[..v.released] + (v.pending + (v.delivered[v.released..] + v.Flying())))
  {
    var s := Run(steps).value;
    forall other | other != peer ensures Of(s.table.Trace(s.table.aliases[peer]), other) == [] {
      NoPacketLostOrDuplicated(steps, other);
    }
    TraceOfOwner(s.table.Trace(s.table.aliases[peer]), peer);
    NoPacketLostOrDuplicated(steps, peer);
  }

  /** A trace shared by two connections need not be in reader order: packets that
      were pending are appended when the second connection registers. */
  lemma SharedAliasBreaksOrder(a: Peer, b: Peer, name: string)
    requires a != b && name != ""
    ensures var early, late := Packet(b, 0), Packet(a, 1);
            var steps := [Read(early), Store, Accept(a, name)] + [Read(late), Store, Accept(b, name)];
            && Run(steps).Some?
            && Run(steps).value.read == [early, late]
            && Run(steps).value.table.Trace(Alias(name)) == [late, early]
  {
    var early, late, x := Packet(b, 0), Packet(a, 1), Alias(name);
    var s3 := System(Table(map[a := x], map[b := [early]], map[]), None, [early], map[], map[a := 0]);
    var first := [Read(early), Store, Accept(a, name)];
    EarlyPacketPends(a, b, name);
    var s4 := s3.(inFlight := Some(InFlight(late, Some(x))), read := [early, late]);
    assert [] + [late] == [late] && [early] + [late] == [early, late];
    RunStep(first, Read(late), s3, first + [Read(late)], s4);
    var s5 := s4.(inFlight := None, table := s3.table.(traces := map[x := [late]]));
    RunStep(first + [Read(late)], Store, s4, first + [Read(late), Store], s5);
    var s6 := Perform(s5, Accept(b, name));
    RunStep(first + [Read(late), Store], Accept(b, name), s5, first + [Read(late), Store, Accept(b, name)], s6);
    assert s6.table.Trace(x) == [late] + [early];
  }

  lemma EarlyPacketPends(a: Peer, b: Peer, name: string)
    requires a != b && name != ""
    ensures var early := Packet(b, 0);
            Run([Read(early), Store, Accept(a, name)]) ==
            Some(System(Table(map[a := Alias(name)], map[b := [early]], map[]), None, [early], map[], map[a := 0]))
  {
    var early := Packet(b, 0);
    EarlyPacketStored(early);
    var s2 := System(Table(map[], map[b := [early]], map[]), None, [early], map[], map[]);
    var s3 := System(Table(map[a := Alias(name)], map[b := [early]], map[]), None, [early], map[], map[a := 0]);
    EmptyBufferAccepted(s2, a, name);
    RunStep([Read(early), Store], Accept(a, name), s2, [Read(early), Store, Accept(a, name)], s3);
  }

  lemma EarlyPacketStored(early: Packet)
    ensures Run([Read(early), Store]) ==
            Some(System(Table(map[], map[early.peer := [early]], map[]), None, [early], map[], map[]))
  {
    var s1 := System(START.table, Some(InFlight(early, None)), [early], map[], map[]);
    assert [] + [early] == [early];
    RunStep([], Read(early), START, [Read(early)], s1);
    var s2 := System(Table(map[], map[early.peer := [early]], map[]), None, [early], map[], map[]);
    RunStep([Read(early)], Store, s1, [Read(early), Store], s2);
  }

  lemma EmptyBufferAccepted(s: System, peer: Peer, explicit: string)
    requires explicit != "" && peer !in s.table.aliases && peer !in s.table.pending
    ensures Perform(s, Accept(peer, explicit)) ==
            s.(table := s.table.(aliases := s.table.aliases[peer := Alias(explicit)]), released := s.released[peer := 0])
  {
    assert s.table.pending - {peer} == s.table.pending;
  }

  lemma RunStep(steps: seq<Step>, step: Step, s: System, longer: seq<Step>, t: System)
    requires Run(steps) == Some(s) && Enabled(s, step) && t == Perform(s, step) && longer == steps + [step]
    ensures Run(longer) == Some(t)
  {
    assert longer[..|longer| - 1] == steps;
  }
}
