/** Which proxy connections belong to which client
    (canonicalize_central_proxy.py, _choose_connections). */
module ConnectionChoice {
  import opened Results

  datatype Ip = Ip(name: string)

  datatype Client = Client(name: string)

  datatype Connection = Connection(ip: Ip, port: nat)

  type Sets = map<Client, set<Connection>>

  type Counts = map<Connection, int>

  function Known(m: Sets, c: Client): set<Connection> {
    if c in m then m[c] else {}
  }

  function CountOf(counts: Counts, x: Connection): int {
    if x in counts then counts[x] else 0
  }

  // ----- the seed of a client -----

  /** The confirmed connections of a client, or else one of its registered
      connections with the most packets. */
  ghost predicate IsSeed(seeds: set<Connection>, registered: set<Connection>, confirmed: set<Connection>, counts: Counts) {
    if confirmed != {} then seeds == confirmed
    else exists best :: best in registered && seeds == {best} && Longest(best, registered, counts)
  }

  predicate Longest(best: Connection, candidates: set<Connection>, counts: Counts) {
    forall x :: x in candidates ==> CountOf(counts, x) <= CountOf(counts, best)
  }

  /** max(candidates, key=count): any candidate with the largest count. */
  method PickLongest(candidates: set<Connection>, counts: Counts) returns (best: Connection)
    requires candidates != {}
    ensures best in candidates && Longest(best, candidates, counts)
  {
    best :| best in candidates;
    var rest := candidates - {best};
    while rest != {}
      invariant rest <= candidates && best in candidates
      invariant forall x :: x in candidates && x !in rest ==> CountOf(counts, x) <= CountOf(counts, best)
      decreases rest
    {
      var x :| x in rest;
      if CountOf(counts, x) > CountOf(counts, best) { best := x; }
      rest := rest - {x};
    }
  }

  // ----- what a seed resolves to -----

  /** The clients with a seed at an address; nobody owns the empty address. */
  function Owners(seeds: Sets, ip: Ip): set<Client> {
    OwnersAmong(seeds, seeds.Keys, ip)
  }

  function OwnersAmong(seeds: Sets, clients: set<Client>, ip: Ip): set<Client> {
    if ip.name == "" then {} else set c | c in clients && HasAddress(Known(seeds, c), ip)
  }

  predicate HasAddress(xs: set<Connection>, ip: Ip) {
    exists x :: x in xs && x.ip == ip
  }

  /** The connections at an address that carried packets. */
  function Observed(counts: Counts, ip: Ip): set<Connection> {
    set x | x in counts && counts[x] > 0 && x.ip == ip
  }

  /** x has fewer than 100 packets and fewer than a ten-thousandth of some
      connection at its address. */
  predicate Fragment(counts: Counts, x: Connection) {
    && CountOf(counts, x) < 100
    && exists y :: y in Observed(counts, x.ip) && 10000 * CountOf(counts, x) < counts[y]
  }

  function Substantive(counts: Counts, ip: Ip): set<Connection> {
    set x | x in Observed(counts, ip) && !Fragment(counts, x)
  }

  predicate Unique(seeds: Sets, ip: Ip) {
    |Owners(seeds, ip)| == 1
  }

  /** The connections that one seed stands for. */
  function Expanded(seeds: Sets, counts: Counts, seed: Connection): set<Connection> {
    if !Unique(seeds, seed.ip) || Observed(counts, seed.ip) == {} then {seed} else Substantive(counts, seed.ip)
  }

  /** The connections of a client. */
  function Resolved(seeds: Sets, counts: Counts, c: Client): set<Connection> {
    set s, x | s in Known(seeds, c) && x in Expanded(seeds, counts, s) :: x
  }

  // ----- the loops -----

  datatype ChoiceError = NoRegistration(client: Client) | NoConnection(client: Client)

  /** How a client's connections were found. */
  datatype Reason = Reason(confirmed: bool, reconnects: bool, fragmentsRemoved: bool)

  datatype Choice = Choice(seeds: Sets, selected: Sets, reasons: map<Client, Reason>)

  ghost predicate Registered(c: Client, registered: Sets, confirmed: Sets) {
    Known(confirmed, c) != {} || Known(registered, c) != {}
  }

  method SeedConnections(clients: set<Client>, registered: Sets, confirmed: Sets, counts: Counts)
    returns (r: Result<Sets, ChoiceError>)
    ensures r.Ok? <==> forall c :: c in clients ==> Registered(c, registered, confirmed)
    ensures r.Err? ==> r.error.NoRegistration?
    ensures r.Ok? ==> r.value.Keys == clients
    ensures r.Ok? ==> forall c :: c in clients ==> IsSeed(r.value[c], Known(registered, c), Known(confirmed, c), counts)
  {
    hide IsSeed, Longest;
    var seeds: Sets := map[];
    var rest := clients;
    while rest != {}
      invariant rest <= clients && seeds.Keys == clients - rest
      invariant forall c :: c in seeds ==> IsSeed(seeds[c], Known(registered, c), Known(confirmed, c), counts)
      invariant forall c :: c in seeds ==> Registered(c, registered, confirmed)
      decreases rest
    {
      var c :| c in rest;
      rest := rest - {c};
      if Known(confirmed, c) != {} {
        ConfirmedIsSeed(Known(registered, c), Known(confirmed, c), counts);
        seeds := seeds[c := Known(confirmed, c)];
      } else if Known(registered, c) == {} {
        return Err(NoRegistration(c));
      } else {
        var best := PickLongest(Known(registered, c), counts);
        LongestIsSeed(best, Known(registered, c), counts);
        seeds := seeds[c := {best}];
      }
    }
    return Ok(seeds);
  }

  lemma ConfirmedIsSeed(registered: set<Connection>, confirmed: set<Connection>, counts: Counts)
    requires confirmed != {}
    ensures IsSeed(confirmed, registered, confirmed, counts)
  {
  }

  lemma LongestIsSeed(best: Connection, registered: set<Connection>, counts: Counts)
    requires best in registered && Longest(best, registered, counts)
    ensures IsSeed({best}, registered, {}, counts)
  {
  }

  function Claims(owners: map<Ip, set<Client>>, ip: Ip): set<Client> {
    if ip in owners then owners[ip] else {}
  }

  /** Who claims each address. */
  method IpOwners(seeds: Sets) returns (owners: map<Ip, set<Client>>)
    ensures forall ip :: Claims(owners, ip) == Owners(seeds, ip)
  {
    hide HasAddress, OwnersAmong;
    owners := map[];
    NoOwners(seeds);
    var done, left := {}, seeds.Keys;
    while left != {}
      invariant done + left == seeds.Keys
      invariant forall ip :: Claims(owners, ip) == OwnersAmong(seeds, done, ip)
      decreases left
    {
      var c :| c in left;
      OwnersNext(seeds, done, c);
      done, left := done + {c}, left - {c};
      ghost var before := owners;
      var rest := seeds[c];
      NoAddress();
      assert seeds[c] - rest == {};
      while rest != {}
        invariant rest <= seeds[c]
        invariant forall ip :: Claims(owners, ip) == Claims(before, ip) + if Claimed(seeds[c] - rest, ip) then {c} else {}
        decreases rest
      {
        var x :| x in rest;
        AddressAdded(seeds[c] - rest, x);
        assert seeds[c] - (rest - {x}) == (seeds[c] - rest) + {x};
        rest := rest - {x};
        if x.ip.name != "" { owners := owners[x.ip := Claims(owners, x.ip) + {c}]; }
      }
      assert seeds[c] - rest == seeds[c];
    }
    assert done == seeds.Keys;
  }

  predicate Claimed(xs: set<Connection>, ip: Ip) {
    ip.name != "" && HasAddress(xs, ip)
  }

  lemma NoOwners(seeds: Sets)
    ensures forall ip :: OwnersAmong(seeds, {}, ip) == {}
  {
  }

  lemma NoAddress()
    ensures forall ip :: !HasAddress({}, ip)
  {
  }

  lemma OwnersNext(seeds: Sets, clients: set<Client>, c: Client)
    requires c in seeds
    ensures forall ip :: OwnersAmong(seeds, clients + {c}, ip) ==
                         OwnersAmong(seeds, clients, ip) + if Claimed(seeds[c], ip) then {c} else {}
  {
  }

  lemma AddressAdded(xs: set<Connection>, x: Connection)
    ensures forall ip :: HasAddress(xs + {x}, ip) <==> HasAddress(xs, ip) || x.ip == ip
  {
    assert x in xs + {x};
    assert forall y :: y in xs ==> y in xs + {x};
  }

  /** One turn of the loop over the seeds of a client. */
  method ResolveSeed(seed: Connection, seeds: Sets, owners: map<Ip, set<Client>>, counts: Counts)
    returns (kept: set<Connection>, reconnect: bool, removed: bool)
    requires forall ip :: Claims(owners, ip) == Owners(seeds, ip)
    ensures kept == Expanded(seeds, counts, seed)
    ensures reconnect <==> Unique(seeds, seed.ip) && |Observed(counts, seed.ip)| > 1
    ensures removed <==> Unique(seeds, seed.ip) && Observed(counts, seed.ip) != Substantive(counts, seed.ip)
  {
    hide Owners, Fragment, Observed;
    kept, reconnect, removed := {seed}, false, false;
    if |Claims(owners, seed.ip)| != 1 { return; }
    var sameIp := Observed(counts, seed.ip);
    if sameIp == {} {
      assert Substantive(counts, seed.ip) == {};
      return;
    }
    if |sameIp| > 1 { reconnect := true; }
    kept, removed := DropFragments(seed.ip, counts);
  }

  /** Drop the fragments among the connections at an address. The largest one
      stays, so the fallback is never used. */
  method DropFragments(ip: Ip, counts: Counts) returns (kept: set<Connection>, removed: bool)
    requires Observed(counts, ip) != {}
    ensures kept == Substantive(counts, ip)
    ensures removed <==> Observed(counts, ip) != Substantive(counts, ip)
  {
    hide Fragment, Observed;
    var sameIp := Observed(counts, ip);
    var top := PickLongest(sameIp, counts);
    var largest := CountOf(counts, top);
    kept, removed := {}, false;
    var done, rest := {}, sameIp;
    while rest != {}
      invariant done + rest == sameIp
      invariant forall x :: x in kept <==> x in done && !Fragment(counts, x)
      invariant removed <==> exists x :: x in done && Fragment(counts, x)
      decreases rest
    {
      var x :| x in rest;
      FragmentTest(counts, x, top, ip);
      done, rest := done + {x}, rest - {x};
      var count := CountOf(counts, x);
      if count < 100 && largest > 0 && 10000 * count < largest {
        removed := true;
      } else {
        kept := kept + {x};
      }
    }
    assert done == sameIp;
    SubstantiveIsSome(counts, ip);
    if kept == {} {
      var fallback := PickLongest(sameIp, counts);
      kept := kept + {fallback};
    }
  }

  lemma FragmentTest(counts: Counts, x: Connection, top: Connection, ip: Ip)
    requires x in Observed(counts, ip) && top in Observed(counts, ip) && Longest(top, Observed(counts, ip), counts)
    ensures Fragment(counts, x) <==>
            CountOf(counts, x) < 100 && CountOf(counts, top) > 0 && 10000 * CountOf(counts, x) < CountOf(counts, top)
  {
    if Fragment(counts, x) {
      var y :| y in Observed(counts, x.ip) && 10000 * CountOf(counts, x) < counts[y];
      assert CountOf(counts, y) <= CountOf(counts, top);
    }
  }

  /** A connection with the most packets at its address is no fragment. */
  lemma LargestIsSubstantive(counts: Counts, ip: Ip, x: Connection)
    requires x in Observed(counts, ip) && Longest(x, Observed(counts, ip), counts)
    ensures x in Substantive(counts, ip)
  {
    assert forall y :: y in Observed(counts, ip) ==> CountOf(counts, y) <= CountOf(counts, x);
  }

  lemma {:induction false} SomeLongest(xs: set<Connection>, counts: Counts) returns (x: Connection)
    requires xs != {}
    ensures x in xs && Longest(x, xs, counts)
    decreases xs
  {
    var first :| first in xs;
    x := first;
    if xs - {first} != {} {
      var y := SomeLongest(xs - {first}, counts);
      if CountOf(counts, y) > CountOf(counts, first) { x := y; }
    }
    assert forall z :: z in xs ==> z == first || z in xs - {first};
  }

  lemma SubstantiveIsSome(counts: Counts, ip: Ip)
    ensures Observed(counts, ip) != {} ==> Substantive(counts, ip) != {}
  {
    if Observed(counts, ip) != {} {
      var x := SomeLongest(Observed(counts, ip), counts);
      LargestIsSubstantive(counts, ip, x);
    }
  }

  /** Some uniquely owned address of the client carried several connections, and
      at some such address a fragment was dropped. */
  predicate Reconnected(seeds: Sets, counts: Counts, xs: set<Connection>) {
    exists s :: s in xs && Unique(seeds, s.ip) && |Observed(counts, s.ip)| > 1
  }

  predicate Filtered(seeds: Sets, counts: Counts, xs: set<Connection>) {
    exists s :: s in xs && Unique(seeds, s.ip) && Observed(counts, s.ip) != Substantive(counts, s.ip)
  }

  function ExpandedAll(seeds: Sets, counts: Counts, xs: set<Connection>): set<Connection> {
    set s, x | s in xs && x in Expanded(seeds, counts, s) :: x
  }

  /** The loop over the seeds of one client. */
  method ResolveClient(c: Client, seeds: Sets, owners: map<Ip, set<Client>>, counts: Counts)
    returns (resolved: set<Connection>, reconnects: bool, removed: bool)
    requires forall ip :: Claims(owners, ip) == Owners(seeds, ip)
    ensures resolved == Resolved(seeds, counts, c)
    ensures reconnects <==> Reconnected(seeds, counts, Known(seeds, c))
    ensures removed <==> Filtered(seeds, counts, Known(seeds, c))
  {
    hide Owners, Observed, Substantive, Expanded, Unique;
    resolved, reconnects, removed := {}, false, false;
    var done, rest := {}, Known(seeds, c);
    while rest != {}
      invariant done + rest == Known(seeds, c)
      invariant resolved == ExpandedAll(seeds, counts, done)
      invariant reconnects <==> Reconnected(seeds, counts, done)
      invariant removed <==> Filtered(seeds, counts, done)
      decreases rest
    {
      var seed :| seed in rest;
      assert seed in done + {seed};
      var kept, reconnect, dropped := ResolveSeed(seed, seeds, owners, counts);
      assert ExpandedAll(seeds, counts, done + {seed}) == ExpandedAll(seeds, counts, done) + kept;
      done, rest := done + {seed}, rest - {seed};
      resolved := resolved + kept;
      reconnects := reconnects || reconnect;
      removed := removed || dropped;
    }
    assert done == Known(seeds, c);
  }

  /** The connections of every client, or the exception for a client without a
      registration; the other exception is never raised. */
  method ChooseConnections(clients: set<Client>, registered: Sets, confirmed: Sets, counts: Counts)
    returns (r: Result<Choice, ChoiceError>)
    ensures r.Ok? <==> forall c :: c in clients ==> Registered(c, registered, confirmed)
    ensures r.Err? ==> r.error.NoRegistration?
    ensures r.Ok? ==>
              && r.value.seeds.Keys == r.value.selected.Keys == r.value.reasons.Keys == clients
              && forall c :: c in clients ==>
                   && IsSeed(r.value.seeds[c], Known(registered, c), Known(confirmed, c), counts)
                   && r.value.selected[c] == Resolved(r.value.seeds, counts, c)
                   && r.value.reasons[c] == Reason(Known(confirmed, c) != {},
                                                   Reconnected(r.value.seeds, counts, r.value.seeds[c]),
                                                   Filtered(r.value.seeds, counts, r.value.seeds[c]))
  {
    hide Owners, IsSeed, Resolved, Reconnected, Filtered, Registered;
    var seeding := SeedConnections(clients, registered, confirmed, counts);
    if seeding.Err? { return Err(seeding.error); }
    var seeds := seeding.value;
    var owners := IpOwners(seeds);
    var selected: Sets, reasons: map<Client, Reason> := map[], map[];
    var rest := clients;
    while rest != {}
      invariant rest <= clients && selected.Keys == reasons.Keys == clients - rest
      invariant forall c :: c in selected ==>
                  && selected[c] == Resolved(seeds, counts, c)
                  && reasons[c] == Reason(Known(confirmed, c) != {}, Reconnected(seeds, counts, seeds[c]), Filtered(seeds, counts, seeds[c]))
      decreases rest
    {
      var c :| c in rest;
      rest := rest - {c};
      var resolved, reconnects, removed := ResolveClient(c, seeds, owners, counts);
      SeedIsSome(seeds[c], Known(registered, c), Known(confirmed, c), counts);
      SomeResolved(seeds, counts, c);
      if resolved == {} { return Err(NoConnection(c)); }
      selected := selected[c := resolved];
      reasons := reasons[c := Reason(Known(confirmed, c) != {}, reconnects, removed)];
    }
    return Ok(Choice(seeds, selected, reasons));
  }

  lemma SeedIsSome(seeds: set<Connection>, registered: set<Connection>, confirmed: set<Connection>, counts: Counts)
    requires IsSeed(seeds, registered, confirmed, counts)
    ensures seeds != {}
  {
  }

  // ----- what the choice guarantees -----

  /** Every client with a seed gets a connection. */
  lemma SomeResolved(seeds: Sets, counts: Counts, c: Client)
    requires Known(seeds, c) != {}
    ensures Resolved(seeds, counts, c) != {}
  {
    var s :| s in Known(seeds, c);
    SubstantiveIsSome(counts, s.ip);
    var expanded := Expanded(seeds, counts, s);
    assert expanded == {s} ==> s in expanded;
    assert expanded != {};
    var x :| x in expanded;
    assert x in Resolved(seeds, counts, c);
  }

  lemma ResolvedAddress(seeds: Sets, counts: Counts, c: Client, x: Connection)
    requires x in Resolved(seeds, counts, c)
    ensures HasAddress(Known(seeds, c), x.ip)
    ensures !Unique(seeds, x.ip) ==> x in Known(seeds, c)
  {
    var s :| s in Known(seeds, c) && x in Expanded(seeds, counts, s);
    assert s.ip == x.ip;
  }

  lemma TwoOwners(seeds: Sets, ip: Ip, c: Client, d: Client)
    requires c != d && HasAddress(Known(seeds, c), ip) && HasAddress(Known(seeds, d), ip)
    ensures !Unique(seeds, ip)
  {
    if ip.name != "" {
      assert c in Owners(seeds, ip) && d in Owners(seeds, ip);
      assert |Owners(seeds, ip) - {c}| > 0 by { assert d in Owners(seeds, ip) - {c}; }
    }
  }

  /** Two clients share a connection exactly when they share a seed. */
  lemma DisjointIffSeedsDisjoint(seeds: Sets, counts: Counts, c: Client, d: Client)
    requires c != d
    ensures Resolved(seeds, counts, c) !! Resolved(seeds, counts, d) <==> Known(seeds, c) !! Known(seeds, d)
  {
    hide Unique, Resolved;
    forall x | x in Resolved(seeds, counts, c) && x in Resolved(seeds, counts, d)
      ensures x in Known(seeds, c) && x in Known(seeds, d)
    {
      ResolvedAddress(seeds, counts, c, x);
      ResolvedAddress(seeds, counts, d, x);
      TwoOwners(seeds, x.ip, c, d);
    }
    forall x | x in Known(seeds, c) && x in Known(seeds, d)
      ensures x in Resolved(seeds, counts, c) && x in Resolved(seeds, counts, d)
    {
      TwoOwners(seeds, x.ip, c, d);
      KeptExactly(seeds, counts, c, x);
      KeptExactly(seeds, counts, d, x);
    }
  }

  /** At an address that several clients claim, a seed stands for itself. */
  lemma KeptExactly(seeds: Sets, counts: Counts, c: Client, x: Connection)
    requires x in Known(seeds, c) && !Unique(seeds, x.ip)
    ensures x in Resolved(seeds, counts, c)
  {
    assert x in Expanded(seeds, counts, x);
  }

  /** At an address that a client alone owns, every seed and every connection that
      carried packets is the client's except the fragments. A seed without packets
      is one as soon as another connection there carried some. */
  lemma OnlyFragmentsDropped(seeds: Sets, counts: Counts, c: Client, x: Connection)
    requires HasAddress(Known(seeds, c), x.ip) && Unique(seeds, x.ip)
    requires x in Observed(counts, x.ip) || x in Known(seeds, c)
    ensures x in Resolved(seeds, counts, c) <==> !Fragment(counts, x)
  {
    var s :| s in Known(seeds, c) && s.ip == x.ip;
    if x in Known(seeds, c) { s := x; }
    assert x in Expanded(seeds, counts, s) <==> !Fragment(counts, x) by {
      if x !in Observed(counts, x.ip) && Observed(counts, x.ip) != {} {
        var y :| y in Observed(counts, x.ip);
        assert 10000 * CountOf(counts, x) < counts[y];
      }
    }
    if x in Resolved(seeds, counts, c) {
      var t :| t in Known(seeds, c) && x in Expanded(seeds, counts, t);
      assert t.ip == x.ip;
    }
  }

  /** The client is the only one with a seed at this address, which has a name. */
  predicate SoleOwner(seeds: Sets, c: Client, ip: Ip) {
    && ip.name != "" && (exists s :: s in Known(seeds, c) && s.ip == ip)
    && forall d, s :: d != c && d in seeds && s in seeds[d] ==> s.ip != ip
  }

  lemma UniqueIffSole(seeds: Sets, c: Client, ip: Ip)
    requires exists s :: s in Known(seeds, c) && s.ip == ip
    ensures Unique(seeds, ip) <==> SoleOwner(seeds, c, ip)
  {
    assert HasAddress(Known(seeds, c), ip);
    if SoleOwner(seeds, c, ip) {
      assert Owners(seeds, ip) == {c};
    } else if ip.name != "" {
      var d, s :| d != c && d in seeds && s in seeds[d] && s.ip == ip;
      TwoOwners(seeds, ip, c, d);
    }
  }

  /** The packets of a connection are at least a hundred, or at least a
      ten-thousandth of those of every connection at its address. */
  predicate Sizable(counts: Counts, x: Connection) {
    || CountOf(counts, x) >= 100
    || forall y :: y in counts && counts[y] > 0 && y.ip == x.ip ==> counts[y] <= 10000 * CountOf(counts, x)
  }

  /** At an address that it alone owns, a client gets its seeds and whatever carried
      packets, if they are sizable; anywhere else it gets its seeds. */
  lemma ResolvedExactly(seeds: Sets, counts: Counts, c: Client, x: Connection)
    ensures x in Resolved(seeds, counts, c) <==>
            if SoleOwner(seeds, c, x.ip)
            then ((x in counts && counts[x] > 0) || x in Known(seeds, c)) && Sizable(counts, x)
            else x in Known(seeds, c)
  {
    hide Resolved, Unique, Fragment, SoleOwner;
    if x in Resolved(seeds, counts, c) { ResolvedAddress(seeds, counts, c, x); }
    if HasAddress(Known(seeds, c), x.ip) {
      UniqueIffSole(seeds, c, x.ip);
      if !Unique(seeds, x.ip) {
        if x in Known(seeds, c) { KeptExactly(seeds, counts, c, x); }
      } else if x in Observed(counts, x.ip) || x in Known(seeds, c) {
        OnlyFragmentsDropped(seeds, counts, c, x);
        SizableIff(counts, x);
      } else {
        NeitherResolved(seeds, counts, c, x);
      }
    } else {
      NotOwner(seeds, c, x.ip);
    }
  }

  lemma SizableIff(counts: Counts, x: Connection)
    ensures Sizable(counts, x) <==> !Fragment(counts, x)
  {
    if !Sizable(counts, x) {
      var y :| y in counts && counts[y] > 0 && y.ip == x.ip && counts[y] > 10000 * CountOf(counts, x);
      assert y in Observed(counts, x.ip);
    }
  }

  lemma NotOwner(seeds: Sets, c: Client, ip: Ip)
    requires !HasAddress(Known(seeds, c), ip)
    ensures !SoleOwner(seeds, c, ip) && forall x :: x in Known(seeds, c) ==> x.ip != ip
  {
  }

  lemma NeitherResolved(seeds: Sets, counts: Counts, c: Client, x: Connection)
    requires x !in Observed(counts, x.ip) && x !in Known(seeds, c)
    ensures x !in Resolved(seeds, counts, c)
  {
  }

  /** A client's reason says reconnects when two connections carried packets at an
      address that it alone owns. */
  lemma ReconnectsExactly(seeds: Sets, counts: Counts, c: Client)
    ensures Reconnected(seeds, counts, Known(seeds, c)) <==>
            exists x, y :: x != y && x in counts && y in counts && counts[x] > 0 && counts[y] > 0 && x.ip == y.ip && SoleOwner(seeds, c, x.ip)
  {
    hide Unique;
    if s :| s in Known(seeds, c) && Unique(seeds, s.ip) && |Observed(counts, s.ip)| > 1 {
      UniqueIffSole(seeds, c, s.ip);
      var x, y := TwoMembers(Observed(counts, s.ip));
    }
    if x, y :| x != y && x in counts && y in counts && counts[x] > 0 && counts[y] > 0 && x.ip == y.ip && SoleOwner(seeds, c, x.ip) {
      var s :| s in Known(seeds, c) && s.ip == x.ip;
      UniqueIffSole(seeds, c, s.ip);
      assert x in Observed(counts, s.ip) && y in Observed(counts, s.ip) - {x};
      assert |Observed(counts, s.ip) - {x}| > 0;
    }
  }

  /** It says fragments removed when one that carried packets there is not sizable. */
  lemma FragmentsExactly(seeds: Sets, counts: Counts, c: Client)
    ensures Filtered(seeds, counts, Known(seeds, c)) <==>
            exists x :: x in counts && counts[x] > 0 && SoleOwner(seeds, c, x.ip) && !Sizable(counts, x)
  {
    hide Unique, Fragment, Sizable;
    if s :| s in Known(seeds, c) && Unique(seeds, s.ip) && Observed(counts, s.ip) != Substantive(counts, s.ip) {
      UniqueIffSole(seeds, c, s.ip);
      var x :| x in Observed(counts, s.ip) && x !in Substantive(counts, s.ip);
      SizableIff(counts, x);
    }
    if x :| x in counts && counts[x] > 0 && SoleOwner(seeds, c, x.ip) && !Sizable(counts, x) {
      var s :| s in Known(seeds, c) && s.ip == x.ip;
      UniqueIffSole(seeds, c, s.ip);
      SizableIff(counts, x);
      assert x in Observed(counts, s.ip) && x !in Substantive(counts, s.ip);
    }
  }

  lemma TwoMembers(xs: set<Connection>) returns (x: Connection, y: Connection)
    requires |xs| > 1
    ensures x in xs && y in xs && x != y
  {
    x :| x in xs;
    assert |xs - {x}| > 0;
    y :| y in xs - {x};
  }

  /** The largest connection at such an address is kept, and nobody else gets a
      connection there. */
  lemma LargestKept(seeds: Sets, counts: Counts, c: Client, ip: Ip)
    requires HasAddress(Known(seeds, c), ip) && Unique(seeds, ip)
    ensures forall x :: x in Observed(counts, ip) && Longest(x, Observed(counts, ip), counts) ==> x in Resolved(seeds, counts, c)
    ensures forall d, x :: d != c && x in Resolved(seeds, counts, d) ==> x.ip != ip
  {
    forall x | x in Observed(counts, ip) && Longest(x, Observed(counts, ip), counts) ensures x in Resolved(seeds, counts, c) {
      LargestIsSubstantive(counts, ip, x);
      OnlyFragmentsDropped(seeds, counts, c, x);
    }
    forall d, x | d != c && x in Resolved(seeds, counts, d) ensures x.ip != ip {
      ResolvedAddress(seeds, counts, d, x);
      if x.ip == ip { TwoOwners(seeds, ip, c, d); }
    }
  }
}
