/** backend/src/routes/clients.js: the MAC check in front of the block and
    unblock routes, and the `/blocked` view that lists the connected blocked
    clients followed by an offline placeholder for every blocked MAC that is
    not connected. */
module ClientRoutes {
  import opened Js
  import opened Blocklist
  import opened ConnectedClients
  import opened MacAddress
  import opened PfSense

  /** An HTTP response: the status code, the `success` field, and the
      message or error text. */
  datatype Reply = Reply(status: nat, success: bool, text: string)

  /** `res.json(result)` for a service success, 500 with the error message
      for a service failure. */
  function ServiceReply(r: Result<string>): (reply: Reply)
    ensures reply.success <==> r.Ok?
    ensures reply.status == (if r.Ok? then 200 else 500)
    ensures reply.text == (if r.Ok? then r.value else r.error)
  {
    match r
    case Ok(message) => Reply(200, true, message)
    case Err(error) => Reply(500, false, error)
  }

  /** POST /:mac/block. A missing or malformed MAC is refused with 400 before
      any request reaches the appliance. */
  method BlockRoute(svc: Service, mac: Option<string>, timestamp: string, fault: Fault) returns (reply: Reply)
    modifies svc
    ensures !AcceptedMac(mac) ==> reply == Reply(400, false, InvalidMacFormat)
                                  && svc.aliases == old(svc.aliases) && svc.log == old(svc.log)
    ensures AcceptedMac(mac) ==>
              var s := BlockStep(old(svc.aliases), svc.blockedAliasName, Device, mac.value, BlockNote(timestamp), fault);
              reply == ServiceReply(s.result) && svc.aliases == s.data && svc.log == old(svc.log) + s.calls
  {
    if !AcceptedMac(mac) {
      return Reply(400, false, InvalidMacFormat);
    }
    var result := svc.BlockDevice(mac.value, timestamp, fault);
    reply := ServiceReply(result);
  }

  /** POST /:mac/unblock, with the same check. */
  method UnblockRoute(svc: Service, mac: Option<string>, fault: Fault) returns (reply: Reply)
    modifies svc
    ensures !AcceptedMac(mac) ==> reply == Reply(400, false, InvalidMacFormat)
                                  && svc.aliases == old(svc.aliases) && svc.log == old(svc.log)
    ensures AcceptedMac(mac) ==>
              var s := UnblockStep(old(svc.aliases), svc.blockedAliasName, Device, mac.value, fault);
              reply == ServiceReply(s.result) && svc.aliases == s.data && svc.log == old(svc.log) + s.calls
  {
    if !AcceptedMac(mac) {
      return Reply(400, false, InvalidMacFormat);
    }
    var result := svc.UnblockDevice(mac.value, fault);
    reply := ServiceReply(result);
  }

  /** The record pushed for a blocked MAC that is not connected. */
  function Placeholder(mac: string): (c: Client)
    ensures c.mac == mac && c.blocked
    ensures c.ip.None? && c.hostname == "Not connected" && c.status == "offline" && c.origin.Offline?
  {
    Client(mac, None, "Not connected", "offline", true, Offline)
  }

  /** `allClients.filter(client => client.blocked)`. */
  function FilterBlocked(cs: seq<Client>): (r: seq<Client>)
    ensures |r| <= |cs|
    ensures forall c :: c in r <==> c in cs && c.blocked
    ensures DistinctMacs(cs) ==> DistinctMacs(r)
    ensures Macs(r) <= Macs(cs)
  {
    if cs == [] then []
    else
      var rest := FilterBlocked(cs[1..]);
      assert forall c :: c in cs <==> c == cs[0] || c in cs[1..];
      if cs[0].blocked then
        assert DistinctMacs(cs) ==> cs[0].mac !in Macs(cs[1..]);
        [cs[0]] + rest
      else rest
  }

  /** The placeholders the `forEach` over the blocked MACs pushes: one per
      entry, in order, for each entry that is not a connected MAC. */
  function Placeholders(blocked: seq<string>, connected: set<string>): (r: seq<Client>)
    ensures |r| <= |blocked|
    ensures forall c :: c in r ==> c == Placeholder(c.mac) && c.mac in blocked && c.mac !in connected
    ensures Macs(r) == (set m | m in blocked && m !in connected)
    decreases |blocked|
  {
    if blocked == [] then []
    else
      var init := blocked[..|blocked| - 1];
      var mac := blocked[|blocked| - 1];
      assert blocked == init + [mac];
      var prev := Placeholders(init, connected);
      if mac !in connected then
        MacsAppend(prev, Placeholder(mac));
        prev + [Placeholder(mac)]
      else prev
  }

  /** The filter works record by record and keeps the order of the records
      it keeps. */
  lemma {:induction false} FilterBlockedAppend(a: seq<Client>, b: seq<Client>)
    ensures FilterBlocked(a + b) == FilterBlocked(a) + FilterBlocked(b)
    ensures forall c :: FilterBlocked([c]) == if c.blocked then [c] else []
  {
    if a == [] {
      assert a + b == b;
    } else {
      assert (a + b)[0] == a[0];
      assert (a + b)[1..] == a[1..] + b;
      FilterBlockedAppend(a[1..], b);
    }
  }

  /** The placeholders follow the blocked list entry by entry, in its order. */
  lemma {:induction false} PlaceholdersAppend(a: seq<string>, b: seq<string>, connected: set<string>)
    ensures Placeholders(a + b, connected) == Placeholders(a, connected) + Placeholders(b, connected)
    decreases |b|
  {
    if b == [] {
      assert a + b == a;
    } else {
      var init := b[..|b| - 1];
      var mac := b[|b| - 1];
      assert b == init + [mac];
      assert a + b == (a + init) + [mac];
      assert (a + b)[..|a + b| - 1] == a + init;
      PlaceholdersAppend(a, init, connected);
    }
  }

  /** One placeholder per blocked entry that is not connected: a MAC that is
      not connected gets as many placeholders as it has entries in the
      blocked list, and a connected MAC gets none. */
  lemma {:induction false} PlaceholderCounts(blocked: seq<string>, connected: set<string>)
    ensures forall m :: multiset(Placeholders(blocked, connected))[Placeholder(m)]
                          == if m in connected then 0 else multiset(blocked)[m]
    decreases |blocked|
  {
    if blocked != [] {
      var init := blocked[..|blocked| - 1];
      var mac := blocked[|blocked| - 1];
      assert blocked == init + [mac];
      PlaceholderCounts(init, connected);
      forall m ensures multiset(Placeholders(blocked, connected))[Placeholder(m)]
                       == if m in connected then 0 else multiset(blocked)[m]
      {
        assert Placeholder(m) == Placeholder(mac) <==> m == mac;
      }
    }
  }

  /** The list the `/blocked` route returns for one consistent reading of
      the connected clients and the blocked list. */
  function BlockedView(all: seq<Client>, blocked: seq<string>): (v: seq<Client>)
    ensures forall c :: c in v ==> c.blocked
    ensures |FilterBlocked(all)| <= |v| && v[..|FilterBlocked(all)|] == FilterBlocked(all)
  {
    var f := FilterBlocked(all);
    var p := Placeholders(blocked, Macs(all));
    assert forall c :: c in f + p ==> c in f || c in p;
    f + p
  }

  /** A blocked MAC that is not connected appears in the view once per
      entry in the blocked list: a MAC listed twice is shown twice. */
  lemma ViewRepeatsDuplicates(all: seq<Client>, blocked: seq<string>, m: string)
    requires m !in Macs(all)
    ensures multiset(BlockedView(all, blocked))[Placeholder(m)] == multiset(blocked)[m]
  {
    var f := FilterBlocked(all);
    PlaceholderCounts(blocked, Macs(all));
    assert Placeholder(m) !in f;
    assert multiset(f + Placeholders(blocked, Macs(all))) == multiset(f) + multiset(Placeholders(blocked, Macs(all)));
  }

  /** For instance, a blocked list holding one unconnected MAC twice gives
      two identical placeholders, so the view's MACs are not distinct. */
  lemma DuplicateBlockedListedTwice(all: seq<Client>, m: string)
    requires m !in Macs(all)
    ensures BlockedView(all, [m, m]) == FilterBlocked(all) + [Placeholder(m), Placeholder(m)]
    ensures !DistinctMacs(BlockedView(all, [m, m]))
  {
    assert [m, m] == [m] + [m];
    assert [m, m][..1] == [m];
    assert [m][..0] == [];
    var v := BlockedView(all, [m, m]);
    var n := |FilterBlocked(all)|;
    assert v[n] == Placeholder(m) && v[n + 1] == Placeholder(m);
  }

  /** The body of the `/blocked` handler after both reads: the filter, then
      the loop over the blocked MACs guarded by the set of connected MACs. */
  method AssembleBlockedView(blockedMACs: seq<string>, allClients: seq<Client>)
    returns (blockedClients: seq<Client>)
    ensures blockedClients == BlockedView(allClients, blockedMACs)
  {
    blockedClients := FilterBlocked(allClients);
    var connectedMACs := set c | c in allClients :: c.mac;
    for i := 0 to |blockedMACs|
      invariant blockedClients == FilterBlocked(allClients) + Placeholders(blockedMACs[..i], connectedMACs)
    {
      var mac := blockedMACs[i];
      assert blockedMACs[..i + 1][..i] == blockedMACs[..i];
      if mac !in connectedMACs {
        blockedClients := blockedClients + [Placeholder(mac)];
      }
    }
    assert blockedMACs[..|blockedMACs|] == blockedMACs;
  }

  /** GET /blocked: the blocked list and the connected clients, read from
      one listing, assembled into the view; any failed read fails the
      route. */
  method BlockedRoute(svc: Service, dhcp: Fetched<seq<Lease>>, arp: Fetched<seq<ArpEntry>>, reachable: bool)
    returns (r: Result<seq<Client>>)
    ensures r.Err? <==> dhcp.Unreachable? || arp.Unreachable? || !reachable
    ensures r.Ok? ==>
              var blocked := BlockedDevices(svc.aliases, svc.blockedAliasName);
              r.value == BlockedView(Merged(dhcp.data, arp.data, blocked), blocked)
  {
    var blockedMACs := svc.GetBlockedDevices(reachable);
    if blockedMACs.Err? {
      return Err(blockedMACs.error);
    }
    var allClients := svc.GetConnectedClients(dhcp, arp, reachable);
    if allClients.Err? {
      return Err(allClients.error);
    }
    var view := AssembleBlockedView(blockedMACs.value, allClients.value);
    r := Ok(view);
  }

  /** Every record of the view is flagged blocked; the connected ones come
      first, in their order, and everything after them is an offline
      placeholder for a MAC that is not connected. */
  lemma ViewAllBlocked(all: seq<Client>, blocked: seq<string>)
    ensures forall c :: c in BlockedView(all, blocked) ==> c.blocked
    ensures BlockedView(all, blocked)[..|FilterBlocked(all)|] == FilterBlocked(all)
    ensures var v := BlockedView(all, blocked);
            forall k :: |FilterBlocked(all)| <= k < |v| ==> v[k] == Placeholder(v[k].mac) && v[k].mac !in Macs(all)
  {
    var f := FilterBlocked(all);
    var p := Placeholders(blocked, Macs(all));
    assert forall c :: c in f + p <==> c in f || c in p;
    assert forall k :: |f| <= k < |f + p| ==> (f + p)[k] in p;
  }

  predicate NoDuplicates(xs: seq<string>) {
    forall i, j :: 0 <= i < j < |xs| ==> xs[i] != xs[j]
  }

  /** With no duplicates in the blocked list, the placeholders have
      distinct MACs. */
  lemma {:induction false} PlaceholdersDistinct(blocked: seq<string>, connected: set<string>)
    requires NoDuplicates(blocked)
    ensures DistinctMacs(Placeholders(blocked, connected))
    decreases |blocked|
  {
    if blocked != [] {
      var init := blocked[..|blocked| - 1];
      var mac := blocked[|blocked| - 1];
      assert blocked == init + [mac];
      PlaceholdersDistinct(init, connected);
      assert mac !in init;
    }
  }

  /** When the connected clients have distinct MACs and each is flagged
      exactly when its MAC is blocked, and the blocked list has no
      duplicates, the view lists every blocked MAC exactly once, either as
      the connected client or as a placeholder, and lists nothing else. */
  lemma ViewListsEachBlockedOnce(all: seq<Client>, blocked: seq<string>)
    requires DistinctMacs(all) && NoDuplicates(blocked)
    requires forall c :: c in all ==> (c.blocked <==> c.mac in blocked)
    ensures DistinctMacs(BlockedView(all, blocked))
    ensures Macs(BlockedView(all, blocked)) == set m | m in blocked
  {
    ViewDistinct(all, blocked);
    ViewMacs(all, blocked);
  }

  /** The connected part and the placeholder part never share a MAC. */
  lemma ViewDistinct(all: seq<Client>, blocked: seq<string>)
    requires DistinctMacs(all) && NoDuplicates(blocked)
    ensures DistinctMacs(BlockedView(all, blocked))
  {
    var f := FilterBlocked(all);
    var p := Placeholders(blocked, Macs(all));
    var v := f + p;
    PlaceholdersDistinct(blocked, Macs(all));
    forall i, j | 0 <= i < j < |v| ensures v[i].mac != v[j].mac {
      if j >= |f| && i < |f| {
        assert v[i] in f && v[j] in p;
        assert v[i].mac in Macs(f);
      } else if i >= |f| {
        assert v[i] == p[i - |f|] && v[j] == p[j - |f|];
      }
    }
  }

  /** The view's MACs are the blocked ones: the connected part brings the
      blocked MACs that are connected, the placeholders the others. */
  lemma ViewMacs(all: seq<Client>, blocked: seq<string>)
    requires forall c :: c in all ==> (c.blocked <==> c.mac in blocked)
    ensures Macs(BlockedView(all, blocked)) == set m | m in blocked
  {
    var f := FilterBlocked(all);
    var p := Placeholders(blocked, Macs(all));
    var v := f + p;
    assert Macs(v) == Macs(f) + Macs(p) by {
      assert forall c :: c in v <==> c in f || c in p;
    }
    forall m | m in Macs(f) ensures m in blocked {
      var c :| c in f && c.mac == m;
    }
    forall m | m in blocked && m in Macs(all) ensures m in Macs(f) {
      var c :| c in all && c.mac == m;
      assert c in f;
    }
  }

  /** For one consistent reading, the merged client list meets the
      conditions above, so every blocked MAC appears in the view exactly
      once. */
  lemma SnapshotViewListsEachBlockedOnce(dhcp: Option<seq<Lease>>, arp: Option<seq<ArpEntry>>, blocked: seq<string>)
    requires NoDuplicates(blocked)
    ensures var view := BlockedView(Merged(dhcp, arp, blocked), blocked);
            DistinctMacs(view) && Macs(view) == set m | m in blocked
  {
    MergedDhcpFirst(dhcp, arp, blocked);
    MergedRecords(dhcp, arp, blocked);
    ViewListsEachBlockedOnce(Merged(dhcp, arp, blocked), blocked);
  }
}
