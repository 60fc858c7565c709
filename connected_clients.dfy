/** getConnectedClients: the DHCP lease table and the ARP table merged into
    one client list, deduplicated by MAC with DHCP first, each client tagged
    with whether its MAC is in the blocked list. */
module ConnectedClients {
  import opened Js

  /** A DHCP lease as the appliance reports it. */
  datatype Lease = Lease(mac: Option<string>, ip: Option<string>, hostname: Option<string>,
                         state: Option<string>, ends: Option<string>)

  /** An ARP table entry as the appliance reports it. */
  datatype ArpEntry = ArpEntry(mac: Option<string>, ip: Option<string>, hostname: Option<string>,
                               iface: Option<string>)

  /** Where a client record came from, with the one field that depends on it:
      `leaseEnd` for a lease, `interface` for an ARP entry, nothing for the
      offline placeholders of the blocked view. */
  datatype Origin = FromLease(leaseEnd: Option<string>) | FromArp(iface: Option<string>) | Offline

  datatype Client = Client(mac: string, ip: Option<string>, hostname: string, status: string,
                           blocked: bool, origin: Origin)

  /** The record pushed for a lease. */
  function LeaseClient(l: Lease, blocked: seq<string>): (c: Client)
    requires Truthy(l.mac)
    ensures c.mac == l.mac.value && c.ip == l.ip && c.origin == FromLease(l.ends)
    ensures c.hostname != "" && c.hostname == (if Truthy(l.hostname) then l.hostname.value else "Unknown")
    ensures c.status != "" && c.status == (if Truthy(l.state) then l.state.value else "active")
    ensures c.blocked <==> c.mac in blocked
  {
    Client(l.mac.value, l.ip, OrElse(l.hostname, "Unknown"), OrElse(l.state, "active"),
           l.mac.value in blocked, FromLease(l.ends))
  }

  /** The record pushed for an ARP entry: its status is always 'active'. */
  function ArpClient(e: ArpEntry, blocked: seq<string>): (c: Client)
    requires Truthy(e.mac)
    ensures c.mac == e.mac.value && c.ip == e.ip && c.origin == FromArp(e.iface)
    ensures c.hostname != "" && c.hostname == (if Truthy(e.hostname) then e.hostname.value else "Unknown")
    ensures c.status == "active"
    ensures c.blocked <==> c.mac in blocked
  {
    Client(e.mac.value, e.ip, OrElse(e.hostname, "Unknown"), "active",
           e.mac.value in blocked, FromArp(e.iface))
  }

  /** The record a lease would contribute; None when it has no MAC. */
  function LeaseCandidate(l: Lease, blocked: seq<string>): Option<Client> {
    if Truthy(l.mac) then Some(LeaseClient(l, blocked)) else None
  }

  function ArpCandidate(e: ArpEntry, blocked: seq<string>): Option<Client> {
    if Truthy(e.mac) then Some(ArpClient(e, blocked)) else None
  }

  function LeaseCandidates(leases: seq<Lease>, blocked: seq<string>): seq<Option<Client>> {
    seq(|leases|, i requires 0 <= i < |leases| => LeaseCandidate(leases[i], blocked))
  }

  function ArpCandidates(arp: seq<ArpEntry>, blocked: seq<string>): seq<Option<Client>> {
    seq(|arp|, i requires 0 <= i < |arp| => ArpCandidate(arp[i], blocked))
  }

  function Macs(cs: seq<Client>): set<string> {
    set c | c in cs :: c.mac
  }

  /** The MACs of the candidates that have one. */
  function CandidateMacs(cands: seq<Option<Client>>): set<string> {
    set o | o in cands && o.Some? :: o.value.mac
  }

  predicate DistinctMacs(cs: seq<Client>) {
    forall i, j :: 0 <= i < j < |cs| ==> cs[i].mac != cs[j].mac
  }

  /** One `forEach` pass: each candidate whose MAC has not been seen is
      pushed, in order. What was there stays in front and everything pushed
      is a candidate whose MAC was not there before. */
  function AddUnseen(acc: seq<Client>, cands: seq<Option<Client>>): (r: seq<Client>)
    ensures |acc| <= |r| && r[..|acc|] == acc
    ensures forall k :: |acc| <= k < |r| ==> Some(r[k]) in cands && r[k].mac !in Macs(acc)
    decreases |cands|
  {
    if cands == [] then acc
    else
      var init := cands[..|cands| - 1];
      var last := cands[|cands| - 1];
      var prev := AddUnseen(acc, init);
      assert forall o :: o in init ==> o in cands;
      if last.Some? && last.value.mac !in Macs(prev) then
        var r := prev + [last.value];
        assert r[..|acc|] == prev[..|acc|];
        assert forall c :: c in acc ==> c in prev;
        r
      else prev
  }

  /** The MACs seen at the end of a pass are the old ones plus the
      candidates' ones. */
  lemma {:induction false} AddUnseenMacs(acc: seq<Client>, cands: seq<Option<Client>>)
    ensures Macs(AddUnseen(acc, cands)) == Macs(acc) + CandidateMacs(cands)
    decreases |cands|
  {
    if cands != [] {
      var init := cands[..|cands| - 1];
      var last := cands[|cands| - 1];
      AddUnseenMacs(acc, init);
      var prev := AddUnseen(acc, init);
      assert cands == init + [last];
      assert CandidateMacs(cands) == CandidateMacs(init) + (if last.Some? then {last.value.mac} else {});
      if last.Some? && last.value.mac !in Macs(prev) {
        MacsAppend(prev, last.value);
      }
    }
  }

  /** A pass keeps distinct MACs distinct. */
  lemma {:induction false} AddUnseenDistinct(acc: seq<Client>, cands: seq<Option<Client>>)
    requires DistinctMacs(acc)
    ensures DistinctMacs(AddUnseen(acc, cands))
    decreases |cands|
  {
    if cands != [] {
      var init := cands[..|cands| - 1];
      var last := cands[|cands| - 1];
      AddUnseenDistinct(acc, init);
      var prev := AddUnseen(acc, init);
      assert cands == init + [last];
      if last.Some? && last.value.mac !in Macs(prev) {
        var r := prev + [last.value];
        forall i, j | 0 <= i < j < |r| ensures r[i].mac != r[j].mac {
          if j == |prev| {
            assert r[i] in prev;
          }
        }
      }
    }
  }

  /** Index i holds the first candidate with MAC m. */
  predicate FirstWithMac(cands: seq<Option<Client>>, i: int, m: string) {
    && 0 <= i < |cands| && cands[i].Some? && cands[i].value.mac == m
    && forall j :: 0 <= j < i ==> !(cands[j].Some? && cands[j].value.mac == m)
  }

  /** `c` is the first candidate carrying its MAC. */
  ghost predicate FirstOfItsMac(cands: seq<Option<Client>>, c: Client) {
    exists i :: FirstWithMac(cands, i, c.mac) && cands[i] == Some(c)
  }

  lemma FirstOfItsMacExtends(init: seq<Option<Client>>, last: Option<Client>, c: Client)
    requires FirstOfItsMac(init, c)
    ensures FirstOfItsMac(init + [last], c)
  {
    var i :| FirstWithMac(init, i, c.mac) && init[i] == Some(c);
    assert FirstWithMac(init + [last], i, c.mac);
  }

  lemma FirstOfItsMacAtEnd(init: seq<Option<Client>>, c: Client)
    requires c.mac !in CandidateMacs(init)
    ensures FirstOfItsMac(init + [Some(c)], c)
  {
    var cands := init + [Some(c)];
    forall j | 0 <= j < |init| ensures !(cands[j].Some? && cands[j].value.mac == c.mac) {
      assert cands[j] == init[j] && init[j] in init;
    }
    assert FirstWithMac(cands, |init|, c.mac);
  }

  /** `seenMACs` lets only the first candidate with a MAC through: every
      record a pass pushes is the first candidate carrying its MAC. */
  lemma {:induction false} AddUnseenFirst(acc: seq<Client>, cands: seq<Option<Client>>)
    ensures forall k :: |acc| <= k < |AddUnseen(acc, cands)| ==> FirstOfItsMac(cands, AddUnseen(acc, cands)[k])
    decreases |cands|
  {
    if cands != [] {
      var init := cands[..|cands| - 1];
      var last := cands[|cands| - 1];
      assert cands == init + [last];
      AddUnseenFirst(acc, init);
      var prev := AddUnseen(acc, init);
      var r := AddUnseen(acc, cands);
      forall k | |acc| <= k < |prev| ensures FirstOfItsMac(cands, prev[k]) {
        FirstOfItsMacExtends(init, last, prev[k]);
      }
      if last.Some? && last.value.mac !in Macs(prev) {
        assert r == prev + [last.value];
        AddUnseenMacs(acc, init);
        FirstOfItsMacAtEnd(init, last.value);
      } else {
        assert r == prev;
      }
    }
  }

  function LeasesOf(dhcp: Option<seq<Lease>>): seq<Lease> {
    if dhcp.Some? then dhcp.value else []
  }

  function ArpOf(arp: Option<seq<ArpEntry>>): seq<ArpEntry> {
    if arp.Some? then arp.value else []
  }

  /** The clients pushed by the DHCP pass. */
  function LeasePass(dhcp: Option<seq<Lease>>, blocked: seq<string>): (r: seq<Client>)
    ensures DistinctMacs(r)
    ensures Macs(r) == CandidateMacs(LeaseCandidates(LeasesOf(dhcp), blocked))
  {
    AddUnseenDistinct([], LeaseCandidates(LeasesOf(dhcp), blocked));
    AddUnseenMacs([], LeaseCandidates(LeasesOf(dhcp), blocked));
    assert Macs([]) == {};
    AddUnseen([], LeaseCandidates(LeasesOf(dhcp), blocked))
  }

  /** The list getConnectedClients returns, for the `data` of the lease and
      ARP responses (None when absent) and the blocked list. */
  function Merged(dhcp: Option<seq<Lease>>, arp: Option<seq<ArpEntry>>, blocked: seq<string>): (r: seq<Client>)
    ensures var l := LeasePass(dhcp, blocked);
            |l| <= |r| && r[..|l|] == l && forall k :: |l| <= k < |r| ==> r[k].mac !in Macs(l)
    ensures DistinctMacs(r)
  {
    AddUnseenDistinct(LeasePass(dhcp, blocked), ArpCandidates(ArpOf(arp), blocked));
    AddUnseen(LeasePass(dhcp, blocked), ArpCandidates(ArpOf(arp), blocked))
  }

  lemma MacsAppend(cs: seq<Client>, c: Client)
    ensures Macs(cs + [c]) == Macs(cs) + {c.mac}
  {
    assert forall x :: x in cs + [c] <==> x in cs || x == c;
  }

  /** One iteration of a pass: the candidate is pushed exactly when it has a
      MAC that has not been seen. */
  lemma AddUnseenStep(acc: seq<Client>, cands: seq<Option<Client>>, next: Option<Client>)
    ensures var prev := AddUnseen(acc, cands);
            AddUnseen(acc, cands + [next])
              == if next.Some? && next.value.mac !in Macs(prev) then prev + [next.value] else prev
  {
    assert (cands + [next])[..|cands|] == cands;
  }

  /** The two `forEach` loops of getConnectedClients over a `clients` list and
      a `seenMACs` set. */
  method MergeClients(dhcp: Option<seq<Lease>>, arp: Option<seq<ArpEntry>>, blocked: seq<string>)
    returns (clients: seq<Client>)
    ensures clients == Merged(dhcp, arp, blocked)
  {
    clients := [];
    var seenMACs: set<string> := {};
    if dhcp.Some? {
      var leases := dhcp.value;
      for i := 0 to |leases|
        invariant clients == AddUnseen([], LeaseCandidates(leases[..i], blocked))
        invariant seenMACs == Macs(clients)
      {
        var lease := leases[i];
        assert LeaseCandidates(leases[..i + 1], blocked)
               == LeaseCandidates(leases[..i], blocked) + [LeaseCandidate(lease, blocked)];
        AddUnseenStep([], LeaseCandidates(leases[..i], blocked), LeaseCandidate(lease, blocked));
        if Truthy(lease.mac) && lease.mac.value !in seenMACs {
          MacsAppend(clients, LeaseClient(lease, blocked));
          seenMACs := seenMACs + {lease.mac.value};
          clients := clients + [LeaseClient(lease, blocked)];
        }
      }
      assert leases[..|leases|] == leases;
    }
    ghost var fromLeases := clients;
    if arp.Some? {
      var entries := arp.value;
      for i := 0 to |entries|
        invariant clients == AddUnseen(fromLeases, ArpCandidates(entries[..i], blocked))
        invariant seenMACs == Macs(clients)
      {
        var entry := entries[i];
        assert ArpCandidates(entries[..i + 1], blocked)
               == ArpCandidates(entries[..i], blocked) + [ArpCandidate(entry, blocked)];
        AddUnseenStep(fromLeases, ArpCandidates(entries[..i], blocked), ArpCandidate(entry, blocked));
        if Truthy(entry.mac) && entry.mac.value !in seenMACs {
          MacsAppend(clients, ArpClient(entry, blocked));
          seenMACs := seenMACs + {entry.mac.value};
          clients := clients + [ArpClient(entry, blocked)];
        }
      }
      assert entries[..|entries|] == entries;
    }
  }

  /** The merged list has pairwise-distinct MACs; the DHCP-derived clients
      come first and the ARP-derived ones after them, each ARP client having
      a MAC that no lease had and the status 'active'. */
  lemma MergedDhcpFirst(dhcp: Option<seq<Lease>>, arp: Option<seq<ArpEntry>>, blocked: seq<string>)
    ensures var m := Merged(dhcp, arp, blocked);
            var l := LeasePass(dhcp, blocked);
            && DistinctMacs(m)
            && |l| <= |m| && m[..|l|] == l
            && (forall k :: 0 <= k < |l| ==> m[k].origin.FromLease?)
            && (forall k :: |l| <= k < |m| ==> m[k].origin.FromArp? && m[k].status == "active" && m[k].mac !in Macs(l))
  {
    var l := LeasePass(dhcp, blocked);
    var m := Merged(dhcp, arp, blocked);
    AddUnseenDistinct([], LeaseCandidates(LeasesOf(dhcp), blocked));
    AddUnseenDistinct(l, ArpCandidates(ArpOf(arp), blocked));
    forall k | 0 <= k < |l| ensures m[k].origin.FromLease? {
      assert Some(l[k]) in LeaseCandidates(LeasesOf(dhcp), blocked);
      assert m[k] == l[k];
    }
    forall k | |l| <= k < |m| ensures m[k].origin.FromArp? && m[k].status == "active" {
      assert Some(m[k]) in ArpCandidates(ArpOf(arp), blocked);
    }
  }

  /** The MACs listed are exactly those of the leases and ARP entries that
      have one: records without a MAC are skipped and no MAC is lost. */
  lemma MergedMacs(dhcp: Option<seq<Lease>>, arp: Option<seq<ArpEntry>>, blocked: seq<string>)
    ensures Macs(Merged(dhcp, arp, blocked))
              == CandidateMacs(LeaseCandidates(LeasesOf(dhcp), blocked))
                 + CandidateMacs(ArpCandidates(ArpOf(arp), blocked))
  {
    assert Macs([]) == {};
    AddUnseenMacs([], LeaseCandidates(LeasesOf(dhcp), blocked));
    AddUnseenMacs(LeasePass(dhcp, blocked), ArpCandidates(ArpOf(arp), blocked));
  }

  /** Every record of the merged list has a non-empty MAC, hostname and
      status, and is flagged `blocked` exactly when its MAC is in the
      blocked list. */
  lemma MergedRecords(dhcp: Option<seq<Lease>>, arp: Option<seq<ArpEntry>>, blocked: seq<string>)
    ensures forall c :: c in Merged(dhcp, arp, blocked) ==>
              && c.mac != "" && c.hostname != "" && c.status != ""
              && (c.blocked <==> c.mac in blocked)
  {
    var l := LeasePass(dhcp, blocked);
    var m := Merged(dhcp, arp, blocked);
    forall c | c in m ensures c.mac != "" && c.hostname != "" && c.status != "" && (c.blocked <==> c.mac in blocked) {
      var k :| 0 <= k < |m| && m[k] == c;
      if k < |l| {
        assert m[k] == l[k];
        assert Some(l[k]) in LeaseCandidates(LeasesOf(dhcp), blocked);
      } else {
        assert Some(m[k]) in ArpCandidates(ArpOf(arp), blocked);
      }
    }
  }

  /** DHCP takes priority: the MAC of a lease is listed as a DHCP-derived
      client, even when the ARP table has the same MAC. */
  lemma LeaseWins(dhcp: Option<seq<Lease>>, arp: Option<seq<ArpEntry>>, blocked: seq<string>, mac: string)
    requires mac in CandidateMacs(LeaseCandidates(LeasesOf(dhcp), blocked))
    ensures exists k :: 0 <= k < |Merged(dhcp, arp, blocked)| && Merged(dhcp, arp, blocked)[k].mac == mac
                        && Merged(dhcp, arp, blocked)[k].origin.FromLease?
  {
    var l := LeasePass(dhcp, blocked);
    var m := Merged(dhcp, arp, blocked);
    assert Macs([]) == {};
    AddUnseenMacs([], LeaseCandidates(LeasesOf(dhcp), blocked));
    assert mac in Macs(l);
    var c :| c in l && c.mac == mac;
    var k :| 0 <= k < |l| && l[k] == c;
    assert m[..|l|] == l;
    assert m[k] == c;
    assert Some(c) in LeaseCandidates(LeasesOf(dhcp), blocked);
  }

  /** Index i holds the first lease reporting MAC m. */
  predicate FirstLeaseFor(leases: seq<Lease>, i: int, m: string) {
    && 0 <= i < |leases| && leases[i].mac == Some(m)
    && forall j :: 0 <= j < i ==> leases[j].mac != Some(m)
  }

  /** Index i holds the first ARP entry reporting MAC m. */
  predicate FirstArpFor(entries: seq<ArpEntry>, i: int, m: string) {
    && 0 <= i < |entries| && entries[i].mac == Some(m)
    && forall j :: 0 <= j < i ==> entries[j].mac != Some(m)
  }

  /** The first lease candidate with a MAC is the record of the first lease
      reporting that MAC. */
  lemma FirstLeaseCandidate(leases: seq<Lease>, blocked: seq<string>, c: Client)
    requires FirstOfItsMac(LeaseCandidates(leases, blocked), c)
    ensures c.mac != "" && exists i :: FirstLeaseFor(leases, i, c.mac) && c == LeaseClient(leases[i], blocked)
  {
    var cands := LeaseCandidates(leases, blocked);
    var i :| FirstWithMac(cands, i, c.mac) && cands[i] == Some(c);
    assert cands[i] == LeaseCandidate(leases[i], blocked);
    forall j | 0 <= j < i ensures leases[j].mac != Some(c.mac) {
      assert cands[j] == LeaseCandidate(leases[j], blocked);
    }
    assert FirstLeaseFor(leases, i, c.mac);
  }

  /** The same for the ARP candidates. */
  lemma FirstArpCandidate(entries: seq<ArpEntry>, blocked: seq<string>, c: Client)
    requires FirstOfItsMac(ArpCandidates(entries, blocked), c)
    ensures c.mac != "" && exists i :: FirstArpFor(entries, i, c.mac) && c == ArpClient(entries[i], blocked)
  {
    var cands := ArpCandidates(entries, blocked);
    var i :| FirstWithMac(cands, i, c.mac) && cands[i] == Some(c);
    assert cands[i] == ArpCandidate(entries[i], blocked);
    forall j | 0 <= j < i ensures entries[j].mac != Some(c.mac) {
      assert cands[j] == ArpCandidate(entries[j], blocked);
    }
    assert FirstArpFor(entries, i, c.mac);
  }

  /** A non-empty MAC that no lease candidate carries is reported by no lease. */
  lemma NoLeaseReports(leases: seq<Lease>, blocked: seq<string>, m: string)
    requires m != "" && m !in CandidateMacs(LeaseCandidates(leases, blocked))
    ensures forall j :: 0 <= j < |leases| ==> leases[j].mac != Some(m)
  {
    var cands := LeaseCandidates(leases, blocked);
    forall j | 0 <= j < |leases| ensures leases[j].mac != Some(m) {
      assert cands[j] == LeaseCandidate(leases[j], blocked) && cands[j] in cands;
    }
  }

  /** Each record is built from the FIRST source record reporting its MAC,
      since `seenMACs` turns later ones away: a DHCP-derived client is the
      record of the first lease with that MAC; an ARP-derived client is the
      record of the first ARP entry with that MAC, and no lease reports it. */
  lemma MergedFieldsFromSource(dhcp: Option<seq<Lease>>, arp: Option<seq<ArpEntry>>, blocked: seq<string>)
    ensures forall c :: c in Merged(dhcp, arp, blocked) && c.origin.FromLease? ==>
              && c.mac != ""
              && exists i :: FirstLeaseFor(LeasesOf(dhcp), i, c.mac) && c == LeaseClient(LeasesOf(dhcp)[i], blocked)
    ensures forall c :: c in Merged(dhcp, arp, blocked) && c.origin.FromArp? ==>
              && c.mac != ""
              && (forall j :: 0 <= j < |LeasesOf(dhcp)| ==> LeasesOf(dhcp)[j].mac != Some(c.mac))
              && exists i :: FirstArpFor(ArpOf(arp), i, c.mac) && c == ArpClient(ArpOf(arp)[i], blocked)
  {
    var l := LeasePass(dhcp, blocked);
    var m := Merged(dhcp, arp, blocked);
    var leases := LeasesOf(dhcp);
    var entries := ArpOf(arp);
    AddUnseenFirst([], LeaseCandidates(leases, blocked));
    AddUnseenFirst(l, ArpCandidates(entries, blocked));
    forall c | c in m
      ensures c.origin.FromLease? ==>
                && c.mac != ""
                && exists i :: FirstLeaseFor(leases, i, c.mac) && c == LeaseClient(leases[i], blocked)
      ensures c.origin.FromArp? ==>
                && c.mac != ""
                && (forall j :: 0 <= j < |leases| ==> leases[j].mac != Some(c.mac))
                && exists i :: FirstArpFor(entries, i, c.mac) && c == ArpClient(entries[i], blocked)
    {
      var k :| 0 <= k < |m| && m[k] == c;
      if k < |l| {
        assert m[k] == l[k];
        FirstLeaseCandidate(leases, blocked, c);
      } else {
        FirstArpCandidate(entries, blocked, c);
        NoLeaseReports(leases, blocked, c.mac);
      }
    }
  }
}
