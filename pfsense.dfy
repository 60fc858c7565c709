/** The appliance client of backend/src/services/pfsense.js: the blocked
    alias is read from the alias listing, changed, written back with one
    PATCH and made effective with one apply. The remote alias listing and the
    requests that change the appliance are the state of a Service object;
    which remote call fails, if any, is a parameter. */
module PfSense {
  import opened Js
  import opened Blocklist
  import opened ConnectedClients

  /** A request that changes the appliance: PATCH /firewall/alias with the
      whole address and detail lists, or POST /firewall/apply. */
  datatype Call = Patch(id: int, address: seq<string>, detail: seq<string>) | ApplyFirewall

  /** The remote call of a mutator that fails: the alias listing, the PATCH
      or the apply. */
  datatype Fault = NoFault | ListFails | PatchFails | ApplyFails

  /** blockDevice/unblockDevice act on a MAC, blockAlias/unblockAlias on an
      alias name; only their messages differ. */
  datatype Target = Device | AliasEntry

  function Noun(t: Target): string {
    if t == Device then "Device" else "Alias"
  }

  function LowerNoun(t: Target): string {
    if t == Device then "device" else "alias"
  }

  function AlreadyBlocked(t: Target): string { Noun(t) + " already blocked" }
  function BlockedOk(t: Target): string { Noun(t) + " blocked successfully" }
  function BlockFailed(t: Target): string { "Failed to block " + LowerNoun(t) }
  function NotListed(t: Target): string { Noun(t) + " not in blocked list" }
  function UnblockedOk(t: Target): string { Noun(t) + " unblocked successfully" }
  function UnblockFailed(t: Target): string { "Failed to unblock " + LowerNoun(t) }

  const ListingFailed: string := "Failed to fetch aliases from pfSense"

  /** The detail text a block appends: `Blocked on ${new Date().toISOString()}`. */
  function BlockNote(timestamp: string): string {
    "Blocked on " + timestamp
  }

  /** What one mutator call does: its result, the alias listing afterwards,
      and the requests it made that the appliance accepted. */
  datatype Step = Step(result: Result<string>, data: Option<seq<Alias>>, calls: seq<Call>)

  /** The PATCH with the new lists, then the apply; a failed apply leaves
      the PATCH in place. */
  function WriteStep(data: seq<Alias>, a: Alias, address: seq<string>, detail: seq<string>, fault: Fault,
                     done: string, failed: string): (s: Step)
    ensures s.result == (if fault == PatchFails || fault == ApplyFails then Err(failed) else Ok(done))
    ensures fault == PatchFails ==> s.calls == [] && s.data == Some(data)
    ensures fault != PatchFails ==> |s.calls| >= 1 && s.calls[0] == Patch(a.id, address, detail)
                                    && s.data == Some(PatchById(data, a.id, address, detail))
    ensures ApplyFirewall in s.calls <==> s.result.Ok?
  {
    if fault == PatchFails then Step(Err(failed), Some(data), [])
    else
      var patched := Some(PatchById(data, a.id, address, detail));
      if fault == ApplyFails then Step(Err(failed), patched, [Patch(a.id, address, detail)])
      else Step(Ok(done), patched, [Patch(a.id, address, detail), ApplyFirewall])
  }

  /** Carries out a plan against the listing: nothing for Unchanged, else
      the write. */
  function Commit(data: seq<Alias>, a: Alias, p: Plan, fault: Fault,
                  noop: string, done: string, failed: string): (s: Step)
    ensures p.Unchanged? ==> s == Step(Ok(noop), Some(data), [])
    ensures s.result.Err? ==> s.result.error == failed
    ensures s.calls == [] ==> s.data == Some(data)
  {
    match p
    case Unchanged => Step(Ok(noop), Some(data), [])
    case Write(address, detail) => WriteStep(data, a, address, detail, fault, done, failed)
  }

  /** blockDevice (t = Device) and blockAlias (t = AliasEntry). */
  function BlockStep(data: Option<seq<Alias>>, name: string, t: Target, value: string,
                     note: string, fault: Fault): (s: Step)
    ensures s.result.Err? ==> s.result.error == BlockFailed(t)
    ensures s.calls == [] ==> s.data == data
    ensures ApplyFirewall in s.calls ==> s.result == Ok(BlockedOk(t))
  {
    if fault == ListFails then Step(Err(BlockFailed(t)), data, [])
    else
      match Lookup(data, name)
      case None => Step(Err(BlockFailed(t)), data, [])
      case Some(a) =>
        Commit(data.value, a, BlockPlan(a, value, note), fault, AlreadyBlocked(t), BlockedOk(t), BlockFailed(t))
  }

  /** unblockDevice (t = Device) and unblockAlias (t = AliasEntry). */
  function UnblockStep(data: Option<seq<Alias>>, name: string, t: Target, value: string, fault: Fault): (s: Step)
    ensures s.result.Err? ==> s.result.error == UnblockFailed(t)
    ensures s.calls == [] ==> s.data == data
    ensures ApplyFirewall in s.calls ==> s.result == Ok(UnblockedOk(t))
  {
    if fault == ListFails then Step(Err(UnblockFailed(t)), data, [])
    else
      match Lookup(data, name)
      case None => Step(Err(UnblockFailed(t)), data, [])
      case Some(a) =>
        Commit(data.value, a, UnblockPlan(a, value), fault, NotListed(t), UnblockedOk(t), UnblockFailed(t))
  }

  /** The requests a committed plan makes: none when the plan changes nothing
      or the PATCH fails; a PATCH alone when the apply fails; otherwise
      exactly one PATCH followed by exactly one apply, and only then is the
      result a success that changed something. No request, no change. */
  lemma CommitCalls(data: seq<Alias>, a: Alias, p: Plan, fault: Fault, noop: string, done: string, failed: string)
    requires noop != done
    ensures var s := Commit(data, a, p, fault, noop, done, failed);
            && (s.calls == [] ==> s.data == Some(data))
            && (s.calls == [] <==> p.Unchanged? || fault == PatchFails)
            && (s.result == Ok(done) <==> p.Write? && s.calls == [Patch(a.id, p.address, p.detail), ApplyFirewall])
            && (s.result == Ok(done) <==> p.Write? && fault != PatchFails && fault != ApplyFails)
            && (s.result.Ok? ==> s.calls == [] || s.result == Ok(done))
            && (ApplyFirewall in s.calls ==> s.result == Ok(done))
            && (fault == ApplyFails && p.Write? ==> s.calls == [Patch(a.id, p.address, p.detail)])
  {
  }

  /** Every mutator: a missing blocked alias or a failed listing fails with
      no request made and nothing changed. */
  lemma MissingAliasFails(data: Option<seq<Alias>>, name: string, t: Target, value: string, note: string, fault: Fault)
    requires Lookup(data, name).None? || fault == ListFails
    ensures BlockStep(data, name, t, value, note, fault) == Step(Err(BlockFailed(t)), data, [])
    ensures UnblockStep(data, name, t, value, fault) == Step(Err(UnblockFailed(t)), data, [])
  {
  }

  /** Blocking a value the read already lists succeeds with the "already
      blocked" message, makes no request and changes nothing, whatever the
      PATCH and apply would have done. */
  lemma BlockListedIsNoop(data: Option<seq<Alias>>, name: string, t: Target, value: string, note: string, fault: Fault)
    requires fault != ListFails && Lookup(data, name).Some?
    requires value in BlockedDevices(data, name)
    ensures BlockStep(data, name, t, value, note, fault) == Step(Ok(AlreadyBlocked(t)), data, [])
  {
  }

  /** Unblocking a value the read does not list succeeds with the "not in
      blocked list" message, makes no request and changes nothing. */
  lemma UnblockUnlistedIsNoop(data: Option<seq<Alias>>, name: string, t: Target, value: string, fault: Fault)
    requires fault != ListFails && Lookup(data, name).Some?
    requires value !in BlockedDevices(data, name)
    ensures UnblockStep(data, name, t, value, fault) == Step(Ok(NotListed(t)), data, [])
  {
  }

  /** A block of a value the read does not list, with no failure, patches
      the blocked alias with the read list plus the value and the detail list
      plus one note, then applies; the blocked alias afterwards holds those
      lists. */
  lemma BlockWrites(data: Option<seq<Alias>>, name: string, t: Target, value: string, note: string)
    requires Lookup(data, name).Some? && value !in BlockedDevices(data, name)
    ensures var a := Lookup(data, name).value;
            var s := BlockStep(data, name, t, value, note, NoFault);
            && s.result == Ok(BlockedOk(t))
            && s.calls == [Patch(a.id, Addresses(a) + [value], Details(a) + [note]), ApplyFirewall]
            && Lookup(s.data, name) == Some(WithLists(a, Addresses(a) + [value], Details(a) + [note]))
  {
    var a := Lookup(data, name).value;
    LookupAfterPatch(data.value, name, a, Addresses(a) + [value], Details(a) + [note]);
  }

  /** Block then block again: once a block of a kept value has succeeded,
      blocking it again succeeds with the "already blocked" message and makes
      no request. */
  lemma BlockIdempotent(data: Option<seq<Alias>>, name: string, t: Target, value: string,
                        note: string, note2: string, fault2: Fault)
    requires Kept(value) && fault2 != ListFails
    requires BlockStep(data, name, t, value, note, NoFault).result.Ok?
    ensures var s := BlockStep(data, name, t, value, note, NoFault);
            BlockStep(s.data, name, t, value, note2, fault2) == Step(Ok(AlreadyBlocked(t)), s.data, [])
  {
    var a := Lookup(data, name).value;
    var s := BlockStep(data, name, t, value, note, NoFault);
    if value !in Addresses(a) {
      BlockWrites(data, name, t, value, note);
      ReadBackAppended(a, value, Details(a) + [note]);
    }
  }

  /** A write committed with no failure succeeds with the success message
      and the next lookup finds the alias with the written lists. */
  lemma WriteCommitted(data: Option<seq<Alias>>, name: string, a: Alias, p: Plan,
                       noop: string, done: string, failed: string)
    requires Lookup(data, name) == Some(a) && p.Write?
    ensures var s := Commit(data.value, a, p, NoFault, noop, done, failed);
            s.result == Ok(done) && Lookup(s.data, name) == Some(WithLists(a, p.address, p.detail))
  {
    LookupAfterPatch(data.value, name, a, p.address, p.detail);
  }

  /** Block then unblock of a kept value that was not listed: both succeed
      and the blocked list reads as before; the detail list gets its old
      length back when it was at least as long as the read address list. */
  lemma BlockThenUnblockSteps(data: Option<seq<Alias>>, name: string, t: Target, value: string, note: string)
    requires Lookup(data, name).Some? && Kept(value) && value !in BlockedDevices(data, name)
    ensures var s1 := BlockStep(data, name, t, value, note, NoFault);
            var s2 := UnblockStep(s1.data, name, t, value, NoFault);
            && s1.result == Ok(BlockedOk(t))
            && s2.result == Ok(UnblockedOk(t))
            && BlockedDevices(s2.data, name) == BlockedDevices(data, name)
            && (|BlockedDevices(data, name)| <= |BlockedDetails(data, name)| ==>
                  |BlockedDetails(s2.data, name)| == |BlockedDetails(data, name)|)
  {
    var a := Lookup(data, name).value;
    var p := BlockPlan(a, value, note);
    var b := WithLists(a, p.address, p.detail);
    var s1 := BlockStep(data, name, t, value, note, NoFault);
    assert s1 == Commit(data.value, a, p, NoFault, AlreadyBlocked(t), BlockedOk(t), BlockFailed(t));
    WriteCommitted(data, name, a, p, AlreadyBlocked(t), BlockedOk(t), BlockFailed(t));
    BlockThenUnblock(a, value, note);
    var u := UnblockPlan(b, value);
    var s2 := UnblockStep(s1.data, name, t, value, NoFault);
    assert s2 == Commit(s1.data.value, b, u, NoFault, NotListed(t), UnblockedOk(t), UnblockFailed(t));
    WriteCommitted(s1.data, name, b, u, NotListed(t), UnblockedOk(t), UnblockFailed(t));
    var after := WithLists(b, u.address, u.detail);
    assert AllKept(Addresses(a)) by {
      assert forall i :: 0 <= i < |Addresses(a)| ==> Addresses(a)[i] in Addresses(a);
    }
    FilterKeepsKept(Addresses(a));
    assert Addresses(after) == Addresses(a);
  }

  /** The service object: the configured name of the blocked alias, the
      appliance's alias listing (the `data` of GET /firewall/aliases, None
      when absent), and the changing requests the appliance has accepted. */
  class Service {
    const blockedAliasName: string
    var aliases: Option<seq<Alias>>
    var log: seq<Call>

    /** `process.env.BLOCKED_ALIAS_NAME || 'BLOCKED'`, over a given listing. */
    constructor (env: Option<string>, listing: Option<seq<Alias>>)
      ensures blockedAliasName == AliasName(env)
      ensures Truthy(env) ==> blockedAliasName == env.value
      ensures !Truthy(env) ==> blockedAliasName == "BLOCKED"
      ensures aliases == listing && log == []
    {
      blockedAliasName := AliasName(env);
      aliases := listing;
      log := [];
    }

    /** getAlias: the first alias with that name, or an error when the
      listing fails or has no such alias. */
    function GetAlias(name: string, reachable: bool): (r: Result<Alias>)
      reads this
      ensures r.Ok? <==> reachable && aliases.Some? && exists a :: a in aliases.value && a.name == name
      ensures r.Ok? ==> r.value.name == name && r.value in aliases.value
      ensures r.Ok? <==> reachable && Lookup(aliases, name).Some?
      ensures r.Ok? ==> Lookup(aliases, name) == Some(r.value)
      ensures r.Err? ==> r.error == "Failed to fetch alias " + name
    {
      if !reachable then Err("Failed to fetch alias " + name)
      else
        match Lookup(aliases, name)
        case None => Err("Failed to fetch alias " + name)
        case Some(a) => Ok(a)
    }

    /** getBlockedDevices: the non-blank entries of the blocked alias in
      their order; [] when the alias is absent or its address is not an
      array; the listing's error when the listing fails. */
    function GetBlockedDevices(reachable: bool): (r: Result<seq<string>>)
      reads this
      ensures !reachable ==> r == Err(ListingFailed)
      ensures reachable ==> r == Ok(BlockedDevices(aliases, blockedAliasName))
      ensures reachable ==> r.Ok? && forall x :: x in r.value ==> Kept(x)
      ensures reachable && Lookup(aliases, blockedAliasName).None? ==> r == Ok([])
    {
      if reachable then Ok(BlockedDevices(aliases, blockedAliasName)) else Err(ListingFailed)
    }

    /** applyChanges: POST /firewall/apply. */
    method ApplyChanges(fails: bool) returns (applied: bool)
      modifies this`log
      ensures applied == !fails
      ensures log == old(log) + (if fails then [] else [ApplyFirewall])
    {
      applied := !fails;
      if applied {
        log := log + [ApplyFirewall];
      }
    }

    /** PATCH /firewall/alias: replaces both lists of the alias with this id. */
    method PatchAlias(id: int, address: seq<string>, detail: seq<string>, fails: bool) returns (patched: bool)
      requires aliases.Some?
      modifies this
      ensures patched == !fails
      ensures fails ==> aliases == old(aliases) && log == old(log)
      ensures !fails ==> aliases == Some(PatchById(old(aliases).value, id, address, detail))
                         && log == old(log) + [Patch(id, address, detail)]
    {
      patched := !fails;
      if patched {
        aliases := Some(PatchById(aliases.value, id, address, detail));
        log := log + [Patch(id, address, detail)];
      }
    }

    /** The tail every mutator shares once it has the new lists: the PATCH,
      then the apply, each failure reported with the mutator's message. */
    method WriteBack(a: Alias, address: seq<string>, detail: seq<string>, fault: Fault,
                     done: string, failed: string) returns (r: Result<string>)
      requires aliases.Some?
      modifies this
      ensures var s := WriteStep(old(aliases).value, a, address, detail, fault, done, failed);
              r == s.result && aliases == s.data && log == old(log) + s.calls
    {
      var patched := PatchAlias(a.id, address, detail, fault == PatchFails);
      if !patched {
        return Err(failed);
      }
      var applied := ApplyChanges(fault == ApplyFails);
      if !applied {
        return Err(failed);
      }
      r := Ok(done);
    }

    /** The body shared by blockDevice and blockAlias. */
    method Block(t: Target, value: string, timestamp: string, fault: Fault) returns (r: Result<string>)
      modifies this
      ensures var s := BlockStep(old(aliases), blockedAliasName, t, value, BlockNote(timestamp), fault);
              r == s.result && aliases == s.data && log == old(log) + s.calls
    {
      ghost var step := BlockStep(aliases, blockedAliasName, t, value, BlockNote(timestamp), fault);
      if fault == ListFails {
        assert step == Step(Err(BlockFailed(t)), aliases, []);
        return Err(BlockFailed(t));
      }
      var found := Lookup(aliases, blockedAliasName);
      if found.None? {
        assert step == Step(Err(BlockFailed(t)), aliases, []);
        return Err(BlockFailed(t));
      }
      var blockedAlias := found.value;
      ghost var plan := BlockPlan(blockedAlias, value, BlockNote(timestamp));
      assert step == Commit(aliases.value, blockedAlias, plan, fault, AlreadyBlocked(t), BlockedOk(t), BlockFailed(t));
      var currentAddresses := Addresses(blockedAlias);
      if value in currentAddresses {
        assert plan == Unchanged;
        return Ok(AlreadyBlocked(t));
      }
      var updatedAddresses := currentAddresses + [value];
      var updatedDetails := Details(blockedAlias) + [BlockNote(timestamp)];
      assert plan == Write(updatedAddresses, updatedDetails);
      r := WriteBack(blockedAlias, updatedAddresses, updatedDetails, fault, BlockedOk(t), BlockFailed(t));
    }

    /** The body shared by unblockDevice and unblockAlias. */
    method Unblock(t: Target, value: string, fault: Fault) returns (r: Result<string>)
      modifies this
      ensures var s := UnblockStep(old(aliases), blockedAliasName, t, value, fault);
              r == s.result && aliases == s.data && log == old(log) + s.calls
    {
      ghost var step := UnblockStep(aliases, blockedAliasName, t, value, fault);
      if fault == ListFails {
        assert step == Step(Err(UnblockFailed(t)), aliases, []);
        return Err(UnblockFailed(t));
      }
      var found := Lookup(aliases, blockedAliasName);
      if found.None? {
        assert step == Step(Err(UnblockFailed(t)), aliases, []);
        return Err(UnblockFailed(t));
      }
      var blockedAlias := found.value;
      ghost var plan := UnblockPlan(blockedAlias, value);
      assert step == Commit(aliases.value, blockedAlias, plan, fault, NotListed(t), UnblockedOk(t), UnblockFailed(t));
      var currentAddresses := Addresses(blockedAlias);
      var index := IndexOf(currentAddresses, value);
      if index == -1 {
        assert plan == Unchanged;
        return Ok(NotListed(t));
      }
      var updatedAddresses := RemoveAll(currentAddresses, value);
      var updatedDetails := RemoveAt(Details(blockedAlias), index);
      assert plan == Write(updatedAddresses, updatedDetails);
      r := WriteBack(blockedAlias, updatedAddresses, updatedDetails, fault, UnblockedOk(t), UnblockFailed(t));
    }

    /** blockDevice(macAddress). */
    method BlockDevice(mac: string, timestamp: string, fault: Fault) returns (r: Result<string>)
      modifies this
      ensures var s := BlockStep(old(aliases), blockedAliasName, Device, mac, BlockNote(timestamp), fault);
              r == s.result && aliases == s.data && log == old(log) + s.calls
    {
      r := Block(Device, mac, timestamp, fault);
    }

    /** unblockDevice(macAddress). */
    method UnblockDevice(mac: string, fault: Fault) returns (r: Result<string>)
      modifies this
      ensures var s := UnblockStep(old(aliases), blockedAliasName, Device, mac, fault);
              r == s.result && aliases == s.data && log == old(log) + s.calls
    {
      r := Unblock(Device, mac, fault);
    }

    /** blockAlias(aliasName). */
    method BlockAlias(aliasName: string, timestamp: string, fault: Fault) returns (r: Result<string>)
      modifies this
      ensures var s := BlockStep(old(aliases), blockedAliasName, AliasEntry, aliasName, BlockNote(timestamp), fault);
              r == s.result && aliases == s.data && log == old(log) + s.calls
    {
      r := Block(AliasEntry, aliasName, timestamp, fault);
    }

    /** unblockAlias(aliasName). */
    method UnblockAlias(aliasName: string, fault: Fault) returns (r: Result<string>)
      modifies this
      ensures var s := UnblockStep(old(aliases), blockedAliasName, AliasEntry, aliasName, fault);
              r == s.result && aliases == s.data && log == old(log) + s.calls
    {
      r := Unblock(AliasEntry, aliasName, fault);
    }

    /** getConnectedClients over the lease and ARP responses (Unreachable when
      the request fails) and the blocked list read from the listing. */
    method GetConnectedClients(dhcp: Fetched<seq<Lease>>, arp: Fetched<seq<ArpEntry>>, reachable: bool)
      returns (r: Result<seq<Client>>)
      ensures r.Err? <==> dhcp.Unreachable? || arp.Unreachable? || !reachable
      ensures r.Err? ==> r.error in (if dhcp.Unreachable? then {LeasesFailed} else {})
                                    + (if arp.Unreachable? then {ArpFailed} else {})
                                    + (if !reachable then {ListingFailed} else {})
      ensures r.Ok? ==> r.value == Merged(dhcp.data, arp.data, BlockedDevices(aliases, blockedAliasName))
    {
      if dhcp.Unreachable? {
        return Err(LeasesFailed);
      }
      if arp.Unreachable? {
        return Err(ArpFailed);
      }
      var blocked := GetBlockedDevices(reachable);
      if blocked.Err? {
        return Err(blocked.error);
      }
      var clients := MergeClients(dhcp.data, arp.data, blocked.value);
      r := Ok(clients);
    }
  }

  /** A GET response for a table: its `data` (None when absent), or
      Unreachable when the request fails. */
  datatype Fetched<T> = Fetched(data: Option<T>) | Unreachable

  const LeasesFailed: string := "Failed to fetch DHCP leases"
  const ArpFailed: string := "Failed to fetch ARP table"
}
