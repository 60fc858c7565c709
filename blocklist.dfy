/** The blocklist bookkeeping of the appliance client, as pure functions: the
    blocked alias holds an address list and a parallel `detail` list; the
    read drops blank addresses, a block appends one address and one detail,
    an unblock removes every equal address and the detail at the first
    index where the address occurred. */
module Blocklist {
  import opened Js

  /** The name of the blocked alias when BLOCKED_ALIAS_NAME is unset or empty. */
  const DefaultAliasName: string := "BLOCKED"

  /** `process.env.BLOCKED_ALIAS_NAME || 'BLOCKED'`. */
  function AliasName(env: Option<string>): (name: string)
    ensures name != ""
    ensures Truthy(env) ==> name == env.value
    ensures !Truthy(env) ==> name == DefaultAliasName
  {
    OrElse(env, DefaultAliasName)
  }

  /** A firewall alias as the appliance lists it. `address` and `detail` are
      None when the field is missing or is not an array. */
  datatype Alias = Alias(id: int, name: string, address: Option<seq<string>>, detail: Option<seq<string>>)

  /** `addr && addr.trim()`, the test the read applies to each address entry. */
  predicate TruthyTrimmed(addr: string) {
    addr != "" && Trim(addr) != ""
  }

  /** The read keeps an address entry when it has a character that is not
      whitespace. */
  predicate Kept(addr: string) {
    !AllWhitespace(addr)
  }

  /** Kept is the source's test: an entry survives `addr && addr.trim()`
      exactly when it has a character that is not whitespace. */
  lemma KeptIsTruthyTrimmed(addr: string)
    ensures TruthyTrimmed(addr) <==> Kept(addr)
  {
    TrimEmptyIff(addr);
  }

  /** `address.filter(addr => addr && addr.trim())` (see KeptIsTruthyTrimmed). */
  function FilterKept(xs: seq<string>): (r: seq<string>)
    ensures |r| <= |xs|
    ensures forall x :: x in r <==> x in xs && Kept(x)
  {
    if xs == [] then []
    else
      assert forall x :: x in xs <==> x == xs[0] || x in xs[1..];
      (if Kept(xs[0]) then [xs[0]] else []) + FilterKept(xs[1..])
  }

  /** The filter keeps every occurrence of a kept entry and no occurrence
      of a blank one. */
  lemma {:induction false} FilterKeptCounts(xs: seq<string>)
    ensures forall x :: multiset(FilterKept(xs))[x] == if Kept(x) then multiset(xs)[x] else 0
  {
    if xs != [] {
      FilterKeptCounts(xs[1..]);
      assert xs == [xs[0]] + xs[1..];
    }
  }

  /** The filter works entry by entry, so the surviving entries keep their order. */
  lemma {:induction false} FilterKeptAppend(a: seq<string>, b: seq<string>)
    ensures FilterKept(a + b) == FilterKept(a) + FilterKept(b)
  {
    if a == [] {
      assert a + b == b;
    } else {
      assert (a + b)[0] == a[0];
      assert (a + b)[1..] == a[1..] + b;
      FilterKeptAppend(a[1..], b);
    }
  }

  /** No entry of `xs` is blank. */
  predicate AllKept(xs: seq<string>) {
    forall i :: 0 <= i < |xs| ==> Kept(xs[i])
  }

  /** A list with no blank entry passes the filter unchanged. */
  lemma {:induction false} FilterKeepsKept(xs: seq<string>)
    requires AllKept(xs)
    ensures FilterKept(xs) == xs
  {
    if xs != [] {
      var rest := xs[1..];
      assert AllKept(rest) by {
        assert forall i :: 0 <= i < |rest| ==> rest[i] == xs[i + 1];
      }
      FilterKeepsKept(rest);
      assert Kept(xs[0]);
      assert FilterKept(xs) == [xs[0]] + FilterKept(rest);
      assert [xs[0]] + rest == xs;
    }
  }

  /** The filter drops nothing exactly when no entry is blank. */
  lemma {:induction false} NothingDropped(xs: seq<string>)
    ensures |FilterKept(xs)| == |xs| <==> AllKept(xs)
  {
    if AllKept(xs) {
      FilterKeepsKept(xs);
    } else if xs != [] {
      var rest := xs[1..];
      if Kept(xs[0]) {
        assert !AllKept(rest) by {
          assert forall i :: 0 <= i < |rest| ==> rest[i] == xs[i + 1];
        }
        NothingDropped(rest);
      }
    }
  }

  /** The address list as every operation reads it. */
  function Addresses(a: Alias): (r: seq<string>)
    ensures forall x :: x in r ==> Kept(x)
    ensures a.address.None? ==> r == []
    ensures a.address.Some? ==> forall x :: x in r <==> x in a.address.value && Kept(x)
    ensures a.address.Some? ==> r == FilterKept(a.address.value)
  {
    if a.address.Some? then FilterKept(a.address.value) else []
  }

  /** The detail list as every operation reads it: not filtered. */
  function Details(a: Alias): (r: seq<string>)
    ensures a.detail.Some? ==> r == a.detail.value
    ensures a.detail.None? ==> r == []
  {
    if a.detail.Some? then a.detail.value else []
  }

  /** The alias with both lists replaced, as a PATCH of the alias leaves it. */
  function WithLists(a: Alias, address: seq<string>, detail: seq<string>): Alias {
    a.(address := Some(address), detail := Some(detail))
  }

  /** The index `Array.prototype.find` stops at when looking for `name`. */
  function FindByName(aliases: seq<Alias>, name: string): (r: Option<nat>)
    ensures r.Some? ==> r.value < |aliases| && aliases[r.value].name == name
    ensures r.Some? ==> forall j :: 0 <= j < r.value ==> aliases[j].name != name
    ensures r.None? ==> forall j :: 0 <= j < |aliases| ==> aliases[j].name != name
  {
    if aliases == [] then None
    else if aliases[0].name == name then Some(0)
    else
      match FindByName(aliases[1..], name)
      case None => None
      case Some(k) => Some(k + 1)
  }

  /** `aliases.data?.find(alias => alias.name === name)`: the first alias of
      the listing with that name, if the listing has data and such an alias. */
  function Lookup(data: Option<seq<Alias>>, name: string): (r: Option<Alias>)
    ensures r.None? <==> data.None? || forall a :: a in data.value ==> a.name != name
    ensures r.Some? ==> r.value.name == name && r.value in data.value
    ensures r.Some? ==> exists k :: 0 <= k < |data.value| && data.value[k] == r.value
                                    && forall j :: 0 <= j < k ==> data.value[j].name != name
  {
    if data.None? then None
    else
      match FindByName(data.value, name)
      case None => None
      case Some(k) => Some(data.value[k])
  }

  /** The contents of the blocked alias as getBlockedDevices returns them. */
  function BlockedDevices(data: Option<seq<Alias>>, name: string): (r: seq<string>)
    ensures forall x :: x in r ==> Kept(x)
    ensures Lookup(data, name).None? ==> r == []
    ensures Lookup(data, name).Some? && Lookup(data, name).value.address.None? ==> r == []
    ensures Lookup(data, name).Some? && Lookup(data, name).value.address.Some? ==>
              r == FilterKept(Lookup(data, name).value.address.value)
  {
    match Lookup(data, name)
    case None => []
    case Some(a) =>
      Addresses(a)
  }

  /** The detail list of the blocked alias; [] when the alias is absent. */
  function BlockedDetails(data: Option<seq<Alias>>, name: string): (r: seq<string>)
    ensures Lookup(data, name).Some? ==> r == Details(Lookup(data, name).value)
    ensures Lookup(data, name).None? ==> r == []
  {
    match Lookup(data, name)
    case None => []
    case Some(a) => Details(a)
  }

  /** `xs.indexOf(v)`: -1 when absent, else the first index holding `v`. */
  function IndexOf(xs: seq<string>, v: string): (i: int)
    ensures -1 <= i < |xs|
    ensures i == -1 <==> v !in xs
    ensures i >= 0 ==> xs[i] == v && v !in xs[..i]
  {
    if xs == [] then -1
    else if xs[0] == v then 0
    else
      var k := IndexOf(xs[1..], v);
      if k == -1 then -1
      else
        assert xs[..k + 1] == [xs[0]] + xs[1..][..k];
        k + 1
  }

  /** `xs.filter(x => x !== v)`. */
  function RemoveAll(xs: seq<string>, v: string): (r: seq<string>)
    ensures forall x :: x in r <==> x in xs && x != v
  {
    if xs == [] then []
    else
      assert forall x :: x in xs <==> x == xs[0] || x in xs[1..];
      (if xs[0] == v then [] else [xs[0]]) + RemoveAll(xs[1..], v)
  }

  /** Every other entry keeps its count, and the list shrinks by the
      number of occurrences of the value. */
  lemma {:induction false} RemoveAllCounts(xs: seq<string>, v: string)
    ensures forall x :: x != v ==> multiset(RemoveAll(xs, v))[x] == multiset(xs)[x]
    ensures |RemoveAll(xs, v)| == |xs| - multiset(xs)[v]
  {
    if xs != [] {
      RemoveAllCounts(xs[1..], v);
      assert xs == [xs[0]] + xs[1..];
    }
  }

  /** The filter works entry by entry, so the surviving entries keep their
      order: it distributes over concatenation. */
  lemma {:induction false} RemoveAllAppend(a: seq<string>, b: seq<string>, v: string)
    ensures RemoveAll(a + b, v) == RemoveAll(a, v) + RemoveAll(b, v)
  {
    if a == [] {
      assert a + b == b;
    } else {
      var head := if a[0] == v then [] else [a[0]];
      assert (a + b)[0] == a[0];
      assert (a + b)[1..] == a[1..] + b;
      RemoveAllAppend(a[1..], b, v);
      calc {
        RemoveAll(a + b, v);
        head + RemoveAll(a[1..] + b, v);
        head + (RemoveAll(a[1..], v) + RemoveAll(b, v));
        (head + RemoveAll(a[1..], v)) + RemoveAll(b, v);
      }
    }
  }

  /** On a single entry the filter keeps it exactly when it differs from
      the value; with RemoveAllAppend this fixes the result entry by entry. */
  lemma RemoveAllSingle(x: string, v: string)
    ensures RemoveAll([x], v) == if x == v then [] else [x]
  {
    assert [x][1..] == [];
  }

  /** A list without the value passes the filter unchanged. */
  lemma {:induction false} RemoveAllAbsent(xs: seq<string>, v: string)
    requires v !in xs
    ensures RemoveAll(xs, v) == xs
  {
    if xs != [] {
      RemoveAllAbsent(xs[1..], v);
      assert xs == [xs[0]] + xs[1..];
    }
  }

  /** A value held once is removed from its position and nothing else moves. */
  lemma RemoveAllOnce(xs: seq<string>, v: string, k: nat)
    requires k < |xs| && xs[k] == v && multiset(xs)[v] == 1
    ensures RemoveAll(xs, v) == xs[..k] + xs[k + 1..]
  {
    var pre, post := xs[..k], xs[k + 1..];
    var rest := [v] + post;
    assert xs == pre + rest;
    OnceIsNowhereElse(pre, post, v);
    RemoveAllAppend(pre, rest, v);
    RemoveAllAbsent(pre, v);
    RemoveAllDropsHead(post, v);
  }

  /** A value counted once in pre + [v] + post is in neither pre nor post. */
  lemma OnceIsNowhereElse(pre: seq<string>, post: seq<string>, v: string)
    requires multiset(pre + ([v] + post))[v] == 1
    ensures v !in pre && v !in post
  {
    assert multiset(pre + ([v] + post)) == multiset(pre) + multiset{v} + multiset(post);
  }

  /** Removing the value from [v] + post where post lacks it gives post. */
  lemma RemoveAllDropsHead(post: seq<string>, v: string)
    requires v !in post
    ensures RemoveAll([v] + post, v) == post
  {
    assert ([v] + post)[0] == v && ([v] + post)[1..] == post;
    RemoveAllAbsent(post, v);
  }

  /** Removing a value that was appended to a list that lacked it gives the
      list back. */
  lemma {:induction false} RemoveAppended(xs: seq<string>, v: string)
    requires v !in xs
    ensures RemoveAll(xs + [v], v) == xs
  {
    if xs == [] {
      assert [] + [v] == [v];
    } else {
      assert (xs + [v])[1..] == xs[1..] + [v];
      RemoveAppended(xs[1..], v);
    }
  }

  /** `xs.filter((_, idx) => idx !== k)`: drops position `k` if there is one. */
  function RemoveAt(xs: seq<string>, k: int): (r: seq<string>)
    ensures 0 <= k < |xs| ==> r == xs[..k] + xs[k + 1..]
    ensures !(0 <= k < |xs|) ==> r == xs
  {
    if xs == [] then []
    else
      assert xs == [xs[0]] + xs[1..];
      (if k == 0 then [] else [xs[0]]) + RemoveAt(xs[1..], k - 1)
  }

  /** What a mutator sends back to the appliance, if anything. */
  datatype Plan = Unchanged | Write(address: seq<string>, detail: seq<string>)

  /** blockDevice and blockAlias once the blocked alias `a` is found: nothing
      when `value` is already listed, else the read list with `value`
      appended and the unfiltered detail list with `note` appended. */
  function BlockPlan(a: Alias, value: string, note: string): (p: Plan)
    ensures p.Unchanged? <==> value in Addresses(a)
    ensures p.Write? ==>
              && |p.address| == |Addresses(a)| + 1 && p.address[|Addresses(a)|] == value
              && (forall i :: 0 <= i < |Addresses(a)| ==> p.address[i] == Addresses(a)[i])
              && |p.detail| == |Details(a)| + 1 && p.detail[|Details(a)|] == note
              && (forall i :: 0 <= i < |Details(a)| ==> p.detail[i] == Details(a)[i])
  {
    var current := Addresses(a);
    if value in current then Unchanged
    else Write(current + [value], Details(a) + [note])
  }

  /** unblockDevice and unblockAlias once the blocked alias `a` is found:
      nothing when `value` is not listed, else every copy of `value` leaves
      the address list and only the detail at its first index is dropped. */
  function UnblockPlan(a: Alias, value: string): (p: Plan)
    ensures p.Unchanged? <==> value !in Addresses(a)
    ensures p.Write? ==> value !in p.address
  {
    var current := Addresses(a);
    var index := IndexOf(current, value);
    if index == -1 then Unchanged
    else Write(RemoveAll(current, value), RemoveAt(Details(a), index))
  }

  /** What an unblock writes: every occurrence of the value leaves the
      address list and every other entry keeps its count; the detail list
      loses the entry at the position of the value's first occurrence, when
      it has one there, and otherwise stays as it is. */
  lemma UnblockPlanWrites(a: Alias, value: string)
    requires value in Addresses(a)
    ensures var p := UnblockPlan(a, value);
            && p.Write?
            && (forall x :: x != value ==> multiset(p.address)[x] == multiset(Addresses(a))[x])
            && |p.address| == |Addresses(a)| - multiset(Addresses(a))[value]
    ensures var p := UnblockPlan(a, value);
            var k := IndexOf(Addresses(a), value);
            && 0 <= k && Addresses(a)[k] == value && value !in Addresses(a)[..k]
            && |p.detail| == (if k < |Details(a)| then |Details(a)| - 1 else |Details(a)|)
            && (k < |Details(a)| ==> p.detail == Details(a)[..k] + Details(a)[k + 1..])
            && (k >= |Details(a)| ==> p.detail == Details(a))
            && (multiset(Addresses(a))[value] == 1 ==> p.address == Addresses(a)[..k] + Addresses(a)[k + 1..])
  {
    RemoveAllCounts(Addresses(a), value);
    UnblockPlanPositions(a, value);
  }

  /** The positional part of UnblockPlanWrites. */
  lemma UnblockPlanPositions(a: Alias, value: string)
    requires value in Addresses(a)
    ensures var p := UnblockPlan(a, value);
            var k := IndexOf(Addresses(a), value);
            && 0 <= k && Addresses(a)[k] == value && value !in Addresses(a)[..k]
            && |p.detail| == (if k < |Details(a)| then |Details(a)| - 1 else |Details(a)|)
            && (k < |Details(a)| ==> p.detail == Details(a)[..k] + Details(a)[k + 1..])
            && (k >= |Details(a)| ==> p.detail == Details(a))
            && (multiset(Addresses(a))[value] == 1 ==> p.address == Addresses(a)[..k] + Addresses(a)[k + 1..])
  {
    var k := IndexOf(Addresses(a), value);
    if multiset(Addresses(a))[value] == 1 {
      RemoveAllOnce(Addresses(a), value, k);
    }
  }

  /** The alias after a plan has been written back. */
  function AfterPlan(a: Alias, p: Plan): Alias {
    if p.Write? then WithLists(a, p.address, p.detail) else a
  }

  /** Writing back the read list with a kept value appended reads back as
      exactly that list. */
  lemma ReadBackAppended(a: Alias, v: string, detail: seq<string>)
    requires Kept(v)
    ensures Addresses(WithLists(a, Addresses(a) + [v], detail)) == Addresses(a) + [v]
  {
    var xs := Addresses(a) + [v];
    assert AllKept(xs) by {
      assert forall i :: 0 <= i < |xs| - 1 ==> xs[i] in Addresses(a);
    }
    FilterKeepsKept(xs);
  }

  /** Blocking twice: once a kept value has been written, the next block of
      it finds it and leaves the alias alone. */
  lemma BlockTwice(a: Alias, v: string, note: string, note2: string)
    requires Kept(v)
    ensures BlockPlan(AfterPlan(a, BlockPlan(a, v, note)), v, note2) == Unchanged
  {
    var p := BlockPlan(a, v, note);
    if p.Write? {
      ReadBackAppended(a, v, p.detail);
    }
  }

  /** A blank value (empty or all whitespace) is written on every block but
      never read back: block is then not idempotent and unblock never finds it. */
  lemma BlankValueNeverSticks(a: Alias, v: string, note: string)
    requires !Kept(v)
    ensures BlockPlan(a, v, note).Write?
    ensures Addresses(AfterPlan(a, BlockPlan(a, v, note))) == Addresses(a)
    ensures BlockPlan(AfterPlan(a, BlockPlan(a, v, note)), v, note).Write?
    ensures UnblockPlan(AfterPlan(a, BlockPlan(a, v, note)), v) == Unchanged
  {
    var cur := Addresses(a);
    assert AllKept(cur) by {
      assert forall i :: 0 <= i < |cur| ==> cur[i] in cur;
    }
    FilterKeepsKept(cur);
    FilterKeptAppend(cur, [v]);
    assert FilterKept([v]) == [];
  }

  /** Block then unblock of a kept value that was not listed restores the
      read address list; the detail list gets its length back exactly when
      it was at least as long as the read address list, and gets its
      contents back when the two had equal length. */
  lemma BlockThenUnblock(a: Alias, v: string, note: string)
    requires Kept(v) && v !in Addresses(a)
    ensures var b := AfterPlan(a, BlockPlan(a, v, note));
            && UnblockPlan(b, v).Write?
            && UnblockPlan(b, v).address == Addresses(a)
            && (|UnblockPlan(b, v).detail| == |Details(a)| <==> |Addresses(a)| <= |Details(a)|)
            && (|Addresses(a)| == |Details(a)| ==> UnblockPlan(b, v).detail == Details(a))
  {
    var cur := Addresses(a);
    var b := AfterPlan(a, BlockPlan(a, v, note));
    ReadBackAppended(a, v, Details(a) + [note]);
    assert Addresses(b) == cur + [v];
    assert Details(b) == Details(a) + [note];
    assert (cur + [v])[..|cur|] == cur;
    assert IndexOf(cur + [v], v) == |cur|;
    RemoveAppended(cur, v);
    if |cur| == |Details(a)| {
      assert (Details(a) + [note])[..|cur|] == Details(a);
    }
  }

  /** The positional pairing drifts on block: when the appliance holds
      address and detail lists of equal length, the written lists have equal
      length exactly when no blank address was dropped by the read. */
  lemma BlockDetailDrift(a: Alias, raw: seq<string>, detail: seq<string>, v: string, note: string)
    requires a.address == Some(raw) && a.detail == Some(detail) && |raw| == |detail|
    requires v !in Addresses(a)
    ensures var p := BlockPlan(a, v, note);
            |p.detail| == |p.address| <==> AllKept(raw)
  {
    NothingDropped(raw);
  }

  /** The pairing drifts on unblock too: a value listed twice loses both
      addresses but only one detail. */
  lemma UnblockDropsOneDetail(a: Alias, v: string)
    requires multiset(Addresses(a))[v] >= 2
    ensures var p := UnblockPlan(a, v);
            && p.Write?
            && |p.address| <= |Addresses(a)| - 2
            && |p.detail| >= |Details(a)| - 1
  {
    assert v in Addresses(a);
    RemoveAllCounts(Addresses(a), v);
  }

  /** Unblock keeps the pairing when it held and the value was listed once:
      the pair at the value's position goes and every other address stays
      next to its own detail. */
  lemma UnblockKeepsPairing(a: Alias, v: string)
    requires |Addresses(a)| == |Details(a)| && multiset(Addresses(a))[v] == 1
    ensures var p := UnblockPlan(a, v);
            var k := IndexOf(Addresses(a), v);
            && p.Write? && |p.detail| == |p.address| == |Addresses(a)| - 1
            && forall i :: 0 <= i < |p.address| ==>
                 var j := if i < k then i else i + 1;
                 p.address[i] == Addresses(a)[j] && p.detail[i] == Details(a)[j]
  {
    assert v in Addresses(a);
    UnblockPlanPositions(a, v);
    DropAtKeepsPairs(Addresses(a), Details(a), IndexOf(Addresses(a), v));
  }

  /** Dropping the same position from two lists of equal length keeps every
      other pair together. */
  lemma DropAtKeepsPairs(xs: seq<string>, ys: seq<string>, k: int)
    requires 0 <= k < |xs| == |ys|
    ensures var p, q := xs[..k] + xs[k + 1..], ys[..k] + ys[k + 1..];
            && |p| == |q| == |xs| - 1
            && forall i :: 0 <= i < |p| ==>
                 var j := if i < k then i else i + 1;
                 p[i] == xs[j] && q[i] == ys[j]
  {
  }

  /** PATCH /firewall/alias with this id replaces the lists of the alias
      holding it; names and ids are left alone. */
  function PatchById(aliases: seq<Alias>, id: int, address: seq<string>, detail: seq<string>): (r: seq<Alias>)
    ensures |r| == |aliases|
    ensures forall i :: 0 <= i < |r| ==> r[i].name == aliases[i].name && r[i].id == aliases[i].id
  {
    seq(|aliases|, i requires 0 <= i < |aliases| =>
      if aliases[i].id == id then WithLists(aliases[i], address, detail) else aliases[i])
  }

  /** After the blocked alias has been patched by its id, the next lookup by
      name finds it with the new lists. */
  lemma LookupAfterPatch(data: seq<Alias>, name: string, a: Alias, address: seq<string>, detail: seq<string>)
    requires Lookup(Some(data), name) == Some(a)
    ensures Lookup(Some(PatchById(data, a.id, address, detail)), name) == Some(WithLists(a, address, detail))
  {
    var patched := PatchById(data, a.id, address, detail);
    var k := FindByName(data, name).value;
    assert patched[k].name == name;
    assert forall j :: 0 <= j < k ==> patched[j].name != name;
    assert FindByName(patched, name) == Some(k);
    assert patched[k] == WithLists(a, address, detail);
  }
}
