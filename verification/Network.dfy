/** internal/network/network.go: leases of one network. */
module Network {
  import opened Common
  import opened Text
  import opened Address

  datatype Error = Cancelled | Invalid | Conflict | NotFound

  type Mac = seq<nat>

  /** macFor: a locally administered address ending in the four bytes of the IP address. */
  function MacFor(nameByte: byte, ip: Addr): Mac {
    [2, nameByte as nat] + Bytes(ip)
  }

  /** Six bytes: locally administered unicast, the network's, and the address from its highest byte on. */
  lemma MacMeans(nameByte: byte, ip: Addr)
    ensures var mac := MacFor(nameByte, ip);
            && |mac| == 6 && (forall i :: 0 <= i < 6 ==> mac[i] < 256) && mac[0] == 0x02 && mac[1] == nameByte as nat
            && mac[2] * 0x100_0000 + mac[3] * 0x1_0000 + mac[4] * 0x100 + mac[5] == ip
  {
    OfBytesOf(ip);
  }

  lemma MacInjective(nameByte: byte, a: Addr, b: Addr)
    ensures MacFor(nameByte, a) == MacFor(nameByte, b) <==> a == b
  {
    if MacFor(nameByte, a) == MacFor(nameByte, b) {
      assert Bytes(a) == MacFor(nameByte, a)[2..] == Bytes(b);
      OfBytesOf(a);
      OfBytesOf(b);
    }
  }

  datatype Attachment = Attachment(vm: string, mac: Mac, ip: Addr)

  type Leases = map<string, Addr>

  predicate InjectiveLeases(leases: Leases) {
    forall a, b :: a in leases && b in leases && leases[a] == leases[b] ==> a == b
  }

  /** What every set of leases a network holds satisfies. */
  ghost predicate ValidLeases(l: Layout, leases: Leases)
    requires ValidLayout(l)
  {
    && InjectiveLeases(leases) && "" !in leases
    && forall vm :: vm in leases ==> leases[vm] in Pool(l)
  }

  ghost function Used(leases: Leases): set<int> {
    set vm | vm in leases :: leases[vm] as int
  }

  lemma UsedWithout(leases: Leases, vm: string)
    requires vm in leases && InjectiveLeases(leases)
    ensures Used(leases - {vm}) == Used(leases) - {leases[vm] as int} && leases[vm] as int in Used(leases)
    ensures InjectiveLeases(leases - {vm})
  {
    var rest := leases - {vm};
    forall ip | ip in Used(leases) && ip != leases[vm] as int ensures ip in Used(rest) {
      var v :| v in leases && leases[v] as int == ip;
      assert v in rest;
    }
    forall ip | ip in Used(rest) ensures ip in Used(leases) && ip != leases[vm] as int {
      var v :| v in rest && rest[v] as int == ip;
      assert v in leases && v != vm;
    }
  }

  lemma {:induction false} UsedSize(leases: Leases)
    requires InjectiveLeases(leases)
    ensures |Used(leases)| == |leases|
    decreases |leases|
  {
    if leases == map[] {
      assert Used(leases) == {};
    } else {
      var vm :| vm in leases;
      var rest := leases - {vm};
      UsedSize(rest);
      UsedWithout(leases, vm);
      assert leases.Keys == rest.Keys + {vm};
    }
  }

  /** With one VM to an address, the pool is used up exactly when as many VMs hold leases as it has addresses. */
  lemma ExhaustedIffFull(l: Layout, leases: Leases)
    requires ValidLayout(l) && ValidLeases(l, leases)
    ensures |leases| <= PoolSize(l)
    ensures Pool(l) <= Used(leases) <==> |leases| == PoolSize(l)
  {
    PoolHasSize(l);
    UsedSize(leases);
    SubsetSize(Used(leases), Pool(l));
    if Pool(l) <= Used(leases) {
      SubsetSize(Pool(l), Used(leases));
    }
  }

  /** The lowest pool address no VM holds. */
  ghost predicate LowestFree(l: Layout, leases: Leases, ip: Addr)
    requires ValidLayout(l)
  {
    && ip in Pool(l) && ip !in Used(leases)
    && forall j: Addr :: j in Pool(l) && j < ip ==> j in Used(leases)
  }

  /** State: the leases as text. */
  function LeaseTexts(leases: Leases): map<string, string> {
    map vm | vm in leases :: AddrText(leases[vm])
  }

  /** Restored leases a network accepts. */
  ghost predicate Restorable(l: Layout, texts: map<string, string>)
    requires ValidLayout(l)
  {
    && "" !in texts
    && (forall vm :: vm in texts ==> ParseAddr(texts[vm]).Some? && ParseAddr(texts[vm]).value in Pool(l))
    && (forall a, b :: a in texts && b in texts && ParseAddr(texts[a]) == ParseAddr(texts[b]) ==> a == b)
  }

  predicate ReadFrom(texts: map<string, string>, leases: Leases) {
    leases.Keys == texts.Keys && forall vm :: vm in texts ==> ParseAddr(texts[vm]) == Some(leases[vm])
  }

  /** parseLeases: every id named, every address parsed, in the pool and held once. */
  method ParseLeases(l: Layout, texts: map<string, string>) returns (r: Result<Leases, Error>)
    requires ValidLayout(l)
    ensures r.Ok? <==> Restorable(l, texts)
    ensures r.Err? ==> r.error == Invalid
    ensures r.Ok? ==> ValidLeases(l, r.value)
    ensures r.Ok? ==> ReadFrom(texts, r.value)
  {
    var out: Leases := map[];
    var used: map<Addr, string> := map[];
    var todo := texts.Keys;
    while todo != {}
      invariant todo <= texts.Keys && out.Keys == texts.Keys - todo
      invariant forall vm :: vm in out ==> ParseAddr(texts[vm]) == Some(out[vm])
      invariant ValidLeases(l, out)
      invariant forall ip :: ip in used ==> used[ip] in out && out[used[ip]] == ip
      invariant forall vm :: vm in out ==> out[vm] in used
      decreases todo
    {
      var vm :| vm in todo;
      if vm == "" {
        return Err(Invalid);
      }
      var ip := ParseAddr(texts[vm]);
      if ip.None? {
        return Err(Invalid);
      }
      PoolIs(l, ip.value);
      if !PoolContains(l, ip.value) {
        return Err(Invalid);
      }
      if ip.value in used {
        assert ParseAddr(texts[used[ip.value]]) == ParseAddr(texts[vm]);
        return Err(Invalid);
      }
      used := used[ip.value := vm];
      out := out[vm := ip.value];
      todo := todo - {vm};
    }
    return Ok(out);
  }

  /** Leases written as State and restored come back the same. */
  lemma LeasesRoundTrip(l: Layout, leases: Leases, restored: Leases)
    requires ValidLayout(l) && ValidLeases(l, leases)
    ensures Restorable(l, LeaseTexts(leases))
    ensures ReadFrom(LeaseTexts(leases), restored) <==> restored == leases
  {
    LeaseTextsParse(leases);
    RestorableFrom(l, leases, LeaseTexts(leases));
  }

  lemma LeaseTextsParse(leases: Leases)
    ensures ReadFrom(LeaseTexts(leases), leases)
  {
    forall vm | vm in leases ensures ParseAddr(AddrText(leases[vm])) == Some(leases[vm]) {
      ParseAddrText(leases[vm]);
    }
  }

  lemma RestorableFrom(l: Layout, leases: Leases, texts: map<string, string>)
    requires ValidLayout(l) && ValidLeases(l, leases) && ReadFrom(texts, leases)
    ensures Restorable(l, texts)
    ensures forall restored :: ReadFrom(texts, restored) <==> restored == leases
  {
  }

  /** The text of an address, and of nothing else. */
  predicate IsAddrText(s: string) {
    ParseAddr(s).Some? && AddrText(ParseAddr(s).value) == s
  }

  /** The table has the texts of these addresses as keys, each with its MAC, and no others. */
  ghost predicate TableOf(table: map<string, Mac>, nameByte: byte, ips: seq<Addr>) {
    && (forall ip: Addr :: AddrText(ip) in table <==> ip in ips)
    && (forall ip: Addr :: AddrText(ip) in table ==> table[AddrText(ip)] == MacFor(nameByte, ip))
    && forall s :: s in table ==> IsAddrText(s)
  }

  lemma TableWith(table: map<string, Mac>, nameByte: byte, ips: seq<Addr>, ip: Addr)
    requires TableOf(table, nameByte, ips)
    ensures TableOf(table[AddrText(ip) := MacFor(nameByte, ip)], nameByte, ips + [ip])
  {
    TextInjective(ip);
  }

  lemma MemberOf(ip: Addr, pool: seq<Addr>, host: Addr, broadcast: Addr)
    ensures ip in pool + [host] + [broadcast] <==> ip in pool || ip == host || ip == broadcast
  {
  }

  lemma WholeTable(l: Layout, table: map<string, Mac>, nameByte: byte, pool: seq<Addr>)
    requires ValidLayout(l) && (forall ip: Addr :: ip in pool <==> ip in Pool(l))
    requires TableOf(table, nameByte, pool + [l.host] + [l.broadcast])
    ensures forall ip: Addr :: AddrText(ip) in table <==> ip in Pool(l) || ip == l.host || ip == l.broadcast
  {
    forall ip: Addr ensures AddrText(ip) in table <==> ip in Pool(l) || ip == l.host || ip == l.broadcast {
      MemberOf(ip, pool, l.host, l.broadcast);
    }
  }

  method WithLease(table: map<string, Mac>, nameByte: byte, ip: Addr, ghost ips: seq<Addr>) returns (with: map<string, Mac>)
    requires TableOf(table, nameByte, ips)
    ensures TableOf(with, nameByte, ips + [ip])
  {
    TableWith(table, nameByte, ips, ip);
    with := table[AddrText(ip) := MacFor(nameByte, ip)];
  }

  method PoolTable(nameByte: byte, pool: seq<Addr>) returns (table: map<string, Mac>)
    ensures TableOf(table, nameByte, pool)
  {
    table := map[];
    for n := 0 to |pool|
      invariant TableOf(table, nameByte, pool[..n])
    {
      assert pool[..n + 1] == pool[..n] + [pool[n]];
      table := WithLease(table, nameByte, pool[n], pool[..n]);
    }
    assert pool[..|pool|] == pool;
  }

  /** The static lease table of the gateway: every pool address, the host alias and the broadcast address. */
  method StaticLeases(l: Layout, nameByte: byte) returns (table: map<string, Mac>)
    requires ValidLayout(l)
    ensures forall ip: Addr :: AddrText(ip) in table <==> ip in Pool(l) || ip == l.host || ip == l.broadcast
    ensures forall ip: Addr :: AddrText(ip) in table ==> table[AddrText(ip)] == MacFor(nameByte, ip)
    ensures forall s :: s in table ==> IsAddrText(s)
  {
    var pool := WholePool(l);
    table := PoolTable(nameByte, pool);
    table := WithLease(table, nameByte, l.host, pool);
    table := WithLease(table, nameByte, l.broadcast, pool + [l.host]);
    WholeTable(l, table, nameByte, pool);
  }

  lemma TextInjective(a: Addr)
    ensures IsAddrText(AddrText(a)) && forall b: Addr :: AddrText(a) == AddrText(b) ==> a == b
  {
    ParseAddrText(a);
    forall b: Addr | AddrText(a) == AddrText(b) ensures a == b {
      ParseAddrText(a);
      ParseAddrText(b);
    }
  }

  class Segment {
    const layout: Layout
    const nameByte: byte
    var leases: Leases
    var closed: bool

    ghost predicate Valid()
      reads this
    {
      ValidLayout(layout) && ValidLeases(layout, leases)
    }

    constructor (layout: Layout, nameByte: byte, restored: Leases)
      requires ValidLayout(layout) && ValidLeases(layout, restored)
      ensures Valid() && this.layout == layout && this.nameByte == nameByte && leases == restored && !closed
    {
      this.layout, this.nameByte, leases, closed := layout, nameByte, restored, false;
    }

    /** freeAddrLocked: the first pool address not in use. */
    method FreeAddr() returns (free: Option<Addr>)
      requires Valid()
      ensures free.Some? ==> LowestFree(layout, leases, free.value)
      ensures free.None? ==> Pool(layout) <= Used(leases)
    {
      var used := set vm | vm in leases :: leases[vm];
      var go := (ip: Addr) => ip in used;
      var visited := EachPool(layout, go);
      assert forall ip: Addr :: ip in used <==> ip in Used(leases);
      if visited != [] && visited[|visited| - 1] !in used {
        var ip := visited[|visited| - 1];
        assert ip in visited;
        return Some(ip);
      }
      PoolHasSize(layout);
      WalkExhausts(layout, go, visited);
      return None;
    }

    /** Attach: the lease the VM holds, or the lowest free address; fails only when closed or full. */
    method Attach(cancelled: bool, vm: string) returns (r: Result<Attachment, Error>)
      requires Valid()
      modifies this`leases
      ensures Valid()
      ensures r.Ok? <==> !cancelled && vm != "" && !closed && (vm in old(leases) || |old(leases)| < PoolSize(layout))
      ensures r.Err? ==> leases == old(leases)
      ensures r.Err? ==> r.error == if cancelled then Cancelled else if vm == "" then Invalid else Conflict
      ensures r.Ok? ==> r.value == Attachment(vm, MacFor(nameByte, r.value.ip), r.value.ip)
      ensures r.Ok? && vm in old(leases) ==> leases == old(leases) && r.value.ip == leases[vm]
      ensures r.Ok? && vm !in old(leases) ==>
                LowestFree(layout, old(leases), r.value.ip) && leases == old(leases)[vm := r.value.ip]
    {
      if cancelled {
        return Err(Cancelled);
      }
      if vm == "" {
        return Err(Invalid);
      }
      if closed {
        return Err(Conflict);
      }
      if vm in leases {
        return Ok(Attachment(vm, MacFor(nameByte, leases[vm]), leases[vm]));
      }
      ExhaustedIffFull(layout, leases);
      var free := FreeAddr();
      if free.None? {
        return Err(Conflict);
      }
      assert forall v :: v in leases ==> leases[v] as int in Used(leases);
      leases := leases[vm := free.value];
      return Ok(Attachment(vm, MacFor(nameByte, free.value), free.value));
    }

    /** Detach releases the VM's address. */
    method Detach(vm: string) returns (ok: bool)
      requires Valid()
      modifies this`leases
      ensures Valid() && ok == (vm in old(leases)) && leases == old(leases) - {vm}
    {
      if vm !in leases {
        return false;
      }
      leases := leases - {vm};
      return true;
    }

    /** State. */
    method Snapshot() returns (texts: map<string, string>)
      requires Valid()
      ensures texts == LeaseTexts(leases) && Restorable(layout, texts)
    {
      texts := map[];
      var todo := leases.Keys;
      while todo != {}
        invariant todo <= leases.Keys && texts.Keys == leases.Keys - todo
        invariant forall vm :: vm in texts ==> texts[vm] == AddrText(leases[vm])
        decreases todo
      {
        var vm :| vm in todo;
        texts := texts[vm := AddrText(leases[vm])];
        todo := todo - {vm};
      }
      LeasesRoundTrip(layout, leases, leases);
    }
  }

  /** A walk that does not end at an address that stops it has seen the whole pool let it go on. */
  lemma WalkExhausts(l: Layout, go: Addr -> bool, visited: seq<Addr>)
    requires ValidLayout(l) && Ascending(visited)
    requires forall ip: Addr :: ip in visited <==> ip in Pool(l) && Reaches(l, go, ip)
    requires visited == [] || go(visited[|visited| - 1])
    ensures forall ip: Addr :: ip in Pool(l) ==> go(ip)
  {
    forall ip: Addr | ip in Pool(l) ensures go(ip) {
      GoesOn(l, go, visited, ip);
    }
  }

  lemma GoesOn(l: Layout, go: Addr -> bool, visited: seq<Addr>, ip: Addr)
    requires ValidLayout(l) && Ascending(visited) && ip in Pool(l)
    requires forall ip: Addr :: ip in visited <==> ip in Pool(l) && Reaches(l, go, ip)
    requires visited == [] || go(visited[|visited| - 1])
    ensures go(ip)
    decreases ip
  {
    forall j: Addr | j in Pool(l) && j < ip ensures go(j) {
      GoesOn(l, go, visited, j);
    }
    assert Reaches(l, go, ip);
    assert ip in visited;
    var k :| 0 <= k < |visited| && visited[k] == ip;
    if k < |visited| - 1 {
      assert visited[|visited| - 1] in visited;
    }
  }
}
