/** Running what was emitted: scripts of whole files never name a device that does not exist. */
module Safety {
  import opened Basics
  import opened Ast
  import opened Netip
  import opened Props
  import opened Env
  import opened Machine
  import opened Linux
  import opened Tile
  import opened Selection
  import opened Covering
  import opened Spine

  // ---------------------------------------------------------------- one device

  /** The machine knows no device whose name is still free, and has the one to attach to. */
  ghost predicate Fits(m: Machine, st: EnvState) {
    m.links.Keys <= st.used && st.dev in m.links
  }

  /** The devices a script creates, with their links, in order. */
  function Added(ops: seq<Op>): seq<(string, Link)> {
    if ops == [] then [] else AddedBy(ops[0]) + Added(ops[1..])
  }

  function AddedBy(op: Op): seq<(string, Link)> {
    match op case LinkAdd(d, link) => [(d, link)] case _ => []
  }

  /** The devices a script brings up, in order. */
  function Raised(ops: seq<Op>): seq<string> {
    if ops == [] then [] else RaisedBy(ops[0]) + Raised(ops[1..])
  }

  function RaisedBy(op: Op): seq<string> {
    match op case LinkUp(d) => [d] case _ => []
  }

  lemma {:induction false} AddedAppend(a: seq<Op>, b: seq<Op>)
    ensures Added(a + b) == Added(a) + Added(b) && Raised(a + b) == Raised(a) + Raised(b)
    decreases a
  {
    hide AddedBy, RaisedBy;
    if a == [] {
      assert a + b == b;
    } else {
      assert (a + b)[0] == a[0] && (a + b)[1..] == a[1..] + b;
      AddedAppend(a[1..], b);
      assert AddedBy(a[0]) + (Added(a[1..]) + Added(b)) == (AddedBy(a[0]) + Added(a[1..])) + Added(b);
      assert RaisedBy(a[0]) + (Raised(a[1..]) + Raised(b)) == (RaisedBy(a[0]) + Raised(a[1..])) + Raised(b);
    }
  }

  /** A script that creates one device, preceded by at most one address below it and followed by things about it. */
  lemma {:induction false} BlockRuns(before: seq<Op>, d: string, link: Link, after: seq<Op>, m: Machine,
                                     dev: string) returns (m': Machine)
    requires d !in m.links && dev in m.links && (Underlay(link) == None || Underlay(link) == Some(dev))
    requires forall k :: 0 <= k < |before| ==> before[k].AddrAdd? && before[k].dev == dev
    requires forall k :: 0 <= k < |after| ==>
      (after[k].AddrAdd? && after[k].dev == d)
      || (link == Wireguard && (after[k].WgListen? || after[k].WgPeer?) && after[k].dev == d)
    ensures Run(before + ([LinkAdd(d, link)] + after), m) == Some(m')
    ensures m'.links == m.links[d := Some(link)] && m'.up == m.up
    ensures Added(before + ([LinkAdd(d, link)] + after)) == [(d, link)]
        && Raised(before + ([LinkAdd(d, link)] + after)) == []
  {
    var m1 := QuietRuns(before, m, dev);
    var m2 := m1.(links := m1.links[d := Some(link)]);
    m' := QuietRuns(after, m2, d);
    var tail := [LinkAdd(d, link)] + after;
    assert tail[0] == LinkAdd(d, link) && tail[1..] == after;
    assert Run(tail, m1) == Run(after, m2);
    RunAppend(before, tail, m);
    AddedAppend(before, tail);
    assert Added(tail) == [(d, link)] + Added(after);
    assert Raised(tail) == [] + Raised(after);
  }

  /** Commands about one existing device, none of which creates or raises anything. */
  lemma {:induction false} QuietRuns(ops: seq<Op>, m: Machine, d: string) returns (m': Machine)
    requires d in m.links
    requires forall k :: 0 <= k < |ops| ==>
      (ops[k].AddrAdd? && ops[k].dev == d)
      || (m.links[d] == Some(Wireguard) && (ops[k].WgListen? || ops[k].WgPeer?) && ops[k].dev == d)
    ensures Run(ops, m) == Some(m') && m'.links == m.links && m'.up == m.up
    ensures Added(ops) == [] && Raised(ops) == []
    decreases ops
  {
    if ops == [] {
      m' := m;
    } else {
      assert ops[0].dev == d;
      m' := QuietRuns(ops[1..], Step(ops[0], m).value, d);
    }
  }

  // ---------------------------------------------------------------- the six lowerings

  predicate IsShape(l: Lowering) {
    l.IPIP? || l.GRE? || l.GRETAP? || l.VXLAN? || l.VLAN? || l.WireGuard?
  }

  /** Every shape is a block: an address below at most, one device, and things about that device. */
  ghost predicate IsBlock(ops: seq<Op>, dev: string, d: string, link: Link, before: seq<Op>, after: seq<Op>) {
    && ops == before + ([LinkAdd(d, link)] + after)
    && (Underlay(link) == None || Underlay(link) == Some(dev))
    && (forall k :: 0 <= k < |before| ==> before[k].AddrAdd? && before[k].dev == dev)
    && (forall k :: 0 <= k < |after| ==>
          (after[k].AddrAdd? && after[k].dev == d)
          || (link == Wireguard && (after[k].WgListen? || after[k].WgPeer?) && after[k].dev == d))
  }

  /** The environment after a shape was lowered: one fresh name, entered. */
  ghost predicate Entering(st: EnvState, st': EnvState, d: string) {
    && d !in st.used && st'.used == st.used + {d} && st'.created == st.created + [d]
    && st'.dev == d && st'.root == st.root && st'.keyDir == st.keyDir
  }

  lemma IPIPBlock(ip: NetIP, sp: seq<Layer>, st: EnvState) returns (d: string, link: Link, after: seq<Op>)
    requires |sp| >= 2 && IPIPOps(ip, sp, st).ops.Ok?
    ensures IsBlock(IPIPOps(ip, sp, st).ops.value, st.dev, d, link, [], after)
        && Entering(st, IPIPOps(ip, sp, st).env, d)
  {
    AllocKeepsRest(st, "ipip");
    d := Allocated(st, "ipip").0.value;
    var ends := Endpoints(ip, sp[0]).value;
    link, after := Ipip(ends.0, ends.1), AddrOps(ip, sp[1], d).value;
  }

  lemma GREBlock(ip: NetIP, sp: seq<Layer>, st: EnvState) returns (d: string, link: Link, after: seq<Op>)
    requires |sp| >= 3 && GREOps(ip, sp, st).ops.Ok?
    ensures IsBlock(GREOps(ip, sp, st).ops.value, st.dev, d, link, [], after) && Entering(st, GREOps(ip, sp, st).env, d)
  {
    AllocKeepsRest(st, "gre");
    d := Allocated(st, "gre").0.value;
    var ends := Endpoints(ip, sp[0]).value;
    link, after := Gre(ends.0, ends.1, TunnelKey(sp[1]).value.Get()), AddrOps(ip, sp[2], d).value;
  }

  lemma GRETAPBlock(ip: NetIP, sp: seq<Layer>, st: EnvState) returns (d: string, link: Link)
    requires |sp| >= 3 && GRETAPOps(ip, sp, st).ops.Ok?
    ensures IsBlock(GRETAPOps(ip, sp, st).ops.value, st.dev, d, link, [], [])
        && Entering(st, GRETAPOps(ip, sp, st).env, d)
  {
    AllocKeepsRest(st, "gretap");
    d := Allocated(st, "gretap").0.value;
    var ends := Endpoints(ip, sp[0]).value;
    link := Gretap(ends.0, ends.1, TunnelKey(sp[1]).value.Get());
  }

  lemma VXLANBlock(ip: NetIP, sp: seq<Layer>, st: EnvState) returns (d: string, link: Link, before: seq<Op>)
    requires |sp| >= 3 && VXLANOps(ip, sp, st).ops.Ok?
    ensures IsBlock(VXLANOps(ip, sp, st).ops.value, st.dev, d, link, before, [])
        && Entering(st, VXLANOps(ip, sp, st).env, d)
    ensures ReadVXLANFields(ip, sp).Ok? && before == UnderlayOps(ReadVXLANFields(ip, sp).value.local, st.dev)
    ensures link == VxlanLink(ip, ReadVXLANFields(ip, sp).value, st.dev)
  {
    AllocKeepsRest(st, "vxlan");
    var f := ReadVXLANFields(ip, sp).value;
    d := VxlanName(f.vni, st).0.value;
    link, before := VxlanLink(ip, f, st.dev), UnderlayOps(f.local, st.dev);
    assert [LinkAdd(d, link)] + [] == [LinkAdd(d, link)];
  }

  lemma VLANBlock(sp: seq<Layer>, st: EnvState) returns (d: string, link: Link)
    requires |sp| >= 2 && VLANOps(sp, st).ops.Ok?
    ensures IsBlock(VLANOps(sp, st).ops.value, st.dev, d, link, [], []) && Entering(st, VLANOps(sp, st).env, d)
    ensures link.Vlan? && link.under == st.dev
  {
    var n := VLANID(sp[1]).value.value;
    d := VLANOps(sp, st).env.dev;
    link := Vlan(st.dev, n);
  }

  lemma WireGuardBlock(ip: NetIP, sp: seq<Layer>, st: EnvState) returns (d: string, after: seq<Op>)
    requires |sp| >= 4 && WireGuardOps(ip, sp, st).ops.Ok?
    ensures IsBlock(WireGuardOps(ip, sp, st).ops.value, st.dev, d, Wireguard, [], after)
        && Entering(st, WireGuardOps(ip, sp, st).env, d)
  {
    hide ReadWgFields, WgEndpoint, PeerKey, KeyFile, Allocated;
    AllocKeepsRest(st, "wg");
    d := Allocated(st, "wg").0.value;
    var f := ReadWgFields(ip, sp).value;
    var addr := AddrOps(ip, sp[3], d).value;
    after := WgOps(ip, f, st.keyDir, d)[1..] + addr;
    assert WgOps(ip, f, st.keyDir, d) + addr == [] + ([LinkAdd(d, Wireguard)] + after);
  }

  lemma ShapeBlock(ip: NetIP, l: Lowering, sp: seq<Layer>, st: EnvState)
    returns (d: string, link: Link, before: seq<Op>, after: seq<Op>)
    requires IsShape(l) && |sp| >= Arity(l) && Lower(ip, l, sp, st).ops.Ok?
    ensures IsBlock(Lower(ip, l, sp, st).ops.value, st.dev, d, link, before, after)
        && Entering(st, Lower(ip, l, sp, st).env, d)
    ensures l.VLAN? ==> link.Vlan? && link.under == st.dev
    ensures l.VXLAN? ==>
              && ReadVXLANFields(ip, sp).Ok? && link == VxlanLink(ip, ReadVXLANFields(ip, sp).value, st.dev)
              && before == UnderlayOps(ReadVXLANFields(ip, sp).value.local, st.dev)
  {
    hide IPIPOps, GREOps, GRETAPOps, VXLANOps, VLANOps, WireGuardOps;
    before, after := [], [];
    match l
    case IPIP => d, link, after := IPIPBlock(ip, sp, st);
    case GRE => d, link, after := GREBlock(ip, sp, st);
    case GRETAP => d, link := GRETAPBlock(ip, sp, st);
    case VXLAN => d, link, before := VXLANBlock(ip, sp, st);
    case VLAN => d, link := VLANBlock(sp, st);
    case WireGuard =>
      link := Wireguard;
      d, after := WireGuardBlock(ip, sp, st);
  }

  // ---------------------------------------------------------------- one rule

  /** `d` was built on nothing, or on `under`. */
  predicate On(link: Link, under: string) {
    Underlay(link) == None || Underlay(link) == Some(under)
  }

  /** The device below the k-th of a rule's devices. */
  function Below(added: seq<(string, Link)>, k: nat, base: string): string
    requires k < |added|
  {
    if k == 0 then base else added[k - 1].0
  }

  /** Each device of a rule stands on nothing, on the one before it, or, being first, on `base`. */
  ghost predicate Stacked(added: seq<(string, Link)>, base: string) {
    forall k :: 0 <= k < |added| ==> On(added[k].1, Below(added, k, base))
  }

  function Devices(added: seq<(string, Link)>): (r: seq<string>)
    ensures |r| == |added| && forall k :: 0 <= k < |added| ==> r[k] == added[k].0
  {
    if added == [] then [] else [added[0].0] + Devices(added[1..])
  }

  /** The machine once devices were added to it. */
  ghost predicate Grown(m: Machine, m': Machine, added: seq<(string, Link)>) {
    && m'.links.Keys == m.links.Keys + (set d | d in Devices(added))
    && (forall d :: d in m.links ==> m'.links[d] == m.links[d])
    && (forall k :: 0 <= k < |added| ==> added[k].0 !in m.links && m'.links[added[k].0] == Some(added[k].1))
    && m'.up == m.up
  }

  lemma GrownCons(m: Machine, m1: Machine, m2: Machine, d: string, link: Link, rest: seq<(string, Link)>)
    requires d !in m.links && m1.links == m.links[d := Some(link)] && m1.up == m.up && Grown(m1, m2, rest)
    ensures Grown(m, m2, [(d, link)] + rest)
  {
    var all := [(d, link)] + rest;
    forall k | 0 <= k < |all| ensures all[k].0 !in m.links && m2.links[all[k].0] == Some(all[k].1) {
      if k > 0 { assert all[k] == rest[k - 1]; }
    }
    assert Devices(all) == [d] + Devices(rest) by { assert all[1..] == rest; }
    assert (set x | x in Devices(all)) == {d} + (set x | x in Devices(rest));
  }

  lemma StackedCons(d: string, link: Link, rest: seq<(string, Link)>, base: string)
    requires On(link, base) && Stacked(rest, d)
    ensures Stacked([(d, link)] + rest, base)
  {
    var all := [(d, link)] + rest;
    forall k | 0 <= k < |all| ensures On(all[k].1, Below(all, k, base)) {
      if k > 0 {
        assert all[k] == rest[k - 1];
        assert On(rest[k - 1].1, Below(rest, k - 1, d));
      }
    }
  }

  ghost predicate AllShapes(tiles: seq<Tile>) {
    forall t :: t in tiles ==> IsShape(t.lower)
  }

  /** Operations that run and build `added`, taking the environment and the machine along. */
  ghost predicate Ran(ops: seq<Op>, st: EnvState, st': EnvState, m: Machine, m': Machine, added: seq<(string, Link)>) {
    && Run(ops, m) == Some(m') && Fits(m', st') && Added(ops) == added && Raised(ops) == []
    && st'.created == st.created + Devices(added) && st'.root == st.root
    && Stacked(added, st.dev) && Grown(m, m', added)
  }

  lemma HeadRuns(ip: NetIP, l: Lowering, sub: seq<Layer>, st: EnvState, m: Machine)
    returns (m': Machine, d: string, link: Link)
    requires IsShape(l) && |sub| >= Arity(l) && Lower(ip, l, sub, st).ops.Ok? && Fits(m, st)
    ensures Ran(Lower(ip, l, sub, st).ops.value, st, Lower(ip, l, sub, st).env, m, m', [(d, link)])
    ensures Lower(ip, l, sub, st).env.dev == d
  {
    hide Lower, Run, Added, Raised, Ran;
    var before, after;
    d, link, before, after := ShapeBlock(ip, l, sub, st);
    m' := BlockRuns(before, d, link, after, m, st.dev);
    RanOne(Lower(ip, l, sub, st).ops.value, st, Lower(ip, l, sub, st).env, m, m', d, link);
  }

  lemma RanOne(ops: seq<Op>, st: EnvState, st': EnvState, m: Machine, m': Machine, d: string, link: Link)
    requires Entering(st, st', d) && Fits(m, st) && On(link, st.dev) && d !in m.links
    requires Run(ops, m) == Some(m') && m'.links == m.links[d := Some(link)] && m'.up == m.up
    requires Added(ops) == [(d, link)] && Raised(ops) == []
    ensures Ran(ops, st, st', m, m', [(d, link)])
  {
    hide Run, Added, Raised;
    DevicesOne(d, link);
    assert (set x | x in [d]) == {d};
  }

  lemma RanCons(a: seq<Op>, b: seq<Op>, st: EnvState, st1: EnvState, st2: EnvState, m: Machine, m1: Machine,
                m2: Machine,
                d: string, link: Link, rest: seq<(string, Link)>)
    requires Ran(a, st, st1, m, m1, [(d, link)]) && st1.dev == d && Ran(b, st1, st2, m1, m2, rest)
    ensures Ran(a + b, st, st2, m, m2, [(d, link)] + rest)
  {
    hide Run, Added, Raised, Grown, Stacked, Devices;
    RunAppend(a, b, m);
    AddedAppend(a, b);
    GrownOne(m, m1, d, link);
    GrownCons(m, m1, m2, d, link, rest);
    StackedOne(d, link, st.dev);
    StackedCons(d, link, rest, st.dev);
    DevicesOne(d, link);
    DevicesCons(d, link, rest);
    assert st.created + [d] + Devices(rest) == st.created + ([d] + Devices(rest));
  }

  lemma StackedOne(d: string, link: Link, base: string)
    requires Stacked([(d, link)], base)
    ensures On(link, base)
  {
    var one := [(d, link)];
    assert one[0] == (d, link) && On(one[0].1, Below(one, 0, base));
  }

  lemma GrownOne(m: Machine, m1: Machine, d: string, link: Link)
    requires Grown(m, m1, [(d, link)])
    ensures d !in m.links && m1.links == m.links[d := Some(link)] && m1.up == m.up
  {
    var one := [(d, link)];
    DevicesOne(d, link);
    assert one[0] == (d, link);
    assert (set x | x in [d]) == {d};
  }

  lemma DevicesOne(d: string, link: Link)
    ensures Devices([(d, link)]) == [d]
  {
    var one := [(d, link)];
    assert one[1..] == [] && one[0].0 == d;
  }

  lemma DevicesCons(d: string, link: Link, rest: seq<(string, Link)>)
    ensures Devices([(d, link)] + rest) == [d] + Devices(rest)
  {
    assert ([(d, link)] + rest)[1..] == rest;
  }

  /** A chain of shapes, lowered: it runs, and builds one device per tile, each on the one before. */
  lemma {:induction false} ChainRuns(ip: NetIP, tiles: seq<Tile>, chain: seq<Tile>, sp: seq<Layer>, i: nat,
                                     st: EnvState, m: Machine)
    returns (m': Machine, added: seq<(string, Link)>)
    requires AllUsable(tiles) && AllShapes(tiles) && Chain(tiles, sp, i, chain)
    requires LowerChain(ip, tiles, chain, sp, i, st).ops.Ok? && Fits(m, st)
    ensures var low := LowerChain(ip, tiles, chain, sp, i, st); Ran(low.ops.value, st, low.env, m, m', added)
    ensures |added| == |chain|
    decreases chain
  {
    if chain == [] {
      m', added := m, [];
      assert st.created + [] == st.created;
    } else {
      var n := Next(i, chain[0]);
      var first := ChainHead(ip, tiles, chain, sp, i, st);
      hide Lower, Matches, Ran, LowerChain;
      var m1, d, link := HeadRuns(ip, chain[0].lower, sp[i..n], st, m);
      assert Fits(m1, first.env) by { RanFits(first.ops.value, st, first.env, m, m1, [(d, link)]); }
      var rest;
      m', rest := ChainRuns(ip, tiles, chain[1..], sp, n, first.env, m1);
      added := [(d, link)] + rest;
      var more := LowerChain(ip, tiles, chain[1..], sp, n, first.env);
      RanCons(first.ops.value, more.ops.value, st, first.env, more.env, m, m1, m', d, link, rest);
    }
  }

  lemma RanFits(ops: seq<Op>, st: EnvState, st': EnvState, m: Machine, m': Machine, added: seq<(string, Link)>)
    requires Ran(ops, st, st', m, m', added)
    ensures Fits(m', st')
  {
  }

  /** The first tile of a chain that lowers, lowers. */
  lemma ChainHead(ip: NetIP, tiles: seq<Tile>, chain: seq<Tile>, sp: seq<Layer>, i: nat, st: EnvState)
    returns (first: Lowered)
    requires AllUsable(tiles) && AllShapes(tiles) && chain != [] && Chain(tiles, sp, i, chain)
    requires LowerChain(ip, tiles, chain, sp, i, st).ops.Ok?
    ensures i < Next(i, chain[0]) <= |sp| && IsShape(chain[0].lower)
    ensures |sp[i..Next(i, chain[0])]| >= Arity(chain[0].lower)
    ensures first == Lower(ip, chain[0].lower, sp[i..Next(i, chain[0])], st) && first.ops.Ok?
    ensures LowerChain(ip, tiles, chain[1..], sp, Next(i, chain[0]), first.env).ops.Ok?
    ensures LowerChain(ip, tiles, chain, sp, i, st).ops.value
         == first.ops.value + LowerChain(ip, tiles, chain[1..], sp, Next(i, chain[0]), first.env).ops.value
    ensures LowerChain(ip, tiles, chain, sp, i, st).env
         == LowerChain(ip, tiles, chain[1..], sp, Next(i, chain[0]), first.env).env
  {
    hide Lower;
    assert Usable(chain[0]);
    first := Lower(ip, chain[0].lower, sp[i..Next(i, chain[0])], st);
  }

  /** Bringing a rule's devices up in the order they were made never finds an underlay that is down. */
  lemma {:induction false} UpRuns(added: seq<(string, Link)>, m: Machine, base: string) returns (m': Machine)
    requires Stacked(added, base) && base in m.up
    requires forall j :: 0 <= j < |added| ==> added[j].0 in m.links && m.links[added[j].0] == Some(added[j].1)
    ensures Run(BringUp(Devices(added)), m) == Some(m')
    ensures m'.links == m.links && m'.up == m.up + (set d | d in Devices(added))
    decreases added
  {
    if added == [] {
      m' := m;
    } else {
      var d, link, rest := added[0].0, added[0].1, added[1..];
      assert On(link, Below(added, 0, base));
      var m1 := m.(up := m.up + {d});
      assert Step(LinkUp(d), m) == Some(m1);
      StackedTail(added, base);
      m' := UpRuns(rest, m1, d);
      BringUpCons(d, Devices(rest));
      NamesCons(d, Devices(rest));
    }
  }

  lemma StackedTail(added: seq<(string, Link)>, base: string)
    requires added != [] && Stacked(added, base)
    ensures Stacked(added[1..], added[0].0)
  {
    var rest := added[1..];
    forall k | 0 <= k < |rest| ensures On(rest[k].1, Below(rest, k, added[0].0)) {
      assert On(added[k + 1].1, Below(added, k + 1, base));
    }
  }

  lemma NamesCons(d: string, rest: seq<string>)
    ensures (set x | x in [d] + rest) == {d} + (set x | x in rest)
  {
  }

  lemma BringUpCons(d: string, rest: seq<string>)
    ensures BringUp([d] + rest) != [] && BringUp([d] + rest)[0] == LinkUp(d)
        && BringUp([d] + rest)[1..] == BringUp(rest)
  {
    assert ([d] + rest)[1..] == rest;
  }

  lemma {:induction false} RaisedIs(devs: seq<string>)
    ensures Raised(BringUp(devs)) == devs && Added(BringUp(devs)) == []
  {
    if devs != [] {
      RaisedIs(devs[1..]);
      assert BringUp(devs)[1..] == BringUp(devs[1..]);
    }
  }

  /** The physical device is up, and is what a rule starts from. */
  ghost predicate Rooted(m: Machine, st: EnvState) {
    Fits(m, st) && st.dev == st.root && st.root in m.up
  }

  /**
   One rule: its script runs; it creates one device per tile, each on nothing, on the physical
   device, or on the device before; and it brings up exactly those, in the order it made them.
   */
  lemma {:induction false} RuleRuns(ip: NetIP, tiles: seq<Tile>, sp: seq<Layer>, st: EnvState, m: Machine)
    returns (m': Machine, added: seq<(string, Link)>)
    requires AllUsable(tiles) && AllShapes(tiles) && sp != []
    requires Cover(ip, tiles, sp, st).0.Ok? && Rooted(m, st)
    ensures var (c, st') := Cover(ip, tiles, sp, st);
            && Run(c.value.ops, m) == Some(m') && m'.links.Keys <= st'.used
            && Added(c.value.ops) == added && Raised(c.value.ops) == Devices(added)
            && st'.created == st.created + Devices(added) && st'.root == st.root && |added| == |c.value.applied|
    ensures Stacked(added, st.root)
    ensures m.links.Keys <= m'.links.Keys && m'.up == m.up + (set d | d in Devices(added))
    ensures forall k :: 0 <= k < |added| ==> added[k].0 !in m.links
    ensures forall d :: d in m.links ==> m'.links[d] == m.links[d]
  {
    var low, addr, c := CoverParts(ip, tiles, sp, st);
    hide LowerChain, Greedy, Cover, Ran;
    var m1;
    m1, added := ChainRuns(ip, tiles, Greedy(tiles, sp, 0), sp, 0, st, m);
    m' := PartsRun(low.ops.value, addr, st, low.env, m, m1, added);
  }

  /** The three parts of a rule's script, one after the other. */
  lemma PartsRun(body: seq<Op>, addr: seq<Op>, st: EnvState, st': EnvState, m: Machine, m1: Machine,
                 added: seq<(string, Link)>)
    returns (m': Machine)
    requires Ran(body, st, st', m, m1, added) && Rooted(m, st)
    requires forall k :: 0 <= k < |addr| ==> addr[k].AddrAdd? && addr[k].dev == st'.dev
    ensures var ops := body + addr + BringUp(Since(st'.created, |st.created|));
            Run(ops, m) == Some(m') && Added(ops) == added && Raised(ops) == Devices(added)
    ensures st'.created == st.created + Devices(added) && st'.root == st.root && Stacked(added, st.root)
    ensures m'.links.Keys <= st'.used && m'.up == m.up + (set d | d in Devices(added))
    ensures m.links.Keys <= m'.links.Keys
    ensures forall k :: 0 <= k < |added| ==> added[k].0 !in m.links
    ensures forall d :: d in m.links ==> m'.links[d] == m.links[d]
  {
    hide Run, Added, Raised, BringUp, Devices, Stacked;
    var devs := Devices(added);
    assert Since(st'.created, |st.created|) == devs;
    var m2 := QuietRuns(addr, m1, st'.dev);
    m' := UpRuns(added, m2, st.root);
    RaisedIs(devs);
    ThreeParts(body, addr, BringUp(devs), m, m1, m2);
    assert added + [] + [] == added && [] + [] + devs == devs;
  }

  lemma ThreeParts(a: seq<Op>, b: seq<Op>, c: seq<Op>, m: Machine, m1: Machine, m2: Machine)
    requires Run(a, m) == Some(m1) && Run(b, m1) == Some(m2)
    ensures Run(a + b + c, m) == Run(c, m2)
    ensures Added(a + b + c) == Added(a) + Added(b) + Added(c) && Raised(a + b + c) == Raised(a) + Raised(b) + Raised(c)
  {
    hide Run, Added, Raised;
    RunAppend(a + b, c, m);
    RunAppend(a, b, m);
    AddedAppend(a + b, c);
    AddedAppend(a, b);
  }

  /** A successful cover: its lowered chain, at most one address on the innermost device, the devices brought up. */
  lemma CoverParts(ip: NetIP, tiles: seq<Tile>, sp: seq<Layer>, st: EnvState)
    returns (low: Lowered, addr: seq<Op>, c: Covered)
    requires AllUsable(tiles) && sp != [] && Cover(ip, tiles, sp, st).0.Ok?
    ensures Greedy(tiles, sp, 0) != [] && Chain(tiles, sp, 0, Greedy(tiles, sp, 0))
    ensures low == LowerChain(ip, tiles, Greedy(tiles, sp, 0), sp, 0, st) && low.ops.Ok?
    ensures Cover(ip, tiles, sp, st) == (Ok(c), low.env)
    ensures c.ops == low.ops.value + addr + BringUp(Since(low.env.created, |st.created|))
    ensures forall k :: 0 <= k < |addr| ==> addr[k].AddrAdd? && addr[k].dev == low.env.dev
    ensures |c.applied| == |Greedy(tiles, sp, 0)|
  {
    hide LowerChain, Greedy;
    var chain := Greedy(tiles, sp, 0);
    GreedyIsChain(tiles, sp, 0);
    ChainFits(tiles, sp, 0, chain);
    low := LowerGreedy(ip, tiles, sp, 0, st);
    c := Cover(ip, tiles, sp, st).0.value;
    addr := Terminal(ip, sp[End(0, chain)..], low.env.dev).value.0;
    TileNamesLength(chain);
  }

  // ---------------------------------------------------------------- what stands on what

  /** The layers the k-th tile of a chain takes. */
  function PartAt(sp: seq<Layer>, i: nat, chain: seq<Tile>, k: nat): seq<Layer>
    requires k < |chain| && End(i, chain) <= |sp|
    decreases k
  {
    if k == 0 then
      assert Next(i, chain[0]) <= End(i, chain);
      sp[i..Next(i, chain[0])]
    else PartAt(sp, Next(i, chain[0]), chain[1..], k - 1)
  }

  /** What the VXLAN tile at place k emits: its :src prefix placed on the device below, then the device, on that one. */
  ghost predicate VxlanStandsOn(ip: NetIP, part: seq<Layer>, ops: seq<Op>, d: string, under: string) {
    && |part| >= 3 && ReadVXLANFields(ip, part).Ok?
    && var f := ReadVXLANFields(ip, part).value;
       exists j :: 0 <= j < |ops| && ops[j] == LinkAdd(d, VxlanLink(ip, f, under))
         && (f.local.prefix != "" ==> j > 0 && ops[j - 1] == AddrAdd(f.local.prefix, under))
  }

  /** Where a tile's device is placed, for the tiles that attach to something. */
  ghost predicate Attached(ip: NetIP, l: Lowering, part: seq<Layer>, ops: seq<Op>, d: string, under: string) {
    && (l.VXLAN? ==> VxlanStandsOn(ip, part, ops, d, under))
    && (l.VLAN? ==> exists j, tag :: 0 <= j < |ops| && ops[j] == LinkAdd(d, Vlan(under, tag)))
  }

  lemma HeadPlaced(ip: NetIP, l: Lowering, sub: seq<Layer>, st: EnvState, tail: seq<Op>) returns (d: string)
    requires IsShape(l) && |sub| >= Arity(l) && Lower(ip, l, sub, st).ops.Ok?
    ensures Attached(ip, l, sub, Lower(ip, l, sub, st).ops.value + tail, d, st.dev)
    ensures Enters(st, Lower(ip, l, sub, st).env, [d]) && Lower(ip, l, sub, st).env.dev == d
  {
    hide Lower, VxlanLink;
    var link, before, after;
    d, link, before, after := ShapeBlock(ip, l, sub, st);
    var ops := Lower(ip, l, sub, st).ops.value;
    assert ops[|before|] == LinkAdd(d, link);
    assert (ops + tail)[|before|] == LinkAdd(d, link);
    if l.VXLAN? && |before| > 0 {
      assert (ops + tail)[|before| - 1] == before[|before| - 1];
    }
  }

  lemma LaterPlaced(ip: NetIP, l: Lowering, part: seq<Layer>, ops: seq<Op>, tail: seq<Op>, d: string, under: string)
    requires Attached(ip, l, part, tail, d, under)
    ensures Attached(ip, l, part, ops + tail, d, under)
  {
    hide VxlanLink, ReadVXLANFields;
    if l.VXLAN? {
      var f := ReadVXLANFields(ip, part).value;
      var j :| 0 <= j < |tail| && tail[j] == LinkAdd(d, VxlanLink(ip, f, under))
        && (f.local.prefix != "" ==> j > 0 && tail[j - 1] == AddrAdd(f.local.prefix, under));
      assert (ops + tail)[|ops| + j] == tail[j];
      if j > 0 { assert (ops + tail)[|ops| + j - 1] == tail[j - 1]; }
    }
    if l.VLAN? {
      var j, tag :| 0 <= j < |tail| && tail[j] == LinkAdd(d, Vlan(under, tag));
      assert (ops + tail)[|ops| + j] == tail[j];
    }
  }

  /** The devices entered between two environments. */
  predicate Enters(st: EnvState, st': EnvState, devs: seq<string>) {
    st'.created == st.created + devs
  }

  lemma EntersCons(st: EnvState, st1: EnvState, st2: EnvState, d: string, rest: seq<string>)
    requires Enters(st, st1, [d]) && Enters(st1, st2, rest)
    ensures Enters(st, st2, [d] + rest)
    ensures forall devs :: Enters(st, st2, devs) ==> devs == [d] + rest
  {
    assert st.created + [d] + rest == st.created + ([d] + rest);
    forall devs | Enters(st, st2, devs) ensures devs == [d] + rest {
      Cancel(st.created, d, rest, devs);
    }
  }

  lemma EntersNothing(st: EnvState)
    ensures Enters(st, st, [])
  {
    assert st.created + [] == st.created;
  }

  /** A lowered chain enters one device per tile. */
  lemma {:induction false} ChainEnters(ip: NetIP, tiles: seq<Tile>, chain: seq<Tile>, sp: seq<Layer>, i: nat,
                                       st: EnvState)
    returns (devs: seq<string>)
    requires AllUsable(tiles) && AllShapes(tiles) && Chain(tiles, sp, i, chain)
    requires LowerChain(ip, tiles, chain, sp, i, st).ops.Ok?
    ensures |devs| == |chain| && Enters(st, LowerChain(ip, tiles, chain, sp, i, st).env, devs)
    decreases chain
  {
    if chain == [] {
      devs := [];
      EntersNothing(st);
    } else {
      var n := Next(i, chain[0]);
      var first := ChainHead(ip, tiles, chain, sp, i, st);
      hide Lower, LowerChain, Enters, Matches, Attached;
      var d := HeadPlaced(ip, chain[0].lower, sp[i..n], st, []);
      var rest := ChainEnters(ip, tiles, chain[1..], sp, n, first.env);
      devs := [d] + rest;
      EntersCons(st, first.env, LowerChain(ip, tiles, chain[1..], sp, n, first.env).env, d, rest);
    }
  }

  /** A lowered chain taken apart: its first tile's operations and device, and the rest of it. */
  lemma ChainApart(ip: NetIP, tiles: seq<Tile>, chain: seq<Tile>, sp: seq<Layer>, i: nat, st: EnvState,
                   devs: seq<string>)
    returns (first: Lowered)
    requires AllUsable(tiles) && AllShapes(tiles) && Chain(tiles, sp, i, chain) && chain != []
    requires LowerChain(ip, tiles, chain, sp, i, st).ops.Ok?
    requires Enters(st, LowerChain(ip, tiles, chain, sp, i, st).env, devs)
    ensures |devs| == |chain| && i < Next(i, chain[0]) <= |sp|
    ensures var more := LowerChain(ip, tiles, chain[1..], sp, Next(i, chain[0]), first.env);
            && first.ops.Ok? && more.ops.Ok? && Enters(first.env, more.env, devs[1..]) && first.env.dev == devs[0]
            && LowerChain(ip, tiles, chain, sp, i, st).ops.value == first.ops.value + more.ops.value
            && Attached(ip, chain[0].lower, sp[i..Next(i, chain[0])], first.ops.value + more.ops.value, devs[0], st.dev)
  {
    var n := Next(i, chain[0]);
    first := ChainHead(ip, tiles, chain, sp, i, st);
    hide Lower, Matches, LowerChain, Attached, IsShape, Usable, Enters;
    var more := LowerChain(ip, tiles, chain[1..], sp, n, first.env);
    var d := HeadPlaced(ip, chain[0].lower, sp[i..n], st, more.ops.value);
    var rest := ChainEnters(ip, tiles, chain[1..], sp, n, first.env);
    EntersCons(st, first.env, more.env, d, rest);
    assert devs == [d] + rest && devs[1..] == rest;
  }

  /**
   In a lowered chain every VXLAN device, and the address its own layer asks for, is placed on the
   device of the tile just before it, or on what the chain started from; so is every VLAN device.
   */
  lemma {:induction false} UnderlaysChain(ip: NetIP, tiles: seq<Tile>, chain: seq<Tile>, sp: seq<Layer>, i: nat,
                                          st: EnvState, devs: seq<string>, k: nat)
    requires AllUsable(tiles) && AllShapes(tiles) && Chain(tiles, sp, i, chain) && k < |chain|
    requires LowerChain(ip, tiles, chain, sp, i, st).ops.Ok?
    requires Enters(st, LowerChain(ip, tiles, chain, sp, i, st).env, devs)
    ensures End(i, chain) <= |sp| && |devs| == |chain|
    ensures Attached(ip, chain[k].lower, PartAt(sp, i, chain, k), LowerChain(ip, tiles, chain, sp, i, st).ops.value,
                     devs[k], if k == 0 then st.dev else devs[k - 1])
    decreases chain
  {
    hide Matches, LowerChain, Attached, Enters;
    ChainFits(tiles, sp, i, chain);
    var first := ChainApart(ip, tiles, chain, sp, i, st, devs);
    if k > 0 {
      var n := Next(i, chain[0]);
      var more := LowerChain(ip, tiles, chain[1..], sp, n, first.env);
      UnderlaysChain(ip, tiles, chain[1..], sp, n, first.env, devs[1..], k - 1);
      LaterPlaced(ip, chain[1..][k - 1].lower, PartAt(sp, n, chain[1..], k - 1), first.ops.value, more.ops.value,
                  devs[1..][k - 1], if k == 1 then first.env.dev else devs[1..][k - 2]);
    }
  }

  lemma Cancel(before: seq<string>, d: string, rest: seq<string>, devs: seq<string>)
    requires before + [d] + rest == before + devs
    ensures devs == [d] + rest
  {
    assert devs == (before + devs)[|before|..];
    assert [d] + rest == (before + [d] + rest)[|before|..];
  }

  // ---------------------------------------------------------------- whole files

  /** More names taken, the same physical device. */
  predicate Bigger(st: EnvState, st': EnvState) {
    st.used <= st'.used && st'.root == st.root
  }

  lemma IPIPGrows(ip: NetIP, sub: seq<Layer>, st: EnvState)
    requires |sub| >= 2
    ensures Bigger(st, IPIPOps(ip, sub, st).env)
  {
    AllocKeepsRest(st, "ipip");
  }

  lemma GREGrows(ip: NetIP, sub: seq<Layer>, st: EnvState)
    requires |sub| >= 3
    ensures Bigger(st, GREOps(ip, sub, st).env)
  {
    AllocKeepsRest(st, "gre");
  }

  lemma GRETAPGrows(ip: NetIP, sub: seq<Layer>, st: EnvState)
    requires |sub| >= 3
    ensures Bigger(st, GRETAPOps(ip, sub, st).env)
  {
    AllocKeepsRest(st, "gretap");
  }

  lemma VXLANGrows(ip: NetIP, sub: seq<Layer>, st: EnvState)
    requires |sub| >= 3
    ensures Bigger(st, VXLANOps(ip, sub, st).env)
  {
    AllocKeepsRest(st, "vxlan");
  }

  lemma VLANGrows(sub: seq<Layer>, st: EnvState)
    requires |sub| >= 2
    ensures Bigger(st, VLANOps(sub, st).env)
  {
  }

  lemma WireGuardGrows(ip: NetIP, sub: seq<Layer>, st: EnvState)
    requires |sub| >= 4
    ensures Bigger(st, WireGuardOps(ip, sub, st).env)
  {
    AllocKeepsRest(st, "wg");
  }

  /** Even a lowering that fails only ever takes more names. */
  lemma LowerGrows(ip: NetIP, l: Lowering, sub: seq<Layer>, st: EnvState)
    requires IsShape(l) && |sub| >= Arity(l)
    ensures Bigger(st, Lower(ip, l, sub, st).env)
  {
    hide IPIPOps, GREOps, GRETAPOps, VXLANOps, VLANOps, WireGuardOps;
    match l
    case IPIP => IPIPGrows(ip, sub, st);
    case GRE => GREGrows(ip, sub, st);
    case GRETAP => GRETAPGrows(ip, sub, st);
    case VXLAN => VXLANGrows(ip, sub, st);
    case VLAN => VLANGrows(sub, st);
    case WireGuard => WireGuardGrows(ip, sub, st);
  }

  lemma {:induction false} ChainGrows(ip: NetIP, tiles: seq<Tile>, chain: seq<Tile>, sp: seq<Layer>, i: nat,
                                      st: EnvState)
    requires AllUsable(tiles) && AllShapes(tiles) && Chain(tiles, sp, i, chain)
    ensures var low := LowerChain(ip, tiles, chain, sp, i, st); Bigger(st, low.env)
    decreases chain
  {
    hide Lower;
    if chain != [] {
      var n := Next(i, chain[0]);
      assert Usable(chain[0]);
      LowerGrows(ip, chain[0].lower, sp[i..n], st);
      var first := Lower(ip, chain[0].lower, sp[i..n], st);
      if first.ops.Ok? { ChainGrows(ip, tiles, chain[1..], sp, n, first.env); }
    }
  }

  lemma CoverGrows(ip: NetIP, tiles: seq<Tile>, sp: seq<Layer>, st: EnvState)
    requires AllUsable(tiles) && AllShapes(tiles) && sp != []
    ensures Bigger(st, Cover(ip, tiles, sp, st).1)
  {
    hide LowerChain, Greedy;
    GreedyIsChain(tiles, sp, 0);
    ChainGrows(ip, tiles, Greedy(tiles, sp, 0), sp, 0, st);
  }

  predicate NoneEmpty(rules: seq<seq<Layer>>) {
    forall k :: 0 <= k < |rules| ==> rules[k] != []
  }

  /** The scripts of several rules lowered against one environment, each starting from the physical device. */
  ghost function RulesOps(ip: NetIP, tiles: seq<Tile>, rules: seq<seq<Layer>>, st: EnvState): (seq<Op>, EnvState)
    requires AllUsable(tiles) && NoneEmpty(rules)
    decreases rules
  {
    if rules == [] then ([], st)
    else
      var (c, st1) := Cover(ip, tiles, rules[0], Rewound(st));
      var (more, st2) := RulesOps(ip, tiles, rules[1..], st1);
      ((if c.Ok? then c.value.ops else []) + more, st2)
  }

  /** What the machine and the shared environment agree on between rules. */
  ghost predicate Between(m: Machine, st: EnvState) {
    m.links.Keys <= st.used && st.root in m.links && st.root in m.up
  }

  lemma {:induction false} OneMoreRule(ip: NetIP, tiles: seq<Tile>, sp: seq<Layer>, st: EnvState, m: Machine)
    returns (m': Machine)
    requires AllUsable(tiles) && AllShapes(tiles) && sp != [] && Between(m, st)
    ensures var (c, st') := Cover(ip, tiles, sp, Rewound(st));
            && Between(m', st') && m.links.Keys <= m'.links.Keys
            && Run(if c.Ok? then c.value.ops else [], m) == Some(m')
            && (c.Ok? ==> Stacked(Added(c.value.ops), st.root))
  {
    hide Cover;
    CoverGrows(ip, tiles, sp, Rewound(st));
    if Cover(ip, tiles, sp, Rewound(st)).0.Ok? {
      var added;
      m', added := RuleRuns(ip, tiles, sp, Rewound(st), m);
    } else {
      m' := m;
    }
  }

  /**
   Script safety over whole runs: whatever rules are covered one after the other against one
   environment, and whichever of them are refused, the concatenated script runs to the end.
   */
  lemma {:induction false} RulesRun(ip: NetIP, tiles: seq<Tile>, rules: seq<seq<Layer>>, st: EnvState, m: Machine)
    returns (m': Machine)
    requires AllUsable(tiles) && AllShapes(tiles) && NoneEmpty(rules)
    requires Between(m, st)
    ensures Run(RulesOps(ip, tiles, rules, st).0, m) == Some(m') && Between(m', RulesOps(ip, tiles, rules, st).1)
    decreases rules
  {
    hide Cover;
    if rules == [] {
      m' := m;
    } else {
      var (c, st1) := Cover(ip, tiles, rules[0], Rewound(st));
      var m1 := OneMoreRule(ip, tiles, rules[0], st, m);
      m' := RulesRun(ip, tiles, rules[1..], st1, m1);
      RunAppend(if c.Ok? then c.value.ops else [], RulesOps(ip, tiles, rules[1..], st1).0, m);
    }
  }

  /** A machine with nothing but its physical device, which is up. */
  function Bare(root: string): Machine {
    Machine(map[root := None], {root}, {})
  }

  /** The commands of any file lowered with the shipped tiles run to the end on a machine that has only the underlay. */
  lemma {:induction false} ShippedRulesExecute(ip: NetIP, rules: seq<seq<Layer>>, root: string, keyDir: string)
    requires NoneEmpty(rules)
    ensures AllUsable(Shipped())
    ensures Execute(EmitAll(RulesOps(ip, Shipped(), rules, Fresh(root).(keyDir := keyDir)).0), Bare(root)).Some?
  {
    ShippedPrefixFree();
    ShippedShapes();
    var st := Fresh(root).(keyDir := keyDir);
    var m' := RulesRun(ip, Shipped(), rules, st, Bare(root));
    ExecuteIsRun(RulesOps(ip, Shipped(), rules, st).0, Bare(root));
  }

  lemma ShippedShapes()
    ensures AllShapes(Shipped())
  {
  }

  /** The scripts of a file: each rule covered on the environment the one before left, up to the first refusal. */
  ghost function FileScripts(ip: NetIP, roots: seq<Tree>, st: EnvState): (seq<seq<Argv>>, Option<Error>)
    decreases roots
  {
    if roots == [] then ([], None)
    else
      match FormSpine(roots[0])
      case Err(e) => ([], Some(e))
      case Ok(sp) =>
        ShippedUsable();
        var (c, st1) := Cover(ip, Shipped(), sp, Rewound(st));
        match c
        case Err(e) => ([], Some(e))
        case Ok(c) =>
          var (more, failure) := FileScripts(ip, roots[1..], st1);
          ([EmitAll(c.ops)] + more, failure)
  }

  /** A rule lowered from the physical device, on the names that are left. */
  ghost predicate RuleGives(ip: NetIP, root: Tree, st: EnvState, script: seq<Argv>, st': EnvState)
    requires AllUsable(Shipped())
  {
    && FormSpine(root).Ok?
    && var (c, after) := Cover(ip, Shipped(), FormSpine(root).value, st.(dev := st.root));
       c.Ok? && script == EmitAll(c.value.ops) && st' == after
  }

  /** A rule that has no spine, or whose spine is not covered. */
  ghost predicate RuleFails(ip: NetIP, root: Tree, st: EnvState, e: Error)
    requires AllUsable(Shipped())
  {
    match FormSpine(root)
    case Err(e') => e == e'
    case Ok(sp) => Cover(ip, Shipped(), sp, st.(dev := st.root)).0 == Err(e)
  }

  /** Rule after rule, each from the physical device on the names the ones before left, up to the first that fails. */
  ghost predicate FileGives(ip: NetIP, roots: seq<Tree>, envs: seq<EnvState>, scripts: seq<seq<Argv>>,
                            failure: Option<Error>)
    requires AllUsable(Shipped())
  {
    && |envs| == |scripts| + 1 && |scripts| <= |roots|
    && (forall k :: 0 <= k < |scripts| ==> RuleGives(ip, roots[k], envs[k], scripts[k], envs[k + 1]))
    && match failure
       case None => |scripts| == |roots|
       case Some(e) => |scripts| < |roots| && RuleFails(ip, roots[|scripts|], envs[|scripts|], e)
  }

  /** The scripts of a file are those of its rules before the first that fails, and that one's error is reported. */
  lemma {:induction false} FileExactly(ip: NetIP, roots: seq<Tree>, st: EnvState) returns (envs: seq<EnvState>)
    ensures AllUsable(Shipped()) && envs != [] && envs[0] == st
    ensures FileGives(ip, roots, envs, FileScripts(ip, roots, st).0, FileScripts(ip, roots, st).1)
    decreases roots
  {
    hide Cover, FormSpine, Shipped;
    ShippedUsable();
    envs := [st];
    if roots != [] && FormSpine(roots[0]).Ok? {
      assert Rewound(st) == st.(dev := st.root);
      var (c, st1) := Cover(ip, Shipped(), FormSpine(roots[0]).value, Rewound(st));
      if c.Ok? {
        var more := FileExactly(ip, roots[1..], st1);
        envs := [st] + more;
        var (scripts, failure) := FileScripts(ip, roots[1..], st1);
        FileCons(ip, roots, st, more, EmitAll(c.value.ops), scripts, failure);
      }
    }
  }

  lemma FileCons(ip: NetIP, roots: seq<Tree>, st: EnvState, envs: seq<EnvState>, script: seq<Argv>,
                 scripts: seq<seq<Argv>>, failure: Option<Error>)
    requires roots != [] && envs != [] && AllUsable(Shipped()) && RuleGives(ip, roots[0], st, script, envs[0])
    requires FileGives(ip, roots[1..], envs, scripts, failure)
    ensures FileGives(ip, roots, [st] + envs, [script] + scripts, failure)
  {
    hide RuleGives, RuleFails, Shipped;
    var all, after := [script] + scripts, [st] + envs;
    forall k | 0 <= k < |all| ensures RuleGives(ip, roots[k], after[k], all[k], after[k + 1]) {
      if k > 0 { assert roots[1..][k - 1] == roots[k] && all[k] == scripts[k - 1]; }
    }
  }

  /** Scripts already made in front of those still to come. */
  ghost predicate Leads(ip: NetIP, roots: seq<Tree>, st: EnvState, done: seq<seq<Argv>>,
                        whole: (seq<seq<Argv>>, Option<Error>)) {
    whole == (done + FileScripts(ip, roots, st).0, FileScripts(ip, roots, st).1)
  }

  lemma LeadsOn(ip: NetIP, roots: seq<Tree>, st: EnvState, done: seq<seq<Argv>>, whole: (seq<seq<Argv>>, Option<Error>))
    requires Leads(ip, roots, st, done, whole)
    ensures roots == [] ==> whole == (done, None)
    ensures roots != [] && FormSpine(roots[0]).Err? ==> whole == (done, Some(FormSpine(roots[0]).error))
    ensures AllUsable(Shipped())
    ensures roots != [] && FormSpine(roots[0]).Ok? ==>
              var (c, st1) := Cover(ip, Shipped(), FormSpine(roots[0]).value, Rewound(st));
              if c.Err? then whole == (done, Some(c.error))
              else Leads(ip, roots[1..], st1, done + [EmitAll(c.value.ops)], whole)
  {
    hide Cover, FormSpine, EmitAll, Shipped;
    ShippedUsable();
    assert done + [] == done;
    if roots != [] && FormSpine(roots[0]).Ok? {
      var (c, st1) := Cover(ip, Shipped(), FormSpine(roots[0]).value, Rewound(st));
      if c.Ok? {
        var more := FileScripts(ip, roots[1..], st1).0;
        assert done + ([EmitAll(c.value.ops)] + more) == (done + [EmitAll(c.value.ops)]) + more;
      }
    }
  }

  /** Every rule of a file on one environment, stopping at the first that is refused; what was emitted by then runs. */
  method LowerFile(ip: NetIP, roots: seq<Tree>, underlay: string, keyDir: string)
    returns (scripts: seq<seq<Argv>>, failure: Option<Error>)
    ensures (scripts, failure) == FileScripts(ip, roots, Fresh(underlay).(keyDir := keyDir))
    ensures Execute(Flatten(scripts), Bare(underlay)).Some?
    ensures failure == None <==> |scripts| == |roots|
  {
    hide Cover, Run, Execute, Leads, FormSpine, Shipped, FileScripts;
    scripts, failure := [], None;
    var e := new Env(underlay);
    e.keyDir := keyDir;
    ghost var whole := FileScripts(ip, roots, e.State());
    ghost var m := Bare(underlay);
    ghost var ops: seq<Op> := [];
    ShippedPrefixFree();
    ShippedShapes();
    assert Run(ops, Bare(underlay)) == Some(m) by { RunNothing(Bare(underlay)); }
    LeadsAtFirst(ip, roots, e.State());
    for i := 0 to |roots|
      invariant failure == None && |scripts| == i && Flatten(scripts) == EmitAll(ops)
      invariant Run(ops, Bare(underlay)) == Some(m) && Between(m, e.State())
      invariant Leads(ip, roots[i..], e.State(), scripts, whole)
    {
      ExecuteIsRun(ops, Bare(underlay));
      LeadsOn(ip, roots[i..], e.State(), scripts, whole);
      assert roots[i..][0] == roots[i] && roots[i..][1..] == roots[i + 1..];
      e.Reset();
      var sp := FromForm(roots[i]);
      if sp.Err? {
        return scripts, Some(sp.error);
      }
      ghost var st := e.State();
      assert Rewound(st) == st;
      ghost var m' := OneMoreRule(ip, Shipped(), sp.value, st, m);
      var c := CoverSpine(ip, Shipped(), sp.value, e);
      if c.Err? {
        return scripts, Some(c.error);
      }
      ghost var more := Cover(ip, Shipped(), sp.value, st).0.value.ops;
      RunAppend(ops, more, Bare(underlay));
      EmitAllAppend(ops, more);
      FlattenSnoc(scripts, c.value.script);
      scripts := scripts + [c.value.script];
      ops, m := ops + more, m';
    }
    ExecuteIsRun(ops, Bare(underlay));
    LeadsOn(ip, roots[|roots|..], e.State(), scripts, whole);
  }

  lemma LeadsAtFirst(ip: NetIP, roots: seq<Tree>, st: EnvState)
    ensures Leads(ip, roots[0..], st, [], FileScripts(ip, roots, st))
  {
    assert roots[0..] == roots;
    assert [] + FileScripts(ip, roots, st).0 == FileScripts(ip, roots, st).0;
  }

  lemma RunNothing(m: Machine)
    ensures Run([], m) == Some(m)
  {
  }

  lemma {:induction false} FlattenSnoc<T>(parts: seq<seq<T>>, last: seq<T>)
    ensures Flatten(parts + [last]) == Flatten(parts) + last
  {
    if parts == [] {
      assert parts + [last] == [last];
      assert [last][1..] == [];
    } else {
      assert (parts + [last])[1..] == parts[1..] + [last];
      FlattenSnoc(parts[1..], last);
    }
  }
}
