/** The devices each shape creates: one per tile, under the name the environment gave, with the link the fields say. */
module Devices {
  import opened Basics
  import opened Ast
  import opened Netip
  import opened Props
  import opened Env
  import opened Machine
  import opened Linux
  import opened Tile
  import opened Safety
  import opened Mirror

  /** The address an endpoint names: none when it varies. */
  function Named(e: Endpoint): Option<string> {
    if e.dynamic then None else Some(e.addr)
  }

  /** One device, and nothing else created. */
  lemma OneAdded(before: seq<Op>, d: string, link: Link, after: seq<Op>)
    requires Added(before) == [] && Added(after) == []
    ensures Added(before + ([LinkAdd(d, link)] + after)) == [(d, link)]
    ensures after == [] ==> Added(before + [LinkAdd(d, link)]) == [(d, link)]
    ensures before == [] && after == [] ==> Added([LinkAdd(d, link)]) == [(d, link)]
  {
    var tail := [LinkAdd(d, link)] + after;
    assert tail[0] == LinkAdd(d, link) && tail[1..] == after;
    AddedAppend(before, tail);
    assert after == [] ==> tail == [LinkAdd(d, link)];
    assert before == [] ==> before + tail == tail;
  }

  lemma AddrAddsNothing(ip: NetIP, n: Layer, dev: string)
    requires AddrOps(ip, n, dev).Ok?
    ensures Added(AddrOps(ip, n, dev).value) == []
  {
  }

  lemma UnderlayAddsNothing(e: Endpoint, dev: string)
    ensures Added(UnderlayOps(e, dev)) == []
  {
  }

  lemma IPIPAdds(ip: NetIP, sp: seq<Layer>, st: EnvState) returns (d: string, l: string, r: string)
    requires |sp| >= 2 && IPIPOps(ip, sp, st).ops.Ok?
    ensures Endpoints(ip, sp[0]) == Ok((l, r))
    ensures Allocated(st, "ipip").0 == Ok(d) && IPIPOps(ip, sp, st).env == Entered(Allocated(st, "ipip").1, d)
    ensures Added(IPIPOps(ip, sp, st).ops.value) == [(d, Ipip(l, r))]
  {
    hide Endpoints, Allocated, AddrOps;
    var ends := Endpoints(ip, sp[0]).value;
    l, r, d := ends.0, ends.1, Allocated(st, "ipip").0.value;
    AddrAddsNothing(ip, sp[1], d);
    OneAdded([], d, Ipip(l, r), AddrOps(ip, sp[1], d).value);
  }

  lemma GREAdds(ip: NetIP, sp: seq<Layer>, st: EnvState) returns (d: string, l: string, r: string, key: Option<nat>)
    requires |sp| >= 3 && GREOps(ip, sp, st).ops.Ok?
    ensures Endpoints(ip, sp[0]) == Ok((l, r)) && TunnelKey(sp[1]).Ok? && key == TunnelKey(sp[1]).value.Get()
    ensures Allocated(st, "gre").0 == Ok(d) && GREOps(ip, sp, st).env == Entered(Allocated(st, "gre").1, d)
    ensures Added(GREOps(ip, sp, st).ops.value) == [(d, Gre(l, r, key))]
  {
    hide Endpoints, Allocated, AddrOps, TunnelKey;
    var ends := Endpoints(ip, sp[0]).value;
    l, r := ends.0, ends.1;
    d, key := Allocated(st, "gre").0.value, TunnelKey(sp[1]).value.Get();
    AddrAddsNothing(ip, sp[2], d);
    OneAdded([], d, Gre(l, r, key), AddrOps(ip, sp[2], d).value);
  }

  lemma GRETAPAdds(ip: NetIP, sp: seq<Layer>, st: EnvState) returns (d: string, l: string, r: string, key: Option<nat>)
    requires |sp| >= 3 && GRETAPOps(ip, sp, st).ops.Ok?
    ensures Endpoints(ip, sp[0]) == Ok((l, r)) && TunnelKey(sp[1]).Ok? && key == TunnelKey(sp[1]).value.Get()
    ensures Allocated(st, "gretap").0 == Ok(d) && GRETAPOps(ip, sp, st).env == Entered(Allocated(st, "gretap").1, d)
    ensures Added(GRETAPOps(ip, sp, st).ops.value) == [(d, Gretap(l, r, key))]
  {
    hide Endpoints, Allocated, TunnelKey;
    var ends := Endpoints(ip, sp[0]).value;
    l, r := ends.0, ends.1;
    d, key := Allocated(st, "gretap").0.value, TunnelKey(sp[1]).value.Get();
    OneAdded([], d, Gretap(l, r, key), []);
  }

  /** Where the fields of a VXLAN device come from. */
  lemma FieldsAre(ip: NetIP, sp: seq<Layer>)
    requires |sp| >= 3 && ReadVXLANFields(ip, sp).Ok?
    ensures var f := ReadVXLANFields(ip, sp).value;
            && VNI(sp[2]).Ok? && f.vni == VNI(sp[2]).value.Get() && DstPort(sp[1]).Ok?
                && Some(f.port) == DstPort(sp[1]).value.Get()
            && ReadEndpoint(ip, sp[0], "src") == Ok(f.local) && ReadEndpoint(ip, sp[0], "dst") == Ok(f.remote)
            && TwoEnded(sp[0].props)
  {
    hide VNI, DstPort;
  }

  lemma VXLANAdds(ip: NetIP, sp: seq<Layer>, st: EnvState) returns (d: string, f: VxlanFields)
    requires |sp| >= 3 && VXLANOps(ip, sp, st).ops.Ok?
    ensures ReadVXLANFields(ip, sp) == Ok(f) && VxlanName(f.vni, st).0 == Ok(d)
    ensures VXLANOps(ip, sp, st).env == Entered(VxlanName(f.vni, st).1, d)
    ensures Added(VXLANOps(ip, sp, st).ops.value) == [(d, VxlanLink(ip, f, st.dev))]
  {
    hide ReadVXLANFields, VxlanName, VxlanLink, UnderlayOps;
    f := ReadVXLANFields(ip, sp).value;
    d := VxlanName(f.vni, st).0.value;
    UnderlayAddsNothing(f.local, st.dev);
    OneAdded(UnderlayOps(f.local, st.dev), d, VxlanLink(ip, f, st.dev), []);
  }

  lemma VLANAdds(sp: seq<Layer>, st: EnvState) returns (d: string)
    requires |sp| >= 2 && VLANOps(sp, st).ops.Ok?
    ensures VLANID(sp[1]).Ok? && VLANID(sp[1]).value.Concrete?
    ensures Added(VLANOps(sp, st).ops.value) == [(d, Vlan(st.dev, VLANID(sp[1]).value.value))]
  {
    hide VLANID, Claimed;
    d := VLANOps(sp, st).env.dev;
    OneAdded([], d, Vlan(st.dev, VLANID(sp[1]).value.value), []);
  }

  lemma WireGuardAdds(ip: NetIP, sp: seq<Layer>, st: EnvState) returns (d: string)
    requires |sp| >= 4 && WireGuardOps(ip, sp, st).ops.Ok?
    ensures Allocated(st, "wg").0 == Ok(d) && WireGuardOps(ip, sp, st).env == Entered(Allocated(st, "wg").1, d)
    ensures Added(WireGuardOps(ip, sp, st).ops.value) == [(d, Wireguard)]
  {
    hide ReadWgFields, AddrOps, Allocated;
    var f := ReadWgFields(ip, sp).value;
    d := Allocated(st, "wg").0.value;
    var addr := AddrOps(ip, sp[3], d).value;
    AddrAddsNothing(ip, sp[3], d);
    var ops := WgOps(ip, f, st.keyDir, d);
    assert ops == [] + ([LinkAdd(d, Wireguard)] + ops[1..]);
    assert ops[1..] == [ops[1]] + [ops[2]] && Added([ops[1]]) == [] && Added([ops[2]]) == [];
    AddedAppend([ops[1]], [ops[2]]);
    OneAdded([], d, Wireguard, ops[1..]);
    AddedAppend(ops, addr);
  }

  lemma TerminalAddsNothing(ip: NetIP, rest: seq<Layer>, dev: string)
    requires Terminal(ip, rest, dev).Ok?
    ensures Added(Terminal(ip, rest, dev).value.0) == []
  {
  }

  /** The devices of a cover are those its tiles made. */
  lemma CoverAdds(ip: NetIP, tiles: seq<Tile>, sp: seq<Layer>, st: EnvState)
    requires AllUsable(tiles) && sp != [] && Cover(ip, tiles, sp, st).0.Ok?
    ensures var low := LowerGreedy(ip, tiles, sp, 0, st);
            low.ops.Ok? && low.env == Cover(ip, tiles, sp, st).1
            && Added(Cover(ip, tiles, sp, st).0.value.ops) == Added(low.ops.value)
            && Cover(ip, tiles, sp, st).0.value.applied == TileNames(Greedy(tiles, sp, 0))
  {
    hide Added, Terminal, LowerGreedy, BringUp;
    var low := LowerGreedy(ip, tiles, sp, 0, st);
    var i := End(0, Greedy(tiles, sp, 0));
    GreedyIsChain(tiles, sp, 0);
    ChainFits(tiles, sp, 0, Greedy(tiles, sp, 0));
    var addr := Terminal(ip, sp[i..], low.env.dev).value.0;
    var devs := Since(low.env.created, |st.created|);
    TerminalAddsNothing(ip, sp[i..], low.env.dev);
    RaisedIs(devs);
    AddedAppend(low.ops.value, addr);
    AddedAppend(low.ops.value + addr, BringUp(devs));
  }
}
