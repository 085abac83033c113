/** The six shapes, lowered to operations: what each means, and the code that emits its commands. */
module Linux {
  import opened Basics
  import opened Decimal
  import opened Sexp
  import opened Ast
  import opened Netip
  import opened Props
  import opened Env
  import opened Machine

  /** What a lowering gives: operations or a refusal, and in both cases the environment it leaves. */
  datatype Lowered = Lowered(ops: Result<seq<Op>>, env: EnvState)

  /** The commands emitted are those of the operations, or the refusal is the same. */
  predicate Emitted(r: Result<seq<Argv>>, ops: Result<seq<Op>>) {
    match ops
    case Err(e) => r == Err(e)
    case Ok(ops) => r == Ok(EmitAll(ops))
  }

  /** An error about a name, reported at the layer that wanted it. */
  function Placed(r: Result<string>, pos: Pos): Result<string> {
    match r case Ok(_) => r case Err(e) => Err(At(pos, e.reason))
  }

  // ---------------------------------------------------------------- endpoints

  /** One end of a tunnel as the tree describes it. */
  datatype Endpoint = Endpoint(addr: string, prefix: string, dynamic: bool, absent: bool, pos: Pos)

  function ReadEndpoint(ip: NetIP, n: Layer, key: string): Result<Endpoint> {
    match Lookup(n.props, key)
    case None => Ok(Endpoint("", "", false, true, n.pos))
    case Some(p) =>
      if p.val.Is(Star) then Ok(Endpoint("", "", true, false, p.val.pos))
      else if '/' in p.val.Spelling() then
        match ParsePrefix(ip, p.val)
        case Err(e) => Err(At(p.val.pos, e.reason))
        case Ok(pfx) => Ok(Endpoint(pfx.addr.text, pfx.text, false, false, p.val.pos))
      else
        match ParseAddr(ip, p.val)
        case Err(e) => Err(At(p.val.pos, e.reason))
        case Ok(a) => Ok(Endpoint(a.text, "", false, false, p.val.pos))
  }

  predicate IsMulticast(ip: NetIP, e: Endpoint) {
    e.addr != "" && ip.parseAddr(e.addr).Some? && ip.parseAddr(e.addr).value.multicast
  }

  /** The address a layer needs on the device below, if the tree gave one. */
  function UnderlayOps(e: Endpoint, dev: string): seq<Op> {
    if e.prefix == "" then [] else [AddrAdd(e.prefix, dev)]
  }

  /** Both ends of a point-to-point tunnel; neither may vary. */
  function Endpoints(ip: NetIP, outer: Layer): Result<(string, string)> {
    var src :- Src(ip, outer);
    var l :- src.Require();
    var dst :- Dst(ip, outer);
    if dst.Dynamic? then Err(At(dst.pos, NoLowering))
    else
      var r :- dst.Require();
      Ok((l.text, r.text))
  }

  function AddrOps(ip: NetIP, n: Layer, dev: string): Result<seq<Op>> {
    var addr :- AddressOf(ip, n);
    Ok(if addr == "" then [] else [AddrAdd(addr, dev)])
  }

  // ---------------------------------------------------------------- what each shape means

  function IPIPOps(ip: NetIP, sp: seq<Layer>, st: EnvState): Lowered
    requires |sp| >= 2
  {
    match Endpoints(ip, sp[0])
    case Err(e) => Lowered(Err(e), st)
    case Ok((l, r)) =>
      var (dev, st1) := Allocated(st, "ipip");
      match dev
      case Err(e) => Lowered(Err(e), st1)
      case Ok(d) =>
        match AddrOps(ip, sp[1], d)
        case Err(e) => Lowered(Err(e), Entered(st1, d))
        case Ok(addr) => Lowered(Ok([LinkAdd(d, Ipip(l, r))] + addr), Entered(st1, d))
  }

  function GREOps(ip: NetIP, sp: seq<Layer>, st: EnvState): Lowered
    requires |sp| >= 3
  {
    match Endpoints(ip, sp[0])
    case Err(e) => Lowered(Err(e), st)
    case Ok((l, r)) =>
      var (dev, st1) := Allocated(st, "gre");
      match dev
      case Err(e) => Lowered(Err(e), st1)
      case Ok(d) =>
        match TunnelKey(sp[1])
        case Err(e) => Lowered(Err(e), st1)
        case Ok(key) =>
          match AddrOps(ip, sp[2], d)
          case Err(e) => Lowered(Err(e), Entered(st1, d))
          case Ok(addr) => Lowered(Ok([LinkAdd(d, Gre(l, r, key.Get()))] + addr), Entered(st1, d))
  }

  function GRETAPOps(ip: NetIP, sp: seq<Layer>, st: EnvState): Lowered
    requires |sp| >= 3
  {
    match Endpoints(ip, sp[0])
    case Err(e) => Lowered(Err(e), st)
    case Ok((l, r)) =>
      var (dev, st1) := Allocated(st, "gretap");
      match dev
      case Err(e) => Lowered(Err(e), st1)
      case Ok(d) =>
        match TunnelKey(sp[1])
        case Err(e) => Lowered(Err(e), st1)
        case Ok(key) => Lowered(Ok([LinkAdd(d, Gretap(l, r, key.Get()))]), Entered(st1, d))
  }

  /** What a VXLAN stack says, once every field it needs has been read. */
  datatype VxlanFields = VxlanFields(vni: Option<nat>, port: nat, local: Endpoint, remote: Endpoint)

  function ReadVXLANFields(ip: NetIP, sp: seq<Layer>): Result<VxlanFields>
    requires |sp| >= 3
  {
    var outer, transport, tunnel := sp[0], sp[1], sp[2];
    var vni :- VNI(tunnel);
    if vni.Absent? then Err(At(tunnel.pos, MissingProperty))
    else
      var port :- DstPort(transport);
      if port.Dynamic? then Err(At(port.pos, NoLowering))
      else if port.Absent? then Err(At(transport.pos, MissingProperty))
      else
        var local :- ReadEndpoint(ip, outer, "src");
        if local.absent then Err(At(outer.pos, MissingProperty))
        else
          var remote :- ReadEndpoint(ip, outer, "dst");
          if remote.absent then Err(At(outer.pos, MissingProperty))
          else Ok(VxlanFields(vni.Get(), port.value, local, remote))
  }

  function VxlanDest(ip: NetIP, remote: Endpoint): Dest {
    if remote.dynamic then Learned
    else if IsMulticast(ip, remote) then Group(remote.addr)
    else Remote(remote.addr)
  }

  function VxlanLink(ip: NetIP, f: VxlanFields, under: string): Link {
    Vxlan(f.vni, if f.local.dynamic then None else Some(f.local.addr), VxlanDest(ip, f.remote), f.port, under)
  }

  /** A device serving one VNI is named after it; one serving every VNI gets the next free name. */
  function VxlanName(vni: Option<nat>, st: EnvState): (Result<string>, EnvState) {
    match vni
    case Some(n) => Claimed(st, Numbered("vxlan", n))
    case None => Allocated(st, "vxlan")
  }

  function VXLANOps(ip: NetIP, sp: seq<Layer>, st: EnvState): Lowered
    requires |sp| >= 3
  {
    match ReadVXLANFields(ip, sp)
    case Err(e) => Lowered(Err(e), st)
    case Ok(f) =>
      var (dev, st1) := VxlanName(f.vni, st);
      match Placed(dev, sp[2].pos)
      case Err(e) => Lowered(Err(e), st1)
      case Ok(d) => Lowered(Ok(UnderlayOps(f.local, st.dev) + [LinkAdd(d, VxlanLink(ip, f, st.dev))]), Entered(st1, d))
  }

  function VLANOps(sp: seq<Layer>, st: EnvState): Lowered
    requires |sp| >= 2
  {
    match VLANID(sp[1])
    case Err(e) => Lowered(Err(e), st)
    case Ok(id) =>
      if id.Dynamic? then Lowered(Err(At(id.pos, NoLowering)), st)
      else
        match id.Require()
        case Err(e) => Lowered(Err(e), st)
        case Ok(n) =>
          var (dev, st1) := Claimed(st, st.dev + "." + Dec(n));
          match Placed(dev, sp[1].pos)
          case Err(e) => Lowered(Err(e), st1)
          case Ok(d) => Lowered(Ok([LinkAdd(d, Vlan(st.dev, n))]), Entered(st1, d))
  }

  /** What a WireGuard stack says, once every field it needs has been read. */
  datatype WgFields = WgFields(peer: string, port: nat, endpoint: Endpoint, remotePort: nat, overlay: Prefix)

  function ReadWgFields(ip: NetIP, sp: seq<Layer>): Result<WgFields>
    requires |sp| >= 4
  {
    var outer, transport, tunnel, inner := sp[0], sp[1], sp[2], sp[3];
    var peer :- PeerName(tunnel);
    if !peer.Concrete? then Err(At(tunnel.pos, MissingProperty))
    else
      var listen :- SrcPort(transport);
      if !listen.Concrete? then Err(At(transport.pos, MissingProperty))
      else
        var endpoint :- ReadEndpoint(ip, outer, "dst");
        var epPort :- DstPort(transport);
        var pfx :- SrcPrefix(ip, inner);
        if !pfx.Concrete? then Err(At(inner.pos, MissingProperty))
        else
          Ok(WgFields(peer.value, listen.value, endpoint,
                      if epPort.Concrete? then epPort.value else listen.value, pfx.value))
  }

  function JoinHostPort(ip: NetIP, addr: string, port: nat): string {
    if ip.parseAddr(addr).Some? && ip.parseAddr(addr).value.bits == 128 then "[" + addr + "]:" + Dec(port)
    else addr + ":" + Dec(port)
  }

  function KeyFile(keyDir: string, dev: string): string {
    keyDir + "/" + dev + ".key"
  }

  /** The peer's key, looked up by the shell when the script runs. */
  function PeerKey(keyDir: string, peer: string): string {
    "$(cat " + keyDir + "/" + peer + ".pub)"
  }

  function WgEndpoint(ip: NetIP, f: WgFields): Option<string> {
    if f.endpoint.dynamic || f.endpoint.absent then None
    else Some(JoinHostPort(ip, f.endpoint.addr, f.remotePort))
  }

  function WgOps(ip: NetIP, f: WgFields, keyDir: string, dev: string): seq<Op> {
    [LinkAdd(dev, Wireguard),
     WgListen(dev, f.port, KeyFile(keyDir, dev)),
     WgPeer(dev, PeerKey(keyDir, f.peer), WgEndpoint(ip, f), f.overlay.masked)]
  }

  function WireGuardOps(ip: NetIP, sp: seq<Layer>, st: EnvState): Lowered
    requires |sp| >= 4
  {
    match ReadWgFields(ip, sp)
    case Err(e) => Lowered(Err(e), st)
    case Ok(f) =>
      var (dev, st1) := Allocated(st, "wg");
      match Placed(dev, sp[2].pos)
      case Err(e) => Lowered(Err(e), st1)
      case Ok(d) =>
        match AddrOps(ip, sp[3], d)
        case Err(e) => Lowered(Err(e), Entered(st1, d))
        case Ok(addr) =>
          Lowered(Ok(WgOps(ip, f, st.keyDir, d) + addr), Entered(st1, d))
  }

  // ---------------------------------------------------------------- the code that emits them

  method AddrOn(ip: NetIP, n: Layer, dev: string) returns (r: Result<seq<Argv>>)
    ensures Emitted(r, AddrOps(ip, n, dev))
  {
    var addr :- AddressOf(ip, n);
    if addr == "" {
      return Ok([]);
    }
    EmitCons(AddrAdd(addr, dev), []);
    return Ok([["ip", "addr", "add", addr, "dev", dev]]);
  }

  method LowerIPIP(ip: NetIP, sp: seq<Layer>, e: Env) returns (r: Result<seq<Argv>>)
    requires |sp| >= 2
    modifies e
    ensures Emitted(r, IPIPOps(ip, sp, old(e.State())).ops) && e.State() == IPIPOps(ip, sp, old(e.State())).env
  {
    var ends :- Endpoints(ip, sp[0]);
    var dev :- e.Alloc("ipip");
    var out := [["ip", "link", "add", "name", dev, "type", "ipip", "local", ends.0, "remote", ends.1]];
    e.Enter(dev);
    var addr :- AddrOn(ip, sp[1], dev);
    EmitTunnel(dev, ends.0, ends.1, None);
    EmitCons(LinkAdd(dev, Ipip(ends.0, ends.1)), AddrOps(ip, sp[1], dev).value);
    return Ok(out + addr);
  }

  method LowerGRE(ip: NetIP, sp: seq<Layer>, e: Env) returns (r: Result<seq<Argv>>)
    requires |sp| >= 3
    modifies e
    ensures Emitted(r, GREOps(ip, sp, old(e.State())).ops) && e.State() == GREOps(ip, sp, old(e.State())).env
  {
    var ends :- Endpoints(ip, sp[0]);
    var dev :- e.Alloc("gre");
    var argv := ["ip", "link", "add", "name", dev, "type", "gre", "local", ends.0, "remote", ends.1];
    ghost var base := argv;
    var key :- TunnelKey(sp[1]);
    if key.Concrete? {
      argv := argv + ["key", Dec(key.value)];
    }
    assert argv == base + KeyArgs(key.Get());
    EmitTunnel(dev, ends.0, ends.1, key.Get());
    e.Enter(dev);
    var addr :- AddrOn(ip, sp[2], dev);
    EmitCons(LinkAdd(dev, Gre(ends.0, ends.1, key.Get())), AddrOps(ip, sp[2], dev).value);
    return Ok([argv] + addr);
  }

  method LowerGRETAP(ip: NetIP, sp: seq<Layer>, e: Env) returns (r: Result<seq<Argv>>)
    requires |sp| >= 3
    modifies e
    ensures Emitted(r, GRETAPOps(ip, sp, old(e.State())).ops) && e.State() == GRETAPOps(ip, sp, old(e.State())).env
  {
    var ends :- Endpoints(ip, sp[0]);
    var dev :- e.Alloc("gretap");
    var argv := ["ip", "link", "add", "name", dev, "type", "gretap", "local", ends.0, "remote", ends.1];
    ghost var base := argv;
    var key :- TunnelKey(sp[1]);
    if key.Concrete? {
      argv := argv + ["key", Dec(key.value)];
    }
    assert argv == base + KeyArgs(key.Get());
    EmitTunnel(dev, ends.0, ends.1, key.Get());
    EmitCons(LinkAdd(dev, Gretap(ends.0, ends.1, key.Get())), []);
    e.Enter(dev);
    return Ok([argv]);
  }

  method LowerVXLAN(ip: NetIP, sp: seq<Layer>, e: Env) returns (r: Result<seq<Argv>>)
    requires |sp| >= 3
    modifies e
    ensures Emitted(r, VXLANOps(ip, sp, old(e.State())).ops) && e.State() == VXLANOps(ip, sp, old(e.State())).env
  {
    var outer, transport, tunnel := sp[0], sp[1], sp[2];
    var vni :- VNI(tunnel);
    if vni.Absent? {
      return Err(At(tunnel.pos, MissingProperty));
    }
    var port :- DstPort(transport);
    if port.Dynamic? {
      return Err(At(port.pos, NoLowering));
    }
    if port.Absent? {
      return Err(At(transport.pos, MissingProperty));
    }
    var local :- ReadEndpoint(ip, outer, "src");
    if local.absent {
      return Err(At(outer.pos, MissingProperty));
    }
    var remote :- ReadEndpoint(ip, outer, "dst");
    if remote.absent {
      return Err(At(outer.pos, MissingProperty));
    }
    ghost var f := VxlanFields(vni.Get(), port.value, local, remote);
    assert ReadVXLANFields(ip, sp) == Ok(f);

    var dev;
    if vni.Concrete? {
      dev := e.Claim("vxlan" + Dec(vni.value));
    } else {
      dev := e.Alloc("vxlan");
      AllocKeepsRest(old(e.State()), "vxlan");
    }
    assert e.dev == old(e.dev);
    if dev.Err? {
      return Err(At(tunnel.pos, dev.error.reason));
    }

    // A prefix on this layer is an address for the device below, before anything stands on it.
    var out: seq<Argv> := [];
    if local.prefix != "" {
      out := [["ip", "addr", "add", local.prefix, "dev", e.dev]];
    }
    EmitCons(AddrAdd(local.prefix, e.dev), []);
    assert out == EmitAll(UnderlayOps(local, e.dev));

    ghost var op := LinkAdd(dev.value, VxlanLink(ip, f, e.dev));
    EmitAllAppend(UnderlayOps(local, e.dev), [op]);
    EmitCons(op, []);
    var argv := VXLANCommand(ip, VxlanFields(vni.Get(), port.value, local, remote), dev.value, e.dev);
    e.Enter(dev.value);
    return Ok(out + [argv]);
  }

  /** The creating command: each field that is concrete adds its parameter. */
  method VXLANCommand(ip: NetIP, f: VxlanFields, dev: string, under: string) returns (argv: Argv)
    ensures argv == Emit(LinkAdd(dev, VxlanLink(ip, f, under)))
  {
    ghost var link := VxlanLink(ip, f, under);
    argv := ["ip", "link", "add", "name", dev, "type", "vxlan"];
    ghost var head := argv;
    if f.vni.Some? {
      argv := argv + ["id", Dec(f.vni.value)];
    } else {
      argv := argv + ["external"];
    }
    assert argv == head + VxlanIdArgs(link.id);
    head := argv;
    if !f.local.dynamic {
      argv := argv + ["local", f.local.addr];
    }
    assert argv == head + SourceArgs(link.source);
    head := argv;
    if !f.remote.dynamic {
      // A multicast destination is not a peer but the group every peer joins.
      if IsMulticast(ip, f.remote) {
        argv := argv + ["group", f.remote.addr];
      } else {
        argv := argv + ["remote", f.remote.addr];
      }
    }
    assert argv == head + DestArgs(link.dest);
    argv := argv + ["dstport", Dec(f.port), "dev", under];
    EmitVxlan(dev, link);
  }

  method LowerVLAN(sp: seq<Layer>, e: Env) returns (r: Result<seq<Argv>>)
    requires |sp| >= 2
    modifies e
    ensures Emitted(r, VLANOps(sp, old(e.State())).ops) && e.State() == VLANOps(sp, old(e.State())).env
  {
    var id :- VLANID(sp[1]);
    if id.Dynamic? {
      return Err(At(id.pos, NoLowering));
    }
    var n :- id.Require();
    var dev := e.Claim(e.dev + "." + Dec(n));
    if dev.Err? {
      return Err(At(sp[1].pos, dev.error.reason));
    }
    var out := [["ip", "link", "add", "link", e.dev, "name", dev.value, "type", "vlan", "id", Dec(n)]];
    EmitVlan(dev.value, e.dev, n);
    EmitCons(LinkAdd(dev.value, Vlan(e.dev, n)), []);
    e.Enter(dev.value);
    return Ok(out);
  }

  method LowerWireGuard(ip: NetIP, sp: seq<Layer>, e: Env) returns (r: Result<seq<Argv>>)
    requires |sp| >= 4
    modifies e
    ensures Emitted(r, WireGuardOps(ip, sp, old(e.State())).ops)
        && e.State() == WireGuardOps(ip, sp, old(e.State())).env
  {
    var outer, transport, tunnel, inner := sp[0], sp[1], sp[2], sp[3];
    var peer :- PeerName(tunnel);
    if !peer.Concrete? {
      return Err(At(tunnel.pos, MissingProperty));
    }
    var listen :- SrcPort(transport);
    if !listen.Concrete? {
      return Err(At(transport.pos, MissingProperty));
    }
    var port := listen.value;
    var endpoint :- ReadEndpoint(ip, outer, "dst");
    var epPort :- DstPort(transport);
    var remotePort := port;
    if epPort.Concrete? {
      remotePort := epPort.value;
    }
    var pfx :- SrcPrefix(ip, inner);
    if !pfx.Concrete? {
      return Err(At(inner.pos, MissingProperty));
    }
    ghost var f := WgFields(peer.value, port, endpoint, remotePort, pfx.value);
    assert ReadWgFields(ip, sp) == Ok(f);

    var dev := e.Alloc("wg");
    if dev.Err? {
      return Err(At(tunnel.pos, dev.error.reason));
    }
    var d := dev.value;
    AllocKeepsRest(old(e.State()), "wg");
    var out := WireGuardCommands(ip, WgFields(peer.value, port, endpoint, remotePort, pfx.value), e.keyDir, d);
    e.Enter(d);
    ghost var ops := WgOps(ip, f, e.keyDir, d);
    var addr :- AddrOn(ip, inner, d);
    EmitAllAppend(ops, AddrOps(ip, inner, d).value);
    return Ok(out + addr);
  }

  /** Create the device, point it at its key, and tell it who its peer is. */
  method WireGuardCommands(ip: NetIP, f: WgFields, keyDir: string, dev: string) returns (out: seq<Argv>)
    ensures out == EmitAll(WgOps(ip, f, keyDir, dev))
  {
    out := [["ip", "link", "add", "name", dev, "type", "wireguard"],
            ["wg", "set", dev, "listen-port", Dec(f.port), "private-key", KeyFile(keyDir, dev)]];
    var argv := ["wg", "set", dev, "peer", PeerKey(keyDir, f.peer)];
    ghost var head := argv;
    if f.endpoint.dynamic || f.endpoint.absent {
      // A peer that cannot be addressed announces itself on its first handshake.
      argv := argv + ["allowed-ips", f.overlay.masked];
    } else {
      argv := argv + ["endpoint", JoinHostPort(ip, f.endpoint.addr, f.remotePort), "allowed-ips", f.overlay.masked];
    }
    assert argv == head + EndpointArgs(WgEndpoint(ip, f)) + ["allowed-ips", f.overlay.masked];
    out := out + [argv];
    WgCommands(dev, f.port, KeyFile(keyDir, dev), PeerKey(keyDir, f.peer), WgEndpoint(ip, f), f.overlay.masked);
  }

  lemma WgCommands(d: string, port: nat, keyFile: string, key: string, endpoint: Option<string>, allowed: string)
    ensures EmitAll([LinkAdd(d, Wireguard), WgListen(d, port, keyFile), WgPeer(d, key, endpoint, allowed)])
         == [["ip", "link", "add", "name", d, "type", "wireguard"],
             ["wg", "set", d, "listen-port", Dec(port), "private-key", keyFile],
             ["wg", "set", d, "peer", key] + EndpointArgs(endpoint) + ["allowed-ips", allowed]]
  {
    assert Emit(LinkAdd(d, Wireguard)) == ["ip", "link", "add", "name", d, "type", "wireguard"];
  }
}
