/** What the emitted commands do: their decoded form, and a machine they run on. */
module Machine {
  import opened Basics
  import opened Decimal

  type Argv = seq<string>

  /** Where a VXLAN device sends: one peer, a group, or peers it learns. */
  datatype Dest = Remote(addr: string) | Group(addr: string) | Learned

  /** The link types the compiler creates, with their parameters. */
  datatype Link =
    | Ipip(local: string, remote: string)
    | Gre(local: string, remote: string, key: Option<nat>)
    | Gretap(local: string, remote: string, key: Option<nat>)
    | Vxlan(id: Option<nat>, source: Option<string>, dest: Dest, port: nat, under: string)
    | Vlan(under: string, tag: nat)
    | Wireguard

  datatype Op =
    | LinkAdd(dev: string, link: Link)
    | AddrAdd(addr: string, dev: string)
    | LinkUp(dev: string)
    | WgListen(dev: string, port: nat, keyFile: string)
    | WgPeer(dev: string, key: string, endpoint: Option<string>, allowed: string)

  // ---------------------------------------------------------------- as argument vectors

  function KeyArgs(key: Option<nat>): Argv {
    match key case None => [] case Some(k) => ["key", Dec(k)]
  }

  function VxlanIdArgs(id: Option<nat>): Argv {
    match id case None => ["external"] case Some(n) => ["id", Dec(n)]
  }

  function SourceArgs(source: Option<string>): Argv {
    match source case None => [] case Some(a) => ["local", a]
  }

  function DestArgs(dest: Dest): Argv {
    match dest
    case Remote(a) => ["remote", a]
    case Group(a) => ["group", a]
    case Learned => []
  }

  function EndpointArgs(endpoint: Option<string>): Argv {
    match endpoint case None => [] case Some(e) => ["endpoint", e]
  }

  function Kind(link: Link): string {
    match link
    case Ipip(_, _) => "ipip"
    case Gre(_, _, _) => "gre"
    case Gretap(_, _, _) => "gretap"
    case Vxlan(_, _, _, _, _) => "vxlan"
    case Vlan(_, _) => "vlan"
    case Wireguard => "wireguard"
  }

  /** The parameters after the type of a link. */
  function LinkArgs(link: Link): Argv {
    match link
    case Ipip(l, r) => ["local", l, "remote", r]
    case Gre(l, r, key) => ["local", l, "remote", r] + KeyArgs(key)
    case Gretap(l, r, key) => ["local", l, "remote", r] + KeyArgs(key)
    case Vxlan(id, source, dest, port, under) =>
      VxlanIdArgs(id) + (SourceArgs(source) + (DestArgs(dest) + ["dstport", Dec(port), "dev", under]))
    case Vlan(_, tag) => ["id", Dec(tag)]
    case Wireguard => []
  }

  /** The command that performs an operation. */
  function Emit(op: Op): Argv {
    match op
    case LinkAdd(dev, link) =>
      if link.Vlan? then ["ip", "link", "add", "link", link.under, "name", dev, "type", "vlan"] + LinkArgs(link)
      else ["ip", "link", "add", "name", dev, "type", Kind(link)] + LinkArgs(link)
    case AddrAdd(addr, dev) => ["ip", "addr", "add", addr, "dev", dev]
    case LinkUp(dev) => ["ip", "link", "set", dev, "up"]
    case WgListen(dev, port, keyFile) => ["wg", "set", dev, "listen-port", Dec(port), "private-key", keyFile]
    case WgPeer(dev, key, endpoint, allowed) =>
      ["wg", "set", dev, "peer", key] + EndpointArgs(endpoint) + ["allowed-ips", allowed]
  }

  function EmitAll(ops: seq<Op>): (r: seq<Argv>)
    ensures |r| == |ops| && forall k :: 0 <= k < |ops| ==> r[k] == Emit(ops[k])
  {
    if ops == [] then [] else [Emit(ops[0])] + EmitAll(ops[1..])
  }

  lemma {:induction false} EmitAllAppend(a: seq<Op>, b: seq<Op>)
    ensures EmitAll(a + b) == EmitAll(a) + EmitAll(b)
  {
  }

  lemma EmitCons(op: Op, ops: seq<Op>)
    ensures EmitAll([op] + ops) == [Emit(op)] + EmitAll(ops)
    ensures EmitAll([op]) == [Emit(op)]
  {
    assert ([op] + ops)[1..] == ops;
    assert [op][1..] == [];
  }

  /** The creating command of a tunnel, as its parameters are appended one after the other. */
  lemma EmitTunnel(dev: string, l: string, r: string, key: Option<nat>)
    ensures Emit(LinkAdd(dev, Ipip(l, r)))
         == ["ip", "link", "add", "name", dev, "type", "ipip", "local", l, "remote", r]
    ensures Emit(LinkAdd(dev, Gre(l, r, key)))
         == ["ip", "link", "add", "name", dev, "type", "gre", "local", l, "remote", r] + KeyArgs(key)
    ensures Emit(LinkAdd(dev, Gretap(l, r, key)))
         == ["ip", "link", "add", "name", dev, "type", "gretap", "local", l, "remote", r] + KeyArgs(key)
  {
  }

  lemma EmitVxlan(dev: string, link: Link)
    requires link.Vxlan?
    ensures Emit(LinkAdd(dev, link))
         == ["ip", "link", "add", "name", dev, "type", "vxlan"] + VxlanIdArgs(link.id) + SourceArgs(link.source)
            + DestArgs(link.dest) + ["dstport", Dec(link.port), "dev", link.under]
  {
    var a, b, c, d := ["ip", "link", "add", "name", dev, "type", "vxlan"], VxlanIdArgs(link.id),
        SourceArgs(link.source),
                      DestArgs(link.dest);
    Regroup(a, b, c, d, ["dstport", Dec(link.port), "dev", link.under]);
  }

  lemma Regroup(a: Argv, b: Argv, c: Argv, d: Argv, e: Argv)
    ensures a + (b + (c + (d + e))) == a + b + c + d + e
  {
  }

  lemma EmitAbout(addr: string, dev: string)
    ensures Emit(AddrAdd(addr, dev)) == ["ip", "addr", "add", addr, "dev", dev]
    ensures Emit(LinkUp(dev)) == ["ip", "link", "set", dev, "up"]
    ensures Emit(LinkAdd(dev, Wireguard)) == ["ip", "link", "add", "name", dev, "type", "wireguard"]
  {
  }

  lemma EmitVlan(dev: string, under: string, tag: nat)
    ensures Emit(LinkAdd(dev, Vlan(under, tag)))
         == ["ip", "link", "add", "link", under, "name", dev, "type", "vlan", "id", Dec(tag)]
  {
  }

  // ---------------------------------------------------------------- and back

  function ParseNat(s: string): Option<nat> {
    if IsNumeral(s, 10) then Some(Denotes(s, 10)) else None
  }

  /** A parameter introduced by a keyword, if that is what comes next, and what follows it. */
  function Param(argv: Argv, keyword: string): (Option<string>, Argv) {
    if |argv| >= 2 && argv[0] == keyword then (Some(argv[1]), argv[2..]) else (None, argv)
  }

  function ReadVxlan(argv: Argv): Option<Link> {
    var (id, rest) := Param(argv, "id");
    if id.Some? then
      if ParseNat(id.value) == None then None else ReadVxlanEnds(ParseNat(id.value), rest)
    else if argv == [] || argv[0] != "external" then None
    else ReadVxlanEnds(None, argv[1..])
  }

  function ReadVxlanEnds(id: Option<nat>, argv: Argv): Option<Link> {
    var (source, rest) := Param(argv, "local");
    var (remote, rest') := Param(rest, "remote");
    var (group, tail) := Param(rest, "group");
    if remote.Some? then ReadVxlanPort(id, source, Remote(remote.value), rest')
    else if group.Some? then ReadVxlanPort(id, source, Group(group.value), tail)
    else ReadVxlanPort(id, source, Learned, rest)
  }

  function ReadVxlanPort(id: Option<nat>, source: Option<string>, dest: Dest, argv: Argv): Option<Link> {
    if |argv| != 4 || argv[0] != "dstport" || argv[2] != "dev" || ParseNat(argv[1]) == None then None
    else Some(Vxlan(id, source, dest, ParseNat(argv[1]).value, argv[3]))
  }

  /** The parameters of a point-to-point tunnel: both ends, and perhaps a key. */
  function ReadTunnel(argv: Argv): Option<(string, string, Option<nat>)> {
    if |argv| < 4 || argv[0] != "local" || argv[2] != "remote" then None
    else
      var (key, rest) := Param(argv[4..], "key");
      if rest != [] || (key.Some? && ParseNat(key.value) == None) then None
      else Some((argv[1], argv[3], if key.Some? then ParseNat(key.value) else None))
  }

  function ReadLink(kind: string, argv: Argv): Option<Link> {
    if kind == "wireguard" then if argv == [] then Some(Wireguard) else None
    else if kind == "vxlan" then ReadVxlan(argv)
    else
      match ReadTunnel(argv)
      case None => None
      case Some((l, r, key)) =>
        if kind == "ipip" && key == None then Some(Ipip(l, r))
        else if kind == "gre" then Some(Gre(l, r, key))
        else if kind == "gretap" then Some(Gretap(l, r, key))
        else None
  }

  function ReadLinkAdd(argv: Argv): Option<Op> {
    if |argv| >= 7 && argv[3] == "name" && argv[5] == "type" then
      match ReadLink(argv[6], argv[7..])
      case None => None
      case Some(link) => Some(LinkAdd(argv[4], link))
    else if |argv| == 11 && argv[3] == "link" && argv[5] == "name" && argv[7..10] == ["type", "vlan", "id"] then
      match ParseNat(argv[10])
      case None => None
      case Some(tag) => Some(LinkAdd(argv[6], Vlan(argv[4], tag)))
    else None
  }

  function ReadWg(argv: Argv): Option<Op>
    requires |argv| >= 5
  {
    if argv[3] == "peer" then
      var (endpoint, rest) := Param(argv[5..], "endpoint");
      if |rest| == 2 && rest[0] == "allowed-ips" then Some(WgPeer(argv[2], argv[4], endpoint, rest[1])) else None
    else if |argv| == 7 && argv[3] == "listen-port" && argv[5] == "private-key" && ParseNat(argv[4]).Some? then
      Some(WgListen(argv[2], ParseNat(argv[4]).value, argv[6]))
    else None
  }

  /** The operation a command performs, when it is one the machine knows. */
  function Decode(argv: Argv): Option<Op> {
    if |argv| < 5 then None
    else if argv[0] == "wg" && argv[1] == "set" then ReadWg(argv)
    else if argv[0] != "ip" then None
    else if argv[1] == "addr" then
      if |argv| == 6 && argv[2] == "add" && argv[4] == "dev" then Some(AddrAdd(argv[3], argv[5])) else None
    else if argv[1] != "link" then None
    else if argv[2] == "add" then ReadLinkAdd(argv)
    else if |argv| == 5 && argv[2] == "set" && argv[4] == "up" then Some(LinkUp(argv[3]))
    else None
  }

  lemma ReadsNumber(n: nat)
    ensures ParseNat(Dec(n)) == Some(n)
  {
    DecDenotes(n);
  }

  lemma ParamHere(keyword: string, value: string, rest: Argv)
    ensures Param([keyword, value] + rest, keyword) == (Some(value), rest)
  {
    assert ([keyword, value] + rest)[2..] == rest;
  }

  lemma ParamMissing(argv: Argv, keyword: string)
    requires argv == [] || argv[0] != keyword
    ensures Param(argv, keyword) == (None, argv)
  {
  }

  lemma ReadsVxlanPort(id: Option<nat>, source: Option<string>, dest: Dest, port: nat, under: string)
    ensures ReadVxlanPort(id, source, dest, ["dstport", Dec(port), "dev", under])
         == Some(Vxlan(id, source, dest, port, under))
  {
    ReadsNumber(port);
  }

  lemma {:induction false} ReadsVxlanEnds(id: Option<nat>, source: Option<string>, dest: Dest, port: nat, under: string)
    ensures ReadVxlanEnds(id, SourceArgs(source) + (DestArgs(dest) + ["dstport", Dec(port), "dev", under]))
         == Some(Vxlan(id, source, dest, port, under))
  {
    var tail := ["dstport", Dec(port), "dev", under];
    var rest := DestArgs(dest) + tail;
    if source.Some? {
      ParamHere("local", source.value, rest);
    } else {
      assert SourceArgs(source) + rest == rest;
      assert rest[0] != "local" by { DestHead(dest, tail); }
      ParamMissing(rest, "local");
    }
    match dest {
      case Remote(a) => ParamHere("remote", a, tail);
      case Group(a) =>
        assert rest[0] == "group" != "remote";
        ParamMissing(rest, "remote");
        ParamHere("group", a, tail);
      case Learned =>
        assert rest == tail;
        ParamMissing(rest, "remote");
        ParamMissing(rest, "group");
    }
    ReadsVxlanPort(id, source, dest, port, under);
  }

  lemma DestHead(dest: Dest, tail: Argv)
    requires tail != [] && tail[0] == "dstport"
    ensures DestArgs(dest) + tail != [] && (DestArgs(dest) + tail)[0] in {"remote", "group", "dstport"}
    ensures (DestArgs(dest) + tail)[0] != "local"
  {
  }

  lemma {:induction false} ReadsVxlan(id: Option<nat>, source: Option<string>, dest: Dest, port: nat, under: string)
    ensures ReadVxlan(VxlanIdArgs(id) + (SourceArgs(source) + (DestArgs(dest) + ["dstport", Dec(port), "dev", under])))
         == Some(Vxlan(id, source, dest, port, under))
  {
    var rest := SourceArgs(source) + (DestArgs(dest) + ["dstport", Dec(port), "dev", under]);
    var argv := VxlanIdArgs(id) + rest;
    ReadsVxlanEnds(id, source, dest, port, under);
    if id.Some? {
      ParamHere("id", Dec(id.value), rest);
      ReadsNumber(id.value);
    } else {
      assert argv[0] == "external" && argv[1..] == rest;
      ParamMissing(argv, "id");
    }
  }

  lemma {:induction false} ReadsTunnel(l: string, r: string, key: Option<nat>)
    ensures ReadTunnel(["local", l, "remote", r] + KeyArgs(key)) == Some((l, r, key))
  {
    var argv := ["local", l, "remote", r] + KeyArgs(key);
    assert argv[4..] == KeyArgs(key);
    if key.Some? { ReadsNumber(key.value); }
  }

  lemma {:induction false} ReadsNamedLink(dev: string, kind: string, args: Argv)
    ensures ReadLinkAdd(["ip", "link", "add", "name", dev, "type", kind] + args)
         == match ReadLink(kind, args) case None => None case Some(link) => Some(LinkAdd(dev, link))
  {
    var argv := ["ip", "link", "add", "name", dev, "type", kind] + args;
    assert argv[7..] == args;
  }

  lemma {:induction false} ReadsLink(dev: string, link: Link)
    ensures ReadLinkAdd(Emit(LinkAdd(dev, link))) == Some(LinkAdd(dev, link))
  {
    var argv := Emit(LinkAdd(dev, link));
    if link.Vlan? {
      assert argv[7..10] == ["type", "vlan", "id"];
      ReadsNumber(link.tag);
    } else {
      ReadsNamedLink(dev, Kind(link), LinkArgs(link));
      ReadsLinkArgs(link);
    }
  }

  lemma {:induction false} ReadsLinkArgs(link: Link)
    requires !link.Vlan?
    ensures ReadLink(Kind(link), LinkArgs(link)) == Some(link)
  {
    match link
    case Ipip(l, r) =>
      ReadsTunnel(l, r, None);
      assert LinkArgs(link) == ["local", l, "remote", r] + KeyArgs(None);
    case Gre(l, r, key) => ReadsTunnel(l, r, key);
    case Gretap(l, r, key) => ReadsTunnel(l, r, key);
    case Vxlan(id, source, dest, port, under) => ReadsVxlan(id, source, dest, port, under);
    case Wireguard =>
  }

  lemma {:induction false} ReadsWireguard(op: Op)
    requires op.WgListen? || op.WgPeer?
    ensures ReadWg(Emit(op)) == Some(op)
  {
    var argv := Emit(op);
    match op
    case WgListen(dev, port, keyFile) => ReadsNumber(port);
    case WgPeer(dev, key, endpoint, allowed) =>
      var rest := ["allowed-ips", allowed];
      assert argv[5..] == EndpointArgs(endpoint) + rest;
      if endpoint.Some? {
        ParamHere("endpoint", endpoint.value, rest);
      } else {
        assert argv[5..] == rest;
        ParamMissing(rest, "endpoint");
      }
  }

  /** Every command reads back as the operation it was written for. */
  lemma {:induction false} ReadsBack(op: Op)
    ensures Decode(Emit(op)) == Some(op)
  {
    var argv := Emit(op);
    match op
    case LinkAdd(dev, link) =>
      assert argv[0] == "ip" && argv[1] == "link" && argv[2] == "add";
      ReadsLink(dev, link);
    case AddrAdd(addr, dev) => assert argv[1] == "addr";
    case LinkUp(dev) => assert argv[1] == "link" && argv[2] == "set";
    case WgListen(_, _, _) => ReadsWireguard(op);
    case WgPeer(_, _, _, _) =>
      assert argv[0] == "wg" && argv[1] == "set";
      ReadsWireguard(op);
  }

  // ---------------------------------------------------------------- the machine

  /** The devices that exist (the physical one without a link), which are up, and who has which address. */
  datatype Machine = Machine(links: map<string, Option<Link>>, up: set<string>, addrs: set<(string, string)>)

  /** The device a link is built on, when its command names one. */
  function Underlay(link: Link): Option<string> {
    match link
    case Vxlan(_, _, _, _, under) => Some(under)
    case Vlan(under, _) => Some(under)
    case _ => None
  }

  /** One command; None when the machine refuses it. A link comes up only over an underlay that is up. */
  function Step(op: Op, m: Machine): Option<Machine> {
    match op
    case LinkAdd(dev, link) =>
      if dev in m.links || (Underlay(link).Some? && Underlay(link).value !in m.links) then None
      else Some(m.(links := m.links[dev := Some(link)]))
    case AddrAdd(addr, dev) =>
      if dev !in m.links then None else Some(m.(addrs := m.addrs + {(dev, addr)}))
    case LinkUp(dev) =>
      if dev !in m.links then None
      else if m.links[dev].Some? && Underlay(m.links[dev].value).Some?
          && Underlay(m.links[dev].value).value !in m.up then None
      else Some(m.(up := m.up + {dev}))
    case WgListen(dev, _, _) =>
      if dev !in m.links || m.links[dev] != Some(Wireguard) then None else Some(m)
    case WgPeer(dev, _, _, _) =>
      if dev !in m.links || m.links[dev] != Some(Wireguard) then None else Some(m)
  }

  function Run(ops: seq<Op>, m: Machine): Option<Machine>
    decreases ops
  {
    if ops == [] then Some(m)
    else
      match Step(ops[0], m)
      case None => None
      case Some(m') => Run(ops[1..], m')
  }

  /** Running argument vectors: every one must be a command the machine knows and accepts. */
  function Execute(script: seq<Argv>, m: Machine): Option<Machine>
    decreases script
  {
    if script == [] then Some(m)
    else
      match Decode(script[0])
      case None => None
      case Some(op) =>
        match Step(op, m)
        case None => None
        case Some(m') => Execute(script[1..], m')
  }

  lemma {:induction false} ExecuteIsRun(ops: seq<Op>, m: Machine)
    ensures Execute(EmitAll(ops), m) == Run(ops, m)
    decreases ops
  {
    if ops != [] {
      ReadsBack(ops[0]);
      assert EmitAll(ops)[1..] == EmitAll(ops[1..]);
      if Step(ops[0], m).Some? { ExecuteIsRun(ops[1..], Step(ops[0], m).value); }
    }
  }

  lemma {:induction false} RunAppend(a: seq<Op>, b: seq<Op>, m: Machine)
    ensures Run(a + b, m) == match Run(a, m) case None => None case Some(m') => Run(b, m')
    decreases a
  {
    if a == [] {
      assert a + b == b;
    } else {
      assert (a + b)[0] == a[0] && (a + b)[1..] == a[1..] + b;
      if Step(a[0], m).Some? { RunAppend(a[1..], b, Step(a[0], m).value); }
    }
  }
}
