/** The script of a rule, tile by tile, in the words of its layers: what is emitted, and when nothing is. */
module Scripts {
  import opened Basics
  import opened Decimal
  import opened Sexp
  import opened Ast
  import opened Netip
  import opened Props
  import opened Env
  import opened Machine
  import opened Linux
  import opened Tile
  import opened Safety
  import opened Devices
  import opened Said

  // ---------------------------------------------------------------- what each tile writes

  /** One command per address. */
  function Placing(addrs: seq<string>, dev: string): seq<Op> {
    if addrs == [] then [] else [AddrAdd(addrs[0], dev)] + Placing(addrs[1..], dev)
  }

  ghost predicate WritesIPIP(ip: NetIP, part: seq<Layer>, d: string, ops: seq<Op>)
    requires |part| >= 2
  {
    exists l, r :: NamesAddr(ip, part[0], "src", l) && NamesAddr(ip, part[0], "dst", r)
      && ops == [LinkAdd(d, Ipip(l.text, r.text))] + Placing(Carried(ip, part[1]), d)
  }

  ghost predicate WritesGRE(ip: NetIP, part: seq<Layer>, d: string, ops: seq<Op>)
    requires |part| >= 3
  {
    exists l, r, key :: NamesAddr(ip, part[0], "src", l) && NamesAddr(ip, part[0], "dst", r)
      && MayCount(part[1], "key", 0x1_0000_0000, key)
      && ops == [LinkAdd(d, Gre(l.text, r.text, key))] + Placing(Carried(ip, part[2]), d)
  }

  ghost predicate WritesGRETAP(ip: NetIP, part: seq<Layer>, d: string, ops: seq<Op>)
    requires |part| >= 3
  {
    exists l, r, key :: NamesAddr(ip, part[0], "src", l) && NamesAddr(ip, part[0], "dst", r)
      && MayCount(part[1], "key", 0x1_0000_0000, key)
      && ops == [LinkAdd(d, Gretap(l.text, r.text, key))]
  }

  /** Where a device sends whose far end is named: to a peer, to a group everyone joins, or to peers it learns. */
  function SendsWhere(ip: NetIP, end: Option<string>): Dest {
    match end
    case None => Learned
    case Some(a) =>
      if a != "" && ip.parseAddr(a).Some? && ip.parseAddr(a).value.multicast then Group(a) else Remote(a)
  }

  /** The VNI of a device: none when it serves every one of them. */
  ghost predicate Serves(n: Layer, id: Option<nat>) {
    match id
    case None => Varies(n, "vni")
    case Some(v) => Counts(n, "vni", v) && v < 0x100_0000
  }

  ghost predicate WritesVXLAN(ip: NetIP, part: seq<Layer>, d: string, under: string, ops: seq<Op>)
    requires |part| >= 3
  {
    exists id, port: nat, s, t ::
      && Serves(part[2], id) && Counts(part[1], "dst-port", port) && port < 0x1_0000
      && NamesEnd(ip, part[0], "src", s) && NamesEnd(ip, part[0], "dst", t)
      && (id.Some? ==> d == "vxlan" + Dec(id.value))
      && ops == Placing(NetOf(ip, part[0]), under) + [LinkAdd(d, Vxlan(id, s, SendsWhere(ip, t), port, under))]
  }

  ghost predicate WritesVLAN(part: seq<Layer>, d: string, under: string, ops: seq<Op>)
    requires |part| >= 2
  {
    exists tag: nat :: Counts(part[1], "id", tag) && 1 <= tag <= 4094
      && d == under + "." + Dec(tag) && ops == [LinkAdd(d, Vlan(under, tag))]
  }

  /** An address and a port, the address in brackets when it is an IPv6 one. */
  function HostPort(ip: NetIP, end: Option<string>, port: nat): Option<string> {
    match end
    case None => None
    case Some(a) =>
      var six := ip.parseAddr(a).Some? && ip.parseAddr(a).value.bits == 128;
      Some((if six then "[" + a + "]" else a) + (":" + Dec(port)))
  }

  /** The port a WireGuard peer is sent to: its own if it is given, else the one listened on. */
  ghost predicate SentTo(n: Layer, listen: nat, remote: nat) {
    if Silent(n, "dst-port") || Varies(n, "dst-port") then remote == listen
    else Counts(n, "dst-port", remote) && remote < 0x1_0000
  }

  /** What a WireGuard stack says: who the peer is, where it is, both ports and the network the tunnel carries. */
  ghost predicate SaysPeer(ip: NetIP, part: seq<Layer>, peer: string, listen: nat, remote: nat, end: Option<string>,
                           net: Prefix)
    requires |part| >= 4
  {
    && TextOf(part[2], "peer") == Some(peer)
    && Counts(part[1], "src-port", listen) && listen < 0x1_0000 && SentTo(part[1], listen, remote)
    && (if Silent(part[0], "dst") then end == None else NamesEnd(ip, part[0], "dst", end))
    && NamesNet(ip, part[3], "src", net)
  }

  function WireGuardScript(ip: NetIP, d: string, keyDir: string, peer: string, listen: nat, remote: nat,
                           end: Option<string>, net: Prefix): seq<Op> {
    [LinkAdd(d, Wireguard),
     WgListen(d, listen, keyDir + "/" + d + ".key"),
     WgPeer(d, "$(cat " + keyDir + "/" + peer + ".pub)", HostPort(ip, end, remote), net.masked)]
  }

  ghost predicate WritesWireGuard(ip: NetIP, part: seq<Layer>, d: string, keyDir: string, ops: seq<Op>)
    requires |part| >= 4
  {
    exists peer, listen: nat, remote: nat, end, net :: SaysPeer(ip, part, peer, listen, remote, end, net)
      && ops == WireGuardScript(ip, d, keyDir, peer, listen, remote, end, net) + Placing(Carried(ip, part[3]), d)
  }

  /** What a tile writes for device `d` over `under`, from the layers it took. */
  ghost predicate Writes(ip: NetIP, l: Lowering, part: seq<Layer>, d: string, under: string, keyDir: string,
                         ops: seq<Op>)
  {
    match l
    case IPIP => |part| >= 2 && WritesIPIP(ip, part, d, ops)
    case GRE => |part| >= 3 && WritesGRE(ip, part, d, ops)
    case GRETAP => |part| >= 3 && WritesGRETAP(ip, part, d, ops)
    case VXLAN => |part| >= 3 && WritesVXLAN(ip, part, d, under, ops)
    case VLAN => |part| >= 2 && WritesVLAN(part, d, under, ops)
    case WireGuard => |part| >= 4 && WritesWireGuard(ip, part, d, keyDir, ops)
    case _ => false
  }

  // ---------------------------------------------------------------- the readers, in those words

  /** A token is accepted exactly when it is an unsigned numeral that fits, and gives what the numeral writes. */
  lemma TokenIs(v: Value, bits: nat, x: nat)
    ensures ParseUnsigned(v, bits) == Ok(x) <==>
              && v.Is(Number) && x < Pow2(bits)
              && exists hex, digits :: v.text == ShowNumeral(false, hex, digits)
                   && WfDigits(hex, digits) && Magnitude(hex, digits) == x
  {
    if ParseUnsigned(v, bits) == Ok(x) { TokenShows(v, bits, x); }
    if v.Is(Number) {
      forall hex, digits | v.text == ShowNumeral(false, hex, digits) && WfDigits(hex, digits)
        ensures ParseUnsigned(v, bits).Ok? <==> Magnitude(hex, digits) < Pow2(bits)
        ensures ParseUnsigned(v, bits).Ok? ==> ParseUnsigned(v, bits).value == Magnitude(hex, digits)
      {
        UnsignedExact(false, hex, digits, v.pos, bits);
      }
    }
  }

  lemma TokenShows(v: Value, bits: nat, x: nat)
    requires ParseUnsigned(v, bits) == Ok(x)
    ensures v.Is(Number) && x < Pow2(bits)
    ensures exists hex, digits :: v.text == ShowNumeral(false, hex, digits)
              && WfDigits(hex, digits) && Magnitude(hex, digits) == x
  {
    hide Denotes, Pow2;
    var hex := if HexPrefixed(v.text) then Some(v.text[1]) else None;
    var digits := if HexPrefixed(v.text) then v.text[2..] else v.text;
    DigitsAre(hex, digits);
    assert v.text == ShowNumeral(false, hex, digits) by {
      if HexPrefixed(v.text) { assert v.text == ['0', v.text[1]] + digits; }
    }
  }

  /** What a number read says of the key. */
  ghost predicate Reads(n: Layer, key: string, r: Result<Reading<nat>>, low: nat, bound: nat) {
    match r
    case Err(_) => true
    case Ok(Absent(_)) => Silent(n, key)
    case Ok(Dynamic(_)) => Varies(n, key)
    case Ok(Concrete(x, _)) => Counts(n, key, x) && low <= x < bound
  }

  /** What reading a number under a key gives, for a parser that accepts a number within bounds. */
  lemma NumberIs(n: Layer, key: string, parse: Value -> Result<nat>, bits: nat, low: nat, bound: nat)
    requires forall v, x: nat :: parse(v) == Ok(x) <==> ParseUnsigned(v, bits) == Ok(x) && low <= x < bound
    requires bound <= Pow2(bits)
    ensures Get(n, key, parse).Ok? <==>
              Silent(n, key) || Varies(n, key) || exists x: nat :: Counts(n, key, x) && low <= x < bound
    ensures Reads(n, key, Get(n, key, parse), low, bound)
  {
    hide ParseUnsigned, ShowNumeral, WfDigits, Magnitude, Pow2;
    if Field(n, key).Some? && !Varies(n, key) {
      var v := Field(n, key).value;
      forall x: nat ensures parse(v) == Ok(x) <==> Counts(n, key, x) && low <= x < bound {
        TokenIs(v, bits, x);
      }
      if parse(v).Ok? { assert parse(v) == Ok(parse(v).value); }
      if x: nat :| Counts(n, key, x) && low <= x < bound { assert parse(v) == Ok(x); }
    }
  }

  lemma U16Is(n: Layer, key: string)
    ensures Get(n, key, ParseU16).Ok? <==> CountsAtMost(n, key, 0x1_0000)
    ensures Reads(n, key, Get(n, key, ParseU16), 0, 0x1_0000)
  {
    Powers();
    hide ParseUnsigned, Pow2;
    TokenBelow(16);
    NumberIs(n, key, ParseU16, 16, 0, 0x1_0000);
  }

  /** A token of so many bits is below their power of two. */
  lemma TokenBelow(bits: nat)
    ensures forall v, x: nat :: ParseUnsigned(v, bits) == Ok(x) ==> x < Pow2(bits)
  {
    hide Denotes, Pow2, IsNumeral;
  }

  lemma KeyIs(n: Layer)
    ensures TunnelKey(n).Ok? <==> CountsAtMost(n, "key", 0x1_0000_0000)
    ensures Reads(n, "key", TunnelKey(n), 0, 0x1_0000_0000)
  {
    Powers();
    hide ParseUnsigned, Pow2;
    TokenBelow(32);
    NumberIs(n, "key", ParseU32, 32, 0, 0x1_0000_0000);
  }

  lemma VniIs(n: Layer)
    ensures VNI(n).Ok? <==> CountsAtMost(n, "vni", 0x100_0000)
    ensures Reads(n, "vni", VNI(n), 0, 0x100_0000)
  {
    Powers();
    hide ParseUnsigned, Pow2;
    NumberIs(n, "vni", ParseVNI, 32, 0, 0x100_0000);
  }

  lemma TagIs(n: Layer)
    ensures VLANID(n).Ok? <==>
              Silent(n, "id") || Varies(n, "id") || exists x: nat :: Counts(n, "id", x) && 1 <= x < 4095
    ensures Reads(n, "id", VLANID(n), 1, 4095)
  {
    Powers();
    hide ParseUnsigned, Pow2;
    NumberIs(n, "id", ParseVLANID, 16, 1, 4095);
  }

  /** The address a layer carries, and when it can be read. */
  lemma AddressIs(ip: NetIP, n: Layer, dev: string)
    ensures AddrOps(ip, n, dev).Ok? <==> WellAddressed(ip, n)
    ensures AddrOps(ip, n, dev).Ok? ==> AddrOps(ip, n, dev).value == Placing(Carried(ip, n), dev)
  {
    if IsIP(n) && !Silent(n, "src") && !Varies(n, "src") {
      var v := Field(n, "src").value;
      if ParsePrefix(ip, v).Ok? { assert NamesNet(ip, n, "src", ParsePrefix(ip, v).value); }
    }
  }

  /** An end of a tunnel, and the address it asks for below. */
  lemma EndIs(ip: NetIP, n: Layer, key: string, dev: string)
    ensures ReadEndpoint(ip, n, key).Ok? <==> Silent(n, key) || exists end :: NamesEnd(ip, n, key, end)
    ensures ReadEndpoint(ip, n, key).Ok? ==>
              var e := ReadEndpoint(ip, n, key).value;
              if e.absent then Silent(n, key)
              else !Silent(n, key) && NamesEnd(ip, n, key, Named(e))
                   && (key == "src" ==> UnderlayOps(e, dev) == Placing(NetOf(ip, n), dev))
  {
    if !Silent(n, key) {
      var v := Field(n, key).value;
      if v.Is(Star) { assert NamesEnd(ip, n, key, None); }
      if ParsePrefix(ip, v).Ok? { assert NamesNet(ip, n, key, ParsePrefix(ip, v).value); }
      if ParseAddr(ip, v).Ok? { assert NamesAddr(ip, n, key, ParseAddr(ip, v).value); }
      if ReadEndpoint(ip, n, key).Ok? { assert NamesEnd(ip, n, key, Named(ReadEndpoint(ip, n, key).value)); }
    }
  }

  /** Both ends of a point-to-point tunnel are bare addresses. */
  lemma EndsAre(ip: NetIP, n: Layer)
    ensures Endpoints(ip, n).Ok? <==> exists l, r :: NamesAddr(ip, n, "src", l) && NamesAddr(ip, n, "dst", r)
    ensures forall l, r :: NamesAddr(ip, n, "src", l) && NamesAddr(ip, n, "dst", r) ==>
              Endpoints(ip, n) == Ok((l.text, r.text))
  {
    if Endpoints(ip, n).Ok? {
      assert NamesAddr(ip, n, "src", Src(ip, n).value.value) && NamesAddr(ip, n, "dst", Dst(ip, n).value.value);
    }
  }

  // ---------------------------------------------------------------- each tile writes that, or cannot

  /** Both ends are bare addresses. */
  ghost predicate TwoAddrs(ip: NetIP, n: Layer) {
    exists l, r :: NamesAddr(ip, n, "src", l) && NamesAddr(ip, n, "dst", r)
  }

  /** The key can be read as an end of a tunnel. */
  ghost predicate HasEnd(ip: NetIP, n: Layer, key: string) {
    exists end :: NamesEnd(ip, n, key, end)
  }

  ghost predicate HasNumber(n: Layer, key: string, low: nat, bound: nat) {
    exists x: nat :: Counts(n, key, x) && low <= x < bound
  }

  /** The layers say all that a tile needs, and nothing it cannot read. */
  ghost predicate Readable(ip: NetIP, l: Lowering, part: seq<Layer>)
    requires |part| >= Arity(l)
  {
    match l
    case IPIP => TwoAddrs(ip, part[0]) && WellAddressed(ip, part[1])
    case GRE => TwoAddrs(ip, part[0]) && CountsAtMost(part[1], "key", 0x1_0000_0000) && WellAddressed(ip, part[2])
    case GRETAP => TwoAddrs(ip, part[0]) && CountsAtMost(part[1], "key", 0x1_0000_0000)
    case VXLAN =>
      && (Varies(part[2], "vni") || HasNumber(part[2], "vni", 0, 0x100_0000))
      && HasNumber(part[1], "dst-port", 0, 0x1_0000) && HasEnd(ip, part[0], "src") && HasEnd(ip, part[0], "dst")
    case VLAN => HasNumber(part[1], "id", 1, 4095)
    case WireGuard =>
      && TextOf(part[2], "peer").Some? && HasNumber(part[1], "src-port", 0, 0x1_0000)
      && CountsAtMost(part[1], "dst-port", 0x1_0000) && (Silent(part[0], "dst") || HasEnd(ip, part[0], "dst"))
      && exists net :: NamesNet(ip, part[3], "src", net)
    case _ => false
  }

  /** The name a device must have is free, or one of the numbered names it may have can be allocated. */
  ghost predicate NameFree(l: Lowering, part: seq<Layer>, st: EnvState)
    requires |part| >= Arity(l)
  {
    match l
    case IPIP => Allocated(st, "ipip").0.Ok?
    case GRE => Allocated(st, "gre").0.Ok?
    case GRETAP => Allocated(st, "gretap").0.Ok?
    case VXLAN =>
      if Varies(part[2], "vni") then Allocated(st, "vxlan").0.Ok?
      else exists id: nat :: Counts(part[2], "vni", id) && CanClaim(st, "vxlan" + Dec(id))
    case VLAN => exists tag: nat :: Counts(part[1], "id", tag) && CanClaim(st, st.dev + "." + Dec(tag))
    case WireGuard => Allocated(st, "wg").0.Ok?
    case _ => false
  }

  predicate CanClaim(st: EnvState, name: string) {
    ValidName(name) && name !in st.used
  }

  lemma IPIPExactly(ip: NetIP, part: seq<Layer>, st: EnvState)
    requires |part| >= 2
    ensures IPIPOps(ip, part, st).ops.Ok? <==> Readable(ip, IPIP, part) && NameFree(IPIP, part, st)
    ensures IPIPOps(ip, part, st).ops.Ok? ==>
              WritesIPIP(ip, part, Allocated(st, "ipip").0.value, IPIPOps(ip, part, st).ops.value)
  {
    hide Endpoints, AddrOps, WellAddressed, NamesAddr, Carried, Allocated, Entered;
    EndsAre(ip, part[0]);
    if Allocated(st, "ipip").0.Ok? { AddressIs(ip, part[1], Allocated(st, "ipip").0.value); }
  }

  lemma GREExactly(ip: NetIP, part: seq<Layer>, st: EnvState)
    requires |part| >= 3
    ensures GREOps(ip, part, st).ops.Ok? <==> Readable(ip, GRE, part) && NameFree(GRE, part, st)
    ensures GREOps(ip, part, st).ops.Ok? ==>
              WritesGRE(ip, part, Allocated(st, "gre").0.value, GREOps(ip, part, st).ops.value)
  {
    hide Endpoints, AddrOps, WellAddressed, NamesAddr, Carried, Allocated, Entered, TunnelKey, Counts;
    EndsAre(ip, part[0]);
    KeyIs(part[1]);
    if Allocated(st, "gre").0.Ok? { AddressIs(ip, part[2], Allocated(st, "gre").0.value); }
    if GREOps(ip, part, st).ops.Ok? {
      var l, r :| NamesAddr(ip, part[0], "src", l) && NamesAddr(ip, part[0], "dst", r);
      assert MayCount(part[1], "key", 0x1_0000_0000, TunnelKey(part[1]).value.Get());
    }
  }

  lemma GRETAPExactly(ip: NetIP, part: seq<Layer>, st: EnvState)
    requires |part| >= 3
    ensures GRETAPOps(ip, part, st).ops.Ok? <==> Readable(ip, GRETAP, part) && NameFree(GRETAP, part, st)
    ensures GRETAPOps(ip, part, st).ops.Ok? ==>
              WritesGRETAP(ip, part, Allocated(st, "gretap").0.value, GRETAPOps(ip, part, st).ops.value)
  {
    hide Endpoints, NamesAddr, Allocated, Entered, TunnelKey, Counts;
    EndsAre(ip, part[0]);
    KeyIs(part[1]);
    if GRETAPOps(ip, part, st).ops.Ok? {
      var l, r :| NamesAddr(ip, part[0], "src", l) && NamesAddr(ip, part[0], "dst", r);
      assert MayCount(part[1], "key", 0x1_0000_0000, TunnelKey(part[1]).value.Get());
    }
  }

  lemma VLANExactly(part: seq<Layer>, st: EnvState)
    requires |part| >= 2
    ensures VLANOps(part, st).ops.Ok? <==> HasNumber(part[1], "id", 1, 4095) && NameFree(VLAN, part, st)
    ensures VLANOps(part, st).ops.Ok? ==>
              WritesVLAN(part, VLANOps(part, st).env.dev, st.dev, VLANOps(part, st).ops.value)
  {
    hide VLANID, Counts, NameFault;
    TagIs(part[1]);
    var r := VLANID(part[1]);
    if r.Ok? && r.value.Concrete? {
      assert Counts(part[1], "id", r.value.value);
      forall tag: nat | Counts(part[1], "id", tag) ensures tag == r.value.value {
        CountsOnce(part[1], "id", tag, r.value.value);
      }
    } else {
      NoNumber(part[1], "id", r, 1, 4095);
    }
  }

  /** What is silent, a star or out of range holds no number in range. */
  lemma NoNumber(n: Layer, key: string, r: Result<Reading<nat>>, low: nat, bound: nat)
    requires Reads(n, key, r, low, bound) && (r.Err? ==> !HasNumber(n, key, low, bound))
    requires !(r.Ok? && r.value.Concrete?)
    ensures !HasNumber(n, key, low, bound)
  {
  }

  lemma FieldsExactly(ip: NetIP, part: seq<Layer>, dev: string)
    requires |part| >= 3
    ensures ReadVXLANFields(ip, part).Ok? <==> Readable(ip, VXLAN, part)
    ensures ReadVXLANFields(ip, part).Ok? ==>
              var f := ReadVXLANFields(ip, part).value;
              && Serves(part[2], f.vni) && Counts(part[1], "dst-port", f.port) && f.port < 0x1_0000
              && NamesEnd(ip, part[0], "src", Named(f.local)) && NamesEnd(ip, part[0], "dst", Named(f.remote))
              && UnderlayOps(f.local, dev) == Placing(NetOf(ip, part[0]), dev)
  {
    hide VNI, DstPort, ReadEndpoint, Counts, NamesEnd, UnderlayOps, Placing, NetOf, Silent, Varies;
    VniIs(part[2]);
    U16Is(part[1], "dst-port");
    EndIs(ip, part[0], "src", dev);
    EndIs(ip, part[0], "dst", dev);
    NothingBoth(ip, part[0], "src");
    NothingBoth(ip, part[0], "dst");
    NothingCounts(part[1], "dst-port");
    NothingCounts(part[2], "vni");
    assert DstPort(part[1]) == Get(part[1], "dst-port", ParseU16) by { PortIsGet(part[1]); }
  }

  lemma PortIsGet(n: Layer)
    ensures DstPort(n) == Get(n, "dst-port", ParseU16) && SrcPort(n) == Get(n, "src-port", ParseU16)
  {
  }

  /** A silent key is no end of a tunnel. */
  lemma NothingBoth(ip: NetIP, n: Layer, key: string)
    ensures Silent(n, key) ==> forall end :: !NamesEnd(ip, n, key, end)
  {
  }

  /** A silent key or a star counts nothing. */
  lemma NothingCounts(n: Layer, key: string)
    ensures Silent(n, key) || Varies(n, key) ==> forall x: nat :: !Counts(n, key, x)
    ensures !(Silent(n, key) && Varies(n, key))
  {
  }

  lemma VXLANExactly(ip: NetIP, part: seq<Layer>, st: EnvState)
    requires |part| >= 3
    ensures VXLANOps(ip, part, st).ops.Ok? <==> Readable(ip, VXLAN, part) && NameFree(VXLAN, part, st)
    ensures VXLANOps(ip, part, st).ops.Ok? ==>
              WritesVXLAN(ip, part, VXLANOps(ip, part, st).env.dev, st.dev, VXLANOps(ip, part, st).ops.value)
  {
    hide ReadVXLANFields, Readable, Allocated, NamesEnd, Counts, NetOf, Placing, UnderlayOps, NameFault;
    FieldsExactly(ip, part, st.dev);
    if ReadVXLANFields(ip, part).Ok? {
      var f := ReadVXLANFields(ip, part).value;
      NothingCounts(part[2], "vni");
      if f.vni.Some? {
        assert CanClaim(st, "vxlan" + Dec(f.vni.value)) <==> VxlanName(f.vni, st).0.Ok?;
        forall id: nat | Counts(part[2], "vni", id) ensures id == f.vni.value {
          CountsOnce(part[2], "vni", id, f.vni.value);
        }
      }
      SendsIs(ip, f.remote);
    }
  }

  lemma SendsIs(ip: NetIP, e: Endpoint)
    ensures VxlanDest(ip, e) == SendsWhere(ip, Named(e))
  {
  }

  lemma PeerExactly(ip: NetIP, part: seq<Layer>)
    requires |part| >= 4
    ensures ReadWgFields(ip, part).Ok? <==> Readable(ip, WireGuard, part)
    ensures ReadWgFields(ip, part).Ok? ==>
              var f := ReadWgFields(ip, part).value;
              SaysPeer(ip, part, f.peer, f.port, f.remotePort, if f.endpoint.absent then None else Named(f.endpoint),
                       f.overlay)
  {
    hide PeerName, SrcPort, DstPort, ReadEndpoint, SrcPrefix, Counts, NamesEnd, NamesNet, Silent, Varies, TextOf;
    PeerIs(part[2]);
    U16Is(part[1], "src-port");
    U16Is(part[1], "dst-port");
    PortIsGet(part[1]);
    NothingCounts(part[1], "src-port");
    NothingCounts(part[1], "dst-port");
    EndIs(ip, part[0], "dst", "");
    NothingBoth(ip, part[0], "dst");
    NetIs(ip, part[3]);
  }

  lemma PeerIs(n: Layer)
    ensures PeerName(n).Ok? && PeerName(n).value.Concrete? <==> TextOf(n, "peer").Some?
    ensures PeerName(n).Ok? && PeerName(n).value.Concrete? ==> TextOf(n, "peer") == Some(PeerName(n).value.value)
  {
  }

  lemma NetIs(ip: NetIP, n: Layer)
    ensures SrcPrefix(ip, n).Ok? && SrcPrefix(ip, n).value.Concrete? <==> exists net :: NamesNet(ip, n, "src", net)
    ensures SrcPrefix(ip, n).Ok? && SrcPrefix(ip, n).value.Concrete? ==>
              NamesNet(ip, n, "src", SrcPrefix(ip, n).value.value)
  {
    if Field(n, "src").Some? && ParsePrefix(ip, Field(n, "src").value).Ok? {
      assert NamesNet(ip, n, "src", ParsePrefix(ip, Field(n, "src").value).value);
    }
  }

  lemma WireGuardExactly(ip: NetIP, part: seq<Layer>, st: EnvState)
    requires |part| >= 4
    ensures WireGuardOps(ip, part, st).ops.Ok? <==>
              Readable(ip, WireGuard, part) && NameFree(WireGuard, part, st)
    ensures WireGuardOps(ip, part, st).ops.Ok? ==>
              WritesWireGuard(ip, part, Allocated(st, "wg").0.value, st.keyDir, WireGuardOps(ip, part, st).ops.value)
  {
    hide ReadWgFields, Readable, Allocated, SaysPeer, AddrOps, WellAddressed, Carried, Placing, WireGuardScript, WgOps;
    PeerExactly(ip, part);
    if Allocated(st, "wg").0.Ok? {
      var d := Allocated(st, "wg").0.value;
      AllocKeepsRest(st, "wg");
      CarriedAddressed(ip, part);
      AddressIs(ip, part[3], d);
      if ReadWgFields(ip, part).Ok? { WireGuardIs(ip, ReadWgFields(ip, part).value, st.keyDir, d); }
    }
  }

  lemma CarriedAddressed(ip: NetIP, part: seq<Layer>)
    requires |part| >= 4
    ensures Readable(ip, WireGuard, part) ==> WellAddressed(ip, part[3])
  {
  }

  lemma WireGuardIs(ip: NetIP, f: WgFields, keyDir: string, d: string)
    ensures WgOps(ip, f, keyDir, d) == WireGuardScript(ip, d, keyDir, f.peer, f.port, f.remotePort,
                if f.endpoint.absent then None else Named(f.endpoint), f.overlay)
  {
    assert keyDir + "/" + d + ".key" == KeyFile(keyDir, d);
    assert "$(cat " + keyDir + "/" + f.peer + ".pub)" == PeerKey(keyDir, f.peer);
    if !f.endpoint.absent && !f.endpoint.dynamic {
      var a := f.endpoint.addr;
      assert "[" + a + "]:" + Dec(f.remotePort) == ("[" + a + "]") + (":" + Dec(f.remotePort));
      assert a + ":" + Dec(f.remotePort) == a + (":" + Dec(f.remotePort));
    }
  }

  /** How the device of each shape is named; a tagged device is named after the one it stands on. */
  ghost predicate NamedFor(l: Lowering, d: string) {
    match l
    case IPIP => Numbers("ipip", d)
    case GRE => Numbers("gre", d)
    case GRETAP => Numbers("gretap", d)
    case VXLAN => Numbers("vxlan", d)
    case WireGuard => Numbers("wg", d)
    case _ => true
  }

  ghost predicate Numbers(prefix: string, d: string) {
    exists k: nat :: d == prefix + Dec(k)
  }

  lemma {:induction false} AllocNumbers(st: EnvState, prefix: string)
    ensures Allocated(st, prefix).0.Ok? ==> Numbers(prefix, Allocated(st, prefix).0.value)
    decreases Remaining(st, prefix)
  {
    var st' := Counted(st, prefix);
    var name := Numbered(prefix, st'.Count(prefix));
    assert name == prefix + Dec(st'.Count(prefix));
    if ValidName(name) && name in st.used {
      NamesAreShort(prefix, st'.Count(prefix));
      AllocNumbers(st', prefix);
    }
  }

  /** A tile lowers exactly when its layers say what it needs and its name is free, and then it writes what they say. */
  lemma LoweringExactly(ip: NetIP, l: Lowering, part: seq<Layer>, st: EnvState)
    requires IsShape(l) && |part| >= Arity(l)
    ensures Lower(ip, l, part, st).ops.Ok? <==> Readable(ip, l, part) && NameFree(l, part, st)
    ensures Lower(ip, l, part, st).ops.Ok? ==>
              var d := Lower(ip, l, part, st).env.dev;
              && Writes(ip, l, part, d, st.dev, st.keyDir, Lower(ip, l, part, st).ops.value) && NamedFor(l, d)
              && Entering(st, Lower(ip, l, part, st).env, d)
  {
    hide Readable, NameFree, WritesIPIP, WritesGRE, WritesGRETAP, WritesVXLAN, WritesVLAN, WritesWireGuard, Numbers,
         IPIPOps, GREOps, GRETAPOps, VXLANOps, VLANOps, WireGuardOps;
    if Lower(ip, l, part, st).ops.Ok? {
      var d, link, before, after := ShapeBlock(ip, l, part, st);
    }
    match l
    case IPIP => IPIPExactly(ip, part, st);
      IPIPNamed(ip, part, st);
    case GRE => GREExactly(ip, part, st);
      GRENamed(ip, part, st);
    case GRETAP => GRETAPExactly(ip, part, st);
      GRETAPNamed(ip, part, st);
    case VXLAN => VXLANExactly(ip, part, st);
      VXLANNamed(ip, part, st);
    case VLAN => VLANExactly(part, st);
      VLANReadable(ip, part);
    case WireGuard => WireGuardExactly(ip, part, st);
      WireGuardNamed(ip, part, st);
  }

  lemma VLANReadable(ip: NetIP, part: seq<Layer>)
    requires |part| >= 2
    ensures Readable(ip, VLAN, part) == HasNumber(part[1], "id", 1, 4095)
  {
  }

  lemma IPIPNamed(ip: NetIP, part: seq<Layer>, st: EnvState)
    requires |part| >= 2
    ensures IPIPOps(ip, part, st).ops.Ok? ==>
              IPIPOps(ip, part, st).env.dev == Allocated(st, "ipip").0.value
              && Numbers("ipip", IPIPOps(ip, part, st).env.dev)
  {
    hide Allocated, Endpoints, AddrOps, Numbers;
    AllocNumbers(st, "ipip");
  }

  lemma GRENamed(ip: NetIP, part: seq<Layer>, st: EnvState)
    requires |part| >= 3
    ensures GREOps(ip, part, st).ops.Ok? ==>
              GREOps(ip, part, st).env.dev == Allocated(st, "gre").0.value
              && Numbers("gre", GREOps(ip, part, st).env.dev)
  {
    hide Allocated, Endpoints, AddrOps, Numbers, TunnelKey;
    AllocNumbers(st, "gre");
  }

  lemma GRETAPNamed(ip: NetIP, part: seq<Layer>, st: EnvState)
    requires |part| >= 3
    ensures GRETAPOps(ip, part, st).ops.Ok? ==>
              GRETAPOps(ip, part, st).env.dev == Allocated(st, "gretap").0.value
              && Numbers("gretap", GRETAPOps(ip, part, st).env.dev)
  {
    hide Allocated, Endpoints, Numbers, TunnelKey;
    AllocNumbers(st, "gretap");
  }

  lemma VXLANNamed(ip: NetIP, part: seq<Layer>, st: EnvState)
    requires |part| >= 3
    ensures VXLANOps(ip, part, st).ops.Ok? ==> Numbers("vxlan", VXLANOps(ip, part, st).env.dev)
  {
    hide Allocated, ReadVXLANFields, VxlanLink, UnderlayOps, NameFault;
    AllocNumbers(st, "vxlan");
  }

  lemma WireGuardNamed(ip: NetIP, part: seq<Layer>, st: EnvState)
    requires |part| >= 4
    ensures WireGuardOps(ip, part, st).ops.Ok? ==>
              WireGuardOps(ip, part, st).env.dev == Allocated(st, "wg").0.value
              && Numbers("wg", WireGuardOps(ip, part, st).env.dev)
  {
    hide Allocated, ReadWgFields, AddrOps, Numbers, WgOps;
    AllocNumbers(st, "wg");
  }

  // ---------------------------------------------------------------- whole rules

  /** The script of a chain: each tile in turn writes for its device over the one before. */
  ghost predicate WritesAll(ip: NetIP, chain: seq<Tile>, sp: seq<Layer>, i: nat, devs: seq<string>, under: string,
                            keyDir: string, ops: seq<Op>)
    decreases chain
  {
    if chain == [] then devs == [] && ops == []
    else
      && devs != [] && i <= Next(i, chain[0]) <= |sp| && NamedFor(chain[0].lower, devs[0])
      && exists first, rest :: ops == first + rest
           && Writes(ip, chain[0].lower, sp[i..Next(i, chain[0])], devs[0], under, keyDir, first)
           && WritesAll(ip, chain[1..], sp, Next(i, chain[0]), devs[1..], devs[0], keyDir, rest)
  }

  /** The device the next tile would stand on. */
  function LastOf(devs: seq<string>, under: string): string {
    if devs == [] then under else devs[|devs| - 1]
  }

  lemma {:induction false} ChainWrites(ip: NetIP, tiles: seq<Tile>, chain: seq<Tile>, sp: seq<Layer>, i: nat,
                                       st: EnvState)
    returns (devs: seq<string>)
    requires AllUsable(tiles) && AllShapes(tiles) && Chain(tiles, sp, i, chain)
    requires LowerChain(ip, tiles, chain, sp, i, st).ops.Ok?
    ensures var low := LowerChain(ip, tiles, chain, sp, i, st);
            && WritesAll(ip, chain, sp, i, devs, st.dev, st.keyDir, low.ops.value)
            && Enters(st, low.env, devs) && low.env.dev == LastOf(devs, st.dev) && |devs| == |chain|
    decreases chain
  {
    if chain == [] {
      devs := [];
      EntersNothing(st);
    } else {
      var n := Next(i, chain[0]);
      var first := ChainHead(ip, tiles, chain, sp, i, st);
      hide Lower, LowerChain, Enters, Matches, Writes, NamedFor, Readable, NameFree, WritesAll;
      LoweringExactly(ip, chain[0].lower, sp[i..n], st);
      var d := first.env.dev;
      var rest := ChainWrites(ip, tiles, chain[1..], sp, n, first.env);
      devs := [d] + rest;
      var more := LowerChain(ip, tiles, chain[1..], sp, n, first.env);
      assert Enters(st, first.env, [d]) by { EntersOne(st, first.env, d); }
      EntersCons(st, first.env, more.env, d, rest);
      WritesCons(ip, chain, sp, i, devs, st.dev, st.keyDir, first.ops.value, more.ops.value);
    }
  }

  lemma EntersOne(st: EnvState, st': EnvState, d: string)
    requires Entering(st, st', d)
    ensures Enters(st, st', [d])
  {
  }

  lemma WritesCons(ip: NetIP, chain: seq<Tile>, sp: seq<Layer>, i: nat, devs: seq<string>, under: string,
                   keyDir: string, first: seq<Op>, rest: seq<Op>)
    requires chain != [] && devs != [] && i <= Next(i, chain[0]) <= |sp| && NamedFor(chain[0].lower, devs[0])
    requires Writes(ip, chain[0].lower, sp[i..Next(i, chain[0])], devs[0], under, keyDir, first)
    requires WritesAll(ip, chain[1..], sp, Next(i, chain[0]), devs[1..], devs[0], keyDir, rest)
    ensures WritesAll(ip, chain, sp, i, devs, under, keyDir, first + rest)
  {
    hide Writes, NamedFor;
  }

  /** The address of the first layer left over, if it carries one. */
  function Leftover(ip: NetIP, rest: seq<Layer>): seq<string> {
    if rest == [] then [] else Carried(ip, rest[0])
  }

  /** What is left over adds one address at most, and takes the layer that gives it out of the payload. */
  lemma TerminalIs(ip: NetIP, rest: seq<Layer>, dev: string)
    ensures Terminal(ip, rest, dev).Ok? <==> rest == [] || WellAddressed(ip, rest[0])
    ensures |Leftover(ip, rest)| <= |rest|
    ensures Terminal(ip, rest, dev).Ok? ==>
              Terminal(ip, rest, dev).value == (Placing(Leftover(ip, rest), dev), rest[|Leftover(ip, rest)|..])
  {
    if rest != [] { AddressIs(ip, rest[0], dev); }
  }

  /**
   The script of a rule: what its tiles write, one after the other; then the address of the layer left over, on the
   last device; then every new device brought up. The layers not used are the payload.
   */
  lemma {:induction false} RuleScript(ip: NetIP, tiles: seq<Tile>, sp: seq<Layer>, st: EnvState)
    returns (devs: seq<string>, body: seq<Op>)
    requires AllUsable(tiles) && AllShapes(tiles) && sp != [] && Cover(ip, tiles, sp, st).0.Ok?
    ensures var (c, st') := Cover(ip, tiles, sp, st);
            var chain, n := Greedy(tiles, sp, 0), End(0, Greedy(tiles, sp, 0));
            && n <= |sp| && WritesAll(ip, chain, sp, 0, devs, st.dev, st.keyDir, body)
            && c.value.ops == body + Placing(Leftover(ip, sp[n..]), LastOf(devs, st.dev)) + BringUp(devs)
            && n + |Leftover(ip, sp[n..])| <= |sp| && c.value.payload == sp[n + |Leftover(ip, sp[n..])|..]
            && |c.value.applied| == |chain| > 0 && st'.created == st.created + devs
            && forall k :: 0 <= k < |chain| ==> c.value.applied[k] == chain[k].name
  {
    hide LowerChain, Greedy, Terminal, BringUp, WritesAll, Placing, Leftover, TileNames;
    var chain := Greedy(tiles, sp, 0);
    GreedyIsChain(tiles, sp, 0);
    ChainFits(tiles, sp, 0, chain);
    var n, low := End(0, chain), LowerGreedy(ip, tiles, sp, 0, st);
    devs := ChainWrites(ip, tiles, chain, sp, 0, st);
    body := low.ops.value;
    TerminalIs(ip, sp[n..], low.env.dev);
    assert sp[n..][|Leftover(ip, sp[n..])|..] == sp[n + |Leftover(ip, sp[n..])|..];
    assert Since(low.env.created, |st.created|) == devs;
    TileNamesAt(chain);
    TileNamesLength(chain);
  }

  lemma {:induction false} TileNamesAt(chain: seq<Tile>)
    ensures |TileNames(chain)| == |chain| && forall k :: 0 <= k < |chain| ==> TileNames(chain)[k] == chain[k].name
  {
    if chain != [] { TileNamesAt(chain[1..]); }
  }

  /** A rule is covered exactly when a tile matches first, every tile lowers, and what is left over can be read. */
  lemma {:induction false} CoverExactly(ip: NetIP, tiles: seq<Tile>, sp: seq<Layer>, st: EnvState)
    requires AllUsable(tiles) && sp != []
    ensures End(0, Greedy(tiles, sp, 0)) <= |sp| && (Greedy(tiles, sp, 0) != [] ==> End(0, Greedy(tiles, sp, 0)) > 0)
    ensures var n := End(0, Greedy(tiles, sp, 0));
            Cover(ip, tiles, sp, st).0.Ok? <==>
              && Greedy(tiles, sp, 0) != [] && LowerGreedy(ip, tiles, sp, 0, st).ops.Ok?
              && (n < |sp| ==> WellAddressed(ip, sp[n]))
    ensures Greedy(tiles, sp, 0) == [] ==> Cover(ip, tiles, sp, st) == (Err(At(sp[0].pos, NoLowering)), st)
    ensures LowerGreedy(ip, tiles, sp, 0, st).ops.Err? ==>
              Cover(ip, tiles, sp, st) == (Err(LowerGreedy(ip, tiles, sp, 0, st).ops.error),
                                           LowerGreedy(ip, tiles, sp, 0, st).env)
  {
    hide Greedy, Terminal, BringUp, WellAddressed, AllUsable;
    var chain := Greedy(tiles, sp, 0);
    GreedyIsChain(tiles, sp, 0);
    ChainFits(tiles, sp, 0, chain);
    ChainUsable(tiles, sp, 0, chain);
    EndPast(chain, sp);
    assert chain != [] ==> Usable(chain[0]) by { assert chain != [] ==> chain[0] in chain; }
    var n, low := End(0, chain), LowerGreedy(ip, tiles, sp, 0, st);
    TerminalIs(ip, sp[n..], low.env.dev);
    if n < |sp| { assert sp[n..][0] == sp[n]; }
  }

  lemma EndPast(chain: seq<Tile>, sp: seq<Layer>)
    ensures chain == [] ==> End(0, chain) == 0
    ensures chain != [] && chain[0].pattern != [] ==> End(0, chain) > 0
  {
  }

  // ---------------------------------------------------------------- addresses

  /** The addresses a script places, with their devices, in order. */
  function Placements(ops: seq<Op>): seq<(string, string)> {
    if ops == [] then [] else PlacedBy(ops[0]) + Placements(ops[1..])
  }

  function PlacedBy(op: Op): seq<(string, string)> {
    match op case AddrAdd(addr, dev) => [(dev, addr)] case _ => []
  }

  function OnDevice(addrs: seq<string>, dev: string): seq<(string, string)> {
    if addrs == [] then [] else [(dev, addrs[0])] + OnDevice(addrs[1..], dev)
  }

  /** The address each tile places: the carried one on its own device, or for VXLAN the outer one below it. */
  function OwedBy(ip: NetIP, l: Lowering, part: seq<Layer>, d: string, under: string): seq<(string, string)>
    requires |part| >= Arity(l)
  {
    match l
    case IPIP => OnDevice(Carried(ip, part[1]), d)
    case GRE => OnDevice(Carried(ip, part[2]), d)
    case VXLAN => OnDevice(NetOf(ip, part[0]), under)
    case WireGuard => OnDevice(Carried(ip, part[3]), d)
    case _ => []
  }

  ghost function Owed(ip: NetIP, chain: seq<Tile>, sp: seq<Layer>, i: nat, devs: seq<string>, under: string)
    : seq<(string, string)>
    requires End(i, chain) <= |sp| && |devs| == |chain| && forall t :: t in chain ==> Usable(t)
    decreases chain
  {
    if chain == [] then []
    else
      var n := Next(i, chain[0]);
      assert Usable(chain[0]) by { assert chain[0] in chain; }
      OwedBy(ip, chain[0].lower, sp[i..n], devs[0], under) + Owed(ip, chain[1..], sp, n, devs[1..], devs[0])
  }

  lemma {:induction false} PlacementsAppend(a: seq<Op>, b: seq<Op>)
    ensures Placements(a + b) == Placements(a) + Placements(b)
    decreases a
  {
    hide PlacedBy;
    if a == [] {
      assert a + b == b;
    } else {
      assert (a + b)[0] == a[0] && (a + b)[1..] == a[1..] + b;
      PlacementsAppend(a[1..], b);
    }
  }

  lemma {:induction false} PlacingPlaces(addrs: seq<string>, dev: string)
    ensures Placements(Placing(addrs, dev)) == OnDevice(addrs, dev)
  {
    if addrs != [] {
      PlacingPlaces(addrs[1..], dev);
      assert Placing(addrs, dev)[1..] == Placing(addrs[1..], dev);
    }
  }

  lemma {:induction false} RaisingPlacesNothing(devs: seq<string>)
    ensures Placements(BringUp(devs)) == []
  {
    if devs != [] {
      RaisingPlacesNothing(devs[1..]);
      assert BringUp(devs)[1..] == BringUp(devs[1..]);
    }
  }

  lemma OnePlaces(op: Op)
    ensures Placements([op]) == PlacedBy(op)
  {
    assert [op][1..] == [];
  }

  lemma WrittenPlaces(ip: NetIP, l: Lowering, part: seq<Layer>, d: string, under: string, keyDir: string, ops: seq<Op>)
    requires |part| >= Arity(l) && Writes(ip, l, part, d, under, keyDir, ops)
    ensures Placements(ops) == OwedBy(ip, l, part, d, under)
  {
    hide NamesAddr, NamesEnd, MayCount, Counts, Serves, SaysPeer, Placements, Placing, OnDevice, Carried, NetOf;
    match l
    case IPIP =>
      var l1, r1 :| ops == [LinkAdd(d, Ipip(l1, r1))] + Placing(Carried(ip, part[1]), d);
      TailPlaces(LinkAdd(d, Ipip(l1, r1)), Carried(ip, part[1]), d);
    case GRE =>
      var l1, r1, key :| ops == [LinkAdd(d, Gre(l1, r1, key))] + Placing(Carried(ip, part[2]), d);
      TailPlaces(LinkAdd(d, Gre(l1, r1, key)), Carried(ip, part[2]), d);
    case GRETAP => OnePlaces(ops[0]);
    case VXLAN =>
      var link :| ops == Placing(NetOf(ip, part[0]), under) + [LinkAdd(d, link)];
      PlacingPlaces(NetOf(ip, part[0]), under);
      OnePlaces(LinkAdd(d, link));
      PlacementsAppend(Placing(NetOf(ip, part[0]), under), [LinkAdd(d, link)]);
    case VLAN => OnePlaces(ops[0]);
    case WireGuard =>
      var peer, listen: nat, remote: nat, end, net :|
        ops == WireGuardScript(ip, d, keyDir, peer, listen, remote, end, net) + Placing(Carried(ip, part[3]), d);
      var three := WireGuardScript(ip, d, keyDir, peer, listen, remote, end, net);
      PlacingPlaces(Carried(ip, part[3]), d);
      PlacementsAppend(three, Placing(Carried(ip, part[3]), d));
      assert three == [three[0]] + ([three[1]] + [three[2]]);
      OnePlaces(three[0]);
      OnePlaces(three[1]);
      OnePlaces(three[2]);
      PlacementsAppend([three[1]], [three[2]]);
      PlacementsAppend([three[0]], [three[1]] + [three[2]]);
  }

  lemma TailPlaces(op: Op, addrs: seq<string>, dev: string)
    requires op.LinkAdd?
    ensures Placements([op] + Placing(addrs, dev)) == OnDevice(addrs, dev)
  {
    OnePlaces(op);
    PlacingPlaces(addrs, dev);
    PlacementsAppend([op], Placing(addrs, dev));
  }

  lemma {:induction false} ChainPlaces(ip: NetIP, chain: seq<Tile>, sp: seq<Layer>, i: nat, devs: seq<string>,
                                       under: string, keyDir: string, ops: seq<Op>)
    requires WritesAll(ip, chain, sp, i, devs, under, keyDir, ops) && forall t :: t in chain ==> Usable(t)
    requires End(i, chain) <= |sp| && |devs| == |chain|
    ensures Placements(ops) == Owed(ip, chain, sp, i, devs, under)
    decreases chain
  {
    hide Writes, Placements, OwedBy, NamedFor;
    if chain == [] {
      assert Placements([]) == [] by { NothingPlaced(); }
    } else {
      var n := Next(i, chain[0]);
      var first, rest :| ops == first + rest && Writes(ip, chain[0].lower, sp[i..n], devs[0], under, keyDir, first)
           && WritesAll(ip, chain[1..], sp, n, devs[1..], devs[0], keyDir, rest);
      assert chain[0] in chain && forall t :: t in chain[1..] ==> t in chain;
      WrittenPlaces(ip, chain[0].lower, sp[i..n], devs[0], under, keyDir, first);
      ChainPlaces(ip, chain[1..], sp, n, devs[1..], devs[0], keyDir, rest);
      PlacementsAppend(first, rest);
    }
  }

  lemma NothingPlaced()
    ensures Placements([]) == []
  {
  }

  /** What a script that runs does to the machine's addresses. */
  lemma {:induction false} RunPlaces(ops: seq<Op>, m: Machine, m': Machine)
    requires Run(ops, m) == Some(m')
    ensures m'.addrs == m.addrs + (set p | p in Placements(ops))
    decreases ops
  {
    if ops != [] {
      RunPlaces(ops[1..], Step(ops[0], m).value, m');
      assert Placements(ops) == PlacedBy(ops[0]) + Placements(ops[1..]);
    }
  }

  /** Chain members are tiles of the registry. */
  lemma {:induction false} ChainUsable(tiles: seq<Tile>, sp: seq<Layer>, i: nat, chain: seq<Tile>)
    requires AllUsable(tiles) && Chain(tiles, sp, i, chain)
    ensures forall t :: t in chain ==> Usable(t)
    decreases chain
  {
    if chain != [] { ChainUsable(tiles, sp, Next(i, chain[0]), chain[1..]); }
  }

  /** The addresses of a rule, in order: what its tiles owe, and the leftover one on the last device. */
  ghost function RuleOwes(ip: NetIP, chain: seq<Tile>, sp: seq<Layer>, devs: seq<string>, base: string)
    : seq<(string, string)>
    requires End(0, chain) <= |sp| && |devs| == |chain| && forall t :: t in chain ==> Usable(t)
  {
    Owed(ip, chain, sp, 0, devs, base) + OnDevice(Leftover(ip, sp[End(0, chain)..]), LastOf(devs, base))
  }

  /** A rule places exactly the addresses its layers ask for, each on the device they ask for it on. */
  lemma {:induction false} RuleAddresses(ip: NetIP, tiles: seq<Tile>, sp: seq<Layer>, st: EnvState, m: Machine)
    returns (m': Machine, devs: seq<string>)
    requires AllUsable(tiles) && AllShapes(tiles) && sp != []
    requires Cover(ip, tiles, sp, st).0.Ok? && Rooted(m, st)
    ensures var (c, st') := Cover(ip, tiles, sp, st);
            var chain := Greedy(tiles, sp, 0);
            && st'.created == st.created + devs && |devs| == |chain| && End(0, chain) <= |sp|
            && (forall t :: t in chain ==> Usable(t))
            && Placements(c.value.ops) == RuleOwes(ip, chain, sp, devs, st.root)
            && Run(c.value.ops, m) == Some(m')
            && m'.addrs == m.addrs + (set p | p in RuleOwes(ip, chain, sp, devs, st.root))
  {
    hide Cover, Greedy, WritesAll, Placements, Placing, BringUp, OnDevice, Leftover, Run, AllUsable, AllShapes, Usable;
    var body;
    devs, body := RuleScript(ip, tiles, sp, st);
    var added;
    m', added := RuleRuns(ip, tiles, sp, st, m);
    var chain := Greedy(tiles, sp, 0);
    GreedyIsChain(tiles, sp, 0);
    ChainUsable(tiles, sp, 0, chain);
    var last := Leftover(ip, sp[End(0, chain)..]);
    WritesAllDevices(ip, chain, sp, 0, devs, st.dev, st.keyDir, body);
    ChainPlaces(ip, chain, sp, 0, devs, st.dev, st.keyDir, body);
    PlacingPlaces(last, LastOf(devs, st.dev));
    RaisingPlacesNothing(devs);
    PlacementsAppend(body, Placing(last, LastOf(devs, st.dev)));
    PlacementsAppend(body + Placing(last, LastOf(devs, st.dev)), BringUp(devs));
    RunPlaces(Cover(ip, tiles, sp, st).0.value.ops, m, m');
  }

  lemma {:induction false} WritesAllDevices(ip: NetIP, chain: seq<Tile>, sp: seq<Layer>, i: nat, devs: seq<string>,
                                            under: string, keyDir: string, ops: seq<Op>)
    requires WritesAll(ip, chain, sp, i, devs, under, keyDir, ops)
    ensures |devs| == |chain|
    decreases chain
  {
    hide Writes, NamedFor;
    if chain != [] {
      var n := Next(i, chain[0]);
      var first, rest :| ops == first + rest && Writes(ip, chain[0].lower, sp[i..n], devs[0], under, keyDir, first)
           && WritesAll(ip, chain[1..], sp, n, devs[1..], devs[0], keyDir, rest);
      WritesAllDevices(ip, chain[1..], sp, n, devs[1..], devs[0], keyDir, rest);
    }
  }

  // ---------------------------------------------------------------- two WireGuard peers

  /** The ports of two stacks are exchanged: each sends from the one the other sends to. */
  ghost predicate PortsExchanged(near: Layer, far: Layer, p: nat, q: nat) {
    && Counts(near, "src-port", p) && Counts(near, "dst-port", q)
    && Counts(far, "src-port", q) && Counts(far, "dst-port", p)
  }

  /** The port the first device of a WireGuard script listens on, and the endpoint its peer is sent to. */
  ghost predicate ListensAndSends(ops: seq<Op>, listen: nat, endpoint: Option<string>) {
    && |ops| >= 3 && ops[1].WgListen? && ops[1].port == listen
    && ops[2].WgPeer? && ops[2].endpoint == endpoint
  }

  /**
   Each of two WireGuard stacks with exchanged ports listens on the port that the other's endpoint names,
   wherever that endpoint is.
   */
  lemma {:induction false} PortsMeet(ip: NetIP, near: seq<Layer>, far: seq<Layer>, st: EnvState, st': EnvState,
                                     p: nat, q: nat)
    returns (here: Option<string>, there: Option<string>)
    requires |near| >= 4 && |far| >= 4 && PortsExchanged(near[1], far[1], p, q)
    requires WireGuardOps(ip, near, st).ops.Ok? && WireGuardOps(ip, far, st').ops.Ok?
    ensures ListensAndSends(WireGuardOps(ip, near, st).ops.value, p, HostPort(ip, there, q))
    ensures ListensAndSends(WireGuardOps(ip, far, st').ops.value, q, HostPort(ip, here, p))
    ensures if Silent(near[0], "dst") then there == None else NamesEnd(ip, near[0], "dst", there)
    ensures if Silent(far[0], "dst") then here == None else NamesEnd(ip, far[0], "dst", here)
  {
    there := Sends(ip, near, st, p, q);
    here := Sends(ip, far, st', q, p);
  }

  lemma Sends(ip: NetIP, part: seq<Layer>, st: EnvState, p: nat, q: nat) returns (end: Option<string>)
    requires |part| >= 4 && Counts(part[1], "src-port", p) && Counts(part[1], "dst-port", q)
    requires WireGuardOps(ip, part, st).ops.Ok?
    ensures ListensAndSends(WireGuardOps(ip, part, st).ops.value, p, HostPort(ip, end, q))
    ensures if Silent(part[0], "dst") then end == None else NamesEnd(ip, part[0], "dst", end)
  {
    hide WireGuardOps, Allocated, Counts, NamesEnd, NamesNet, HostPort, Carried, Placing, TextOf, Readable;
    WireGuardExactly(ip, part, st);
    var ops, d := WireGuardOps(ip, part, st).ops.value, Allocated(st, "wg").0.value;
    var peer, listen: nat, remote: nat, to, net :| SaysPeer(ip, part, peer, listen, remote, to, net)
      && ops == WireGuardScript(ip, d, st.keyDir, peer, listen, remote, to, net) + Placing(Carried(ip, part[3]), d);
    end := to;
    CountsOnce(part[1], "src-port", p, listen);
    NothingCounts(part[1], "dst-port");
    CountsOnce(part[1], "dst-port", q, remote);
  }
}
