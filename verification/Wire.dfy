/** What should be visible on the underlay, read from the same tree, and how it agrees with what is configured. */
module Wire {
  import opened Basics
  import opened Decimal
  import opened Sexp
  import opened Ast
  import opened Netip
  import opened Props
  import opened Env
  import opened Machine
  import opened Linux
  import opened Tile
  import opened Safety
  import opened Mirror
  import opened Selection
  import opened Devices
  import opened Said
  import opened Scripts

  datatype Label = OuterSource | OuterDestination | UDPPort | Encapsulation | VXLANID

  /** One thing that must be visible: what it is, what the tree said, and the text a capture must contain. */
  datatype Fact = Fact(kind: Label, value: string, pattern: string)

  datatype Expectation = Expectation(filter: string, facts: seq<Fact>)

  // ---------------------------------------------------------------- the prediction

  /** The facts a tunnel header adds. */
  function TunnelFactsOf(n: Layer): Result<seq<Fact>> {
    if n.name == "vxlan" then
      var vni :- VNI(n);
      Ok([Fact(Encapsulation, "VXLAN", "VXLAN")] + VNIFacts(vni.Get()))
    else if n.name == "geneve" then Ok([Fact(Encapsulation, "Geneve", "Geneve")])
    else if n.name == "wireguard" then Ok([Fact(Encapsulation, "WireGuard (opaque UDP)", "UDP")])
    else Ok([])
  }

  function VNIFacts(vni: Option<nat>): seq<Fact> {
    match vni case None => [] case Some(v) => [Fact(VXLANID, Dec(v), "vni " + Dec(v))]
  }

  function SourceFacts(src: Option<string>): seq<Fact> {
    match src case None => [] case Some(a) => [Fact(OuterSource, a, a + ".")]
  }

  /** Where the packets go, with the port a capture shows after the address, if there is one. */
  function DestFacts(dst: Option<string>, port: Option<nat>): seq<Fact> {
    match dst
    case None => []
    case Some(a) =>
      if a == "" then []
      else [Fact(OuterDestination, a, match port case None => "> " + a case Some(p) => "> " + a + "." + Dec(p))]
  }

  /** The address a reading gives, printed. */
  function Printed(r: Reading<Addr>): Option<string> {
    match r.Get() case None => None case Some(a) => Some(a.text)
  }

  /** What the layer under the outer header predicts, given the printed outer destination. */
  function NextFacts(sp: seq<Layer>, dst: Option<string>): Result<Expectation>
    requires |sp| >= 2
  {
    var next := sp[1];
    if next.name == "udp" then
      var port :- DstPort(next);
      if !port.Concrete? then Err(Unplaced(NoPrediction))
      else
        var p := Dec(port.value);
        var tunnel :- if |sp| > 2 then TunnelFactsOf(sp[2]) else Ok([]);
        Ok(Expectation("udp port " + p, [Fact(UDPPort, p, p)] + DestFacts(dst, Some(port.value)) + tunnel))
    else if next.name == "gre" then
      Ok(Expectation("proto gre", [Fact(Encapsulation, "GRE", "GREv0")] + DestFacts(dst, None)))
    else if next.name == "ipv4" then
      Ok(Expectation("proto 4", [Fact(Encapsulation, "IP-in-IP", "IP")] + DestFacts(dst, None)))
    else Err(Unplaced(NoPrediction))
  }

  function Predict(ip: NetIP, sp: seq<Layer>): Result<Expectation> {
    if sp == [] then Err(Unplaced(EmptySpine))
    else if sp[0].name != "ipv4" && sp[0].name != "ipv6" then Err(Unplaced(NoPrediction))
    else
      var src :- Src(ip, sp[0]);
      var dst :- Dst(ip, sp[0]);
      var source := SourceFacts(Printed(src));
      if |sp| < 2 then Ok(Expectation("ip", source))
      else
        var e :- NextFacts(sp, Printed(dst));
        Ok(e.(facts := source + e.facts))
  }

  /** Read a spine and predict the outer headers, fact by fact. */
  method Expect(ip: NetIP, sp: seq<Layer>) returns (r: Result<Expectation>)
    ensures r == Predict(ip, sp)
  {
    hide NextFacts;
    if sp == [] {
      return Err(Unplaced(EmptySpine));
    }
    var facts := [];
    var outer := sp[0];
    if outer.name == "ethernet" {
      return Err(Unplaced(NoPrediction));
    }
    if outer.name != "ipv4" && outer.name != "ipv6" {
      return Err(Unplaced(NoPrediction));
    }
    var src :- Src(ip, outer);
    if src.Concrete? {
      facts := facts + [Fact(OuterSource, src.value.text, src.value.text + ".")];
    }
    assert facts == SourceFacts(Printed(src));
    var dst :- Dst(ip, outer);
    var dstAddr := "";
    if dst.Concrete? {
      dstAddr := dst.value.text;
    }
    if |sp| < 2 {
      return Ok(Expectation("ip", facts));
    }
    r := ExpectNext(facts, sp, dstAddr, Printed(dst));
  }

  /** The layer under the outer header decides the shape. */
  method ExpectNext(source: seq<Fact>, sp: seq<Layer>, dstAddr: string, ghost dst: Option<string>)
    returns (r: Result<Expectation>)
    requires |sp| >= 2 && dstAddr == (match dst case None => "" case Some(a) => a)
    ensures r == match NextFacts(sp, dst) case Err(e) => Err(e) case Ok(e) => Ok(e.(facts := source + e.facts))
  {
    hide TunnelFactsOf;
    var facts := source;
    var filter;
    var next := sp[1];
    if next.name == "udp" {
      var port :- DstPort(next);
      if !port.Concrete? {
        return Err(Unplaced(NoPrediction));
      }
      var p := port.value;
      filter := "udp port " + Dec(p);
      facts := facts + [Fact(UDPPort, Dec(p), Dec(p))];
      if dstAddr != "" {
        facts := facts + [Fact(OuterDestination, dstAddr, "> " + dstAddr + "." + Dec(p))];
      }
      ghost var head := [Fact(UDPPort, Dec(p), Dec(p))] + DestFacts(dst, Some(p));
      assert facts == source + head;
      assert head + [] == head;
      if |sp| > 2 {
        facts :- TunnelFacts(facts, sp[2]);
        ghost var tunnel := TunnelFactsOf(sp[2]).value;
        assert (source + head) + tunnel == source + (head + tunnel);
      }
    } else if next.name == "vlan" {
      return Err(Unplaced(NoPrediction));
    } else if next.name == "gre" {
      filter := "proto gre";
      facts := facts + [Fact(Encapsulation, "GRE", "GREv0")];
      if dstAddr != "" {
        facts := facts + [Fact(OuterDestination, dstAddr, "> " + dstAddr)];
      }
      assert facts == source + ([Fact(Encapsulation, "GRE", "GREv0")] + DestFacts(dst, None));
    } else if next.name == "ipv4" {
      filter := "proto 4";
      facts := facts + [Fact(Encapsulation, "IP-in-IP", "IP")];
      if dstAddr != "" {
        facts := facts + [Fact(OuterDestination, dstAddr, "> " + dstAddr)];
      }
      assert facts == source + ([Fact(Encapsulation, "IP-in-IP", "IP")] + DestFacts(dst, None));
    } else {
      return Err(Unplaced(NoPrediction));
    }
    return Ok(Expectation(filter, facts));
  }

  method TunnelFacts(facts: seq<Fact>, n: Layer) returns (r: Result<seq<Fact>>)
    ensures r == match TunnelFactsOf(n) case Err(e) => Err(e) case Ok(more) => Ok(facts + more)
  {
    var out := facts;
    if n.name == "vxlan" {
      out := out + [Fact(Encapsulation, "VXLAN", "VXLAN")];
      var vni :- VNI(n);
      if vni.Concrete? {
        out := out + [Fact(VXLANID, Dec(vni.value), "vni " + Dec(vni.value))];
      }
    } else if n.name == "geneve" {
      out := out + [Fact(Encapsulation, "Geneve", "Geneve")];
    } else if n.name == "wireguard" {
      out := out + [Fact(Encapsulation, "WireGuard (opaque UDP)", "UDP")];
    }
    assert TunnelFactsOf(n).Ok? ==> out == facts + TunnelFactsOf(n).value;
    return Ok(out);
  }

  // ---------------------------------------------------------------- the readings agree

  /** The address a VXLAN device sends to, whether a peer or a group. */
  function DestAddr(d: Dest): Option<string> {
    match d
    case Remote(a) => Some(a)
    case Group(a) => Some(a)
    case Learned => None
  }

  /**
   What must be visible when packets go from `source` to `dst`, over a UDP port if there is one, in the given
   encapsulation, perhaps with a VNI. What is not known shows nothing.
   */
  function Shown(filter: string, source: Option<string>, dst: Option<string>, port: Option<nat>,
                 encapsulation: seq<Fact>, id: Option<nat>): Expectation
  {
    var from := match source case None => [] case Some(a) => [Fact(OuterSource, a, a + ".")];
    var to := match dst
              case None => []
              case Some(a) =>
                if a == "" then []
                else [Fact(OuterDestination, a, "> " + a + match port case None => "" case Some(p) => "." + Dec(p))];
    match port
    case None => Expectation(filter, from + encapsulation + to)
    case Some(p) =>
      var vni := match id case None => [] case Some(v) => [Fact(VXLANID, Dec(v), "vni " + Dec(v))];
      Expectation(filter, from + [Fact(UDPPort, Dec(p), Dec(p))] + to + encapsulation + vni)
  }

  function InIP(): seq<Fact> { [Fact(Encapsulation, "IP-in-IP", "IP")] }

  function InGRE(): seq<Fact> { [Fact(Encapsulation, "GRE", "GREv0")] }

  function InVXLAN(): seq<Fact> { [Fact(Encapsulation, "VXLAN", "VXLAN")] }

  function InGeneve(): seq<Fact> { [Fact(Encapsulation, "Geneve", "Geneve")] }

  function InWireGuard(): seq<Fact> { [Fact(Encapsulation, "WireGuard (opaque UDP)", "UDP")] }

  function UDPFilter(port: nat): string { "udp port " + Dec(port) }

  /** What a device says about the wire: the prediction, from the emitted link alone. */
  function ExpectationOf(link: Link): Expectation
    requires !link.Vlan? && !link.Wireguard?
  {
    match link
    case Ipip(l, r) => Shown("proto 4", Some(l), Some(r), None, InIP(), None)
    case Gre(l, r, _) => Shown("proto gre", Some(l), Some(r), None, InGRE(), None)
    case Gretap(l, r, _) => Shown("proto gre", Some(l), Some(r), None, InGRE(), None)
    case Vxlan(id, source, dest, port, _) =>
      Shown(UDPFilter(port), source, DestAddr(dest), Some(port), InVXLAN(), id)
  }

  /** The prediction's own way of putting the same facts together. */
  lemma ShownUDP(source: Option<string>, dst: Option<string>, port: nat, encapsulation: seq<Fact>, id: Option<nat>)
    ensures Shown(UDPFilter(port), source, dst, Some(port), encapsulation, id)
         == Expectation("udp port " + Dec(port), SourceFacts(source)
              + ([Fact(UDPPort, Dec(port), Dec(port))] + DestFacts(dst, Some(port)) + (encapsulation + VNIFacts(id))))
  {
    var from, sent, to, vni := SourceFacts(source), [Fact(UDPPort, Dec(port), Dec(port))],
      DestFacts(dst, Some(port)), VNIFacts(id);
    if dst.Some? { assert "> " + dst.value + ("." + Dec(port)) == "> " + dst.value + "." + Dec(port); }
    Regrouped(from, sent, to, encapsulation, vni);
  }

  lemma Regrouped(a: seq<Fact>, b: seq<Fact>, c: seq<Fact>, d: seq<Fact>, e: seq<Fact>)
    ensures a + b + c + d + e == a + (b + c + (d + e))
  {
  }

  lemma ShownBare(filter: string, source: Option<string>, dst: Option<string>, encapsulation: seq<Fact>)
    ensures Shown(filter, source, dst, None, encapsulation, None)
         == Expectation(filter, SourceFacts(source) + (encapsulation + DestFacts(dst, None)))
  {
    if dst.Some? { assert "> " + dst.value + "" == "> " + dst.value; }
    assert SourceFacts(source) + encapsulation + DestFacts(dst, None)
        == SourceFacts(source) + (encapsulation + DestFacts(dst, None));
  }

  // ---------------------------------------------------------------- fact by fact

  /** The facts of one kind. */
  function Only(facts: seq<Fact>, kind: Label): seq<Fact> {
    if facts == [] then [] else (if facts[0].kind == kind then [facts[0]] else []) + Only(facts[1..], kind)
  }

  lemma {:induction false} OnlyAppend(a: seq<Fact>, b: seq<Fact>, kind: Label)
    ensures Only(a + b, kind) == Only(a, kind) + Only(b, kind)
    decreases a
  {
    if a == [] {
      assert a + b == b;
    } else {
      assert (a + b)[0] == a[0] && (a + b)[1..] == a[1..] + b;
      OnlyAppend(a[1..], b, kind);
    }
  }

  /** Each thing that is known shows exactly one fact, with its value and the text to look for; nothing else does. */
  ghost predicate FactByFact(e: Expectation, source: Option<string>, dst: Option<string>, port: Option<nat>,
                             encapsulation: seq<Fact>, id: Option<nat>)
  {
    && Only(e.facts, OuterSource) == (match source case None => [] case Some(a) => [Fact(OuterSource, a, a + ".")])
    && Only(e.facts, OuterDestination) ==
         (if dst == None || dst == Some("") then []
          else [Fact(OuterDestination, dst.value,
                     "> " + dst.value + if port == None then "" else "." + Dec(port.value))])
    && Only(e.facts, UDPPort) == (match port case None => [] case Some(p) => [Fact(UDPPort, Dec(p), Dec(p))])
    && Only(e.facts, VXLANID) ==
         (if id == None || port == None then [] else [Fact(VXLANID, Dec(id.value), "vni " + Dec(id.value))])
    && Only(e.facts, Encapsulation) == encapsulation
  }

  lemma {:induction false} ShownFacts(filter: string, source: Option<string>, dst: Option<string>, port: Option<nat>,
                                      encapsulation: seq<Fact>, id: Option<nat>)
    requires |encapsulation| <= 1 && forall f :: f in encapsulation ==> f.kind == Encapsulation
    ensures FactByFact(Shown(filter, source, dst, port, encapsulation, id), source, dst, port, encapsulation, id)
  {
    var from := match source case None => [] case Some(a) => [Fact(OuterSource, a, a + ".")];
    var to := match dst
              case None => []
              case Some(a) =>
                if a == "" then []
                else [Fact(OuterDestination, a, "> " + a + match port case None => "" case Some(p) => "." + Dec(p))];
    var sent := match port case None => [] case Some(p) => [Fact(UDPPort, Dec(p), Dec(p))];
    var vni := if port == None || id == None then [] else [Fact(VXLANID, Dec(id.value), "vni " + Dec(id.value))];
    FiveFacts(from, sent, to, encapsulation, vni);
  }

  ghost predicate AtMostA(kind: Label, facts: seq<Fact>) {
    |facts| <= 1 && forall f :: f in facts ==> f.kind == kind
  }

  lemma FiveFacts(a: seq<Fact>, b: seq<Fact>, c: seq<Fact>, d: seq<Fact>, e: seq<Fact>)
    requires AtMostA(OuterSource, a) && AtMostA(UDPPort, b) && AtMostA(OuterDestination, c)
    requires AtMostA(Encapsulation, d) && AtMostA(VXLANID, e)
    ensures Only(a + b + c + d + e, OuterSource) == Only(a + d + c, OuterSource) == a
    ensures Only(a + b + c + d + e, UDPPort) == b && Only(a + d + c, UDPPort) == []
    ensures Only(a + b + c + d + e, OuterDestination) == Only(a + d + c, OuterDestination) == c
    ensures Only(a + b + c + d + e, Encapsulation) == Only(a + d + c, Encapsulation) == d
    ensures Only(a + b + c + d + e, VXLANID) == e && Only(a + d + c, VXLANID) == []
  {
    hide Only;
    forall kind: Label
      ensures Only(a + b + c + d + e, kind)
           == Only(a, kind) + Only(b, kind) + Only(c, kind) + Only(d, kind) + Only(e, kind)
      ensures Only(a + d + c, kind) == Only(a, kind) + Only(d, kind) + Only(c, kind)
    {
      OnlyParts(a, b, c, d, e, kind);
    }
    OnlyA(OuterSource, a);
    OnlyA(UDPPort, b);
    OnlyA(OuterDestination, c);
    OnlyA(Encapsulation, d);
    OnlyA(VXLANID, e);
  }

  lemma OnlyParts(a: seq<Fact>, b: seq<Fact>, c: seq<Fact>, d: seq<Fact>, e: seq<Fact>, kind: Label)
    ensures Only(a + b + c + d + e, kind)
         == Only(a, kind) + Only(b, kind) + Only(c, kind) + Only(d, kind) + Only(e, kind)
    ensures Only(a + d + c, kind) == Only(a, kind) + Only(d, kind) + Only(c, kind)
  {
    hide Only;
    OnlyAppend(a + b + c + d, e, kind);
    OnlyAppend(a + b + c, d, kind);
    OnlyAppend(a + b, c, kind);
    OnlyAppend(a, b, kind);
    OnlyAppend(a + d, c, kind);
    OnlyAppend(a, d, kind);
  }

  lemma OnlyA(kind: Label, facts: seq<Fact>)
    requires AtMostA(kind, facts)
    ensures forall other :: Only(facts, other) == if other == kind then facts else []
  {
    if facts != [] { assert facts == [facts[0]] && facts[1..] == [] && facts[0] in facts; }
  }

  /** A field read as a bare address and as an endpoint gives the same address: one with a length is no bare address. */
  lemma SourceReading(ip: NetIP, n: Layer)
    requires PrefixLaw(ip) && Has(n.props, "src") && ReadEndpoint(ip, n, "src").Ok?
    ensures Src(ip, n).Ok? ==> Printed(Src(ip, n).value) == Named(ReadEndpoint(ip, n, "src").value)
    ensures var v := Lookup(n.props, "src").value.val;
            Src(ip, n).Ok? <==> v.Is(Star) || '/' !in v.Spelling()
  {
  }

  lemma DestReading(ip: NetIP, n: Layer)
    requires PrefixLaw(ip) && Has(n.props, "dst") && ReadEndpoint(ip, n, "dst").Ok?
    ensures Dst(ip, n).Ok? ==> Printed(Dst(ip, n).value) == Named(ReadEndpoint(ip, n, "dst").value)
    ensures var v := Lookup(n.props, "dst").value.val;
            Dst(ip, n).Ok? <==> v.Is(Star) || '/' !in v.Spelling()
  {
  }

  /** Neither end of the outer layer is given with a length. */
  predicate BareOuter(n: Layer)
    requires TwoEnded(n.props)
  {
    var s, d := Lookup(n.props, "src").value.val, Lookup(n.props, "dst").value.val;
    (s.Is(Star) || '/' !in s.Spelling()) && (d.Is(Star) || '/' !in d.Spelling())
  }

  /** A VXLAN stack that lowers has a prediction exactly when its outer ends are bare, and then the device tells it. */
  lemma VXLANReadings(ip: NetIP, sp: seq<Layer>, under: string)
    requires PrefixLaw(ip) && |sp| >= 3 && sp[0].name == "ipv4" && sp[1].name == "udp" && sp[2].name == "vxlan"
    requires ReadVXLANFields(ip, sp).Ok?
    ensures VxlanLink(ip, ReadVXLANFields(ip, sp).value, under).Vxlan?
    ensures TwoEnded(sp[0].props) && (Predict(ip, sp).Ok? <==> BareOuter(sp[0]))
    ensures Predict(ip, sp).Ok? ==> Predict(ip, sp).value == ExpectationOf(VxlanLink(ip, ReadVXLANFields(ip,
        sp).value, under))
  {
    hide ReadVXLANFields, ReadEndpoint, VNI, DstPort, Src, Dst, DestFacts, VNIFacts, SourceFacts, Printed, Shown;
    FieldsAre(ip, sp);
    SourceReading(ip, sp[0]);
    DestReading(ip, sp[0]);
    if Predict(ip, sp).Ok? {
      var f := ReadVXLANFields(ip, sp).value;
      ShownUDP(Printed(Src(ip, sp[0]).value), Printed(Dst(ip, sp[0]).value), f.port, InVXLAN(), f.vni);
    }
  }

  lemma TunnelReadings(ip: NetIP, n: Layer)
    requires Endpoints(ip, n).Ok?
    ensures Src(ip, n).Ok? && Printed(Src(ip, n).value) == Some(Endpoints(ip, n).value.0)
    ensures Dst(ip, n).Ok? && Printed(Dst(ip, n).value) == Some(Endpoints(ip, n).value.1)
  {
  }

  /** An endpoint written by the lowering is the address and the port put together. */
  lemma JoinedIs(ip: NetIP, dst: Option<string>, port: nat)
    ensures dst.Some? ==> HostPort(ip, dst, port) == Some(JoinHostPort(ip, dst.value, port))
  {
    if dst.Some? {
      assert "[" + dst.value + "]:" + Dec(port) == ("[" + dst.value + "]") + (":" + Dec(port));
      assert dst.value + ":" + Dec(port) == dst.value + (":" + Dec(port));
    }
  }

  /** The address written bare under a key, printed, if there is one and not a star. */
  ghost predicate MayName(ip: NetIP, n: Layer, key: string, a: Option<string>) {
    match a
    case None => Silent(n, key) || Varies(n, key)
    case Some(text) => exists addr :: NamesAddr(ip, n, key, addr) && text == addr.text
  }

  lemma AddrIs(ip: NetIP, n: Layer, key: string)
    ensures var r := Get(n, key, v => ParseAddr(ip, v));
            && (r.Ok? <==> exists a :: MayName(ip, n, key, a))
            && (r.Ok? ==> MayName(ip, n, key, Printed(r.value)))
            && (forall a :: MayName(ip, n, key, a) ==> r.Ok? && a == Printed(r.value))
  {
    var r := Get(n, key, v => ParseAddr(ip, v));
    if r.Ok? && r.value.Concrete? { assert NamesAddr(ip, n, key, r.value.value); }
    if r.Ok? { assert MayName(ip, n, key, Printed(r.value)); }
  }

  lemma WireGuardReadings(ip: NetIP, sp: seq<Layer>) returns (source: Option<string>, dst: Option<string>)
    requires PrefixLaw(ip) && |sp| >= 4 && sp[0].name == "ipv4" && sp[1].name == "udp" && sp[2].name == "wireguard"
    requires ReadWgFields(ip, sp).Ok? && Predict(ip, sp).Ok?
    ensures var f := ReadWgFields(ip, sp).value;
            && Predict(ip, sp).value
               == Shown(UDPFilter(f.remotePort), source, dst, Some(f.remotePort), InWireGuard(), None)
            && WgEndpoint(ip, f) == HostPort(ip, dst, f.remotePort)
            && MayName(ip, sp[0], "src", source) && MayName(ip, sp[0], "dst", dst)
  {
    hide ReadEndpoint, DstPort, Src, Dst, DestFacts, SourceFacts, PeerName, SrcPort, SrcPrefix, Printed, Shown;
    source, dst := Printed(Src(ip, sp[0]).value), Printed(Dst(ip, sp[0]).value);
    AddrsOnce(ip, sp[0]);
    var f := ReadWgFields(ip, sp).value;
    ShownUDP(source, dst, f.remotePort, InWireGuard(), None);
    assert InWireGuard() + VNIFacts(None) == InWireGuard();
    JoinedIs(ip, dst, f.remotePort);
    if Has(sp[0].props, "dst") {
      DestReading(ip, sp[0]);
      DestPresent(ip, sp[0]);
    } else {
      DestAbsent(ip, sp[0]);
    }
  }

  lemma DestAbsent(ip: NetIP, n: Layer)
    requires !Has(n.props, "dst")
    ensures Dst(ip, n).Ok? && Printed(Dst(ip, n).value) == None
    ensures ReadEndpoint(ip, n, "dst").Ok? && ReadEndpoint(ip, n, "dst").value.absent
  {
  }

  lemma DestPresent(ip: NetIP, n: Layer)
    requires Has(n.props, "dst") && ReadEndpoint(ip, n, "dst").Ok?
    ensures !ReadEndpoint(ip, n, "dst").value.absent
  {
  }

  // ---------------------------------------------------------------- whole rules

  /** The script begins with a device whose parameters tell the expectation. */
  ghost predicate Told(ip: NetIP, ops: seq<Op>, e: Expectation) {
    && Added(ops) != []
    && match Added(ops)[0].1
       case Vlan(_, _) => false
       case Wireguard =>
         exists key, allowed, source, dst, port ::
           WgPeer(Added(ops)[0].0, key, HostPort(ip, dst, port), allowed) in ops
           && e == Shown(UDPFilter(port), source, dst, Some(port), InWireGuard(), None)
       case link => e == ExpectationOf(link)
  }

  lemma ToldAppend(ip: NetIP, a: seq<Op>, b: seq<Op>, e: Expectation)
    requires Told(ip, a, e)
    ensures Told(ip, a + b, e)
  {
    hide ExpectationOf, Shown, HostPort, Added;
    AddedAppend(a, b);
  }

  lemma ToldOne(ip: NetIP, ops: seq<Op>, d: string, link: Link, e: Expectation)
    requires Added(ops) == [(d, link)] && !link.Vlan? && !link.Wireguard? && e == ExpectationOf(link)
    ensures Told(ip, ops, e)
  {
    hide ExpectationOf;
  }

  lemma IPIPTold(ip: NetIP, sp: seq<Layer>, st: EnvState)
    requires |sp| >= 2 && sp[0].name == "ipv4" && sp[1].name == "ipv4" && IPIPOps(ip, sp, st).ops.Ok?
    ensures Predict(ip, sp).Ok? && Told(ip, IPIPOps(ip, sp, st).ops.value, Predict(ip, sp).value)
  {
    hide IPIPOps, Endpoints, Allocated, Src, Dst, Told, Printed, Shown, SourceFacts, DestFacts;
    var d, l, r := IPIPAdds(ip, sp, st);
    TunnelReadings(ip, sp[0]);
    ShownBare("proto 4", Some(l), Some(r), InIP());
    ToldOne(ip, IPIPOps(ip, sp, st).ops.value, d, Ipip(l, r), Predict(ip, sp).value);
  }

  lemma GRETold(ip: NetIP, sp: seq<Layer>, st: EnvState)
    requires |sp| >= 3 && sp[0].name == "ipv4" && sp[1].name == "gre" && GREOps(ip, sp, st).ops.Ok?
    ensures Predict(ip, sp).Ok? && Told(ip, GREOps(ip, sp, st).ops.value, Predict(ip, sp).value)
  {
    hide GREOps, Endpoints, Allocated, Src, Dst, Told, Printed, TunnelKey, Shown, SourceFacts, DestFacts;
    var d, l, r, key := GREAdds(ip, sp, st);
    TunnelReadings(ip, sp[0]);
    ShownBare("proto gre", Some(l), Some(r), InGRE());
    ToldOne(ip, GREOps(ip, sp, st).ops.value, d, Gre(l, r, key), Predict(ip, sp).value);
  }

  lemma GRETAPTold(ip: NetIP, sp: seq<Layer>, st: EnvState)
    requires |sp| >= 3 && sp[0].name == "ipv4" && sp[1].name == "gre" && GRETAPOps(ip, sp, st).ops.Ok?
    ensures Predict(ip, sp).Ok? && Told(ip, GRETAPOps(ip, sp, st).ops.value, Predict(ip, sp).value)
  {
    hide GRETAPOps, Endpoints, Allocated, Src, Dst, Told, Printed, TunnelKey, Shown, SourceFacts, DestFacts;
    var d, l, r, key := GRETAPAdds(ip, sp, st);
    TunnelReadings(ip, sp[0]);
    ShownBare("proto gre", Some(l), Some(r), InGRE());
    ToldOne(ip, GRETAPOps(ip, sp, st).ops.value, d, Gretap(l, r, key), Predict(ip, sp).value);
  }

  lemma VXLANTold(ip: NetIP, sp: seq<Layer>, st: EnvState)
    requires PrefixLaw(ip) && |sp| >= 3 && sp[0].name == "ipv4" && sp[1].name == "udp" && sp[2].name == "vxlan"
    requires VXLANOps(ip, sp, st).ops.Ok? && Predict(ip, sp).Ok?
    ensures Told(ip, VXLANOps(ip, sp, st).ops.value, Predict(ip, sp).value)
  {
    hide VXLANOps, ReadVXLANFields, VxlanName, VxlanLink, Told, Predict, ExpectationOf;
    var d, f := VXLANAdds(ip, sp, st);
    VXLANReadings(ip, sp, st.dev);
    ToldOne(ip, VXLANOps(ip, sp, st).ops.value, d, VxlanLink(ip, f, st.dev), Predict(ip, sp).value);
  }

  lemma WireGuardTold(ip: NetIP, sp: seq<Layer>, st: EnvState)
    requires PrefixLaw(ip) && |sp| >= 4 && sp[0].name == "ipv4" && sp[1].name == "udp" && sp[2].name == "wireguard"
    requires WireGuardOps(ip, sp, st).ops.Ok? && Predict(ip, sp).Ok?
    ensures Told(ip, WireGuardOps(ip, sp, st).ops.value, Predict(ip, sp).value)
  {
    hide ReadWgFields, AddrOps, Allocated, Predict, HostPort, Shown, WgEndpoint, Added;
    var d := WireGuardAdds(ip, sp, st);
    var source, dst := WireGuardReadings(ip, sp);
    var f := ReadWgFields(ip, sp).value;
    var ops := WireGuardOps(ip, sp, st).ops.value;
    assert ops[2] == WgPeer(d, PeerKey(st.keyDir, f.peer), HostPort(ip, dst, f.remotePort), f.overlay.masked);
    assert ops[2] in ops;
  }

  /** A prediction looks no further than the third layer, and under IP or GRE no further than the second. */
  lemma PredictLocal(ip: NetIP, sp: seq<Layer>, n: nat)
    requires 2 <= n <= |sp| && (n == 2 ==> sp[1].name != "udp")
    ensures Predict(ip, sp[..n]) == Predict(ip, sp)
  {
    hide Src, Dst, DstPort, TunnelFactsOf;
  }

  /** What a shipped tile's pattern says about the layers it matches. */
  lemma PatternNames(t: Tile, sp: seq<Layer>)
    requires t in Shipped() && Matches(t, sp, 0)
    ensures 2 <= |t.pattern| <= |sp| && (|t.pattern| == 2 ==> sp[1].name != "udp")
    ensures match t.lower
            case IPIP => |t.pattern| == 2 && sp[0].name == "ipv4" && sp[1].name == "ipv4"
            case GRE => |t.pattern| == 3 && sp[0].name == "ipv4" && sp[1].name == "gre"
            case GRETAP => |t.pattern| == 3 && sp[0].name == "ipv4" && sp[1].name == "gre"
            case VXLAN => |t.pattern| == 4 && sp[0].name == "ipv4" && sp[1].name == "udp" && sp[2].name == "vxlan"
            case VLAN => sp[0].name == "ethernet"
            case WireGuard => |t.pattern| == 4 && sp[0].name == "ipv4" && sp[1].name == "udp"
                && sp[2].name == "wireguard"
            case _ => false
  {
    assert forall k :: 0 <= k < |t.pattern| ==> sp[0 + k].name == t.pattern[k];
    assert "ipv4"[0] == 'i' && "udp"[0] == 'u' && "vlan"[0] == 'v';
    assert sp[0 + 0].name == t.pattern[0] && sp[0 + 1].name == t.pattern[1];
    if |t.pattern| > 2 { assert sp[0 + 2].name == t.pattern[2]; }
  }

  /** The first of the shipped tiles tells the prediction of the whole spine. */
  lemma FirstTileTells(ip: NetIP, t: Tile, sp: seq<Layer>, st: EnvState)
    requires PrefixLaw(ip) && t in Shipped() && Usable(t) && Matches(t, sp, 0) && Predict(ip, sp).Ok?
    requires Lower(ip, t.lower, sp[..|t.pattern|], st).ops.Ok?
    ensures Told(ip, Lower(ip, t.lower, sp[..|t.pattern|], st).ops.value, Predict(ip, sp).value)
  {
    hide Told, Predict, IPIPOps, GREOps, GRETAPOps, VXLANOps, VLANOps, WireGuardOps, Shipped, Matches;
    PatternNames(t, sp);
    var sub := sp[..|t.pattern|];
    PredictLocal(ip, sp, |t.pattern|);
    match t.lower
    case IPIP => IPIPTold(ip, sub, st);
    case GRE => GRETold(ip, sub, st);
    case GRETAP => GRETAPTold(ip, sub, st);
    case VXLAN => VXLANTold(ip, sub, st);
    case VLAN => EthernetUnpredicted(ip, sp);
    case WireGuard => WireGuardTold(ip, sub, st);
  }

  lemma EthernetUnpredicted(ip: NetIP, sp: seq<Layer>)
    requires sp != [] && sp[0].name == "ethernet"
    ensures Predict(ip, sp).Err?
  {
  }

  /** A cover's script begins with what its first tile lowers to. */
  lemma CoverBegins(ip: NetIP, tiles: seq<Tile>, sp: seq<Layer>, st: EnvState)
    returns (t: Tile, first: seq<Op>, rest: seq<Op>)
    requires AllUsable(tiles) && AllShapes(tiles) && sp != [] && Cover(ip, tiles, sp, st).0.Ok?
    ensures t in tiles && Usable(t) && Matches(t, sp, 0) && |t.pattern| <= |sp|
    ensures Lower(ip, t.lower, sp[..|t.pattern|], st).ops == Ok(first)
    ensures Cover(ip, tiles, sp, st).0.value.ops == first + rest
  {
    hide Lower, LowerChain, Cover, BringUp, IsShape, Greedy;
    var low, addr, c := CoverParts(ip, tiles, sp, st);
    var chain := Greedy(tiles, sp, 0);
    var head := ChainHead(ip, tiles, chain, sp, 0, st);
    t, first := chain[0], head.ops.value;
    var more := LowerChain(ip, tiles, chain[1..], sp, Next(0, t), head.env).ops.value;
    rest := more + addr + BringUp(Since(low.env.created, |st.created|));
    assert c.ops == first + rest;
  }

  /** Whenever a spine has a cover and a prediction, the prediction can be read off the script. */
  lemma {:induction false} ReadingsAgree(ip: NetIP, sp: seq<Layer>, st: EnvState)
    requires PrefixLaw(ip) && sp != [] && Predict(ip, sp).Ok?
    ensures AllUsable(Shipped())
    ensures Cover(ip, Shipped(), sp, st).0.Ok?
        ==> Told(ip, Cover(ip, Shipped(), sp, st).0.value.ops, Predict(ip, sp).value)
  {
    hide Told, Predict, Lower, Shipped, Usable, Cover, Matches;
    ShippedUsable();
    if Cover(ip, Shipped(), sp, st).0.Ok? {
      ShippedShapes();
      var t, first, rest := CoverBegins(ip, Shipped(), sp, st);
      FirstTileTells(ip, t, sp, st);
      ToldAppend(ip, first, rest, Predict(ip, sp).value);
    }
  }

  /** The same, fact by fact: what the first device's parameters say is all that is predicted, with equal values. */
  ghost predicate ToldByFacts(ip: NetIP, ops: seq<Op>, e: Expectation) {
    && Added(ops) != []
    && match Added(ops)[0].1
       case Vlan(_, _) => false
       case Ipip(l, r) => FactByFact(e, Some(l), Some(r), None, InIP(), None)
       case Gre(l, r, _) => FactByFact(e, Some(l), Some(r), None, InGRE(), None)
       case Gretap(l, r, _) => FactByFact(e, Some(l), Some(r), None, InGRE(), None)
       case Vxlan(id, source, dest, port, _) => FactByFact(e, source, DestAddr(dest), Some(port), InVXLAN(), id)
       case Wireguard =>
         exists key, allowed, source, dst, port ::
           WgPeer(Added(ops)[0].0, key, HostPort(ip, dst, port), allowed) in ops
           && FactByFact(e, source, dst, Some(port), InWireGuard(), None)
  }

  lemma {:induction false} FactsAgree(ip: NetIP, sp: seq<Layer>, st: EnvState)
    requires PrefixLaw(ip) && sp != [] && Predict(ip, sp).Ok?
    ensures AllUsable(Shipped())
    ensures Cover(ip, Shipped(), sp, st).0.Ok?
        ==> ToldByFacts(ip, Cover(ip, Shipped(), sp, st).0.value.ops, Predict(ip, sp).value)
  {
    hide Predict, Shipped, Cover, FactByFact, Shown, HostPort, Added, AllUsable;
    ReadingsAgree(ip, sp, st);
    if Cover(ip, Shipped(), sp, st).0.Ok? {
      ToldInFacts(ip, Cover(ip, Shipped(), sp, st).0.value.ops, Predict(ip, sp).value);
    }
  }

  lemma ToldInFacts(ip: NetIP, ops: seq<Op>, e: Expectation)
    requires Told(ip, ops, e)
    ensures ToldByFacts(ip, ops, e)
  {
    hide FactByFact, Shown, HostPort, Added;
    match Added(ops)[0].1
    case Ipip(l, r) => ShownFacts("proto 4", Some(l), Some(r), None, InIP(), None);
    case Gre(l, r, _) => ShownFacts("proto gre", Some(l), Some(r), None, InGRE(), None);
    case Gretap(l, r, _) => ShownFacts("proto gre", Some(l), Some(r), None, InGRE(), None);
    case Vxlan(id, source, dest, port, _) =>
      ShownFacts(UDPFilter(port), source, DestAddr(dest), Some(port), InVXLAN(), id);
    case Wireguard =>
      var key, allowed, source, dst, port :|
        WgPeer(Added(ops)[0].0, key, HostPort(ip, dst, port), allowed) in ops
        && e == Shown(UDPFilter(port), source, dst, Some(port), InWireGuard(), None);
      ShownFacts(UDPFilter(port), source, dst, Some(port), InWireGuard(), None);
    case Vlan(_, _) =>
  }

  // ---------------------------------------------------------------- what the layers foretell

  /** What a UDP header's payload shows: its encapsulation, and for VXLAN the VNI when it is one number. */
  ghost predicate Encapsulates(sp: seq<Layer>, encapsulation: seq<Fact>, id: Option<nat>) {
    if |sp| > 2 && sp[2].name == "vxlan" then encapsulation == InVXLAN() && MayCount(sp[2], "vni", 0x100_0000, id)
    else
      && id == None
      && encapsulation == if |sp| > 2 && sp[2].name == "geneve" then InGeneve()
                          else if |sp| > 2 && sp[2].name == "wireguard" then InWireGuard() else []
  }

  /** The prediction in the words of the layers. */
  ghost predicate Foretells(ip: NetIP, sp: seq<Layer>, e: Expectation) {
    && sp != [] && IsIP(sp[0])
    && exists source, dst :: MayName(ip, sp[0], "src", source) && MayName(ip, sp[0], "dst", dst)
         && ForetellsInside(sp, source, dst, e)
  }

  ghost predicate ForetellsInside(sp: seq<Layer>, source: Option<string>, dst: Option<string>, e: Expectation) {
    if |sp| < 2 then e == Shown("ip", source, None, None, [], None)
    else if sp[1].name == "udp" then
      exists port: nat, encapsulation, id :: Counts(sp[1], "dst-port", port) && port < 0x1_0000
        && Encapsulates(sp, encapsulation, id)
        && e == Shown(UDPFilter(port), source, dst, Some(port), encapsulation, id)
    else if sp[1].name == "gre" then e == Shown("proto gre", source, dst, None, InGRE(), None)
    else sp[1].name == "ipv4" && e == Shown("proto 4", source, dst, None, InIP(), None)
  }

  lemma TunnelExactly(sp: seq<Layer>)
    ensures var r := if |sp| > 2 then TunnelFactsOf(sp[2]) else Ok([]);
            && (r.Ok? <==> exists encapsulation, id :: Encapsulates(sp, encapsulation, id))
            && (r.Ok? ==> forall encapsulation, id :: Encapsulates(sp, encapsulation, id) ==>
                  r.value == encapsulation + VNIFacts(id))
  {
    hide VNI, Counts;
    if |sp| > 2 && sp[2].name == "vxlan" {
      VniIs(sp[2]);
      var r := VNI(sp[2]);
      if r.Ok? {
        assert Encapsulates(sp, InVXLAN(), r.value.Get());
        forall encapsulation, id | Encapsulates(sp, encapsulation, id) ensures id == r.value.Get() {
          NothingCounts(sp[2], "vni");
          if id.Some? && r.value.Concrete? { CountsOnce(sp[2], "vni", id.value, r.value.value); }
        }
      }
    } else {
      assert Encapsulates(sp, if |sp| > 2 && sp[2].name == "geneve" then InGeneve()
                              else if |sp| > 2 && sp[2].name == "wireguard" then InWireGuard() else [], None);
    }
  }

  /** What the outer source shows, before the rest. */
  function FromSource(source: Option<string>, e: Expectation): Expectation {
    e.(facts := SourceFacts(source) + e.facts)
  }

  lemma InsideExactly(sp: seq<Layer>, source: Option<string>, dst: Option<string>, e: Expectation)
    requires |sp| >= 2
    ensures ForetellsInside(sp, source, dst, e) <==>
              NextFacts(sp, dst).Ok? && e == FromSource(source, NextFacts(sp, dst).value)
  {
    hide TunnelFactsOf, Encapsulates, Counts, DstPort, Shown, DestFacts, SourceFacts, VNIFacts;
    ShownBare("proto gre", source, dst, InGRE());
    ShownBare("proto 4", source, dst, InIP());
    if sp[1].name == "udp" { UDPExactly(sp, source, dst, e); }
  }

  lemma UDPExactly(sp: seq<Layer>, source: Option<string>, dst: Option<string>, e: Expectation)
    requires |sp| >= 2 && sp[1].name == "udp"
    ensures ForetellsInside(sp, source, dst, e) <==>
              NextFacts(sp, dst).Ok? && e == FromSource(source, NextFacts(sp, dst).value)
  {
    hide TunnelFactsOf, Encapsulates, Counts, DstPort, Shown, DestFacts, SourceFacts, VNIFacts;
    TunnelExactly(sp);
    U16Is(sp[1], "dst-port");
    PortIsGet(sp[1]);
    NothingCounts(sp[1], "dst-port");
    var tunnel := if |sp| > 2 then TunnelFactsOf(sp[2]) else Ok([]);
    if DstPort(sp[1]).Ok? && DstPort(sp[1]).value.Concrete? && tunnel.Ok? {
      var port := DstPort(sp[1]).value.value;
      forall x: nat | Counts(sp[1], "dst-port", x) ensures x == port { CountsOnce(sp[1], "dst-port", x, port); }
      forall encapsulation, id | Encapsulates(sp, encapsulation, id)
        ensures Shown(UDPFilter(port), source, dst, Some(port), encapsulation, id)
             == FromSource(source, NextFacts(sp, dst).value)
      {
        ShownUDP(source, dst, port, encapsulation, id);
      }
    }
  }

  /** A spine has a prediction exactly when its layers foretell one, and then it is the one they foretell. */
  lemma {:induction false} PredictExactly(ip: NetIP, sp: seq<Layer>, e: Expectation)
    ensures Predict(ip, sp) == Ok(e) <==> Foretells(ip, sp, e)
  {
    hide NextFacts, ForetellsInside, MayName, Printed, Src, Dst;
    if sp != [] && IsIP(sp[0]) {
      AddrsOnce(ip, sp[0]);
      if Src(ip, sp[0]).Ok? && Dst(ip, sp[0]).Ok? {
        var source, dst := Printed(Src(ip, sp[0]).value), Printed(Dst(ip, sp[0]).value);
        if |sp| >= 2 { InsideExactly(sp, source, dst, e); } else { AloneShown(sp, source, dst, e); }
      }
    }
  }

  lemma AloneShown(sp: seq<Layer>, source: Option<string>, dst: Option<string>, e: Expectation)
    requires |sp| == 1
    ensures ForetellsInside(sp, source, dst, e) <==> e == Expectation("ip", SourceFacts(source))
  {
    assert SourceFacts(source) + [] + [] == SourceFacts(source);
  }

  lemma AddrsOnce(ip: NetIP, n: Layer)
    ensures Src(ip, n).Ok? ==> MayName(ip, n, "src", Printed(Src(ip, n).value))
    ensures Dst(ip, n).Ok? ==> MayName(ip, n, "dst", Printed(Dst(ip, n).value))
    ensures forall a :: MayName(ip, n, "src", a) ==> Src(ip, n).Ok? && a == Printed(Src(ip, n).value)
    ensures forall a :: MayName(ip, n, "dst", a) ==> Dst(ip, n).Ok? && a == Printed(Dst(ip, n).value)
  {
    hide MayName, Printed;
    AddrIs(ip, n, "src");
    AddrIs(ip, n, "dst");
  }
}
