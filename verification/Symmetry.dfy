/** Both ends of a tunnel: what the near tree and the mirrored tree lower to, side by side. */
module Symmetry {
  import opened Basics
  import opened Sexp
  import opened Ast
  import opened Netip
  import opened Props
  import opened Env
  import opened Machine
  import opened Linux
  import opened Tile
  import opened Safety
  import opened Selection
  import opened Spine
  import opened Mirror
  import opened Involution
  import opened Devices
  import opened Said

  // ---------------------------------------------------------------- layers

  /** All but the two ends is the same. */
  ghost predicate Kin(n: Layer, m: Layer) {
    && m.name == n.name && m.pos == n.pos
    && forall key :: key != "src" && key != "dst" ==> Lookup(m.props, key) == Lookup(n.props, key)
  }

  /** A field after an address was given to its layer, or taken away, or neither. */
  ghost predicate Holds(field: Option<Prop>, given: Option<string>, otherwise: Option<Value>) {
    if given == None then
      if otherwise == None then field == None else field.Some? && field.value.val == otherwise.value
    else if given.value == "" then field == None
    else field.Some? && field.value.val.Is(Text) && field.value.val.text == given.value
  }

  /**
   `m` is `n` seen from the other end: two ends are exchanged, all else stays. `given` is the address put on
   the layer as its own, if it is the one that gets it.
   */
  ghost predicate Opposite(n: Layer, m: Layer, given: Option<string>) {
    && Kin(n, m)
    && if TwoEnded(n.props) then
         var s, d := Field(n, "src").value, Field(n, "dst").value;
         Field(m, "dst") == Some(NewDst(s, d)) && Holds(Lookup(m.props, "src"), given, Some(NewSrc(s, d)))
       else
         Field(m, "dst") == Field(n, "dst") && Holds(Lookup(m.props, "src"), given, Field(n, "src"))
  }

  /** The address text the mirror puts on a layer: on the innermost addressed one only. */
  function Given(ip: NetIP, layers: seq<Layer>, b: string, j: nat): Option<string> {
    if Innermost(ip, SwapAll(layers)) == Some(j) then Some(b) else None
  }

  lemma ExchangedKeeps(props: seq<Prop>, key: string)
    requires TwoEnded(props) && key != "src" && key != "dst"
    ensures Lookup(Exchanged(props), key) == Lookup(props, key)
  {
    var s, d := Lookup(props, "src").value.val, Lookup(props, "dst").value.val;
    RedirectedLookup(props, NewSrc(s, d), NewDst(s, d), key);
  }

  lemma SwapIsOpposite(n: Layer)
    ensures Opposite(n, SwapLayer(n), None)
  {
    hide Exchanged, NewSrc, NewDst;
    if TwoEnded(n.props) {
      SwappedEnds(n.props);
      forall key | key != "src" && key != "dst" ensures Lookup(Exchanged(n.props), key) == Lookup(n.props, key) {
        ExchangedKeeps(n.props, key);
      }
    }
  }

  lemma ReaddressedIsOpposite(n: Layer, m: Layer, b: string)
    requires Opposite(n, m, None)
    ensures Opposite(n, Readdressed(m, b), Some(b))
  {
    if b != "" {
      WithPropFinds(m.props, "src", b, m.pos);
    } else {
      WithoutPropGone(m.props, "src");
      forall key | key != "src" ensures Lookup(WithoutProp(m.props, "src"), key) == Lookup(m.props, key) {
        WithoutPropKeeps(m.props, "src", key);
      }
    }
  }

  /** Each far layer is the near one seen from there, and only the innermost addressed one gets the address. */
  lemma PeerLayerIsOpposite(ip: NetIP, layers: seq<Layer>, b: string, j: nat)
    requires layers != [] && j < |layers| && PeerLayers(ip, layers, b).Ok?
    ensures Opposite(layers[j], PeerLayers(ip, layers, b).value[j], Given(ip, layers, b, j))
  {
    hide Opposite, Readdressed, PeerLayers;
    PeerLayerAt(ip, layers, b, j);
    SwapIsOpposite(layers[j]);
    ReaddressedIsOpposite(layers[j], SwapLayer(layers[j]), b);
  }

  // ---------------------------------------------------------------- when two ends can face each other

  /** Each end is written as its address with the other's tail: nothing is lost when the addresses change places. */
  predicate TailsAgree(n: Layer) {
    TwoEnded(n.props) ==>
      var s, d := Field(n, "src").value, Field(n, "dst").value;
      s.Spelling() == Joined(AddrOf(s), LengthOf(d)) && d.Spelling() == Joined(AddrOf(d), LengthOf(s))
  }

  /** The field names a multicast group, which can be joined but is no one's own address. */
  predicate GroupEnd(ip: NetIP, n: Layer, key: string) {
    ReadEndpoint(ip, n, key).Ok? && IsMulticast(ip, ReadEndpoint(ip, n, key).value)
  }

  /** The layer's :dst names the address of the prefix `b`. */
  predicate NamesDst(ip: NetIP, n: Layer, b: string) {
    && ip.parsePrefix(b).Some? && ReadEndpoint(ip, n, "dst").Ok?
    && Named(ReadEndpoint(ip, n, "dst").value) == Some(ip.parsePrefix(b).value.addr.text)
  }

  /** What turning a tile around asks of its outer layer `n`, when `given` is the address that layer is given. */
  predicate Reversible(ip: NetIP, l: Lowering, n: Layer, given: Option<string>) {
    match l
    case IPIP => TailsAgree(n)
    case GRE => TailsAgree(n)
    case GRETAP => TailsAgree(n)
    case VXLAN =>
      && !GroupEnd(ip, n, "src") && !GroupEnd(ip, n, "dst")
      && (given.Some? ==> NamesDst(ip, n, given.value))
    case _ => true
  }

  /** Every tile applied can be turned around. */
  ghost predicate AllReversible(ip: NetIP, chain: seq<Tile>, layers: seq<Layer>, i: nat, b: string)
    decreases chain
  {
    chain == [] ||
    (&& i < |layers| && Reversible(ip, chain[0].lower, layers[i], Given(ip, layers, b, i))
     && AllReversible(ip, chain[1..], layers, Next(i, chain[0]), b))
  }

  // ---------------------------------------------------------------- links

  /** Where a device sends whose far end has the given address of its own. */
  function SendsTo(source: Option<string>): Dest {
    match source case None => Learned case Some(a) => Remote(a)
  }

  /** Two devices are the two ends of one tunnel: each sends to the other's address, and the rest is the same. */
  predicate Facing(a: Link, b: Link) {
    match (a, b)
    case (Ipip(l, r), Ipip(l', r')) => l' == r && r' == l
    case (Gre(l, r, key), Gre(l', r', key')) => l' == r && r' == l && key' == key
    case (Gretap(l, r, key), Gretap(l', r', key')) => l' == r && r' == l && key' == key
    case (Vxlan(id, s, d, port, under), Vxlan(id', s', d', port', under')) =>
      d' == SendsTo(s) && d == SendsTo(s') && id' == id && port' == port && under' == under
    case (Vlan(under, tag), Vlan(under', tag')) => under' == under && tag' == tag
    case (Wireguard, Wireguard) => true
    case _ => false
  }

  /** Two devices differ in their addresses at most. */
  predicate Alike(a: Link, b: Link) {
    match (a, b)
    case (Ipip(_, _), Ipip(_, _)) => true
    case (Gre(_, _, key), Gre(_, _, key')) => key' == key
    case (Gretap(_, _, key), Gretap(_, _, key')) => key' == key
    case (Vxlan(id, _, _, port, under), Vxlan(id', _, _, port', under')) =>
      id' == id && port' == port && under' == under
    case _ => b == a
  }

  /** Device for device: the same name, links alike. */
  ghost predicate AllAlike(a: seq<(string, Link)>, b: seq<(string, Link)>) {
    |a| == |b| && forall k :: 0 <= k < |a| ==> a[k].0 == b[k].0 && Alike(a[k].1, b[k].1)
  }

  /** Device for device: facing links. */
  ghost predicate AllFacing(a: seq<(string, Link)>, b: seq<(string, Link)>) {
    |a| == |b| && forall k :: 0 <= k < |a| ==> Facing(a[k].1, b[k].1)
  }

  /**
   What both ends lower to from equal environments, when both do: the same names, links alike, and facing ones
   exactly when `reversible` says so.
   */
  ghost predicate Matched(near: Lowered, far: Lowered, reversible: bool) {
    near.ops.Ok? && far.ops.Ok? ==>
      && far.env == near.env && AllAlike(Added(near.ops.value), Added(far.ops.value))
      && (AllFacing(Added(near.ops.value), Added(far.ops.value)) <==> reversible)
  }

  lemma OneMatched(near: Lowered, far: Lowered, d: string, a: Link, b: Link, reversible: bool)
    requires near.ops.Ok? && far.ops.Ok? && far.env == near.env && Alike(a, b) && (Facing(a, b) <==> reversible)
    requires Added(near.ops.value) == [(d, a)] && Added(far.ops.value) == [(d, b)]
    ensures Matched(near, far, reversible)
  {
    hide Alike, Facing;
    var one, other := [(d, a)], [(d, b)];
    assert one[0].1 == a && other[0].1 == b;
  }

  // ---------------------------------------------------------------- point-to-point tunnels

  lemma SplitText(s: string)
    ensures s == BeforeSlash(s) + (if '/' in s then "/" + AfterSlash(s) else "")
  {
    var i := IndexOf(s, '/');
    if '/' in s { assert s == s[..i] + [s[i]] + s[i + 1..]; }
  }

  /** Two texts with one address before the slash are the same address exactly when they are the same text. */
  lemma SameText(ip: NetIP, x: string, y: string)
    requires SlashLaw(ip) && ip.parseAddr(x).Some? && ip.parseAddr(y).Some? && BeforeSlash(x) == BeforeSlash(y)
    ensures ip.parseAddr(x).value.text == ip.parseAddr(y).value.text <==> x == y
  {
    hide BeforeSlash, AfterSlash;
    SplitText(x);
    SplitText(y);
  }

  /** What an exchanged pair of address texts reads as. */
  lemma PairCrosses(ip: NetIP, s: Value, d: Value)
    requires SlashLaw(ip) && ParseAddr(ip, s).Ok? && ParseAddr(ip, d).Ok?
    ensures !NewSrc(s, d).Is(Star) && NewSrc(s, d).Is(Text) && NewSrc(s, d).text == Joined(AddrOf(d), LengthOf(s))
    ensures ParseAddr(ip, NewSrc(s, d)).Ok? ==>
              (ParseAddr(ip, NewSrc(s, d)).value.text == ParseAddr(ip, d).value.text
               <==> d.Spelling() == Joined(AddrOf(d), LengthOf(s)))
  {
    assert BeforeSlash(d.text) != "";
    AddrHasNoSlash(d);
    SplitJoined(AddrOf(d), LengthOf(s), d.pos);
    if ParseAddr(ip, NewSrc(s, d)).Ok? {
      SameText(ip, NewSrc(s, d).text, d.text);
    }
  }

  lemma PairMirrored(s: Value, d: Value)
    ensures NewDst(s, d) == NewSrc(d, s)
  {
  }

  /** The far end of a point-to-point tunnel reads the same two addresses the other way round when the tails agree. */
  lemma EndpointsCross(ip: NetIP, n: Layer, m: Layer, given: Option<string>)
    requires PrefixLaw(ip) && SlashLaw(ip) && Opposite(n, m, given) && (given.Some? ==> GoodInner(ip, given.value))
    requires Endpoints(ip, n).Ok? && Endpoints(ip, m).Ok?
    ensures Endpoints(ip, m).value == (Endpoints(ip, n).value.1, Endpoints(ip, n).value.0) <==> TailsAgree(n)
  {
    hide NewSrc, NewDst, AddrOf, LengthOf, Joined, SlashLaw;
    GivenIsNoEnd(ip, m, given);
    var s, d := Field(n, "src").value, Field(n, "dst").value;
    PairCrosses(ip, s, d);
    PairCrosses(ip, d, s);
    PairMirrored(s, d);
  }

  /** A layer that was given a prefix, or lost its address, is no end of a point-to-point tunnel. */
  lemma GivenIsNoEnd(ip: NetIP, m: Layer, given: Option<string>)
    requires PrefixLaw(ip) && Endpoints(ip, m).Ok?
    requires given.Some? ==> GoodInner(ip, given.value) && Holds(Lookup(m.props, "src"), given, None)
    ensures given == None
  {
  }

  lemma IPIPMatched(ip: NetIP, sp: seq<Layer>, tp: seq<Layer>, st: EnvState, given: Option<string>)
    requires PrefixLaw(ip) && SlashLaw(ip) && (given.Some? ==> GoodInner(ip, given.value))
    requires |sp| == |tp| >= 2 && Opposite(sp[0], tp[0], given)
    ensures Matched(IPIPOps(ip, sp, st), IPIPOps(ip, tp, st), TailsAgree(sp[0]))
  {
    hide IPIPOps, Endpoints, Allocated, Opposite, TailsAgree, Matched, PrefixLaw, SlashLaw;
    if IPIPOps(ip, sp, st).ops.Ok? && IPIPOps(ip, tp, st).ops.Ok? {
      var d, l, r := IPIPAdds(ip, sp, st);
      var d', l', r' := IPIPAdds(ip, tp, st);
      EndpointsCross(ip, sp[0], tp[0], given);
      OneMatched(IPIPOps(ip, sp, st), IPIPOps(ip, tp, st), d, Ipip(l, r), Ipip(l', r'), TailsAgree(sp[0]));
    } else {
      NothingMatched(IPIPOps(ip, sp, st), IPIPOps(ip, tp, st), TailsAgree(sp[0]));
    }
  }

  lemma NothingMatched(near: Lowered, far: Lowered, reversible: bool)
    requires near.ops.Err? || far.ops.Err?
    ensures Matched(near, far, reversible)
  {
  }

  lemma GREMatched(ip: NetIP, sp: seq<Layer>, tp: seq<Layer>, st: EnvState, given: Option<string>)
    requires PrefixLaw(ip) && SlashLaw(ip) && (given.Some? ==> GoodInner(ip, given.value))
    requires |sp| == |tp| >= 3 && Opposite(sp[0], tp[0], given) && Kin(sp[1], tp[1])
    ensures Matched(GREOps(ip, sp, st), GREOps(ip, tp, st), TailsAgree(sp[0]))
  {
    hide GREOps, Endpoints, Allocated, Get, Opposite, TailsAgree, Matched, PrefixLaw, SlashLaw, Kin;
    KeysKept(sp[1], tp[1]);
    if GREOps(ip, sp, st).ops.Ok? && GREOps(ip, tp, st).ops.Ok? {
      var d, l, r, key := GREAdds(ip, sp, st);
      var d', l', r', key' := GREAdds(ip, tp, st);
      EndpointsCross(ip, sp[0], tp[0], given);
      OneMatched(GREOps(ip, sp, st), GREOps(ip, tp, st), d, Gre(l, r, key), Gre(l', r', key'), TailsAgree(sp[0]));
    } else {
      NothingMatched(GREOps(ip, sp, st), GREOps(ip, tp, st), TailsAgree(sp[0]));
    }
  }

  lemma GRETAPMatched(ip: NetIP, sp: seq<Layer>, tp: seq<Layer>, st: EnvState, given: Option<string>)
    requires PrefixLaw(ip) && SlashLaw(ip) && (given.Some? ==> GoodInner(ip, given.value))
    requires |sp| == |tp| >= 3 && Opposite(sp[0], tp[0], given) && Kin(sp[1], tp[1])
    ensures Matched(GRETAPOps(ip, sp, st), GRETAPOps(ip, tp, st), TailsAgree(sp[0]))
  {
    hide GRETAPOps, Endpoints, Allocated, Get, Opposite, TailsAgree, Matched, PrefixLaw, SlashLaw, Kin;
    KeysKept(sp[1], tp[1]);
    if GRETAPOps(ip, sp, st).ops.Ok? && GRETAPOps(ip, tp, st).ops.Ok? {
      var d, l, r, key := GRETAPAdds(ip, sp, st);
      var d', l', r', key' := GRETAPAdds(ip, tp, st);
      EndpointsCross(ip, sp[0], tp[0], given);
      OneMatched(GRETAPOps(ip, sp, st), GRETAPOps(ip, tp, st), d, Gretap(l, r, key), Gretap(l', r', key'),
          TailsAgree(sp[0]));
    } else {
      NothingMatched(GRETAPOps(ip, sp, st), GRETAPOps(ip, tp, st), TailsAgree(sp[0]));
    }
  }

  /** What both ends have in common: every reading but that of an address. */
  lemma KeysKept(n: Layer, m: Layer)
    requires Kin(n, m)
    ensures m.pos == n.pos && m.name == n.name && TunnelKey(m) == TunnelKey(n) && VNI(m) == VNI(n)
    ensures DstPort(m) == DstPort(n) && SrcPort(m) == SrcPort(n) && VLANID(m) == VLANID(n) && PeerName(m) == PeerName(n)
  {
    hide Get, ParseU16, ParseU32, ParseVNI, ParseVLANID, ParseText;
    GetKept(n, m, "key", ParseU32);
    GetKept(n, m, "vni", ParseVNI);
    GetKept(n, m, "dst-port", ParseU16);
    GetKept(n, m, "src-port", ParseU16);
    GetKept(n, m, "id", ParseVLANID);
    GetKept(n, m, "peer", ParseText);
  }

  lemma GetKept<T>(n: Layer, m: Layer, key: string, parse: Value -> Result<T>)
    requires Kin(n, m) && key != "src" && key != "dst"
    ensures Get(m, key, parse) == Get(n, key, parse)
  {
  }

  // ---------------------------------------------------------------- VXLAN

  /** What an endpoint names depends only on the address before the slash. */
  lemma EndpointIs(ip: NetIP, n: Layer, key: string)
    requires PrefixLaw(ip) && Has(n.props, key) && ReadEndpoint(ip, n, key).Ok?
    ensures var v, e := Lookup(n.props, key).value.val, ReadEndpoint(ip, n, key).value;
            && !e.absent && (e.dynamic <==> v.Is(Star))
            && (!e.dynamic ==> ip.parseAddr(AddrOf(v)).Some? && e.addr == ip.parseAddr(AddrOf(v)).value.text)
  {
    var v := Lookup(n.props, key).value.val;
    if !v.Is(Star) && '/' !in v.Spelling() {
      assert AddrOf(v) == v.Spelling();
    }
  }

  /** What the far end's fields name: the near ones exchanged, or the address that was given. */
  ghost predicate FieldsMirrored(ip: NetIP, f: VxlanFields, g: VxlanFields, given: Option<string>) {
    && g.vni == f.vni && g.port == f.port && Named(g.remote) == Named(f.local)
    && match given
       case None => Named(g.local) == Named(f.remote)
       case Some(b) => ip.parsePrefix(b).Some? && Named(g.local) == Some(ip.parsePrefix(b).value.addr.text)
  }

  lemma FieldsCross(ip: NetIP, sp: seq<Layer>, tp: seq<Layer>, given: Option<string>)
    requires PrefixLaw(ip) && (given.Some? ==> GoodInner(ip, given.value))
    requires |sp| == |tp| >= 3 && Opposite(sp[0], tp[0], given) && Kin(sp[1], tp[1]) && Kin(sp[2], tp[2])
    requires ReadVXLANFields(ip, sp).Ok? && ReadVXLANFields(ip, tp).Ok?
    ensures FieldsMirrored(ip, ReadVXLANFields(ip, sp).value, ReadVXLANFields(ip, tp).value, given)
  {
    hide Opposite, Kin, VNI, DstPort, ReadVXLANFields, ReadEndpoint, TwoEnded, PrefixLaw;
    KeysKept(sp[1], tp[1]);
    KeysKept(sp[2], tp[2]);
    FieldsAre(ip, sp);
    FieldsAre(ip, tp);
    EndpointCross(ip, sp[0], tp[0], given);
  }

  lemma EndpointCross(ip: NetIP, n: Layer, m: Layer, given: Option<string>)
    requires PrefixLaw(ip) && (given.Some? ==> GoodInner(ip, given.value))
    requires Opposite(n, m, given) && TwoEnded(n.props) && TwoEnded(m.props)
    requires ReadEndpoint(ip, n, "src").Ok? && ReadEndpoint(ip, n, "dst").Ok?
    requires ReadEndpoint(ip, m, "src").Ok? && ReadEndpoint(ip, m, "dst").Ok?
    ensures Named(ReadEndpoint(ip, m, "dst").value) == Named(ReadEndpoint(ip, n, "src").value)
    ensures match given
            case None => Named(ReadEndpoint(ip, m, "src").value) == Named(ReadEndpoint(ip, n, "dst").value)
            case Some(b) =>
              ip.parsePrefix(b).Some?
              && Named(ReadEndpoint(ip, m, "src").value) == Some(ip.parsePrefix(b).value.addr.text)
  {
    NewEnds(Field(n, "src").value, Field(n, "dst").value);
    EndpointIs(ip, n, "src");
    EndpointIs(ip, n, "dst");
    EndpointIs(ip, m, "dst");
    hide NewSrc, NewDst, AddrOf;
    if given == None {
      hide ReadEndpoint;
      EndpointIs(ip, m, "src");
    }
  }

  /** Mirrored fields make facing devices exactly when neither end is a group and a given address is the one sent to. */
  lemma FieldsFace(ip: NetIP, n: Layer, f: VxlanFields, g: VxlanFields, given: Option<string>, under: string)
    requires FieldsMirrored(ip, f, g, given)
    requires ReadEndpoint(ip, n, "src") == Ok(f.local) && ReadEndpoint(ip, n, "dst") == Ok(f.remote)
    ensures Alike(VxlanLink(ip, f, under), VxlanLink(ip, g, under))
    ensures Facing(VxlanLink(ip, f, under), VxlanLink(ip, g, under)) <==> Reversible(ip, VXLAN, n, given)
  {
    DynamicIsNoGroup(ip, n, "src");
    DynamicIsNoGroup(ip, n, "dst");
    hide ReadEndpoint;
  }

  lemma DynamicIsNoGroup(ip: NetIP, n: Layer, key: string)
    requires ReadEndpoint(ip, n, key).Ok?
    ensures ReadEndpoint(ip, n, key).value.dynamic ==> !IsMulticast(ip, ReadEndpoint(ip, n, key).value)
  {
  }

  lemma VXLANMatched(ip: NetIP, sp: seq<Layer>, tp: seq<Layer>, st: EnvState, given: Option<string>)
    requires PrefixLaw(ip) && (given.Some? ==> GoodInner(ip, given.value))
    requires |sp| == |tp| >= 3 && Opposite(sp[0], tp[0], given) && Kin(sp[1], tp[1]) && Kin(sp[2], tp[2])
    ensures Matched(VXLANOps(ip, sp, st), VXLANOps(ip, tp, st), Reversible(ip, VXLAN, sp[0], given))
  {
    hide VXLANOps, ReadVXLANFields, VxlanName, VxlanLink, Opposite, Kin, Reversible, Matched, ReadEndpoint, PrefixLaw;
    if VXLANOps(ip, sp, st).ops.Ok? && VXLANOps(ip, tp, st).ops.Ok? {
      var d, f := VXLANAdds(ip, sp, st);
      var d', g := VXLANAdds(ip, tp, st);
      FieldsCross(ip, sp, tp, given);
      FieldsAre(ip, sp);
      FieldsFace(ip, sp[0], f, g, given, st.dev);
      OneMatched(VXLANOps(ip, sp, st), VXLANOps(ip, tp, st), d, VxlanLink(ip, f, st.dev), VxlanLink(ip, g, st.dev),
                 Reversible(ip, VXLAN, sp[0], given));
    } else {
      NothingMatched(VXLANOps(ip, sp, st), VXLANOps(ip, tp, st), Reversible(ip, VXLAN, sp[0], given));
    }
  }

  // ---------------------------------------------------------------- the other shapes

  lemma SameVLAN(sp: seq<Layer>, tp: seq<Layer>, st: EnvState)
    requires |sp| == |tp| >= 2 && VLANID(tp[1]) == VLANID(sp[1]) && tp[1].pos == sp[1].pos
    ensures VLANOps(tp, st) == VLANOps(sp, st)
  {
    hide VLANID, Claimed;
  }

  lemma VLANMatched(sp: seq<Layer>, tp: seq<Layer>, st: EnvState)
    requires |sp| == |tp| >= 2 && Kin(sp[1], tp[1])
    ensures Matched(VLANOps(sp, st), VLANOps(tp, st), true)
  {
    hide VLANOps, Get, Kin, Matched, Added;
    KeysKept(sp[1], tp[1]);
    SameVLAN(sp, tp, st);
    if VLANOps(sp, st).ops.Ok? {
      var d := VLANAdds(sp, st);
      var link := Vlan(st.dev, VLANID(sp[1]).value.value);
      OneMatched(VLANOps(sp, st), VLANOps(tp, st), d, link, link, true);
    } else {
      NothingMatched(VLANOps(sp, st), VLANOps(tp, st), true);
    }
  }

  lemma WireGuardMatched(ip: NetIP, sp: seq<Layer>, tp: seq<Layer>, st: EnvState)
    requires |sp| == |tp| >= 4
    ensures Matched(WireGuardOps(ip, sp, st), WireGuardOps(ip, tp, st), true)
  {
    hide WireGuardOps, Allocated, Matched;
    if WireGuardOps(ip, sp, st).ops.Ok? && WireGuardOps(ip, tp, st).ops.Ok? {
      var d := WireGuardAdds(ip, sp, st);
      var d' := WireGuardAdds(ip, tp, st);
      OneMatched(WireGuardOps(ip, sp, st), WireGuardOps(ip, tp, st), d, Wireguard, Wireguard, true);
    } else {
      NothingMatched(WireGuardOps(ip, sp, st), WireGuardOps(ip, tp, st), true);
    }
  }

  /** Every shape at both ends: alike always, facing exactly when the outer layer can be turned around. */
  lemma ShapeMatched(ip: NetIP, l: Lowering, sp: seq<Layer>, tp: seq<Layer>, st: EnvState, given: Option<string>)
    requires PrefixLaw(ip) && SlashLaw(ip) && (given.Some? ==> GoodInner(ip, given.value))
    requires IsShape(l) && |sp| == |tp| >= Arity(l) && Opposite(sp[0], tp[0], given)
    requires forall k :: 0 <= k < |sp| ==> Kin(sp[k], tp[k])
    ensures Matched(Lower(ip, l, sp, st), Lower(ip, l, tp, st), Reversible(ip, l, sp[0], given))
  {
    hide IPIPOps, GREOps, GRETAPOps, VXLANOps, VLANOps, WireGuardOps, Opposite, Kin, Matched, TailsAgree, GroupEnd,
        NamesDst;
    match l
    case IPIP => IPIPMatched(ip, sp, tp, st, given);
    case GRE => GREMatched(ip, sp, tp, st, given);
    case GRETAP => GRETAPMatched(ip, sp, tp, st, given);
    case VXLAN => VXLANMatched(ip, sp, tp, st, given);
    case VLAN => VLANMatched(sp, tp, st);
    case WireGuard => WireGuardMatched(ip, sp, tp, st);
  }

  // ---------------------------------------------------------------- whole spines

  ghost predicate Unguarded(tiles: seq<Tile>) {
    forall t :: t in tiles ==> t.guard == None
  }

  ghost predicate SameNames(sp: seq<Layer>, tp: seq<Layer>) {
    |tp| == |sp| && forall k :: 0 <= k < |sp| ==> tp[k].name == sp[k].name
  }

  lemma {:induction false} SameMatches(tiles: seq<Tile>, sp: seq<Layer>, tp: seq<Layer>, i: nat)
    requires Unguarded(tiles) && SameNames(sp, tp)
    ensures MatchesAt(tiles, tp, i) == MatchesAt(tiles, sp, i)
  {
    if tiles != [] {
      assert tiles[0] in tiles && forall t :: t in tiles[1..] ==> t in tiles;
      assert Matches(tiles[0], tp, i) == Matches(tiles[0], sp, i);
      SameMatches(tiles[1..], sp, tp, i);
    }
  }

  /** The same names are covered by the same tiles. */
  lemma {:induction false} SameTilesApplied(tiles: seq<Tile>, sp: seq<Layer>, tp: seq<Layer>, i: nat)
    requires AllUsable(tiles) && Unguarded(tiles) && SameNames(sp, tp) && i <= |sp|
    ensures Greedy(tiles, tp, i) == Greedy(tiles, sp, i)
    decreases |sp| - i
  {
    hide Matches, Best, AllUsable, MatchesAt, SameNames;
    SameMatches(tiles, sp, tp, i);
    if MatchesAt(tiles, sp, i) != [] {
      var t, rest := GreedyStep(tiles, sp, i);
      var u, more := GreedyStep(tiles, tp, i);
      SameTilesApplied(tiles, sp, tp, Next(i, t));
    }
  }

  lemma MatchedAppend(a: seq<(string, Link)>, b: seq<(string, Link)>, a': seq<(string, Link)>, b': seq<(string, Link)>)
    requires AllAlike(a, a') && AllAlike(b, b')
    ensures AllAlike(a + b, a' + b') && (AllFacing(a + b, a' + b') <==> AllFacing(a, a') && AllFacing(b, b'))
  {
    hide Facing, Alike;
    if AllFacing(a + b, a' + b') {
      assert forall k :: 0 <= k < |a| ==> (a + b)[k] == a[k] && (a' + b')[k] == a'[k];
      assert forall k :: 0 <= k < |b| ==> (a + b)[|a| + k] == b[k] && (a' + b')[|a| + k] == b'[k];
    }
  }

  lemma PeerIsKin(ip: NetIP, sp: seq<Layer>, tp: seq<Layer>, b: string)
    requires sp != [] && PeerLayers(ip, sp, b) == Ok(tp)
    ensures forall k :: 0 <= k < |sp| ==> Kin(sp[k], tp[k])
    ensures SameNames(sp, tp) && GoodInner(ip, b)
  {
    forall k | 0 <= k < |sp| ensures Kin(sp[k], tp[k]) {
      hide PeerLayers, Holds;
      PeerLayerIsOpposite(ip, sp, b, k);
    }
  }

  /** The first tile of a chain, at both ends. */
  lemma HeadMatched(ip: NetIP, l: Lowering, sp: seq<Layer>, tp: seq<Layer>, i: nat, n: nat, st: EnvState, b: string)
    requires PrefixLaw(ip) && SlashLaw(ip) && IsShape(l) && i < n <= |sp| && n - i >= Arity(l)
    requires PeerLayers(ip, sp, b) == Ok(tp)
    ensures Matched(Lower(ip, l, sp[i..n], st), Lower(ip, l, tp[i..n], st),
                    Reversible(ip, l, sp[i], Given(ip, sp, b, i)))
  {
    hide Lower, Matched, Opposite, Kin, PeerLayers, Given, Reversible, PrefixLaw, SlashLaw, SameNames, GoodInner;
    PeerIsKin(ip, sp, tp, b);
    PeerLayerIsOpposite(ip, sp, b, i);
    GivenIsGood(ip, sp, b, i);
    ShapeMatched(ip, l, sp[i..n], tp[i..n], st, Given(ip, sp, b, i));
  }

  lemma StepMatched(a: Lowered, b: Lowered, a': Lowered, b': Lowered, near: Lowered, far: Lowered, r1: bool, r2: bool)
    requires a.ops.Ok? && b.ops.Ok? && a'.ops.Ok? && b'.ops.Ok? && Matched(a, a', r1) && Matched(b, b', r2)
    requires near == Lowered(Ok(a.ops.value + b.ops.value), b.env)
    requires far == Lowered(Ok(a'.ops.value + b'.ops.value), b'.env)
    ensures Matched(near, far, r1 && r2)
  {
    hide Added, AllAlike, AllFacing;
    AddedAppend(a.ops.value, b.ops.value);
    AddedAppend(a'.ops.value, b'.ops.value);
    MatchedAppend(Added(a.ops.value), Added(b.ops.value), Added(a'.ops.value), Added(b'.ops.value));
  }

  lemma {:induction false} ChainMatched(ip: NetIP, tiles: seq<Tile>, chain: seq<Tile>, sp: seq<Layer>, tp: seq<Layer>,
                                        i: nat, st: EnvState, b: string)
    requires AllUsable(tiles) && AllShapes(tiles) && PrefixLaw(ip) && SlashLaw(ip)
    requires sp != [] && PeerLayers(ip, sp, b) == Ok(tp)
    requires Chain(tiles, sp, i, chain) && Chain(tiles, tp, i, chain)
    ensures Matched(LowerChain(ip, tiles, chain, sp, i, st), LowerChain(ip, tiles, chain, tp, i, st),
                    AllReversible(ip, chain, sp, i, b))
    decreases chain
  {
    hide Lower, Matches, Matched, Arity, PeerLayers, Given, Reversible, PrefixLaw, SlashLaw;
    var near, far := LowerChain(ip, tiles, chain, sp, i, st), LowerChain(ip, tiles, chain, tp, i, st);
    if near.ops.Err? || far.ops.Err? {
      NothingMatched(near, far, AllReversible(ip, chain, sp, i, b));
    } else if chain == [] {
      EmptyMatched(st);
    } else {
      var n := Next(i, chain[0]);
      var first := ChainHead(ip, tiles, chain, sp, i, st);
      var first' := ChainHead(ip, tiles, chain, tp, i, st);
      HeadMatched(ip, chain[0].lower, sp, tp, i, n, st, b);
      SameEnv(first, first', Reversible(ip, chain[0].lower, sp[i], Given(ip, sp, b, i)));
      ChainMatched(ip, tiles, chain[1..], sp, tp, n, first.env, b);
      var rest := LowerChain(ip, tiles, chain[1..], sp, n, first.env);
      var rest' := LowerChain(ip, tiles, chain[1..], tp, n, first.env);
      StepMatched(first, rest, first', rest', near, far, Reversible(ip, chain[0].lower, sp[i], Given(ip, sp, b, i)),
                  AllReversible(ip, chain[1..], sp, n, b));
    }
  }

  lemma EmptyMatched(st: EnvState)
    ensures Matched(Lowered(Ok([]), st), Lowered(Ok([]), st), true)
  {
  }

  lemma SameEnv(near: Lowered, far: Lowered, reversible: bool)
    requires Matched(near, far, reversible) && near.ops.Ok? && far.ops.Ok?
    ensures far.env == near.env
  {
  }

  lemma GivenIsGood(ip: NetIP, sp: seq<Layer>, b: string, i: nat)
    requires GoodInner(ip, b)
    ensures Given(ip, sp, b, i).Some? ==> GoodInner(ip, Given(ip, sp, b, i).value)
  {
  }

  /**
   When both ends can be covered, they apply the same tiles, leave the same environment and make devices of the
   same names that differ in their addresses at most; and the devices face each other exactly when `reversible`.
   */
  ghost predicate TwoEnds(near: (Result<Covered>, EnvState), far: (Result<Covered>, EnvState), reversible: bool) {
    near.0.Ok? && far.0.Ok? ==>
      && far.0.value.applied == near.0.value.applied && far.1 == near.1
      && AllAlike(Added(near.0.value.ops), Added(far.0.value.ops))
      && (AllFacing(Added(near.0.value.ops), Added(far.0.value.ops)) <==> reversible)
  }

  /** A spine and its mirror image, covered from equal environments. */
  lemma {:induction false} NearFarSymmetry(ip: NetIP, tiles: seq<Tile>, layers: seq<Layer>, b: string, st: EnvState)
    requires AllUsable(tiles) && AllShapes(tiles) && Unguarded(tiles) && PrefixLaw(ip) && SlashLaw(ip)
    requires layers != [] && PeerLayers(ip, layers, b).Ok?
    ensures TwoEnds(Cover(ip, tiles, layers, st), Cover(ip, tiles, PeerLayers(ip, layers, b).value, st),
                    AllReversible(ip, Greedy(tiles, layers, 0), layers, 0, b))
  {
    hide AllUsable, AllShapes, PeerLayers, Cover, LowerGreedy, AllFacing, AllAlike, Added, AllReversible, Greedy,
        SameNames;
    var peer := PeerLayers(ip, layers, b).value;
    PeerIsKin(ip, layers, peer, b);
    assert |peer| == |layers|;
    SameTilesApplied(tiles, layers, peer, 0);
    if Cover(ip, tiles, layers, st).0.Ok? && Cover(ip, tiles, peer, st).0.Ok? {
      CoverAdds(ip, tiles, layers, st);
      CoverAdds(ip, tiles, peer, st);
      GreedyMatched(ip, tiles, layers, peer, st, b);
    }
  }

  lemma GreedyMatched(ip: NetIP, tiles: seq<Tile>, sp: seq<Layer>, tp: seq<Layer>, st: EnvState, b: string)
    requires AllUsable(tiles) && AllShapes(tiles) && PrefixLaw(ip) && SlashLaw(ip)
    requires sp != [] && PeerLayers(ip, sp, b) == Ok(tp) && Greedy(tiles, tp, 0) == Greedy(tiles, sp, 0)
    ensures Matched(LowerGreedy(ip, tiles, sp, 0, st), LowerGreedy(ip, tiles, tp, 0, st),
                    AllReversible(ip, Greedy(tiles, sp, 0), sp, 0, b))
  {
    hide AllUsable, AllShapes, Greedy, Chain, PeerLayers, Matched, AllReversible;
    GreedyIsChain(tiles, sp, 0);
    GreedyIsChain(tiles, tp, 0);
    ChainMatched(ip, tiles, Greedy(tiles, sp, 0), sp, tp, 0, st, b);
  }

  // ---------------------------------------------------------------- whole files

  lemma {:induction false} SpineIsChain(t: Tree)
    requires Layers(t).Ok?
    ensures ChainOf(t) == Layers(t).value && TailOf(t) == []
    decreases t
  {
    if t.children != [] { SpineIsChain(t.children[0]); }
  }

  lemma {:induction false} AssembledSpine(layers: seq<Layer>)
    requires layers != []
    ensures Layers(Assemble(layers, [])) == Ok(layers)
    decreases layers
  {
    if |layers| == 1 {
      assert layers == [layers[0]];
    } else {
      AssembledSpine(layers[1..]);
      assert layers == [layers[0]] + layers[1..];
    }
  }

  /** The mirror of a file has a spine, and that spine is the mirror of the file's. */
  lemma SpineOfPeer(ip: NetIP, root: Tree, b: string)
    requires FormSpine(root).Ok? && Peer(ip, root, b).Ok?
    ensures FormSpine(root).value != []
        && FormSpine(Peer(ip, root, b).value) == PeerLayers(ip, FormSpine(root).value, b)
  {
    hide PeerLayers;
    SpineIsChain(root.children[0]);
    AssembledSpine(PeerLayers(ip, ChainOf(root.children[0]), b).value);
  }

  lemma MirroredIsOk(ip: NetIP, root: Tree, b: string)
    requires FormSpine(root).Ok? && Peer(ip, root, b).Ok?
    ensures FormSpine(root).value != [] && PeerLayers(ip, FormSpine(root).value, b).Ok?
  {
    SpineIsChain(root.children[0]);
  }

  /** A file and its mirror image, lowered by the shipped tiles: two ends of the same tunnels, when reversible. */
  lemma {:induction false} MirrorConfiguresTheFarEnd(ip: NetIP, root: Tree, b: string, st: EnvState)
    requires PrefixLaw(ip) && SlashLaw(ip) && FormSpine(root).Ok? && Peer(ip, root, b).Ok?
    ensures AllUsable(Shipped()) && FormSpine(root).value != [] && FormSpine(Peer(ip, root, b).value).Ok?
    ensures var near, far := FormSpine(root).value, FormSpine(Peer(ip, root, b).value).value;
            far != [] && TwoEnds(Cover(ip, Shipped(), near, st), Cover(ip, Shipped(), far, st),
                                 AllReversible(ip, Greedy(Shipped(), near, 0), near, 0, b))
  {
    hide FormSpine, Peer, PeerLayers, TwoEnds, PrefixLaw, SlashLaw, AllReversible, Greedy;
    ShippedUsable();
    ShippedShapes();
    SpineOfPeer(ip, root, b);
    MirroredIsOk(ip, root, b);
    NearFarSymmetry(ip, Shipped(), FormSpine(root).value, b, st);
  }
}
