/** When every tile of a spine can be turned around, and when the far end can be configured at all. */
module FarEnd {
  import opened Basics
  import opened Sexp
  import opened Ast
  import opened Netip
  import opened Props
  import opened Env
  import opened Linux
  import opened Tile
  import opened Safety
  import opened Mirror
  import opened Involution
  import opened Devices
  import opened Said
  import opened Symmetry

  // ---------------------------------------------------------------- ordinary stacks can be turned around

  /** An accepted address is written without a slash. (A zone could contain one.) */
  predicate PlainEnd(ip: NetIP, v: Value) {
    ip.parseAddr(v.Spelling()).Some? ==> '/' !in v.Spelling()
  }

  /** No group, no slash inside an address, and an inner address that is not a tunnel's end. */
  predicate Ordinary(ip: NetIP, layers: seq<Layer>) {
    InnerIsFree(ip, layers)
    && forall n :: n in layers && TwoEnded(n.props) ==>
         && PlainEnd(ip, Field(n, "src").value) && PlainEnd(ip, Field(n, "dst").value)
         && !GroupEnd(ip, n, "src") && !GroupEnd(ip, n, "dst")
  }

  lemma OrdinaryTile(ip: NetIP, l: Lowering, sub: seq<Layer>, layers: seq<Layer>, i: nat, b: string, st: EnvState)
    requires IsShape(l) && |sub| >= Arity(l) && Lower(ip, l, sub, st).ops.Ok?
    requires Ordinary(ip, layers) && i < |layers| && sub[0] == layers[i]
    ensures Reversible(ip, l, layers[i], Given(ip, layers, b, i))
  {
    var n := layers[i];
    hide GroupEnd, NamesDst, ReadEndpoint;
    match l
    case IPIP =>
      var d, x, y := IPIPAdds(ip, sub, st);
      PlainTails(ip, n);
    case GRE =>
      var d, x, y, key := GREAdds(ip, sub, st);
      PlainTails(ip, n);
    case GRETAP =>
      var d, x, y, key := GRETAPAdds(ip, sub, st);
      PlainTails(ip, n);
    case VXLAN =>
      var d, f := VXLANAdds(ip, sub, st);
      FieldsAre(ip, sub);
    case _ =>
  }

  lemma PlainTails(ip: NetIP, n: Layer)
    requires Endpoints(ip, n).Ok?
    requires TwoEnded(n.props) ==> PlainEnd(ip, Field(n, "src").value) && PlainEnd(ip, Field(n, "dst").value)
    ensures TailsAgree(n)
  {
  }

  /** Whatever chain of tiles lowers an ordinary spine, every tile of it can be turned around. */
  lemma {:induction false} OrdinaryIsReversible(ip: NetIP, tiles: seq<Tile>, chain: seq<Tile>, layers: seq<Layer>,
                                                i: nat, b: string, st: EnvState)
    requires AllUsable(tiles) && AllShapes(tiles) && Chain(tiles, layers, i, chain) && Ordinary(ip, layers)
    requires LowerChain(ip, tiles, chain, layers, i, st).ops.Ok?
    ensures AllReversible(ip, chain, layers, i, b)
    decreases chain
  {
    if chain != [] {
      hide Lower, Ordinary, Reversible, Matches;
      var n := Next(i, chain[0]);
      var first := ChainHead(ip, tiles, chain, layers, i, st);
      OrdinaryTile(ip, chain[0].lower, layers[i..n], layers, i, b, st);
      OrdinaryIsReversible(ip, tiles, chain[1..], layers, n, b, first.env);
    }
  }

  // ---------------------------------------------------------------- when the far end lowers

  /** The field is a star or names an address. */
  predicate NamesOne(ip: NetIP, v: Value) {
    v.Is(Star) || ip.parseAddr(AddrOf(v)).Some?
  }

  /** Two ends written as people write them, of one family. */
  predicate GoodPair(ip: NetIP, s: Value, d: Value) {
    GoodEnds(s, d) && NamesOne(ip, s) && NamesOne(ip, d)
    && (!s.Is(Star) && !d.Is(Star) ==> SameFamily(ip, AddrOf(s), AddrOf(d)))
  }

  /** The field reads as a tunnel's endpoint. */
  predicate ReadsAsEnd(ip: NetIP, v: Value) {
    v.Is(Star) || if '/' in v.Spelling() then ParsePrefix(ip, v).Ok? else ParseAddr(ip, v).Ok?
  }

  lemma EndReads(ip: NetIP, n: Layer, key: string)
    requires Has(n.props, key)
    ensures ReadEndpoint(ip, n, key).Ok? <==> ReadsAsEnd(ip, Field(n, key).value)
    ensures ReadEndpoint(ip, n, key).Ok? ==> !ReadEndpoint(ip, n, key).value.absent
  {
  }

  /** An endpoint put in its partner's place, with the length that was there, still reads as one. */
  lemma MovedEndReads(ip: NetIP, s: Value, d: Value)
    requires LengthLaw(ip) && GoodPair(ip, s, d) && ReadsAsEnd(ip, s)
    ensures ReadsAsEnd(ip, NewSrc(s, d))
  {
    AddrHasNoSlash(s);
    AddrHasNoSlash(d);
    SplitJoined(AddrOf(d), LengthOf(s), d.pos);
    if !d.Is(Star) && LengthOf(s) != "" {
      var x, y, l := AddrOf(s), AddrOf(d), LengthOf(s);
      assert s.text == x + "/" + l;
      assert (x + "/" + l)[|x|] == '/' && (y + "/" + l)[|y|] == '/';
      assert SameFamily(ip, x, y) && ip.parsePrefix(x + "/" + l).Some?;
    }
  }

  lemma SwappedPair(ip: NetIP, s: Value, d: Value)
    requires GoodPair(ip, s, d)
    ensures GoodPair(ip, d, s)
  {
  }

  /** The outer layer of a tile, ready to be turned around. */
  predicate GoodOuter(ip: NetIP, l: Lowering, n: Layer) {
    && (TwoEnded(n.props) ==> GoodPair(ip, Field(n, "src").value, Field(n, "dst").value))
    && (l.IPIP? || l.GRE? || l.GRETAP? ==> TailsAgree(n))
  }

  /** A layer the mirror gives an address to carries one with a length when it is turned around. */
  ghost predicate GivenTo(ip: NetIP, n: Layer, given: Option<string>) {
    given.Some? ==>
      && given.value != "" && GoodInner(ip, given.value)
      && (TwoEnded(n.props) ==> ParsePrefix(ip, NewSrc(Field(n, "src").value, Field(n, "dst").value)).Ok?)
  }

  lemma OuterReads(ip: NetIP, n: Layer, m: Layer, given: Option<string>)
    requires LengthLaw(ip) && Opposite(n, m, given) && GivenTo(ip, n, given)
    requires TwoEnded(n.props) && GoodPair(ip, Field(n, "src").value, Field(n, "dst").value)
    ensures Has(m.props, "src") && Has(m.props, "dst")
    ensures ReadEndpoint(ip, n, "src").Ok? ==> ReadEndpoint(ip, m, "src").Ok?
    ensures ReadEndpoint(ip, n, "dst").Ok? ==> ReadEndpoint(ip, m, "dst").Ok?
  {
    var s, d := Field(n, "src").value, Field(n, "dst").value;
    OuterFields(ip, n, m, given);
    hide Opposite, GivenTo, NewSrc, NewDst, GoodPair, ReadEndpoint, ReadsAsEnd, Holds;
    EndReads(ip, n, "src");
    EndReads(ip, n, "dst");
    EndReads(ip, m, "src");
    EndReads(ip, m, "dst");
    SwappedPair(ip, s, d);
    if ReadsAsEnd(ip, s) { MovedEndReads(ip, s, d); }
    if ReadsAsEnd(ip, d) { MovedEndReads(ip, d, s); }
  }

  lemma OuterFields(ip: NetIP, n: Layer, m: Layer, given: Option<string>)
    requires Opposite(n, m, given) && GivenTo(ip, n, given) && TwoEnded(n.props)
    ensures var s, d := Field(n, "src").value, Field(n, "dst").value;
            && Field(m, "dst") == Some(NewSrc(d, s)) && Has(m.props, "src")
            && (Field(m, "src") == Some(NewSrc(s, d)) || ReadsAsEnd(ip, Field(m, "src").value))
  {
    PairMirrored(Field(n, "src").value, Field(n, "dst").value);
    hide NewSrc, NewDst;
  }

  /** A point-to-point tunnel whose tails agree is given no address, and its ends read exchanged. */
  lemma TunnelReads(ip: NetIP, n: Layer, m: Layer, given: Option<string>)
    requires PrefixLaw(ip) && SlashLaw(ip) && Opposite(n, m, given) && GivenTo(ip, n, given) && TailsAgree(n)
    requires Endpoints(ip, n).Ok?
    ensures Endpoints(ip, m).Ok?
  {
    var s, d := Field(n, "src").value, Field(n, "dst").value;
    hide AddrOf, LengthOf, Joined, NewSrc, NewDst;
    PairCrosses(ip, s, d);
    PairCrosses(ip, d, s);
    PairMirrored(s, d);
  }

  /** A layer with one end at most reads as it did, or as the address it was given. */
  lemma InnerReads(ip: NetIP, n: Layer, m: Layer, given: Option<string>)
    requires Opposite(n, m, given) && GivenTo(ip, n, given) && !TwoEnded(n.props)
    ensures AddressOf(ip, n).Ok? ==> AddressOf(ip, m).Ok?
    ensures SrcPrefix(ip, n).Ok? && SrcPrefix(ip, n).value.Concrete? ==>
        (SrcPrefix(ip, m).Ok? && SrcPrefix(ip, m).value.Concrete?)
  {
  }

  /** What a shape needs of the layers inside its outer one. */
  ghost predicate ReadsToo(ip: NetIP, n: Layer, m: Layer) {
    && Kin(n, m) && (AddressOf(ip, n).Ok? ==> AddressOf(ip, m).Ok?)
    && (SrcPrefix(ip, n).Ok? && SrcPrefix(ip, n).value.Concrete? ==>
        (SrcPrefix(ip, m).Ok? && SrcPrefix(ip, m).value.Concrete?))
  }

  lemma VXLANReads(ip: NetIP, sp: seq<Layer>, tp: seq<Layer>, given: Option<string>)
    requires LengthLaw(ip) && |sp| == |tp| >= 3 && ReadVXLANFields(ip, sp).Ok?
    requires Opposite(sp[0], tp[0], given) && GivenTo(ip, sp[0], given) && GoodOuter(ip, VXLAN, sp[0])
    requires Kin(sp[1], tp[1]) && Kin(sp[2], tp[2])
    ensures ReadVXLANFields(ip, tp).Ok? && ReadVXLANFields(ip, tp).value.vni == ReadVXLANFields(ip, sp).value.vni
  {
    hide Opposite, Kin, Get, ReadEndpoint, GivenTo, GoodPair;
    FieldsAre(ip, sp);
    KeysKept(sp[1], tp[1]);
    KeysKept(sp[2], tp[2]);
    OuterReads(ip, sp[0], tp[0], given);
    EndReads(ip, tp[0], "src");
    EndReads(ip, tp[0], "dst");
  }

  lemma WireGuardReads(ip: NetIP, sp: seq<Layer>, tp: seq<Layer>, given: Option<string>)
    requires LengthLaw(ip) && |sp| == |tp| >= 4 && ReadWgFields(ip, sp).Ok?
    requires Opposite(sp[0], tp[0], given) && GivenTo(ip, sp[0], given) && GoodOuter(ip, WireGuard, sp[0])
    requires Kin(sp[1], tp[1]) && Kin(sp[2], tp[2]) && ReadsToo(ip, sp[3], tp[3])
    ensures ReadWgFields(ip, tp).Ok?
  {
    KeysKept(sp[1], tp[1]);
    KeysKept(sp[2], tp[2]);
    OneEndReads(ip, sp[0], tp[0], given);
    hide Opposite, Kin, SrcPort, DstPort, PeerName, ReadEndpoint, GivenTo, GoodPair, SrcPrefix;
  }

  lemma OneEndReads(ip: NetIP, n: Layer, m: Layer, given: Option<string>)
    requires LengthLaw(ip) && Opposite(n, m, given) && GivenTo(ip, n, given) && GoodOuter(ip, WireGuard, n)
    requires ReadEndpoint(ip, n, "dst").Ok?
    ensures ReadEndpoint(ip, m, "dst").Ok?
  {
    hide GoodPair;
    if TwoEnded(n.props) { OuterReads(ip, n, m, given); }
  }

  /** If the near end of a shape lowers, so does the far one. */
  ghost predicate AlsoLowers(near: Lowered, far: Lowered) {
    near.ops.Ok? ==> far.ops.Ok?
  }

  lemma AddrAlso(ip: NetIP, n: Layer, m: Layer, dev: string)
    requires ReadsToo(ip, n, m)
    ensures AddrOps(ip, n, dev).Ok? ==> AddrOps(ip, m, dev).Ok?
  {
  }

  lemma IPIPAlso(ip: NetIP, sp: seq<Layer>, tp: seq<Layer>, st: EnvState, given: Option<string>)
    requires PrefixLaw(ip) && SlashLaw(ip) && |sp| == |tp| >= 2 && GoodOuter(ip, IPIP, sp[0])
    requires Opposite(sp[0], tp[0], given) && GivenTo(ip, sp[0], given) && ReadsToo(ip, sp[1], tp[1])
    ensures AlsoLowers(IPIPOps(ip, sp, st), IPIPOps(ip, tp, st))
  {
    hide Endpoints, Allocated, AddrOps, Opposite, GivenTo, TailsAgree, GoodPair, PrefixLaw, SlashLaw, ReadsToo;
    if IPIPOps(ip, sp, st).ops.Ok? {
      TunnelReads(ip, sp[0], tp[0], given);
      AddrAlso(ip, sp[1], tp[1], Allocated(st, "ipip").0.value);
    }
  }

  lemma GREAlso(ip: NetIP, sp: seq<Layer>, tp: seq<Layer>, st: EnvState, given: Option<string>)
    requires PrefixLaw(ip) && SlashLaw(ip) && |sp| == |tp| >= 3 && GoodOuter(ip, GRE, sp[0])
    requires Opposite(sp[0], tp[0], given) && GivenTo(ip, sp[0], given) && Kin(sp[1], tp[1])
        && ReadsToo(ip, sp[2], tp[2])
    ensures AlsoLowers(GREOps(ip, sp, st), GREOps(ip, tp, st))
  {
    hide Endpoints, Allocated, AddrOps, Opposite, GivenTo, TailsAgree, GoodPair, PrefixLaw, SlashLaw, ReadsToo, Kin,
        TunnelKey;
    if GREOps(ip, sp, st).ops.Ok? {
      TunnelReads(ip, sp[0], tp[0], given);
      KeysKept(sp[1], tp[1]);
      AddrAlso(ip, sp[2], tp[2], Allocated(st, "gre").0.value);
    }
  }

  lemma GRETAPAlso(ip: NetIP, sp: seq<Layer>, tp: seq<Layer>, st: EnvState, given: Option<string>)
    requires PrefixLaw(ip) && SlashLaw(ip) && |sp| == |tp| >= 3 && GoodOuter(ip, GRETAP, sp[0])
    requires Opposite(sp[0], tp[0], given) && GivenTo(ip, sp[0], given) && Kin(sp[1], tp[1])
    ensures AlsoLowers(GRETAPOps(ip, sp, st), GRETAPOps(ip, tp, st))
  {
    hide Endpoints, Allocated, Opposite, GivenTo, TailsAgree, GoodPair, PrefixLaw, SlashLaw, Kin, TunnelKey;
    if GRETAPOps(ip, sp, st).ops.Ok? {
      TunnelReads(ip, sp[0], tp[0], given);
      KeysKept(sp[1], tp[1]);
    }
  }

  lemma VXLANAlso(ip: NetIP, sp: seq<Layer>, tp: seq<Layer>, st: EnvState, given: Option<string>)
    requires LengthLaw(ip) && |sp| == |tp| >= 3 && GoodOuter(ip, VXLAN, sp[0])
    requires Opposite(sp[0], tp[0], given) && GivenTo(ip, sp[0], given) && Kin(sp[1], tp[1]) && Kin(sp[2], tp[2])
    ensures AlsoLowers(VXLANOps(ip, sp, st), VXLANOps(ip, tp, st))
  {
    hide ReadVXLANFields, VxlanName, Opposite, GivenTo, GoodOuter, LengthLaw, Kin;
    if VXLANOps(ip, sp, st).ops.Ok? {
      VXLANReads(ip, sp, tp, given);
    }
  }

  lemma WireGuardAlso(ip: NetIP, sp: seq<Layer>, tp: seq<Layer>, st: EnvState, given: Option<string>)
    requires LengthLaw(ip) && |sp| == |tp| >= 4 && GoodOuter(ip, WireGuard, sp[0])
    requires Opposite(sp[0], tp[0], given) && GivenTo(ip, sp[0], given)
    requires Kin(sp[1], tp[1]) && Kin(sp[2], tp[2]) && ReadsToo(ip, sp[3], tp[3])
    ensures AlsoLowers(WireGuardOps(ip, sp, st), WireGuardOps(ip, tp, st))
  {
    hide ReadWgFields, Allocated, AddrOps, Opposite, GivenTo, GoodOuter, LengthLaw, Kin, ReadsToo;
    if WireGuardOps(ip, sp, st).ops.Ok? {
      WireGuardReads(ip, sp, tp, given);
      AddrAlso(ip, sp[3], tp[3], Allocated(st, "wg").0.value);
    }
  }

  lemma ShapeAlso(ip: NetIP, l: Lowering, sp: seq<Layer>, tp: seq<Layer>, st: EnvState, given: Option<string>)
    requires PrefixLaw(ip) && SlashLaw(ip) && LengthLaw(ip) && IsShape(l) && |sp| == |tp| >= Arity(l)
    requires Opposite(sp[0], tp[0], given) && GivenTo(ip, sp[0], given) && GoodOuter(ip, l, sp[0])
    requires forall k :: 0 < k < |sp| ==> ReadsToo(ip, sp[k], tp[k])
    ensures AlsoLowers(Lower(ip, l, sp, st), Lower(ip, l, tp, st))
  {
    assert forall k :: 0 < k < |sp| ==> Kin(sp[k], tp[k]);
    hide IPIPOps, GREOps, GRETAPOps, VXLANOps, VLANOps, WireGuardOps, Opposite, Kin, ReadsToo, GivenTo, GoodOuter,
        AlsoLowers;
    match l
    case IPIP => IPIPAlso(ip, sp, tp, st, given);
    case GRE => GREAlso(ip, sp, tp, st, given);
    case GRETAP => GRETAPAlso(ip, sp, tp, st, given);
    case VXLAN => VXLANAlso(ip, sp, tp, st, given);
    case VLAN => VLANAlso(sp, tp, st);
    case WireGuard => WireGuardAlso(ip, sp, tp, st, given);
  }

  lemma VLANAlso(sp: seq<Layer>, tp: seq<Layer>, st: EnvState)
    requires |sp| == |tp| >= 2 && Kin(sp[1], tp[1])
    ensures AlsoLowers(VLANOps(sp, st), VLANOps(tp, st))
  {
    hide VLANOps, Kin;
    KeysKept(sp[1], tp[1]);
    SameVLAN(sp, tp, st);
  }

  /** Only outer layers of tiles name two ends, and those are ready to be turned around. */
  ghost predicate WellEnded(ip: NetIP, chain: seq<Tile>, layers: seq<Layer>, i: nat)
    decreases chain
  {
    if chain == [] then i < |layers| ==> !TwoEnded(layers[i].props)
    else
      && Next(i, chain[0]) <= |layers| && i < |layers| && GoodOuter(ip, chain[0].lower, layers[i])
      && (forall k :: i < k < Next(i, chain[0]) ==> !TwoEnded(layers[k].props))
      && WellEnded(ip, chain[1..], layers, Next(i, chain[0]))
  }

  /** The layer given the address is one the mirror looked at after turning it around. */
  lemma GivenWasAddressed(ip: NetIP, layers: seq<Layer>, b: string, i: nat)
    requires i < |layers| && b != "" && GoodInner(ip, b)
    ensures GivenTo(ip, layers[i], Given(ip, layers, b, i))
  {
    if Innermost(ip, SwapAll(layers)) == Some(i) && TwoEnded(layers[i].props) {
      SwappedEnds(layers[i].props);
      hide Exchanged, NewSrc;
      assert SwapAll(layers)[i] == SwapLayer(layers[i]);
    }
  }

  lemma InnerAlso(ip: NetIP, sp: seq<Layer>, tp: seq<Layer>, b: string, k: nat)
    requires sp != [] && PeerLayers(ip, sp, b) == Ok(tp) && b != "" && k < |sp| && !TwoEnded(sp[k].props)
    ensures ReadsToo(ip, sp[k], tp[k])
  {
    hide PeerLayers, Given, AddressOf, SrcPrefix, Holds;
    PeerIsKin(ip, sp, tp, b);
    PeerLayerIsOpposite(ip, sp, b, k);
    GivenWasAddressed(ip, sp, b, k);
    hide GivenTo;
    InnerReads(ip, sp[k], tp[k], Given(ip, sp, b, k));
  }

  lemma HeadAlso(ip: NetIP, l: Lowering, sp: seq<Layer>, tp: seq<Layer>, i: nat, n: nat, st: EnvState, b: string)
    requires PrefixLaw(ip) && SlashLaw(ip) && LengthLaw(ip) && IsShape(l) && i < n <= |sp| && n - i >= Arity(l)
    requires PeerLayers(ip, sp, b) == Ok(tp) && b != "" && GoodOuter(ip, l, sp[i])
    requires forall k :: i < k < n ==> !TwoEnded(sp[k].props)
    ensures AlsoLowers(Lower(ip, l, sp[i..n], st), Lower(ip, l, tp[i..n], st))
  {
    hide Lower, AlsoLowers, Opposite, PeerLayers, Given, PrefixLaw, SlashLaw, LengthLaw, GoodOuter, ReadsToo,
        GivenTo, SameNames;
    PeerIsKin(ip, sp, tp, b);
    PeerLayerIsOpposite(ip, sp, b, i);
    GivenWasAddressed(ip, sp, b, i);
    var sub, tub := sp[i..n], tp[i..n];
    forall k | 0 < k < |sub| ensures ReadsToo(ip, sub[k], tub[k]) {
      InnerAlso(ip, sp, tp, b, i + k);
    }
    ShapeAlso(ip, l, sub, tub, st, Given(ip, sp, b, i));
  }

  lemma {:induction false} ChainAlso(ip: NetIP, tiles: seq<Tile>, chain: seq<Tile>, sp: seq<Layer>, tp: seq<Layer>,
                                     i: nat, st: EnvState, b: string)
    requires AllUsable(tiles) && AllShapes(tiles) && PrefixLaw(ip) && SlashLaw(ip) && LengthLaw(ip)
    requires sp != [] && PeerLayers(ip, sp, b) == Ok(tp) && b != "" && WellEnded(ip, chain, sp, i)
    requires Chain(tiles, sp, i, chain) && Chain(tiles, tp, i, chain) && LowerChain(ip, tiles, chain, sp, i, st).ops.Ok?
    ensures LowerChain(ip, tiles, chain, tp, i, st).ops.Ok?
    ensures LowerChain(ip, tiles, chain, tp, i, st).env == LowerChain(ip, tiles, chain, sp, i, st).env
    ensures End(i, chain) <= |sp| && (End(i, chain) < |sp| ==> !TwoEnded(sp[End(i, chain)].props))
    decreases chain
  {
    if chain != [] {
      hide Lower, Matches, Matched, Arity, PeerLayers, GoodOuter, PrefixLaw, SlashLaw, LengthLaw, Reversible, Given;
      var n := Next(i, chain[0]);
      var first := ChainHead(ip, tiles, chain, sp, i, st);
      HeadAlso(ip, chain[0].lower, sp, tp, i, n, st, b);
      var first' := Lower(ip, chain[0].lower, tp[i..n], st);
      HeadMatched(ip, chain[0].lower, sp, tp, i, n, st, b);
      SameEnv(first, first', Reversible(ip, chain[0].lower, sp[i], Given(ip, sp, b, i)));
      ChainAlso(ip, tiles, chain[1..], sp, tp, n, first.env, b);
    }
  }

  lemma TerminalAlso(ip: NetIP, sp: seq<Layer>, tp: seq<Layer>, i: nat, dev: string)
    requires |tp| == |sp| && i <= |sp| && (i < |sp| ==> ReadsToo(ip, sp[i], tp[i]))
    ensures Terminal(ip, sp[i..], dev).Ok? ==> Terminal(ip, tp[i..], dev).Ok?
  {
    hide AddressOf;
    if i < |sp| {
      assert sp[i..][0] == sp[i] && tp[i..][0] == tp[i];
    }
  }

  /**
   When only the outer layers of its tiles name two ends, those are as people write them and of one family,
   and an inner address is supplied, a spine that can be covered has a mirror image that can.
   */
  lemma {:induction false} FarEndLowers(ip: NetIP, tiles: seq<Tile>, layers: seq<Layer>, b: string, st: EnvState)
    requires AllUsable(tiles) && AllShapes(tiles) && Unguarded(tiles) && PrefixLaw(ip) && SlashLaw(ip) && LengthLaw(ip)
    requires layers != [] && PeerLayers(ip, layers, b).Ok? && b != ""
    requires WellEnded(ip, Greedy(tiles, layers, 0), layers, 0) && Cover(ip, tiles, layers, st).0.Ok?
    ensures Cover(ip, tiles, PeerLayers(ip, layers, b).value, st).0.Ok?
  {
    hide AllUsable, AllShapes, PeerLayers, Greedy, SameNames, Chain, Matched, LowerChain, PrefixLaw, SlashLaw,
         LengthLaw, Terminal, BringUp, WellEnded, Unguarded;
    var peer := PeerLayers(ip, layers, b).value;
    var chain := Greedy(tiles, layers, 0);
    PeerIsKin(ip, layers, peer, b);
    assert |peer| == |layers|;
    SameTilesApplied(tiles, layers, peer, 0);
    GreedyIsChain(tiles, layers, 0);
    GreedyIsChain(tiles, peer, 0);
    ChainAlso(ip, tiles, chain, layers, peer, 0, st, b);
    var n := End(0, chain);
    if n < |layers| { InnerAlso(ip, layers, peer, b, n); }
    TerminalAlso(ip, layers, peer, n, LowerChain(ip, tiles, chain, layers, 0, st).env.dev);
  }

  /** An ordinary spine whose tiles are well ended is mirrored into the other ends of its tunnels. */
  lemma {:induction false} FarEndFaces(ip: NetIP, tiles: seq<Tile>, layers: seq<Layer>, b: string, st: EnvState)
    requires AllUsable(tiles) && AllShapes(tiles) && Unguarded(tiles) && PrefixLaw(ip) && SlashLaw(ip) && LengthLaw(ip)
    requires layers != [] && PeerLayers(ip, layers, b).Ok? && b != "" && Ordinary(ip, layers)
    requires WellEnded(ip, Greedy(tiles, layers, 0), layers, 0) && Cover(ip, tiles, layers, st).0.Ok?
    ensures var near, far := Cover(ip, tiles, layers, st), Cover(ip, tiles, PeerLayers(ip, layers, b).value, st);
            && far.0.Ok? && far.0.value.applied == near.0.value.applied && far.1 == near.1
            && AllAlike(Added(near.0.value.ops), Added(far.0.value.ops))
            && AllFacing(Added(near.0.value.ops), Added(far.0.value.ops))
  {
    hide AllUsable, AllShapes, PeerLayers, Greedy, Chain, LowerChain, PrefixLaw, SlashLaw, LengthLaw, WellEnded,
         Unguarded, Ordinary, Cover, AllAlike, AllFacing, AllReversible, Added;
    FarEndLowers(ip, tiles, layers, b, st);
    NearFarSymmetry(ip, tiles, layers, b, st);
    GreedyIsChain(tiles, layers, 0);
    CoverAdds(ip, tiles, layers, st);
    OrdinaryIsReversible(ip, tiles, Greedy(tiles, layers, 0), layers, 0, b, st);
  }
}
