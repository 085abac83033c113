/** Concrete stacks on both sides of the conditions of the symmetry, read by any library or by the sample one. */
module Examples {
  import opened Basics
  import opened Decimal
  import opened Sexp
  import opened Ast
  import opened Netip
  import opened Props
  import opened Env
  import opened Linux
  import opened Tile
  import opened Safety
  import opened Selection
  import opened Mirror
  import opened Involution
  import opened Said
  import opened Symmetry
  import opened FarEnd

  // ---------------------------------------------------------------- covers of one tile

  lemma OnlyTile(t: Tile, sp: seq<Layer>)
    requires t in Shipped() && Matches(t, sp, 0) && |sp| <= |t.pattern| + 1
    ensures AllUsable(Shipped()) && Greedy(Shipped(), sp, 0) == [t]
  {
    ShippedPrefixFree();
    var tiles := Shipped();
    assert Usable(t);
    MatchesAtIs(tiles, sp, 0);
    var u, rest := GreedyStep(tiles, sp, 0);
    hide Greedy;
    SamePattern(t, u, sp);
    MatchesAtIs(tiles, sp, Next(0, t));
    NothingShort(sp, Next(0, t));
    GreedyEnds(tiles, sp, Next(0, t));
  }

  /** At most one shipped tile matches at a place. */
  lemma SamePattern(t: Tile, u: Tile, sp: seq<Layer>)
    requires t in Shipped() && u in Shipped() && Matches(t, sp, 0) && Matches(u, sp, 0)
    ensures t == u
  {
    ShippedPrefixFree();
    if |t.pattern| <= |u.pattern| { ShorterIsPrefix(t, u, sp, 0); } else { ShorterIsPrefix(u, t, sp, 0); }
    var i, j :| 0 <= i < 6 && 0 <= j < 6 && t == Shipped()[i] && u == Shipped()[j];
    if i != j { ShippedTold(i, j); }
  }

  /** No shipped tile takes fewer than two layers. */
  lemma NothingShort(sp: seq<Layer>, i: nat)
    requires |sp| <= i + 1
    ensures MatchesAt(Shipped(), sp, i) == []
  {
    NoneMatches(Shipped(), sp, i);
  }

  lemma {:induction false} NoneMatches(tiles: seq<Tile>, sp: seq<Layer>, i: nat)
    requires |sp| <= i + 1 && forall k :: 0 <= k < |tiles| ==> |tiles[k].pattern| >= 2
    ensures MatchesAt(tiles, sp, i) == []
  {
    if tiles != [] { NoneMatches(tiles[1..], sp, i); }
  }

  /** A spine of one tile and at most one more layer is covered when the tile lowers and that layer's address reads. */
  lemma OneTileCovers(ip: NetIP, t: Tile, sp: seq<Layer>, st: EnvState)
    requires t in Shipped() && Usable(t) && Matches(t, sp, 0) && |sp| <= |t.pattern| + 1
    requires Lower(ip, t.lower, sp[..|t.pattern|], st).ops.Ok?
    requires |sp| > |t.pattern| ==> AddressOf(ip, sp[|t.pattern|]).Ok?
    ensures AllUsable(Shipped()) && sp != [] && Greedy(Shipped(), sp, 0) == [t] && Cover(ip, Shipped(), sp, st).0.Ok?
  {
    hide Greedy, Lower, Matches, Shipped, BringUp, AddressOf;
    OnlyTile(t, sp);
    GreedyIsChain(Shipped(), sp, 0);
    var chain := [t];
    assert chain[0] == t && chain[1..] == [];
    assert LowerChain(ip, Shipped(), chain, sp, 0, st).ops.Ok?;
    assert End(0, chain) == |t.pattern|;
  }

  // ---------------------------------------------------------------- VXLAN stacks

  function Here(): Pos { Pos(1, 1) }

  function TextProp(key: string, text: string): Prop {
    Prop(key, Atom(Text, text, Here()), Here())
  }

  function NumberProp(key: string, text: string): Prop {
    Prop(key, Atom(Number, text, Here()), Here())
  }

  /** Ethernet in VXLAN 100 over UDP 4789 between two ends, and an address inside if there is one. */
  function VXLANStack(s: string, d: string, inner: Option<string>): seq<Layer> {
    [Layer("ipv4", [TextProp("src", s), TextProp("dst", d)], Here()),
     Layer("udp", [NumberProp("dst-port", "4789")], Here()),
     Layer("vxlan", [NumberProp("vni", "100")], Here()),
     Layer("ethernet", [], Here())]
    + match inner case None => [] case Some(a) => [Layer("ipv4", [TextProp("src", a)], Here())]
  }

  lemma Denoted()
    ensures IsNumeral("4789", 10) && Denotes("4789", 10) == 4789 && IsNumeral("100", 10) && Denotes("100", 10) == 100
  {
    assert Denotes("4", 10) == 4 by { assert "4"[..0] == ""; }
    assert Denotes("47", 10) == 47 by { assert "47"[..1] == "4"; }
    assert Denotes("478", 10) == 478 by { assert "478"[..2] == "47"; }
    assert Denotes("4789", 10) == 4789 by { assert "4789"[..3] == "478"; }
    assert Denotes("1", 10) == 1 by { assert "1"[..0] == ""; }
    assert Denotes("10", 10) == 10 by { assert "10"[..1] == "1"; }
    assert Denotes("100", 10) == 100 by { assert "100"[..2] == "10"; }
  }

  lemma Port()
    ensures ParseU16(Atom(Number, "4789", Here())) == Ok(4789)
  {
    Denoted();
    Powers();
    assert "4789"[0] == '4' && "100"[0] == '1';
    hide Denotes, Pow2, IsNumeral;
  }

  lemma Id()
    ensures ParseVNI(Atom(Number, "100", Here())) == Ok(100)
  {
    Denoted();
    Powers();
    assert "4789"[0] == '4' && "100"[0] == '1';
    hide Denotes, Pow2, IsNumeral;
  }

  lemma Named100()
    ensures Numbered("vxlan", 100) == "vxlan100"
  {
    assert Dec(1) == "1";
    assert Dec(10) == "10";
    assert Dec(100) == "100";
  }

  lemma NameIsGood()
    ensures NameFault("vxlan100") == None && "vxlan100" != "eth0"
  {
    var name := "vxlan100";
    assert |name| == 8 && ' ' !in name && '/' !in name && '\t' !in name && '\n' !in name;
  }

  /** The name of the device is free on a machine that has only eth0. */
  lemma NameIsFree()
    ensures VxlanName(Some(100), Fresh("eth0")).0 == Ok("vxlan100")
  {
    hide NameFault, Numbered;
    Named100();
    NameIsGood();
  }

  lemma StackReads(s: string, d: string, inner: Option<string>)
    ensures var sp := VXLANStack(s, d, inner);
            && Field(sp[0], "src") == Some(Atom(Text, s, Here())) && Field(sp[0], "dst") == Some(Atom(Text, d, Here()))
            && VNI(sp[2]) == Ok(Concrete(100, Here())) && DstPort(sp[1]) == Ok(Concrete(4789, Here()))
            && Matches(Shipped()[3], sp, 0) && Shipped()[3].lower == VXLAN && |Shipped()[3].pattern| == 4
  {
    var sp := VXLANStack(s, d, inner);
    assert Lookup(sp[0].props[1..], "dst") == Some(sp[0].props[1]);
    StackNames(sp);
    hide Matches, Shipped, ParseU16, ParseVNI;
    Port();
    Id();
  }

  lemma StackNames(sp: seq<Layer>)
    requires |sp| >= 4 && sp[0].name == "ipv4" && sp[1].name == "udp" && sp[2].name == "vxlan"
        && sp[3].name == "ethernet"
    ensures Matches(Shipped()[3], sp, 0) && Shipped()[3].lower == VXLAN && |Shipped()[3].pattern| == 4
  {
  }

  /** Such a stack is covered whenever its ends and its inner address read. */
  lemma StackCovers(ip: NetIP, s: string, d: string, inner: Option<string>)
    requires ReadsAsEnd(ip, Atom(Text, s, Here())) && ReadsAsEnd(ip, Atom(Text, d, Here()))
    requires inner.Some? ==> ParsePrefix(ip, Atom(Text, inner.value, Here())).Ok?
    ensures var sp := VXLANStack(s, d, inner);
            && AllUsable(Shipped()) && Greedy(Shipped(), sp, 0) == [Shipped()[3]]
            && Cover(ip, Shipped(), sp, Fresh("eth0")).0.Ok?
  {
    hide Shipped, Matches, Greedy, ReadsAsEnd, VXLANOps, VXLANStack, AddressOf, ParsePrefix;
    var sp := VXLANStack(s, d, inner);
    StackReads(s, d, inner);
    StackLowers(ip, s, d, inner);
    StackInner(ip, s, d, inner);
    ShippedUsable();
    assert Shipped()[3] in Shipped();
    OneTileCovers(ip, Shipped()[3], sp, Fresh("eth0"));
  }

  lemma StackInner(ip: NetIP, s: string, d: string, inner: Option<string>)
    requires inner.Some? ==> ParsePrefix(ip, Atom(Text, inner.value, Here())).Ok?
    ensures var sp := VXLANStack(s, d, inner);
            |sp| == (if inner == None then 4 else 5) && (inner.Some? ==> AddressOf(ip, sp[4]).Ok?)
  {
  }

  lemma StackLowers(ip: NetIP, s: string, d: string, inner: Option<string>)
    requires ReadsAsEnd(ip, Atom(Text, s, Here())) && ReadsAsEnd(ip, Atom(Text, d, Here()))
    ensures VXLANOps(ip, VXLANStack(s, d, inner)[..4], Fresh("eth0")).ops.Ok?
  {
    hide VXLANStack, ReadEndpoint, VNI, DstPort, ReadsAsEnd, VxlanName, VxlanLink, UnderlayOps;
    var sp := VXLANStack(s, d, inner);
    StackReads(s, d, inner);
    StackSize(s, d, inner);
    EndReads(ip, sp[0], "src");
    EndReads(ip, sp[0], "dst");
    NameIsFree();
  }

  lemma StackSize(s: string, d: string, inner: Option<string>)
    ensures |VXLANStack(s, d, inner)| >= 4
  {
  }

  function T(text: string): Value {
    Atom(Text, text, Here())
  }

  /** What the sample library makes of an address without a slash. */
  lemma BareText(x: string)
    requires x != "" && '/' !in x
    ensures SampleAddr(x).Some? && SampleAddr(x).value.text == x && SampleAddr(x).value.multicast == ("239." <= x)
    ensures SplitPrefix(T(x)) == (x, "") && ReadsAsEnd(Sample(), T(x))
  {
    assert x[..|x|] == x;
  }

  /** And of one with a length. */
  lemma SlashedText(x: string, l: string)
    requires x != "" && '/' !in x && '%' !in x
    ensures SamplePrefix(x + "/" + l).Some? && SamplePrefix(x + "/" + l).value.addr.text == x
    ensures SplitPrefix(T(x + "/" + l)) == (x, l) && ReadsAsEnd(Sample(), T(x + "/" + l))
    ensures x + "/" + l != "" && '/' in x + "/" + l && ParsePrefix(Sample(), T(x + "/" + l)).Ok?
  {
    IndexOfAppend(x, l, '/');
    assert x + "/" + l == x + ['/'] + l;
    assert (x + "/" + l)[..|x|] == x && (x + "/" + l)[|x| + 1..] == l;
  }

  lemma StackSwaps(s: string, d: string, inner: Option<string>, s1: string, d1: string)
    requires NewSrc(T(s), T(d)) == T(s1) && NewDst(T(s), T(d)) == T(d1)
    ensures SwapAll(VXLANStack(s, d, inner)) == VXLANStack(s1, d1, inner) && TwoEnded(VXLANStack(s, d, inner)[0].props)
  {
    var sp := VXLANStack(s, d, inner);
    hide NewSrc, NewDst, RedirectAll;
    StackEnds(s, d);
    assert TwoEnded(sp[0].props);
    assert SwapLayer(sp[0]) == VXLANStack(s1, d1, inner)[0];
    assert !TwoEnded(sp[1].props) && !TwoEnded(sp[2].props) && !TwoEnded(sp[3].props);
    assert inner.Some? ==> !TwoEnded(sp[4].props);
  }

  /** Redirecting the two properties of an outer layer. */
  lemma StackEnds(s: string, d: string)
    ensures var props := [TextProp("src", s), TextProp("dst", d)];
            && Lookup(props, "src") == Some(props[0]) && Lookup(props, "dst") == Some(props[1])
            && forall v, w :: RedirectAll(props, v, w) == [props[0].(val := v), props[1].(val := w)]
  {
    var props := [TextProp("src", s), TextProp("dst", d)];
    assert props[1..] == [props[1]] && props[1..][1..] == [];
    assert Lookup(props[1..], "dst") == Some(props[1]);
    forall v, w ensures RedirectAll(props, v, w) == [props[0].(val := v), props[1].(val := w)] {
      assert RedirectAll(props[1..][1..], v, w) == [];
      assert RedirectAll(props[1..], v, w) == [props[1].(val := w)];
    }
  }

  lemma PeerIs(ip: NetIP, layers: seq<Layer>, b: string, k: nat)
    requires layers != [] && TwoEnded(layers[0].props) && b != "" && ParsePrefix(ip, T(b)).Ok?
    requires Innermost(ip, SwapAll(layers)) == Some(k)
    ensures k < |layers| && PeerLayers(ip, layers, b) == Ok(SwapAll(layers)[k := Readdressed(SwapAll(layers)[k], b)])
  {
    assert GoodInner(ip, b);
    hide SwapAll, Innermost, Readdressed, TwoEnded;
  }

  /** A stack with an inner address: the ends are exchanged, and the inner layer gets the given address. */
  lemma StackMirrors(ip: NetIP, s: string, d: string, a: string, b: string, s1: string, d1: string)
    requires NewSrc(T(s), T(d)) == T(s1) && NewDst(T(s), T(d)) == T(d1) && b != ""
    requires ParsePrefix(ip, T(a)).Ok? && ParsePrefix(ip, T(b)).Ok?
    ensures PeerLayers(ip, VXLANStack(s, d, Some(a)), b) == Ok(VXLANStack(s1, d1, Some(b)))
  {
    hide VXLANStack, PeerLayers, NewSrc, NewDst, ParsePrefix;
    StackSwaps(s, d, Some(a), s1, d1);
    InnerGiven(ip, s1, d1, a, b);
    StackSize(s, d, Some(a));
    PeerIs(ip, VXLANStack(s, d, Some(a)), b, 4);
  }

  lemma InnerGiven(ip: NetIP, s: string, d: string, a: string, b: string)
    requires b != "" && ParsePrefix(ip, T(a)).Ok?
    ensures var far := VXLANStack(s, d, Some(a));
            && |far| == 5 && Innermost(ip, far) == Some(4)
            && far[4 := Readdressed(far[4], b)] == VXLANStack(s, d, Some(b))
  {
    var far := VXLANStack(s, d, Some(a));
    assert Addressed(ip, far[4]);
    assert Readdressed(far[4], b) == VXLANStack(s, d, Some(b))[4];
  }

  /** A stack whose outer layer carries the only address: the given one becomes the tunnel's end. */
  lemma BareStackMirrors(ip: NetIP, s: string, d: string, b: string, s1: string, d1: string)
    requires NewSrc(T(s), T(d)) == T(s1) && NewDst(T(s), T(d)) == T(d1) && b != ""
    requires ParsePrefix(ip, T(s1)).Ok? && ParsePrefix(ip, T(b)).Ok?
    ensures PeerLayers(ip, VXLANStack(s, d, None), b) == Ok(VXLANStack(b, d1, None))
    ensures Innermost(ip, SwapAll(VXLANStack(s, d, None))) == Some(0)
  {
    hide VXLANStack, PeerLayers, NewSrc, NewDst, ParsePrefix;
    StackSwaps(s, d, None, s1, d1);
    OuterGiven(ip, s1, d1, b);
    StackSize(s, d, None);
    PeerIs(ip, VXLANStack(s, d, None), b, 0);
  }

  lemma OuterGiven(ip: NetIP, s: string, d: string, b: string)
    requires b != "" && ParsePrefix(ip, T(s)).Ok?
    ensures var far := VXLANStack(s, d, None);
            && |far| == 4 && Innermost(ip, far) == Some(0)
            && far[0 := Readdressed(far[0], b)] == VXLANStack(b, d, None)
  {
    var far := VXLANStack(s, d, None);
    OuterReaddressed(s, d, b);
    assert Addressed(ip, far[0]) && forall k :: 0 < k < |far| ==> !Addressed(ip, far[k]);
    FirstIsInnermost(ip, far);
    hide Addressed, Readdressed, Innermost;
  }

  lemma OuterReaddressed(s: string, d: string, b: string)
    requires b != ""
    ensures Readdressed(VXLANStack(s, d, None)[0], b) == VXLANStack(b, d, None)[0]
    ensures Field(VXLANStack(s, d, None)[0], "src") == Some(T(s))
  {
    var props := [TextProp("src", s), TextProp("dst", d)];
    assert WithProp(props, "src", b, Here()) == [TextProp("src", b)] + props[1..];
    assert [TextProp("src", b)] + props[1..] == [TextProp("src", b), TextProp("dst", d)];
  }

  lemma {:induction false} FirstIsInnermost(ip: NetIP, layers: seq<Layer>)
    requires layers != [] && Addressed(ip, layers[0]) && forall k :: 0 < k < |layers| ==> !Addressed(ip, layers[k])
    ensures Innermost(ip, layers) == Some(0)
  {
    if |layers| > 1 { FirstIsInnermost(ip, layers[..|layers| - 1]); }
  }

  // ---------------------------------------------------------------- three inputs

  /** Both ends of a spine are covered, and their devices do not face each other. */
  ghost predicate BothCoveredNotFacing(ip: NetIP, near: seq<Layer>, far: seq<Layer>, st: EnvState)
    requires AllUsable(Shipped()) && near != [] && far != []
  {
    && Cover(ip, Shipped(), near, st).0.Ok? && Cover(ip, Shipped(), far, st).0.Ok?
    && !AllFacing(Added(Cover(ip, Shipped(), near, st).0.value.ops), Added(Cover(ip, Shipped(), far, st).0.value.ops))
  }

  lemma NotReversible(ip: NetIP, near: seq<Layer>, far: seq<Layer>, b: string, st: EnvState, t: Tile)
    requires PrefixLaw(ip) && SlashLaw(ip) && near != [] && PeerLayers(ip, near, b) == Ok(far)
    requires AllUsable(Shipped()) && Greedy(Shipped(), near, 0) == [t]
    requires far != [] && Cover(ip, Shipped(), near, st).0.Ok? && Cover(ip, Shipped(), far, st).0.Ok?
    requires !Reversible(ip, t.lower, near[0], Given(ip, near, b, 0))
    ensures BothCoveredNotFacing(ip, near, far, st)
  {
    hide Cover, AllFacing, AllAlike, Reversible, PrefixLaw, SlashLaw, PeerLayers, Given, Greedy, Shipped;
    ShippedShapes();
    UnguardedShipped();
    NearFarSymmetry(ip, Shipped(), near, b, st);
    assert [t][0] == t;
  }

  lemma UnguardedShipped()
    ensures Unguarded(Shipped())
  {
  }

  /** The far end of a stack whose destination is a group would have the group for its own address. */
  lemma {:induction false} GroupIsNoPeer()
    ensures PrefixLaw(Sample()) && SlashLaw(Sample()) && AllUsable(Shipped())
    ensures var near := VXLANStack("192.168.1.10", "239.1.1.1", Some("10.100.0.1/24"));
            var far := VXLANStack("239.1.1.1", "192.168.1.10", Some("10.100.0.2/24"));
            && PeerLayers(Sample(), near, "10.100.0.2/24") == Ok(far)
            && BothCoveredNotFacing(Sample(), near, far, Fresh("eth0"))
  {
    hide VXLANStack, PeerLayers, Cover, Greedy, AllUsable, ParsePrefix, ReadsAsEnd, SampleAddr, BothCoveredNotFacing;
    var x, g := "192.168.1.10", "239.1.1.1";
    LawsCanHold();
    Inside("10.100.0.1", "10.100.0.1/24");
    Inside("10.100.0.2", "10.100.0.2/24");
    BareText(x);
    BareText(g);
    BarePair(x, g);
    StackMirrors(Sample(), x, g, "10.100.0.1/24", "10.100.0.2/24", g, x);
    StackCovers(Sample(), x, g, Some("10.100.0.1/24"));
    StackCovers(Sample(), g, x, Some("10.100.0.2/24"));
    StackSize(x, g, Some("10.100.0.1/24"));
    StackSize(g, x, Some("10.100.0.2/24"));
    GroupOuter(x, g, Some("10.100.0.1/24"));
    NotReversible(Sample(), VXLANStack(x, g, Some("10.100.0.1/24")), VXLANStack(g, x, Some("10.100.0.2/24")),
                  "10.100.0.2/24", Fresh("eth0"), Shipped()[3]);
  }

  lemma Inside(x: string, text: string)
    requires x != "" && '/' !in x && '%' !in x && text == x + "/" + "24"
    ensures ParsePrefix(Sample(), T(text)).Ok? && text != ""
  {
    SlashedText(x, "24");
  }

  lemma BarePair(x: string, y: string)
    requires x != "" && '/' !in x && y != "" && '/' !in y
    ensures NewSrc(T(x), T(y)) == T(y) && NewDst(T(x), T(y)) == T(x)
  {
    BareText(x);
    BareText(y);
  }

  lemma GroupOuter(s: string, g: string, inner: Option<string>)
    requires "239." <= g && '/' !in g
    ensures GroupEnd(Sample(), VXLANStack(s, g, inner)[0], "dst")
    ensures Shipped()[3].lower == VXLAN
    ensures forall given :: !Reversible(Sample(), Shipped()[3].lower, VXLANStack(s, g, inner)[0], given)
  {
    StackReads(s, g, inner);
    BareText(g);
  }

  /** Where the outer layer carries the innermost address, the address given for it becomes the tunnel's end. */
  lemma {:induction false} OverwrittenEnd()
    ensures PrefixLaw(Sample()) && SlashLaw(Sample()) && AllUsable(Shipped())
    ensures var near := VXLANStack("10.100.0.1/24", "10.100.0.2", None);
            var far := VXLANStack("10.100.0.9/24", "10.100.0.1", None);
            && PeerLayers(Sample(), near, "10.100.0.9/24") == Ok(far)
            && BothCoveredNotFacing(Sample(), near, far, Fresh("eth0"))
  {
    hide VXLANStack, PeerLayers, BothCoveredNotFacing, PrefixLaw, SlashLaw, AllUsable, Shipped, Sample;
    assert "10.100.0.1/24" == "10.100.0.1" + "/" + "24" && "10.100.0.9/24" == "10.100.0.9" + "/" + "24";
    assert "10.100.0.9"[9] == '9' && "10.100.0.2"[9] == '2';
    AnotherEnd("10.100.0.1", "10.100.0.2", "10.100.0.9", "24", "10.100.0.1/24", "10.100.0.9/24");
  }

  /** Nor does such a stack come back: mirrored with another address and then with its own, it sends to the other. */
  lemma {:induction false} OverwrittenStaysLost()
    ensures var near := VXLANStack("10.100.0.1/24", "10.100.0.2", None);
            var far := VXLANStack("10.100.0.9/24", "10.100.0.1", None);
            var back := VXLANStack("10.100.0.1/24", "10.100.0.9", None);
            && PeerLayers(Sample(), near, "10.100.0.9/24") == Ok(far)
            && PeerLayers(Sample(), far, "10.100.0.1/24") == Ok(back)
            && NormLayers(back) != NormLayers(near)
  {
    hide VXLANStack, PeerLayers, Sample, NormLayers;
    assert "10.100.0.1/24" == "10.100.0.1" + "/" + "24" && "10.100.0.9/24" == "10.100.0.9" + "/" + "24";
    assert "10.100.0.9"[9] == '9' && "10.100.0.2"[9] == '2';
    LostEnd("10.100.0.1", "10.100.0.2", "10.100.0.9", "24", "10.100.0.1/24", "10.100.0.9/24");
  }

  lemma LostEnd(x: string, y: string, z: string, l: string, s: string, b: string)
    requires x != "" && '/' !in x && '%' !in x && y != "" && '/' !in y && '%' !in y && z != "" && '/' !in z && '%' !in z
    requires y != z && l != "" && s == x + "/" + l && b == z + "/" + l
    ensures |VXLANStack(s, y, None)| >= 4 && |VXLANStack(b, x, None)| >= 4
    ensures PeerLayers(Sample(), VXLANStack(s, y, None), b) == Ok(VXLANStack(b, x, None))
    ensures PeerLayers(Sample(), VXLANStack(b, x, None), s) == Ok(VXLANStack(s, z, None))
    ensures NormLayers(VXLANStack(s, z, None)) != NormLayers(VXLANStack(s, y, None))
  {
    hide VXLANStack, PeerLayers, ParsePrefix, ReadsAsEnd, NewSrc, NewDst, NormLayers, Innermost, SwapAll, Matches;
    LengthMoves(x, y, l, s, y + "/" + l);
    LengthMoves(z, x, l, b, x + "/" + l);
    BareStackMirrors(Sample(), s, y, b, y + "/" + l, x);
    BareStackMirrors(Sample(), b, x, s, x + "/" + l, z);
    StackSize(s, y, None);
    StackSize(b, x, None);
    StackReads(s, y, None);
    BareText(y);
    SlashedText(z, l);
    OverwrittenIsLost(Sample(), VXLANStack(s, y, None), VXLANStack(b, x, None), VXLANStack(s, z, None), b, s, 0);
  }

  lemma AnotherEnd(x: string, y: string, z: string, l: string, s: string, b: string)
    requires x != "" && '/' !in x && '%' !in x && y != "" && '/' !in y && '%' !in y && z != "" && '/' !in z && '%' !in z
    requires y != z && l != "" && s == x + "/" + l && b == z + "/" + l
    ensures PrefixLaw(Sample()) && SlashLaw(Sample()) && AllUsable(Shipped())
    ensures |VXLANStack(s, y, None)| >= 4 && |VXLANStack(b, x, None)| >= 4
    ensures PeerLayers(Sample(), VXLANStack(s, y, None), b) == Ok(VXLANStack(b, x, None))
    ensures BothCoveredNotFacing(Sample(), VXLANStack(s, y, None), VXLANStack(b, x, None), Fresh("eth0"))
  {
    hide VXLANStack, PeerLayers, Cover, Greedy, AllUsable, ParsePrefix, ReadsAsEnd, SampleAddr, SamplePrefix,
         BothCoveredNotFacing, Reversible, NewSrc, NewDst;
    LawsCanHold();
    LengthMoves(x, y, l, s, y + "/" + l);
    SlashedText(z, l);
    BareText(x);
    BareText(y);
    BareStackMirrors(Sample(), s, y, b, y + "/" + l, x);
    StackCovers(Sample(), s, y, None);
    StackCovers(Sample(), b, x, None);
    StackSize(s, y, None);
    StackSize(b, x, None);
    OtherNamed(s, y, z, l, b);
    NotReversible(Sample(), VXLANStack(s, y, None), VXLANStack(b, x, None), b, Fresh("eth0"), Shipped()[3]);
  }

  /** The length stays where it was, and the addresses change places. */
  lemma LengthMoves(x: string, y: string, l: string, s: string, s1: string)
    requires x != "" && '/' !in x && '%' !in x && y != "" && '/' !in y && '%' !in y && l != ""
    requires s == x + "/" + l && s1 == y + "/" + l
    ensures NewSrc(T(s), T(y)) == T(s1) && NewDst(T(s), T(y)) == T(x)
    ensures ParsePrefix(Sample(), T(s)).Ok? && ParsePrefix(Sample(), T(s1)).Ok?
    ensures ReadsAsEnd(Sample(), T(s)) && ReadsAsEnd(Sample(), T(s1))
  {
    SlashedText(x, l);
    SlashedText(y, l);
    BareText(y);
  }

  lemma OtherNamed(s: string, d: string, z: string, l: string, b: string)
    requires d != "" && '/' !in d && z != "" && '/' !in z && '%' !in z && d != z && b == z + "/" + l
    requires Innermost(Sample(), SwapAll(VXLANStack(s, d, None))) == Some(0)
    ensures |VXLANStack(s, d, None)| >= 4
    ensures var near := VXLANStack(s, d, None);
            !Reversible(Sample(), Shipped()[3].lower, near[0], Given(Sample(), near, b, 0))
  {
    hide VXLANStack, GroupEnd, SwapAll, Innermost, NamesDst, Shipped, Matches, Get, ReadsAsEnd, ParsePrefix;
    SlashedText(z, l);
    StackReads(s, d, None);
    StackSize(s, d, None);
    OtherDst(VXLANStack(s, d, None)[0], d, z, b);
  }

  lemma OtherDst(n: Layer, d: string, z: string, b: string)
    requires d != "" && '/' !in d && Field(n, "dst") == Some(T(d)) && d != z
    requires SamplePrefix(b).Some? && SamplePrefix(b).value.addr.text == z
    ensures !NamesDst(Sample(), n, b)
  {
    BareText(d);
    hide SampleAddr, SamplePrefix;
  }

  // ---------------------------------------------------------------- a slash inside a zone

  function IPIPStack(s: string, d: string): seq<Layer> {
    [Layer("ipv4", [TextProp("src", s), TextProp("dst", d)], Here()), Layer("ipv4", [], Here())]
  }

  lemma IPIPStackCovers(ip: NetIP, s: string, d: string)
    requires ip.parseAddr(s).Some? && ip.parseAddr(d).Some?
    ensures var sp := IPIPStack(s, d);
            && AllUsable(Shipped()) && Greedy(Shipped(), sp, 0) == [Shipped()[0]] && Shipped()[0].lower == IPIP
            && Cover(ip, Shipped(), sp, Fresh("eth0")).0.Ok?
  {
    var sp := IPIPStack(s, d);
    hide Greedy, Allocated;
    StackEnds(s, d);
    IpipIsFree();
    assert sp[..2] == sp;
    assert IPIPOps(ip, sp, Fresh("eth0")).ops.Ok?;
    ShippedUsable();
    OneTileCovers(ip, Shipped()[0], sp, Fresh("eth0"));
  }

  lemma IpipIsFree()
    ensures Allocated(Fresh("eth0"), "ipip").0 == Ok("ipip1")
  {
    var name := "ipip1";
    assert Dec(1) == "1" && Numbered("ipip", 1) == name;
    assert |name| == 5 && ' ' !in name && '/' !in name && '\t' !in name && '\n' !in name && name[0] != "eth0"[0];
  }

  lemma IPIPStackMirrors(ip: NetIP, s: string, d: string, s1: string, d1: string)
    requires NewSrc(T(s), T(d)) == T(s1) && NewDst(T(s), T(d)) == T(d1) && ParsePrefix(ip, T(s1)).Err?
    ensures PeerLayers(ip, IPIPStack(s, d), "") == Ok(IPIPStack(s1, d1))
    ensures Innermost(ip, SwapAll(IPIPStack(s, d))) == None
  {
    var sp, far := IPIPStack(s, d), IPIPStack(s1, d1);
    hide NewSrc, NewDst, ParsePrefix;
    StackEnds(s, d);
    StackEnds(s1, d1);
    assert SwapLayer(sp[0]) == far[0] && SwapLayer(sp[1]) == far[1];
    assert SwapAll(sp) == far;
    assert !Addressed(ip, far[0]) && !Addressed(ip, far[1]);
    assert Innermost(ip, far) == None;
  }

  /** Splitting at the first slash cuts a zone that holds one: the tails stay behind and the addresses change. */
  lemma {:induction false} ZoneIsCut()
    ensures PrefixLaw(Sample()) && SlashLaw(Sample()) && AllUsable(Shipped())
    ensures var near := IPIPStack("fe80::1%a/x", "fe80::2%b/y");
            var far := IPIPStack("fe80::2%b/x", "fe80::1%a/y");
            && PeerLayers(Sample(), near, "") == Ok(far)
            && BothCoveredNotFacing(Sample(), near, far, Fresh("eth0"))
  {
    hide IPIPStack, PeerLayers, BothCoveredNotFacing, PrefixLaw, SlashLaw, AllUsable, Shipped, Sample;
    assert "fe80::1%a/x" == "fe80::1%a" + "/" + "x" && "fe80::2%b/y" == "fe80::2%b" + "/" + "y";
    assert "fe80::2%b/x" == "fe80::2%b" + "/" + "x" && "fe80::1%a/y" == "fe80::1%a" + "/" + "y";
    assert "fe80::1%a"[7] == '%' && "fe80::2%b"[7] == '%' && "x"[0] != "y"[0];
    TailsCut("fe80::1%a", "x", "fe80::2%b", "y", "fe80::1%a/x", "fe80::2%b/y", "fe80::2%b/x", "fe80::1%a/y");
  }

  lemma TailsCut(x: string, k: string, y: string, l: string, s: string, d: string, s1: string, d1: string)
    requires x != "" && '/' !in x && '%' in x && y != "" && '/' !in y && '%' in y && k != "" && l != "" && k != l
    requires s == x + "/" + k && d == y + "/" + l && s1 == y + "/" + k && d1 == x + "/" + l
    ensures PrefixLaw(Sample()) && SlashLaw(Sample()) && AllUsable(Shipped())
    ensures PeerLayers(Sample(), IPIPStack(s, d), "") == Ok(IPIPStack(s1, d1))
    ensures |IPIPStack(s, d)| == |IPIPStack(s1, d1)| == 2
    ensures BothCoveredNotFacing(Sample(), IPIPStack(s, d), IPIPStack(s1, d1), Fresh("eth0"))
  {
    hide PeerLayers, Cover, Greedy, AllUsable, BothCoveredNotFacing, Reversible, NewSrc, NewDst, SampleAddr,
        SamplePrefix;
    LawsCanHold();
    TailsStay(x, k, y, l, s, d, s1, d1);
    IPIPStackMirrors(Sample(), s, d, s1, d1);
    IPIPStackCovers(Sample(), s, d);
    IPIPStackCovers(Sample(), s1, d1);
    TailsDiffer(x, k, y, l, s, d);
    NotReversible(Sample(), IPIPStack(s, d), IPIPStack(s1, d1), "", Fresh("eth0"), Shipped()[0]);
  }

  lemma ZonedText(x: string, l: string)
    requires x != "" && '/' !in x && '%' in x
    ensures SampleAddr(x + "/" + l).Some? && SamplePrefix(x + "/" + l) == None && SplitPrefix(T(x + "/" + l)) == (x, l)
  {
    IndexOfAppend(x, l, '/');
    assert x + "/" + l == x + ['/'] + l;
    assert (x + "/" + l)[..|x|] == x && (x + "/" + l)[|x| + 1..] == l;
  }

  lemma TailsStay(x: string, k: string, y: string, l: string, s: string, d: string, s1: string, d1: string)
    requires x != "" && '/' !in x && '%' in x && y != "" && '/' !in y && '%' in y && k != "" && l != ""
    requires s == x + "/" + k && d == y + "/" + l && s1 == y + "/" + k && d1 == x + "/" + l
    ensures NewSrc(T(s), T(d)) == T(s1) && NewDst(T(s), T(d)) == T(d1)
    ensures SampleAddr(s).Some? && SampleAddr(d).Some? && SampleAddr(s1).Some? && SampleAddr(d1).Some?
    ensures ParsePrefix(Sample(), T(s1)).Err?
  {
    ZonedText(x, k);
    ZonedText(y, l);
    ZonedText(y, k);
    ZonedText(x, l);
  }

  lemma TailsDiffer(x: string, k: string, y: string, l: string, s: string, d: string)
    requires x != "" && '/' !in x && '%' in x && y != "" && '/' !in y && '%' in y && k != "" && l != "" && k != l
    requires s == x + "/" + k && d == y + "/" + l
    ensures forall given :: !Reversible(Sample(), Shipped()[0].lower, IPIPStack(s, d)[0], given)
  {
    hide GroupEnd, NamesDst, Exchanged, RedirectAll;
    StackEnds(s, d);
    ZonedText(x, k);
    ZonedText(y, l);
    assert s[|x| + 1..] == k && (x + "/" + l)[|x| + 1..] == l;
    hide SplitPrefix;
  }

  // ---------------------------------------------------------------- GRE stacks turn around

  /** Two bare outer addresses, and an inner address with a length. */
  function GREStack(a: string, b: string, inner: string): seq<Layer> {
    [Layer("ipv4", [TextProp("src", a), TextProp("dst", b)], Here()),
     Layer("gre", [], Here()),
     Layer("ipv4", [TextProp("src", inner)], Here())]
  }

  lemma GREStackReads(ip: NetIP, a: string, b: string, inner: string)
    requires '/' !in a && '/' !in b && SameFamily(ip, a, b) && a != "" && b != ""
    ensures var sp := GREStack(a, b, inner);
            && Greedy(Shipped(), sp, 0) == [Shipped()[1]] && Shipped()[1].lower == GRE && AllUsable(Shipped())
            && GoodOuter(ip, GRE, sp[0]) && TwoEnded(sp[0].props) && !TwoEnded(sp[1].props) && !TwoEnded(sp[2].props)
  {
    var sp := GREStack(a, b, inner);
    hide Greedy;
    StackEnds(a, b);
    assert a[..|a|] == a && b[..|b|] == b;
    ShippedUsable();
    assert Matches(Shipped()[1], sp, 0) && Shipped()[1] in Shipped();
    OnlyTile(Shipped()[1], sp);
  }

  /** Whenever such a stack can be covered, so can its mirror image, and the two devices face each other. */
  lemma {:induction false} GREStackFaces(ip: NetIP, a: string, b: string, inner: string, other: string, st: EnvState)
    requires PrefixLaw(ip) && SlashLaw(ip) && LengthLaw(ip) && SameFamily(ip, a, b)
    requires '/' !in a && '/' !in b && a != "" && b != "" && other != "" && GoodInner(ip, other)
    requires AllUsable(Shipped()) && Cover(ip, Shipped(), GREStack(a, b, inner), st).0.Ok?
    ensures var near := GREStack(a, b, inner); var far := PeerLayers(ip, near, other);
            && far.Ok? && Cover(ip, Shipped(), far.value, st).0.Ok?
            && AllFacing(Added(Cover(ip, Shipped(), near, st).0.value.ops),
                         Added(Cover(ip, Shipped(), far.value, st).0.value.ops))
  {
    hide GREStack, Cover, AllFacing, AllAlike, PrefixLaw, SlashLaw, LengthLaw, Given, Greedy, GoodOuter, Shipped,
         PeerLayers, AllUsable, AllShapes, Unguarded, WellEnded, AllReversible, GoodInner, TwoEnded, SameFamily;
    var near := GREStack(a, b, inner);
    GREStackReads(ip, a, b, inner);
    GREStackSize(a, b, inner);
    Mirrors(ip, near, other);
    ShippedShapes();
    UnguardedShipped();
    GREWellEnded(ip, near);
    FarEndLowers(ip, Shipped(), near, other, st);
    NearFarSymmetry(ip, Shipped(), near, other, st);
    GREReversible(ip, near, other);
  }

  lemma Mirrors(ip: NetIP, layers: seq<Layer>, b: string)
    requires layers != [] && TwoEnded(layers[0].props) && GoodInner(ip, b)
    ensures PeerLayers(ip, layers, b).Ok?
  {
    hide TwoEnded, SwapAll, Innermost;
  }

  lemma GREStackSize(a: string, b: string, inner: string)
    ensures |GREStack(a, b, inner)| == 3
  {
  }

  lemma GREWellEnded(ip: NetIP, sp: seq<Layer>)
    requires |sp| == 3 && GoodOuter(ip, GRE, sp[0]) && !TwoEnded(sp[1].props) && !TwoEnded(sp[2].props)
    ensures WellEnded(ip, [Shipped()[1]], sp, 0)
  {
    var chain := [Shipped()[1]];
    hide GoodOuter;
    assert chain[0].lower == GRE && Next(0, chain[0]) == 3 && chain[1..] == [];
  }

  lemma GREReversible(ip: NetIP, sp: seq<Layer>, b: string)
    requires |sp| == 3 && GoodOuter(ip, GRE, sp[0])
    ensures AllReversible(ip, [Shipped()[1]], sp, 0, b)
  {
    var chain := [Shipped()[1]];
    hide Given, TailsAgree;
    assert chain[0].lower == GRE && chain[1..] == [];
  }
}
