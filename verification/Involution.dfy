/** Mirroring twice: when turning the far end around gives the near end back. */
module Involution {
  import opened Basics
  import opened Sexp
  import opened Ast
  import opened Netip
  import opened Props
  import opened Mirror

  // ---------------------------------------------------------------- the same up to spelling

  /** A value without its position, and without the choice between a string and a symbol. */
  function Norm(v: Value): Value {
    match v
    case Atom(kind, text, _) => Atom(if kind == Symbol then Text else kind, text, Pos(0, 0))
    case List(items, _) => List(NormValues(items), Pos(0, 0))
  }

  function NormValues(vs: seq<Value>): seq<Value> {
    if vs == [] then [] else [Norm(vs[0])] + NormValues(vs[1..])
  }

  function NormProp(p: Prop): Prop {
    Prop(p.key, Norm(p.val), Pos(0, 0))
  }

  function NormProps(ps: seq<Prop>): (r: seq<Prop>)
    ensures |r| == |ps| && forall k :: 0 <= k < |ps| ==> r[k] == NormProp(ps[k])
  {
    if ps == [] then [] else [NormProp(ps[0])] + NormProps(ps[1..])
  }

  function NormLayer(n: Layer): Layer {
    Layer(n.name, NormProps(n.props), Pos(0, 0))
  }

  function NormLayers(ns: seq<Layer>): (r: seq<Layer>)
    ensures |r| == |ns| && forall k :: 0 <= k < |ns| ==> r[k] == NormLayer(ns[k])
  {
    if ns == [] then [] else [NormLayer(ns[0])] + NormLayers(ns[1..])
  }

  function NormTree(t: Tree): Tree {
    Tree(NormLayer(t.layer), NormTrees(t.children))
  }

  function NormTrees(ts: seq<Tree>): seq<Tree> {
    if ts == [] then [] else [NormTree(ts[0])] + NormTrees(ts[1..])
  }

  // ---------------------------------------------------------------- one layer, exactly

  function AddrOf(v: Value): string { SplitPrefix(v).0 }

  function LengthOf(v: Value): string { SplitPrefix(v).1 }

  lemma {:induction false} SplitJoined(addr: string, length: string, pos: Pos)
    requires '/' !in addr
    ensures SplitPrefix(Atom(Text, Joined(addr, length), pos)) == (addr, length)
  {
    if length != "" {
      IndexOfAppend(addr, length, '/');
      assert addr + "/" + length == addr + ['/'] + length;
      assert (addr + "/" + length)[|addr| + 1..] == length && (addr + "/" + length)[..|addr|] == addr;
    } else {
      assert addr[..|addr|] == addr;
    }
  }

  lemma AddrHasNoSlash(v: Value)
    ensures '/' !in AddrOf(v)
  {
  }

  /** The field has no address, or is a text written as its address and the length it is given when it comes back. */
  predicate Kept(v: Value, partner: Value) {
    AddrOf(v) == ""
    || (Textual(v)
        && v.text == Joined(AddrOf(v), if AddrOf(partner) == "" then LengthOf(partner) else LengthOf(v)))
  }

  lemma SrcComesBack(s: Value, d: Value)
    ensures Norm(NewSrc(NewSrc(s, d), NewDst(s, d))) == Norm(s) <==> Kept(s, d)
  {
    AddrHasNoSlash(s);
    AddrHasNoSlash(d);
    SplitJoined(AddrOf(d), LengthOf(s), d.pos);
    SplitJoined(AddrOf(s), LengthOf(d), s.pos);
  }

  lemma DstComesBack(s: Value, d: Value)
    ensures Norm(NewDst(NewSrc(s, d), NewDst(s, d))) == Norm(d) <==> Kept(d, s)
  {
    AddrHasNoSlash(s);
    AddrHasNoSlash(d);
    SplitJoined(AddrOf(d), LengthOf(s), d.pos);
    SplitJoined(AddrOf(s), LengthOf(d), s.pos);
  }

  /** Both ends of the layer, if it has two, come back when it is exchanged twice. */
  predicate KeptLayer(n: Layer) {
    TwoEnded(n.props) ==>
      var s, d := Lookup(n.props, "src").value.val, Lookup(n.props, "dst").value.val;
      Kept(s, d) && Kept(d, s)
  }

  /** Exchanging twice leaves what a layer says, exactly when both its ends are kept. */
  lemma {:induction false} SwapTwiceExactly(n: Layer)
    requires DistinctKeys(n.props)
    ensures NormLayer(SwapLayer(SwapLayer(n))) == NormLayer(n) <==> KeptLayer(n)
  {
    if TwoEnded(n.props) {
      var s, d := Lookup(n.props, "src").value.val, Lookup(n.props, "dst").value.val;
      var s1, d1 := NewSrc(s, d), NewDst(s, d);
      var s2, d2 := NewSrc(s1, d1), NewDst(s1, d1);
      hide NewSrc, NewDst, Norm, NormProps, Kept, DistinctKeys;
      SwappedEnds(n.props);
      SrcComesBack(s, d);
      DstComesBack(s, d);
      RedirectTwice(n.props, s1, d1, s2, d2);
      RedirectNeutral(n.props, s2, d2);
    }
  }

  lemma RedirectTwice(props: seq<Prop>, s1: Value, d1: Value, s2: Value, d2: Value)
    ensures RedirectAll(RedirectAll(props, s1, d1), s2, d2) == RedirectAll(props, s2, d2)
  {
  }

  /** Redirecting both ends changes nothing said exactly when the new values say what the old ones did. */
  lemma {:induction false} RedirectNeutral(props: seq<Prop>, s: Value, d: Value)
    requires TwoEnded(props) && DistinctKeys(props)
    ensures NormProps(RedirectAll(props, s, d)) == NormProps(props)
       <==> Norm(s) == Norm(Lookup(props, "src").value.val) && Norm(d) == Norm(Lookup(props, "dst").value.val)
  {
    if Norm(s) == Norm(Lookup(props, "src").value.val) && Norm(d) == Norm(Lookup(props, "dst").value.val) {
      NeutralIf(props, s, d);
    }
    if NormProps(RedirectAll(props, s, d)) == NormProps(props) {
      NeutralOnlyIf(props, s, d);
    }
  }

  lemma NeutralIf(props: seq<Prop>, s: Value, d: Value)
    requires TwoEnded(props) && DistinctKeys(props)
    requires Norm(s) == Norm(Lookup(props, "src").value.val) && Norm(d) == Norm(Lookup(props, "dst").value.val)
    ensures NormProps(RedirectAll(props, s, d)) == NormProps(props)
  {
    hide NormProp, RedirectAll, DistinctKeys, Redirected, Lookup, Norm;
    var r := RedirectAll(props, s, d);
    forall k | 0 <= k < |props| ensures NormProp(r[k]) == NormProp(props[k]) {
      NeutralAt(props, s, d, props[k]);
    }
    assert NormProps(r) == NormProps(props);
  }

  lemma NeutralAt(props: seq<Prop>, s: Value, d: Value, p: Prop)
    requires TwoEnded(props) && DistinctKeys(props) && p in props
    requires Norm(s) == Norm(Lookup(props, "src").value.val) && Norm(d) == Norm(Lookup(props, "dst").value.val)
    ensures NormProp(Redirected(p, s, d)) == NormProp(p)
  {
    KeyFinds(props, p);
    hide DistinctKeys, Norm;
  }

  lemma NeutralOnlyIf(props: seq<Prop>, s: Value, d: Value)
    requires TwoEnded(props) && NormProps(RedirectAll(props, s, d)) == NormProps(props)
    ensures Norm(s) == Norm(Lookup(props, "src").value.val) && Norm(d) == Norm(Lookup(props, "dst").value.val)
  {
    hide Norm;
    var i :| 0 <= i < |props| && props[i] == Lookup(props, "src").value;
    var j :| 0 <= j < |props| && props[j] == Lookup(props, "dst").value;
    var r := NormProps(RedirectAll(props, s, d));
    assert r[i].val == Norm(s) && r[j].val == Norm(d);
  }

  /** With distinct keys, every property is the one its key finds. */
  lemma {:induction false} KeyFinds(props: seq<Prop>, p: Prop)
    requires DistinctKeys(props) && p in props
    ensures Lookup(props, p.key) == Some(p)
  {
    if props[0] != p {
      assert props == [props[0]] + props[1..];
      KeyFinds(props[1..], p);
    }
  }

  /** After exchanging, the keys find the new values. */
  lemma {:induction false} SwappedEnds(props: seq<Prop>)
    requires TwoEnded(props)
    ensures var (s, d) := (Lookup(props, "src").value.val, Lookup(props, "dst").value.val);
            && TwoEnded(Exchanged(props))
            && Lookup(Exchanged(props), "src").value.val == NewSrc(s, d)
            && Lookup(Exchanged(props), "dst").value.val == NewDst(s, d)
    ensures DistinctKeys(props) ==> DistinctKeys(Exchanged(props))
  {
    hide RedirectAll, NewSrc, NewDst, DistinctKeys;
    var s, d := Lookup(props, "src").value.val, Lookup(props, "dst").value.val;
    RedirectedLookup(props, NewSrc(s, d), NewDst(s, d), "src");
    RedirectedLookup(props, NewSrc(s, d), NewDst(s, d), "dst");
    RedirectKeepsKeys(props, NewSrc(s, d), NewDst(s, d));
  }

  lemma RedirectKeepsKeys(props: seq<Prop>, s: Value, d: Value)
    ensures DistinctKeys(props) ==> DistinctKeys(RedirectAll(props, s, d))
  {
    hide RedirectAll, Redirected;
  }

  lemma {:induction false} RedirectedLookup(props: seq<Prop>, s: Value, d: Value, key: string)
    ensures Lookup(RedirectAll(props, s, d), key)
         == match Lookup(props, key) case None => None case Some(p) => Some(Redirected(p, s, d))
  {
    if props != [] {
      RedirectedLookup(props[1..], s, d, key);
      assert RedirectAll(props, s, d)[1..] == RedirectAll(props[1..], s, d);
    }
  }

  // ---------------------------------------------------------------- layers as people write them

  /** A star, or an address with an optional length. */
  predicate GoodEnd(v: Value) {
    v.Is(Star) || (Textual(v) && AddrOf(v) != "" && v.text == Joined(AddrOf(v), LengthOf(v)))
  }

  /** Both ends are good, and a star's partner has no length. */
  predicate GoodEnds(s: Value, d: Value) {
    GoodEnd(s) && GoodEnd(d) && (s.Is(Star) ==> LengthOf(d) == "") && (d.Is(Star) ==> LengthOf(s) == "")
  }

  /** Two addresses of an IP layer are of one family. */
  predicate OneFamily(ip: NetIP, n: Layer, s: Value, d: Value) {
    (n.name == "ipv4" || n.name == "ipv6") && !s.Is(Star) && !d.Is(Star) ==> SameFamily(ip, AddrOf(s), AddrOf(d))
  }

  predicate GoodLayer(ip: NetIP, n: Layer) {
    DistinctKeys(n.props)
    && (TwoEnded(n.props) ==>
          var s, d := Lookup(n.props, "src").value.val, Lookup(n.props, "dst").value.val;
          GoodEnds(s, d) && OneFamily(ip, n, s, d))
  }

  lemma NewEndsAreGood(s: Value, d: Value)
    requires GoodEnds(s, d)
    ensures GoodEnds(NewSrc(s, d), NewDst(s, d)) && AddrOf(NewSrc(s, d)) == AddrOf(d)
        && AddrOf(NewDst(s, d)) == AddrOf(s)
  {
    AddrHasNoSlash(s);
    AddrHasNoSlash(d);
    SplitJoined(AddrOf(d), LengthOf(s), d.pos);
    SplitJoined(AddrOf(s), LengthOf(d), s.pos);
  }

  /** Turning a good layer around does not change whether it carries an address and a length. */
  lemma {:induction false} SwapKeepsAddressed(ip: NetIP, n: Layer)
    requires LengthLaw(ip) && GoodLayer(ip, n)
    ensures GoodLayer(ip, SwapLayer(n))
    ensures Addressed(ip, SwapLayer(n)) <==> Addressed(ip, n)
  {
    if TwoEnded(n.props) {
      var s, d := Lookup(n.props, "src").value.val, Lookup(n.props, "dst").value.val;
      hide NewSrc, NewDst, DistinctKeys;
      SwappedEnds(n.props);
      NewEndsAreGood(s, d);
      if n.name == "ipv4" || n.name == "ipv6" { PrefixFollowsFamily(ip, s, d); }
    }
  }

  lemma PrefixFollowsFamily(ip: NetIP, s: Value, d: Value)
    requires LengthLaw(ip) && GoodEnds(s, d) && (!s.Is(Star) && !d.Is(Star) ==> SameFamily(ip, AddrOf(s), AddrOf(d)))
    ensures ParsePrefix(ip, NewSrc(s, d)).Ok? <==> ParsePrefix(ip, s).Ok?
  {
    AddrHasNoSlash(s);
    AddrHasNoSlash(d);
    if !s.Is(Star) && !d.Is(Star) && LengthOf(s) != "" {
      var x, y, l := AddrOf(s), AddrOf(d), LengthOf(s);
      assert SameFamily(ip, x, y) && SameFamily(ip, y, x);
      assert s.text == x + "/" + l;
      assert (x + "/" + l)[|x|] == '/' && (y + "/" + l)[|y|] == '/';
      assert ip.parsePrefix(x + "/" + l).Some? <==> ip.parsePrefix(y + "/" + l).Some?;
    }
  }

  lemma GoodIsKept(ip: NetIP, n: Layer)
    requires GoodLayer(ip, n)
    ensures KeptLayer(n)
  {
  }

  // ---------------------------------------------------------------- whole packets

  lemma {:induction false} WithPropFinds(props: seq<Prop>, key: string, text: string, pos: Pos)
    ensures Has(WithProp(props, key, text, pos), key)
    ensures Lookup(WithProp(props, key, text, pos), key).value.val.Is(Text)
    ensures Lookup(WithProp(props, key, text, pos), key).value.val.text == text
    ensures forall other :: other != key ==> Lookup(WithProp(props, key, text, pos), other) == Lookup(props, other)
    ensures Has(props, key) ==> |WithProp(props, key, text, pos)| == |props|
  {
    if props != [] && props[0].key != key {
      WithPropFinds(props[1..], key, text, pos);
      assert WithProp(props, key, text, pos)[1..] == WithProp(props[1..], key, text, pos);
    }
  }

  /** Giving the address away and getting it back leaves what the layer says. */
  lemma {:induction false} WithPropTwice(props: seq<Prop>, key: string, b: string, a: string, pos: Pos)
    requires Has(props, key) && Textual(Lookup(props, key).value.val) && Lookup(props, key).value.val.text == a
    ensures NormProps(WithProp(WithProp(props, key, b, pos), key, a, pos)) == NormProps(props)
  {
    if props[0].key == key {
      assert WithProp(WithProp(props, key, b, pos), key, a, pos)[1..] == props[1..];
    } else {
      WithPropTwice(props[1..], key, b, a, pos);
      var once := WithProp(props, key, b, pos);
      assert once[0] == props[0] && once[1..] == WithProp(props[1..], key, b, pos);
      var twice := WithProp(once, key, a, pos);
      assert twice[0] == props[0] && twice[1..] == WithProp(once[1..], key, a, pos);
      assert NormProps(twice) == [NormProp(props[0])] + NormProps(twice[1..]);
    }
  }

  /** The inner layer's address as written, or nothing when there is none. */
  function InnerText(ip: NetIP, layers: seq<Layer>): string {
    match Innermost(ip, SwapAll(layers))
    case None => ""
    case Some(k) => Lookup(SwapAll(layers)[k].props, "src").value.val.text
  }

  /** The innermost addressed layer is not an end of a tunnel. */
  predicate InnerIsFree(ip: NetIP, layers: seq<Layer>) {
    var k := Innermost(ip, SwapAll(layers));
    k.Some? ==> !Has(layers[k.value].props, "dst")
  }

  lemma {:induction false} SameAddressed(ip: NetIP, xs: seq<Layer>, ys: seq<Layer>)
    requires |xs| == |ys| && forall j :: 0 <= j < |xs| ==> (Addressed(ip, xs[j]) <==> Addressed(ip, ys[j]))
    ensures Innermost(ip, xs) == Innermost(ip, ys)
  {
    hide Addressed;
    if xs != [] && !Addressed(ip, xs[|xs| - 1]) {
      SameAddressed(ip, xs[..|xs| - 1], ys[..|xs| - 1]);
    }
  }

  /** Layers that say the same carry an address or not alike. */
  lemma AddressedNorm(ip: NetIP, n: Layer, m: Layer)
    requires NormLayer(n) == NormLayer(m)
    ensures Addressed(ip, n) <==> Addressed(ip, m)
  {
    SameField(n, m, "src");
    hide NormLayer, Lookup;
  }

  /** Layers that say the same say the same under every key. */
  lemma SameField(n: Layer, m: Layer, key: string)
    requires NormLayer(n) == NormLayer(m)
    ensures n.name == m.name && (Has(n.props, key) <==> Has(m.props, key))
    ensures Has(n.props, key) ==> Norm(Lookup(n.props, key).value.val) == Norm(Lookup(m.props, key).value.val)
  {
    hide NormProps, Norm, Lookup;
    LookupNorm(n.props, key);
    LookupNorm(m.props, key);
    assert NormLayer(n).name == n.name && NormLayer(n).props == NormProps(n.props);
    assert NormLayer(m).name == m.name && NormLayer(m).props == NormProps(m.props);
  }

  lemma {:induction false} LookupNorm(props: seq<Prop>, key: string)
    ensures Lookup(NormProps(props), key)
         == match Lookup(props, key) case None => None case Some(p) => Some(NormProp(p))
  {
    if props != [] {
      assert NormProps(props)[1..] == NormProps(props[1..]);
      LookupNorm(props[1..], key);
    }
  }

  /**
   What mirroring back needs: both ends of every two-ended layer come back, and turning the layers around
   does not move the innermost address.
   */
  predicate Restorable(ip: NetIP, layers: seq<Layer>) {
    (forall k :: 0 <= k < |layers| ==> KeptLayer(layers[k])) && Innermost(ip, SwapAll(layers)) == Innermost(ip, layers)
  }

  /** With every layer kept, what is innermost the second time is what is innermost now. */
  lemma {:induction false} KeptInnermost(ip: NetIP, layers: seq<Layer>, once: seq<Layer>, b: string)
    requires layers != [] && b != "" && InnerIsFree(ip, layers) && PeerLayers(ip, layers, b) == Ok(once)
    requires forall k :: 0 <= k < |layers| ==> DistinctKeys(layers[k].props) && KeptLayer(layers[k])
    ensures Innermost(ip, SwapAll(once)) == Innermost(ip, layers)
  {
    hide PeerLayers, Addressed, KeptLayer, InnerIsFree, Innermost;
    forall j | 0 <= j < |layers| ensures Addressed(ip, SwapAll(once)[j]) <==> Addressed(ip, layers[j]) {
      KeptAddressed(ip, layers, once, b, j);
    }
    SameAddressed(ip, SwapAll(once), layers);
  }

  lemma KeptAddressed(ip: NetIP, layers: seq<Layer>, once: seq<Layer>, b: string, j: nat)
    requires layers != [] && b != "" && InnerIsFree(ip, layers) && PeerLayers(ip, layers, b) == Ok(once) && j < |layers|
    requires DistinctKeys(layers[j].props) && KeptLayer(layers[j])
    ensures Addressed(ip, SwapLayer(once[j])) <==> Addressed(ip, layers[j])
  {
    PeerLayerAt(ip, layers, b, j);
    if Innermost(ip, SwapAll(layers)) == Some(j) {
      InnerLayer(ip, layers);
      InnerStaysAddressed(ip, layers, once, b, j);
    } else {
      hide PeerLayers, SwapLayer, Addressed, KeptLayer, InnerIsFree, Innermost, SwapAll, DistinctKeys;
      SwapTwiceExactly(layers[j]);
      AddressedNorm(ip, SwapLayer(once[j]), layers[j]);
    }
  }

  /** The inner layer takes part in no exchange, and carries an address before and after. */
  lemma InnerStaysAddressed(ip: NetIP, layers: seq<Layer>, once: seq<Layer>, b: string, j: nat)
    requires layers != [] && b != "" && InnerIsFree(ip, layers) && PeerLayers(ip, layers, b) == Ok(once)
    requires Innermost(ip, SwapAll(layers)) == Some(j)
    ensures Addressed(ip, layers[j]) && Addressed(ip, SwapLayer(once[j])) && SwapLayer(once[j]) == once[j]
    ensures once[j] == Readdressed(layers[j], b)
  {
    PeerLayerAt(ip, layers, b, j);
    InnerLayer(ip, layers);
    assert GoodInner(ip, b);
    hide PeerLayers, SwapAll, Innermost;
    WithPropFinds(layers[j].props, "src", b, layers[j].pos);
  }

  /** When the packet comes back, the same layer was innermost both times. */
  lemma {:induction false} BackMeansSameInnermost(ip: NetIP, layers: seq<Layer>, once: seq<Layer>, back: seq<Layer>,
                                                  b: string)
    requires layers != [] && b != "" && InnerIsFree(ip, layers) && PeerLayers(ip, layers, b) == Ok(once)
    requires PeerLayers(ip, once, InnerText(ip, layers)) == Ok(back) && NormLayers(back) == NormLayers(layers)
    requires b != InnerText(ip, layers)
    ensures Innermost(ip, SwapAll(once)) == Innermost(ip, SwapAll(layers))
  {
    var k1, k2 := Innermost(ip, SwapAll(layers)), Innermost(ip, SwapAll(once));
    if k1 == None {
      if k2.Some? { NothingTaken(ip, layers, once, back, b, k2.value); }
    } else {
      var j := k1.value;
      hide PeerLayers, NormLayers;
      InnerStaysAddressed(ip, layers, once, b, j);
      assert SwapAll(once)[j] == SwapLayer(once[j]);
      assert k2.Some? && k2.value >= j;
      if k2 != k1 { NotGivenBack(ip, layers, once, back, b, j); }
    }
  }

  /** Without an inner address nothing is given, so nothing may be taken. */
  lemma NothingTaken(ip: NetIP, layers: seq<Layer>, once: seq<Layer>, back: seq<Layer>, b: string, k: nat)
    requires layers != [] && PeerLayers(ip, layers, b) == Ok(once) && Innermost(ip, SwapAll(layers)) == None
    requires PeerLayers(ip, once, "") == Ok(back) && Innermost(ip, SwapAll(once)) == Some(k)
    ensures NormLayers(back) != NormLayers(layers)
  {
    PeerLayerAt(ip, layers, b, k);
    PeerLayerAt(ip, once, "", k);
    hide PeerLayers, SwapAll, Innermost;
    assert Has(SwapLayer(once[k]).props, "src");
    if NormLayers(back) == NormLayers(layers) {
      assert NormLayer(back[k]) == NormLayers(back)[k] == NormLayers(layers)[k] == NormLayer(layers[k]);
      SwapHas(layers[k]);
      SwapHas(once[k]);
      WithoutPropGone(SwapLayer(once[k]).props, "src");
      SameField(back[k], layers[k], "src");
    }
  }

  lemma SwapHas(n: Layer)
    ensures Has(SwapLayer(n).props, "src") <==> Has(n.props, "src")
  {
    if TwoEnded(n.props) { SwappedEnds(n.props); }
  }

  lemma {:induction false} WithoutPropGone(props: seq<Prop>, key: string)
    ensures !Has(WithoutProp(props, key), key)
  {
    if props != [] {
      WithoutPropGone(props[1..], key);
      if props[0].key != key {
        assert WithoutProp(props, key) == [props[0]] + WithoutProp(props[1..], key);
      } else {
        assert WithoutProp(props, key) == WithoutProp(props[1..], key);
      }
    }
  }

  /** If the inner layer is not the one given its own address back, it keeps the other one. */
  lemma NotGivenBack(ip: NetIP, layers: seq<Layer>, once: seq<Layer>, back: seq<Layer>, b: string, j: nat)
    requires layers != [] && b != "" && InnerIsFree(ip, layers) && PeerLayers(ip, layers, b) == Ok(once)
    requires PeerLayers(ip, once, InnerText(ip, layers)) == Ok(back) && Innermost(ip, SwapAll(layers)) == Some(j)
    requires Innermost(ip, SwapAll(once)) != Some(j) && b != InnerText(ip, layers)
    ensures NormLayers(back) != NormLayers(layers)
  {
    hide PeerLayers, SwapAll, Innermost, InnerText, InnerIsFree, NormLayers, NormLayer, Addressed, Readdressed;
    InnerStaysAddressed(ip, layers, once, b, j);
    InnerLayer(ip, layers);
    PeerLayerAt(ip, once, InnerText(ip, layers), j);
    GivenAnother(layers[j], b, InnerText(ip, layers));
    assert NormLayers(back)[j] == NormLayer(back[j]) && NormLayers(layers)[j] == NormLayer(layers[j]);
  }

  lemma GivenAnother(n: Layer, b: string, a: string)
    requires Has(n.props, "src") && Lookup(n.props, "src").value.val.Spelling() == a && b != "" && b != a
    ensures NormLayer(Readdressed(n, b)) != NormLayer(n)
  {
    WithPropFinds(n.props, "src", b, n.pos);
    hide NormLayer, Lookup, WithProp;
    if NormLayer(Readdressed(n, b)) == NormLayer(n) {
      SameField(Readdressed(n, b), n, "src");
    }
  }

  /** When the packet comes back, every layer was kept. */
  lemma {:induction false} BackMeansKept(ip: NetIP, layers: seq<Layer>, once: seq<Layer>, back: seq<Layer>,
                                         b: string, j: nat)
    requires layers != [] && j < |layers| && DistinctKeys(layers[j].props) && InnerIsFree(ip, layers)
    requires PeerLayers(ip, layers, b) == Ok(once) && PeerLayers(ip, once, InnerText(ip, layers)) == Ok(back)
    requires Innermost(ip, SwapAll(once)) == Innermost(ip, SwapAll(layers)) && NormLayers(back) == NormLayers(layers)
    ensures KeptLayer(layers[j])
  {
    hide PeerLayers, SwapLayer, Readdressed, NormLayer, InnerText, KeptLayer, DistinctKeys;
    PeerLayerAt(ip, layers, b, j);
    PeerLayerAt(ip, once, InnerText(ip, layers), j);
    assert NormLayer(back[j]) == NormLayers(back)[j] == NormLayers(layers)[j] == NormLayer(layers[j]);
    if Innermost(ip, SwapAll(layers)) == Some(j) {
      InnerLayer(ip, layers);
      FreeIsKept(layers[j]);
    } else {
      SwapTwiceExactly(layers[j]);
    }
  }

  lemma FreeIsKept(n: Layer)
    requires !Has(n.props, "dst")
    ensures KeptLayer(n)
  {
  }

  /**
   Mirroring a packet, and mirroring the result with the original inner address, gives the packet back
   exactly when it is restorable. (Given its own inner address to begin with, it may also come back by luck.)
   */
  lemma {:induction false} PeerLayersTwice(ip: NetIP, layers: seq<Layer>, b: string)
    requires layers != [] && forall k :: 0 <= k < |layers| ==> DistinctKeys(layers[k].props)
    requires InnerIsFree(ip, layers) && b != "" && PeerLayers(ip, layers, b).Ok?
    ensures var back := PeerLayers(ip, PeerLayers(ip, layers, b).value, InnerText(ip, layers));
            && back.Ok?
            && (Restorable(ip, layers) ==> NormLayers(back.value) == NormLayers(layers))
            && (b != InnerText(ip, layers) && NormLayers(back.value) == NormLayers(layers) ==> Restorable(ip, layers))
  {
    var a := InnerText(ip, layers);
    var once := PeerLayers(ip, layers, b).value;
    PeerTwiceOk(ip, layers, b);
    var back := PeerLayers(ip, once, a).value;
    hide PeerLayers, NormLayer, InnerText, InnerIsFree, KeptLayer, NormLayers, DistinctKeys, Innermost;
    if Restorable(ip, layers) {
      KeptInnermost(ip, layers, once, b);
      forall j | 0 <= j < |layers| ensures NormLayer(back[j]) == NormLayer(layers[j]) {
        LayerTwice(ip, layers, once, b, j);
      }
      SameNorms(back, layers);
    }
    if b != a && NormLayers(back) == NormLayers(layers) {
      BackMeansSameInnermost(ip, layers, once, back, b);
      forall j | 0 <= j < |layers| ensures KeptLayer(layers[j]) {
        BackMeansKept(ip, layers, once, back, b, j);
      }
      KeptInnermost(ip, layers, once, b);
    }
  }

  lemma PeerTwiceOk(ip: NetIP, layers: seq<Layer>, b: string)
    requires layers != [] && InnerIsFree(ip, layers) && PeerLayers(ip, layers, b).Ok?
    ensures PeerLayers(ip, PeerLayers(ip, layers, b).value, InnerText(ip, layers)).Ok?
  {
    hide TwoEnded, Innermost, SwapAll;
    InnerTextIsGood(ip, layers);
    StillTwoEnded(ip, layers, b);
  }

  lemma SameNorms(xs: seq<Layer>, ys: seq<Layer>)
    requires |xs| == |ys| && forall j :: 0 <= j < |xs| ==> NormLayer(xs[j]) == NormLayer(ys[j])
    ensures NormLayers(xs) == NormLayers(ys)
  {
    hide NormLayer;
  }

  lemma LayerTwice(ip: NetIP, layers: seq<Layer>, once: seq<Layer>, b: string, j: nat)
    requires layers != [] && j < |layers| && DistinctKeys(layers[j].props) && KeptLayer(layers[j])
    requires InnerIsFree(ip, layers) && b != ""
    requires PeerLayers(ip, layers, b) == Ok(once) && PeerLayers(ip, once, InnerText(ip, layers)).Ok?
    requires Innermost(ip, SwapAll(once)) == Innermost(ip, SwapAll(layers))
    ensures NormLayer(PeerLayers(ip, once, InnerText(ip, layers)).value[j]) == NormLayer(layers[j])
  {
    hide PeerLayers, SwapLayer, Readdressed, NormLayer, InnerText, KeptLayer;
    PeerLayerAt(ip, layers, b, j);
    PeerLayerAt(ip, once, InnerText(ip, layers), j);
    if Innermost(ip, SwapAll(layers)) == Some(j) {
      InnerLayer(ip, layers);
      InnerComesBack(layers[j], b, InnerText(ip, layers));
    } else {
      SwapTwiceExactly(layers[j]);
    }
  }

  lemma InnerTextIsGood(ip: NetIP, layers: seq<Layer>)
    ensures GoodInner(ip, InnerText(ip, layers))
    ensures Innermost(ip, SwapAll(layers)).Some? ==> InnerText(ip, layers) != ""
  {
  }

  /** The inner layer stays put when ends are exchanged, and its address is a text. */
  lemma InnerLayer(ip: NetIP, layers: seq<Layer>)
    requires InnerIsFree(ip, layers) && Innermost(ip, SwapAll(layers)).Some?
    ensures var n := layers[Innermost(ip, SwapAll(layers)).value];
            && SwapLayer(n) == n && !Has(n.props, "dst") && Has(n.props, "src")
            && Textual(Lookup(n.props, "src").value.val)
            && Lookup(n.props, "src").value.val.text == InnerText(ip, layers) != ""
  {
  }

  /** A packet that could be mirrored still can: the layer with two ends keeps both. */
  lemma StillTwoEnded(ip: NetIP, layers: seq<Layer>, b: string)
    requires layers != [] && InnerIsFree(ip, layers) && PeerLayers(ip, layers, b).Ok?
    ensures exists m :: 0 <= m < |layers| && TwoEnded(PeerLayers(ip, layers, b).value[m].props)
  {
    hide Exchanged, Innermost, Addressed;
    var m :| 0 <= m < |layers| && TwoEnded(layers[m].props);
    SwappedEnds(layers[m].props);
    assert PeerLayers(ip, layers, b).value[m] == SwapLayer(layers[m]);
  }

  /** A layer that names no far end, given another address and then its own. */
  lemma InnerComesBack(n: Layer, b: string, a: string)
    requires !Has(n.props, "dst") && Has(n.props, "src") && b != "" && a != ""
    requires Textual(Lookup(n.props, "src").value.val) && Lookup(n.props, "src").value.val.text == a
    ensures SwapLayer(n) == n && SwapLayer(Readdressed(n, b)) == Readdressed(n, b)
    ensures NormLayer(Readdressed(Readdressed(n, b), a)) == NormLayer(n)
  {
    WithPropFinds(n.props, "src", b, n.pos);
    WithPropTwice(n.props, "src", b, a, n.pos);
  }

  // ---------------------------------------------------------------- an inner address that is a tunnel's end

  /** The far field names the address the near one's partner names, and varies when it varies. */
  lemma NewEnds(s: Value, d: Value)
    ensures NewSrc(s, d).Is(Star) <==> d.Is(Star)
    ensures NewDst(s, d).Is(Star) <==> s.Is(Star)
    ensures AddrOf(NewSrc(s, d)) == AddrOf(d) && AddrOf(NewDst(s, d)) == AddrOf(s)
  {
    AddrHasNoSlash(s);
    AddrHasNoSlash(d);
    SplitJoined(AddrOf(d), LengthOf(s), d.pos);
    SplitJoined(AddrOf(s), LengthOf(d), s.pos);
  }

  /**
   Where the innermost addressed layer is a tunnel's end, the address given for it takes the place of the one
   sent to. Whatever address is given on the way back, the packet is lost unless the first one named that very end.
   */
  lemma {:induction false} OverwrittenIsLost(ip: NetIP, layers: seq<Layer>, once: seq<Layer>, back: seq<Layer>,
                                             b: string, a: string, k: nat)
    requires layers != [] && k < |layers| && Innermost(ip, SwapAll(layers)) == Some(k) && TwoEnded(layers[k].props)
    requires b != "" && PeerLayers(ip, layers, b) == Ok(once) && PeerLayers(ip, once, a) == Ok(back)
    ensures NormLayers(back) == NormLayers(layers) ==>
              BeforeSlash(b) == AddrOf(Lookup(layers[k].props, "dst").value.val)
  {
    hide PeerLayers, SwapAll, Innermost, NormLayer, SwapLayer, Readdressed, Lookup, Norm;
    PeerLayerAt(ip, layers, b, k);
    PeerLayerAt(ip, once, a, k);
    GivenThenSwapped(layers[k], b);
    ReaddressedKeepsDst(SwapLayer(once[k]), a);
    if NormLayers(back) == NormLayers(layers) {
      assert NormLayer(back[k]) == NormLayers(back)[k] == NormLayers(layers)[k] == NormLayer(layers[k]);
      SameField(back[k], layers[k], "dst");
      SameAddr(Lookup(back[k].props, "dst").value.val, Lookup(layers[k].props, "dst").value.val);
    }
  }

  lemma {:induction false} WithoutPropKeeps(props: seq<Prop>, key: string, other: string)
    requires other != key
    ensures Lookup(WithoutProp(props, key), other) == Lookup(props, other)
  {
    if props != [] {
      WithoutPropKeeps(props[1..], key, other);
      if props[0].key != key {
        assert WithoutProp(props, key)[0] == props[0] && WithoutProp(props, key)[1..] == WithoutProp(props[1..], key);
      } else {
        assert WithoutProp(props, key) == WithoutProp(props[1..], key);
      }
    }
  }

  lemma SameAddr(v: Value, w: Value)
    requires Norm(v) == Norm(w)
    ensures AddrOf(v) == AddrOf(w)
  {
  }

  /** A two-ended layer given an address of its own sends to it once it is turned around again. */
  lemma GivenThenSwapped(n: Layer, b: string)
    requires TwoEnded(n.props) && b != ""
    ensures var z := SwapLayer(Readdressed(SwapLayer(n), b)).props;
            TwoEnded(z) && AddrOf(Lookup(z, "dst").value.val) == BeforeSlash(b)
  {
    hide NewDst, NewSrc, Exchanged;
    SwappedEnds(n.props);
    WithPropFinds(Exchanged(n.props), "src", b, n.pos);
    var m := Readdressed(SwapLayer(n), b).props;
    SwappedEnds(m);
    NewEnds(Lookup(m, "src").value.val, Lookup(m, "dst").value.val);
  }

  lemma ReaddressedKeepsDst(n: Layer, a: string)
    ensures Lookup(Readdressed(n, a).props, "dst") == Lookup(n.props, "dst")
  {
    if a != "" { WithPropFinds(n.props, "src", a, n.pos); } else { WithoutPropKeeps(n.props, "src", "dst"); }
  }

  // ---------------------------------------------------------------- whole trees

  lemma NormOne(t: Tree)
    ensures NormTrees([t]) == [NormTree(t)]
  {
    assert [t][1..] == [];
  }

  /** Two chains put over the same tail say the same exactly when their layers do. */
  lemma {:induction false} NormAssembled(xs: seq<Layer>, ys: seq<Layer>, tail: seq<Tree>)
    requires xs != [] && |xs| == |ys|
    ensures NormTree(Assemble(xs, tail)) == NormTree(Assemble(ys, tail)) <==> NormLayers(xs) == NormLayers(ys)
    decreases xs
  {
    if |xs| == 1 {
      assert xs == [xs[0]] && ys == [ys[0]];
    } else {
      NormAssembled(xs[1..], ys[1..], tail);
      NormOne(Assemble(xs[1..], tail));
      NormOne(Assemble(ys[1..], tail));
      assert NormLayers(xs) == [NormLayer(xs[0])] + NormLayers(xs[1..]);
      assert NormLayers(ys) == [NormLayer(ys[0])] + NormLayers(ys[1..]);
      assert NormLayers(xs) == NormLayers(ys) ==>
          NormLayers(xs)[0] == NormLayers(ys)[0] && NormLayers(xs)[1..] == NormLayers(ys)[1..];
    }
  }

  /** Keys are distinct, as in every tree that is built, and the inner address is not a tunnel's end. */
  predicate Mirrorable(ip: NetIP, t: Tree) {
    var layers := ChainOf(PacketOf(t));
    (forall k :: 0 <= k < |layers| ==> DistinctKeys(layers[k].props)) && InnerIsFree(ip, layers)
  }

  /** The tree mirrored with one inner address, and the result with the original one. */
  function ThereAndBack(ip: NetIP, t: Tree, b: string): Result<Tree> {
    var far :- Peer(ip, t, b);
    Peer(ip, far, InnerText(ip, ChainOf(PacketOf(t))))
  }

  /**
   Mirroring a tree there and back restores it, up to positions and string/symbol spelling, exactly when its
   two-ended layers are kept and turning them around does not move the innermost address.
   */
  lemma {:induction false} MirrorTwiceExactly(ip: NetIP, t: Tree, b: string)
    requires Mirrorable(ip, t) && b != "" && Peer(ip, t, b).Ok?
    ensures ThereAndBack(ip, t, b).Ok?
    ensures Restorable(ip, ChainOf(PacketOf(t))) ==> NormTree(ThereAndBack(ip, t, b).value) == NormTree(t)
    ensures b != InnerText(ip, ChainOf(PacketOf(t))) && NormTree(ThereAndBack(ip, t, b).value) == NormTree(t)
        ==> Restorable(ip, ChainOf(PacketOf(t)))
  {
    var packet := PacketOf(t);
    var layers, tail := ChainOf(packet), TailOf(packet);
    var a := InnerText(ip, layers);
    PeerLayersTwice(ip, layers, b);
    var once := PeerLayers(ip, layers, b).value;
    var twice := PeerLayers(ip, once, a).value;
    hide PeerLayers, ChainOf, TailOf, Assemble, Norm, NormTree, NormTrees, InnerText, Restorable, NormLayers;
    AssembleChain(packet);
    TailIsNotOne(packet);
    ChainOfAssembled(once, tail);
    NormAssembled(twice, layers, tail);
    PeerLayerAt(ip, layers, b, 0);
    RewrappedPacket(t, once);
    RewrapNorm(t, Assemble(twice, tail));
  }

  /** Trees as people write them are restorable, so mirroring there and back restores them. */
  lemma {:induction false} MirrorTwice(ip: NetIP, t: Tree, b: string)
    requires LengthLaw(ip) && Mirrorable(ip, t) && b != "" && Peer(ip, t, b).Ok?
    requires forall n :: n in ChainOf(PacketOf(t)) ==> GoodLayer(ip, n)
    ensures ThereAndBack(ip, t, b).Ok? && NormTree(ThereAndBack(ip, t, b).value) == NormTree(t)
  {
    var layers := ChainOf(PacketOf(t));
    hide GoodLayer, KeptLayer, Addressed, Peer, ThereAndBack, NormTree, Mirrorable;
    forall j | 0 <= j < |layers|
      ensures KeptLayer(layers[j]) && (Addressed(ip, SwapAll(layers)[j]) <==> Addressed(ip, layers[j]))
    {
      GoodIsKept(ip, layers[j]);
      SwapKeepsAddressed(ip, layers[j]);
    }
    SameAddressed(ip, SwapAll(layers), layers);
    MirrorTwiceExactly(ip, t, b);
  }

  lemma RewrapNorm(t: Tree, packet: Tree)
    ensures NormTree(Rewrap(t, packet)) == NormTree(t) <==> NormTree(packet) == NormTree(PacketOf(t))
  {
    if Wrapped(t) {
      assert t.children == [t.children[0]];
      NormOne(packet);
      NormOne(t.children[0]);
    }
  }

  /** The far end's tree is wrapped as the near end's is, and no more. */
  lemma RewrappedPacket(t: Tree, layers: seq<Layer>)
    requires |layers| == |ChainOf(PacketOf(t))| && layers != [] && layers[0].name == PacketOf(t).layer.name
    ensures var t1 := Rewrap(t, Assemble(layers, TailOf(PacketOf(t))));
            Wrapped(t1) == Wrapped(t) && PacketOf(t1) == Assemble(layers, TailOf(PacketOf(t)))
            && forall p :: Rewrap(t1, p) == Rewrap(t, p)
  {
    if !Wrapped(t) && |t.children| == 1 {
      assert |ChainOf(t)| == 1 + |ChainOf(t.children[0])|;
    }
  }
}
