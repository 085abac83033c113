/** The far end of a tunnel, derived from the near end: what mirroring computes, on values. */
module Mirror {
  import opened Basics
  import opened Sexp
  import opened Ast
  import opened Netip
  import opened Props

  // ---------------------------------------------------------------- one layer

  /** An address and its length, as written. A '*' has neither. */
  function SplitPrefix(v: Value): (string, string) {
    if v.Is(Star) then ("", "") else (BeforeSlash(v.Spelling()), AfterSlash(v.Spelling()))
  }

  function Joined(addr: string, length: string): string {
    if length == "" then addr else addr + "/" + length
  }

  /** An address with the length belonging to its new place. A '*' stays a '*'. */
  function Rebuild(orig: Value, addr: string, length: string): Value {
    if orig.Is(Star) || addr == "" then orig else Atom(Text, Joined(addr, length), orig.pos)
  }

  /** What :src becomes: the other address, with this end's length. */
  function NewSrc(src: Value, dst: Value): Value {
    Rebuild(dst, SplitPrefix(dst).0, SplitPrefix(src).1)
  }

  function NewDst(src: Value, dst: Value): Value {
    Rebuild(src, SplitPrefix(src).0, SplitPrefix(dst).1)
  }

  predicate TwoEnded(props: seq<Prop>) {
    Has(props, "src") && Has(props, "dst")
  }

  function Redirected(p: Prop, src: Value, dst: Value): Prop {
    if p.key == "src" then p.(val := src) else if p.key == "dst" then p.(val := dst) else p
  }

  function RedirectAll(props: seq<Prop>, src: Value, dst: Value): (r: seq<Prop>)
    ensures |r| == |props|
    ensures forall k :: 0 <= k < |props| ==>
        (r[k] == Redirected(props[k], src, dst) && r[k].key == props[k].key)
  {
    if props == [] then [] else [Redirected(props[0], src, dst)] + RedirectAll(props[1..], src, dst)
  }

  /** The two ends of a layer exchanged; the lengths stay with the fields. */
  function Exchanged(props: seq<Prop>): (r: seq<Prop>)
    requires TwoEnded(props)
    ensures |r| == |props|
  {
    var src, dst := Lookup(props, "src").value.val, Lookup(props, "dst").value.val;
    RedirectAll(props, NewSrc(src, dst), NewDst(src, dst))
  }

  function SwapLayer(n: Layer): Layer {
    if TwoEnded(n.props) then n.(props := Exchanged(n.props)) else n
  }

  function SwapAll(layers: seq<Layer>): (r: seq<Layer>)
    ensures |r| == |layers| && forall k :: 0 <= k < |layers| ==> r[k] == SwapLayer(layers[k])
  {
    if layers == [] then [] else [SwapLayer(layers[0])] + SwapAll(layers[1..])
  }

  // ---------------------------------------------------------------- the inner address

  /** The layer carries an address and a length. */
  predicate Addressed(ip: NetIP, n: Layer) {
    && (n.name == "ipv4" || n.name == "ipv6")
    && Has(n.props, "src") && ParsePrefix(ip, Lookup(n.props, "src").value.val).Ok?
  }

  /** The deepest layer carrying an address. */
  function Innermost(ip: NetIP, layers: seq<Layer>): (k: Option<nat>)
    ensures k.Some? ==> k.value < |layers| && Addressed(ip, layers[k.value])
    ensures k.Some? ==> forall j :: k.value < j < |layers| ==> !Addressed(ip, layers[j])
    ensures k.None? ==> forall j :: 0 <= j < |layers| ==> !Addressed(ip, layers[j])
  {
    if layers == [] then None
    else if Addressed(ip, layers[|layers| - 1]) then Some(|layers| - 1)
    else Innermost(ip, layers[..|layers| - 1])
  }

  /** The first property with the key gets the text; failing that, a new one does. */
  function WithProp(props: seq<Prop>, key: string, text: string, pos: Pos): seq<Prop> {
    if props == [] then [Prop(key, Atom(Text, text, pos), pos)]
    else if props[0].key == key then [props[0].(val := Atom(Text, text, props[0].val.pos))] + props[1..]
    else [props[0]] + WithProp(props[1..], key, text, pos)
  }

  function WithoutProp(props: seq<Prop>, key: string): seq<Prop> {
    if props == [] then []
    else (if props[0].key == key then [] else [props[0]]) + WithoutProp(props[1..], key)
  }

  function Readdressed(n: Layer, innerAddr: string): Layer {
    if innerAddr != "" then n.(props := WithProp(n.props, "src", innerAddr, n.pos))
    else n.(props := WithoutProp(n.props, "src"))
  }

  // ---------------------------------------------------------------- whole packets

  predicate GoodInner(ip: NetIP, innerAddr: string) {
    innerAddr == "" || ParsePrefix(ip, Atom(Text, innerAddr, Pos(0, 0))).Ok?
  }

  /** The far end's layers. */
  function PeerLayers(ip: NetIP, layers: seq<Layer>, innerAddr: string): (r: Result<seq<Layer>>)
    requires layers != []
    ensures r.Ok? ==> |r.value| == |layers|
  {
    if !GoodInner(ip, innerAddr) then Err(Unplaced(PeerAddress))
    else if forall k :: 0 <= k < |layers| ==> !TwoEnded(layers[k].props) then Err(At(layers[0].pos, NoEndpoints))
    else
      var swapped := SwapAll(layers);
      match Innermost(ip, swapped)
      case None => Ok(swapped)
      case Some(k) => Ok(swapped[k := Readdressed(swapped[k], innerAddr)])
  }

  /** The chain of only children below a node, and what the last of them carries. */
  function ChainOf(t: Tree): (r: seq<Layer>)
    ensures r != []
    decreases t
  {
    [t.layer] + if |t.children| == 1 then ChainOf(t.children[0]) else []
  }

  function TailOf(t: Tree): seq<Tree>
    decreases t
  {
    if |t.children| == 1 then TailOf(t.children[0]) else t.children
  }

  /** The tree with the given chain of only children, the last of which carries `tail`. */
  function Assemble(layers: seq<Layer>, tail: seq<Tree>): Tree
    requires layers != []
  {
    Tree(layers[0], if |layers| == 1 then tail else [Assemble(layers[1..], tail)])
  }

  /** A (configure ...) wrapper around one packet is not itself mirrored. */
  predicate Wrapped(t: Tree) {
    t.layer.name == "configure" && |t.children| == 1
  }

  function PacketOf(t: Tree): Tree {
    if Wrapped(t) then t.children[0] else t
  }

  /** The far end's tree. */
  function Peer(ip: NetIP, t: Tree, innerAddr: string): Result<Tree> {
    var packet := PacketOf(t);
    var layers :- PeerLayers(ip, ChainOf(packet), innerAddr);
    Ok(Rewrap(t, Assemble(layers, TailOf(packet))))
  }

  /** Another packet in the same wrapper, if there is one. */
  function Rewrap(t: Tree, packet: Tree): Tree {
    if Wrapped(t) then Tree(t.layer, [packet]) else packet
  }

  /** What each layer becomes. */
  lemma PeerLayerAt(ip: NetIP, layers: seq<Layer>, innerAddr: string, j: nat)
    requires layers != [] && PeerLayers(ip, layers, innerAddr).Ok? && j < |layers|
    ensures PeerLayers(ip, layers, innerAddr).value[j]
         == if Innermost(ip, SwapAll(layers)) == Some(j) then Readdressed(SwapLayer(layers[j]), innerAddr)
            else SwapLayer(layers[j])
  {
  }

  lemma {:induction false} AssembleChain(t: Tree)
    ensures Assemble(ChainOf(t), TailOf(t)) == t
    decreases t
  {
    if |t.children| == 1 {
      AssembleChain(t.children[0]);
      assert ChainOf(t)[1..] == ChainOf(t.children[0]);
      assert t.children == [t.children[0]];
    }
  }

  lemma {:induction false} ChainOfAssembled(layers: seq<Layer>, tail: seq<Tree>)
    requires layers != [] && |tail| != 1
    ensures ChainOf(Assemble(layers, tail)) == layers && TailOf(Assemble(layers, tail)) == tail
    decreases layers
  {
    if |layers| > 1 {
      ChainOfAssembled(layers[1..], tail);
      assert layers == [layers[0]] + layers[1..];
    } else {
      assert layers == [layers[0]];
    }
  }

  lemma {:induction false} TailIsNotOne(t: Tree)
    ensures |TailOf(t)| != 1
    decreases t
  {
    if |t.children| == 1 { TailIsNotOne(t.children[0]); }
  }
}
