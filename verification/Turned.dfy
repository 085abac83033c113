/** The far end's file in the words of the near end's: which layer is given an address, and what all others say. */
module Turned {
  import opened Basics
  import opened Sexp
  import opened Ast
  import opened Netip
  import opened Props
  import opened Said
  import opened Mirror
  import opened Involution
  import opened Symmetry

  // ---------------------------------------------------------------- one layer turned around

  /** The length after a field's address, with its slash. */
  function LengthPart(v: Value): string {
    if v.Is(Star) || AfterSlash(v.Spelling()) == "" then "" else "/" + AfterSlash(v.Spelling())
  }

  /** A field that held `own` holds `now`: the address of `other`, with its own length; a star moves as it is. */
  predicate TakesOver(other: Value, own: Value, now: Value) {
    if other.Is(Star) || BeforeSlash(other.Spelling()) == "" then now == other
    else now == Atom(Text, BeforeSlash(other.Spelling()) + LengthPart(own), other.pos)
  }

  /** All that `m` says under other keys than `key`, `n` says. */
  ghost predicate SameBut(n: Layer, m: Layer, key: string) {
    && m.name == n.name && m.pos == n.pos
    && forall other :: other != key ==> Field(m, other) == Field(n, other)
  }

  /** `m` is `n` with its two ends exchanged, if it names two. */
  ghost predicate TurnedAround(n: Layer, m: Layer) {
    if Silent(n, "src") || Silent(n, "dst") then m == n
    else
      && m.name == n.name && m.pos == n.pos && !Silent(m, "src") && !Silent(m, "dst")
      && TakesOver(Field(n, "dst").value, Field(n, "src").value, Field(m, "src").value)
      && TakesOver(Field(n, "src").value, Field(n, "dst").value, Field(m, "dst").value)
      && forall key :: key != "src" && key != "dst" ==> Field(m, key) == Field(n, key)
  }

  lemma SwapTurns(n: Layer)
    ensures TurnedAround(n, SwapLayer(n))
  {
    hide Exchanged, NewSrc, NewDst, TakesOver;
    if TwoEnded(n.props) {
      SwappedEnds(n.props);
      TakenOver(Field(n, "src").value, Field(n, "dst").value);
      forall key | key != "src" && key != "dst" ensures Field(SwapLayer(n), key) == Field(n, key) {
        ExchangedKeeps(n.props, key);
      }
    }
  }

  lemma TakenOver(s: Value, d: Value)
    ensures TakesOver(d, s, NewSrc(s, d)) && TakesOver(s, d, NewDst(s, d))
  {
    assert forall x: string :: x + "" == x;
    assert forall x: string, y: string :: x + "/" + y == x + ("/" + y);
  }

  // ---------------------------------------------------------------- the layer given an address

  /** An IP layer with an address and a length. */
  ghost predicate HasNet(ip: NetIP, n: Layer) {
    IsIP(n) && exists p :: NamesNet(ip, n, "src", p)
  }

  /** The deepest of the layers that has one. */
  ghost predicate LastNet(ip: NetIP, layers: seq<Layer>, k: nat) {
    k < |layers| && HasNet(ip, layers[k]) && forall j :: k < j < |layers| ==> !HasNet(ip, layers[j])
  }

  lemma NetIsAddressed(ip: NetIP, n: Layer)
    ensures Addressed(ip, n) <==> HasNet(ip, n)
  {
    if Addressed(ip, n) { assert NamesNet(ip, n, "src", ParsePrefix(ip, Field(n, "src").value).value); }
  }

  lemma InnermostIsLast(ip: NetIP, layers: seq<Layer>, k: nat)
    ensures LastNet(ip, layers, k) <==> Innermost(ip, layers) == Some(k)
  {
    hide Addressed, HasNet;
    forall j | 0 <= j < |layers| ensures Addressed(ip, layers[j]) <==> HasNet(ip, layers[j]) {
      NetIsAddressed(ip, layers[j]);
    }
  }

  lemma LastSaysSomething(ip: NetIP, layers: seq<Layer>, k: nat)
    requires LastNet(ip, layers, k)
    ensures !Silent(layers[k], "src")
  {
  }

  /** `m` says what `n` says but for its own address: that is the one given, or gone when none is. */
  ghost predicate GivenOwn(n: Layer, m: Layer, b: string) {
    && SameBut(n, m, "src") && !Silent(n, "src")
    && Field(m, "src") == if b == "" then None else Some(Atom(Text, b, Field(n, "src").value.pos))
  }

  lemma {:induction false} WithPropIs(props: seq<Prop>, key: string, text: string, pos: Pos)
    requires Has(props, key)
    ensures Lookup(WithProp(props, key, text, pos), key).Some?
    ensures Lookup(WithProp(props, key, text, pos), key).value.val
         == Atom(Text, text, Lookup(props, key).value.val.pos)
  {
    if props[0].key != key {
      WithPropIs(props[1..], key, text, pos);
      assert WithProp(props, key, text, pos)[1..] == WithProp(props[1..], key, text, pos);
    }
  }

  lemma ReaddressedOwns(n: Layer, b: string)
    requires !Silent(n, "src")
    ensures GivenOwn(n, Readdressed(n, b), b)
  {
    if b != "" {
      WithPropFinds(n.props, "src", b, n.pos);
      WithPropIs(n.props, "src", b, n.pos);
    } else {
      WithoutPropGone(n.props, "src");
      forall key | key != "src" ensures Lookup(WithoutProp(n.props, "src"), key) == Lookup(n.props, key) {
        WithoutPropKeeps(n.props, "src", key);
      }
    }
  }

  /** Every layer turned around, and the deepest that then has an address and a length given its own. */
  ghost predicate FarSays(ip: NetIP, near: seq<Layer>, far: seq<Layer>, b: string) {
    && |far| == |near|
    && exists turned :: |turned| == |near| && (forall j :: 0 <= j < |near| ==> TurnedAround(near[j], turned[j]))
         && forall j :: 0 <= j < |near| ==>
              if LastNet(ip, turned, j) then GivenOwn(turned[j], far[j], b) else far[j] == turned[j]
  }

  lemma {:induction false} PeerLayersSay(ip: NetIP, layers: seq<Layer>, b: string)
    requires layers != [] && PeerLayers(ip, layers, b).Ok?
    ensures FarSays(ip, layers, PeerLayers(ip, layers, b).value, b)
  {
    hide PeerLayers, SwapLayer, TurnedAround, LastNet, GivenOwn, Innermost, Readdressed;
    var turned, far := SwapAll(layers), PeerLayers(ip, layers, b).value;
    forall j | 0 <= j < |layers|
      ensures TurnedAround(layers[j], turned[j])
      ensures if LastNet(ip, turned, j) then GivenOwn(turned[j], far[j], b) else far[j] == turned[j]
    {
      SwapTurns(layers[j]);
      PeerLayerAt(ip, layers, b, j);
      InnermostIsLast(ip, turned, j);
      if LastNet(ip, turned, j) {
        LastSaysSomething(ip, turned, j);
        ReaddressedOwns(turned[j], b);
      }
    }
  }

  // ---------------------------------------------------------------- whole files

  /** The address for the far end is none, or one with a length. */
  predicate CanBeGiven(ip: NetIP, b: string) {
    b == "" || ('/' in b && ip.parsePrefix(b).Some?)
  }

  /** Some layer names both ends. */
  ghost predicate HasTwoEnds(layers: seq<Layer>) {
    exists j :: 0 <= j < |layers| && !Silent(layers[j], "src") && !Silent(layers[j], "dst")
  }

  /** The packet of a file: the one form in a configure wrapper, or the file itself. */
  function Inside(t: Tree): Tree {
    if t.layer.name == "configure" && |t.children| == 1 then t.children[0] else t
  }

  /** The same wrapper, the same payload below the chain of only children, and the chain seen from the other end. */
  ghost predicate FarFile(ip: NetIP, t: Tree, far: Tree, b: string) {
    && (Inside(t) != t ==> far == Tree(t.layer, [Inside(far)])) && (Inside(t) == t ==> Inside(far) == far)
    && TailOf(Inside(far)) == TailOf(Inside(t)) && FarSays(ip, ChainOf(Inside(t)), ChainOf(Inside(far)), b)
  }

  lemma InsideIsPacket(t: Tree)
    ensures Inside(t) == PacketOf(t) && (Inside(t) != t <==> Wrapped(t))
  {
    if Wrapped(t) { assert t.children[0] < t; }
  }

  /**
   A file can be mirrored exactly when the address for the far end can be read and some layer names two ends; and
   the mirror is then its layers turned around, the deepest with an address and a length given its own.
   */
  lemma {:induction false} PeerExactly(ip: NetIP, t: Tree, b: string)
    ensures Peer(ip, t, b).Ok? <==> CanBeGiven(ip, b) && HasTwoEnds(ChainOf(Inside(t)))
    ensures !CanBeGiven(ip, b) ==> Peer(ip, t, b) == Err(Unplaced(PeerAddress))
    ensures CanBeGiven(ip, b) && !HasTwoEnds(ChainOf(Inside(t))) ==>
              Peer(ip, t, b) == Err(At(Inside(t).layer.pos, NoEndpoints))
    ensures Peer(ip, t, b).Ok? ==> FarFile(ip, t, Peer(ip, t, b).value, b)
  {
    hide PeerLayers, ChainOf, PacketOf, CanBeGiven, HasTwoEnds, FarFile, Inside;
    InsideIsPacket(t);
    PeerLayersExactly(ip, ChainOf(PacketOf(t)), b);
    ChainBegins(PacketOf(t));
    if Peer(ip, t, b).Ok? { FarFileSays(ip, t, b); }
  }

  lemma ChainBegins(t: Tree)
    ensures ChainOf(t)[0] == t.layer
  {
  }

  lemma PeerLayersExactly(ip: NetIP, layers: seq<Layer>, b: string)
    requires layers != []
    ensures PeerLayers(ip, layers, b).Ok? <==> CanBeGiven(ip, b) && HasTwoEnds(layers)
    ensures !CanBeGiven(ip, b) ==> PeerLayers(ip, layers, b) == Err(Unplaced(PeerAddress))
    ensures CanBeGiven(ip, b) && !HasTwoEnds(layers) ==>
              PeerLayers(ip, layers, b) == Err(At(layers[0].pos, NoEndpoints))
  {
    hide CanBeGiven, GoodInner, HasTwoEnds, SwapAll, Innermost, Readdressed, TwoEnded;
    GivenIsRead(ip, b);
    TwoEndsSaid(layers);
  }

  lemma FarFileSays(ip: NetIP, t: Tree, b: string)
    requires Peer(ip, t, b).Ok?
    ensures FarFile(ip, t, Peer(ip, t, b).value, b)
  {
    hide PeerLayers, FarSays, ChainOf, TailOf, Assemble, Inside;
    InsideIsPacket(t);
    InsideIsPacket(Peer(ip, t, b).value);
    var layers := ChainOf(PacketOf(t));
    var far := PeerLayers(ip, layers, b).value;
    PeerLayersSay(ip, layers, b);
    ChainBegins(PacketOf(t));
    FirstNamed(ip, layers, b);
    RewrappedPacket(t, far);
    TailIsNotOne(PacketOf(t));
    ChainOfAssembled(far, TailOf(PacketOf(t)));
  }

  lemma FirstNamed(ip: NetIP, layers: seq<Layer>, b: string)
    requires layers != [] && PeerLayers(ip, layers, b).Ok?
    ensures PeerLayers(ip, layers, b).value[0].name == layers[0].name
  {
    hide PeerLayers;
    PeerLayerAt(ip, layers, b, 0);
  }

  lemma GivenIsRead(ip: NetIP, b: string)
    ensures GoodInner(ip, b) <==> CanBeGiven(ip, b)
  {
  }

  lemma TwoEndsSaid(layers: seq<Layer>)
    ensures HasTwoEnds(layers) <==> !(forall k :: 0 <= k < |layers| ==> !TwoEnded(layers[k].props))
  {
    forall k | 0 <= k < |layers|
      ensures TwoEnded(layers[k].props) <==> !Silent(layers[k], "src") && !Silent(layers[k], "dst")
    {
    }
  }
}
