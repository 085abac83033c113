/** The mirror as it runs: clone the tree, then edit the clone's property arrays in place. */
module Peering {
  import opened Basics
  import opened Sexp
  import opened Ast
  import opened Netip
  import opened Props
  import opened Mirror
  import opened Node

  /** A deep copy that shares no node and no array with the original. */
  method Clone(n: Node) returns (c: Node)
    requires n.Valid()
    ensures c.Valid() && fresh(c.Repr) && c.Abs() == n.Abs()
    decreases n.Repr, 1
  {
    var copy := CloneProps(n);
    c := new Node.Holding(n.name, copy, n.pos);
    CloneChildren(n, c);
  }

  method CloneProps(n: Node) returns (copy: array<Prop>)
    requires n.count <= n.props.Length
    ensures fresh(copy) && copy[..] == n.Props()
  {
    copy := new Prop[n.count];
    for i := 0 to n.count
      invariant copy[..i] == n.props[..i]
      modifies copy
    {
      copy[i] := n.props[i];
    }
  }

  /** Copies of the children of `n`, under a node without any. */
  method CloneChildren(n: Node, c: Node)
    requires n.Valid() && c.Valid() && n.Repr !! c.Repr && c.Abs().children == []
    modifies c
    ensures c.Valid() && fresh(c.Repr - old(c.Repr)) && c.Abs() == Tree(old(c.Abs()).layer, n.Abs().children)
    decreases n.Repr, 0
  {
    hide Node.Valid, Node.Abs;
    ghost var tree := n.Abs();
    ghost var layer := c.Abs().layer;
    Children(n);
    for i := 0 to |n.children|
      invariant c.Valid() && fresh(c.Repr - old(c.Repr))
      invariant n.Valid() && n.Abs() == tree
      invariant c.Abs() == Tree(layer, tree.children[..i])
    {
      Children(n);
      var child := Clone(n.children[i]);
      assert tree.children[..i + 1] == tree.children[..i] + [child.Abs()];
      Adopt(c, child);
    }
    assert tree.children[..|n.children|] == tree.children;
  }

  lemma Children(n: Node)
    requires n.Valid()
    ensures |n.Abs().children| == |n.children|
    ensures forall k :: 0 <= k < |n.children| ==>
      n.children[k].Valid() && n.children[k].Repr < n.Repr && n.Abs().children[k] == n.children[k].Abs()
  {
    forall k | 0 <= k < |n.children| ensures n.children[k].Valid() && n.children[k].Repr < n.Repr {
      assert n.children[k] in n.children;
    }
  }

  // ---------------------------------------------------------------- in-place edits

  /** Exchange the two ends of one layer. */
  method SwapEndpoints(n: Node)
    requires n.count <= n.props.Length && TwoEnded(n.Props())
    modifies n.props
    ensures n.Props() == Exchanged(old(n.Props()))
  {
    var src := n.Find("src");
    var dst := n.Find("dst");
    Redirect(n, NewSrc(src.value.val, dst.value.val), NewDst(src.value.val, dst.value.val));
  }

  /** Every "src" and every "dst" gets the given value. */
  method Redirect(n: Node, newSrc: Value, newDst: Value)
    requires n.count <= n.props.Length
    modifies n.props
    ensures n.Props() == RedirectAll(old(n.Props()), newSrc, newDst)
  {
    ghost var before := n.Props();
    for i := 0 to n.count
      invariant forall k :: 0 <= k < i ==> n.props[k] == Redirected(before[k], newSrc, newDst)
      invariant forall k :: i <= k < n.count ==> n.props[k] == before[k]
    {
      if n.props[i].key == "src" {
        n.props[i] := n.props[i].(val := newSrc);
      } else if n.props[i].key == "dst" {
        n.props[i] := n.props[i].(val := newDst);
      }
    }
    assert n.Props() == RedirectAll(before, newSrc, newDst);
  }

  /** Where the text lands: on the first property with the key, or on a new last one. */
  lemma {:induction false} WithPropAt(props: seq<Prop>, key: string, text: string, pos: Pos, i: nat)
    requires i <= |props| && (forall k :: 0 <= k < i ==> props[k].key != key) && (i < |props| ==> props[i].key == key)
    ensures WithProp(props, key, text, pos)
         == if i < |props| then props[i := props[i].(val := Atom(Text, text, props[i].val.pos))]
            else props + [Prop(key, Atom(Text, text, pos), pos)]
  {
    if i > 0 {
      WithPropAt(props[1..], key, text, pos, i - 1);
    }
  }

  /** Give the first property with the key a new text, or append one. */
  method SetProp(n: Node, key: string, text: string)
    requires n.count <= n.props.Length
    modifies n, n.props
    ensures n.count <= n.props.Length && n.Props() == WithProp(old(n.Props()), key, text, n.pos)
    ensures n.name == old(n.name) && n.pos == old(n.pos) && n.children == old(n.children)
    ensures old(Has(n.Props(), key)) ==> n.props == old(n.props) && n.count == old(n.count) && n.Repr == old(n.Repr)
  {
    ghost var before := n.Props();
    var i := 0;
    while i < n.count && n.props[i].key != key
      invariant i <= n.count && forall k :: 0 <= k < i ==> before[k].key != key
    {
      i := i + 1;
    }
    WithPropAt(before, key, text, n.pos, i);
    if i < n.count {
      n.props[i] := n.props[i].(val := Atom(Text, text, n.props[i].val.pos));
      return;
    }
    n.Append(Prop(key, Atom(Text, text, n.pos), n.pos));
  }

  /** What the properties before `i` leave, once the one at `i` has been looked at. */
  lemma WithoutStep(done: seq<Prop>, props: seq<Prop>, key: string, i: nat)
    requires i < |props|
    ensures done + WithoutProp(props[i..], key)
         == (if props[i].key == key then done else done + [props[i]]) + WithoutProp(props[i + 1..], key)
  {
    assert props[i..][1..] == props[i + 1..];
  }

  /** Drop every property with the key, moving the others down in the array they are in. */
  method RemoveProp(n: Node, key: string)
    requires n.count <= n.props.Length
    modifies n`count, n.props
    ensures n.count <= old(n.count) && n.Props() == WithoutProp(old(n.Props()), key)
  {
    ghost var before := n.Props();
    ghost var done: seq<Prop> := [];
    assert before[0..] == before && WithoutProp(before, key) == [] + WithoutProp(before, key);
    var kept, total := 0, n.count;
    for i := 0 to total
      invariant kept <= i && n.count == total && |done| == kept
      invariant forall k :: 0 <= k < kept ==> n.props[k] == done[k]
      invariant forall k :: i <= k < total ==> n.props[k] == before[k]
      invariant done + WithoutProp(before[i..], key) == WithoutProp(before, key)
    {
      hide WithoutProp;
      WithoutStep(done, before, key, i);
      if n.props[i].key != key {
        n.props[kept] := n.props[i];
        done := done + [before[i]];
        kept := kept + 1;
      }
    }
    n.count := kept;
    assert n.Props() == done;
  }

  // ---------------------------------------------------------------- the chain of only children

  /** A node's own layer. */
  ghost function LayerOf(n: Node): Layer
    requires n.count <= n.props.Length
    reads n, n.props
  {
    Layer(n.name, n.Props(), n.pos)
  }

  /** Each node is the only child of the one before it, and the last one has none or several. */
  ghost predicate Linear(ls: seq<Node>, kids: seq<seq<Node>>, last: seq<Node>) {
    && ls != [] && |kids| == |ls| && kids[|kids| - 1] == last && |last| != 1
    && forall k {:trigger kids[k]} :: 0 <= k < |ls| - 1 ==> kids[k] == [ls[k + 1]]
  }

  /** The nodes own disjoint parts of one tree: no two share an array, and none is in what the last one carries. */
  ghost predicate Apart(ls: seq<Node>, last: seq<Node>)
    reads ls`props, last`Repr
  {
    && (forall j, k :: 0 <= j < k < |ls| ==> ls[j] != ls[k] && ls[j].props != ls[k].props)
    && (forall k, c :: 0 <= k < |ls| && c in last ==> ls[k] !in c.Repr && ls[k].props !in c.Repr)
  }

  /** The trees the nodes are the roots of. */
  ghost predicate Carry(kids: seq<Node>, tail: seq<Tree>)
    reads kids, set c, o | c in kids && o in c.Repr :: o
  {
    |kids| == |tail| && forall k :: 0 <= k < |tail| ==> kids[k].Valid() && kids[k].Abs() == tail[k]
  }

  /** The nodes say what the layers say. */
  ghost predicate Spells(ls: seq<Node>, layers: seq<Layer>)
    reads ls, set n | n in ls :: n.props
  {
    |ls| == |layers| && forall k :: 0 <= k < |ls| ==> ls[k].count <= ls[k].props.Length && LayerOf(ls[k]) == layers[k]
  }

  /** The node has the given children, which are in its tree and away from itself and each other. */
  ghost predicate Owns(n: Node, kids: seq<Node>)
    reads n`children, n`Repr, n`props, kids`Repr
  {
    && n.children == kids && n in n.Repr && n.props in n.Repr
    && (forall c: Node :: c in kids ==> c in n.Repr && c.Repr <= n.Repr && n !in c.Repr && n.props !in c.Repr)
    && (forall i, j :: 0 <= i < j < |kids| ==> kids[i].Repr !! kids[j].Repr)
  }

  ghost predicate Sound(ls: seq<Node>, kids: seq<seq<Node>>, last: seq<Node>)
    requires Linear(ls, kids, last)
    reads ls`children, ls`Repr, ls`props, last`Repr
  {
    forall k :: 0 <= k < |ls| ==> Owns(ls[k], kids[k])
  }

  /** The nodes and their arrays are the objects of one tree, which the first node is the root of. */
  ghost predicate Within(ls: seq<Node>, tree: set<object>)
    reads ls`props, ls`Repr
  {
    ls != [] && ls[0].Repr == tree && forall k :: 0 <= k < |ls| ==> ls[k] in tree && ls[k].props in tree
  }

  /** Everything about a chain of nodes that editing their properties must not disturb. */
  ghost predicate Wired(ls: seq<Node>, kids: seq<seq<Node>>, last: seq<Node>, tail: seq<Tree>)
    requires Linear(ls, kids, last)
    reads ls`children, ls`Repr, ls`props, last, set c, o | c in last && o in c.Repr :: o
  {
    Sound(ls, kids, last) && Apart(ls, last) && Carry(last, tail)
  }

  /** A wired chain is a tree, and that tree is its layers assembled over what the last carries. */
  lemma {:induction false} Reassembled(ls: seq<Node>, kids: seq<seq<Node>>, last: seq<Node>, layers: seq<Layer>,
                                       tail: seq<Tree>)
    requires Linear(ls, kids, last) && Wired(ls, kids, last, tail) && Spells(ls, layers)
    ensures ls[0].Valid() && ls[0].Abs() == Assemble(layers, tail)
    decreases |ls|
  {
    var n := ls[0];
    if |ls| == 1 {
      assert n.Abs().children == tail;
    } else {
      Reassembled(ls[1..], kids[1..], last, layers[1..], tail);
      assert n.children[0] == ls[1];
      assert n.Abs().children == [ls[1].Abs()];
    }
  }

  /** Nodes linked in a sound tree own disjoint parts of it. */
  lemma {:induction false} StayApart(ls: seq<Node>, kids: seq<seq<Node>>, last: seq<Node>)
    requires Linear(ls, kids, last) && Sound(ls, kids, last)
    ensures Apart(ls, last)
    ensures forall k :: 0 <= k < |ls| ==> ls[k] in ls[0].Repr && ls[k].props in ls[0].Repr && ls[k].Repr <= ls[0].Repr
    decreases |ls|
  {
    if |ls| > 1 {
      StayApart(ls[1..], kids[1..], last);
      assert ls[1] in kids[0];
      assert forall k :: 1 <= k < |ls| ==> ls[k] == ls[1..][k - 1];
    }
  }

  lemma ChainStep(n: Node)
    requires n.Valid() && |n.children| == 1
    ensures ChainOf(n.Abs()) == [LayerOf(n)] + ChainOf(n.children[0].Abs())
        && TailOf(n.Abs()) == TailOf(n.children[0].Abs())
    ensures n.children == [n.children[0]] && n.children[0].Valid() && n.children[0].Repr < n.Repr && Owns(n, n.children)
  {
    assert n.children[0] in n.children;
    assert n.Abs().children == [n.children[0].Abs()];
  }

  lemma ChainEnd(n: Node)
    requires n.Valid() && |n.children| != 1
    ensures ChainOf(n.Abs()) == [LayerOf(n)] && Carry(n.children, TailOf(n.Abs())) && Owns(n, n.children)
  {
  }

  /** The nodes of `ls` hang from each other, down to `n`, the last of them. */
  ghost predicate Strung(ls: seq<Node>, kids: seq<seq<Node>>, n: Node)
    reads ls`children, ls`Repr, ls`props, set k, c | 0 <= k < |kids| && c in kids[k] :: c
  {
    && |ls| == |kids| + 1 && ls[|kids|] == n
    && (forall k {:trigger kids[k]} :: 0 <= k < |kids| ==> kids[k] == [ls[k + 1]])
    && (forall k :: 0 <= k < |kids| ==> Owns(ls[k], kids[k]))
  }

  /** The walk from `root` has passed the nodes before `n`, the last of `ls`. */
  ghost predicate Walked(root: Node, ls: seq<Node>, kids: seq<seq<Node>>, layers: seq<Layer>, n: Node)
    reads *
  {
    && Strung(ls, kids, n) && |kids| == |layers| && ls[0] == root && root.Valid() && n.Valid()
    && Spells(ls[..|layers|], layers)
    && ChainOf(root.Abs()) == layers + ChainOf(n.Abs()) && TailOf(root.Abs()) == TailOf(n.Abs())
  }

  lemma WalkStarts(root: Node)
    requires root.Valid()
    ensures Walked(root, [root], [], [], root)
  {
    hide ChainOf, TailOf;
    assert [] + ChainOf(root.Abs()) == ChainOf(root.Abs());
  }

  lemma StringOn(ls: seq<Node>, kids: seq<seq<Node>>, n: Node)
    requires Strung(ls, kids, n) && Owns(n, n.children) && |n.children| == 1
    ensures Strung(ls + [n.children[0]], kids + [n.children], n.children[0])
  {
    hide Owns;
  }

  lemma SpellOn(ls: seq<Node>, layers: seq<Layer>, n: Node)
    requires Spells(ls, layers) && n.count <= n.props.Length
    ensures Spells(ls + [n], layers + [LayerOf(n)])
  {
    hide LayerOf;
  }

  lemma WalkStep(root: Node, ls: seq<Node>, kids: seq<seq<Node>>, layers: seq<Layer>, n: Node)
    requires Walked(root, ls, kids, layers, n) && |n.children| == 1
    ensures Walked(root, ls + [n.children[0]], kids + [n.children], layers + [LayerOf(n)], n.children[0])
    ensures n.children[0].Repr < n.Repr
  {
    hide ChainOf, TailOf, LayerOf, Owns, Node.Valid, Node.Abs, Spells;
    ChainStep(n);
    StringOn(ls, kids, n);
    SpellOn(ls[..|layers|], layers, n);
    assert ls[..|layers|] + [n] == (ls + [n.children[0]])[..|layers| + 1];
    assert layers + ([LayerOf(n)] + ChainOf(n.children[0].Abs()))
        == (layers + [LayerOf(n)]) + ChainOf(n.children[0].Abs());
  }

  lemma StringEnds(ls: seq<Node>, kids: seq<seq<Node>>, n: Node)
    requires Strung(ls, kids, n) && Owns(n, n.children) && |n.children| != 1
    ensures Linear(ls, kids + [n.children], n.children) && Sound(ls, kids + [n.children], n.children)
  {
    hide Owns;
  }

  lemma WalkEnd(root: Node, ls: seq<Node>, kids: seq<seq<Node>>, layers: seq<Layer>, n: Node)
    requires Walked(root, ls, kids, layers, n) && |n.children| != 1
    ensures |ls| == |ChainOf(root.Abs())| && Within(ls, root.Repr) && Linear(ls, kids + [n.children], n.children)
    ensures Wired(ls, kids + [n.children], n.children, TailOf(root.Abs())) && Spells(ls, ChainOf(root.Abs()))
  {
    hide ChainOf, TailOf, LayerOf, Owns, Node.Valid, Node.Abs, Spells, Sound, Apart, Carry;
    ChainEnd(n);
    StringEnds(ls, kids, n);
    StayApart(ls, kids + [n.children], n.children);
    SpellOn(ls[..|layers|], layers, n);
    assert ls[..|layers|] + [n] == ls;
  }

  /** The chain of only children below a node, the node included. */
  method SpineNodes(root: Node) returns (ls: seq<Node>, ghost kids: seq<seq<Node>>, ghost last: seq<Node>)
    requires root.Valid()
    ensures ls != [] && ls[0] == root && |ls| == |ChainOf(root.Abs())| && Within(ls, root.Repr)
    ensures Linear(ls, kids, last) && Wired(ls, kids, last, TailOf(root.Abs())) && Spells(ls, ChainOf(root.Abs()))
  {
    hide ChainOf, TailOf, LayerOf, Linear, Wired, Spells, Within;
    var n := root;
    ls, kids := [root], [];
    ghost var layers: seq<Layer> := [];
    WalkStarts(root);
    while |n.children| == 1
      invariant Walked(root, ls, kids, layers, n)
      decreases n.Repr
    {
      WalkStep(root, ls, kids, layers, n);
      layers, kids := layers + [LayerOf(n)], kids + [n.children];
      n := n.children[0];
      ls := ls + [n];
    }
    WalkEnd(root, ls, kids, layers, n);
    kids, last := kids + [n.children], n.children;
  }

  method SwapIfTwoEnded(n: Node) returns (turned: bool)
    requires n.count <= n.props.Length
    modifies n.props
    ensures LayerOf(n) == SwapLayer(old(LayerOf(n))) && turned == TwoEnded(old(LayerOf(n)).props)
  {
    var src := n.Find("src");
    var dst := n.Find("dst");
    turned := src.Some? && dst.Some?;
    if turned {
      SwapEndpoints(n);
    }
  }

  /** Exchange the ends of one node of a chain, if it names both. */
  method SwapAt(ls: seq<Node>, i: nat, ghost kids: seq<seq<Node>>, ghost last: seq<Node>,
                ghost layers: seq<Layer>, ghost tail: seq<Tree>) returns (turned: bool)
    requires Linear(ls, kids, last) && Wired(ls, kids, last, tail) && Spells(ls, layers) && i < |ls|
    modifies ls[i].props
    ensures Wired(ls, kids, last, tail) && Spells(ls, layers[i := SwapLayer(layers[i])])
        && turned == TwoEnded(layers[i].props)
  {
    hide SwapLayer, TwoEnded, LayerOf, Sound, Carry;
    turned := SwapIfTwoEnded(ls[i]);
  }

  /** The layers with the first `i` turned around. */
  ghost function SwapFirst(layers: seq<Layer>, i: nat): (r: seq<Layer>)
    requires i <= |layers|
    ensures |r| == |layers|
  {
    SwapAll(layers[..i]) + layers[i..]
  }

  ghost predicate NoneTwoEnded(layers: seq<Layer>, i: nat)
    requires i <= |layers|
  {
    forall k :: 0 <= k < i ==> !TwoEnded(layers[k].props)
  }

  lemma SwapStep(layers: seq<Layer>, i: nat)
    requires i < |layers|
    ensures SwapFirst(layers, i)[i] == layers[i]
    ensures SwapFirst(layers, i + 1) == SwapFirst(layers, i)[i := SwapLayer(layers[i])]
    ensures NoneTwoEnded(layers, i + 1) <==> NoneTwoEnded(layers, i) && !TwoEnded(layers[i].props)
  {
    hide SwapLayer, TwoEnded;
    assert layers[..i + 1] == layers[..i] + [layers[i]];
  }

  lemma SwapEnds(layers: seq<Layer>)
    ensures SwapFirst(layers, 0) == layers && SwapFirst(layers, |layers|) == SwapAll(layers) && NoneTwoEnded(layers, 0)
  {
    assert layers[..|layers|] == layers && layers[..0] + layers == layers;
  }

  /** Exchange the ends of every node that names both, and count them. */
  method SwapEach(ls: seq<Node>, ghost kids: seq<seq<Node>>, ghost last: seq<Node>,
                     ghost layers: seq<Layer>, ghost tail: seq<Tree>,
                  ghost tree: set<object>) returns (swapped: nat)
    requires Linear(ls, kids, last) && Wired(ls, kids, last, tail) && Spells(ls, layers) && Within(ls, tree)
    requires |ls| == |layers|
    modifies tree
    ensures Wired(ls, kids, last, tail) && Spells(ls, SwapAll(layers)) && Within(ls, tree)
    ensures swapped == 0 <==> NoneTwoEnded(layers, |layers|)
  {
    hide SwapLayer, TwoEnded, Wired, Spells, Linear, SwapFirst, NoneTwoEnded;
    SwapEnds(layers);
    swapped := 0;
    for i := 0 to |ls|
      invariant Wired(ls, kids, last, tail) && Spells(ls, SwapFirst(layers, i)) && Within(ls, tree)
      invariant swapped == 0 <==> NoneTwoEnded(layers, i)
    {
      SwapStep(layers, i);
      var turned := SwapAt(ls, i, kids, last, SwapFirst(layers, i), tail);
      if turned {
        swapped := swapped + 1;
      }
    }
  }

  method CarriesAddress(ip: NetIP, n: Node) returns (yes: bool)
    requires n.count <= n.props.Length
    ensures yes == Addressed(ip, LayerOf(n))
  {
    if n.name != "ipv4" && n.name != "ipv6" {
      return false;
    }
    var p := n.Find("src");
    return p.Some? && ParsePrefix(ip, p.value.val).Ok?;
  }

  /** The deepest node carrying an address and a length. */
  method InnermostAddressed(ip: NetIP, ls: seq<Node>, ghost layers: seq<Layer>) returns (k: Option<nat>)
    requires Spells(ls, layers)
    ensures k == Innermost(ip, layers)
  {
    hide Addressed, LayerOf;
    var i := |ls|;
    while i > 0
      invariant 0 <= i <= |ls| && Innermost(ip, layers) == Innermost(ip, layers[..i])
    {
      i := i - 1;
      assert layers[..i + 1][..i] == layers[..i];
      var found := CarriesAddress(ip, ls[i]);
      if found {
        return Some(i);
      }
    }
    return None;
  }

  /** Give a node a new inner address, or take away the one it has. */
  method Readdress(n: Node, innerAddr: string)
    requires n.count <= n.props.Length && Has(n.Props(), "src")
    modifies n, n.props
    ensures n.props == old(n.props) && n.Repr == old(n.Repr) && n.children == old(n.children)
    ensures n.count <= n.props.Length && LayerOf(n) == Readdressed(old(LayerOf(n)), innerAddr)
  {
    if innerAddr != "" {
      SetProp(n, "src", innerAddr);
    } else {
      RemoveProp(n, "src");
    }
  }

  method ReaddressAt(ls: seq<Node>, i: nat, innerAddr: string, ghost kids: seq<seq<Node>>, ghost last: seq<Node>,
                     ghost layers: seq<Layer>, ghost tail: seq<Tree>, ghost tree: set<object>)
    requires Linear(ls, kids, last) && Wired(ls, kids, last, tail) && Spells(ls, layers) && Within(ls, tree)
    requires i < |ls| == |layers| && Has(layers[i].props, "src")
    modifies tree
    ensures Wired(ls, kids, last, tail) && Spells(ls, layers[i := Readdressed(layers[i], innerAddr)])
        && Within(ls, tree)
  {
    hide Readdressed, Carry, Linear;
    Readdress(ls[i], innerAddr);
  }

  lemma SpelledFirst(ls: seq<Node>, layers: seq<Layer>)
    requires Spells(ls, SwapAll(layers)) && layers != []
    ensures ls != [] && ls[0].pos == layers[0].pos
  {
  }

  /** Turn one packet around where it stands. */
  method TurnAround(ip: NetIP, packet: Node, innerAddr: string) returns (refused: Option<Error>)
    requires packet.Valid() && GoodInner(ip, innerAddr)
    modifies packet.Repr
    ensures match PeerLayers(ip, old(ChainOf(packet.Abs())), innerAddr)
            case Err(e) => refused == Some(e)
            case Ok(layers) =>
              && refused == None && packet.Valid() && packet.Repr == old(packet.Repr)
              && packet.Abs() == Assemble(layers, old(TailOf(packet.Abs())))
  {
    hide Spells, Wired, Linear, Readdressed, SwapAll, ChainOf, TailOf, TwoEnded, Assemble;
    ghost var layers, tail, tree := ChainOf(packet.Abs()), TailOf(packet.Abs()), packet.Repr;
    var ls, kids, last := SpineNodes(packet);
    var swapped := SwapEach(ls, kids, last, layers, tail, tree);
    if swapped == 0 {
      SpelledFirst(ls, layers);
      return Some(At(ls[0].pos, NoEndpoints));
    }
    ghost var now := SwapAll(layers);
    var inner := InnermostAddressed(ip, ls, now);
    if inner.Some? {
      ReaddressAt(ls, inner.value, innerAddr, kids, last, now, tail, tree);
      now := now[inner.value := Readdressed(now[inner.value], innerAddr)];
    }
    Reassembled(ls, kids, last, now, tail);
    return None;
  }

  /** Turn the one packet of a wrapper around. */
  method TurnWrapped(ip: NetIP, tree: Node, innerAddr: string) returns (refused: Option<Error>)
    requires tree.Valid() && |tree.children| == 1 && GoodInner(ip, innerAddr)
    modifies tree.Repr
    ensures match PeerLayers(ip, old(ChainOf(tree.Abs().children[0])), innerAddr)
            case Err(e) => refused == Some(e)
            case Ok(layers) =>
              && refused == None && tree.Valid() && tree.Repr == old(tree.Repr)
              && tree.Abs() == Tree(old(tree.Abs()).layer, [Assemble(layers, old(TailOf(tree.Abs().children[0])))])
  {
    hide PeerLayers, ChainOf, TailOf, Assemble;
    var packet := tree.children[0];
    assert packet in tree.children;
    refused := TurnAround(ip, packet, innerAddr);
  }

  lemma BadInner(ip: NetIP, t: Tree, innerAddr: string)
    requires !GoodInner(ip, innerAddr)
    ensures Peer(ip, t, innerAddr) == Err(Unplaced(PeerAddress))
  {
  }

  /** Mirror the packet, not the wrapper around it: the far end's tree, built without touching the near end's. */
  method PeerTree(ip: NetIP, root: Node, innerAddr: string) returns (r: Result<Node>)
    requires root.Valid()
    ensures match Peer(ip, root.Abs(), innerAddr)
            case Err(e) => r == Err(e)
            case Ok(t) =>
              && r.Ok? && r.value.Valid() && r.value.Abs() == t
              && fresh(r.value.Repr) && r.value.Repr !! root.Repr
    ensures root.Valid() && unchanged(root.Repr)
  {
    hide PeerLayers, ChainOf, TailOf, Assemble;
    if innerAddr != "" && ParsePrefix(ip, Atom(Text, innerAddr, Pos(0, 0))).Err? {
      BadInner(ip, root.Abs(), innerAddr);
      return Err(Unplaced(PeerAddress));
    }
    var tree := Clone(root);
    if tree.name == "configure" && |tree.children| == 1 {
      var refused := TurnWrapped(ip, tree, innerAddr);
      if refused.Some? {
        return Err(refused.value);
      }
    } else {
      var refused := TurnAround(ip, tree, innerAddr);
      if refused.Some? {
        return Err(refused.value);
      }
    }
    return Ok(tree);
  }
}
