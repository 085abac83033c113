/** Nodes as the program holds them: objects with a slice of properties, linked into a tree. */
module Node {
  import opened Basics
  import opened Sexp
  import opened Ast

  class Node {
    var name: string
    var props: array<Prop>        // the array behind the property slice
    var count: nat                // the slice's length
    var children: seq<Node>
    var pos: Pos
    ghost var Repr: set<object>   // every object of the tree below, this one included

    ghost predicate Valid()
      reads this, Repr
      ensures Valid() ==> this in Repr && props in Repr && count <= props.Length
      decreases Repr
    {
      && this in Repr && props in Repr && count <= props.Length
      && (forall c :: c in children ==> c in Repr && c.Repr <= Repr && this !in c.Repr && props !in c.Repr)
      && (forall i, j :: 0 <= i < j < |children| ==> children[i].Repr !! children[j].Repr)
      && (forall c :: c in children ==> c.Valid())
    }

    /** The properties the slice holds. */
    ghost function Props(): seq<Prop>
      requires count <= props.Length
      reads this, props
    {
      props[..count]
    }

    /** The tree this node is the root of. */
    ghost function Abs(): Tree
      requires Valid()
      reads this, Repr
      decreases Repr
    {
      Tree(Layer(name, Props(), pos),
           seq(|children|, i requires 0 <= i < |children| && Valid() reads this, Repr => children[i].Abs()))
    }

    constructor (name: string, pos: Pos)
      ensures Valid() && fresh(Repr) && Abs() == Tree(Layer(name, [], pos), [])
      ensures children == [] && this.name == name && this.pos == pos && count == 0 && Repr == {this, props}
    {
      this.name, this.pos, this.count, this.children := name, pos, 0, [];
      var empty := new Prop[0];
      this.props := empty;
      this.Repr := {this, empty};
    }

    /** A node over an array of its own. */
    constructor Holding(name: string, props: array<Prop>, pos: Pos)
      ensures Valid() && Repr == {this, props} && Abs() == Tree(Layer(name, props[..], pos), [])
      ensures children == [] && this.props == props
    {
      this.name, this.pos, this.count, this.children, this.props := name, pos, props.Length, [], props;
      this.Repr := {this, props};
      new;
      assert props[..props.Length] == props[..];
    }

    /** The first property with the given key. */
    method Find(key: string) returns (p: Option<Prop>)
      requires count <= props.Length
      ensures p == Lookup(Props(), key)
    {
      for i := 0 to count
        invariant Lookup(Props(), key) == Lookup(Props()[i..], key)
      {
        if props[i].key == key {
          return Some(props[i]);
        }
        assert Props()[i..][1..] == Props()[i + 1..];
      }
      return None;
    }

    /** append(n.Props, p): in place while the array has room, into a larger copy when it has not. */
    method Append(p: Prop)
      requires count <= props.Length
      modifies this, props
      ensures count == old(count) + 1 && count <= props.Length
      ensures Props() == old(Props()) + [p]
      ensures props == old(props) || fresh(props)
      ensures name == old(name) && pos == old(pos) && children == old(children)
      ensures Repr == old(Repr) + {props}
    {
      if count == props.Length {
        var bigger := new Prop[2 * props.Length + 1];
        for i := 0 to count
          invariant bigger[..i] == props[..i]
          modifies bigger
        {
          bigger[i] := props[i];
        }
        props := bigger;
      }
      props[count] := p;
      count := count + 1;
      Repr := Repr + {props};
    }
  }

  /** The trees of a run of nodes. */
  ghost function AbsAll(nodes: seq<Node>): (ts: seq<Tree>)
    requires forall n :: n in nodes ==> n.Valid()
    reads nodes, set n, o | n in nodes && o in n.Repr :: o
    ensures |ts| == |nodes| && forall k :: 0 <= k < |nodes| ==> ts[k] == nodes[k].Abs()
  {
    if nodes == [] then [] else [nodes[0].Abs()] + AbsAll(nodes[1..])
  }

  lemma AbsIs(n: Node)
    requires n.Valid()
    ensures n.Abs() == Tree(Layer(n.name, n.Props(), n.pos), AbsAll(n.children))
  {
  }

  /** Build a node tree from one generic form. */
  method BuildNode(v: Value) returns (r: Result<Node>)
    ensures match Build(v)
            case Err(e) => r == Err(e)
            case Ok(t) => r.Ok? && r.value.Valid() && fresh(r.value.Repr) && r.value.Abs() == t
    decreases v, if v.List? then |v.items| + 2 else 0
  {
    if !v.List? {
      return Err(At(v.pos, NotAForm));
    }
    if v.items == [] {
      return Err(At(v.pos, EmptyForm));
    }
    var head := v.items[0];
    if !head.Is(Symbol) {
      return Err(At(head.pos, BadHead));
    }
    var n := new Node(head.text, v.pos);
    var read := ReadProps(n, v.items);
    if read.Err? {
      return Err(read.error);
    }
    var i := read.value;
    assert n.Valid() && n.Abs() == Tree(Layer(head.text, n.Props(), v.pos), []);
    var refused := ReadChildren(n, v, i);
    if refused.Some? {
      return Err(refused.value);
    }
    return Ok(n);
  }

  /** The forms nested in `v` from item `i` on, built and appended to a node without children. */
  method ReadChildren(n: Node, v: Value, i: nat) returns (refused: Option<Error>)
    requires v.List? && i <= |v.items| && n.Valid() && n.children == []
    modifies n
    ensures match BuildChildren(v, i)
            case Err(e) => refused == Some(e)
            case Ok(ts) => refused == None && n.Valid() && n.Abs() == Tree(old(n.Abs()).layer, ts)
    ensures fresh(n.Repr - old(n.Repr))
    decreases v, |v.items| - i + 1
  {
    hide Node.Valid, Node.Abs, Build;
    ghost var layer := n.Abs().layer;
    ghost var done: seq<Tree> := [];
    AbsIs(n);
    var k := i;
    while k < |v.items|
      invariant i <= k <= |v.items|
      invariant n.Valid() && fresh(n.Repr - old(n.Repr))
      invariant n.Abs() == Tree(layer, done)
      invariant BuildChildren(v, i) == Onto(done, BuildChildren(v, k))
    {
      var item := v.items[k];
      if item.Is(Keyword) {
        return Some(At(item.pos, LateProperty));
      }
      if !item.List? {
        return Some(At(item.pos, NotNested));
      }
      var c := BuildNode(item);
      if c.Err? {
        return Some(c.error);
      }
      OntoCons(done, Build(item).value, BuildChildren(v, k + 1));
      done := done + [Build(item).value];
      Adopt(n, c.value);
      k := k + 1;
    }
    return None;
  }

  /** The properties of a form, appended to a new node; and the item after them. */
  method ReadProps(n: Node, items: seq<Value>) returns (r: Result<nat>)
    requires items != [] && n.count == 0 && n.children == [] && n.Repr == {n, n.props}
    modifies n, n.props
    ensures n.count <= n.props.Length && (n.props == old(n.props) || fresh(n.props))
    ensures match BuildProps(items, 1, [])
            case Err(e) => r == Err(e)
            case Ok((ps, i)) => r == Ok(i) && n.Props() == ps
    ensures n.children == [] && n.name == old(n.name) && n.pos == old(n.pos)
    ensures n.Repr >= {n, n.props} && fresh(n.Repr - old(n.Repr))
  {
    var i := 1;
    while i < |items| && items[i].Is(Keyword)
      invariant 1 <= i <= |items|
      invariant n.children == [] && n.name == old(n.name) && n.pos == old(n.pos)
      invariant n.count <= n.props.Length && (n.props == old(n.props) || fresh(n.props))
      invariant n.Repr >= {n, n.props} && fresh(n.Repr - old(n.Repr))
      invariant BuildProps(items, i, n.Props()) == BuildProps(items, 1, [])
    {
      var kw := items[i];
      if i + 1 >= |items| {
        return Err(At(kw.pos, NoValue));
      }
      var val := items[i + 1];
      if val.Is(Keyword) {
        return Err(At(kw.pos, NoValue));
      }
      var dup := n.Find(kw.Key());
      if dup.Some? {
        return Err(At(kw.pos, DuplicateKey));
      }
      n.Append(Prop(kw.Key(), val, kw.pos));
      i := i + 2;
    }
    return Ok(i);
  }

  /** n.Children = append(n.Children, c), for a tree that shares nothing with n's. */
  method Adopt(n: Node, c: Node)
    requires n.Valid() && c.Valid() && n.Repr !! c.Repr
    modifies n
    ensures n.Valid() && n.Repr == old(n.Repr) + c.Repr
    ensures n.Abs() == Tree(old(n.Abs()).layer, old(n.Abs()).children + [c.Abs()])
    ensures n.children == old(n.children) + [c] && n.name == old(n.name) && n.pos == old(n.pos)
    ensures n.props == old(n.props) && n.count == old(n.count)
  {
    n.children := n.children + [c];
    n.Repr := n.Repr + c.Repr;
  }

  /** Trees already built in front of those still to come. */
  ghost function Onto(done: seq<Tree>, rest: Result<seq<Tree>>): (r: Result<seq<Tree>>)
    ensures done == [] ==> r == rest
    ensures rest.Ok? && rest.value == [] ==> r == Ok(done)
  {
    match rest
    case Err(e) => Err(e)
    case Ok(ts) =>
      assert [] + ts == ts && done + [] == done;
      Ok(done + ts)
  }

  lemma OntoCons(done: seq<Tree>, t: Tree, rest: Result<seq<Tree>>)
    ensures Onto(done, match rest case Err(e) => Err(e) case Ok(ts) => Ok([t] + ts)) == Onto(done + [t], rest)
  {
    if rest.Ok? { assert done + ([t] + rest.value) == (done + [t]) + rest.value; }
  }
}
