/** Protocol trees: what a generic form means as a packet description. */
module Ast {
  import opened Basics
  import opened Sexp

  /** One :key value pair. */
  datatype Prop = Prop(key: string, val: Value, pos: Pos)

  /** One protocol layer, without what it carries. */
  datatype Layer = Layer(name: string, props: seq<Prop>, pos: Pos)

  /** A protocol layer and the forms nested in it. */
  datatype Tree = Tree(layer: Layer, children: seq<Tree>)

  /** The first property with the given key. */
  function Lookup(props: seq<Prop>, key: string): (p: Option<Prop>)
    ensures p.Some? ==> p.value in props && p.value.key == key
    ensures p.None? <==> forall k :: 0 <= k < |props| ==> props[k].key != key
  {
    if props == [] then None
    else if props[0].key == key then Some(props[0])
    else Lookup(props[1..], key)
  }

  predicate Has(props: seq<Prop>, key: string) {
    Lookup(props, key).Some?
  }

  predicate DistinctKeys(props: seq<Prop>) {
    forall i, j :: 0 <= i < j < |props| ==> props[i].key != props[j].key
  }

  lemma {:induction false} LookupSplit(front: seq<Prop>, back: seq<Prop>, key: string)
    ensures Lookup(front + back, key) == (if Has(front, key) then Lookup(front, key) else Lookup(back, key))
  {
    if front == [] {
      assert front + back == back;
    } else {
      assert (front + back)[1..] == front[1..] + back;
      LookupSplit(front[1..], back, key);
    }
  }

  // ---------------------------------------------------------------- building

  /** The properties read from item `i` on, added to `props`, and the item after them. */
  function BuildProps(items: seq<Value>, i: nat, props: seq<Prop>): (r: Result<(seq<Prop>, nat)>)
    requires 0 < i <= |items|
    ensures r.Ok? ==> i <= r.value.1 <= |items|
    decreases |items| - i
  {
    if i == |items| || !items[i].Is(Keyword) then Ok((props, i))
    else
      var kw := items[i];
      if i + 1 >= |items| || items[i + 1].Is(Keyword) then Err(At(kw.pos, NoValue))
      else if Has(props, kw.Key()) then Err(At(kw.pos, DuplicateKey))
      else BuildProps(items, i + 2, props + [Prop(kw.Key(), items[i + 1], kw.pos)])
  }

  /** The tree a form describes. */
  function Build(v: Value): Result<Tree>
    decreases v, if v.List? then |v.items| + 2 else 0
  {
    if !v.List? then Err(At(v.pos, NotAForm))
    else if v.items == [] then Err(At(v.pos, EmptyForm))
    else if !v.items[0].Is(Symbol) then Err(At(v.items[0].pos, BadHead))
    else
      match BuildProps(v.items, 1, [])
      case Err(e) => Err(e)
      case Ok((props, i)) =>
        match BuildChildren(v, i)
        case Err(e) => Err(e)
        case Ok(children) => Ok(Tree(Layer(v.items[0].text, props, v.pos), children))
  }

  /** The trees nested in `v` from item `i` on. */
  function BuildChildren(v: Value, i: nat): Result<seq<Tree>>
    requires v.List? && i <= |v.items|
    decreases v, |v.items| - i + 1
  {
    if i == |v.items| then Ok([])
    else if v.items[i].Is(Keyword) then Err(At(v.items[i].pos, LateProperty))
    else if !v.items[i].List? then Err(At(v.items[i].pos, NotNested))
    else
      match Build(v.items[i])
      case Err(e) => Err(e)
      case Ok(c) =>
        match BuildChildren(v, i + 1)
        case Err(e) => Err(e)
        case Ok(cs) => Ok([c] + cs)
  }

  // ---------------------------------------------------------------- trees as forms

  /** The items a property contributes to its form. */
  function PropItems(props: seq<Prop>): seq<Value> {
    if props == [] then []
    else [Atom(Keyword, ":" + props[0].key, props[0].pos), props[0].val] + PropItems(props[1..])
  }

  /** The form that describes a tree. A node does not keep where its name stood, so the form's own position is used. */
  function ToForm(t: Tree): Value {
    List([Atom(Symbol, t.layer.name, t.layer.pos)] + PropItems(t.layer.props) + ChildForms(t.children), t.layer.pos)
  }

  function ChildForms(ts: seq<Tree>): seq<Value> {
    if ts == [] then [] else [ToForm(ts[0])] + ChildForms(ts[1..])
  }

  /** Trees that can be built: keys are distinct and no value is itself a key, at every depth. */
  predicate Buildable(t: Tree) {
    && DistinctKeys(t.layer.props)
    && (forall k :: 0 <= k < |t.layer.props| ==> !t.layer.props[k].val.Is(Keyword))
    && forall c :: c in t.children ==> Buildable(c)
  }
}
