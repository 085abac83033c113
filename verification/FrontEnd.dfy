/** Text to trees and back: printing, reading and building undo each other up to positions. */
module FrontEnd {
  import opened Basics
  import opened Sexp
  import opened Ast
  import opened Parser
  import opened Grammar

  const NOWHERE := Pos(0, 0)

  // ---------------------------------------------------------------- forgetting positions

  function EraseValue(v: Value): Value {
    match v
    case Atom(kind, text, _) => Atom(kind, text, NOWHERE)
    case List(items, _) => List(EraseValues(items), NOWHERE)
  }

  function EraseValues(vs: seq<Value>): (r: seq<Value>)
    ensures |r| == |vs| && forall k :: 0 <= k < |vs| ==> r[k] == EraseValue(vs[k])
  {
    if vs == [] then [] else [EraseValue(vs[0])] + EraseValues(vs[1..])
  }

  function EraseProps(ps: seq<Prop>): (r: seq<Prop>)
    ensures |r| == |ps|
    ensures forall k :: 0 <= k < |ps| ==> r[k] == Prop(ps[k].key, EraseValue(ps[k].val), NOWHERE)
  {
    if ps == [] then []
    else [Prop(ps[0].key, EraseValue(ps[0].val), NOWHERE)] + EraseProps(ps[1..])
  }

  function EraseTree(t: Tree): Tree {
    Tree(Layer(t.layer.name, EraseProps(t.layer.props), NOWHERE), EraseTrees(t.children))
  }

  function EraseTrees(ts: seq<Tree>): seq<Tree> {
    if ts == [] then [] else [EraseTree(ts[0])] + EraseTrees(ts[1..])
  }

  function EraseError(e: Error): Error {
    match e
    case At(_, reason) => At(NOWHERE, reason)
    case Unplaced(reason) => e
  }

  lemma {:induction false} EraseValuesAppend(a: seq<Value>, b: seq<Value>)
    ensures EraseValues(a + b) == EraseValues(a) + EraseValues(b)
  {
    if a == [] {
      assert a + b == b;
    } else {
      assert (a + b)[1..] == a[1..] + b;
      EraseValuesAppend(a[1..], b);
    }
  }

  lemma {:induction false} HasErased(ps: seq<Prop>, key: string)
    ensures Has(EraseProps(ps), key) == Has(ps, key)
  {
    if ps != [] {
      assert EraseProps(ps)[1..] == EraseProps(ps[1..]);
      HasErased(ps[1..], key);
    }
  }

  // ---------------------------------------------------------------- building does not look at positions

  lemma {:induction false} BuildPropsErased(items: seq<Value>, i: nat, props: seq<Prop>)
    requires 0 < i <= |items|
    ensures BuildProps(EraseValues(items), i, EraseProps(props))
         == match BuildProps(items, i, props)
            case Err(e) => Err(EraseError(e))
            case Ok((ps, n)) => Ok((EraseProps(ps), n))
    decreases |items| - i
  {
    var erased := EraseValues(items);
    if i < |items| && items[i].Is(Keyword) {
      assert erased[i] == EraseValue(items[i]) && erased[i].Key() == items[i].Key();
      HasErased(props, items[i].Key());
      if i + 1 < |items| {
        var p := Prop(items[i].Key(), items[i + 1], items[i].pos);
        assert erased[i + 1] == EraseValue(items[i + 1]);
        assert EraseProps(props + [p]) == EraseProps(props) + [Prop(p.key, erased[i + 1], NOWHERE)];
        BuildPropsErased(items, i + 2, props + [p]);
      }
    }
  }

  lemma {:induction false} BuildErased(v: Value)
    ensures Build(EraseValue(v))
         == match Build(v)
            case Err(e) => Err(EraseError(e))
            case Ok(t) => Ok(EraseTree(t))
    decreases v, if v.List? then |v.items| + 2 else 0
  {
    if v.List? && v.items != [] && v.items[0].Is(Symbol) {
      BuildPropsErased(v.items, 1, []);
      var props := BuildProps(v.items, 1, []);
      if props.Ok? {
        BuildChildrenErased(v, props.value.1);
      }
    }
  }

  lemma {:induction false} BuildChildrenErased(v: Value, i: nat)
    requires v.List? && i <= |v.items|
    ensures BuildChildren(EraseValue(v), i)
         == match BuildChildren(v, i)
            case Err(e) => Err(EraseError(e))
            case Ok(ts) => Ok(EraseTrees(ts))
    decreases v, |v.items| - i + 1
  {
    hide Build;
    if i < |v.items| && v.items[i].List? {
      BuildErased(v.items[i]);
      if Build(v.items[i]).Ok? {
        BuildChildrenErased(v, i + 1);
      }
    }
  }

  // ---------------------------------------------------------------- building undoes ToForm

  lemma {:induction false} PropsFromItems(before: seq<Value>, ps: seq<Prop>, after: seq<Value>, done: seq<Prop>)
    requires before != [] && DistinctKeys(done + ps)
    requires forall k :: 0 <= k < |ps| ==> !ps[k].val.Is(Keyword)
    requires after == [] || !after[0].Is(Keyword)
    ensures |PropItems(ps)| == 2 * |ps|
    ensures BuildProps(before + PropItems(ps) + after, |before|, done) == Ok((done + ps, |before| + 2 * |ps|))
    decreases ps
  {
    var items := before + PropItems(ps) + after;
    if ps == [] {
      assert done + ps == done;
      assert items == before + after;
    } else {
      var pair := [Atom(Keyword, ":" + ps[0].key, ps[0].pos), ps[0].val];
      assert items == (before + pair) + PropItems(ps[1..]) + after;
      assert items[|before|] == pair[0] && items[|before| + 1] == pair[1];
      assert pair[0].Key() == ps[0].key;
      assert !Has(done, ps[0].key) by {
        forall k | 0 <= k < |done| ensures done[k].key != ps[0].key {
          assert (done + ps)[k] == done[k] && (done + ps)[|done|] == ps[0];
        }
      }
      assert done + ps == (done + [ps[0]]) + ps[1..];
      PropsFromItems(before + pair, ps[1..], after, done + [ps[0]]);
    }
  }

  lemma {:induction false} ChildFormsAt(ts: seq<Tree>)
    ensures |ChildForms(ts)| == |ts|
    ensures forall k :: 0 <= k < |ts| ==> ChildForms(ts)[k] == ToForm(ts[k])
  {
    if ts != [] {
      ChildFormsAt(ts[1..]);
    }
  }

  /** Every buildable tree is what its own form builds. */
  lemma {:induction false} BuildUndoesToForm(t: Tree)
    requires Buildable(t)
    ensures Build(ToForm(t)) == Ok(t)
    decreases t, |t.children| + 2
  {
    var v := ToForm(t);
    var head, forms := [Atom(Symbol, t.layer.name, t.layer.pos)], ChildForms(t.children);
    ChildFormsAt(t.children);
    assert [] + t.layer.props == t.layer.props;
    PropsFromItems(head, t.layer.props, forms, []);
    var n := 1 + 2 * |t.layer.props|;
    assert v.items[n..] == forms;
    ChildrenFromForms(t, v, n, t.children);
  }

  lemma {:induction false} ChildrenFromForms(t: Tree, v: Value, i: nat, ts: seq<Tree>)
    requires v.List? && i <= |v.items| && v.items[i..] == ChildForms(ts)
    requires forall c :: c in ts ==> c in t.children
    requires Buildable(t)
    ensures BuildChildren(v, i) == Ok(ts)
    decreases t, |ts| + 1
  {
    ChildFormsAt(ts);
    assert |v.items[i..]| == |ts|;
    if ts != [] {
      assert v.items[i] == v.items[i..][0] == ToForm(ts[0]);
      assert ts[0] in t.children;
      BuildUndoesToForm(ts[0]);
      assert v.items[i + 1..] == v.items[i..][1..] == ChildForms(ts[1..]);
      ChildrenFromForms(t, v, i + 1, ts[1..]);
      assert [ts[0]] + ts[1..] == ts;
    }
  }

  // ---------------------------------------------------------------- and ToForm undoes building

  /** Values as the reader makes them: an atom is spelt the way its kind demands. */
  ghost predicate Spellable(v: Value) {
    match v
    case Atom(kind, text, _) => kind == Text || exists a :: WfBare(a) && ShowBare(a) == text && KindOf(a) == kind
    case List(items, _) => forall x :: x in items ==> Spellable(x)
  }

  lemma {:induction false} BuiltProps(items: seq<Value>, i: nat, props: seq<Prop>)
    requires 0 < i <= |items| && BuildProps(items, i, props).Ok?
    requires forall x :: x in items ==> Spellable(x)
    requires DistinctKeys(props) && forall k :: 0 <= k < |props| ==> !props[k].val.Is(Keyword)
    ensures var (ps, n) := BuildProps(items, i, props).value;
            && DistinctKeys(ps) && (forall k :: 0 <= k < |ps| ==> !ps[k].val.Is(Keyword))
            && |props| <= |ps| && ps[..|props|] == props
            && PropItems(ps[|props|..]) == items[i..n]
    decreases |items| - i
  {
    if i < |items| && items[i].Is(Keyword) {
      var p := Prop(items[i].Key(), items[i + 1], items[i].pos);
      BuiltProps(items, i + 2, props + [p]);
      var (ps, n) := BuildProps(items, i + 2, props + [p]).value;
      assert items[i] in items && ":" <= items[i].text;
      assert items[i] == Atom(Keyword, ":" + p.key, p.pos);
      PropItemsCons(items, i, n, ps, props, p);
    }
  }

  lemma PropItemsCons(items: seq<Value>, i: nat, n: nat, ps: seq<Prop>, props: seq<Prop>, p: Prop)
    requires i + 2 <= n <= |items| && |props| < |ps| && ps[..|props| + 1] == props + [p]
    requires items[i] == Atom(Keyword, ":" + p.key, p.pos) && items[i + 1] == p.val
    requires PropItems(ps[|props| + 1..]) == items[i + 2..n]
    ensures ps[..|props|] == props && PropItems(ps[|props|..]) == items[i..n]
  {
    assert ps[|props|] == ps[..|props| + 1][|props|] == p;
    assert ps[..|props|] == ps[..|props| + 1][..|props|];
    assert ps[|props|..][1..] == ps[|props| + 1..];
    assert items[i..n] == [items[i], items[i + 1]] + items[i + 2..n];
  }

  /** What Build accepts, it represents completely: the tree is buildable and its form is the one given. */
  lemma {:induction false} BuildIsFaithful(v: Value)
    requires Spellable(v) && Build(v).Ok?
    ensures Buildable(Build(v).value)
    ensures EraseValue(ToForm(Build(v).value)) == EraseValue(v)
    decreases v, if v.List? then |v.items| + 2 else 0
  {
    var t := Build(v).value;
    BuiltProps(v.items, 1, []);
    var (ps, n) := BuildProps(v.items, 1, []).value;
    assert ps[0..] == ps;
    BuiltChildren(v, n);
    ErasedParts(v.items, n, Atom(Symbol, t.layer.name, t.layer.pos), PropItems(ps), ChildForms(t.children));
  }

  lemma ErasedParts(items: seq<Value>, n: nat, head: Value, props: seq<Value>, children: seq<Value>)
    requires 1 <= n <= |items| && EraseValue(head) == EraseValue(items[0])
    requires props == items[1..n] && EraseValues(children) == EraseValues(items[n..])
    ensures EraseValues([head] + props + children) == EraseValues(items)
  {
    hide EraseValue;
    EraseValuesAppend([head] + props, children);
    EraseValuesAppend([head], props);
    assert items == [items[0]] + items[1..n] + items[n..];
    EraseValuesAppend([items[0]] + items[1..n], items[n..]);
    EraseValuesAppend([items[0]], items[1..n]);
    assert EraseValues([head]) == EraseValues([items[0]]);
  }

  lemma {:induction false} BuiltChildren(v: Value, i: nat)
    requires v.List? && i <= |v.items| && Spellable(v) && BuildChildren(v, i).Ok?
    ensures forall c :: c in BuildChildren(v, i).value ==> Buildable(c)
    ensures EraseValues(ChildForms(BuildChildren(v, i).value)) == EraseValues(v.items[i..])
    decreases v, |v.items| - i + 1
  {
    if i < |v.items| {
      assert v.items[i] in v.items;
      BuildIsFaithful(v.items[i]);
      BuiltChildren(v, i + 1);
      assert v.items[i..] == [v.items[i]] + v.items[i + 1..];
      var c, cs := Build(v.items[i]).value, BuildChildren(v, i + 1).value;
      assert BuildChildren(v, i).value == [c] + cs;
      assert ([c] + cs)[1..] == cs;
    }
  }

  /** Reading only makes well-spelt values. */
  lemma {:induction false} DenotesSpellable(src: string, i: nat, f: Form)
    requires WfForm(f) && i + |Show(f)| <= |src|
    ensures Spellable(Denote(src, i, f))
    decreases f
  {
    if f.Paren? {
      ItemsSpellable(src, i + 1, f.items);
    }
  }

  lemma {:induction false} ItemsSpellable(src: string, i: nat, items: seq<Item>)
    requires WfItems(items) && i + |ShowItems(items)| <= |src|
    ensures forall x :: x in DenoteItems(src, i, items) ==> Spellable(x)
    decreases items
  {
    if items != [] {
      var at := After(i, ShowGap(items[0].gap));
      var next := After(at, Show(items[0].form));
      DenotesSpellable(src, at, items[0].form);
      ItemsSpellable(src, next, items[1..]);
    }
  }

  // ---------------------------------------------------------------- a canonical spelling

  function WritePieces(text: string): seq<Piece> {
    if text == "" then []
    else
      [if text[0] == '"' then Escaped(QuoteEscape) else if text[0] == '\\' then Escaped(BackslashEscape)
       else Raw(text[0])]
      + WritePieces(text[1..])
  }

  /** One way to write a value: a space before every item, escapes only where needed. */
  function Write(v: Value): Form {
    match v
    case Atom(kind, text, _) => if kind == Text then Quoted(WritePieces(text)) else Form.Bare(BareOf(text))
    case List(items, _) => Paren(WriteItems(items), [])
  }

  function WriteItems(vs: seq<Value>): seq<Item> {
    if vs == [] then [] else [Item([Space(' ')], Write(vs[0]))] + WriteItems(vs[1..])
  }

  lemma {:induction false} WrittenPieces(text: string)
    ensures WfPieces(WritePieces(text)) && PieceChars(WritePieces(text)) == text
  {
    if text != "" {
      WrittenPieces(text[1..]);
      assert WritePieces(text)[1..] == WritePieces(text[1..]);
    }
  }

  /** A well-spelt atom other than a string is written as the one bare atom it can be. */
  lemma SpeltAtom(kind: Kind, text: string)
    requires exists a :: WfBare(a) && ShowBare(a) == text && KindOf(a) == kind
    ensures WfBare(BareOf(text)) && ShowBare(BareOf(text)) == text && KindOf(BareOf(text)) == kind
  {
    var a :| WfBare(a) && ShowBare(a) == text && KindOf(a) == kind;
    BareIsUnbroken(a);
    ClassifyExactly(text);
  }

  lemma {:induction false} WrittenWell(v: Value)
    requires Spellable(v)
    ensures WfForm(Write(v))
  {
    match v
    case Atom(kind, text, _) =>
      WrittenPieces(text);
      if kind != Text { SpeltAtom(kind, text); }
    case List(items, _) => WrittenItemsWell(items);
  }

  lemma {:induction false} WrittenItemsWell(vs: seq<Value>)
    requires forall x :: x in vs ==> Spellable(x)
    ensures WfItems(WriteItems(vs))
  {
    if vs != [] {
      WrittenWell(vs[0]);
      WrittenItemsWell(vs[1..]);
      assert WriteItems(vs)[1..] == WriteItems(vs[1..]);
      assert WfGap(WriteItems(vs)[0].gap);
      assert |vs| > 1 ==> WriteItems(vs)[1] == WriteItems(vs[1..])[0];
    }
  }

  lemma {:induction false} WrittenDenotes(src: string, i: nat, v: Value)
    requires Spellable(v) && WfForm(Write(v)) && i + |Show(Write(v))| <= |src|
    ensures EraseValue(Denote(src, i, Write(v))) == EraseValue(v)
    decreases v
  {
    match v
    case Atom(kind, text, _) =>
      WrittenPieces(text);
      if kind != Text { SpeltAtom(kind, text); }
    case List(items, _) => WrittenItemsDenote(src, i + 1, items);
  }

  lemma {:induction false} WrittenItemsDenote(src: string, i: nat, vs: seq<Value>)
    requires forall x :: x in vs ==> Spellable(x)
    requires WfItems(WriteItems(vs)) && i + |ShowItems(WriteItems(vs))| <= |src|
    ensures EraseValues(DenoteItems(src, i, WriteItems(vs))) == EraseValues(vs)
    decreases vs
  {
    if vs != [] {
      var items := WriteItems(vs);
      assert items[1..] == WriteItems(vs[1..]);
      var at := After(i, ShowGap(items[0].gap));
      var next := After(at, Show(items[0].form));
      WrittenDenotes(src, at, vs[0]);
      WrittenItemsDenote(src, next, vs[1..]);
      DenoteCons(src, i, at, next, items);
    }
  }

  // ---------------------------------------------------------------- main results

  /** A tree that can be written down. */
  ghost predicate Printable(t: Tree) {
    Buildable(t) && Spellable(ToForm(t))
  }

  function Print(t: Tree): string {
    Show(Write(ToForm(t)))
  }

  /** However a tree's form is laid out, reading and building it gives the tree back, up to positions. */
  lemma {:induction false} AnyLayoutBuildsTheTree(t: Tree, src: string, d: Doc, v: Value)
    requires Buildable(t) && Spells(src, d, [v]) && EraseValue(v) == EraseValue(ToForm(t))
    ensures ParseAll(src, 0) == Ok([v])
    ensures Build(v).Ok? && EraseTree(Build(v).value) == EraseTree(t)
  {
    ReadsExactlyDocuments(src, [v]);
    BuildUndoesToForm(t);
    BuildErased(ToForm(t));
    BuildErased(v);
  }

  /** Printing a tree, reading the text and building the form gives the tree back, up to positions. */
  lemma {:induction false} PrintReadBuild(t: Tree)
    requires Printable(t)
    ensures var r := ParseAll(Print(t), 0);
            && r.Ok? && |r.value| == 1
            && Build(r.value[0]).Ok? && EraseTree(Build(r.value[0]).value) == EraseTree(t)
  {
    var v := ToForm(t);
    var f, src := Write(v), Print(t);
    WrittenWell(v);
    var items := [Item([], f)];
    var d := Doc(items, [], None);
    assert WfItems(items[1..]);
    assert ShowItems(items[1..]) == "";
    assert ShowItems(items) == src;
    assert DenoteItems(src, 0, items) == [Denote(src, 0, f)];
    WrittenDenotes(src, 0, v);
    assert Spells(src, d, [Denote(src, 0, f)]);
    AnyLayoutBuildsTheTree(t, src, d, Denote(src, 0, f));
  }

  /** Every tree the front end produces has distinct keys at every node, and says all its source form said. */
  lemma {:induction false} BuiltTreesAreBuildable(src: string, vs: seq<Value>, k: nat)
    requires ParseAll(src, 0) == Ok(vs) && k < |vs| && Build(vs[k]).Ok?
    ensures Buildable(Build(vs[k]).value)
    ensures EraseValue(ToForm(Build(vs[k]).value)) == EraseValue(vs[k])
  {
    ReadsExactlyDocuments(src, vs);
    var d :| Spells(src, d, vs);
    ItemsSpellable(src, 0, d.items);
    assert vs[k] in vs;
    BuildIsFaithful(vs[k]);
  }
}
