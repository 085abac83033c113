/** What building a form that is no tree reports: exactly which diagnostic, at which place. */
module Misbuilt {
  import opened Basics
  import opened Sexp
  import opened Ast

  /** The form starts, after its name, with `n` keys, each with a value of its own and none twice. */
  predicate PairsTo(items: seq<Value>, n: nat) {
    && 1 + 2 * n <= |items|
    && (forall k :: 0 <= k < n ==> items[KeyAt(k)].Is(Keyword) && !items[KeyAt(k) + 1].Is(Keyword))
    && forall j, k :: 0 <= j < k < n ==> items[KeyAt(j)].Key() != items[KeyAt(k)].Key()
  }

  /** The item that is the k-th key. */
  function KeyAt(k: nat): nat { 1 + 2 * k }

  /** A key where the properties stop: it has no value, or it was there before. */
  ghost predicate KeyFails(items: seq<Value>, n: nat, e: Error)
    requires KeyAt(n) < |items|
  {
    var i := KeyAt(n);
    if i + 1 == |items| || items[i + 1].Is(Keyword) then e == At(items[i].pos, NoValue)
    else
      && e == At(items[i].pos, DuplicateKey)
      && exists k :: 0 <= k < n && items[KeyAt(k)].Key() == items[i].Key()
  }

  /** What is wrong with an item among the nested forms. */
  ghost predicate ItemFails(w: Value, e: Error)
    decreases w, 2
  {
    if w.Is(Keyword) then e == At(w.pos, LateProperty)
    else if !w.List? then e == At(w.pos, NotNested)
    else Misbuilt(w, e)
  }

  /** The first item from `i` on that is no nested form that builds. */
  ghost predicate FailsFrom(v: Value, i: nat, e: Error)
    requires v.List?
    decreases v, 0
  {
    exists j :: i <= j < |v.items| && ItemFails(v.items[j], e)
      && forall m :: i <= m < j ==> v.items[m].List? && Build(v.items[m]).Ok?
  }

  /** What is wrong first with a form: its shape, its head, one of its properties, or what is nested in it. */
  ghost predicate Misbuilt(v: Value, e: Error)
    decreases v, 1
  {
    if !v.List? then e == At(v.pos, NotAForm)
    else if v.items == [] then e == At(v.pos, EmptyForm)
    else if !v.items[0].Is(Symbol) then e == At(v.items[0].pos, BadHead)
    else
      exists n: nat :: PairsTo(v.items, n) &&
        if KeyAt(n) < |v.items| && v.items[KeyAt(n)].Is(Keyword) then KeyFails(v.items, n, e)
        else FailsFrom(v, KeyAt(n), e)
  }

  // ---------------------------------------------------------------- properties

  /** The first `n` properties. */
  function PropsOf(items: seq<Value>, n: nat): (r: seq<Prop>)
    requires KeyAt(n) <= |items|
    ensures |r| == n && forall k :: 0 <= k < n ==> r[k].key == items[KeyAt(k)].Key()
  {
    if n == 0 then []
    else PropsOf(items, n - 1) + [Prop(items[KeyAt(n - 1)].Key(), items[KeyAt(n - 1) + 1], items[KeyAt(n - 1)].pos)]
  }

  lemma HasBefore(items: seq<Value>, n: nat, key: string)
    requires KeyAt(n) <= |items|
    ensures Has(PropsOf(items, n), key) <==> exists k :: 0 <= k < n && items[KeyAt(k)].Key() == key
  {
  }

  lemma {:induction false} PropsWalk(items: seq<Value>, n: nat)
    requires PairsTo(items, n)
    ensures BuildProps(items, 1, []) == BuildProps(items, KeyAt(n), PropsOf(items, n))
  {
    if n > 0 {
      PropsWalk(items, n - 1);
      HasBefore(items, n - 1, items[KeyAt(n - 1)].Key());
      assert items[KeyAt(n - 1)].Is(Keyword) && !items[KeyAt(n - 1) + 1].Is(Keyword);
    }
  }

  /** Where the properties stop. */
  lemma {:induction false} PropsStop(items: seq<Value>, from: nat) returns (n: nat)
    requires PairsTo(items, from)
    ensures PairsTo(items, n)
    ensures KeyAt(n) < |items| && items[KeyAt(n)].Is(Keyword) ==>
              KeyAt(n) + 1 == |items| || items[KeyAt(n) + 1].Is(Keyword)
              || exists k :: 0 <= k < n && items[KeyAt(k)].Key() == items[KeyAt(n)].Key()
    decreases |items| - from
  {
    var i := KeyAt(from);
    if i + 1 < |items| && items[i].Is(Keyword) && !items[i + 1].Is(Keyword)
       && !(exists k :: 0 <= k < from && items[KeyAt(k)].Key() == items[i].Key())
    {
      assert PairsTo(items, from + 1);
      n := PropsStop(items, from + 1);
    } else {
      n := from;
    }
  }

  /** What the properties come to once `n` of them are read and a key follows, or none does. */
  lemma PropsEnd(items: seq<Value>, n: nat, e: Error)
    requires items != [] && PairsTo(items, n)
    ensures KeyAt(n) < |items| && items[KeyAt(n)].Is(Keyword) && KeyFails(items, n, e) ==>
              BuildProps(items, 1, []) == Err(e)
    ensures !(KeyAt(n) < |items| && items[KeyAt(n)].Is(Keyword)) ==>
              BuildProps(items, 1, []) == Ok((PropsOf(items, n), KeyAt(n)))
  {
    PropsWalk(items, n);
    if KeyAt(n) < |items| { HasBefore(items, n, items[KeyAt(n)].Key()); }
  }

  // ---------------------------------------------------------------- nested forms

  /** A nested form that builds is passed over. */
  lemma PassOver(v: Value, i: nat, e: Error)
    requires v.List? && i < |v.items| && v.items[i].List? && Build(v.items[i]).Ok? && !ItemFails(v.items[i], e)
    ensures FailsFrom(v, i, e) <==> FailsFrom(v, i + 1, e)
  {
    hide Build, ItemFails;
    if FailsFrom(v, i + 1, e) {
      var j :| i + 1 <= j < |v.items| && ItemFails(v.items[j], e)
        && forall m :: i + 1 <= m < j ==> v.items[m].List? && Build(v.items[m]).Ok?;
      assert i <= j;
    }
  }

  /** What does not build fails itself. */
  lemma FailsItself(v: Value, i: nat, e: Error)
    requires v.List? && i < |v.items| && !(v.items[i].List? && Build(v.items[i]).Ok?)
    ensures FailsFrom(v, i, e) <==> ItemFails(v.items[i], e)
  {
    hide Build, ItemFails;
    if FailsFrom(v, i, e) {
      var j :| i <= j < |v.items| && ItemFails(v.items[j], e)
        && forall m :: i <= m < j ==> v.items[m].List? && Build(v.items[m]).Ok?;
      assert j == i;
    }
  }

  lemma {:induction false} ChildrenExactly(v: Value, i: nat, e: Error)
    requires v.List? && i <= |v.items|
    ensures BuildChildren(v, i) == Err(e) <==> FailsFrom(v, i, e)
    decreases v, |v.items| - i, 0
  {
    hide Misbuilt, FailsFrom, Build;
    if i < |v.items| {
      var w := v.items[i];
      if w.List? { MisbuiltExactly(w, e); }
      if w.List? && Build(w).Ok? {
        PassOver(v, i, e);
        ChildrenExactly(v, i + 1, e);
      } else {
        FailsItself(v, i, e);
      }
    } else {
      NothingFails(v, i, e);
    }
  }

  lemma NothingFails(v: Value, i: nat, e: Error)
    requires v.List? && i >= |v.items|
    ensures !FailsFrom(v, i, e)
  {
  }

  /** Building fails with exactly the first thing that is wrong with the form. */
  lemma {:induction false} MisbuiltExactly(v: Value, e: Error)
    ensures Build(v) == Err(e) <==> Misbuilt(v, e)
    decreases v, if v.List? then |v.items| + 1 else 0, 1
  {
    if v.List? && v.items != [] && v.items[0].Is(Symbol) {
      hide BuildProps, BuildChildren, FailsFrom;
      var stop := PropsStop(v.items, 0);
      forall n: nat | PairsTo(v.items, n)
        ensures (if KeyAt(n) < |v.items| && v.items[KeyAt(n)].Is(Keyword) then KeyFails(v.items, n, e)
                 else FailsFrom(v, KeyAt(n), e)) ==> Build(v) == Err(e)
      {
        PropsEnd(v.items, n, e);
        ChildrenExactly(v, KeyAt(n), e);
      }
      if Build(v) == Err(e) { StopFails(v, stop, e); }
    }
  }

  lemma {:induction false} StopFails(v: Value, n: nat, e: Error)
    requires v.List? && v.items != [] && v.items[0].Is(Symbol) && Build(v) == Err(e) && PairsTo(v.items, n)
    requires KeyAt(n) < |v.items| && v.items[KeyAt(n)].Is(Keyword) ==>
              KeyAt(n) + 1 == |v.items| || v.items[KeyAt(n) + 1].Is(Keyword)
              || exists k :: 0 <= k < n && v.items[KeyAt(k)].Key() == v.items[KeyAt(n)].Key()
    ensures if KeyAt(n) < |v.items| && v.items[KeyAt(n)].Is(Keyword) then KeyFails(v.items, n, e)
            else FailsFrom(v, KeyAt(n), e)
    decreases v, |v.items| + 1, 0
  {
    hide BuildProps, BuildChildren, FailsFrom;
    var i := KeyAt(n);
    if i < |v.items| && v.items[i].Is(Keyword) {
      var reason := if i + 1 == |v.items| || v.items[i + 1].Is(Keyword) then NoValue else DuplicateKey;
      PropsEnd(v.items, n, At(v.items[i].pos, reason));
    } else {
      PropsEnd(v.items, n, e);
      ChildrenExactly(v, i, e);
    }
  }
}
