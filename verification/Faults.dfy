/** What a read that fails reports: exactly which diagnostic, at which place, for every source. */
module Faults {
  import opened Basics
  import opened Sexp
  import opened Parser
  import opened Grammar

  /** The rest of the source is a document of its own. */
  ghost predicate RestIsDoc(src: string, i: nat) {
    exists d :: WfDoc(d) && Here(src, i, |src|, ShowDoc(d))
  }

  /** An atom written last, with no layout after it, runs on into whatever is not a delimiter. */
  predicate RunsOn(items: seq<Item>, g: Gap) {
    items != [] && items[|items| - 1].form.Bare? && g == []
  }

  /** Whole forms and layout from `i` on, and then something else at `q`. */
  ghost predicate StopsAt(src: string, i: nat, items: seq<Item>, g: Gap, q: nat) {
    && WfItems(items) && WfGap(g) && Here(src, i, q, ShowItems(items) + ShowGap(g))
    && q < |src| && (RunsOn(items, g) ==> IsDelim(src[q]))
  }

  /** The letters that may follow a backslash. */
  predicate Escapes(c: char) {
    c == 'n' || c == 't' || c == '\\' || c == '"'
  }

  /** After whole pieces of the string opened at `q`, the source ends, or a backslash stands before a wrong letter. */
  ghost predicate BrokenString(src: string, q: nat, e: Error) {
    exists ps, m: nat :: WfPieces(ps) && Here(src, q + 1, m, ShowPieces(ps)) && BreaksAt(src, q, m, e)
  }

  predicate BreaksAt(src: string, q: nat, m: nat, e: Error)
    requires q < m <= |src|
  {
    if m == |src| then e == At(PosAt(src, q), Unterminated)
    else if src[m] != '\\' then false
    else if m + 1 == |src| then e == At(PosAt(src, q), Unterminated)
    else !Escapes(src[m + 1]) && e == At(PosAt(src, m + 1), UnknownEscape)
  }

  /**
   What is wrong first from `i` on: after whole forms there is an opening parenthesis with a whole document
   after it (it is never closed) or with something wrong inside it; or, outside all parentheses, a closing one;
   or a string that breaks off; or a colon that names no key.
   */
  ghost predicate Faulty(src: string, i: nat, inside: bool, e: Error)
    decreases |src| - i, 1
  {
    exists items, g, q: nat :: StopsAt(src, i, items, g, q) && FaultAt(src, q, inside, e)
  }

  ghost predicate FaultAt(src: string, q: nat, inside: bool, e: Error)
    requires q < |src|
    decreases |src| - q, 0
  {
    if src[q] == '(' then
      (RestIsDoc(src, q + 1) && e == At(PosAt(src, q), Unclosed)) || Faulty(src, q + 1, true, e)
    else if src[q] == ')' then !inside && e == At(PosAt(src, q), UnexpectedClose)
    else if src[q] == '"' then BrokenString(src, q, e)
    else src[q] == ':' && Bounded(src, q + 1) && e == At(PosAt(src, q), EmptyKeyword)
  }

  // ---------------------------------------------------------------- what is wrong is reported

  lemma DocParses(src: string, i: nat)
    requires i <= |src|
    ensures RestIsDoc(src, i) <==> ParseAll(src, i).Ok?
  {
    hide ParseAll;
    if ParseAll(src, i).Ok? {
      var d, n := DocOf(src, i);
      Glue(src, i, n, |src|, ShowItems(d.items), ShowGap(d.tail) + ShowLast(d.last));
      assert WfDoc(d) && Here(src, i, |src|, ShowDoc(d));
    }
    if d :| WfDoc(d) && Here(src, i, |src|, ShowDoc(d)) {
      var n := Split(src, i, |src|, ShowItems(d.items), ShowGap(d.tail) + ShowLast(d.last));
      AllHere(src, i, n, d.items, d.tail, d.last);
    }
  }

  /** A form holding a whole document and nothing else is reported itself. */
  lemma {:induction false} DocLeavesOpen(src: string, i: nat, open: nat)
    requires open < i <= |src| && ParseAll(src, i).Ok?
    ensures ParseItems(src, i, open) == Failed(At(PosAt(src, open), Unclosed))
    decreases |src| - i
  {
    var j := SkipBlank(src, i);
    if j < |src| {
      var v := ParseValue(src, j);
      DocLeavesOpen(src, v.next, open);
    }
  }

  /** Whole forms do not change what goes wrong after them. */
  lemma {:induction false} PassItems(src: string, i: nat, n: nat, items: seq<Item>)
    requires WfItems(items) && Here(src, i, n, ShowItems(items))
    requires RunsOn(items, []) ==> Bounded(src, n)
    ensures ParseAll(src, n).Err? ==> ParseAll(src, i) == ParseAll(src, n)
    ensures forall open: nat :: open < i && ParseItems(src, n, open).Failed? ==>
        ParseItems(src, i, open) == ParseItems(src, n, open)
    decreases items
  {
    if items == [] {
      SameOffset(src, i, n);
    } else {
      var at, next := ItemHere(src, i, n, items);
      if items[1..] == [] { SameOffset(src, next, n); }
      if items[1..] != [] && items[0].form.Bare? { ItemsBoundary(src, next, n, items[1..]); }
      ValueHere(src, at, next, items[0].form);
      FirstChar(items[0].form);
      CharAt(src, at, next, Show(items[0].form), 0);
      PassItems(src, next, n, items[1..]);
    }
  }

  /** Whole pieces of a string do not change what goes wrong after them. */
  lemma {:induction false} PassPieces(src: string, i: nat, m: nat, ps: seq<Piece>, open: nat)
    requires open < i && WfPieces(ps) && Here(src, i, m, ShowPieces(ps))
    ensures ParseString(src, m, open).Failed? ==> ParseString(src, i, open) == ParseString(src, m, open)
    decreases ps
  {
    if ps != [] {
      assert WfPiece(ps[0]);
      var n := Split(src, i, m, ShowPiece(ps[0]), ShowPieces(ps[1..]));
      PieceHere(src, i, n, ps[0], open);
      PassPieces(src, n, m, ps[1..], open);
    }
  }

  lemma BrokenIsReported(src: string, q: nat, e: Error)
    requires q < |src| && BrokenString(src, q, e)
    ensures ParseString(src, q + 1, q) == Failed(e)
  {
    var ps, m: nat :| WfPieces(ps) && Here(src, q + 1, m, ShowPieces(ps)) && BreaksAt(src, q, m, e);
    PassPieces(src, q + 1, m, ps, q);
  }

  lemma LoneColon(src: string, q: nat)
    requires q < |src| && src[q] == ':' && Bounded(src, q + 1)
    ensures ParseValue(src, q) == Failed(At(PosAt(src, q), EmptyKeyword))
  {
    hide ParseItems, ParseString, PosAt, Classify;
    assert AtomEnd(src, q) == AtomEnd(src, q + 1) == q + 1;
    assert src[q..q + 1] == ":";
  }

  /** A fault at an offset is what reading a value there reports. */
  lemma {:induction false} FaultIsReported(src: string, q: nat, inside: bool, e: Error)
    requires q < |src| && FaultAt(src, q, inside, e)
    ensures ParseValue(src, q) == Failed(e) && SkipBlank(src, q) == q && (inside ==> src[q] != ')')
    decreases |src| - q, 0
  {
    hide ParseString, ParseItems, ParseAtom, Faulty, RestIsDoc, BrokenString, PosAt, ParseAll;
    if src[q] == '(' {
      if RestIsDoc(src, q + 1) && e == At(PosAt(src, q), Unclosed) {
        DocParses(src, q + 1);
        DocLeavesOpen(src, q + 1, q);
      } else {
        FaultyIsReported(src, q + 1, true, e);
      }
    } else if src[q] == '"' {
      BrokenIsReported(src, q, e);
    } else if src[q] == ':' {
      LoneColon(src, q);
    }
  }

  lemma {:induction false} FaultyIsReported(src: string, i: nat, inside: bool, e: Error)
    requires Faulty(src, i, inside, e)
    ensures i <= |src| && ParseAll(src, i) == Err(e)
    ensures inside ==> forall open: nat :: open < i ==> ParseItems(src, i, open) == Failed(e)
    decreases |src| - i, 1
  {
    var items, g, q: nat :| StopsAt(src, i, items, g, q) && FaultAt(src, q, inside, e);
    var n := Split(src, i, q, ShowItems(items), ShowGap(g));
    FaultIsReported(src, q, inside, e);
    SkipGapHere(src, n, q, g);
    if g != [] { GapBoundary(src, n, q, g); }
    hide ParseValue, FaultAt, Faulty;
    PassItems(src, i, n, items);
  }

  // ---------------------------------------------------------------- nothing else is

  /** A fault after layout is a fault. */
  lemma FaultAfterGap(src: string, i: nat, k: nat, g: Gap, inside: bool, e: Error)
    requires WfGap(g) && Here(src, i, k, ShowGap(g)) && k < |src| && FaultAt(src, k, inside, e)
    ensures Faulty(src, i, inside, e)
  {
    assert ShowItems([]) + ShowGap(g) == ShowGap(g);
    assert StopsAt(src, i, [], g, k);
  }

  lemma StartsBare(src: string, m: nat, n: nat, items: seq<Item>)
    requires WfItems(items) && items != [] && Here(src, m, n, ShowItems(items))
    ensures items[0].form.Bare? && items[0].gap == [] ==> !Bounded(src, m)
  {
    var at, next := ItemHere(src, m, n, items);
    FirstChar(items[0].form);
    CharAt(src, at, next, Show(items[0].form), 0);
  }

  /** One more form in front of those before the fault. */
  lemma {:induction false} FormBefore(src: string, i: nat, k: nat, m: nat, g: Gap, f: Form, inside: bool, e: Error)
    requires WfGap(g) && WfForm(f) && (f.Bare? ==> m <= |src| && Bounded(src, m))
    requires Here(src, i, k, ShowGap(g)) && Here(src, k, m, Show(f)) && Faulty(src, m, inside, e)
    ensures Faulty(src, i, inside, e)
  {
    hide FaultAt;
    var items, g', q: nat :| StopsAt(src, m, items, g', q) && FaultAt(src, q, inside, e);
    var n := Split(src, m, q, ShowItems(items), ShowGap(g'));
    if items != [] { StartsBare(src, m, n, items); }
    var all := ConsItem(src, i, k, m, n, g, f, items);
    Glue(src, i, n, q, ShowItems(all), ShowGap(g'));
    assert RunsOn(all, g') && items == [] ==> q == n == m;
    assert RunsOn(all, g') && items != [] ==> RunsOn(items, g');
    assert StopsAt(src, i, all, g', q);
  }

  lemma {:induction false} StringBreaks(src: string, i: nat, open: nat) returns (ps: seq<Piece>, m: nat)
    requires open < i <= |src| && ParseString(src, i, open).Failed?
    ensures WfPieces(ps) && i <= m && Here(src, i, m, ShowPieces(ps))
        && BreaksAt(src, open, m, ParseString(src, i, open).error)
    decreases |src| - i
  {
    if i == |src| || src[i] == '"' || (src[i] == '\\' && (i + 1 == |src| || !Escapes(src[i + 1]))) {
      ps, m := [], i;
    } else {
      var p, n;
      if src[i] != '\\' { p, n := Raw(src[i]), i + 1; } else { p, n := Escaped(EscapeOf(src[i + 1])), i + 2; }
      assert src[i..n] == ShowPiece(p);
      var more;
      more, m := StringBreaks(src, n, open);
      ps := [p] + more;
      assert ps[1..] == more;
      Glue(src, i, n, m, ShowPiece(p), ShowPieces(more));
    }
  }

  lemma {:induction false} ItemsFault(src: string, i: nat, open: nat, e: Error)
    requires open < i <= |src| && ParseItems(src, i, open) == Failed(e)
    ensures (RestIsDoc(src, i) && e == At(PosAt(src, open), Unclosed)) || Faulty(src, i, true, e)
    decreases |src| - i, 1
  {
    hide Faulty, FaultAt, RestIsDoc;
    var k := SkipBlank(src, i);
    DocParses(src, i);
    if k < |src| {
      var g, last := GapOf(src, i, k);
      assert ShowGap(g) + ShowLast(last) == ShowGap(g);
      var v := ParseValue(src, k);
      if v.Failed? {
        ValueFault(src, k, e);
        FaultAfterGap(src, i, k, g, true, e);
      } else {
        ItemsFault(src, v.next, open, e);
        DocParses(src, v.next);
        if Faulty(src, v.next, true, e) {
          var f := FormOf(src, k, v.next);
          FormBefore(src, i, k, v.next, g, f, true, e);
        }
      }
    }
  }

  lemma {:induction false} ValueFault(src: string, k: nat, e: Error)
    requires k < |src| && !IsSpace(src[k]) && src[k] != ';' && ParseValue(src, k) == Failed(e)
    ensures FaultAt(src, k, false, e) && (src[k] != ')' ==> FaultAt(src, k, true, e))
    decreases |src| - k, 0
  {
    hide Faulty, RestIsDoc, ParseItems, ParseString;
    if src[k] == '(' {
      ItemsFault(src, k + 1, k, e);
    } else if src[k] == '"' {
      var ps, m := StringBreaks(src, k + 1, k);
      assert BrokenString(src, k, e);
    } else if src[k] != ')' {
      var j := AtomEnd(src, k);
      assert src[k..j] == ":" ==> src[k..j][0] == ':' && j == k + 1;
    }
  }

  lemma {:induction false} AllFault(src: string, i: nat, e: Error)
    requires i <= |src| && ParseAll(src, i) == Err(e)
    ensures Faulty(src, i, false, e)
    decreases |src| - i
  {
    hide Faulty, FaultAt;
    var k := SkipBlank(src, i);
    var g, last := GapOf(src, i, k);
    assert ShowGap(g) + ShowLast(last) == ShowGap(g);
    var v := ParseValue(src, k);
    if v.Failed? {
      ValueFault(src, k, e);
      FaultAfterGap(src, i, k, g, false, e);
    } else {
      AllFault(src, v.next, e);
      var f := FormOf(src, k, v.next);
      FormBefore(src, i, k, v.next, g, f, false, e);
    }
  }

  /** Reading fails with exactly the first thing that is wrong with the source. */
  lemma {:induction false} FaultsExactly(src: string, e: Error)
    ensures ParseAll(src, 0) == Err(e) <==> Faulty(src, 0, false, e)
  {
    hide ParseAll, Faulty;
    if ParseAll(src, 0) == Err(e) { AllFault(src, 0, e); }
    if Faulty(src, 0, false, e) { FaultyIsReported(src, 0, false, e); }
  }

  /** A parenthesis inside a comment opens nothing, so the one before the comment is reported. */
  lemma {:induction false} CommentOpensNothing(e: Error)
    ensures Faulty("(;(", 0, false, e) <==> e == At(Pos(1, 1), Unclosed)
  {
    var src := "(;(";
    assert ToNewline(src, 1) == ToNewline(src, 2) == ToNewline(src, 3) == 3;
    assert SkipBlank(src, 0) == 0 && SkipBlank(src, 1) == SkipBlank(src, 3) == 3;
    assert ParseItems(src, 1, 0) == Failed(At(PosAt(src, 0), Unclosed));
    assert ParseAll(src, 0) == Err(At(PosAt(src, 0), Unclosed));
    FaultsExactly(src, e);
  }
}
