/** The parser against the concrete syntax: it accepts exactly the renderings of documents. */
module Grammar {
  import opened Basics
  import opened Sexp
  import opened Parser

  /** `s` is what `src` holds from offset `i` to offset `j`. */
  ghost predicate Here(src: string, i: nat, j: nat, s: string) {
    i <= j <= |src| && src[i..j] == s
  }

  /** An atom may end at `j`. */
  predicate Bounded(src: string, j: nat)
    requires j <= |src|
  {
    j == |src| || IsDelim(src[j])
  }

  lemma Split(src: string, i: nat, j: nat, a: string, b: string) returns (m: nat)
    requires Here(src, i, j, a + b)
    ensures m == i + |a| && Here(src, i, m, a) && Here(src, m, j, b)
  {
    m := i + |a|;
    assert src[i..m] == src[i..j][..|a|] == a;
    assert src[m..j] == src[i..j][|a|..] == b;
  }

  lemma Glue(src: string, i: nat, m: nat, j: nat, a: string, b: string)
    requires Here(src, i, m, a) && Here(src, m, j, b)
    ensures Here(src, i, j, a + b)
  {
    assert src[i..j] == src[i..m] + src[m..j];
  }

  lemma CharAt(src: string, i: nat, j: nat, s: string, k: nat)
    requires Here(src, i, j, s) && k < |s|
    ensures i + k < |src| && src[i + k] == s[k]
  {
    assert src[i..j][k] == src[i + k];
  }

  // ---------------------------------------------------------------- completeness

  lemma {:induction false} ToNewlineHere(src: string, i: nat, j: nat, body: string)
    requires Here(src, i, j, body) && WfComment(body)
    requires j == |src| || src[j] == '\n'
    ensures ToNewline(src, i) == j
  {
    forall k | i <= k < j ensures src[k] != '\n' {
      assert src[i..j][k - i] == src[k];
    }
  }

  lemma {:induction false} SkipBlankHere(src: string, i: nat, j: nat, b: Blank)
    requires WfBlank(b) && Here(src, i, j, ShowBlank(b))
    ensures SkipBlank(src, i) == SkipBlank(src, j)
  {
    CharAt(src, i, j, ShowBlank(b), 0);
    if b.Comment? {
      var m := Split(src, i, j, ";" + b.body, "\n");
      CharAt(src, m, j, "\n", 0);
      ToNewlineHere(src, i, m, ";" + b.body);
    }
  }

  lemma {:induction false} SkipGapHere(src: string, i: nat, j: nat, g: Gap)
    requires WfGap(g) && Here(src, i, j, ShowGap(g))
    ensures SkipBlank(src, i) == SkipBlank(src, j)
    decreases g
  {
    if g != [] {
      assert WfBlank(g[0]);
      var m := Split(src, i, j, ShowBlank(g[0]), ShowGap(g[1..]));
      SkipBlankHere(src, i, m, g[0]);
      SkipGapHere(src, m, j, g[1..]);
    }
  }

  lemma {:induction false} SkipLastHere(src: string, i: nat, last: Option<string>)
    requires last.Some? ==> WfComment(last.value)
    requires Here(src, i, |src|, ShowLast(last))
    ensures SkipBlank(src, i) == |src|
  {
    if last.Some? {
      CharAt(src, i, |src|, ShowLast(last), 0);
      ToNewlineHere(src, i, |src|, ";" + last.value);
    }
  }

  /** A value never starts with what the layout skipper or the form reader would take. */
  lemma FirstChar(f: Form)
    requires WfForm(f)
    ensures |Show(f)| > 0
    ensures f.Bare? ==> !IsDelim(Show(f)[0])
    ensures f.Quoted? ==> Show(f)[0] == '"'
    ensures f.Paren? ==> Show(f)[0] == '('
  {
    if f.Bare? { BareIsUnbroken(f.atom); }
  }

  /** A nonempty layout, or a form other than an atom, ends the atom before it. */
  lemma {:induction false} ItemsBoundary(src: string, i: nat, j: nat, items: seq<Item>)
    requires WfItems(items) && Here(src, i, j, ShowItems(items))
    requires items != [] && (items[0].form.Bare? ==> items[0].gap != [])
    ensures i < |src| && IsDelim(src[i])
  {
    var m := Split(src, i, j, ShowGap(items[0].gap), Show(items[0].form) + ShowItems(items[1..]));
    if items[0].gap == [] {
      FirstChar(items[0].form);
      CharAt(src, m, j, Show(items[0].form) + ShowItems(items[1..]), 0);
    } else {
      GapBoundary(src, i, m, items[0].gap);
    }
  }

  lemma {:induction false} GapBoundary(src: string, i: nat, j: nat, g: Gap)
    requires WfGap(g) && g != [] && Here(src, i, j, ShowGap(g))
    ensures i < |src| && IsDelim(src[i])
  {
    assert WfBlank(g[0]);
    CharAt(src, i, j, ShowGap(g), 0);
  }

  lemma {:induction false} AtomHere(src: string, i: nat, j: nat, a: Bare)
    requires WfBare(a) && Here(src, i, j, ShowBare(a)) && Bounded(src, j)
    ensures i < |src|
    ensures ParseValue(src, i) == Got(Atom(KindOf(a), ShowBare(a), PosAt(src, i)), j)
  {
    var text := ShowBare(a);
    BareIsUnbroken(a);
    ClassifyExactly(text);
    hide WfBare, ShowBare, Classify, BareOf;
    CharAt(src, i, j, text, 0);
    forall k | i <= k < j ensures !IsDelim(src[k]) {
      assert src[i..j][k - i] == src[k];
    }
    assert AtomEnd(src, i) == j;
  }

  /** One piece of a string is read as the character it stands for. */
  lemma PieceHere(src: string, i: nat, m: nat, p: Piece, open: nat)
    requires open < i && WfPiece(p) && Here(src, i, m, ShowPiece(p))
    ensures ParseString(src, i, open) == Cons(PieceChar(p), ParseString(src, m, open))
  {
    CharAt(src, i, m, ShowPiece(p), 0);
    if p.Escaped? { CharAt(src, i, m, ShowPiece(p), 1); }
  }

  lemma {:induction false} StringHere(src: string, i: nat, j: nat, ps: seq<Piece>, open: nat)
    requires open < i && WfPieces(ps) && Here(src, i, j, ShowPieces(ps) + "\"")
    ensures ParseString(src, i, open) == Got(PieceChars(ps), j)
    decreases ps
  {
    if ps == [] {
      CharAt(src, i, j, ShowPieces(ps) + "\"", 0);
    } else {
      hide ParseString, ShowPiece, PieceChar, Here;
      assert WfPiece(ps[0]);
      var rest := ShowPieces(ps[1..]) + "\"";
      assert ShowPieces(ps) + "\"" == ShowPiece(ps[0]) + rest;
      var m := Split(src, i, j, ShowPiece(ps[0]), rest);
      PieceHere(src, i, m, ps[0], open);
      StringHere(src, m, j, ps[1..], open);
    }
  }

  lemma {:induction false} ValueHere(src: string, i: nat, j: nat, f: Form)
    requires WfForm(f) && Here(src, i, j, Show(f))
    requires f.Bare? ==> Bounded(src, j)
    ensures i < |src|
    ensures ParseValue(src, i) == Got(Denote(src, i, f), j)
    decreases f, 1
  {
    FirstChar(f);
    CharAt(src, i, j, Show(f), 0);
    match f
    case Bare(atom) => AtomHere(src, i, j, atom);
    case Quoted(pieces) =>
      hide ParseString, ParseItems, AtomEnd, Here;
      QuotedHere(src, i, j, pieces);
    case Paren(items, close) =>
      hide ParseString, ParseItems, AtomEnd, Here;
      ParenSplits(src, i, j, items, close);
      ItemsHere(src, i + 1, After(i + 1, ShowItems(items)), j, items, close, i);
  }

  lemma {:induction false} QuotedHere(src: string, i: nat, j: nat, ps: seq<Piece>)
    requires WfPieces(ps) && Here(src, i, j, Show(Quoted(ps)))
    ensures ParseString(src, i + 1, i) == Got(PieceChars(ps), j)
  {
    assert Show(Quoted(ps)) == "\"" + (ShowPieces(ps) + "\"");
    var m := Split(src, i, j, "\"", ShowPieces(ps) + "\"");
    StringHere(src, m, j, ps, i);
  }

  lemma ParenSplits(src: string, i: nat, j: nat, items: seq<Item>, close: Gap)
    requires Here(src, i, j, Show(Paren(items, close)))
    ensures Here(src, i + 1, After(i + 1, ShowItems(items)), ShowItems(items))
    ensures Here(src, After(i + 1, ShowItems(items)), j, ShowGap(close) + ")")
  {
    hide Here, ShowItems, ShowGap;
    assert Show(Paren(items, close)) == "(" + (ShowItems(items) + (ShowGap(close) + ")"));
    var m := Split(src, i, j, "(", ShowItems(items) + (ShowGap(close) + ")"));
    var n := Split(src, m, j, ShowItems(items), ShowGap(close) + ")");
  }

  lemma {:induction false} ItemsHere(src: string, i: nat, n: nat, j: nat, items: seq<Item>, close: Gap, open: nat)
    requires open < i && WfItems(items) && WfGap(close)
    requires Here(src, i, n, ShowItems(items)) && Here(src, n, j, ShowGap(close) + ")")
    ensures ParseItems(src, i, open) == Got(DenoteItems(src, i, items), j)
    decreases items, 0
  {
    hide ParseValue, Here, ShowGap;
    if items == [] {
      SameOffset(src, i, n);
      var m := CloseHere(src, n, j, close);
    } else {
      var at, next := ItemHere(src, i, n, items);
      FirstChar(items[0].form);
      CharAt(src, at, next, Show(items[0].form), 0);
      CloseBoundary(src, n, j, close);
      if items[1..] == [] { SameOffset(src, next, n); }
      if items[1..] != [] && items[0].form.Bare? { ItemsBoundary(src, next, n, items[1..]); }
      ValueHere(src, at, next, items[0].form);
      ItemsHere(src, next, n, j, items[1..], close, open);
      DenoteCons(src, i, at, next, items);
    }
  }

  lemma SameOffset(src: string, i: nat, n: nat)
    requires Here(src, i, n, ShowItems([]))
    ensures i == n
  {
  }

  lemma CloseHere(src: string, n: nat, j: nat, close: Gap) returns (m: nat)
    requires WfGap(close) && Here(src, n, j, ShowGap(close) + ")")
    ensures n <= m < |src| && SkipBlank(src, n) == m && src[m] == ')' && j == m + 1
  {
    m := Split(src, n, j, ShowGap(close), ")");
    CharAt(src, m, j, ")", 0);
    SkipGapHere(src, n, m, close);
  }

  lemma {:induction false} CloseBoundary(src: string, i: nat, j: nat, close: Gap)
    requires WfGap(close) && Here(src, i, j, ShowGap(close) + ")")
    ensures Bounded(src, i)
  {
    var m := Split(src, i, j, ShowGap(close), ")");
    CharAt(src, m, j, ")", 0);
    if close != [] { GapBoundary(src, i, m, close); }
  }

  /** Where the first of some items starts and ends, once the layout before it is skipped. */
  lemma {:induction false} ItemHere(src: string, i: nat, n: nat, items: seq<Item>) returns (at: nat, next: nat)
    requires WfItems(items) && items != [] && Here(src, i, n, ShowItems(items))
    ensures at == After(i, ShowGap(items[0].gap)) == SkipBlank(src, i) < |src|
    ensures Here(src, at, next, Show(items[0].form)) && next == After(at, Show(items[0].form))
    ensures Here(src, next, n, ShowItems(items[1..]))
  {
    at := Split(src, i, n, ShowGap(items[0].gap), Show(items[0].form) + ShowItems(items[1..]));
    next := Split(src, at, n, Show(items[0].form), ShowItems(items[1..]));
    SkipGapHere(src, i, at, items[0].gap);
    FirstChar(items[0].form);
    CharAt(src, at, next, Show(items[0].form), 0);
  }

  lemma {:induction false} AllHere(src: string, i: nat, n: nat, items: seq<Item>, tail: Gap, last: Option<string>)
    requires WfItems(items) && Here(src, i, n, ShowItems(items))
    requires WfGap(tail) && (last.Some? ==> WfComment(last.value))
    requires Here(src, n, |src|, ShowGap(tail) + ShowLast(last))
    ensures ParseAll(src, i) == Ok(DenoteItems(src, i, items))
    decreases items
  {
    if items == [] {
      var m := Split(src, n, |src|, ShowGap(tail), ShowLast(last));
      SkipGapHere(src, n, m, tail);
      SkipLastHere(src, m, last);
      assert i == n;
    } else {
      hide ParseValue, Here, Bounded;
      var at, next := ItemHere(src, i, n, items);
      TailBoundary(src, n, tail, last);
      if items[1..] != [] && items[0].form.Bare? { ItemsBoundary(src, next, n, items[1..]); }
      ValueHere(src, at, next, items[0].form);
      AllHere(src, next, n, items[1..], tail, last);
      DenoteCons(src, i, at, next, items);
    }
  }

  lemma {:induction false} DenoteCons(src: string, i: nat, at: nat, next: nat, items: seq<Item>)
    requires WfItems(items) && items != [] && i + |ShowItems(items)| <= |src|
    requires at == After(i, ShowGap(items[0].gap)) && next == After(at, Show(items[0].form))
    ensures next + |ShowItems(items[1..])| <= |src|
    ensures DenoteItems(src, i, items) == [Denote(src, at, items[0].form)] + DenoteItems(src, next, items[1..])
  {
  }

  lemma {:induction false} TailBoundary(src: string, i: nat, tail: Gap, last: Option<string>)
    requires WfGap(tail) && Here(src, i, |src|, ShowGap(tail) + ShowLast(last))
    ensures Bounded(src, i)
  {
    var m := Split(src, i, |src|, ShowGap(tail), ShowLast(last));
    if tail != [] {
      GapBoundary(src, i, m, tail);
    } else if last.Some? {
      CharAt(src, m, |src|, ShowLast(last), 0);
    }
  }

  // ---------------------------------------------------------------- soundness

  /** The layout between an offset and the next value. */
  lemma {:induction false} GapOf(src: string, i: nat, j: nat) returns (g: Gap, last: Option<string>)
    requires i <= |src| && j == SkipBlank(src, i)
    ensures WfGap(g) && (last.Some? ==> WfComment(last.value))
    ensures Here(src, i, j, ShowGap(g) + ShowLast(last))
    ensures j < |src| ==> last.None?
    decreases |src| - i
  {
    hide Here, ShowGap;
    NothingHere(src, i);
    NoGap();
    if i == |src| || !(IsSpace(src[i]) || src[i] == ';') {
      g, last := [], None;
    } else if src[i] == ';' && ToNewline(src, i) == |src| {
      var body := LastComment(src, i);
      g, last := [], Some(body);
    } else {
      var b, k := OneBlank(src, i);
      var more;
      more, last := GapOf(src, k, j);
      g := [b] + more;
      ConsGap(src, i, k, j, b, more, ShowLast(last));
    }
  }

  lemma NoGap()
    ensures forall rest: string :: ShowGap([]) + rest == rest
  {
  }

  /** A space, or a comment with the newline that ends it. */
  lemma OneBlank(src: string, i: nat) returns (b: Blank, k: nat)
    requires i < |src| && (IsSpace(src[i]) || (src[i] == ';' && ToNewline(src, i) < |src|))
    ensures i < k <= |src| && WfBlank(b) && Here(src, i, k, ShowBlank(b)) && SkipBlank(src, i) == SkipBlank(src, k)
  {
    if IsSpace(src[i]) {
      b, k := Space(src[i]), i + 1;
    } else {
      var n := ToNewline(src, i);
      assert n > i;
      var body := src[i + 1..n];
      b, k := Comment(body), n + 1;
      assert src[i..k] == ";" + body + "\n";
      assert SkipBlank(src, i) == SkipBlank(src, n) == SkipBlank(src, k);
    }
  }

  /** A comment that runs to the end of the source. */
  lemma LastComment(src: string, i: nat) returns (body: string)
    requires i < |src| && src[i] == ';' && ToNewline(src, i) == |src|
    ensures WfComment(body) && Here(src, i, |src|, ShowLast(Some(body))) && SkipBlank(src, i) == |src|
  {
    body := src[i + 1..];
    assert src[i..|src|] == ";" + body;
  }

  lemma {:induction false} ConsGap(src: string, i: nat, k: nat, j: nat, b: Blank, more: Gap, rest: string)
    requires Here(src, i, k, ShowBlank(b)) && Here(src, k, j, ShowGap(more) + rest)
    requires WfBlank(b) && WfGap(more)
    ensures WfGap([b] + more)
    ensures Here(src, i, j, ShowGap([b] + more) + rest)
  {
    var g := [b] + more;
    assert g[1..] == more;
    Glue(src, i, k, j, ShowBlank(b), ShowGap(more) + rest);
    assert ShowGap(g) + rest == ShowBlank(b) + (ShowGap(more) + rest);
  }

  /** The escape a letter writes. */
  function EscapeOf(letter: char): Escape {
    if letter == 'n' then NewlineEscape else if letter == 't' then TabEscape
    else if letter == '\\' then BackslashEscape else QuoteEscape
  }

  lemma {:induction false} PiecesOf(src: string, i: nat, j: nat, open: nat) returns (ps: seq<Piece>)
    requires open < i <= |src| && ParseString(src, i, open).Got? && j == ParseString(src, i, open).next
    ensures WfPieces(ps)
    ensures Here(src, i, j, ShowPieces(ps) + "\"")
    ensures ParseString(src, i, open) == Got(PieceChars(ps), j)
    decreases |src| - i
  {
    if src[i] == '"' {
      ps := [];
      assert src[i..j] == "\"";
    } else {
      var p, n;
      if src[i] != '\\' {
        p, n := Raw(src[i]), i + 1;
      } else {
        p, n := Escaped(EscapeOf(src[i + 1])), i + 2;
      }
      assert src[i..n] == ShowPiece(p);
      var more := PiecesOf(src, n, j, open);
      ps := [p] + more;
      assert ps[1..] == more;
      assert ShowPieces(ps) + "\"" == ShowPiece(p) + (ShowPieces(more) + "\"");
      Glue(src, i, n, j, ShowPiece(p), ShowPieces(more) + "\"");
    }
  }

  lemma {:induction false} FormOf(src: string, i: nat, j: nat) returns (f: Form)
    requires i < |src| && ParseValue(src, i).Got? && j == ParseValue(src, i).next
    ensures WfForm(f) && Here(src, i, j, Show(f))
    ensures ParseValue(src, i) == Got(Denote(src, i, f), j)
    ensures f.Bare? ==> Bounded(src, j) && !IsDelim(src[i])
    decreases |src| - i, 0
  {
    hide ParseString, ParseItems, AtomEnd, Here;
    if src[i] == '(' {
      var items, close, n := ItemsOf(src, i + 1, j, i);
      f := Paren(items, close);
      ParenGlue(src, i, n, j, items, close);
    } else if src[i] == '"' {
      var ps := PiecesOf(src, i + 1, j, i);
      f := Quoted(ps);
      QuoteGlue(src, i, j, ps);
    } else {
      f := AtomOf(src, i, j);
    }
  }

  lemma {:induction false} AtomOf(src: string, i: nat, j: nat) returns (f: Form)
    requires i < |src| && src[i] != '(' && src[i] != '"' && ParseValue(src, i).Got? && j == ParseValue(src, i).next
    ensures f.Bare? && WfForm(f) && Here(src, i, j, Show(f)) && Bounded(src, j) && !IsDelim(src[i])
    ensures ParseValue(src, i) == Got(Denote(src, i, f), j)
  {
    var text := src[i..j];
    ClassifyExactly(text);
    f := Form.Bare(BareOf(text));
  }

  lemma ParenGlue(src: string, i: nat, n: nat, j: nat, items: seq<Item>, close: Gap)
    requires i < |src| && src[i] == '(' && Here(src, i + 1, n, ShowItems(items))
        && Here(src, n, j, ShowGap(close) + ")")
    ensures Here(src, i, j, Show(Paren(items, close)))
  {
    Glue(src, i + 1, n, j, ShowItems(items), ShowGap(close) + ")");
    assert src[i..i + 1] == "(";
    Glue(src, i, i + 1, j, "(", ShowItems(items) + (ShowGap(close) + ")"));
  }

  lemma QuoteGlue(src: string, i: nat, j: nat, ps: seq<Piece>)
    requires i < |src| && src[i] == '"' && Here(src, i + 1, j, ShowPieces(ps) + "\"")
    ensures Here(src, i, j, Show(Quoted(ps)))
  {
    assert src[i..i + 1] == "\"";
    Glue(src, i, i + 1, j, "\"", ShowPieces(ps) + "\"");
    assert Show(Quoted(ps)) == "\"" + (ShowPieces(ps) + "\"");
  }

  lemma {:induction false} ItemsOf(src: string, i: nat, j: nat, open: nat)
    returns (items: seq<Item>, close: Gap, n: nat)
    requires open < i <= |src| && ParseItems(src, i, open).Got? && j == ParseItems(src, i, open).next
    ensures WfItems(items) && WfGap(close)
    ensures Here(src, i, n, ShowItems(items)) && Here(src, n, j, ShowGap(close) + ")")
    ensures ParseItems(src, i, open) == Got(DenoteItems(src, i, items), j)
    ensures items != [] && items[0].form.Bare? && items[0].gap == [] ==> !Bounded(src, i)
    decreases |src| - i, 1
  {
    hide ParseValue, Here;
    var k := SkipBlank(src, i);
    var g, last := GapOf(src, i, k);
    assert ShowGap(g) + ShowLast(last) == ShowGap(g);
    if src[k] == ')' {
      items, close, n := [], g, i;
      NothingHere(src, i);
      CharHere(src, k);
      Glue(src, i, k, j, ShowGap(g), ")");
    } else {
      var m := ParseValue(src, k).next;
      var f := FormOf(src, k, m);
      var more;
      more, close, n := ItemsOf(src, m, j, open);
      items := ConsItem(src, i, k, m, n, g, f, more);
    }
  }

  lemma NothingHere(src: string, i: nat)
    requires i <= |src|
    ensures Here(src, i, i, "")
  {
  }

  lemma CharHere(src: string, i: nat)
    requires i < |src|
    ensures Here(src, i, i + 1, [src[i]])
  {
  }

  /** One more item in front keeps everything a run of items promises. */
  lemma {:induction false} ConsItem(src: string, i: nat, k: nat, m: nat, n: nat, g: Gap, f: Form, more: seq<Item>)
    returns (items: seq<Item>)
    requires WfGap(g) && WfForm(f) && WfItems(more)
    requires Here(src, i, k, ShowGap(g)) && Here(src, k, m, Show(f)) && Here(src, m, n, ShowItems(more))
    requires f.Bare? ==> Bounded(src, m)
    requires more != [] && more[0].form.Bare? && more[0].gap == [] ==> !Bounded(src, m)
    ensures items == [Item(g, f)] + more && WfItems(items)
    ensures Here(src, i, n, ShowItems(items))
    ensures DenoteItems(src, i, items) == [Denote(src, k, f)] + DenoteItems(src, m, more)
    ensures f.Bare? && g == [] ==> !Bounded(src, i)
  {
    items := [Item(g, f)] + more;
    assert items[1..] == more;
    Glue(src, k, m, n, Show(f), ShowItems(more));
    Glue(src, i, k, n, ShowGap(g), Show(f) + ShowItems(more));
    DenoteCons(src, i, k, m, items);
    if f.Bare? && g == [] {
      FirstChar(f);
      CharAt(src, k, m, Show(f), 0);
    }
  }

  lemma {:induction false} DocOf(src: string, i: nat) returns (d: Doc, n: nat)
    requires i <= |src| && ParseAll(src, i).Ok?
    ensures WfDoc(d)
    ensures Here(src, i, n, ShowItems(d.items)) && Here(src, n, |src|, ShowGap(d.tail) + ShowLast(d.last))
    ensures ParseAll(src, i) == Ok(DenoteItems(src, i, d.items))
    ensures d.items != [] && d.items[0].form.Bare? && d.items[0].gap == [] ==> !Bounded(src, i)
    decreases |src| - i
  {
    var k := SkipBlank(src, i);
    var g, last := GapOf(src, i, k);
    if k == |src| {
      d, n := Doc([], g, last), i;
    } else {
      assert ShowGap(g) + ShowLast(last) == ShowGap(g);
      hide ParseValue, Here;
      var m := ParseValue(src, k).next;
      var f := FormOf(src, k, m);
      var more;
      more, n := DocOf(src, m);
      var items := ConsItem(src, i, k, m, n, g, f, more.items);
      d := Doc(items, more.tail, more.last);
    }
  }

  // ---------------------------------------------------------------- main results

  /** `src` spells the document `d`, whose values are `vs`, each at the position of its first byte. */
  ghost predicate Spells(src: string, d: Doc, vs: seq<Value>) {
    WfDoc(d) && ShowDoc(d) == src && DenoteItems(src, 0, d.items) == vs
  }

  /** Reading succeeds on exactly the renderings of documents, and returns what they denote. */
  lemma {:induction false} ReadsExactlyDocuments(src: string, vs: seq<Value>)
    ensures ParseAll(src, 0) == Ok(vs) <==> exists d :: Spells(src, d, vs)
  {
    assert src[0..|src|] == src;
    if ParseAll(src, 0) == Ok(vs) {
      var d, n := DocOf(src, 0);
      Glue(src, 0, n, |src|, ShowItems(d.items), ShowGap(d.tail) + ShowLast(d.last));
      assert Spells(src, d, vs);
    }
    if d :| Spells(src, d, vs) {
      var n := Split(src, 0, |src|, ShowItems(d.items), ShowGap(d.tail) + ShowLast(d.last));
      AllHere(src, 0, n, d.items, d.tail, d.last);
    }
  }

  /** The diagnostic for a missing value cannot be reached: a reader is only called on a value's first byte. */
  lemma {:induction false} ValueIsThere(src: string, i: nat)
    requires i < |src| && !IsSpace(src[i]) && src[i] != ';'
    ensures ParseValue(src, i).Failed? ==> ParseValue(src, i).error.reason != ExpectedValue
    decreases |src| - i, 0
  {
    if src[i] == '(' {
      ItemsAreThere(src, i + 1, i);
    } else if src[i] == '"' {
      StringFailure(src, i + 1, i);
    } else if src[i] != ')' {
      assert AtomEnd(src, i) > i;
    }
  }

  lemma {:induction false} StringFailure(src: string, i: nat, open: nat)
    requires open < i <= |src|
    ensures ParseString(src, i, open).Failed?
        ==> ParseString(src, i, open).error.reason in {Unterminated, UnknownEscape}
    decreases |src| - i
  {
    if i < |src| && src[i] != '"' {
      if src[i] != '\\' { StringFailure(src, i + 1, open); }
      else if i + 1 < |src| && Unescape(src[i + 1]).Some? { StringFailure(src, i + 2, open); }
    }
  }

  lemma {:induction false} ItemsAreThere(src: string, i: nat, open: nat)
    requires open < i <= |src|
    ensures ParseItems(src, i, open).Failed? ==> ParseItems(src, i, open).error.reason != ExpectedValue
    decreases |src| - i, 1
  {
    var j := SkipBlank(src, i);
    if j < |src| && src[j] != ')' {
      ValueIsThere(src, j);
      var v := ParseValue(src, j);
      if v.Got? { ItemsAreThere(src, v.next, open); }
    }
  }

  lemma {:induction false} ExpectedValueUnreachable(src: string, i: nat)
    requires i <= |src|
    ensures ParseAll(src, i).Err? ==> ParseAll(src, i).error.reason != ExpectedValue
    decreases |src| - i
  {
    var j := SkipBlank(src, i);
    if j < |src| {
      ValueIsThere(src, j);
      var v := ParseValue(src, j);
      if v.Got? { ExpectedValueUnreachable(src, v.next); }
    }
  }
}
