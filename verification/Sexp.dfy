/** S-expression values, and the concrete syntax that spells them. */
module Sexp {
  import opened Basics
  import opened Decimal

  datatype Kind = Symbol | Keyword | Text | Number | Star

  /** One node of the generic tree: a form, or an atom with its text. */
  datatype Value =
    | List(items: seq<Value>, pos: Pos)
    | Atom(kind: Kind, text: string, pos: Pos)
  {
    predicate Is(k: Kind) {
      Atom? && kind == k
    }

    /** The text field, which a form leaves empty. */
    function Spelling(): string {
      if Atom? then text else ""
    }

    /** The text without one leading colon. */
    function Key(): string {
      var t := Spelling();
      if ":" <= t then t[1..] else t
    }
  }

  // ---------------------------------------------------------------- characters

  predicate IsSpace(c: char) {
    c == ' ' || c == '\t' || c == '\r' || c == '\n'
  }

  predicate IsDelim(c: char) {
    c == '(' || c == ')' || c == '"' || c == ';' || IsSpace(c)
  }

  /** The character an escape letter stands for. */
  function Unescape(c: char): Option<char> {
    match c
    case 'n' => Some('\n')
    case 't' => Some('\t')
    case '\\' => Some('\\')
    case '"' => Some('"')
    case _ => None
  }

  // ---------------------------------------------------------------- classifying atoms

  function Classify(text: string): Kind {
    if text == "*" then Star
    else if ":" <= text then Keyword
    else if LooksNumeric(text) then Number
    else Symbol
  }

  predicate HexPrefixed(text: string) {
    "0x" <= text || "0X" <= text
  }

  /** A decimal or 0x-prefixed integer, with an optional minus sign. */
  predicate LooksNumeric(text: string) {
    var t := if "-" <= text then text[1..] else text;
    if HexPrefixed(t) then IsNumeral(t[2..], 16) else IsNumeral(t, 10)
  }

  // ---------------------------------------------------------------- positions

  function NewlinesBefore(src: string, i: nat): nat
    requires i <= |src|
  {
    if i == 0 then 0 else NewlinesBefore(src, i - 1) + if src[i - 1] == '\n' then 1 else 0
  }

  function LineStart(src: string, i: nat): (k: nat)
    requires i <= |src|
    ensures k <= i
    ensures k > 0 ==> src[k - 1] == '\n'
    ensures forall j :: k <= j < i ==> src[j] != '\n'
  {
    if i == 0 || src[i - 1] == '\n' then i else LineStart(src, i - 1)
  }

  /** The position of offset `i`: lines and columns count from one. */
  function PosAt(src: string, i: nat): Pos
    requires i <= |src|
  {
    Pos(1 + NewlinesBefore(src, i), 1 + i - LineStart(src, i))
  }

  /** The line is one more than the newlines before the offset, and the column one more than what follows the last. */
  lemma {:induction false} PosCounts(src: string, i: nat) returns (start: nat)
    requires i <= |src|
    ensures PosAt(src, i).line == 1 + multiset(src[..i])['\n']
    ensures start <= i && PosAt(src, i).col == 1 + (i - start)
    ensures '\n' !in src[start..i] && (start == 0 || src[start - 1] == '\n')
    decreases i
  {
    start := LineStart(src, i);
    if i > 0 {
      var before := PosCounts(src, i - 1);
      assert src[..i] == src[..i - 1] + [src[i - 1]];
    }
  }

  /** Positions identify offsets, so a diagnostic names one byte. */
  lemma {:induction false} PosAtInjective(src: string, i: nat, j: nat)
    requires i < j <= |src|
    ensures PosAt(src, i) != PosAt(src, j)
    ensures NewlinesBefore(src, i) <= NewlinesBefore(src, j)
    ensures NewlinesBefore(src, i) == NewlinesBefore(src, j) ==> LineStart(src, i) == LineStart(src, j)
    decreases j
  {
    if i < j - 1 {
      PosAtInjective(src, i, j - 1);
    }
  }

  // ---------------------------------------------------------------- concrete syntax

  // Nothing here uses what the reader computes: the characters and what they stand for are spelt out again.

  /** What may stand between values: white space, and comments running to the end of a line. */
  datatype Blank = Space(c: char) | Comment(body: string)

  type Gap = seq<Blank>

  /** The characters that can be written with a backslash. */
  datatype Escape = NewlineEscape | TabEscape | BackslashEscape | QuoteEscape

  /** One character of a quoted string, written raw or as an escape. */
  datatype Piece = Raw(c: char) | Escaped(escape: Escape)

  /** A bare atom: a star, a keyword, a number in either base (with the x or X of its prefix), or any other word. */
  datatype Bare =
    | Wild
    | KeyName(name: string)
    | Numeral(minus: bool, hex: Option<char>, digits: string)
    | Word(text: string)

  /** A value as written down. */
  datatype Form =
    | Bare(atom: Bare)
    | Quoted(pieces: seq<Piece>)
    | Paren(items: seq<Item>, close: Gap)

  /** A value with the layout before it. */
  datatype Item = Item(gap: Gap, form: Form)

  /** A whole source: values, trailing layout, and perhaps a comment the end of input cuts off. */
  datatype Doc = Doc(items: seq<Item>, tail: Gap, last: Option<string>)

  predicate WfComment(body: string) {
    '\n' !in body
  }

  predicate WfBlank(b: Blank) {
    match b
    case Space(c) => c in {' ', '\t', '\r', '\n'}
    case Comment(body) => WfComment(body)
  }

  predicate WfGap(g: Gap) {
    forall k :: 0 <= k < |g| ==> WfBlank(g[k])
  }

  predicate WfPiece(p: Piece) {
    p.Raw? ==> p.c != '"' && p.c != '\\'
  }

  predicate WfPieces(ps: seq<Piece>) {
    forall k :: 0 <= k < |ps| ==> WfPiece(ps[k])
  }

  /** The text holds no layout and no punctuation. */
  predicate Unbroken(text: string) {
    forall k :: 0 <= k < |text| ==> text[k] !in {'(', ')', '"', ';', ' ', '\t', '\r', '\n'}
  }

  predicate WfDigits(hex: Option<char>, digits: string) {
    && digits != "" && (hex.Some? ==> hex.value == 'x' || hex.value == 'X')
    && forall k :: 0 <= k < |digits| ==>
         ('0' <= digits[k] <= '9' || (hex.Some? && ('a' <= digits[k] <= 'f' || 'A' <= digits[k] <= 'F')))
  }

  function ShowNumeral(minus: bool, hex: Option<char>, digits: string): string {
    (if minus then "-" else "") + ((match hex case None => "" case Some(x) => ['0', x]) + digits)
  }

  /** The base a numeral is written in. */
  function BaseOf(hex: Option<char>): nat {
    if hex.Some? then 16 else 10
  }

  /** The number a numeral's digits write. */
  function Magnitude(hex: Option<char>, digits: string): nat
    requires WfDigits(hex, digits)
  {
    DigitsAre(hex, digits);
    Denotes(digits, BaseOf(hex))
  }

  ghost predicate WfBare(a: Bare) {
    match a
    case Wild => true
    case KeyName(name) => name != "" && Unbroken(name)
    case Numeral(_, hex, digits) => WfDigits(hex, digits)
    case Word(text) =>
      && text != "" && Unbroken(text) && text != "*" && text[0] != ':'
      && forall minus, hex, digits :: WfDigits(hex, digits) ==> text != ShowNumeral(minus, hex, digits)
  }

  ghost predicate WfForm(f: Form) {
    match f
    case Bare(atom) => WfBare(atom)
    case Quoted(pieces) => WfPieces(pieces)
    case Paren(items, close) => WfItems(items) && WfGap(close)
  }

  /** Two bare atoms in a row need layout between them; nothing else does. */
  ghost predicate WfItems(items: seq<Item>) {
    items == [] ||
    (&& WfGap(items[0].gap)
     && WfForm(items[0].form)
     && (|items| > 1 && items[0].form.Bare? && items[1].form.Bare? ==> items[1].gap != [])
     && WfItems(items[1..]))
  }

  ghost predicate WfDoc(d: Doc) {
    WfItems(d.items) && WfGap(d.tail) && (d.last.Some? ==> WfComment(d.last.value))
  }

  function ShowBlank(b: Blank): (s: string)
    ensures |s| > 0
  {
    match b
    case Space(c) => [c]
    case Comment(body) => ";" + body + "\n"
  }

  function ShowGap(g: Gap): string {
    if g == [] then "" else ShowBlank(g[0]) + ShowGap(g[1..])
  }

  function EscapeLetter(e: Escape): char {
    match e case NewlineEscape => 'n' case TabEscape => 't' case BackslashEscape => '\\' case QuoteEscape => '"'
  }

  function ShowPiece(p: Piece): string {
    match p case Raw(c) => [c] case Escaped(e) => ['\\', EscapeLetter(e)]
  }

  function ShowPieces(ps: seq<Piece>): string {
    if ps == [] then "" else ShowPiece(ps[0]) + ShowPieces(ps[1..])
  }

  function ShowBare(a: Bare): string {
    match a
    case Wild => "*"
    case KeyName(name) => ":" + name
    case Numeral(minus, hex, digits) => ShowNumeral(minus, hex, digits)
    case Word(text) => text
  }

  function Show(f: Form): string {
    match f
    case Bare(atom) => ShowBare(atom)
    case Quoted(pieces) => "\"" + ShowPieces(pieces) + "\""
    case Paren(items, close) => "(" + (ShowItems(items) + (ShowGap(close) + ")"))
  }

  function ShowItems(items: seq<Item>): string {
    if items == [] then ""
    else ShowGap(items[0].gap) + (Show(items[0].form) + ShowItems(items[1..]))
  }

  function ShowLast(last: Option<string>): string {
    match last
    case None => ""
    case Some(body) => ";" + body
  }

  function ShowDoc(d: Doc): string {
    ShowItems(d.items) + (ShowGap(d.tail) + ShowLast(d.last))
  }

  // ---------------------------------------------------------------- what concrete syntax denotes

  /** The character a piece stands for. */
  function PieceChar(p: Piece): char {
    match p
    case Raw(c) => c
    case Escaped(NewlineEscape) => '\n'
    case Escaped(TabEscape) => '\t'
    case Escaped(BackslashEscape) => '\\'
    case Escaped(QuoteEscape) => '"'
  }

  function PieceChars(ps: seq<Piece>): string {
    if ps == [] then "" else [PieceChar(ps[0])] + PieceChars(ps[1..])
  }

  /** The kind of value a bare atom is. */
  function KindOf(a: Bare): Kind {
    match a case Wild => Star case KeyName(_) => Keyword case Numeral(_, _, _) => Number case Word(_) => Symbol
  }

  /** The offset after `s` when it is written at offset `i`. */
  function After(i: nat, s: string): nat {
    i + |s|
  }

  /** The value `f` denotes when it is written at offset `i` of `src`. */
  ghost function Denote(src: string, i: nat, f: Form): Value
    requires WfForm(f) && i + |Show(f)| <= |src|
    decreases f
  {
    var pos := PosAt(src, i);
    match f
    case Bare(atom) => Atom(KindOf(atom), ShowBare(atom), pos)
    case Quoted(pieces) => Atom(Text, PieceChars(pieces), pos)
    case Paren(items, close) => List(DenoteItems(src, i + 1, items), pos)
  }

  ghost function DenoteItems(src: string, i: nat, items: seq<Item>): seq<Value>
    requires WfItems(items) && i + |ShowItems(items)| <= |src|
    decreases items
  {
    if items == [] then []
    else
      var at := After(i, ShowGap(items[0].gap));
      var next := After(at, Show(items[0].form));
      [Denote(src, at, items[0].form)] + DenoteItems(src, next, items[1..])
  }

  // ---------------------------------------------------------------- classifying reads the syntax

  /** The bare atom a text without layout or punctuation is. */
  function BareOf(text: string): Bare {
    if text == "*" then Wild
    else if ":" <= text then KeyName(text[1..])
    else if LooksNumeric(text) then NumeralOf(text)
    else Word(text)
  }

  function NumeralOf(text: string): Bare {
    var minus := "-" <= text;
    var t := if minus then text[1..] else text;
    if HexPrefixed(t) then Numeral(minus, Some(t[1]), t[2..]) else Numeral(minus, None, t)
  }

  /** A text is numeric exactly when it is a numeral written out. */
  lemma {:induction false} NumericExactly(text: string)
    ensures LooksNumeric(text) <==>
              exists minus, hex, digits :: WfDigits(hex, digits) && text == ShowNumeral(minus, hex, digits)
    ensures LooksNumeric(text) ==>
              && var a := NumeralOf(text);
                 a.Numeral? && WfDigits(a.hex, a.digits) && text == ShowNumeral(a.minus, a.hex, a.digits)
  {
    if LooksNumeric(text) { NumeralShows(text); }
    forall minus, hex, digits | WfDigits(hex, digits) && text == ShowNumeral(minus, hex, digits)
      ensures LooksNumeric(text)
    {
      NumeralLooks(minus, hex, digits);
    }
  }

  lemma NumeralShows(text: string)
    requires LooksNumeric(text)
    ensures var a := NumeralOf(text);
            a.Numeral? && WfDigits(a.hex, a.digits) && text == ShowNumeral(a.minus, a.hex, a.digits)
  {
    var t := if "-" <= text then text[1..] else text;
    assert text == (if "-" <= text then "-" else "") + t;
    if HexPrefixed(t) {
      assert t == ['0', t[1]] + t[2..];
      DigitsAre(Some(t[1]), t[2..]);
    } else {
      assert t == "" + t;
      DigitsAre(None, t);
    }
  }

  /** Digits written out are what the base accepts. */
  lemma DigitsAre(hex: Option<char>, digits: string)
    requires hex.Some? ==> hex.value == 'x' || hex.value == 'X'
    ensures WfDigits(hex, digits) <==> IsNumeral(digits, if hex.Some? then 16 else 10)
  {
    forall k | 0 <= k < |digits|
      ensures IsDigit(digits[k], if hex.Some? then 16 else 10) <==>
                '0' <= digits[k] <= '9' || (hex.Some? && ('a' <= digits[k] <= 'f' || 'A' <= digits[k] <= 'F'))
    {
    }
  }

  lemma NumeralLooks(minus: bool, hex: Option<char>, digits: string)
    requires WfDigits(hex, digits)
    ensures LooksNumeric(ShowNumeral(minus, hex, digits))
    ensures NumeralOf(ShowNumeral(minus, hex, digits)) == Numeral(minus, hex, digits)
  {
    var body := (match hex case None => "" case Some(x) => ['0', x]) + digits;
    var text := ShowNumeral(minus, hex, digits);
    assert body[0] != '-';
    if minus { assert text == "-" + body && text[1..] == body; } else { assert text == "" + body == body; }
    DigitsAre(hex, digits);
    if hex.Some? {
      assert body[2..] == digits;
    } else {
      assert body == digits;
      assert |body| > 1 ==> body[1] != 'x' && body[1] != 'X';
    }
  }

  lemma BareShows(text: string)
    requires text != "" && text != ":" && Unbroken(text)
    ensures WfBare(BareOf(text)) && ShowBare(BareOf(text)) == text
  {
    hide LooksNumeric, ShowNumeral, WfDigits;
    NumericExactly(text);
    assert ":" <= text ==> text == ":" + text[1..];
  }

  /** A bare atom is the one its text can be, and its text is classified as it. */
  lemma OneBare(a: Bare)
    requires WfBare(a)
    ensures BareOf(ShowBare(a)) == a && Classify(ShowBare(a)) == KindOf(a)
  {
    match a
    case Wild =>
    case KeyName(name) => assert (":" + name)[1..] == name && (":" + name)[0] == ':';
    case Numeral(minus, hex, digits) => NumeralClassified(minus, hex, digits);
    case Word(text) =>
      hide LooksNumeric, ShowNumeral, WfDigits;
      NumericExactly(text);
  }

  lemma NumeralClassified(minus: bool, hex: Option<char>, digits: string)
    requires WfDigits(hex, digits)
    ensures var text := ShowNumeral(minus, hex, digits);
            BareOf(text) == Numeral(minus, hex, digits) && Classify(text) == Number
  {
    NumeralLooks(minus, hex, digits);
    var text := ShowNumeral(minus, hex, digits);
    assert text != "*" && !(":" <= text) by { NumeralBegins(minus, hex, digits); }
  }

  lemma NumeralBegins(minus: bool, hex: Option<char>, digits: string)
    requires WfDigits(hex, digits)
    ensures var text := ShowNumeral(minus, hex, digits); text != "" && text[0] != ':' && text[0] != '*'
  {
    var radix := match hex case None => "" case Some(x) => ['0', x];
    assert ShowNumeral(minus, hex, digits) == (if minus then "-" else "") + (radix + digits);
  }

  /** The kind a text is given is the kind of the one bare atom it can be, and every text is one. */
  lemma {:induction false} ClassifyExactly(text: string)
    requires text != "" && text != ":" && Unbroken(text)
    ensures WfBare(BareOf(text)) && ShowBare(BareOf(text)) == text
    ensures forall a :: WfBare(a) && ShowBare(a) == text ==> a == BareOf(text) && Classify(text) == KindOf(a)
  {
    hide WfBare, ShowBare, BareOf, Classify;
    BareShows(text);
    forall a | WfBare(a) && ShowBare(a) == text ensures a == BareOf(text) && Classify(text) == KindOf(a) {
      OneBare(a);
    }
  }

  /** A bare atom is written without layout or punctuation, and is neither empty nor a lone colon. */
  lemma BareIsUnbroken(a: Bare)
    requires WfBare(a)
    ensures ShowBare(a) != "" && ShowBare(a) != ":" && Unbroken(ShowBare(a))
  {
    if a.Numeral? { NumeralIsUnbroken(a.minus, a.hex, a.digits); }
  }

  lemma NumeralIsUnbroken(minus: bool, hex: Option<char>, digits: string)
    requires WfDigits(hex, digits)
    ensures Unbroken(ShowNumeral(minus, hex, digits)) && ShowNumeral(minus, hex, digits) != ":"
    ensures ShowNumeral(minus, hex, digits) != ""
  {
    var sign, radix := if minus then "-" else "", match hex case None => "" case Some(x) => ['0', x];
    var text := ShowNumeral(minus, hex, digits);
    assert text == sign + (radix + digits);
    forall k | 0 <= k < |text|
      ensures text[k] !in {'(', ')', '"', ';', ' ', '\t', '\r', '\n', ':'}
    {
      var n := |sign| + |radix|;
      if k >= n { assert text[k] == digits[k - n]; }
    }
    assert ":"[0] == ':';
  }
}
