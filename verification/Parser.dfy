/** Recursive descent over a source, as functions of the offset: what the reader computes. */
module Parser {
  import opened Basics
  import opened Sexp

  /** What reading at an offset gives: a result and the offset after it, or a diagnostic. */
  datatype Parsed<+T> = Got(value: T, next: nat) | Failed(error: Error)

  function ToNewline(src: string, i: nat): (j: nat)
    requires i <= |src|
    ensures i <= j <= |src|
    ensures forall k :: i <= k < j ==> src[k] != '\n'
    ensures j < |src| ==> src[j] == '\n'
    decreases |src| - i
  {
    if i == |src| || src[i] == '\n' then i else ToNewline(src, i + 1)
  }

  /** The offset of the first character at or after `i` that is neither space nor comment. */
  function SkipBlank(src: string, i: nat): (j: nat)
    requires i <= |src|
    ensures i <= j <= |src|
    ensures j < |src| ==> !IsSpace(src[j]) && src[j] != ';'
    decreases |src| - i
  {
    if i == |src| then i
    else if IsSpace(src[i]) then SkipBlank(src, i + 1)
    else if src[i] == ';' then
      assert ToNewline(src, i) > i;
      SkipBlank(src, ToNewline(src, i))
    else i
  }

  function AtomEnd(src: string, i: nat): (j: nat)
    requires i <= |src|
    ensures i <= j <= |src|
    ensures forall k :: i <= k < j ==> !IsDelim(src[k])
    ensures j < |src| ==> IsDelim(src[j])
    decreases |src| - i
  {
    if i == |src| || IsDelim(src[i]) then i else AtomEnd(src, i + 1)
  }

  function ParseAtom(src: string, i: nat): (p: Parsed<Value>)
    requires i < |src|
    ensures p.Got? ==> i < p.next <= |src|
  {
    var j := AtomEnd(src, i);
    var text := src[i..j];
    if text == "" then Failed(At(PosAt(src, i), ExpectedValue))
    else if text == ":" then Failed(At(PosAt(src, i), EmptyKeyword))
    else Got(Atom(Classify(text), text, PosAt(src, i)), j)
  }

  /** The rest of a string whose opening quote is at `open`. */
  function ParseString(src: string, i: nat, open: nat): (p: Parsed<string>)
    requires open < i <= |src|
    ensures p.Got? ==> i < p.next <= |src|
    decreases |src| - i
  {
    if i == |src| then Failed(At(PosAt(src, open), Unterminated))
    else if src[i] == '"' then Got("", i + 1)
    else if src[i] != '\\' then Cons(src[i], ParseString(src, i + 1, open))
    else if i + 1 == |src| then Failed(At(PosAt(src, open), Unterminated))
    else
      match Unescape(src[i + 1])
      case None => Failed(At(PosAt(src, i + 1), UnknownEscape))
      case Some(c) => Cons(c, ParseString(src, i + 2, open))
  }

  function Cons<T>(head: T, rest: Parsed<seq<T>>): Parsed<seq<T>> {
    match rest
    case Failed(e) => Failed(e)
    case Got(tail, next) => Got([head] + tail, next)
  }

  function ParseValue(src: string, i: nat): (p: Parsed<Value>)
    requires i < |src|
    ensures p.Got? ==> i < p.next <= |src|
    decreases |src| - i, 0
  {
    var pos := PosAt(src, i);
    if src[i] == '(' then
      match ParseItems(src, i + 1, i)
      case Failed(e) => Failed(e)
      case Got(items, next) => Got(List(items, pos), next)
    else if src[i] == ')' then Failed(At(pos, UnexpectedClose))
    else if src[i] == '"' then
      match ParseString(src, i + 1, i)
      case Failed(e) => Failed(e)
      case Got(text, next) => Got(Atom(Text, text, pos), next)
    else ParseAtom(src, i)
  }

  /** The rest of a form whose opening parenthesis is at `open`. */
  function ParseItems(src: string, i: nat, open: nat): (p: Parsed<seq<Value>>)
    requires open < i <= |src|
    ensures p.Got? ==> i < p.next <= |src|
    decreases |src| - i, 1
  {
    var j := SkipBlank(src, i);
    if j == |src| then Failed(At(PosAt(src, open), Unclosed))
    else if src[j] == ')' then Got([], j + 1)
    else
      match ParseValue(src, j)
      case Failed(e) => Failed(e)
      case Got(v, next) => Cons(v, ParseItems(src, next, open))
  }

  /** Every value from offset `i` to the end of the source. */
  function ParseAll(src: string, i: nat): Result<seq<Value>>
    requires i <= |src|
    decreases |src| - i
  {
    var j := SkipBlank(src, i);
    if j == |src| then Ok([])
    else
      match ParseValue(src, j)
      case Failed(e) => Err(e)
      case Got(v, next) =>
        match ParseAll(src, next)
        case Err(e) => Err(e)
        case Ok(vs) => Ok([v] + vs)
  }
}
