/** The reader itself: a cursor over a source that keeps its line and column as it goes. */
module Reader {
  import opened Basics
  import opened Sexp
  import opened Parser

  class Reader {
    const src: string
    var i: nat
    var line: nat
    var col: nat

    /** The cursor is inside the source, and its line and column are those of its offset. */
    ghost predicate Valid()
      reads this
    {
      i <= |src| && Pos(line, col) == PosAt(src, i)
    }

    constructor (src: string)
      ensures this.src == src && i == 0 && Valid()
    {
      this.src, this.i, this.line, this.col := src, 0, 1, 1;
    }

    predicate Eof()
      reads this
    {
      i >= |src|
    }

    function Peek(): char
      reads this
    {
      if Eof() then '\0' else src[i]
    }

    function Here(): Pos
      reads this
    {
      Pos(line, col)
    }

    method Advance() returns (c: char)
      requires Valid() && !Eof()
      modifies this
      ensures Valid() && i == old(i) + 1 && c == src[old(i)]
    {
      c := src[i];
      i := i + 1;
      if c == '\n' {
        line := line + 1;
        col := 1;
      } else {
        col := col + 1;
      }
    }

    method SkipSpace()
      requires Valid()
      modifies this
      ensures Valid() && i == SkipBlank(src, old(i))
    {
      while !Eof()
        invariant Valid() && i >= old(i)
        invariant SkipBlank(src, i) == SkipBlank(src, old(i))
        decreases |src| - i
      {
        var c := Peek();
        if IsSpace(c) {
          var _ := Advance();
        } else if c == ';' {
          ghost var start := i;
          while !Eof() && Peek() != '\n'
            invariant Valid() && i >= start
            invariant i == start ==> Peek() == ';'
            invariant ToNewline(src, i) == ToNewline(src, start)
            decreases |src| - i
          {
            var _ := Advance();
          }
          assert ToNewline(src, start) == i > start;
        } else {
          return;
        }
      }
    }

    method ReadValue() returns (r: Result<Value>)
      requires Valid() && !Eof()
      modifies this
      ensures Valid()
      ensures match ParseValue(src, old(i))
              case Got(v, next) => r == Ok(v) && i == next > old(i)
              case Failed(e) => r == Err(e)
      decreases |src| - i, 1
    {
      var c := Peek();
      if c == '(' {
        r := ReadList();
      } else if c == ')' {
        r := Err(At(Here(), UnexpectedClose));
      } else if c == '"' {
        r := ReadString();
      } else {
        r := ReadAtom();
      }
    }

    method ReadList() returns (r: Result<Value>)
      requires Valid() && !Eof() && src[i] == '('
      modifies this
      ensures Valid()
      ensures match ParseValue(src, old(i))
              case Got(v, next) => r == Ok(v) && i == next
              case Failed(e) => r == Err(e)
      decreases |src| - i, 0
    {
      var pos := Here();
      ghost var open := i;
      var _ := Advance();
      var items: seq<Value> := [];
      while true
        invariant Valid() && i > open
        invariant ParseItems(src, open + 1, open) == Prepend(items, ParseItems(src, i, open))
        decreases |src| - i
      {
        SkipSpace();
        if Eof() {
          return Err(At(pos, Unclosed));
        }
        if Peek() == ')' {
          var _ := Advance();
          return Ok(List(items, pos));
        }
        var r' := ReadValue();
        match r'
        case Err(e) => return Err(e);
        case Ok(v) =>
          PrependSnoc(items, v, ParseItems(src, i, open));
          items := items + [v];
      }
    }

    method ReadString() returns (r: Result<Value>)
      requires Valid() && !Eof() && src[i] == '"'
      modifies this
      ensures Valid()
      ensures match ParseValue(src, old(i))
              case Got(v, next) => r == Ok(v) && i == next
              case Failed(e) => r == Err(e)
    {
      var pos := Here();
      ghost var open := i;
      var _ := Advance();
      var text := "";
      while true
        invariant Valid() && i > open
        invariant ParseString(src, open + 1, open) == Prepend(text, ParseString(src, i, open))
        decreases |src| - i
      {
        if Eof() {
          return Err(At(pos, Unterminated));
        }
        var c := Advance();
        if c == '"' {
          return Ok(Atom(Text, text, pos));
        }
        if c != '\\' {
          PrependSnoc(text, c, ParseString(src, i, open));
          text := text + [c];
        } else {
          if Eof() {
            return Err(At(pos, Unterminated));
          }
          var esc := Here();
          var e := Advance();
          var plain := Unescape(e);
          if plain == None {
            return Err(At(esc, UnknownEscape));
          }
          PrependSnoc(text, plain.value, ParseString(src, i, open));
          text := text + [plain.value];
        }
      }
    }

    method ReadAtom() returns (r: Result<Value>)
      requires Valid() && !Eof()
      modifies this
      ensures Valid()
      ensures match ParseAtom(src, old(i))
              case Got(v, next) => r == Ok(v) && i == next
              case Failed(e) => r == Err(e)
    {
      var pos := Here();
      var start := i;
      while !Eof() && !IsDelim(Peek())
        invariant Valid() && start <= i
        invariant AtomEnd(src, i) == AtomEnd(src, start)
        decreases |src| - i
      {
        var _ := Advance();
      }
      var text := src[start..i];
      if text == "" {
        return Err(At(pos, ExpectedValue));
      }
      if text == ":" {
        return Err(At(pos, EmptyKeyword));
      }
      return Ok(Atom(Classify(text), text, pos));
    }
  }

  /** Putting what was already read in front of what is still to come. */
  ghost function Prepend<T>(done: seq<T>, rest: Parsed<seq<T>>): (p: Parsed<seq<T>>)
    ensures done == [] ==> p == rest
    ensures rest.Got? && rest.value == [] ==> p == Got(done, rest.next)
  {
    match rest
    case Failed(e) => Failed(e)
    case Got(tail, next) =>
      assert [] + tail == tail && done + [] == done;
      Got(done + tail, next)
  }

  lemma PrependSnoc<T>(done: seq<T>, x: T, rest: Parsed<seq<T>>)
    ensures Prepend(done, Cons(x, rest)) == Prepend(done + [x], rest)
  {
    if rest.Got? {
      assert done + ([x] + rest.value) == (done + [x]) + rest.value;
    }
  }

  /** The same for whole sources. */
  ghost function PrependAll<T>(done: seq<T>, rest: Result<seq<T>>): (r: Result<seq<T>>)
    ensures done == [] ==> r == rest
    ensures rest.Ok? && rest.value == [] ==> r == Ok(done)
  {
    match rest
    case Err(e) => Err(e)
    case Ok(tail) =>
      assert [] + tail == tail && done + [] == done;
      Ok(done + tail)
  }

  /** Read every top-level form of a source. */
  method Read(src: string) returns (r: Result<seq<Value>>)
    ensures r == ParseAll(src, 0)
  {
    var reader := new Reader(src);
    var out: seq<Value> := [];
    while true
      invariant reader.Valid() && reader.src == src
      invariant ParseAll(src, 0) == PrependAll(out, ParseAll(src, reader.i))
      decreases |src| - reader.i
    {
      reader.SkipSpace();
      if reader.Eof() {
        return Ok(out);
      }
      var v := reader.ReadValue();
      if v.Err? {
        return Err(v.error);
      }
      ghost var rest := ParseAll(src, reader.i);
      assert rest.Ok? ==> out + ([v.value] + rest.value) == (out + [v.value]) + rest.value;
      out := out + [v.value];
    }
  }
}
