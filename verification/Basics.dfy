/** Results, source positions and the little string vocabulary every package shares. */
module Basics {

  datatype Option<+T> = None | Some(value: T)

  /** A 1-based source position. */
  datatype Pos = Pos(line: nat, col: nat)

  /** Why something was refused: one constructor per diagnostic of the compiler. */
  datatype Reason =
    // reader
    | UnexpectedClose | Unclosed | Unterminated | UnknownEscape | ExpectedValue | EmptyKeyword
    // building nodes
    | NotAForm | EmptyForm | BadHead | NoValue | DuplicateKey | LateProperty | NotNested
    // spines
    | Branching | NotConfigure | ConfigureProps | ConfigureChildren
    // property values
    | WrongKind | BadAddress | NeedsLength | BadPrefix | DoesNotFit | OutOfRange
    | MissingProperty | MustBeConcrete | NoLowering
    // interface names
    | EmptyName | LongName | IllegalName | NameTaken
    // registries
    | EmptyPattern | NoLowerFunction | Ambiguous
    // mirroring and predicting
    | PeerAddress | NoEndpoints | EmptySpine | NoPrediction

  /** A diagnostic, anchored to a position unless it has none to offer. */
  datatype Error = At(pos: Pos, reason: Reason) | Unplaced(reason: Reason)

  datatype Result<+T> = Ok(value: T) | Err(error: Error) {
    predicate IsFailure() {
      Err?
    }

    function PropagateFailure<U>(): Result<U>
      requires Err?
    {
      Err(error)
    }

    function Extract(): T
      requires Ok?
    {
      value
    }
  }

  /** Index of the first `c` in `s`, or the length of `s`. */
  function IndexOf(s: string, c: char): (i: nat)
    ensures i <= |s| && c !in s[..i]
    ensures i < |s| ==> s[i] == c
    ensures i == |s| <==> c !in s
  {
    if s == "" then 0
    else if s[0] == c then 0
    else
      var k := IndexOf(s[1..], c);
      assert s[..k + 1] == [s[0]] + s[1..][..k];
      k + 1
  }

  lemma {:induction false} IndexOfAppend(s: string, t: string, c: char)
    requires c !in s
    ensures IndexOf(s + [c] + t, c) == |s|
  {
    var w := s + [c] + t;
    assert w[|s|] == c;
    assert w[..|s|] == s;
    var i := IndexOf(w, c);
    assert i >= |s|;
    assert i <= |s|;
  }

  /** strings.Join. */
  function Join(parts: seq<string>, sep: string): string {
    if parts == [] then ""
    else if |parts| == 1 then parts[0]
    else parts[0] + sep + Join(parts[1..], sep)
  }

  lemma {:induction false} JoinSnoc(parts: seq<string>, last: string, sep: string)
    requires parts != []
    ensures Join(parts + [last], sep) == Join(parts, sep) + sep + last
  {
    var all := parts + [last];
    assert all[1..] == parts[1..] + [last];
    if |parts| == 1 {
      assert all[1..] == [last];
    } else {
      JoinSnoc(parts[1..], last, sep);
      assert parts[0] + sep + (Join(parts[1..], sep) + sep + last)
          == (parts[0] + sep + Join(parts[1..], sep)) + sep + last;
    }
  }
}
