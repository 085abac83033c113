/** The same walk told instead of done: every bid at every position, and why one won. */
module Explain {
  import opened Basics
  import opened Ast
  import opened Netip
  import opened Props
  import opened Env
  import opened Tile

  /** What came of one tile's bid. */
  datatype Verdict =
    | Matched
    | TooShort(needs: nat, remain: nat)
    | Mismatch(layer: nat, got: string, want: string)
    | RuledOut

  datatype Attempt = Attempt(name: string, length: nat, priority: int, verdict: Verdict)

  /** Why the chosen tile won. */
  datatype Because = OnlyMatch | TieBroken(tied: nat, longest: nat) | LongestMatch(longest: nat, others: nat)

  /** The decision at one position; nothing chosen where nothing matched. */
  datatype Step = Step(at: nat, until: nat, chosen: Option<string>, because: Option<Because>, attempts: seq<Attempt>)

  datatype Explanation = Explanation(steps: seq<Step>, leftover: seq<Layer>)

  // ---------------------------------------------------------------- bids

  function BidFrom(t: Tile, sp: seq<Layer>, i: nat, k: nat): Verdict
    requires k <= |t.pattern| && i + |t.pattern| <= |sp|
    decreases |t.pattern| - k
  {
    if k == |t.pattern| then
      if t.guard.Some? && !t.guard.value(sp[i..i + |t.pattern|]) then RuledOut else Matched
    else if sp[i + k].name != t.pattern[k] then Mismatch(i + k, sp[i + k].name, t.pattern[k])
    else BidFrom(t, sp, i, k + 1)
  }

  function Bid(t: Tile, sp: seq<Layer>, i: nat): Verdict
    requires i <= |sp|
  {
    if i + |t.pattern| > |sp| then TooShort(|t.pattern|, |sp| - i) else BidFrom(t, sp, i, 0)
  }

  method BidOf(t: Tile, sp: seq<Layer>, i: nat) returns (v: Verdict)
    requires i <= |sp|
    ensures v == Bid(t, sp, i)
  {
    if i + |t.pattern| > |sp| {
      return TooShort(|t.pattern|, |sp| - i);
    }
    for k := 0 to |t.pattern|
      invariant BidFrom(t, sp, i, k) == Bid(t, sp, i)
    {
      if sp[i + k].name != t.pattern[k] {
        return Mismatch(i + k, sp[i + k].name, t.pattern[k]);
      }
    }
    if t.guard.Some? && !t.guard.value(sp[i..i + |t.pattern|]) {
      return RuledOut;
    }
    return Matched;
  }

  lemma {:induction false} BidFromExact(t: Tile, sp: seq<Layer>, i: nat, k: nat)
    requires k <= |t.pattern| && i + |t.pattern| <= |sp|
    requires forall j :: 0 <= j < k ==> sp[i + j].name == t.pattern[j]
    ensures BidFrom(t, sp, i, k).Matched? <==> Matches(t, sp, i)
    ensures BidFrom(t, sp, i, k).RuledOut? <==> NamesMatch(t.pattern, sp, i) && !Matches(t, sp, i)
    ensures var v := BidFrom(t, sp, i, k);
            v.Mismatch? ==> StoppedAt(t, sp, i, v)
    ensures !BidFrom(t, sp, i, k).TooShort?
    decreases |t.pattern| - k
  {
    if k < |t.pattern| && sp[i + k].name == t.pattern[k] {
      BidFromExact(t, sp, i, k + 1);
    }
  }

  /** A mismatch names the first layer that differs, what it is, and what the tile wanted there. */
  predicate StoppedAt(t: Tile, sp: seq<Layer>, i: nat, v: Verdict)
    requires v.Mismatch?
  {
    && i <= v.layer < i + |t.pattern| <= |sp|
    && sp[v.layer].name == v.got && t.pattern[v.layer - i] == v.want && v.got != v.want
    && forall j :: 0 <= j < v.layer - i ==> sp[i + j].name == t.pattern[j]
  }

  /** A bid succeeds for exactly the tiles that match, and every failed bid says what stopped it. */
  lemma {:induction false} BidExact(t: Tile, sp: seq<Layer>, i: nat)
    requires i <= |sp|
    ensures Bid(t, sp, i).Matched? <==> Matches(t, sp, i)
    ensures Bid(t, sp, i).TooShort? <==> i + |t.pattern| > |sp|
    ensures Bid(t, sp, i).TooShort? ==> Bid(t, sp, i) == TooShort(|t.pattern|, |sp| - i)
    ensures Bid(t, sp, i).RuledOut? <==> NamesMatch(t.pattern, sp, i) && !Matches(t, sp, i)
    ensures Bid(t, sp, i).Mismatch? ==> StoppedAt(t, sp, i, Bid(t, sp, i))
  {
    if i + |t.pattern| <= |sp| { BidFromExact(t, sp, i, 0); }
  }

  // ---------------------------------------------------------------- reasons

  function Longest(all: seq<Tile>): nat {
    if all == [] then 0
    else
      var prior := Longest(all[..|all| - 1]);
      if |all[|all| - 1].pattern| > prior then |all[|all| - 1].pattern| else prior
  }

  function CountOf(all: seq<Tile>, length: nat): nat {
    if all == [] then 0
    else CountOf(all[..|all| - 1], length) + if |all[|all| - 1].pattern| == length then 1 else 0
  }

  function Why(all: seq<Tile>): Because
    requires all != []
  {
    if |all| == 1 then OnlyMatch
    else if CountOf(all, Longest(all)) > 1 then TieBroken(CountOf(all, Longest(all)), Longest(all))
    else LongestMatch(Longest(all), |all| - 1)
  }

  method WhyOf(all: seq<Tile>) returns (b: Because)
    requires all != []
    ensures b == Why(all)
  {
    if |all| == 1 {
      return OnlyMatch;
    }
    var longest := 0;
    for n := 0 to |all|
      invariant longest == Longest(all[..n])
    {
      assert all[..n + 1][..n] == all[..n];
      if |all[n].pattern| > longest {
        longest := |all[n].pattern|;
      }
    }
    var tied := 0;
    for n := 0 to |all|
      invariant tied == CountOf(all[..n], longest)
    {
      assert all[..n + 1][..n] == all[..n];
      if |all[n].pattern| == longest {
        tied := tied + 1;
      }
    }
    assert all[..|all|] == all;
    if tied > 1 {
      return TieBroken(tied, longest);
    }
    return LongestMatch(longest, |all| - 1);
  }

  lemma {:induction false} LongestIsBest(all: seq<Tile>)
    requires all != []
    ensures Longest(all) == |Best(all).pattern|
  {
    var front := all[..|all| - 1];
    assert all == front + [all[|all| - 1]];
    if |all| > 1 { LongestIsBest(front); }
  }

  /** The places of the tiles of a length. */
  function PlacesOf(all: seq<Tile>, length: nat): set<nat> {
    set k: nat | 0 <= k < |all| && |all[k].pattern| == length
  }

  lemma {:induction false} CountIsSize(all: seq<Tile>, length: nat)
    ensures CountOf(all, length) == |PlacesOf(all, length)|
    decreases |all|
  {
    if all == [] {
      assert PlacesOf(all, length) == {};
    } else {
      var n := |all| - 1;
      CountIsSize(all[..n], length);
      assert PlacesOf(all, length) == PlacesOf(all[..n], length) + if |all[n].pattern| == length then {n} else {};
    }
  }

  lemma {:induction false} LongestBeatsAll(all: seq<Tile>)
    ensures forall k :: 0 <= k < |all| ==> |all[k].pattern| <= Longest(all)
  {
    if all != [] {
      var n := |all| - 1;
      LongestBeatsAll(all[..n]);
      assert forall k :: 0 <= k < n ==> all[..n][k] == all[k];
    }
  }

  /** The reason names the length of the tile chosen, and is a tie exactly when several tiles have it. */
  lemma {:induction false} ReasonIsTrue(all: seq<Tile>)
    requires all != []
    ensures var length, tied := |Best(all).pattern|, |PlacesOf(all, |Best(all).pattern|)|;
            && (forall k :: 0 <= k < |all| ==> |all[k].pattern| <= length)
            && Why(all) == if |all| == 1 then OnlyMatch
                           else if tied > 1 then TieBroken(tied, length) else LongestMatch(length, |all| - 1)
  {
    LongestIsBest(all);
    LongestBeatsAll(all);
    CountIsSize(all, |Best(all).pattern|);
  }

  // ---------------------------------------------------------------- the walk

  function AttemptOf(t: Tile, sp: seq<Layer>, i: nat): Attempt
    requires i <= |sp|
  {
    Attempt(t.name, |t.pattern|, t.priority, Bid(t, sp, i))
  }

  function Attempts(tiles: seq<Tile>, sp: seq<Layer>, i: nat): seq<Attempt>
    requires i <= |sp|
  {
    if tiles == [] then [] else [AttemptOf(tiles[0], sp, i)] + Attempts(tiles[1..], sp, i)
  }

  lemma {:induction false} AttemptsSnoc(tiles: seq<Tile>, t: Tile, sp: seq<Layer>, i: nat)
    requires i <= |sp|
    ensures Attempts(tiles + [t], sp, i) == Attempts(tiles, sp, i) + [AttemptOf(t, sp, i)]
  {
    if tiles == [] {
      assert tiles + [t] == [t];
    } else {
      assert (tiles + [t])[1..] == tiles[1..] + [t];
      AttemptsSnoc(tiles[1..], t, sp, i);
    }
  }

  /** The steps from layer `i` on, and where they leave off. */
  ghost function Steps(tiles: seq<Tile>, sp: seq<Layer>, i: nat): seq<Step>
    requires AllUsable(tiles) && i <= |sp|
    decreases |sp| - i
  {
    if i == |sp| then []
    else
      var winners := MatchesAt(tiles, sp, i);
      if winners == [] then [Step(i, |sp|, None, None, Attempts(tiles, sp, i))]
      else
        var pick := Best(winners);
        WinnerFits(tiles, sp, i);
        [Step(i, Next(i, pick), Some(pick.name), Some(Why(winners)), Attempts(tiles, sp, i))]
        + Steps(tiles, sp, Next(i, pick))
  }

  lemma WinnerFits(tiles: seq<Tile>, sp: seq<Layer>, i: nat)
    requires AllUsable(tiles) && MatchesAt(tiles, sp, i) != []
    ensures i < Next(i, Best(MatchesAt(tiles, sp, i))) <= |sp|
  {
    MatchesAtIs(tiles, sp, i);
  }

  method BidAll(tiles: seq<Tile>, sp: seq<Layer>, i: nat) returns (attempts: seq<Attempt>, winners: seq<Tile>)
    requires i <= |sp|
    ensures attempts == Attempts(tiles, sp, i) && winners == MatchesAt(tiles, sp, i)
  {
    attempts, winners := [], [];
    for n := 0 to |tiles|
      invariant attempts == Attempts(tiles[..n], sp, i) && winners == MatchesAt(tiles[..n], sp, i)
    {
      var t := tiles[n];
      assert tiles[..n + 1] == tiles[..n] + [t];
      AttemptsSnoc(tiles[..n], t, sp, i);
      MatchesAtSnoc(tiles[..n], t, sp, i);
      BidExact(t, sp, i);
      var v := BidOf(t, sp, i);
      if v.Matched? {
        winners := winners + [t];
      }
      attempts := attempts + [Attempt(t.name, |t.pattern|, t.priority, v)];
    }
    assert tiles[..|tiles|] == tiles;
  }

  /** Walk the cover and record every bid rather than emit commands. */
  method Explain(tiles: seq<Tile>, sp: seq<Layer>) returns (ex: Explanation)
    requires AllUsable(tiles)
    ensures ex.steps == Steps(tiles, sp, 0)
    ensures End(0, Greedy(tiles, sp, 0)) <= |sp| && ex.leftover == sp[End(0, Greedy(tiles, sp, 0))..]
  {
    hide Matches, Why, Attempts, Best, Chain, MatchesAt, End, Next;
    var steps: seq<Step> := [];
    var i := 0;
    GreedyIsChain(tiles, sp, 0);
    ChainFits(tiles, sp, 0, Greedy(tiles, sp, 0));
    assert [] + Steps(tiles, sp, 0) == Steps(tiles, sp, 0);
    while i < |sp|
      invariant i <= |sp|
      invariant steps + Steps(tiles, sp, i) == Steps(tiles, sp, 0)
      invariant End(i, Greedy(tiles, sp, i)) == End(0, Greedy(tiles, sp, 0))
    {
      var attempts, winners := BidAll(tiles, sp, i);
      if winners == [] {
        GreedyEnds(tiles, sp, i);
        steps := steps + [Step(i, |sp|, None, None, attempts)];
        return Explanation(steps, sp[i..]);
      }
      var pick := BestOf(winners);
      WinnerFits(tiles, sp, i);
      var because := WhyOf(winners);
      var step := Step(i, Next(i, pick), Some(pick.name), Some(because), attempts);
      ghost var more := Steps(tiles, sp, Next(i, pick));
      assert steps + ([step] + more) == (steps + [step]) + more;
      ghost var t, rest := GreedyStep(tiles, sp, i);
      steps := steps + [step];
      i := Next(i, pick);
    }
    assert steps + [] == steps;
    GreedyIsChain(tiles, sp, i);
    ChainFits(tiles, sp, i, Greedy(tiles, sp, i));
    return Explanation(steps, sp[i..]);
  }

  // ---------------------------------------------------------------- what the walk tells

  /** One attempt for every tile of the registry, in its order, with what came of its bid. */
  ghost predicate BidsAre(tiles: seq<Tile>, sp: seq<Layer>, i: nat, attempts: seq<Attempt>)
    requires i <= |sp|
  {
    && |attempts| == |tiles|
    && forall k :: 0 <= k < |tiles| ==>
         attempts[k] == Attempt(tiles[k].name, |tiles[k].pattern|, tiles[k].priority, Bid(tiles[k], sp, i))
  }

  /**
   A step for every tile taken, where it was taken, with the reason and all the bids; and where no tile matches
   before the end, one more step over the rest, with all the bids and nothing chosen.
   */
  ghost predicate Tells(tiles: seq<Tile>, sp: seq<Layer>, i: nat, chain: seq<Tile>, steps: seq<Step>)
    decreases chain
  {
    if i > |sp| then false
    else if chain == [] then
      if i == |sp| then steps == []
      else
        && |steps| == 1 && steps[0].at == i && steps[0].until == |sp|
        && steps[0].chosen == None && steps[0].because == None && BidsAre(tiles, sp, i, steps[0].attempts)
    else
      && steps != [] && steps[0].at == i && steps[0].until == i + |chain[0].pattern|
      && MatchesAt(tiles, sp, i) != [] && chain[0] == Best(MatchesAt(tiles, sp, i))
      && steps[0].chosen == Some(chain[0].name) && steps[0].because == Some(Why(MatchesAt(tiles, sp, i)))
      && BidsAre(tiles, sp, i, steps[0].attempts)
      && Tells(tiles, sp, i + |chain[0].pattern|, chain[1..], steps[1..])
  }

  lemma {:induction false} AttemptsAreBids(tiles: seq<Tile>, sp: seq<Layer>, i: nat)
    requires i <= |sp|
    ensures BidsAre(tiles, sp, i, Attempts(tiles, sp, i))
  {
    hide Bid;
    if tiles != [] {
      AttemptsAreBids(tiles[1..], sp, i);
      assert forall k :: 1 <= k < |tiles| ==> tiles[k] == tiles[1..][k - 1];
    }
  }

  /** The steps are told of the greedy chain, from any place and to the end. */
  lemma {:induction false} StepsTell(tiles: seq<Tile>, sp: seq<Layer>, i: nat)
    requires AllUsable(tiles) && i <= |sp|
    ensures Tells(tiles, sp, i, Greedy(tiles, sp, i), Steps(tiles, sp, i))
    decreases |sp| - i
  {
    hide Matches, Bid, BidsAre, Attempts, Why, Best, MatchesAt;
    AttemptsAreBids(tiles, sp, i);
    if MatchesAt(tiles, sp, i) == [] {
      GreedyEnds(tiles, sp, i);
    } else {
      var t, rest := GreedyStep(tiles, sp, i);
      StepsTell(tiles, sp, Next(i, t));
      assert Steps(tiles, sp, i)[1..] == Steps(tiles, sp, Next(i, t));
    }
  }

  // ---------------------------------------------------------------- agreement with the cover

  function Chosen(steps: seq<Step>): seq<string> {
    if steps == [] then []
    else (match steps[0].chosen case None => [] case Some(name) => [name]) + Chosen(steps[1..])
  }

  lemma {:induction false} ChosenIsGreedy(tiles: seq<Tile>, sp: seq<Layer>, i: nat)
    requires AllUsable(tiles) && i <= |sp|
    ensures Chosen(Steps(tiles, sp, i)) == TileNames(Greedy(tiles, sp, i))
    decreases |sp| - i
  {
    if MatchesAt(tiles, sp, i) == [] {
      if i < |sp| { assert Steps(tiles, sp, i)[1..] == []; }
    } else {
      var t, rest := GreedyStep(tiles, sp, i);
      ChosenIsGreedy(tiles, sp, Next(i, t));
      assert Steps(tiles, sp, i)[1..] == Steps(tiles, sp, Next(i, t));
    }
  }

  /** Explain tells what Cover does: the same tiles, and the payload is left, perhaps under one address layer. */
  lemma {:induction false} ExplainAgreesWithCover(ip: NetIP, tiles: seq<Tile>, sp: seq<Layer>, st: EnvState)
    requires AllUsable(tiles) && sp != [] && Cover(ip, tiles, sp, st).0.Ok?
    ensures var c := Cover(ip, tiles, sp, st).0.value;
            && Chosen(Steps(tiles, sp, 0)) == c.applied
            && End(0, Greedy(tiles, sp, 0)) <= |sp|
            && var leftover := sp[End(0, Greedy(tiles, sp, 0))..];
               leftover == c.payload
               || (leftover != [] && leftover[1..] == c.payload
                   && AddressOf(ip, leftover[0]).Ok? && AddressOf(ip, leftover[0]).value != "")
  {
    hide LowerChain;
    ChosenIsGreedy(tiles, sp, 0);
    GreedyIsChain(tiles, sp, 0);
    ChainFits(tiles, sp, 0, Greedy(tiles, sp, 0));
  }
}
