/** What greedy selection is good for: it is optimal, does not depend on tile order, and loses no layer. */
module Selection {
  import opened Basics
  import opened Ast
  import opened Netip
  import opened Props
  import opened Env
  import opened Linux
  import opened Tile

  // ---------------------------------------------------------------- what is picked

  /** The layers from `i` on have the names of the pattern, and the guard allows their values. */
  ghost predicate Suits(t: Tile, sp: seq<Layer>, i: nat) {
    && i + |t.pattern| <= |sp| && (forall k :: 0 <= k < |t.pattern| ==> sp[i + k].name == t.pattern[k])
    && match t.guard case None => true case Some(allows) => allows(sp[i..i + |t.pattern|])
  }

  /** `tiles[m]` is picked: it fits, is no shorter than any that fits, and among the longest has the lowest priority
      and, that being equal, stands first. */
  ghost predicate Picked(tiles: seq<Tile>, sp: seq<Layer>, i: nat, m: nat) {
    && m < |tiles| && Suits(tiles[m], sp, i)
    && forall n :: 0 <= n < |tiles| && Suits(tiles[n], sp, i) ==>
         || |tiles[n].pattern| < |tiles[m].pattern|
         || (|tiles[n].pattern| == |tiles[m].pattern| && tiles[m].priority < tiles[n].priority)
         || (|tiles[n].pattern| == |tiles[m].pattern| && tiles[m].priority == tiles[n].priority && m <= n)
  }

  lemma MatchesSuits(t: Tile, sp: seq<Layer>, i: nat)
    ensures Matches(t, sp, i) <==> Suits(t, sp, i)
  {
  }

  lemma {:induction false} BestIsPicked(tiles: seq<Tile>, sp: seq<Layer>, i: nat) returns (m: nat)
    requires MatchesAt(tiles, sp, i) != []
    ensures m < |tiles| && Picked(tiles, sp, i, m) && tiles[m] == Best(MatchesAt(tiles, sp, i))
    decreases |tiles|
  {
    hide Matches, Suits, MatchesAt, Picked;
    MatchesNothing(sp, i);
    var n := |tiles| - 1;
    var front, t := tiles[..n], tiles[n];
    assert tiles == front + [t];
    MatchesAtSnoc(front, t, sp, i);
    MatchesSuits(t, sp, i);
    var cands := MatchesAt(front, sp, i);
    if cands == [] {
      m := n;
      assert cands + [t] == [t];
      OnlyPicked(tiles, front, t, sp, i);
    } else {
      var k := BestIsPicked(front, sp, i);
      assert (cands + [t])[..|cands|] == cands && cands + [] == cands;
      m := if Matches(t, sp, i) && Beats(t, front[k]) then n else k;
      PickedSnoc(front, t, sp, i, k, m);
      assert m < n ==> tiles[m] == front[k];
    }
  }

  lemma MatchesNothing(sp: seq<Layer>, i: nat)
    ensures MatchesAt([], sp, i) == []
  {
  }

  lemma OnlyPicked(tiles: seq<Tile>, front: seq<Tile>, t: Tile, sp: seq<Layer>, i: nat)
    requires tiles == front + [t] && MatchesAt(front, sp, i) == [] && Suits(t, sp, i)
    ensures Picked(tiles, sp, i, |front|)
  {
    hide Matches, Suits, MatchesAt;
    MatchesAtIs(front, sp, i);
    forall n | 0 <= n < |front| ensures !Suits(tiles[n], sp, i) {
      MatchesSuits(front[n], sp, i);
      assert front[n] in front;
    }
  }

  lemma PickedSnoc(front: seq<Tile>, t: Tile, sp: seq<Layer>, i: nat, k: nat, m: nat)
    requires k < |front| && Picked(front, sp, i, k)
    requires m == if Suits(t, sp, i) && Beats(t, front[k]) then |front| else k
    ensures Picked(front + [t], sp, i, m)
  {
    hide Suits;
    var tiles := front + [t];
    forall n | 0 <= n < |tiles| && Suits(tiles[n], sp, i)
      ensures || |tiles[n].pattern| < |tiles[m].pattern|
              || (|tiles[n].pattern| == |tiles[m].pattern| && tiles[m].priority < tiles[n].priority)
              || (|tiles[n].pattern| == |tiles[m].pattern| && tiles[m].priority == tiles[n].priority && m <= n)
    {
      if n < |front| { assert tiles[n] == front[n]; }
    }
  }

  /** Greedy stops exactly where nothing fits; where something does it takes the tile picked and goes on after it. */
  lemma {:induction false} GreedyPicks(tiles: seq<Tile>, sp: seq<Layer>, i: nat)
    requires AllUsable(tiles) && i <= |sp|
    ensures Greedy(tiles, sp, i) == [] <==> forall t :: t in tiles ==> !Suits(t, sp, i)
    ensures Greedy(tiles, sp, i) != [] ==> TakesPicked(tiles, sp, i, Greedy(tiles, sp, i))
  {
    hide Matches, Suits, MatchesAt, Picked, AllUsable;
    MatchesAtIs(tiles, sp, i);
    forall t | t in tiles ensures Matches(t, sp, i) <==> Suits(t, sp, i) { MatchesSuits(t, sp, i); }
    if MatchesAt(tiles, sp, i) != [] {
      var m := BestIsPicked(tiles, sp, i);
      var t, rest := GreedyStep(tiles, sp, i);
      assert Picked(tiles, sp, i, m) && [t] + rest == [tiles[m]] + rest;
    } else {
      forall t | t in tiles ensures !Suits(t, sp, i) { assert t !in MatchesAt(tiles, sp, i); }
    }
  }

  /** A chain that takes the tile picked, and is the greedy one from there on. */
  ghost predicate TakesPicked(tiles: seq<Tile>, sp: seq<Layer>, i: nat, chain: seq<Tile>)
    requires AllUsable(tiles)
  {
    exists m: nat :: Picked(tiles, sp, i, m) && chain == [tiles[m]] + Greedy(tiles, sp, i + |tiles[m].pattern|)
  }

  // ---------------------------------------------------------------- order independence

  /** The same tiles, in any order. */
  ghost predicate SameTiles(a: seq<Tile>, b: seq<Tile>) {
    forall t :: t in a <==> t in b
  }

  /** Two matches of one length at one place have the same pattern. */
  lemma SameLengthSamePattern(t: Tile, u: Tile, sp: seq<Layer>, i: nat)
    requires Matches(t, sp, i) && Matches(u, sp, i) && |t.pattern| == |u.pattern|
    ensures t.pattern == u.pattern
  {
    forall k | 0 <= k < |t.pattern| ensures t.pattern[k] == u.pattern[k] {
      assert sp[i + k].name == t.pattern[k];
    }
  }

  /** So in a loadable registry no two of them tie. */
  lemma NoTies(tiles: seq<Tile>, t: Tile, u: Tile, sp: seq<Layer>, i: nat)
    requires Unambiguous(tiles) && t in tiles && u in tiles
    requires Matches(t, sp, i) && Matches(u, sp, i) && !Beats(t, u) && !Beats(u, t)
    ensures t == u
  {
    SameLengthSamePattern(t, u, sp, i);
    var m, n :| 0 <= m < |tiles| && 0 <= n < |tiles| && tiles[m] == t && tiles[n] == u;
  }

  lemma {:induction false} SameGreedy(a: seq<Tile>, b: seq<Tile>, sp: seq<Layer>, i: nat)
    requires Unambiguous(a) && AllUsable(a) && AllUsable(b) && SameTiles(a, b) && i <= |sp|
    ensures Greedy(a, sp, i) == Greedy(b, sp, i)
    decreases |sp| - i
  {
    MatchesAtIs(a, sp, i);
    MatchesAtIs(b, sp, i);
    var ca, cb := MatchesAt(a, sp, i), MatchesAt(b, sp, i);
    if ca != [] { assert ca[0] in cb; }
    if cb != [] { assert cb[0] in ca; }
    if ca != [] {
      var t, rest := GreedyStep(a, sp, i);
      var u, more := GreedyStep(b, sp, i);
      assert t in cb && u in ca;
      NoTies(a, t, u, sp, i);
      SameGreedy(a, b, sp, Next(i, t));
    }
  }

  lemma {:induction false} SameLowering(ip: NetIP, a: seq<Tile>, b: seq<Tile>, chain: seq<Tile>, sp: seq<Layer>,
                                        i: nat, st: EnvState)
    requires AllUsable(a) && AllUsable(b) && Chain(a, sp, i, chain) && Chain(b, sp, i, chain)
    ensures LowerChain(ip, a, chain, sp, i, st) == LowerChain(ip, b, chain, sp, i, st)
    decreases chain
  {
    hide Lower;
    if chain != [] {
      var n := Next(i, chain[0]);
      var first := Lower(ip, chain[0].lower, sp[i..n], st);
      if first.ops.Ok? { SameLowering(ip, a, b, chain[1..], sp, n, first.env); }
    }
  }

  /** Registering the tiles in another order changes nothing: same tiles, script, payload and environment. */
  lemma {:induction false} OrderDoesNotMatter(ip: NetIP, a: seq<Tile>, b: seq<Tile>, sp: seq<Layer>, st: EnvState)
    requires Loadable(a) && AllUsable(a) && multiset(a) == multiset(b) && sp != []
    ensures AllUsable(b)
    ensures Cover(ip, a, sp, st) == Cover(ip, b, sp, st)
  {
    forall t ensures t in a <==> t in b {
      assert t in a <==> t in multiset(a);
      assert t in b <==> t in multiset(b);
    }
    LoadedIsUnambiguous(a);
    SameGreedy(a, b, sp, 0);
    GreedyIsChain(a, sp, 0);
    GreedyIsChain(b, sp, 0);
    SameLowering(ip, a, b, Greedy(a, sp, 0), sp, 0, st);
  }

  // ---------------------------------------------------------------- optimality

  /** No pattern is a proper beginning of another. */
  ghost predicate PrefixFree(tiles: seq<Tile>) {
    forall t, u :: t in tiles && u in tiles && t.pattern <= u.pattern ==> t.pattern == u.pattern
  }

  function Patterns(chain: seq<Tile>): (r: seq<seq<string>>)
    ensures |r| == |chain| && forall k :: 0 <= k < |chain| ==> r[k] == chain[k].pattern
  {
    if chain == [] then [] else [chain[0].pattern] + Patterns(chain[1..])
  }

  /** Two patterns matching at one place: the shorter is a beginning of the longer. */
  lemma ShorterIsPrefix(t: Tile, u: Tile, sp: seq<Layer>, i: nat)
    requires Matches(t, sp, i) && Matches(u, sp, i) && |t.pattern| <= |u.pattern|
    ensures t.pattern <= u.pattern
  {
    forall k | 0 <= k < |t.pattern| ensures t.pattern[k] == u.pattern[k] {
      assert sp[i + k].name == t.pattern[k];
    }
  }

  lemma SameHead(chain: seq<Tile>, greedy: seq<Tile>, i: nat, n: nat)
    requires chain != [] && greedy != [] && chain[0].pattern == greedy[0].pattern && n == Next(i, chain[0])
    requires Patterns(chain[1..]) <= Patterns(greedy[1..]) && End(n, chain[1..]) <= End(n, greedy[1..])
    ensures Patterns(chain) <= Patterns(greedy) && End(i, chain) <= End(i, greedy)
  {
  }

  /** With prefix-free patterns, a tile that matches has the pattern of the one greedy takes there. */
  lemma MatchedIsGreedy(tiles: seq<Tile>, sp: seq<Layer>, i: nat, t: Tile) returns (u: Tile, rest: seq<Tile>)
    requires AllUsable(tiles) && PrefixFree(tiles) && t in tiles && Matches(t, sp, i)
    ensures u.pattern == t.pattern && rest == Greedy(tiles, sp, Next(i, t)) && Greedy(tiles, sp, i) == [u] + rest
  {
    hide Greedy, Matches, MatchesAt;
    MatchesAtIs(tiles, sp, i);
    assert t in MatchesAt(tiles, sp, i);
    u, rest := GreedyStep(tiles, sp, i);
    ShorterIsPrefix(t, u, sp, i);
  }

  /** With prefix-free patterns every way of matching tiles begins the greedy way, and takes no more layers. */
  lemma {:induction false} EveryChainIsGreedy(tiles: seq<Tile>, sp: seq<Layer>, i: nat, chain: seq<Tile>)
    requires AllUsable(tiles) && PrefixFree(tiles) && Chain(tiles, sp, i, chain)
    ensures Patterns(chain) <= Patterns(Greedy(tiles, sp, i))
    ensures End(i, chain) <= End(i, Greedy(tiles, sp, i))
    decreases chain
  {
    hide Greedy, Matches, AllUsable, PrefixFree;
    if chain != [] {
      var u, rest := MatchedIsGreedy(tiles, sp, i, chain[0]);
      var n := Next(i, chain[0]);
      EveryChainIsGreedy(tiles, sp, n, chain[1..]);
      assert ([u] + rest)[1..] == rest;
      SameHead(chain, [u] + rest, i, n);
    }
  }

  /** Every chain on every spine begins the greedy chain. */
  ghost predicate ChainsAreGreedy(tiles: seq<Tile>)
    requires AllUsable(tiles)
  {
    forall sp, chain :: Chain(tiles, sp, 0, chain) ==> Patterns(chain) <= Patterns(Greedy(tiles, sp, 0))
  }

  /** For tiles without guards, being prefix-free is exactly what makes the cover the only one. */
  lemma {:induction false} GreedyUniqueExactly(tiles: seq<Tile>)
    requires AllUsable(tiles) && forall t :: t in tiles ==> t.guard == None
    ensures ChainsAreGreedy(tiles) <==> PrefixFree(tiles)
  {
    if PrefixFree(tiles) {
      forall sp, chain | Chain(tiles, sp, 0, chain) ensures Patterns(chain) <= Patterns(Greedy(tiles, sp, 0)) {
        EveryChainIsGreedy(tiles, sp, 0, chain);
      }
    }
    if ChainsAreGreedy(tiles) {
      forall t, u | t in tiles && u in tiles && t.pattern <= u.pattern ensures t.pattern == u.pattern {
        PrefixesAgree(tiles, t, u);
      }
    }
  }

  lemma {:induction false} PrefixesAgree(tiles: seq<Tile>, t: Tile, u: Tile)
    requires AllUsable(tiles) && ChainsAreGreedy(tiles)
    requires t in tiles && u in tiles && t.guard == None && u.guard == None && t.pattern <= u.pattern
    ensures t.pattern == u.pattern
  {
    var sp := seq(|u.pattern|, k requires 0 <= k < |u.pattern| => Layer(u.pattern[k], [], Pos(0, 0)));
    BothMatch(t, u, sp);
    assert Usable(t) && Usable(u);
    hide Matches, Usable, Greedy, MatchesAt;
    assert Chain(tiles, sp, Next(0, t), []);
    assert Chain(tiles, sp, 0, [t]);
    assert Patterns([t])[0] == t.pattern;
    MatchesAtIs(tiles, sp, 0);
    assert u in MatchesAt(tiles, sp, 0);
    var w, rest := GreedyStep(tiles, sp, 0);
    assert Patterns([t]) <= Patterns(Greedy(tiles, sp, 0));
    assert Patterns([w] + rest)[0] == w.pattern;
    assert !Beats(u, w);
  }

  lemma BothMatch(t: Tile, u: Tile, sp: seq<Layer>)
    requires t.guard == None && u.guard == None && t.pattern <= u.pattern
    requires |sp| == |u.pattern| && forall k :: 0 <= k < |sp| ==> sp[k].name == u.pattern[k]
    ensures Matches(t, sp, 0) && Matches(u, sp, 0)
  {
    assert forall k :: 0 <= k < |t.pattern| ==> u.pattern[k] == t.pattern[k];
  }

  /** A registry whose greedy cover is not the longest: ab, abc and cd on the layers a, b, c, d. */
  function Greed(): seq<Tile> {
    var none := (sub: seq<Layer>, st: EnvState) => Lowered(Ok([]), st);
    [Tile("AB", ["a", "b"], 0, None, Custom(none)),
     Tile("ABC", ["a", "b", "c"], 0, None, Custom(none)),
     Tile("CD", ["c", "d"], 0, None, Custom(none))]
  }

  function Abcd(): seq<Layer> {
    var p := Pos(1, 1);
    [Layer("a", [], p), Layer("b", [], p), Layer("c", [], p), Layer("d", [], p)]
  }

  lemma GreedMatches()
    ensures var sp, ab, abc, cd := Abcd(), Greed()[0], Greed()[1], Greed()[2];
            && Matches(ab, sp, 0) && Matches(abc, sp, 0) && !Matches(cd, sp, 0) && Matches(cd, sp, 2)
            && !Matches(ab, sp, 3) && !Matches(abc, sp, 3) && !Matches(cd, sp, 3)
  {
    var sp, cd := Abcd(), Greed()[2];
    assert sp[0].name[0] == 'a' && cd.pattern[0][0] == 'c' && sp[0 + 0].name != cd.pattern[0];
  }

  lemma MatchesAtCons(t: Tile, rest: seq<Tile>, sp: seq<Layer>, i: nat)
    ensures MatchesAt([t] + rest, sp, i) == (if Matches(t, sp, i) then [t] else []) + MatchesAt(rest, sp, i)
  {
    assert ([t] + rest)[1..] == rest;
  }

  lemma GreedyTakesThree()
    ensures AllUsable(Greed()) && Greedy(Greed(), Abcd(), 0) == [Greed()[1]]
  {
    var tiles, sp := Greed(), Abcd();
    var ab, abc, cd := tiles[0], tiles[1], tiles[2];
    GreedMatches();
    assert tiles == [ab] + ([abc] + ([cd] + []));
    forall i | i == 0 || i == 3
      ensures MatchesAt(tiles, sp, i) == (if i == 0 then [ab, abc] else [])
    {
      MatchesAtCons(cd, [], sp, i);
      MatchesAtCons(abc, [cd] + [], sp, i);
      MatchesAtCons(ab, [abc] + ([cd] + []), sp, i);
    }
    assert [ab, abc][..1] == [ab];
    assert Best([ab]) == ab && Best([ab, abc]) == abc;
    var t, rest := GreedyStep(tiles, sp, 0);
    assert Next(0, t) == 3;
  }

  lemma GreedLoads()
    ensures Loadable(Greed())
  {
    hide Loadable;
    GreedPlain();
    GreedTold();
    LoadableExactly(Greed());
  }

  lemma GreedPlain()
    ensures PlainNames(Greed())
  {
    forall t, s | t in Greed() && s in t.pattern ensures '\0' !in s {
      assert s in ["a", "b", "c", "d"];
    }
  }

  lemma GreedTold()
    ensures Unambiguous(Greed()) && forall t :: t in Greed() ==> t.pattern != [] && !t.lower.NoLower?
  {
    assert "a"[0] == 'a' && "c"[0] == 'c';
  }

  /** Longest match covers three layers there, where four can be covered. */
  lemma {:induction false} GreedyIsNotAlwaysLongest()
    ensures Loadable(Greed()) && AllUsable(Greed())
    ensures End(0, Greedy(Greed(), Abcd(), 0)) == 3
    ensures exists chain :: Chain(Greed(), Abcd(), 0, chain) && End(0, chain) == 4
  {
    hide Greedy, Matches;
    var tiles, sp := Greed(), Abcd();
    var ab, abc, cd := tiles[0], tiles[1], tiles[2];
    GreedLoads();
    GreedMatches();
    GreedyTakesThree();
    assert End(0, [abc]) == 3;
    var chain := [ab, cd];
    assert chain[1..] == [cd] && [cd][1..] == [];
    assert Next(0, ab) == 2 && Next(2, cd) == 4;
    assert Chain(tiles, sp, 4, []);
    assert Chain(tiles, sp, 2, [cd]);
    assert Chain(tiles, sp, 0, chain);
    assert End(2, [cd]) == 4;
    assert End(0, chain) == 4;
  }

  // ---------------------------------------------------------------- the shipped registry

  /** The six shipped tiles, in registration order. */
  function Shipped(): (tiles: seq<Tile>)
    ensures |tiles| == 6
  {
    [Tile("IPIP", ["ipv4", "ipv4"], 0, None, IPIP),
     Tile("GRE", ["ipv4", "gre", "ipv4"], 0, None, GRE),
     Tile("GRETAP", ["ipv4", "gre", "ethernet"], 0, None, GRETAP),
     Tile("VXLAN", ["ipv4", "udp", "vxlan", "ethernet"], 0, None, VXLAN),
     Tile("VLAN", ["ethernet", "vlan"], 0, None, VLAN),
     Tile("WireGuard", ["ipv4", "udp", "wireguard", "ipv4"], 0, None, WireGuard)]
  }

  lemma ShippedUsable()
    ensures AllUsable(Shipped())
  {
  }

  lemma ShippedUnambiguous()
    ensures Unambiguous(Shipped())
  {
    var tiles := Shipped();
    forall i, j | 0 <= i < j < 6 ensures tiles[i].pattern != tiles[j].pattern {
      ShippedTold(i, j);
    }
  }

  /** Two shipped patterns differ in length, or in a layer where they can be compared. */
  lemma ShippedTold(i: nat, j: nat)
    requires i < 6 && j < 6 && i != j
    ensures !(Shipped()[i].pattern <= Shipped()[j].pattern)
  {
    var p, q := Shipped()[i].pattern, Shipped()[j].pattern;
    assert "ethernet"[0] == 'e' && "ipv4"[0] == 'i' && "gre"[0] == 'g' && "udp"[0] == 'u' && "vlan"[1] == 'l'
        && "vxlan"[1] == 'x'
        && "wireguard"[0] == 'w';
    assert |p| > |q| || p[0] != q[0] || p[1] != q[1] || (|p| > 2 && p[2] != q[2]);
  }

  lemma ShippedPlain()
    ensures PlainNames(Shipped())
  {
    forall t, s | t in Shipped() && s in t.pattern ensures '\0' !in s {
      assert s in ["ipv4", "gre", "ethernet", "udp", "vxlan", "vlan", "wireguard"];
    }
  }

  /** The shipped tiles load, and none of their patterns begins another. */
  lemma ShippedPrefixFree()
    ensures PrefixFree(Shipped()) && AllUsable(Shipped()) && Loadable(Shipped())
  {
    var tiles := Shipped();
    ShippedUsable();
    ShippedUnambiguous();
    ShippedPlain();
    LoadableExactly(tiles);
    forall t, u | t in tiles && u in tiles && t.pattern <= u.pattern ensures t.pattern == u.pattern {
      var i, j :| 0 <= i < 6 && 0 <= j < 6 && t == tiles[i] && u == tiles[j];
      if i != j { ShippedTold(i, j); }
    }
  }

  /** So the cover pktc finds is the only maximal one. */
  lemma ShippedCoverIsUnique(sp: seq<Layer>, chain: seq<Tile>)
    requires Chain(Shipped(), sp, 0, chain)
    ensures AllUsable(Shipped())
    ensures Patterns(chain) <= Patterns(Greedy(Shipped(), sp, 0))
    ensures End(0, chain) <= End(0, Greedy(Shipped(), sp, 0))
  {
    ShippedPrefixFree();
    EveryChainIsGreedy(Shipped(), sp, 0, chain);
  }

  /** The names of the layers from `i` on begin so. */
  ghost predicate NamesRun(sp: seq<Layer>, i: nat, names: seq<string>) {
    i + |names| <= |sp| && forall k :: 0 <= k < |names| ==> sp[i + k].name == names[k]
  }

  /** The tile taken at `i` has this name, takes so many layers and is lowered so. */
  ghost predicate Takes(sp: seq<Layer>, i: nat, name: string, length: nat, l: Lowering) {
    && AllUsable(Shipped()) && Greedy(Shipped(), sp, i) != []
    && var t := Greedy(Shipped(), sp, i)[0]; t.name == name && |t.pattern| == length && t.lower == l
  }

  lemma ShippedTaken(sp: seq<Layer>, i: nat, j: nat)
    requires j < 6 && i <= |sp| && NamesRun(sp, i, Shipped()[j].pattern)
    ensures Takes(sp, i, Shipped()[j].name, |Shipped()[j].pattern|, Shipped()[j].lower)
  {
    hide Greedy, MatchesAt;
    ShippedPrefixFree();
    var t := Shipped()[j];
    assert Matches(t, sp, i) && t in Shipped();
    MatchesAtIs(Shipped(), sp, i);
    var u, rest := GreedyStep(Shipped(), sp, i);
    assert u in Shipped() && Matches(u, sp, i);
    var k :| 0 <= k < 6 && u == Shipped()[k];
    if k != j {
      ShippedTold(j, k);
      ShippedTold(k, j);
      hide Matches, Shipped;
      if |t.pattern| <= |u.pattern| { ShorterIsPrefix(t, u, sp, i); } else { ShorterIsPrefix(u, t, sp, i); }
    }
  }

  /** Which runs of layers pktc compiles, and to what; and it stops where none of them begins. */
  lemma {:induction false} ShippedTakes(sp: seq<Layer>, i: nat)
    requires i <= |sp|
    ensures NamesRun(sp, i, ["ipv4", "ipv4"]) ==> Takes(sp, i, "IPIP", 2, IPIP)
    ensures NamesRun(sp, i, ["ipv4", "gre", "ipv4"]) ==> Takes(sp, i, "GRE", 3, GRE)
    ensures NamesRun(sp, i, ["ipv4", "gre", "ethernet"]) ==> Takes(sp, i, "GRETAP", 3, GRETAP)
    ensures NamesRun(sp, i, ["ipv4", "udp", "vxlan", "ethernet"]) ==> Takes(sp, i, "VXLAN", 4, VXLAN)
    ensures NamesRun(sp, i, ["ethernet", "vlan"]) ==> Takes(sp, i, "VLAN", 2, VLAN)
    ensures NamesRun(sp, i, ["ipv4", "udp", "wireguard", "ipv4"]) ==> Takes(sp, i, "WireGuard", 4, WireGuard)
    ensures AllUsable(Shipped())
    ensures Greedy(Shipped(), sp, i) != [] ==>
              || NamesRun(sp, i, ["ipv4", "ipv4"]) || NamesRun(sp, i, ["ipv4", "gre", "ipv4"])
              || NamesRun(sp, i, ["ipv4", "gre", "ethernet"]) || NamesRun(sp, i, ["ipv4", "udp", "vxlan", "ethernet"])
              || NamesRun(sp, i, ["ethernet", "vlan"]) || NamesRun(sp, i, ["ipv4", "udp", "wireguard", "ipv4"])
  {
    hide Greedy, MatchesAt, Takes, NamesRun, Matches;
    ShippedUsable();
    forall j | 0 <= j < 6 && NamesRun(sp, i, Shipped()[j].pattern)
      ensures Takes(sp, i, Shipped()[j].name, |Shipped()[j].pattern|, Shipped()[j].lower)
    {
      ShippedTaken(sp, i, j);
    }
    SixTiles();
    if Greedy(Shipped(), sp, i) != [] {
      var j := OneOfSix(sp, i);
    }
  }

  lemma SixTiles()
    ensures Shipped()[0].pattern == ["ipv4", "ipv4"] && Shipped()[1].pattern == ["ipv4", "gre", "ipv4"]
    ensures Shipped()[2].pattern == ["ipv4", "gre", "ethernet"] && Shipped()[4].pattern == ["ethernet", "vlan"]
    ensures Shipped()[3].pattern == ["ipv4", "udp", "vxlan", "ethernet"]
    ensures Shipped()[5].pattern == ["ipv4", "udp", "wireguard", "ipv4"]
  {
  }

  lemma OneOfSix(sp: seq<Layer>, i: nat) returns (j: nat)
    requires i <= |sp| && AllUsable(Shipped()) && Greedy(Shipped(), sp, i) != []
    ensures j < 6 && NamesRun(sp, i, Shipped()[j].pattern)
  {
    GreedyIsChain(Shipped(), sp, i);
    var t := Greedy(Shipped(), sp, i)[0];
    hide Greedy;
    assert t in Shipped() && Matches(t, sp, i);
    var k :| 0 <= k < 6 && t == Shipped()[k];
    j := k;
  }

  // ---------------------------------------------------------------- no layer is lost

  /** The sub-spines a chain hands to its lowerings. */
  function Parts(sp: seq<Layer>, i: nat, chain: seq<Tile>): seq<seq<Layer>>
    requires End(i, chain) <= |sp|
    decreases chain
  {
    if chain == [] then [] else [sp[i..Next(i, chain[0])]] + Parts(sp, Next(i, chain[0]), chain[1..])
  }

  function Flatten<T>(parts: seq<seq<T>>): seq<T> {
    if parts == [] then [] else parts[0] + Flatten(parts[1..])
  }

  lemma {:induction false} PartsConcatenate(sp: seq<Layer>, i: nat, chain: seq<Tile>)
    requires End(i, chain) <= |sp|
    ensures Flatten(Parts(sp, i, chain)) == sp[i..End(i, chain)]
    decreases chain
  {
    if chain != [] {
      var n := Next(i, chain[0]);
      PartsConcatenate(sp, n, chain[1..]);
      assert Parts(sp, i, chain)[1..] == Parts(sp, n, chain[1..]);
      assert sp[i..End(i, chain)] == sp[i..n] + sp[n..End(n, chain[1..])];
    }
  }

  /** On success the layers lowered, at most one address layer, and the payload are the spine, in order. */
  lemma {:induction false} LayersConserved(ip: NetIP, tiles: seq<Tile>, sp: seq<Layer>, st: EnvState)
    returns (addr: seq<Layer>)
    requires AllUsable(tiles) && sp != [] && Cover(ip, tiles, sp, st).0.Ok?
    ensures End(0, Greedy(tiles, sp, 0)) <= |sp|
    ensures sp == Flatten(Parts(sp, 0, Greedy(tiles, sp, 0))) + addr + Cover(ip, tiles, sp, st).0.value.payload
    ensures |addr| <= 1 && forall n :: n in addr ==> AddressOf(ip, n).Ok? && AddressOf(ip, n).value != ""
    ensures Cover(ip, tiles, sp, st).0.value.applied == TileNames(Greedy(tiles, sp, 0)) != []
  {
    hide LowerChain, Greedy, Chain, BringUp, Since, TileNames, Flatten, Parts, AddressOf, Terminal;
    var chain := Greedy(tiles, sp, 0);
    GreedyIsChain(tiles, sp, 0);
    ChainFits(tiles, sp, 0, chain);
    PartsConcatenate(sp, 0, chain);
    TileNamesLength(chain);
    var n := End(0, chain);
    var low := LowerGreedy(ip, tiles, sp, 0, st);
    var c := Cover(ip, tiles, sp, st).0.value;
    assert Finish(ip, sp, n, low.env, |st.created|, low.ops.value, TileNames(chain)) == Ok(c);
    addr := TerminalSplits(ip, sp[n..], low.env.dev);
    assert sp == sp[0..n] + sp[n..];
    assert sp[0..n] + (addr + c.payload) == sp[0..n] + addr + c.payload;
  }

  /** What is left over is a layer that gave an address, if there was one, and the payload. */
  lemma TerminalSplits(ip: NetIP, rest: seq<Layer>, dev: string) returns (addr: seq<Layer>)
    requires Terminal(ip, rest, dev).Ok?
    ensures rest == addr + Terminal(ip, rest, dev).value.1
    ensures |addr| <= 1 && forall n :: n in addr ==> AddressOf(ip, n).Ok? && AddressOf(ip, n).value != ""
  {
    hide AddressOf;
    addr := if Terminal(ip, rest, dev).value.1 == rest then [] else rest[..1];
    assert rest != [] ==> rest == rest[..1] + rest[1..];
  }
}
