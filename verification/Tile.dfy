/** Instruction selection: registries of tiles, and the greedy longest-match cover of a spine. */
module Tile {
  import opened Basics
  import opened Decimal
  import opened Ast
  import opened Netip
  import opened Props
  import opened Env
  import opened Machine
  import opened Linux

  /** How a tile lowers what it matches: one of the six shapes, anything else, or nothing at all. */
  datatype Lowering =
    | NoLower | IPIP | GRE | GRETAP | VXLAN | VLAN | WireGuard
    | Custom(run: (seq<Layer>, EnvState) -> Lowered)

  datatype Tile = Tile(
    name: string,
    pattern: seq<string>,
    priority: int,                        // lower wins a tie
    guard: Option<seq<Layer> -> bool>,
    lower: Lowering)

  /** How many layers a lowering looks at. */
  function Arity(l: Lowering): nat {
    match l
    case IPIP => 2
    case GRE => 3
    case GRETAP => 3
    case VXLAN => 3
    case VLAN => 2
    case WireGuard => 4
    case _ => 0
  }

  function Lower(ip: NetIP, l: Lowering, sub: seq<Layer>, st: EnvState): Lowered
    requires |sub| >= Arity(l)
  {
    match l
    case NoLower => Lowered(Err(Unplaced(NoLowerFunction)), st)
    case IPIP => IPIPOps(ip, sub, st)
    case GRE => GREOps(ip, sub, st)
    case GRETAP => GRETAPOps(ip, sub, st)
    case VXLAN => VXLANOps(ip, sub, st)
    case VLAN => VLANOps(sub, st)
    case WireGuard => WireGuardOps(ip, sub, st)
    case Custom(run) => run(sub, st)
  }

  /** A tile that can be used: it takes layers, and at least as many as its lowering reads. */
  predicate Usable(t: Tile) {
    t.pattern != [] && !t.lower.NoLower? && |t.pattern| >= Arity(t.lower)
  }

  // ---------------------------------------------------------------- registries

  /** What tells tiles apart when a registry is loaded. */
  function LoadKey(t: Tile): string {
    Join(t.pattern, "\0") + "|" + SignedDec(t.priority)
  }

  /** No two tiles share a pattern and a priority. */
  ghost predicate Unambiguous(tiles: seq<Tile>) {
    forall i, j :: 0 <= i < j < |tiles| ==>
      tiles[i].pattern != tiles[j].pattern || tiles[i].priority != tiles[j].priority
  }

  ghost predicate Loadable(tiles: seq<Tile>) {
    && (forall t :: t in tiles ==> t.pattern != [] && !t.lower.NoLower?)
    && (forall i, j :: 0 <= i < j < |tiles| ==> LoadKey(tiles[i]) != LoadKey(tiles[j]))
  }

  /** Why the i-th tile is refused when it is the first that is. */
  function LoadFault(tiles: seq<Tile>, i: nat): Reason
    requires i < |tiles|
  {
    if tiles[i].pattern == [] then EmptyPattern else if tiles[i].lower.NoLower? then NoLowerFunction else Ambiguous
  }

  /** Validate a tile set at load time. */
  method NewRegistry(tiles: seq<Tile>) returns (r: Result<seq<Tile>>)
    ensures r.Ok? <==> Loadable(tiles)
    ensures r.Ok? ==> r.value == tiles
    ensures r.Err? ==> exists i :: 0 <= i < |tiles| && Loadable(tiles[..i]) && r.error == Unplaced(LoadFault(tiles, i))
  {
    hide LoadKey;
    var seen: map<string, string> := map[];
    for i := 0 to |tiles|
      invariant Loadable(tiles[..i])
      invariant forall k :: k in seen <==> exists j :: 0 <= j < i && k == LoadKey(tiles[j])
    {
      var t := tiles[i];
      assert t in tiles;
      if t.pattern == [] {
        return Err(Unplaced(EmptyPattern));
      }
      if t.lower.NoLower? {
        return Err(Unplaced(NoLowerFunction));
      }
      var k := LoadKey(t);
      if k in seen {
        return Err(Unplaced(Ambiguous));
      }
      seen := seen[k := t.name];
      assert tiles[..i + 1] == tiles[..i] + [t];
    }
    assert tiles[..|tiles|] == tiles;
    return Ok(tiles);
  }

  lemma LoadedIsUnambiguous(tiles: seq<Tile>)
    requires Loadable(tiles)
    ensures Unambiguous(tiles)
  {
    forall i, j | 0 <= i < j < |tiles|
      ensures tiles[i].pattern != tiles[j].pattern || tiles[i].priority != tiles[j].priority
    {
      assert LoadKey(tiles[i]) != LoadKey(tiles[j]);
    }
  }

  /** No layer name holds the separator load keys are built with. */
  ghost predicate PlainNames(tiles: seq<Tile>) {
    forall t :: t in tiles ==> forall s :: s in t.pattern ==> '\0' !in s
  }

  lemma {:induction false} SplitAt(a: string, b: string, x: string, y: string, c: char)
    requires c !in a && c !in x && a + [c] + b == x + [c] + y
    ensures a == x && b == y
  {
    IndexOfAppend(a, b, c);
    IndexOfAppend(x, y, c);
    assert a == (a + [c] + b)[..|a|] == x;
    assert b == (a + [c] + b)[|a| + 1..] == y;
  }

  lemma {:induction false} JoinInjective(p: seq<string>, q: seq<string>)
    requires p != [] && q != [] && Join(p, "\0") == Join(q, "\0")
    requires forall s :: s in p || s in q ==> '\0' !in s
    ensures p == q
    decreases |p|
  {
    JoinHasSeparator(p);
    JoinHasSeparator(q);
    if |p| > 1 {
      assert Join(p, "\0") == p[0] + ['\0'] + Join(p[1..], "\0");
      assert Join(q, "\0") == q[0] + ['\0'] + Join(q[1..], "\0");
      SplitAt(p[0], Join(p[1..], "\0"), q[0], Join(q[1..], "\0"), '\0');
      JoinInjective(p[1..], q[1..]);
      assert p == [p[0]] + p[1..] && q == [q[0]] + q[1..];
    } else {
      assert p == [p[0]] && q == [q[0]];
    }
  }

  lemma {:induction false} JoinHasSeparator(p: seq<string>)
    requires p != [] && forall s :: s in p ==> '\0' !in s
    ensures '\0' in Join(p, "\0") <==> |p| > 1
  {
    if |p| > 1 {
      assert Join(p, "\0")[|p[0]|] == '\0';
    } else {
      assert p[0] in p;
    }
  }

  /** The part of a load key before its last bar is the pattern, the part after it the priority. */
  lemma {:induction false} LoadKeyInjective(t: Tile, u: Tile)
    requires t.pattern != [] && u.pattern != [] && LoadKey(t) == LoadKey(u)
    requires forall s :: s in t.pattern || s in u.pattern ==> '\0' !in s
    ensures t.pattern == u.pattern && t.priority == u.priority
  {
    var a, b, x, y := Join(t.pattern, "\0"), SignedDec(t.priority), Join(u.pattern, "\0"), SignedDec(u.priority);
    PriorityHasNoBar(t.priority);
    PriorityHasNoBar(u.priority);
    LastBar(a, b, x, y);
    JoinInjective(t.pattern, u.pattern);
    SignedDecInjective(t.priority, u.priority);
  }

  lemma PriorityHasNoBar(n: int)
    ensures '|' !in SignedDec(n)
  {
    var d := Dec(if n < 0 then -n else n);
    assert forall k :: 0 <= k < |d| ==> IsDigit(d[k], 10);
  }

  lemma LastBar(a: string, b: string, x: string, y: string)
    requires '|' !in b && '|' !in y && a + "|" + b == x + "|" + y
    ensures a == x && b == y
  {
    var s := a + "|" + b;
    assert s == x + "|" + y;
    assert s[|a|] == '|' && s[|x|] == '|';
    forall k | |a| < k < |s| ensures s[k] != '|' {
      assert s[k] == b[k - |a| - 1];
    }
    forall k | |x| < k < |s| ensures s[k] != '|' {
      assert s[k] == y[k - |x| - 1];
    }
    assert |a| == |x|;
    assert a == s[..|a|] == x;
    assert b == s[|a| + 1..] == y;
  }

  /** With ordinary names, a registry is refused for ambiguity exactly when two tiles are ambiguous. */
  lemma {:induction false} LoadableExactly(tiles: seq<Tile>)
    requires PlainNames(tiles)
    ensures Loadable(tiles) <==> Unambiguous(tiles) && forall t :: t in tiles ==> t.pattern != [] && !t.lower.NoLower?
  {
    if Loadable(tiles) {
      LoadedIsUnambiguous(tiles);
    } else if Unambiguous(tiles) && forall t :: t in tiles ==> t.pattern != [] && !t.lower.NoLower? {
      forall i, j | 0 <= i < j < |tiles| ensures LoadKey(tiles[i]) != LoadKey(tiles[j]) {
        if LoadKey(tiles[i]) == LoadKey(tiles[j]) { LoadKeyInjective(tiles[i], tiles[j]); }
      }
    }
  }

  // ---------------------------------------------------------------- matching

  predicate NamesMatch(pattern: seq<string>, sp: seq<Layer>, i: nat) {
    i + |pattern| <= |sp| && forall k :: 0 <= k < |pattern| ==> sp[i + k].name == pattern[k]
  }

  predicate Matches(t: Tile, sp: seq<Layer>, i: nat) {
    NamesMatch(t.pattern, sp, i) && (t.guard.Some? ==> t.guard.value(sp[i..i + |t.pattern|]))
  }

  /** Every tile that matches the spine at `i`, in registry order. */
  function MatchesAt(tiles: seq<Tile>, sp: seq<Layer>, i: nat): seq<Tile> {
    if tiles == [] then []
    else (if Matches(tiles[0], sp, i) then [tiles[0]] else []) + MatchesAt(tiles[1..], sp, i)
  }

  lemma {:induction false} MatchesAtIs(tiles: seq<Tile>, sp: seq<Layer>, i: nat)
    ensures forall t :: t in MatchesAt(tiles, sp, i) <==> t in tiles && Matches(t, sp, i)
  {
    if tiles != [] {
      assert tiles == [tiles[0]] + tiles[1..];
      MatchesAtIs(tiles[1..], sp, i);
    }
  }

  lemma {:induction false} MatchesAtSnoc(tiles: seq<Tile>, t: Tile, sp: seq<Layer>, i: nat)
    ensures MatchesAt(tiles + [t], sp, i) == MatchesAt(tiles, sp, i) + (if Matches(t, sp, i) then [t] else [])
  {
    if tiles == [] {
      assert tiles + [t] == [t];
    } else {
      assert (tiles + [t])[1..] == tiles[1..] + [t];
      MatchesAtSnoc(tiles[1..], t, sp, i);
    }
  }

  method MatchAt(tiles: seq<Tile>, sp: seq<Layer>, i: nat) returns (out: seq<Tile>)
    ensures out == MatchesAt(tiles, sp, i)
  {
    out := [];
    for n := 0 to |tiles|
      invariant out == MatchesAt(tiles[..n], sp, i)
    {
      var t := tiles[n];
      assert tiles[..n + 1] == tiles[..n] + [t];
      MatchesAtSnoc(tiles[..n], t, sp, i);
      if i + |t.pattern| > |sp| {
        continue;
      }
      var ok := true;
      for k := 0 to |t.pattern|
        invariant ok && forall j :: 0 <= j < k ==> sp[i + j].name == t.pattern[j]
      {
        if sp[i + k].name != t.pattern[k] {
          ok := false;
          break;
        }
      }
      if !ok {
        continue;
      }
      if t.guard.Some? && !t.guard.value(sp[i..i + |t.pattern|]) {
        continue;
      }
      out := out + [t];
    }
    assert tiles[..|tiles|] == tiles;
  }

  /** `t` beats `pick`: longer, or as long with a lower priority. */
  predicate Beats(t: Tile, pick: Tile) {
    |t.pattern| > |pick.pattern| || (|t.pattern| == |pick.pattern| && t.priority < pick.priority)
  }

  /** The longest match; among those the lowest priority, then the first. */
  function Best(cands: seq<Tile>): (pick: Tile)
    requires cands != []
    ensures pick in cands
    ensures forall t :: t in cands ==> !Beats(t, pick)
  {
    if |cands| == 1 then cands[0]
    else
      var prior := Best(cands[..|cands| - 1]);
      var t := cands[|cands| - 1];
      assert cands == cands[..|cands| - 1] + [t];
      if Beats(t, prior) then t else prior
  }

  method BestOf(cands: seq<Tile>) returns (pick: Tile)
    requires cands != []
    ensures pick == Best(cands)
  {
    pick := cands[0];
    for n := 1 to |cands|
      invariant pick == Best(cands[..n])
    {
      var t := cands[n];
      assert cands[..n + 1][..n] == cands[..n];
      if |t.pattern| > |pick.pattern| {
        pick := t;
      } else if |t.pattern| == |pick.pattern| && t.priority < pick.priority {
        pick := t;
      }
    }
    assert cands[..|cands|] == cands;
  }

  // ---------------------------------------------------------------- the greedy segmentation

  ghost predicate AllUsable(tiles: seq<Tile>) {
    forall t :: t in tiles ==> Usable(t)
  }

  /** The layer after those a tile takes at `i`. */
  function Next(i: nat, t: Tile): nat {
    i + |t.pattern|
  }

  /** The layer after those a whole chain takes. */
  function End(i: nat, chain: seq<Tile>): (n: nat)
    ensures n >= i
    decreases chain
  {
    if chain == [] then i else End(Next(i, chain[0]), chain[1..])
  }

  /** Each tile of `chain` matches where the one before it stopped. */
  ghost predicate Chain(tiles: seq<Tile>, sp: seq<Layer>, i: nat, chain: seq<Tile>)
    decreases chain
  {
    i <= |sp| && (chain == [] ||
    (chain[0] in tiles && Matches(chain[0], sp, i) && Chain(tiles, sp, Next(i, chain[0]), chain[1..])))
  }

  /** The tiles greedy longest-match applies from layer `i` on. */
  ghost function Greedy(tiles: seq<Tile>, sp: seq<Layer>, i: nat): seq<Tile>
    requires AllUsable(tiles)
    decreases if i < |sp| then |sp| - i else 0
  {
    var cands := MatchesAt(tiles, sp, i);
    if cands == [] then []
    else
      var t := Best(cands);
      MatchesAtIs(tiles, sp, i);
      [t] + Greedy(tiles, sp, Next(i, t))
  }

  /** One step of the greedy chain. */
  lemma GreedyStep(tiles: seq<Tile>, sp: seq<Layer>, i: nat) returns (t: Tile, rest: seq<Tile>)
    requires AllUsable(tiles) && MatchesAt(tiles, sp, i) != []
    ensures t == Best(MatchesAt(tiles, sp, i)) && i < Next(i, t) <= |sp|
    ensures rest == Greedy(tiles, sp, Next(i, t)) && Greedy(tiles, sp, i) == [t] + rest
    ensures ([t] + rest)[0] == t && ([t] + rest)[1..] == rest
    ensures End(i, Greedy(tiles, sp, i)) == End(Next(i, t), rest)
    ensures t in tiles && Matches(t, sp, i) && Usable(t)
  {
    t := Best(MatchesAt(tiles, sp, i));
    MatchesAtIs(tiles, sp, i);
    rest := Greedy(tiles, sp, Next(i, t));
  }

  lemma GreedyEnds(tiles: seq<Tile>, sp: seq<Layer>, i: nat)
    requires AllUsable(tiles) && MatchesAt(tiles, sp, i) == []
    ensures Greedy(tiles, sp, i) == [] && End(i, Greedy(tiles, sp, i)) == i
  {
  }

  /** The greedy chain matches tile after tile, and no tile matches where it stops. */
  lemma {:induction false} GreedyIsChain(tiles: seq<Tile>, sp: seq<Layer>, i: nat)
    requires AllUsable(tiles) && i <= |sp|
    ensures Chain(tiles, sp, i, Greedy(tiles, sp, i))
    ensures MatchesAt(tiles, sp, End(i, Greedy(tiles, sp, i))) == []
    decreases |sp| - i
  {
    if MatchesAt(tiles, sp, i) != [] {
      var t, rest := GreedyStep(tiles, sp, i);
      GreedyIsChain(tiles, sp, Next(i, t));
    }
  }

  lemma {:induction false} ChainFits(tiles: seq<Tile>, sp: seq<Layer>, i: nat, chain: seq<Tile>)
    requires Chain(tiles, sp, i, chain)
    ensures End(i, chain) <= |sp|
    decreases chain
  {
    if chain != [] { ChainFits(tiles, sp, Next(i, chain[0]), chain[1..]); }
  }

  function TileNames(chain: seq<Tile>): seq<string> {
    if chain == [] then [] else [chain[0].name] + TileNames(chain[1..])
  }

  lemma {:induction false} TileNamesLength(chain: seq<Tile>)
    ensures |TileNames(chain)| == |chain|
  {
    if chain != [] { TileNamesLength(chain[1..]); }
  }

  /** Lower each tile of a chain in turn, threading the environment, until one refuses. */
  ghost function LowerChain(ip: NetIP, tiles: seq<Tile>, chain: seq<Tile>, sp: seq<Layer>, i: nat,
                            st: EnvState): Lowered
    requires AllUsable(tiles) && Chain(tiles, sp, i, chain)
    decreases chain
  {
    if chain == [] then Lowered(Ok([]), st)
    else
      var n := Next(i, chain[0]);
      var first := Lower(ip, chain[0].lower, sp[i..n], st);
      if first.ops.Err? then first
      else
        var rest := LowerChain(ip, tiles, chain[1..], sp, n, first.env);
        Lowered(match rest.ops case Err(e) => Err(e) case Ok(ops) => Ok(first.ops.value + ops), rest.env)
  }

  /** The greedy chain lowered, from layer `i` on. */
  ghost function LowerGreedy(ip: NetIP, tiles: seq<Tile>, sp: seq<Layer>, i: nat, st: EnvState): Lowered
    requires AllUsable(tiles) && i <= |sp|
  {
    GreedyIsChain(tiles, sp, i);
    LowerChain(ip, tiles, Greedy(tiles, sp, i), sp, i, st)
  }

  // ---------------------------------------------------------------- covering a spine

  datatype Covered = Covered(ops: seq<Op>, applied: seq<string>, payload: seq<Layer>)

  /** What a leftover layer adds: an address on the innermost device, if it carries one. */
  function Terminal(ip: NetIP, rest: seq<Layer>, dev: string): Result<(seq<Op>, seq<Layer>)> {
    if rest == [] then Ok(([], rest))
    else
      var addr :- AddressOf(ip, rest[0]);
      Ok(if addr == "" then ([], rest) else ([AddrAdd(addr, dev)], rest[1..]))
  }

  /** The devices entered since there were `n` of them; environments only ever append. */
  function Since(created: seq<string>, n: nat): seq<string> {
    if n <= |created| then created[n..] else []
  }

  function BringUp(devs: seq<string>): (r: seq<Op>)
    ensures |r| == |devs| && forall k :: 0 <= k < |devs| ==> r[k] == LinkUp(devs[k])
  {
    if devs == [] then [] else [LinkUp(devs[0])] + BringUp(devs[1..])
  }

  /** What is left to do where the tiles stop: the leftover address, and every new device brought up. */
  function Finish(ip: NetIP, sp: seq<Layer>, i: nat, st: EnvState, before: nat, ops: seq<Op>,
                  applied: seq<string>): Result<Covered>
    requires sp != [] && i <= |sp|
  {
    if i == 0 then Err(At(sp[0].pos, NoLowering))
    else
      var (addr, payload) :- Terminal(ip, sp[i..], st.dev);
      Ok(Covered(ops + addr + BringUp(Since(st.created, before)), applied, payload))
  }

  /** The cover of a spine: the greedy chain lowered, then what is left to do. */
  ghost function Cover(ip: NetIP, tiles: seq<Tile>, sp: seq<Layer>, st: EnvState): (Result<Covered>, EnvState)
    requires AllUsable(tiles) && sp != []
  {
    var chain := Greedy(tiles, sp, 0);
    var low := LowerGreedy(ip, tiles, sp, 0, st);
    GreedyIsChain(tiles, sp, 0);
    ChainFits(tiles, sp, 0, chain);
    (match low.ops
     case Err(e) => Err(e)
     case Ok(ops) => Finish(ip, sp, End(0, chain), low.env, |st.created|, ops, TileNames(chain)),
     low.env)
  }
}
