/** The covering loop: match, pick, lower, advance; then the leftover address and the devices to bring up. */
module Covering {
  import opened Basics
  import opened Ast
  import opened Netip
  import opened Props
  import opened Env
  import opened Machine
  import opened Linux
  import opened Tile

  datatype CoverResult = CoverResult(script: seq<Argv>, applied: seq<string>, payload: seq<Layer>)

  method LowerTile(ip: NetIP, l: Lowering, sub: seq<Layer>, e: Env) returns (r: Result<seq<Argv>>)
    requires |sub| >= Arity(l)
    modifies e
    ensures Emitted(r, Lower(ip, l, sub, old(e.State())).ops) && e.State() == Lower(ip, l, sub, old(e.State())).env
  {
    match l
    case NoLower => r := Err(Unplaced(NoLowerFunction));
    case IPIP => r := LowerIPIP(ip, sub, e);
    case GRE => r := LowerGRE(ip, sub, e);
    case GRETAP => r := LowerGRETAP(ip, sub, e);
    case VXLAN => r := LowerVXLAN(ip, sub, e);
    case VLAN => r := LowerVLAN(sub, e);
    case WireGuard => r := LowerWireGuard(ip, sub, e);
    case Custom(run) =>
      var low := run(sub, e.State());
      e.Restore(low.env);
      if low.ops.Err? {
        r := Err(low.ops.error);
      } else {
        r := Ok(EmitAll(low.ops.value));
      }
  }

  /** The rest of the covering loop, from a state it can be in. */
  ghost function CoverFrom(ip: NetIP, tiles: seq<Tile>, sp: seq<Layer>, i: nat, st: EnvState, before: nat,
                           ops: seq<Op>, applied: seq<string>): (Result<Covered>, EnvState)
    requires AllUsable(tiles) && sp != [] && i <= |sp|
    decreases |sp| - i
  {
    var cands := MatchesAt(tiles, sp, i);
    if cands == [] then (Finish(ip, sp, i, st, before, ops, applied), st)
    else
      var t := Best(cands);
      BestMatches(tiles, sp, i);
      var low := Lower(ip, t.lower, sp[i..Next(i, t)], st);
      match low.ops
      case Err(e) => (Err(e), low.env)
      case Ok(more) => CoverFrom(ip, tiles, sp, Next(i, t), low.env, before, ops + more, applied + [t.name])
  }

  lemma BestMatches(tiles: seq<Tile>, sp: seq<Layer>, i: nat)
    requires AllUsable(tiles) && MatchesAt(tiles, sp, i) != []
    ensures var t := Best(MatchesAt(tiles, sp, i)); i < Next(i, t) <= |sp| && Usable(t) && Matches(t, sp, i)
  {
    MatchesAtIs(tiles, sp, i);
  }

  /** The loop computes the cover: interleaving matching and lowering changes nothing. */
  lemma {:induction false} CoverFromIsCover(ip: NetIP, tiles: seq<Tile>, sp: seq<Layer>, i: nat, st: EnvState,
                                            before: nat, ops: seq<Op>, applied: seq<string>)
    requires AllUsable(tiles) && sp != [] && i <= |sp|
    ensures End(i, Greedy(tiles, sp, i)) <= |sp|
    ensures var low := LowerGreedy(ip, tiles, sp, i, st);
            CoverFrom(ip, tiles, sp, i, st, before, ops, applied)
            == (match low.ops
                case Err(e) => Err(e)
                case Ok(more) => Finish(ip, sp, End(i, Greedy(tiles, sp, i)), low.env, before, ops + more,
                                        applied + TileNames(Greedy(tiles, sp, i))),
                low.env)
    decreases |sp| - i
  {
    hide Lower, Matches, Finish, Best;
    GreedyIsChain(tiles, sp, i);
    ChainFits(tiles, sp, i, Greedy(tiles, sp, i));
    if MatchesAt(tiles, sp, i) == [] {
      assert ops + [] == ops && applied + [] == applied;
    } else {
      var t, rest := GreedyStep(tiles, sp, i);
      var first := Lower(ip, t.lower, sp[i..Next(i, t)], st);
      if first.ops.Ok? {
        CoverFromIsCover(ip, tiles, sp, Next(i, t), first.env, before, ops + first.ops.value, applied + [t.name]);
        var more := LowerGreedy(ip, tiles, sp, Next(i, t), first.env);
        assert TileNames([t] + rest) == [t.name] + TileNames(rest);
        assert (applied + [t.name]) + TileNames(rest) == applied + ([t.name] + TileNames(rest));
        if more.ops.Ok? {
          assert (ops + first.ops.value) + more.ops.value == ops + (first.ops.value + more.ops.value);
        }
      }
    }
  }

  lemma CoverIsLoop(ip: NetIP, tiles: seq<Tile>, sp: seq<Layer>, st: EnvState)
    requires AllUsable(tiles) && sp != []
    ensures CoverFrom(ip, tiles, sp, 0, st, |st.created|, [], []) == Cover(ip, tiles, sp, st)
  {
    CoverFromIsCover(ip, tiles, sp, 0, st, |st.created|, [], []);
    var low := LowerGreedy(ip, tiles, sp, 0, st);
    if low.ops.Ok? { assert [] + low.ops.value == low.ops.value; }
    assert [] + TileNames(Greedy(tiles, sp, 0)) == TileNames(Greedy(tiles, sp, 0));
  }

  /** No tile matches past the last layer. */
  lemma {:induction false} NothingMatchesPastEnd(tiles: seq<Tile>, sp: seq<Layer>)
    requires AllUsable(tiles)
    ensures MatchesAt(tiles, sp, |sp|) == []
  {
    if tiles != [] {
      assert Usable(tiles[0]);
      forall t | t in tiles[1..] ensures Usable(t) {
        assert t in tiles;
      }
      NothingMatchesPastEnd(tiles[1..], sp);
    }
  }

  /** The commands of a cover, or its refusal. */
  ghost predicate Scripted(r: Result<CoverResult>, c: Result<Covered>) {
    match c
    case Err(e) => r == Err(e)
    case Ok(c) => r == Ok(CoverResult(EmitAll(c.ops), c.applied, c.payload))
  }

  /** Tile a spine with greedy longest-match. */
  method CoverSpine(ip: NetIP, tiles: seq<Tile>, sp: seq<Layer>, e: Env) returns (r: Result<CoverResult>)
    requires AllUsable(tiles) && sp != []
    modifies e
    ensures Scripted(r, Cover(ip, tiles, sp, old(e.State())).0)
    ensures e.State() == Cover(ip, tiles, sp, old(e.State())).1
  {
    hide Lower, Matches, Best, MatchesAt, Cover, Finish;
    ghost var ops := [];
    ghost var whole := CoverFrom(ip, tiles, sp, 0, e.State(), |e.created|, [], []);
    CoverIsLoop(ip, tiles, sp, e.State());
    NothingMatchesPastEnd(tiles, sp);
    var script: seq<Argv>, applied: seq<string> := [], [];
    var before := |e.created|;
    var i := 0;
    while i < |sp|
      invariant i <= |sp| && script == EmitAll(ops)
      invariant CoverFrom(ip, tiles, sp, i, e.State(), before, ops, applied) == whole
    {
      var cands := MatchAt(tiles, sp, i);
      if cands == [] {
        break;
      }
      var t := BestOf(cands);
      BestMatches(tiles, sp, i);
      var sub := sp[i..i + |t.pattern|];
      ghost var low := Lower(ip, t.lower, sub, e.State());
      var cmds := LowerTile(ip, t.lower, sub, e);
      if cmds.Err? {
        return Err(cmds.error);
      }
      EmitAllAppend(ops, low.ops.value);
      script := script + cmds.value;
      applied := applied + [t.name];
      ops := ops + low.ops.value;
      i := i + |t.pattern|;
    }
    r := FinishCover(ip, sp, i, e, before, script, applied, ops);
  }

  /** The terminal rule and the devices to bring up, once no tile matches any more. */
  method FinishCover(ip: NetIP, sp: seq<Layer>, i: nat, e: Env, before: nat, script: seq<Argv>, applied: seq<string>,
                     ghost ops: seq<Op>)
    returns (r: Result<CoverResult>)
    requires sp != [] && i <= |sp| && script == EmitAll(ops)
    ensures Scripted(r, Finish(ip, sp, i, e.State(), before, ops, applied))
  {
    if i == 0 {
      return Err(At(sp[0].pos, NoLowering));
    }
    var rest := sp[i..];
    var out := script;
    ghost var done := ops;
    ghost var addrOps: seq<Op> := [];
    if rest != [] {
      var addr :- AddressOf(ip, rest[0]);
      if addr != "" {
        out := out + [["ip", "addr", "add", addr, "dev", e.dev]];
        addrOps := [AddrAdd(addr, e.dev)];
        EmitCons(AddrAdd(addr, e.dev), []);
        rest := rest[1..];
      }
    }
    assert Terminal(ip, sp[i..], e.dev) == Ok((addrOps, rest));
    EmitAllAppend(ops, addrOps);
    assert out == EmitAll(ops + addrOps);

    // Outermost first: an inner tunnel cannot carry traffic over an underlay that is down.
    var up := BringAllUp(Since(e.created, before));
    EmitAllAppend(ops + addrOps, BringUp(Since(e.created, before)));
    return Ok(CoverResult(out + up, applied, rest));
  }

  method BringAllUp(devs: seq<string>) returns (script: seq<Argv>)
    ensures script == EmitAll(BringUp(devs))
  {
    script := [];
    for n := 0 to |devs|
      invariant script == EmitAll(BringUp(devs[..n]))
    {
      assert devs[..n + 1] == devs[..n] + [devs[n]];
      assert BringUp(devs[..n + 1]) == BringUp(devs[..n]) + [LinkUp(devs[n])];
      EmitCons(LinkUp(devs[n]), []);
      EmitAllAppend(BringUp(devs[..n]), [LinkUp(devs[n])]);
      script := script + [["ip", "link", "set", devs[n], "up"]];
    }
    assert devs[..|devs|] == devs;
  }
}
