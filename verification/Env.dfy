/** Deployment facts and interface names: what one machine's rules share. */
module Env {
  import opened Basics
  import opened Decimal

  const MAX_IF_NAME: nat := 15

  /** The value of an environment. */
  datatype EnvState = EnvState(
    root: string,               // the physical device
    dev: string,                // what the next tile attaches to
    keyDir: string,             // where key material is looked for
    created: seq<string>,       // every device made so far, outermost first
    used: set<string>,          // every name taken
    count: map<string, nat>)    // the last index tried for each prefix
  {
    function Count(prefix: string): nat {
      if prefix in count then count[prefix] else 0
    }
  }

  // ---------------------------------------------------------------- what each operation computes

  function NameFault(name: string): Option<Reason> {
    if name == "" then Some(EmptyName)
    else if |name| > MAX_IF_NAME then Some(LongName)
    else if ' ' in name || '/' in name || '\t' in name || '\n' in name then Some(IllegalName)
    else None
  }

  predicate ValidName(name: string) {
    NameFault(name) == None
  }

  /** A name is valid when it has 1 to 15 characters, none of them a space, a tab, a newline or a slash. */
  lemma NamesExactly(name: string)
    ensures ValidName(name) <==> 1 <= |name| <= 15 && forall c :: c in name ==> c !in {' ', '\t', '\n', '/'}
    ensures !ValidName(name) ==>
              NameFault(name) == Some(if name == "" then EmptyName else if |name| > 15 then LongName else IllegalName)
  {
  }

  function Fresh(root: string): EnvState {
    EnvState(root, root, "/etc/wireguard", [], {root}, map[])
  }

  function Claimed(st: EnvState, name: string): (Result<string>, EnvState) {
    var fault := NameFault(name);
    if fault.Some? then (Err(Unplaced(fault.value)), st)
    else if name in st.used then (Err(Unplaced(NameTaken)), st)
    else (Ok(name), st.(used := st.used + {name}))
  }

  function Numbered(prefix: string, i: nat): string {
    prefix + Dec(i)
  }

  /** The state after one more index of `prefix` has been tried. */
  function Counted(st: EnvState, prefix: string): EnvState {
    st.(count := st.count[prefix := st.Count(prefix) + 1])
  }

  /** How many indices of `prefix` can still give a name short enough. */
  function Remaining(st: EnvState, prefix: string): nat {
    if st.Count(prefix) < TEN_TO_15 then TEN_TO_15 - st.Count(prefix) else 0
  }

  function Allocated(st: EnvState, prefix: string): (Result<string>, EnvState)
    decreases Remaining(st, prefix)
  {
    var st' := Counted(st, prefix);
    var name := Numbered(prefix, st'.Count(prefix));
    var fault := NameFault(name);
    if fault.Some? then (Err(Unplaced(fault.value)), st')
    else if name !in st.used then (Ok(name), st'.(used := st'.used + {name}))
    else
      assert Remaining(st', prefix) < Remaining(st, prefix) by { NamesAreShort(prefix, st'.Count(prefix)); }
      Allocated(st', prefix)
  }

  function Entered(st: EnvState, dev: string): EnvState {
    st.(created := st.created + [dev], dev := dev)
  }

  function Rewound(st: EnvState): EnvState {
    st.(dev := st.root)
  }

  lemma NamesAreShort(prefix: string, i: nat)
    requires ValidName(Numbered(prefix, i))
    ensures i < TEN_TO_15
  {
    ShortNumeral(i);
  }

  // ---------------------------------------------------------------- the object

  class Env {
    var root: string
    var dev: string
    var keyDir: string
    var created: seq<string>
    var used: set<string>
    var count: map<string, nat>

    function State(): EnvState
      reads this
    {
      EnvState(root, dev, keyDir, created, used, count)
    }

    constructor (root: string)
      ensures State() == Fresh(root)
      ensures dev == this.root == root && keyDir == "/etc/wireguard"
      ensures created == [] && used == {root} && count == map[]
    {
      this.root, this.dev, this.keyDir := root, root, "/etc/wireguard";
      this.created, this.used, this.count := [], {root}, map[];
    }

    /** Reserve an exact interface name. */
    method Claim(name: string) returns (r: Result<string>)
      modifies this
      ensures (r, State()) == Claimed(old(State()), name)
      ensures r.Ok? <==> ValidName(name) && name !in old(used)
      ensures r.Ok? ==> r.value == name && used == old(used) + {name}
      ensures r.Err? ==> used == old(used) && (ValidName(name) ==> r.error == Unplaced(NameTaken))
      ensures root == old(root) && dev == old(dev) && created == old(created) && keyDir == old(keyDir)
    {
      var fault := NameFault(name);
      if fault.Some? {
        return Err(Unplaced(fault.value));
      }
      if name in used {
        return Err(Unplaced(NameTaken));
      }
      used := used + {name};
      return Ok(name);
    }

    /** Reserve the next free name with the given prefix. */
    method Alloc(prefix: string) returns (r: Result<string>)
      modifies this
      ensures (r, State()) == Allocated(old(State()), prefix)
    {
      while true
        invariant Allocated(State(), prefix) == Allocated(old(State()), prefix)
        decreases Remaining(State(), prefix)
      {
        ghost var before := State();
        count := count[prefix := (if prefix in count then count[prefix] else 0) + 1];
        var name := Numbered(prefix, count[prefix]);
        assert State() == Counted(before, prefix);
        var fault := NameFault(name);
        if fault.Some? {
          return Err(Unplaced(fault.value));
        }
        if name !in used {
          used := used + {name};
          return Ok(name);
        }
        NamesAreShort(prefix, count[prefix]);
      }
    }

    /** Go back to the physical device, keeping every name taken. */
    method Reset()
      modifies this
      ensures State() == Rewound(old(State()))
      ensures dev == root == old(root) && used == old(used) && created == old(created) && keyDir == old(keyDir)
    {
      dev := root;
    }

    /** Take over what a lowering outside the six shapes leaves. */
    method Restore(st: EnvState)
      modifies this
      ensures State() == st
    {
      root, dev, keyDir, created, used, count := st.root, st.dev, st.keyDir, st.created, st.used, st.count;
    }

    /** Record that a tile created a device: the next one attaches to it. */
    method Enter(device: string)
      modifies this
      ensures State() == Entered(old(State()), device)
      ensures dev == device && created == old(created) + [device] && root == old(root) && used == old(used)
    {
      created := created + [device];
      dev := device;
    }
  }

  /** Allocating only ever touches names, and the name it gives was free. */
  lemma {:induction false} AllocKeepsRest(st: EnvState, prefix: string)
    ensures var (r, st') := Allocated(st, prefix);
            && st'.keyDir == st.keyDir && st'.root == st.root && st'.dev == st.dev && st'.created == st.created
            && (r.Ok? ==> r.value !in st.used && st'.used == st.used + {r.value})
            && (r.Err? ==> st'.used == st.used) && st.used <= st'.used
    decreases Remaining(st, prefix)
  {
    var st' := Counted(st, prefix);
    var name := Numbered(prefix, st'.Count(prefix));
    if ValidName(name) && name in st.used {
      NamesAreShort(prefix, st'.Count(prefix));
      AllocKeepsRest(st', prefix);
    }
  }

  // ---------------------------------------------------------------- every run

  datatype Call = CallClaim(name: string) | CallAlloc(prefix: string) | CallReset | CallEnter(dev: string)

  function Apply(st: EnvState, c: Call): EnvState {
    match c
    case CallClaim(name) => Claimed(st, name).1
    case CallAlloc(prefix) => Allocated(st, prefix).1
    case CallReset => Rewound(st)
    case CallEnter(dev) => Entered(st, dev)
  }

  function ApplyAll(st: EnvState, calls: seq<Call>): EnvState
    decreases calls
  {
    if calls == [] then st else ApplyAll(Apply(st, calls[0]), calls[1..])
  }

  ghost predicate Reachable(st: EnvState) {
    exists root, calls, keyDir :: st == ApplyAll(Fresh(root), calls).(keyDir := keyDir)
  }

  /** Every index already counted is spent: its name is taken, or could never be a name. */
  ghost predicate Spent(st: EnvState) {
    forall prefix, i {:trigger Numbered(prefix, i)} ::
      1 <= i <= st.Count(prefix) ==> Numbered(prefix, i) in st.used || !ValidName(Numbered(prefix, i))
  }

  /** What an operation never undoes. */
  ghost predicate Grows(st: EnvState, st': EnvState) {
    && st.used <= st'.used && st'.root == st.root && st'.keyDir == st.keyDir
    && (forall prefix :: st.Count(prefix) <= st'.Count(prefix))
  }

  /** Once one index is too long or its prefix illegal, so is every later one. */
  lemma FaultsPersist(prefix: string, i: nat, j: nat)
    requires i <= j && !ValidName(Numbered(prefix, i))
    ensures !ValidName(Numbered(prefix, j))
  {
    var name, name' := Numbered(prefix, i), Numbered(prefix, j);
    DecMonotone(i, j);
    if |name| <= MAX_IF_NAME {
      assert forall c :: c in Dec(i) ==> IsDigit(c, 10);
      assert name == prefix + Dec(i) && name' == prefix + Dec(j);
      assert forall c :: c in name && !IsDigit(c, 10) ==> c in prefix;
      assert forall c :: c in prefix ==> c in name';
      assert !IsDigit(' ', 10) && !IsDigit('/', 10) && !IsDigit('\t', 10) && !IsDigit('\n', 10);
    }
  }

  /** What allocating promises, in any environment whose counted indices are spent. */
  lemma {:induction false} AllocIsLeast(st: EnvState, prefix: string)
    requires Spent(st)
    ensures var (r, st') := Allocated(st, prefix);
            && Grows(st, st') && Spent(st') && st'.created == st.created && st'.dev == st.dev
            && (r.Ok? ==>
                  && st'.used == st.used + {r.value}
                  && exists i :: LeastFree(st, prefix, i) && r.value == Numbered(prefix, i))
            && (r.Err? ==> st'.used == st.used && forall i {:trigger Numbered(prefix, i)} :: i >= 1 ==>
                  Numbered(prefix, i) in st.used || !ValidName(Numbered(prefix, i)))
    decreases Remaining(st, prefix)
  {
    var mid := Counted(st, prefix);
    var n := mid.Count(prefix);
    var name := Numbered(prefix, n);
    if !ValidName(name) {
      forall i | i >= 1 ensures Numbered(prefix, i) in st.used || !ValidName(Numbered(prefix, i)) {
        if i >= n { FaultsPersist(prefix, n, i); }
      }
    } else if name !in st.used {
      forall j | 1 <= j < n ensures Numbered(prefix, j) in st.used {
        if !ValidName(Numbered(prefix, j)) { FaultsPersist(prefix, j, n); }
      }
      assert LeastFree(st, prefix, n);
    } else {
      NamesAreShort(prefix, n);
      assert Spent(mid);
      AllocIsLeast(mid, prefix);
      forall i | LeastFree(mid, prefix, i) ensures LeastFree(st, prefix, i) {}
    }
  }

  /** `i` is the least positive index whose numbered name is free, and the name is valid. */
  ghost predicate LeastFree(st: EnvState, prefix: string, i: nat) {
    && i >= 1 && ValidName(Numbered(prefix, i)) && Numbered(prefix, i) !in st.used
    && forall j {:trigger Numbered(prefix, j)} :: 1 <= j < i ==> Numbered(prefix, j) in st.used
  }

  lemma {:induction false} StepKeepsSpent(st: EnvState, c: Call)
    requires Spent(st)
    ensures Spent(Apply(st, c)) && Grows(st, Apply(st, c))
  {
    if c.CallAlloc? { AllocIsLeast(st, c.prefix); }
  }

  lemma {:induction false} RunKeepsSpent(st: EnvState, calls: seq<Call>)
    requires Spent(st)
    ensures Spent(ApplyAll(st, calls))
    decreases calls
  {
    if calls != [] {
      StepKeepsSpent(st, calls[0]);
      RunKeepsSpent(Apply(st, calls[0]), calls[1..]);
    }
  }

  /** In every reachable environment, allocating finds the least free index, and fails only when there is none. */
  lemma {:induction false} AllocComplete(st: EnvState, prefix: string)
    requires Reachable(st)
    ensures Allocated(st, prefix).0.Ok? <==>
              exists i :: i >= 1 && ValidName(Numbered(prefix, i)) && Numbered(prefix, i) !in st.used
    ensures Allocated(st, prefix).0.Ok? ==>
              exists i :: LeastFree(st, prefix, i) && Allocated(st, prefix).0.value == Numbered(prefix, i)
  {
    var root, calls, keyDir :| st == ApplyAll(Fresh(root), calls).(keyDir := keyDir);
    RunKeepsSpent(Fresh(root), calls);
    assert Spent(st);
    AllocIsLeast(st, prefix);
  }

  /** Two indices never give one name, so the index allocated is determined by the name. */
  lemma NumberedInjective(prefix: string, i: nat, j: nat)
    requires Numbered(prefix, i) == Numbered(prefix, j)
    ensures i == j
  {
    assert Numbered(prefix, i)[|prefix|..] == Dec(i);
    assert Numbered(prefix, j)[|prefix|..] == Dec(j);
    DecInjective(i, j);
  }
}
