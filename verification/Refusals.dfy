/** What a tile that cannot be lowered reports: the first of its complaints, in the order it makes them. */
module Refusals {
  import opened Basics
  import opened Decimal
  import opened Sexp
  import opened Ast
  import opened Netip
  import opened Props
  import opened Env
  import opened Linux
  import opened Tile
  import opened Safety
  import opened Said
  import opened Scripts
  import opened Wire

  type Complaint = Option<Error>

  /** The first complaint, if there is any. */
  function First(cs: seq<Complaint>): Complaint {
    if cs == [] then None else if cs[0].Some? then cs[0] else First(cs[1..])
  }

  function Refused<T>(r: Result<T>): Complaint {
    match r case Ok(_) => None case Err(e) => Some(e)
  }

  // ---------------------------------------------------------------- complaints about one key

  /** What is written there is no number, none that fits the width, or one out of range. */
  ghost function NumberFault(n: Layer, key: string, low: nat, bound: nat, wide: nat): Complaint {
    if Silent(n, key) || Varies(n, key) || HasNumber(n, key, low, bound) then None
    else
      var v := Field(n, key).value;
      var reason := if !v.Is(Number) then WrongKind else if HasNumber(n, key, 0, wide) then OutOfRange else DoesNotFit;
      Some(At(v.pos, reason))
  }

  function AddrFault(ip: NetIP, n: Layer, key: string): Complaint {
    if Silent(n, key) || Varies(n, key) then None
    else if TextOf(n, key) == None then Some(At(Field(n, key).value.pos, WrongKind))
    else if ip.parseAddr(TextOf(n, key).value) == None then Some(At(Field(n, key).value.pos, BadAddress))
    else None
  }

  function NetFault(ip: NetIP, n: Layer, key: string): Complaint {
    if Silent(n, key) || Varies(n, key) then None
    else if TextOf(n, key) == None then Some(At(Field(n, key).value.pos, WrongKind))
    else if '/' !in TextOf(n, key).value then Some(At(Field(n, key).value.pos, NeedsLength))
    else if ip.parsePrefix(TextOf(n, key).value) == None then Some(At(Field(n, key).value.pos, BadPrefix))
    else None
  }

  /** An end of a tunnel is an address, with a length if there is a slash in it. */
  function EndFault(ip: NetIP, n: Layer, key: string): Complaint {
    if Field(n, key).Some? && '/' in Field(n, key).value.Spelling() then NetFault(ip, n, key) else AddrFault(ip, n, key)
  }

  function InnerFault(ip: NetIP, n: Layer): Complaint {
    if IsIP(n) then NetFault(ip, n, "src") else None
  }

  function TextFault(n: Layer, key: string): Complaint {
    if Silent(n, key) || Varies(n, key) || TextOf(n, key).Some? then None
    else Some(At(Field(n, key).value.pos, WrongKind))
  }

  function Missing(n: Layer, key: string): Complaint {
    if Silent(n, key) then Some(At(n.pos, MissingProperty)) else None
  }

  /** A star where one value is wanted. */
  function Starred(n: Layer, key: string, reason: Reason): Complaint {
    if Varies(n, key) then Some(At(Field(n, key).value.pos, reason)) else None
  }

  /** Nothing, or a star, where one value is wanted, reported at the layer. */
  function Wanting(n: Layer, key: string): Complaint {
    if Silent(n, key) || Varies(n, key) then Some(At(n.pos, MissingProperty)) else None
  }

  /** A name that cannot be had, reported at a layer. */
  function NameRefused(st: EnvState, name: string, pos: Pos): Complaint {
    if !ValidName(name) then Some(At(pos, NameFault(name).value))
    else if name in st.used then Some(At(pos, NameTaken)) else None
  }

  function AllocRefused(st: EnvState, prefix: string): Complaint {
    Refused(Allocated(st, prefix).0)
  }

  function AllocRefusedAt(st: EnvState, prefix: string, pos: Pos): Complaint {
    match Allocated(st, prefix).0 case Ok(_) => None case Err(e) => Some(At(pos, e.reason))
  }

  /** The number counted under a key. */
  ghost function Counted(n: Layer, key: string): nat
    requires exists x: nat :: Counts(n, key, x)
  {
    var x: nat :| Counts(n, key, x);
    x
  }

  // ---------------------------------------------------------------- the complaints of each tile

  function TunnelFaults(ip: NetIP, n: Layer): seq<Complaint> {
    [AddrFault(ip, n, "src"), Starred(n, "src", MustBeConcrete), Missing(n, "src"),
     AddrFault(ip, n, "dst"), Starred(n, "dst", NoLowering), Missing(n, "dst")]
  }

  ghost function KeyFault(n: Layer): Complaint {
    NumberFault(n, "key", 0, 0x1_0000_0000, 0x1_0000_0000)
  }

  ghost function PortFault(n: Layer, key: string): Complaint {
    NumberFault(n, key, 0, 0x1_0000, 0x1_0000)
  }

  ghost function VxlanNameFault(n: Layer, st: EnvState): Complaint {
    if Varies(n, "vni") then AllocRefusedAt(st, "vxlan", n.pos)
    else if exists x: nat :: Counts(n, "vni", x) then NameRefused(st, "vxlan" + Dec(Counted(n, "vni")), n.pos) else None
  }

  ghost function VlanNameFault(n: Layer, st: EnvState): Complaint {
    if exists x: nat :: Counts(n, "id", x) then NameRefused(st, st.dev + "." + Dec(Counted(n, "id")), n.pos) else None
  }

  /** Everything a tile can complain of, in the order in which it does. */
  ghost function Complaints(ip: NetIP, l: Lowering, part: seq<Layer>, st: EnvState): seq<Complaint>
    requires |part| >= Arity(l)
  {
    match l
    case IPIP => TunnelFaults(ip, part[0]) + [AllocRefused(st, "ipip"), InnerFault(ip, part[1])]
    case GRE => TunnelFaults(ip, part[0]) + [AllocRefused(st, "gre"), KeyFault(part[1]), InnerFault(ip, part[2])]
    case GRETAP => TunnelFaults(ip, part[0]) + [AllocRefused(st, "gretap"), KeyFault(part[1])]
    case VXLAN =>
      [NumberFault(part[2], "vni", 0, 0x100_0000, 0x1_0000_0000), Missing(part[2], "vni"),
       PortFault(part[1], "dst-port"), Starred(part[1], "dst-port", NoLowering), Missing(part[1], "dst-port"),
       EndFault(ip, part[0], "src"), Missing(part[0], "src"), EndFault(ip, part[0], "dst"), Missing(part[0], "dst"),
       VxlanNameFault(part[2], st)]
    case VLAN =>
      [NumberFault(part[1], "id", 1, 4095, 0x1_0000), Starred(part[1], "id", NoLowering), Missing(part[1], "id"),
       VlanNameFault(part[1], st)]
    case WireGuard =>
      [TextFault(part[2], "peer"), Wanting(part[2], "peer"),
       PortFault(part[1], "src-port"), Wanting(part[1], "src-port"),
       EndFault(ip, part[0], "dst"), PortFault(part[1], "dst-port"),
       NetFault(ip, part[3], "src"), Wanting(part[3], "src"), AllocRefusedAt(st, "wg", part[2].pos)]
    case _ => []
  }

  // ---------------------------------------------------------------- the readers complain of that

  lemma {:induction false} FirstAppend(a: seq<Complaint>, b: seq<Complaint>)
    ensures First(a + b) == if First(a).Some? then First(a) else First(b)
    decreases a
  {
    if a == [] {
      assert a + b == b;
    } else {
      assert (a + b)[0] == a[0] && (a + b)[1..] == a[1..] + b;
      FirstAppend(a[1..], b);
    }
  }

  lemma FirstCons(c: Complaint, cs: seq<Complaint>)
    ensures First([c] + cs) == if c.Some? then c else First(cs)
    ensures First([c]) == c
  {
    assert ([c] + cs)[1..] == cs;
    assert [c][1..] == [];
  }

  /** Why a value is not accepted as a number of so many bits, within some range. */
  function ReasonFor(v: Value, bits: nat): Reason {
    if !v.Is(Number) then WrongKind else if ParseUnsigned(v, bits).Ok? then OutOfRange else DoesNotFit
  }

  lemma NumberFaultIs(n: Layer, key: string, parse: Value -> Result<nat>, bits: nat, low: nat, bound: nat)
    requires forall v, x: nat :: parse(v) == Ok(x) <==> ParseUnsigned(v, bits) == Ok(x) && low <= x < bound
    requires forall v :: parse(v).Err? ==> parse(v).error.reason == ReasonFor(v, bits)
    requires bound <= Pow2(bits)
    ensures Refused(Get(n, key, parse)) == NumberFault(n, key, low, bound, Pow2(bits))
  {
    hide ParseUnsigned, Counts, Pow2;
    NumberIs(n, key, parse, bits, low, bound);
    if Field(n, key).Some? && !Varies(n, key) {
      TokenFits(n, key, bits);
      if parse(Field(n, key).value).Err? {
        assert Get(n, key, parse) == Err(At(Field(n, key).value.pos, parse(Field(n, key).value).error.reason));
      }
    }
  }

  lemma TokenFits(n: Layer, key: string, bits: nat)
    requires Field(n, key).Some?
    ensures ParseUnsigned(Field(n, key).value, bits).Ok? <==> HasNumber(n, key, 0, Pow2(bits))
  {
    hide ParseUnsigned, Pow2, Magnitude, ShowNumeral, WfDigits;
    var v := Field(n, key).value;
    forall x: nat ensures ParseUnsigned(v, bits) == Ok(x) <==> Counts(n, key, x) && x < Pow2(bits) {
      TokenIs(v, bits, x);
    }
    if ParseUnsigned(v, bits).Ok? { assert Counts(n, key, ParseUnsigned(v, bits).value); }
    if x: nat :| Counts(n, key, x) && x < Pow2(bits) { assert ParseUnsigned(v, bits) == Ok(x); }
  }

  lemma TokenRefused(bits: nat)
    ensures forall v :: ParseUnsigned(v, bits).Err? ==>
              ParseUnsigned(v, bits).error.reason == if v.Is(Number) then DoesNotFit else WrongKind
    ensures forall v :: ParseUnsigned(v, bits).Ok? ==> v.Is(Number)
  {
    hide Denotes, Pow2, IsNumeral;
  }

  lemma PortFaultIs(n: Layer, key: string)
    ensures Refused(Get(n, key, ParseU16)) == PortFault(n, key)
  {
    Powers();
    hide ParseUnsigned, Pow2;
    TokenBelow(16);
    TokenRefused(16);
    NumberFaultIs(n, key, ParseU16, 16, 0, 0x1_0000);
  }

  lemma KeyFaultIs(n: Layer)
    ensures Refused(TunnelKey(n)) == KeyFault(n)
  {
    Powers();
    hide ParseUnsigned, Pow2;
    TokenBelow(32);
    TokenRefused(32);
    NumberFaultIs(n, "key", ParseU32, 32, 0, 0x1_0000_0000);
  }

  lemma VniFaultIs(n: Layer)
    ensures Refused(VNI(n)) == NumberFault(n, "vni", 0, 0x100_0000, 0x1_0000_0000)
  {
    Powers();
    hide ParseUnsigned, Pow2;
    TokenRefused(32);
    forall v | ParseVNI(v).Err? ensures ParseVNI(v).error.reason == ReasonFor(v, 32) {
      var r := ParseUnsigned(v, 32);
      assert r.Err? ==> r.error.reason == if v.Is(Number) then DoesNotFit else WrongKind;
    }
    NumberFaultIs(n, "vni", ParseVNI, 32, 0, 0x100_0000);
  }

  lemma TagFaultIs(n: Layer)
    ensures Refused(VLANID(n)) == NumberFault(n, "id", 1, 4095, 0x1_0000)
  {
    Powers();
    hide ParseUnsigned, Pow2;
    TokenRefused(16);
    forall v | ParseVLANID(v).Err? ensures ParseVLANID(v).error.reason == ReasonFor(v, 16) {
      var r := ParseUnsigned(v, 16);
      assert r.Err? ==> r.error.reason == if v.Is(Number) then DoesNotFit else WrongKind;
    }
    NumberFaultIs(n, "id", ParseVLANID, 16, 1, 4095);
  }

  lemma AddrFaultIs(ip: NetIP, n: Layer, key: string)
    ensures Refused(Get(n, key, v => ParseAddr(ip, v))) == AddrFault(ip, n, key)
  {
  }

  lemma NetFaultIs(ip: NetIP, n: Layer, key: string)
    ensures Refused(Get(n, key, v => ParsePrefix(ip, v))) == NetFault(ip, n, key)
  {
  }

  lemma TextFaultIs(n: Layer, key: string)
    ensures Refused(Get(n, key, ParseText)) == TextFault(n, key)
  {
  }

  lemma AddrFaultsAre(ip: NetIP, n: Layer)
    ensures Refused(Src(ip, n)) == AddrFault(ip, n, "src") && Refused(Dst(ip, n)) == AddrFault(ip, n, "dst")
    ensures Refused(SrcPrefix(ip, n)) == NetFault(ip, n, "src") && Refused(PeerName(n)) == TextFault(n, "peer")
  {
    hide Get, AddrFault, NetFault, TextFault, ParseAddr, ParsePrefix, ParseText;
    AddrFaultIs(ip, n, "src");
    AddrFaultIs(ip, n, "dst");
    NetFaultIs(ip, n, "src");
    TextFaultIs(n, "peer");
  }

  lemma InnerFaultIs(ip: NetIP, n: Layer, dev: string)
    ensures Refused(AddrOps(ip, n, dev)) == InnerFault(ip, n)
  {
  }

  lemma EndFaultIs(ip: NetIP, n: Layer, key: string)
    ensures Refused(ReadEndpoint(ip, n, key)) == EndFault(ip, n, key)
    ensures ReadEndpoint(ip, n, key).Ok? ==> (ReadEndpoint(ip, n, key).value.absent <==> Silent(n, key))
  {
  }

  lemma FirstThree(a: Complaint, b: Complaint, c: Complaint)
    ensures First([a, b, c]) == if a.Some? then a else if b.Some? then b else c
  {
    FirstCons(a, [b, c]);
    FirstCons(b, [c]);
    FirstCons(c, []);
    assert [a, b, c] == [a] + [b, c] && [b, c] == [b] + [c];
  }

  lemma EndsFault(ip: NetIP, n: Layer)
    ensures Refused(Endpoints(ip, n)) == First(TunnelFaults(ip, n))
  {
    hide Src, Dst, AddrFault, Silent, Varies, First;
    AddrFaultsAre(ip, n);
    ReadsAre(ip, n);
    FirstThree(AddrFault(ip, n, "src"), Starred(n, "src", MustBeConcrete), Missing(n, "src"));
    FirstThree(AddrFault(ip, n, "dst"), Starred(n, "dst", NoLowering), Missing(n, "dst"));
    var a := [AddrFault(ip, n, "src"), Starred(n, "src", MustBeConcrete), Missing(n, "src")];
    var b := [AddrFault(ip, n, "dst"), Starred(n, "dst", NoLowering), Missing(n, "dst")];
    FirstAppend(a, b);
    assert TunnelFaults(ip, n) == a + b;
  }

  /** Where a reading that succeeded stands. */
  lemma ReadsAre(ip: NetIP, n: Layer)
    ensures Src(ip, n).Ok? ==> ReadAs(n, "src", Src(ip, n).value)
    ensures Dst(ip, n).Ok? ==> ReadAs(n, "dst", Dst(ip, n).value)
    ensures SrcPrefix(ip, n).Ok? ==> ReadAs(n, "src", SrcPrefix(ip, n).value)
    ensures PeerName(n).Ok? ==> ReadAs(n, "peer", PeerName(n).value)
  {
  }

  predicate ReadAs<T>(n: Layer, key: string, r: Reading<T>) {
    match r
    case Absent(pos) => Silent(n, key) && !Varies(n, key) && pos == n.pos
    case Dynamic(pos) => Varies(n, key) && !Silent(n, key) && pos == Field(n, key).value.pos
    case Concrete(_, _) => !Silent(n, key) && !Varies(n, key)
  }

  lemma GetReadAs<T>(n: Layer, key: string, parse: Value -> Result<T>)
    ensures Get(n, key, parse).Ok? ==> ReadAs(n, key, Get(n, key, parse).value)
  {
  }

  // ---------------------------------------------------------------- each tile complains of that

  lemma Two(a: seq<Complaint>, b: Complaint, c: Complaint)
    ensures First(a + [b, c]) == if First(a).Some? then First(a) else if b.Some? then b else c
  {
    FirstAppend(a, [b, c]);
    FirstCons(b, [c]);
    FirstCons(c, []);
    assert [b, c] == [b] + [c];
  }

  lemma Three(a: seq<Complaint>, b: Complaint, c: Complaint, d: Complaint)
    ensures First(a + [b, c, d]) == if First(a).Some? then First(a) else if b.Some? then b else if c.Some? then c else d
  {
    hide First;
    FirstAppend(a, [b, c, d]);
    FirstThree(b, c, d);
  }

  lemma IPIPRefuses(ip: NetIP, part: seq<Layer>, st: EnvState)
    requires |part| >= 2
    ensures Refused(IPIPOps(ip, part, st).ops) == First(Complaints(ip, IPIP, part, st))
  {
    hide Endpoints, Allocated, AddrOps, First, TunnelFaults, InnerFault;
    EndsFault(ip, part[0]);
    if Allocated(st, "ipip").0.Ok? { InnerFaultIs(ip, part[1], Allocated(st, "ipip").0.value); }
    Two(TunnelFaults(ip, part[0]), AllocRefused(st, "ipip"), InnerFault(ip, part[1]));
  }

  lemma GRERefuses(ip: NetIP, part: seq<Layer>, st: EnvState)
    requires |part| >= 3
    ensures Refused(GREOps(ip, part, st).ops) == First(Complaints(ip, GRE, part, st))
  {
    hide Endpoints, Allocated, AddrOps, First, TunnelFaults, InnerFault, TunnelKey, KeyFault;
    EndsFault(ip, part[0]);
    KeyFaultIs(part[1]);
    if Allocated(st, "gre").0.Ok? { InnerFaultIs(ip, part[2], Allocated(st, "gre").0.value); }
    Three(TunnelFaults(ip, part[0]), AllocRefused(st, "gre"), KeyFault(part[1]), InnerFault(ip, part[2]));
  }

  lemma GRETAPRefuses(ip: NetIP, part: seq<Layer>, st: EnvState)
    requires |part| >= 3
    ensures Refused(GRETAPOps(ip, part, st).ops) == First(Complaints(ip, GRETAP, part, st))
  {
    hide Endpoints, Allocated, First, TunnelFaults, TunnelKey, KeyFault;
    EndsFault(ip, part[0]);
    KeyFaultIs(part[1]);
    Two(TunnelFaults(ip, part[0]), AllocRefused(st, "gretap"), KeyFault(part[1]));
  }

  lemma Claims(st: EnvState, name: string, pos: Pos)
    ensures Refused(Placed(Claimed(st, name).0, pos)) == NameRefused(st, name, pos)
  {
    hide NameFault;
  }

  lemma TagReadAs(n: Layer)
    ensures VLANID(n).Ok? ==> ReadAs(n, "id", VLANID(n).value)
    ensures VNI(n).Ok? ==> ReadAs(n, "vni", VNI(n).value)
    ensures DstPort(n).Ok? ==> ReadAs(n, "dst-port", DstPort(n).value)
    ensures SrcPort(n).Ok? ==> ReadAs(n, "src-port", SrcPort(n).value)
  {
    GetReadAs(n, "id", ParseVLANID);
    GetReadAs(n, "vni", ParseVNI);
    GetReadAs(n, "dst-port", ParseU16);
    GetReadAs(n, "src-port", ParseU16);
  }

  lemma VLANRefuses(ip: NetIP, part: seq<Layer>, st: EnvState)
    requires |part| >= 2
    ensures Refused(VLANOps(part, st).ops) == First(Complaints(ip, VLAN, part, st))
  {
    hide VLANID, Claimed, First, NumberFault, VlanNameFault, Silent, Varies, NameRefused;
    var n := part[1];
    TagFaultIs(n);
    TagReadAs(n);
    FirstThree(NumberFault(n, "id", 1, 4095, 0x1_0000), Starred(n, "id", NoLowering), Missing(n, "id"));
    FirstAppend([NumberFault(n, "id", 1, 4095, 0x1_0000), Starred(n, "id", NoLowering), Missing(n, "id")],
                [VlanNameFault(n, st)]);
    FirstCons(VlanNameFault(n, st), []);
    assert Complaints(ip, VLAN, part, st)
        == [NumberFault(n, "id", 1, 4095, 0x1_0000), Starred(n, "id", NoLowering), Missing(n, "id")]
           + [VlanNameFault(n, st)];
    if VLANID(n).Ok? && VLANID(n).value.Concrete? {
      TagName(n, st);
      Claims(st, st.dev + "." + Dec(VLANID(n).value.value), n.pos);
    }
  }

  lemma TagName(n: Layer, st: EnvState)
    requires VLANID(n).Ok? && VLANID(n).value.Concrete?
    ensures VlanNameFault(n, st) == NameRefused(st, st.dev + "." + Dec(VLANID(n).value.value), n.pos)
  {
    hide VLANID, Counts, NameRefused;
    TagIs(n);
    CountsOnce(n, "id", VLANID(n).value.value, Counted(n, "id"));
  }

  /** The complaints about the fields of a VXLAN stack, before its name is asked for. */
  ghost function VxlanFaults(ip: NetIP, part: seq<Layer>): seq<Complaint>
    requires |part| >= 3
  {
    [NumberFault(part[2], "vni", 0, 0x100_0000, 0x1_0000_0000), Missing(part[2], "vni"),
     PortFault(part[1], "dst-port")]
    + [Starred(part[1], "dst-port", NoLowering), Missing(part[1], "dst-port"), EndFault(ip, part[0], "src")]
    + [Missing(part[0], "src"), EndFault(ip, part[0], "dst"), Missing(part[0], "dst")]
  }

  lemma FieldsRefuse(ip: NetIP, part: seq<Layer>)
    requires |part| >= 3
    ensures Refused(ReadVXLANFields(ip, part)) == First(VxlanFaults(ip, part))
  {
    hide VNI, DstPort, ReadEndpoint, First, NumberFault, PortFault, EndFault, Silent, Varies;
    VniFaultIs(part[2]);
    PortFaultIs(part[1], "dst-port");
    PortIsGet(part[1]);
    TagReadAs(part[2]);
    TagReadAs(part[1]);
    EndFaultIs(ip, part[0], "src");
    EndFaultIs(ip, part[0], "dst");
    var a := [NumberFault(part[2], "vni", 0, 0x100_0000, 0x1_0000_0000), Missing(part[2], "vni"),
              PortFault(part[1], "dst-port")];
    var b := [Starred(part[1], "dst-port", NoLowering), Missing(part[1], "dst-port"), EndFault(ip, part[0], "src")];
    var c := [Missing(part[0], "src"), EndFault(ip, part[0], "dst"), Missing(part[0], "dst")];
    FirstThree(a[0], a[1], a[2]);
    FirstThree(b[0], b[1], b[2]);
    FirstThree(c[0], c[1], c[2]);
    FirstAppend(a + b, c);
    FirstAppend(a, b);
  }

  lemma VXLANRefuses(ip: NetIP, part: seq<Layer>, st: EnvState)
    requires |part| >= 3
    ensures Refused(VXLANOps(ip, part, st).ops) == First(Complaints(ip, VXLAN, part, st))
  {
    hide ReadVXLANFields, VxlanName, First, VxlanFaults, VxlanNameFault;
    FieldsRefuse(ip, part);
    FirstAppend(VxlanFaults(ip, part), [VxlanNameFault(part[2], st)]);
    FirstCons(VxlanNameFault(part[2], st), []);
    VxlanComplaints(ip, part, st);
    if ReadVXLANFields(ip, part).Ok? { VxlanNamed(ip, part, st); }
  }

  lemma VxlanComplaints(ip: NetIP, part: seq<Layer>, st: EnvState)
    requires |part| >= 3
    ensures Complaints(ip, VXLAN, part, st) == VxlanFaults(ip, part) + [VxlanNameFault(part[2], st)]
  {
    hide NumberFault, PortFault, EndFault, VxlanNameFault, Missing, Starred;
  }

  lemma VxlanNamed(ip: NetIP, part: seq<Layer>, st: EnvState)
    requires |part| >= 3 && ReadVXLANFields(ip, part).Ok?
    ensures Refused(Placed(VxlanName(ReadVXLANFields(ip, part).value.vni, st).0, part[2].pos))
         == VxlanNameFault(part[2], st)
  {
    hide ReadVXLANFields, Allocated, Counts, NameRefused, Claimed, NamesEnd, UnderlayOps, Readable;
    FieldsExactly(ip, part, "");
    NothingCounts(part[2], "vni");
    var f := ReadVXLANFields(ip, part).value;
    if f.vni.Some? {
      CountsOnce(part[2], "vni", f.vni.value, Counted(part[2], "vni"));
      Claims(st, "vxlan" + Dec(f.vni.value), part[2].pos);
    }
  }

  ghost function PeerFaults(ip: NetIP, part: seq<Layer>): seq<Complaint>
    requires |part| >= 4
  {
    [TextFault(part[2], "peer"), Wanting(part[2], "peer"), PortFault(part[1], "src-port")]
    + [Wanting(part[1], "src-port"), EndFault(ip, part[0], "dst"), PortFault(part[1], "dst-port")]
    + [NetFault(ip, part[3], "src"), Wanting(part[3], "src")]
  }

  lemma PeerRefuses(ip: NetIP, part: seq<Layer>)
    requires |part| >= 4
    ensures Refused(ReadWgFields(ip, part)) == First(PeerFaults(ip, part))
  {
    hide PeerName, SrcPort, DstPort, ReadEndpoint, SrcPrefix, First, TextFault, PortFault, EndFault, NetFault, Silent,
         Varies;
    AddrFaultsAre(ip, part[2]);
    AddrFaultsAre(ip, part[3]);
    ReadsAre(ip, part[2]);
    ReadsAre(ip, part[3]);
    PortFaultIs(part[1], "src-port");
    PortFaultIs(part[1], "dst-port");
    PortIsGet(part[1]);
    TagReadAs(part[1]);
    EndFaultIs(ip, part[0], "dst");
    var a := [TextFault(part[2], "peer"), Wanting(part[2], "peer"), PortFault(part[1], "src-port")];
    var b := [Wanting(part[1], "src-port"), EndFault(ip, part[0], "dst"), PortFault(part[1], "dst-port")];
    FirstThree(a[0], a[1], a[2]);
    FirstThree(b[0], b[1], b[2]);
    FirstAppend(a, b);
    Two(a + b, NetFault(ip, part[3], "src"), Wanting(part[3], "src"));
  }

  lemma WireGuardRefuses(ip: NetIP, part: seq<Layer>, st: EnvState)
    requires |part| >= 4
    ensures Refused(WireGuardOps(ip, part, st).ops) == First(Complaints(ip, WireGuard, part, st))
  {
    hide ReadWgFields, Allocated, First, PeerFaults, AddrOps, Readable, SaysPeer, WgOps;
    PeerRefuses(ip, part);
    FirstAppend(PeerFaults(ip, part), [AllocRefusedAt(st, "wg", part[2].pos)]);
    FirstCons(AllocRefusedAt(st, "wg", part[2].pos), []);
    PeerComplaints(ip, part, st);
    if ReadWgFields(ip, part).Ok? && Allocated(st, "wg").0.Ok? {
      PeerExactly(ip, part);
      CarriedAddressed(ip, part);
      AddressIs(ip, part[3], Allocated(st, "wg").0.value);
    }
  }

  lemma PeerComplaints(ip: NetIP, part: seq<Layer>, st: EnvState)
    requires |part| >= 4
    ensures Complaints(ip, WireGuard, part, st) == PeerFaults(ip, part) + [AllocRefusedAt(st, "wg", part[2].pos)]
  {
    hide TextFault, PortFault, EndFault, NetFault, Wanting, AllocRefusedAt;
  }

  /** A tile is refused with exactly the first of its complaints, and lowered when it has none. */
  lemma {:induction false} RefusedExactly(ip: NetIP, l: Lowering, part: seq<Layer>, st: EnvState)
    requires IsShape(l) && |part| >= Arity(l)
    ensures Refused(Lower(ip, l, part, st).ops) == First(Complaints(ip, l, part, st))
  {
    hide IPIPOps, GREOps, GRETAPOps, VXLANOps, VLANOps, WireGuardOps, Complaints, First;
    match l
    case IPIP => IPIPRefuses(ip, part, st);
    case GRE => GRERefuses(ip, part, st);
    case GRETAP => GRETAPRefuses(ip, part, st);
    case VXLAN => VXLANRefuses(ip, part, st);
    case VLAN => VLANRefuses(ip, part, st);
    case WireGuard => WireGuardRefuses(ip, part, st);
  }

  /** Why a rule is refused: nothing matches first, a tile refuses, or the address of the layer left over is no good. */
  lemma {:induction false} CoverRefuses(ip: NetIP, tiles: seq<Tile>, sp: seq<Layer>, st: EnvState)
    requires AllUsable(tiles) && sp != []
    ensures var n, low := End(0, Greedy(tiles, sp, 0)), LowerGreedy(ip, tiles, sp, 0, st);
            Refused(Cover(ip, tiles, sp, st).0) ==
              if Greedy(tiles, sp, 0) == [] then Some(At(sp[0].pos, NoLowering))
              else if low.ops.Err? then Some(low.ops.error)
              else if n < |sp| then InnerFault(ip, sp[n]) else None
  {
    hide Greedy, Terminal, BringUp, AllUsable, InnerFault, WellAddressed;
    var n, low := End(0, Greedy(tiles, sp, 0)), LowerGreedy(ip, tiles, sp, 0, st);
    CoverExactly(ip, tiles, sp, st);
    LeftoverRefuses(ip, sp[n..], low.env.dev);
    if n < |sp| { assert sp[n..][0] == sp[n]; }
  }

  lemma LeftoverRefuses(ip: NetIP, rest: seq<Layer>, dev: string)
    ensures Refused(Terminal(ip, rest, dev)) == if rest == [] then None else InnerFault(ip, rest[0])
    ensures rest != [] ==> (WellAddressed(ip, rest[0]) <==> InnerFault(ip, rest[0]) == None)
  {
    if rest != [] {
      InnerFaultIs(ip, rest[0], dev);
      AddressIs(ip, rest[0], dev);
    }
  }

  // ---------------------------------------------------------------- predictions

  ghost function UDPFaults(sp: seq<Layer>): seq<Complaint>
    requires |sp| >= 2
  {
    [PortFault(sp[1], "dst-port"),
     if Silent(sp[1], "dst-port") || Varies(sp[1], "dst-port") then Some(Unplaced(NoPrediction)) else None,
     if |sp| > 2 && sp[2].name == "vxlan" then NumberFault(sp[2], "vni", 0, 0x100_0000, 0x1_0000_0000) else None]
  }

  /** What keeps a spine from being predicted. */
  ghost function Unforetold(ip: NetIP, sp: seq<Layer>): Complaint {
    if sp == [] then Some(Unplaced(EmptySpine))
    else if !IsIP(sp[0]) then Some(Unplaced(NoPrediction))
    else if AddrFault(ip, sp[0], "src").Some? then AddrFault(ip, sp[0], "src")
    else if AddrFault(ip, sp[0], "dst").Some? then AddrFault(ip, sp[0], "dst")
    else if |sp| < 2 || sp[1].name == "gre" || sp[1].name == "ipv4" then None
    else if sp[1].name == "udp" then First(UDPFaults(sp))
    else Some(Unplaced(NoPrediction))
  }

  lemma UDPRefuses(sp: seq<Layer>, dst: Option<string>)
    requires |sp| >= 2 && sp[1].name == "udp"
    ensures Refused(NextFacts(sp, dst)) == First(UDPFaults(sp))
  {
    hide DstPort, First, PortFault, NumberFault, Silent, Varies, VNI, DestFacts, VNIFacts;
    PortFaultIs(sp[1], "dst-port");
    PortIsGet(sp[1]);
    TagReadAs(sp[1]);
    var c := UDPFaults(sp);
    FirstThree(c[0], c[1], c[2]);
    assert c == [c[0], c[1], c[2]];
    if |sp| > 2 && sp[2].name == "vxlan" { VniFaultIs(sp[2]); }
  }

  /** A spine is left unpredicted for exactly that. */
  lemma {:induction false} PredictRefuses(ip: NetIP, sp: seq<Layer>)
    ensures Refused(Predict(ip, sp)) == Unforetold(ip, sp)
  {
    hide Src, Dst, AddrFault, First, UDPFaults, DestFacts, DstPort, TunnelFactsOf, Printed;
    if sp != [] && IsIP(sp[0]) {
      AddrFaultsAre(ip, sp[0]);
      if |sp| >= 2 && sp[1].name == "udp" && Dst(ip, sp[0]).Ok? { UDPRefuses(sp, Printed(Dst(ip, sp[0]).value)); }
    }
  }
}
