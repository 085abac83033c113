/** Typed readings of properties: absent, dynamic or concrete, and never one for another. */
module Props {
  import opened Basics
  import opened Decimal
  import opened Sexp
  import opened Ast
  import opened Netip

  datatype Reading<+T> = Absent(pos: Pos) | Dynamic(pos: Pos) | Concrete(value: T, pos: Pos) {
    /** The concrete value, if there is one. */
    function Get(): Option<T> {
      if Concrete? then Some(value) else None
    }

    function Require(): Result<T> {
      match this
      case Concrete(v, _) => Ok(v)
      case Dynamic(p) => Err(At(p, MustBeConcrete))
      case Absent(p) => Err(At(p, MissingProperty))
    }
  }

  /** Read one typed property off a layer. */
  function Get<T>(n: Layer, key: string, parse: Value -> Result<T>): Result<Reading<T>> {
    match Lookup(n.props, key)
    case None => Ok(Absent(n.pos))
    case Some(p) =>
      if p.val.Is(Star) then Ok(Dynamic(p.val.pos))
      else
        match parse(p.val)
        case Err(e) => Err(At(p.val.pos, e.reason))
        case Ok(t) => Ok(Concrete(t, p.val.pos))
  }

  predicate Textual(v: Value) {
    v.Is(Text) || v.Is(Symbol)
  }

  function ParseAddr(ip: NetIP, v: Value): Result<Addr> {
    if !Textual(v) then Err(Unplaced(WrongKind))
    else
      match ip.parseAddr(v.text)
      case None => Err(Unplaced(BadAddress))
      case Some(a) => Ok(a)
  }

  function ParsePrefix(ip: NetIP, v: Value): Result<Prefix> {
    if !Textual(v) then Err(Unplaced(WrongKind))
    else if '/' !in v.text then Err(Unplaced(NeedsLength))
    else
      match ip.parsePrefix(v.text)
      case None => Err(Unplaced(BadPrefix))
      case Some(p) => Ok(p)
  }

  function ParseText(v: Value): Result<string> {
    if !Textual(v) then Err(Unplaced(WrongKind)) else Ok(v.text)
  }

  function ParseUnsigned(v: Value, bits: nat): Result<nat> {
    if !v.Is(Number) then Err(Unplaced(WrongKind))
    else
      var u := if HexPrefixed(v.text) then ParseUint(v.text[2..], 16, bits) else ParseUint(v.text, 10, bits);
      if u == None then Err(Unplaced(DoesNotFit)) else Ok(u.value)
  }

  function ParseU16(v: Value): Result<nat> { ParseUnsigned(v, 16) }

  function ParseU32(v: Value): Result<nat> { ParseUnsigned(v, 32) }

  /** The 12-bit tag range; 0 and 4095 are reserved. */
  function ParseVLANID(v: Value): Result<nat> {
    match ParseUnsigned(v, 16)
    case Err(e) => Err(e)
    case Ok(n) => if n == 0 || n > 4094 then Err(Unplaced(OutOfRange)) else Ok(n)
  }

  function ParseVNI(v: Value): Result<nat> {
    match ParseUnsigned(v, 32)
    case Err(e) => Err(e)
    case Ok(n) => if n > 0xFFFFFF then Err(Unplaced(OutOfRange)) else Ok(n)
  }

  // The property vocabulary. One key may be read at two types: a bare address, or one with a length.

  function Src(ip: NetIP, n: Layer): Result<Reading<Addr>> { Get(n, "src", v => ParseAddr(ip, v)) }

  function Dst(ip: NetIP, n: Layer): Result<Reading<Addr>> { Get(n, "dst", v => ParseAddr(ip, v)) }

  function SrcPrefix(ip: NetIP, n: Layer): Result<Reading<Prefix>> { Get(n, "src", v => ParsePrefix(ip, v)) }

  function SrcPort(n: Layer): Result<Reading<nat>> { Get(n, "src-port", ParseU16) }

  function DstPort(n: Layer): Result<Reading<nat>> { Get(n, "dst-port", ParseU16) }

  function VNI(n: Layer): Result<Reading<nat>> { Get(n, "vni", ParseVNI) }

  function TunnelKey(n: Layer): Result<Reading<nat>> { Get(n, "key", ParseU32) }

  function VLANID(n: Layer): Result<Reading<nat>> { Get(n, "id", ParseVLANID) }

  function PeerName(n: Layer): Result<Reading<string>> { Get(n, "peer", ParseText) }

  /** The address/length an IP layer carries, or "" when it carries none. */
  function AddressOf(ip: NetIP, n: Layer): Result<string> {
    if n.name != "ipv4" && n.name != "ipv6" then Ok("")
    else if !Has(n.props, "src") then Ok("")
    else
      match SrcPrefix(ip, n)
      case Err(e) => Err(e)
      case Ok(r) => Ok(match r.Get() case None => "" case Some(p) => p.text)
  }

  // ---------------------------------------------------------------- numbers keep their value

  /** A numeral is accepted exactly when it is unsigned and fits, and then it keeps its value. */
  lemma UnsignedExact(minus: bool, hex: Option<char>, digits: string, pos: Pos, bits: nat)
    requires WfDigits(hex, digits)
    ensures var r := ParseUnsigned(Atom(Number, ShowNumeral(minus, hex, digits), pos), bits);
            && (r.Ok? <==> !minus && Magnitude(hex, digits) < Pow2(bits))
            && (r.Ok? ==> r.value == Magnitude(hex, digits))
  {
    hide Denotes, Pow2, WfDigits, ShowNumeral, IsNumeral;
    NumeralText(minus, hex, digits);
  }

  /** What the reader of a numeral sees of it. */
  lemma NumeralText(minus: bool, hex: Option<char>, digits: string)
    requires WfDigits(hex, digits)
    ensures var text := ShowNumeral(minus, hex, digits);
            && IsNumeral(digits, BaseOf(hex))
            && (minus ==> !HexPrefixed(text) && !IsNumeral(text, 10))
            && (!minus ==> (HexPrefixed(text) <==> hex.Some?))
            && (!minus ==> if hex.Some? then |text| >= 2 && text[2..] == digits else text == digits)
  {
    var text := ShowNumeral(minus, hex, digits);
    DigitsAre(hex, digits);
    if minus {
      assert text[0] == '-' && !IsDigit(text[0], 10);
    } else if hex.Some? {
      assert text == ['0', hex.value] + digits && text[2..] == digits;
    } else {
      assert text == digits;
      assert |text| > 1 ==> text[1] != 'x' && text[1] != 'X';
    }
  }

  /** The accepted ranges, and the decimal text printed for an accepted numeral denotes what it wrote. */
  lemma RangesExact(minus: bool, hex: Option<char>, digits: string, pos: Pos)
    requires WfDigits(hex, digits)
    ensures var v, n := Atom(Number, ShowNumeral(minus, hex, digits), pos), Magnitude(hex, digits);
            && (ParseVNI(v).Ok? <==> !minus && n < 0x100_0000)
            && (ParseVLANID(v).Ok? <==> !minus && 1 <= n <= 4094)
            && (ParseU16(v).Ok? <==> !minus && n < 0x1_0000)
            && (ParseU32(v).Ok? <==> !minus && n < 0x1_0000_0000)
            && forall r :: r in {ParseVNI(v), ParseVLANID(v), ParseU16(v), ParseU32(v)} && r.Ok? ==>
                 r.value == n && Denotes(Dec(r.value), 10) == n
  {
    UnsignedExact(minus, hex, digits, pos, 16);
    UnsignedExact(minus, hex, digits, pos, 32);
    Powers();
    DecDenotes(Magnitude(hex, digits));
  }

  lemma Powers()
    ensures Pow2(16) == 0x1_0000 && Pow2(32) == 0x1_0000_0000
  {
    assert Pow2(4) == 16;
    assert Pow2(8) == 256 by { assert Pow2(6) == 64; }
    assert Pow2(12) == 4096 by { assert Pow2(10) == 1024; }
    assert Pow2(16) == 65536 by { assert Pow2(14) == 16384; }
    assert Pow2(20) == 0x10_0000 by { assert Pow2(18) == 0x4_0000; }
    assert Pow2(24) == 0x100_0000 by { assert Pow2(22) == 0x40_0000; }
    assert Pow2(28) == 0x1000_0000 by { assert Pow2(26) == 0x400_0000; }
    assert Pow2(32) == 0x1_0000_0000 by { assert Pow2(30) == 0x4000_0000; }
  }
}
