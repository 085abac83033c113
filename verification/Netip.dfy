/** The address library, as the compiler sees it: two parsers and a few readings of what they return. */
module Netip {
  import opened Basics

  /** A parsed address: its canonical text, its width, whether it names a zone, whether it is a group. */
  datatype Addr = Addr(text: string, bits: nat, zoned: bool, multicast: bool)

  /** A parsed address/length: the address, the canonical text, and the canonical text of its network. */
  datatype Prefix = Prefix(addr: Addr, text: string, masked: string)

  /** Any address library: everything proved holds whichever texts it accepts, unless a law is named. */
  datatype NetIP = NetIP(parseAddr: string -> Option<Addr>, parsePrefix: string -> Option<Prefix>)

  /** What stands before the first slash, and what stands after it. */
  function BeforeSlash(s: string): string {
    s[..IndexOf(s, '/')]
  }

  function AfterSlash(s: string): string {
    var i := IndexOf(s, '/');
    if i < |s| then s[i + 1..] else ""
  }

  /** A prefix is an address and a length; it is not itself an address. */
  ghost predicate PrefixLaw(ip: NetIP) {
    forall s {:trigger ip.parsePrefix(s)} :: ip.parsePrefix(s).Some? ==>
      && '/' in s
      && ip.parseAddr(BeforeSlash(s)) == Some(ip.parsePrefix(s).value.addr)
      && ip.parseAddr(s).None?
  }

  /** Two addresses of one kind: the same lengths fit both. */
  predicate SameFamily(ip: NetIP, x: string, y: string) {
    && ip.parseAddr(x).Some? && ip.parseAddr(y).Some?
    && ip.parseAddr(x).value.bits == ip.parseAddr(y).value.bits
    && ip.parseAddr(x).value.zoned == ip.parseAddr(y).value.zoned
  }

  /** Which lengths an address takes depends on its family alone. */
  ghost predicate LengthLaw(ip: NetIP) {
    forall x, y, l {:trigger ip.parsePrefix(x + "/" + l), ip.parsePrefix(y + "/" + l)} ::
      SameFamily(ip, x, y) && ip.parsePrefix(x + "/" + l).Some? ==> ip.parsePrefix(y + "/" + l).Some?
  }

  /** Printing an address keeps whatever follows a slash in it (a zone may hold one); no address begins with a slash. */
  ghost predicate SlashLaw(ip: NetIP) {
    forall s {:trigger ip.parseAddr(s)} :: ip.parseAddr(s).Some? ==>
      var text := ip.parseAddr(s).value.text;
      BeforeSlash(s) != "" && ('/' in text <==> '/' in s) && AfterSlash(text) == AfterSlash(s)
  }

  // ---------------------------------------------------------------- the laws ask for nothing impossible

  /** A zone starts at a percent sign. */
  predicate Zoned(s: string) {
    '%' in BeforeSlash(s)
  }

  function SampleAddr(s: string): Option<Addr> {
    if BeforeSlash(s) == "" || ('/' in s && !Zoned(s)) then None
    else Some(Addr(s, if Zoned(s) then 128 else 32, Zoned(s), "239." <= s))
  }

  function SamplePrefix(s: string): Option<Prefix> {
    if BeforeSlash(s) == "" || '/' !in s || Zoned(s) then None
    else Some(Prefix(Addr(BeforeSlash(s), 32, false, "239." <= BeforeSlash(s)), s, s))
  }

  /** A library that takes any text for an address, a slash only after a zone, and groups to begin with 239. */
  function Sample(): NetIP {
    NetIP(SampleAddr, SamplePrefix)
  }

  lemma BeforeSlashTwice(s: string)
    ensures BeforeSlash(BeforeSlash(s)) == BeforeSlash(s)
  {
    var t := BeforeSlash(s);
    assert '/' !in t && t[..|t|] == t;
  }

  lemma {:induction false} LawsCanHold()
    ensures PrefixLaw(Sample()) && LengthLaw(Sample()) && SlashLaw(Sample())
  {
    var ip := Sample();
    forall s | ip.parsePrefix(s).Some?
      ensures '/' in s && ip.parseAddr(BeforeSlash(s)) == Some(ip.parsePrefix(s).value.addr) && ip.parseAddr(s).None?
    {
      BeforeSlashTwice(s);
    }
    forall x, y, l | SameFamily(ip, x, y) && ip.parsePrefix(x + "/" + l).Some?
      ensures ip.parsePrefix(y + "/" + l).Some?
    {
      Unzoned(x, l);
      Unzoned(y, l);
    }
  }

  /** A length never follows a zone. */
  lemma Unzoned(x: string, l: string)
    requires SampleAddr(x).Some?
    ensures SamplePrefix(x + "/" + l).Some? <==> !Zoned(x)
  {
    if '/' in x {
      var i := IndexOf(x, '/');
      IndexOfAppend(x[..i], x[i + 1..] + "/" + l, '/');
      assert x + "/" + l == x[..i] + ['/'] + (x[i + 1..] + "/" + l);
      assert (x + "/" + l)[..i] == x[..i];
    } else {
      IndexOfAppend(x, l, '/');
      assert x + "/" + l == x + ['/'] + l;
      assert (x + "/" + l)[..|x|] == x == x[..|x|];
    }
  }
}
