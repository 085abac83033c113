/** What a layer says under its keys: the words of the file, read without the program's own readers. */
module Said {
  import opened Basics
  import opened Sexp
  import opened Ast
  import opened Netip

  /** The value written under a key. */
  function Field(n: Layer, key: string): Option<Value> {
    match Lookup(n.props, key) case None => None case Some(p) => Some(p.val)
  }

  predicate Silent(n: Layer, key: string) {
    Field(n, key) == None
  }

  predicate Varies(n: Layer, key: string) {
    Field(n, key).Some? && Field(n, key).value.Is(Star)
  }

  /** The text written under a key, as a string or a symbol. */
  function TextOf(n: Layer, key: string): Option<string> {
    match Field(n, key)
    case Some(Atom(Text, text, _)) => Some(text)
    case Some(Atom(Symbol, text, _)) => Some(text)
    case _ => None
  }

  /** The unsigned number written under a key, in either base, is `x`. */
  ghost predicate Counts(n: Layer, key: string, x: nat) {
    && Field(n, key).Some? && Field(n, key).value.Is(Number)
    && exists hex, digits :: Field(n, key).value.text == ShowNumeral(false, hex, digits)
         && WfDigits(hex, digits) && Magnitude(hex, digits) == x
  }

  /** Nothing, a star, or a number below the bound. */
  ghost predicate CountsAtMost(n: Layer, key: string, bound: nat) {
    Silent(n, key) || Varies(n, key) || exists x: nat :: Counts(n, key, x) && x < bound
  }

  /** The number under a key, if there is one and not a star. */
  ghost predicate MayCount(n: Layer, key: string, bound: nat, x: Option<nat>) {
    match x
    case None => Silent(n, key) || Varies(n, key)
    case Some(v) => Counts(n, key, v) && v < bound
  }

  predicate NamesAddr(ip: NetIP, n: Layer, key: string, a: Addr) {
    TextOf(n, key).Some? && ip.parseAddr(TextOf(n, key).value) == Some(a)
  }

  /** An address with a length. */
  predicate NamesNet(ip: NetIP, n: Layer, key: string, p: Prefix) {
    TextOf(n, key).Some? && '/' in TextOf(n, key).value && ip.parsePrefix(TextOf(n, key).value) == Some(p)
  }

  /** One end of a tunnel, printed: nothing when it varies, else the address, with or without a length after it. */
  ghost predicate NamesEnd(ip: NetIP, n: Layer, key: string, end: Option<string>) {
    match end
    case None => Varies(n, key)
    case Some(text) =>
      || (exists p :: NamesNet(ip, n, key, p) && text == p.addr.text)
      || (exists a :: NamesAddr(ip, n, key, a) && '/' !in TextOf(n, key).value && text == a.text)
  }

  /** The address and length under :src, printed, if there is one: a sequence of at most one. */
  function NetOf(ip: NetIP, n: Layer): seq<string> {
    match TextOf(n, "src")
    case None => []
    case Some(text) =>
      if '/' in text && ip.parsePrefix(text).Some? && ip.parsePrefix(text).value.text != ""
      then [ip.parsePrefix(text).value.text] else []
  }

  predicate IsIP(n: Layer) {
    n.name == "ipv4" || n.name == "ipv6"
  }

  /** The address an IP layer carries. */
  function Carried(ip: NetIP, n: Layer): seq<string> {
    if IsIP(n) then NetOf(ip, n) else []
  }

  /** An IP layer has no :src, a star, or an address with a length. */
  ghost predicate WellAddressed(ip: NetIP, n: Layer) {
    IsIP(n) ==> Silent(n, "src") || Varies(n, "src") || exists p :: NamesNet(ip, n, "src", p)
  }

  /** A value has one reading as a number. */
  lemma CountsOnce(n: Layer, key: string, x: nat, y: nat)
    requires Counts(n, key, x) && Counts(n, key, y)
    ensures x == y
  {
    var text := Field(n, key).value.text;
    var h, d :| text == ShowNumeral(false, h, d) && WfDigits(h, d) && Magnitude(h, d) == x;
    var h', d' :| text == ShowNumeral(false, h', d') && WfDigits(h', d') && Magnitude(h', d') == y;
    NumeralLooks(false, h, d);
    NumeralLooks(false, h', d');
  }
}
