/** scenario-consent.ts: is a model endpoint provably on a private network, and may inference run? */
module Destination {
  import opened Prelude
  import opened JsInt32
  import opened Text

  datatype ModelDestination = Local | External

  datatype Quad = Quad(a: nat, b: nat, c: nat, d: nat)

  predicate InRange(q: Quad) {
    q.a <= 255 && q.b <= 255 && q.c <= 255 && q.d <= 255
  }

  // ----- text to numbers -----

  /** `\d{1,max}` */
  predicate ShortNumber(s: string, max: nat) {
    1 <= |s| <= max && AllDigits(s)
  }

  /** `^(\d{1,3})\.(\d{1,3})\.(\d{1,3})\.(\d{1,3})$`, with the four captures as numbers. */
  function ParseQuad(s: string): Option<Quad> {
    var p := Split(s, '.');
    if |p| == 4 && ShortNumber(p[0], 3) && ShortNumber(p[1], 3) && ShortNumber(p[2], 3) && ShortNumber(p[3], 3)
    then Some(Quad(FromDecimal(p[0]), FromDecimal(p[1]), FromDecimal(p[2]), FromDecimal(p[3])))
    else None
  }

  /** A block as written: `a.b.c.d/prefix`. */
  datatype Block = Block(network: Quad, prefix: nat)

  /** `^(\d{1,3})\.(\d{1,3})\.(\d{1,3})\.(\d{1,3})\/(\d{1,2})$`, octets at most 255, prefix at most 32. */
  function ParseBlock(s: string): (r: Option<Block>)
    ensures r.Some? ==> InRange(r.value.network) && r.value.prefix <= 32
  {
    var p := Split(s, '/');
    if |p| == 2 && ParseQuad(p[0]).Some? && ShortNumber(p[1], 2) then
      var q, prefix := ParseQuad(p[0]).value, FromDecimal(p[1]);
      if !InRange(q) || prefix > 32 then None else Some(Block(q, prefix))
    else None
  }

  datatype Cidr = Cidr(network: int, mask: int)

  function ParseCidr(s: string): Option<Cidr> {
    match ParseBlock(s)
    case None => None
    case Some(b) => Some(Cidr(Ipv4ToInt(b.network), MaskOf(b.prefix)))
  }

  /** The expression's matcher against the expression: exactly the strings of that shape. */
  lemma QuadIff(s: string)
    ensures ParseQuad(s).Some? <==>
            exists w, x, y, z :: ShortNumber(w, 3) && ShortNumber(x, 3) && ShortNumber(y, 3) && ShortNumber(z, 3)
                                 && s == w + "." + x + "." + y + "." + z
  {
    var p := Split(s, '.');
    JoinOfSplit(s, '.');
    if ParseQuad(s).Some? {
      JoinOfFour(p[0], p[1], p[2], p[3]);
      assert p == [p[0], p[1], p[2], p[3]];
      assert s == p[0] + "." + p[1] + "." + p[2] + "." + p[3];
    }
    forall w, x, y, z | ShortNumber(w, 3) && ShortNumber(x, 3) && ShortNumber(y, 3) && ShortNumber(z, 3)
                        && s == w + "." + x + "." + y + "." + z
      ensures ParseQuad(s).Some?
    {
      JoinOfFour(w, x, y, z);
      SplitOfJoin([w, x, y, z], '.');
    }
  }

  /** What a well-formed overlay entry is: a text of the CIDR expression's shape with its numbers in range. */
  lemma BlockIff(s: string)
    ensures ParseBlock(s).Some? <==>
            exists host, length :: ParseQuad(host).Some? && InRange(ParseQuad(host).value)
                                   && ShortNumber(length, 2) && FromDecimal(length) <= 32 && s == host + "/" + length
    ensures ParseBlock(s).Some? ==> exists host, length :: s == host + "/" + length && ParseQuad(host) == Some(ParseBlock(s).value.network)
                                                      && AllDigits(length) && FromDecimal(length) == ParseBlock(s).value.prefix
  {
    var p := Split(s, '/');
    JoinOfSplit(s, '/');
    if ParseBlock(s).Some? {
      assert p == [p[0], p[1]] && p[1..] == [p[1]];
      assert s == p[0] + "/" + p[1];
    }
    forall host, length | ParseQuad(host).Some? && InRange(ParseQuad(host).value)
                          && ShortNumber(length, 2) && FromDecimal(length) <= 32 && s == host + "/" + length
      ensures ParseBlock(s).Some?
    {
      QuadHasNoSlash(host);
      SplitAtFirst(host, '/', length);
      SplitOfWord(length, '/');
    }
  }

  lemma QuadHasNoSlash(host: string)
    requires ParseQuad(host).Some?
    ensures '/' !in host
  {
    QuadIff(host);
  }

  /** The four captures, in order, as the numbers they spell. */
  lemma QuadValue(w: string, x: string, y: string, z: string)
    requires ShortNumber(w, 3) && ShortNumber(x, 3) && ShortNumber(y, 3) && ShortNumber(z, 3)
    ensures ParseQuad(w + "." + x + "." + y + "." + z) == Some(Quad(FromDecimal(w), FromDecimal(x), FromDecimal(y), FromDecimal(z)))
  {
    var p := [w, x, y, z];
    JoinOfFour(w, x, y, z);
    assert Split(w + "." + x + "." + y + "." + z, '.') == p by {
      SplitOfJoin(p, '.');
    }
    assert p[0] == w && p[1] == x && p[2] == y && p[3] == z;
  }

  lemma JoinOfFour(w: string, x: string, y: string, z: string)
    ensures Join([w, x, y, z], '.') == w + "." + x + "." + y + "." + z
  {
    assert [w, x, y, z][1..] == [x, y, z] && [x, y, z][1..] == [y, z] && [y, z][1..] == [z];
    assert Join([y, z], '.') == y + "." + z;
    assert Join([x, y, z], '.') == x + "." + (y + "." + z);
    assert Join([w, x, y, z], '.') == w + "." + (x + "." + (y + "." + z));
  }

  function PrintQuad(q: Quad): string {
    ToDecimal(q.a) + "." + ToDecimal(q.b) + "." + ToDecimal(q.c) + "." + ToDecimal(q.d)
  }

  function PrintBlock(b: Block): string {
    PrintQuad(b.network) + "/" + ToDecimal(b.prefix)
  }

  lemma NumeralIsShort(n: nat)
    requires n <= 255
    ensures ShortNumber(ToDecimal(n), 3) && FromDecimal(ToDecimal(n)) == n
    ensures n <= 32 ==> ShortNumber(ToDecimal(n), 2)
  {
    DecimalRoundTrip(n);
    DecimalLength(n);
  }

  lemma QuadRoundTrip(q: Quad)
    requires InRange(q)
    ensures ParseQuad(PrintQuad(q)) == Some(q)
  {
    NumeralIsShort(q.a);
    NumeralIsShort(q.b);
    NumeralIsShort(q.c);
    NumeralIsShort(q.d);
    JoinOfFour(ToDecimal(q.a), ToDecimal(q.b), ToDecimal(q.c), ToDecimal(q.d));
    SplitOfJoin([ToDecimal(q.a), ToDecimal(q.b), ToDecimal(q.c), ToDecimal(q.d)], '.');
  }

  /** Printing a block and parsing it gives the block back. */
  lemma BlockRoundTrip(b: Block)
    requires InRange(b.network) && b.prefix <= 32
    ensures ParseBlock(PrintBlock(b)) == Some(b)
  {
    QuadRoundTrip(b.network);
    NumeralIsShort(b.prefix);
    QuadHasNo(b.network, '/');
    SplitAtFirst(PrintQuad(b.network), '/', ToDecimal(b.prefix));
    SplitOfWord(ToDecimal(b.prefix), '/');
  }

  lemma QuadHasNo(q: Quad, c: char)
    requires !IsDigit(c) && c != '.'
    ensures c !in PrintQuad(q)
  {
  }

  // ----- the 32-bit arithmetic -----

  /** `((a << 24) | (b << 16) | (c << 8) | d) >>> 0` */
  function Ipv4ToInt(q: Quad): int {
    Ushr(Or(Or(Or(Shl(q.a, 24), Shl(q.b, 16)), Shl(q.c, 8)), q.d), 0)
  }

  /** `prefix === 0 ? 0 : (0xffff_ffff << (32 - prefix)) >>> 0` */
  function MaskOf(prefix: nat): int {
    if prefix == 0 then 0 else Ushr(Shl(0xffff_ffff, 32 - prefix), 0)
  }

  /** `(hostInt & mask) === (network & mask)` */
  predicate Matches(q: Quad, c: Cidr) {
    And(Ipv4ToInt(q), c.mask) == And(c.network, c.mask)
  }

  /** The address as a plain number. */
  function Plain(q: Quad): nat {
    q.a * 0x100_0000 + q.b * 0x1_0000 + q.c * 0x100 + q.d
  }

  /** Membership in a block, without bits: the same value once the host part is divided away. */
  predicate InBlock(host: Quad, network: Quad, prefix: nat)
    requires prefix <= 32
  {
    Plain(host) / Pow2(32 - prefix) == Plain(network) / Pow2(32 - prefix)
  }

  lemma BitsAdd(u: nat, v: nat, high: nat, k: nat)
    requires u == high * Pow2(k) && v < Pow2(k)
    ensures BitOr(u, v) == u + v
  {
    OrIsAddition(high, v, k);
  }

  lemma OrOfParts(x: int, y: int, high: nat, k: nat)
    requires ToUint32(x) == high * Pow2(k) && ToUint32(y) < Pow2(k)
    requires ToUint32(x) + ToUint32(y) < TWO_32
    ensures ToUint32(Or(x, y)) == ToUint32(x) + ToUint32(y)
  {
    var u, v := ToUint32(x), ToUint32(y);
    BitsAdd(u, v, high, k);
    OrBits(x, y);
    SmallIsItself(u + v);
  }

  lemma ShiftOfOctet(o: nat, k: nat)
    requires o <= 255 && (k == 8 || k == 16 || k == 24)
    ensures ToUint32(Shl(o, k)) == o * Pow2(k)
  {
    Pow2Values();
    var x := o * Pow2(k);
    assert k % 32 == k && ToUint32(o) == o;
    assert x <= 255 * 0x100_0000 < TWO_32;
    SmallIsItself(x);
    ToUint32OfToInt32(x);
  }

  /** The signed shifts and ors, repaired by `>>> 0`, are the address itself. */
  lemma Ipv4ToIntIsPlain(q: Quad)
    requires InRange(q)
    ensures Ipv4ToInt(q) == Plain(q)
  {
    Pow2Values();
    var (a, b, c) := (Shl(q.a, 24), Shl(q.b, 16), Shl(q.c, 8));
    ShiftOfOctet(q.a, 24);
    ShiftOfOctet(q.b, 16);
    ShiftOfOctet(q.c, 8);
    OrOfParts(a, b, q.a, 24);
    var ab := Or(a, b);
    assert ToUint32(ab) == (q.a * 0x100 + q.b) * 0x1_0000;
    OrOfParts(ab, c, q.a * 0x100 + q.b, 16);
    var abc := Or(ab, c);
    assert ToUint32(abc) == (q.a * 0x1_0000 + q.b * 0x100 + q.c) * 0x100;
    SmallIsItself(q.d);
    OrOfParts(abc, q.d, q.a * 0x1_0000 + q.b * 0x100 + q.c, 8);
    UnsignedRepair(Or(abc, q.d));
  }

  lemma ShiftedOnes(p: nat)
    requires 0 < p <= TWO_31
    ensures ToUint32((TWO_32 - 1) * p) == TWO_32 - p
  {
    assert (TWO_32 - 1) * p == (p - 1) * TWO_32 + (TWO_32 - p);
    QuotientIs((TWO_32 - 1) * p, TWO_32, p - 1, TWO_32 - p);
  }

  /** The mask is all ones above the host part, at every prefix. */
  lemma MaskIsOnes(prefix: nat)
    requires prefix <= 32
    ensures MaskOf(prefix) == TWO_32 - Pow2(32 - prefix)
  {
    assert Pow2(32) == TWO_32 by {
      Pow2Values();
    }
    if prefix > 0 {
      var k := 32 - prefix;
      assert Pow2(32) == 2 * Pow2(31);
      Pow2Monotone(k, 31);
      ShiftOfOnes(k);
      UnsignedRepair(Shl(0xffff_ffff, k));
    }
  }

  lemma ShiftOfOnes(k: nat)
    requires k < 32 && Pow2(k) <= TWO_31
    ensures ToUint32(Shl(0xffff_ffff, k)) == TWO_32 - Pow2(k)
  {
    var p := Pow2(k);
    assert ToUint32(0xffff_ffff) == TWO_32 - 1 && k % 32 == k;
    ShiftedOnes(p);
    ToUint32OfToInt32((TWO_32 - 1) * p);
  }

  /** Why prefix 0 is a special case: the shift count is taken modulo 32, so the general expression
      would give all ones there and match a single address instead of all of them. */
  lemma GeneralExpressionFailsAtZero()
    ensures Ushr(Shl(0xffff_ffff, 32 - 0), 0) == 0xffff_ffff != MaskOf(0)
  {
    ToUint32OfToInt32(0xffff_ffff);
  }

  lemma AndOfSmall(x: nat, mask: nat, bits: nat)
    requires x < TWO_32 && mask < TWO_32 && bits < TWO_32 && BitAnd(x, mask) == bits
    ensures ToUint32(And(x, mask)) == bits
  {
    SmallIsItself(x);
    SmallIsItself(mask);
    AndBits(x, mask);
    SmallIsItself(bits);
  }

  lemma RemainderFits(x: nat, p: nat)
    requires p > 0
    ensures 0 <= x % p <= x
  {
    if x < p {
      QuotientIs(x, p, 0, x);
    }
  }

  lemma AndWithMaskOf(x: nat, prefix: nat)
    requires prefix <= 32 && x < TWO_32
    ensures ToUint32(And(x, MaskOf(prefix))) == x - x % Pow2(32 - prefix)
  {
    var k := 32 - prefix;
    var p := Pow2(k);
    assert Pow2(32) == TWO_32 by {
      Pow2Values();
    }
    MaskIsOnes(prefix);
    AndWithMask(x, k, 32);
    RemainderFits(x, p);
    AndOfSmall(x, TWO_32 - p, x - x % p);
  }

  lemma SameQuotient(x: nat, y: nat, p: nat)
    requires p > 0
    ensures x - x % p == y - y % p <==> x / p == y / p
  {
    assert x == (x / p) * p + x % p;
    assert y == (y / p) * p + y % p;
    if x / p > y / p {
      MulAtLeast(x / p - y / p, p);
      assert (x / p) * p - (y / p) * p == (x / p - y / p) * p;
    } else if x / p < y / p {
      MulAtLeast(y / p - x / p, p);
      assert (y / p) * p - (x / p) * p == (y / p - x / p) * p;
    }
  }

  /** For all addresses and all prefixes 0..32, the signed mask test is block membership. */
  lemma MatchesIffInBlock(host: Quad, network: Quad, prefix: nat)
    requires InRange(host) && InRange(network) && prefix <= 32
    ensures Matches(host, Cidr(Ipv4ToInt(network), MaskOf(prefix))) <==> InBlock(host, network, prefix)
  {
    Ipv4ToIntIsPlain(host);
    Ipv4ToIntIsPlain(network);
    AndWithMaskOf(Plain(host), prefix);
    AndWithMaskOf(Plain(network), prefix);
    SameQuotient(Plain(host), Plain(network), Pow2(32 - prefix));
    var m := MaskOf(prefix);
    ToInt32Injective(BitAnd(ToUint32(Plain(host)), ToUint32(m)), BitAnd(ToUint32(Plain(network)), ToUint32(m)));
    ToUint32OfToInt32(BitAnd(ToUint32(Plain(host)), ToUint32(m)));
    ToUint32OfToInt32(BitAnd(ToUint32(Plain(network)), ToUint32(m)));
  }

  // ----- the verdict -----

  predicate EndsWith(s: string, suffix: string) {
    |suffix| <= |s| && s[|s| - |suffix|..] == suffix
  }

  /** The search over the overlay; malformed entries are skipped. */
  predicate MatchesAdditional(q: Quad, cidrs: seq<string>) {
    cidrs != [] &&
    ((ParseCidr(cidrs[0]).Some? && Matches(q, ParseCidr(cidrs[0]).value)) || MatchesAdditional(q, cidrs[1..]))
  }

  function ClassifyHost(host: string, overlay: seq<string>): ModelDestination {
    if host == "localhost" || EndsWith(host, ".localhost") then Local
    else if EndsWith(host, ".local") then Local
    else if host == "::1" || host == "[::1]" then Local
    else match ParseQuad(host)
      case Some(q) =>
        if !InRange(q) then External
        else if q.a == 127 then Local
        else if q.a == 10 then Local
        else if q.a == 172 && 16 <= q.b <= 31 then Local
        else if q.a == 192 && q.b == 168 then Local
        else if q.a == 169 && q.b == 254 then Local
        else if MatchesAdditional(q, overlay) then Local
        else External
      case None => if '.' !in host && ':' !in host then Local else External
  }

  /** `hostname` is the URL parser followed by lower-casing; it has no answer for what is not a URL. */
  function HostOf(endpoint: Option<string>, hostname: string -> Option<string>): Option<string> {
    if endpoint.None? || Trim(endpoint.value) == "" then None else hostname(Trim(endpoint.value))
  }

  /** An omitted overlay is an empty one. */
  function ClassifyDestination(endpoint: Option<string>, hostname: string -> Option<string>, overlay: Option<seq<string>>): ModelDestination {
    match HostOf(endpoint, hostname)
    case None => External
    case Some(host) => ClassifyHost(host, if overlay.Some? then overlay.value else [])
  }

  /** Loopback, the three blocks of RFC 1918 section 3, and link-local. */
  const BUILT_IN: seq<Block> := [
    Block(Quad(127, 0, 0, 0), 8),
    Block(Quad(10, 0, 0, 0), 8),
    Block(Quad(172, 16, 0, 0), 12),
    Block(Quad(192, 168, 0, 0), 16),
    Block(Quad(169, 254, 0, 0), 16)]

  lemma LeadingOctets(q: Quad)
    requires InRange(q)
    ensures Plain(q) / Pow2(24) == q.a
    ensures Plain(q) / Pow2(16) == q.a * 0x100 + q.b
    ensures Plain(q) / Pow2(20) == q.a * 16 + q.b / 16
  {
    Pow2Values();
    Pow2Adds(4, 16);
    assert Pow2(4) == 16;
  }

  ghost predicate InBuiltIn(q: Quad) {
    exists b :: b in BUILT_IN && InBlock(q, b.network, b.prefix)
  }

  /** The hand-written branches are exactly those blocks. */
  lemma BuiltInBranches(q: Quad)
    requires InRange(q)
    ensures (q.a == 127 || q.a == 10 || (q.a == 172 && 16 <= q.b <= 31) || (q.a == 192 && q.b == 168) || (q.a == 169 && q.b == 254))
            <==> InBuiltIn(q)
  {
    LeadingOctets(q);
    LeadingOctets(Quad(127, 0, 0, 0));
    LeadingOctets(Quad(10, 0, 0, 0));
    LeadingOctets(Quad(172, 16, 0, 0));
    LeadingOctets(Quad(192, 168, 0, 0));
    LeadingOctets(Quad(169, 254, 0, 0));
    assert InBlock(q, BUILT_IN[0].network, 8) <==> q.a == 127;
    assert InBlock(q, BUILT_IN[1].network, 8) <==> q.a == 10;
    assert InBlock(q, BUILT_IN[2].network, 12) <==> q.a == 172 && 16 <= q.b <= 31;
    assert InBlock(q, BUILT_IN[3].network, 16) <==> q.a == 192 && q.b == 168;
    assert InBlock(q, BUILT_IN[4].network, 16) <==> q.a == 169 && q.b == 254;
  }

  /** Some well-formed overlay entry contains the address. */
  ghost predicate Overlaid(q: Quad, overlay: seq<string>) {
    exists c :: c in overlay && ParseBlock(c).Some? && InBlock(q, ParseBlock(c).value.network, ParseBlock(c).value.prefix)
  }

  lemma {:induction false} OverlayIff(q: Quad, overlay: seq<string>)
    requires InRange(q)
    ensures MatchesAdditional(q, overlay) <==> Overlaid(q, overlay)
  {
    if overlay != [] {
      OverlayIff(q, overlay[1..]);
      assert overlay == [overlay[0]] + overlay[1..];
      if ParseBlock(overlay[0]).Some? {
        MatchesIffInBlock(q, ParseBlock(overlay[0]).value.network, ParseBlock(overlay[0]).value.prefix);
      }
    }
  }

  /** A dotted quad ends in a digit and holds a dot, so none of the name branches takes it. */
  lemma QuadIsNoName(host: string)
    requires ParseQuad(host).Some?
    ensures host != "localhost" && host != "::1" && host != "[::1]"
    ensures !EndsWith(host, ".localhost") && !EndsWith(host, ".local")
  {
    QuadIff(host);
    var w, x, y, z :| ShortNumber(w, 3) && ShortNumber(x, 3) && ShortNumber(y, 3) && ShortNumber(z, 3)
                      && host == w + "." + x + "." + y + "." + z;
    assert IsDigit(Last(z)) && Last(host) == Last(z);
    assert host[|w|] == '.';
    assert Last("localhost") == 't' && Last("[::1]") == ']';
    assert host == "::1" ==> '.' in "::1";
  }

  /** The whole verdict for a dotted-quad host: local iff every octet is in range and the address lies
      in a built-in block or in a well-formed block of the overlay. */
  lemma Ipv4Verdict(host: string, overlay: seq<string>)
    requires ParseQuad(host).Some?
    ensures ClassifyHost(host, overlay) == Local <==>
              InRange(ParseQuad(host).value) && (InBuiltIn(ParseQuad(host).value) || Overlaid(ParseQuad(host).value, overlay))
  {
    var q := ParseQuad(host).value;
    QuadIsNoName(host);
    if InRange(q) {
      BuiltInBranches(q);
      OverlayIff(q, overlay);
    }
  }

  /** Only the well-formed entries matter, not the malformed ones, nor order, nor repetition; and for a
      host that is no dotted quad the overlay does not matter at all. */
  lemma OnlyWellFormedEntriesMatter(host: string, one: seq<string>, two: seq<string>)
    requires ParseQuad(host).Some? ==> forall c :: ParseBlock(c).Some? ==> (c in one <==> c in two)
    ensures ClassifyHost(host, one) == ClassifyHost(host, two)
  {
    match ParseQuad(host)
    case None =>
    case Some(q) =>
      if InRange(q) {
        OverlayIff(q, one);
        OverlayIff(q, two);
      }
  }

  /** More overlay never turns a local endpoint external, for any endpoint at all. */
  lemma MonotoneInOverlay(endpoint: Option<string>, hostname: string -> Option<string>, less: seq<string>, more: seq<string>)
    requires forall c :: c in less ==> c in more
    requires ClassifyDestination(endpoint, hostname, Some(less)) == Local
    ensures ClassifyDestination(endpoint, hostname, Some(more)) == Local
  {
    var host := HostOf(endpoint, hostname).value;
    match ParseQuad(host)
    case None =>
    case Some(q) =>
      if InRange(q) {
        OverlayIff(q, less);
        OverlayIff(q, more);
      }
  }

  // ----- names -----

  /** No domain and no port-like part: an intranet name. */
  predicate BareName(host: string) {
    '.' !in host && ':' !in host
  }

  predicate LoopbackAddress6(host: string) {
    host == "::1" || host == "[::1]"
  }

  /** Its last label, after a dot, is one of the two reserved for local use. */
  predicate LocalDomain(host: string) {
    |Split(host, '.')| > 1 && Last(Split(host, '.')) in {"local", "localhost"}
  }

  lemma EndsWithLabel(host: string, word: string)
    requires '.' !in word
    ensures EndsWith(host, "." + word) <==> |Split(host, '.')| > 1 && Last(Split(host, '.')) == word
  {
    LastPartIff(host, '.', word);
    if EndsWith(host, "." + word) {
      var p := host[..|host| - |word| - 1];
      assert host == p + host[|host| - |word| - 1..];
      assert host == p + ['.'] + word;
    }
    forall p | host == p + ['.'] + word ensures EndsWith(host, "." + word) {
      assert host[|p|..] == "." + word;
    }
  }

  /** The whole verdict for a host that is no dotted quad, whatever the overlay: local iff it is a bare
      name, an IPv6 loopback address, or in a local domain. */
  lemma NameVerdict(host: string, overlay: seq<string>)
    requires ParseQuad(host).None?
    ensures ClassifyHost(host, overlay) == Local <==> BareName(host) || LoopbackAddress6(host) || LocalDomain(host)
  {
    LocalDomainIff(host);
    assert BareName("localhost");
  }

  lemma LocalDomainIff(host: string)
    ensures LocalDomain(host) <==> EndsWith(host, ".local") || EndsWith(host, ".localhost")
  {
    EndsWithLabel(host, "local");
    EndsWithLabel(host, "localhost");
    assert "." + "local" == ".local" && "." + "localhost" == ".localhost";
  }

  /** So no public name is ever local: any domain whose last label is neither of the two and not a number. */
  lemma PublicNamesAreExternal(domain: string, top: string, overlay: seq<string>)
    requires '.' !in top && top !in {"local", "localhost"} && !ShortNumber(top, 3)
    ensures ClassifyHost(domain + "." + top, overlay) == External
  {
    var host := domain + "." + top;
    SplitAtLast(domain, '.', top);
    assert ParseQuad(host).None?;
    assert host[|domain|] == '.';
    assert !LoopbackAddress6(host) by {
      assert '.' !in "::1" && '.' !in "[::1]" && '.' in host;
    }
    NameVerdict(host, overlay);
  }

  /** And every name of a local domain, and every bare name, is. */
  lemma LocalNamesAreLocal(domain: string, name: string, overlay: seq<string>)
    requires BareName(name)
    ensures ClassifyHost(domain + ".local", overlay) == Local && ClassifyHost(domain + ".localhost", overlay) == Local
    ensures ClassifyHost(name, overlay) == Local
  {
    assert EndsWith(domain + ".local", ".local") && EndsWith(domain + ".localhost", ".localhost");
    if ParseQuad(name).Some? {
      QuadHasDot(name);
    }
  }

  lemma QuadHasDot(host: string)
    ensures ParseQuad(host).Some? ==> '.' in host
  {
    SplitAddsUp(host, '.');
  }

  /** White space around an endpoint is nothing; an endpoint that is absent, blank or not a URL is external. */
  lemma EndpointVerdict(left: string, core: string, right: string, hostname: string -> Option<string>, overlay: Option<seq<string>>)
    requires Blank(left) && Tight(core) && Blank(right)
    ensures ClassifyDestination(None, hostname, overlay) == External
    ensures ClassifyDestination(Some(left + core + right), hostname, overlay) ==
              if core == "" || hostname(core).None? then External
              else ClassifyHost(hostname(core).value, if overlay.Some? then overlay.value else [])
  {
    TrimOfPadded(left, core, right);
  }

  // ----- the deployment overlay, as read from the environment -----

  function Filled(parts: seq<string>): seq<string> {
    if parts == [] then []
    else (if Trim(parts[0]) != "" then [Trim(parts[0])] else []) + Filled(parts[1..])
  }

  /** The build-time value if it is a non-empty string, else the environment variable, else nothing;
      split at commas, trimmed, empties dropped. */
  function ReadAdditionalPrivateCidrs(define: Option<string>, env: Option<string>): seq<string> {
    var raw := if define.Some? && define.value != "" then define.value
               else if env.Some? then env.value else "";
    Filled(Split(raw, ','))
  }

  /** The build-time value, when it is not empty, hides the environment; an empty one does not. */
  lemma DefineComesFirst(define: string, env: Option<string>)
    ensures ReadAdditionalPrivateCidrs(Some(define), env) == ReadAdditionalPrivateCidrs(None, if define != "" then Some(define) else env)
    ensures ReadAdditionalPrivateCidrs(None, None) == []
  {
    assert Split("", ',') == [""] && Trim("") == "";
    assert [""][1..] == [];
  }

  lemma {:induction false} FilledIff(parts: seq<string>, text: string)
    ensures text in Filled(parts) <==> text != "" && exists k :: 0 <= k < |parts| && Trim(parts[k]) == text
  {
    if parts != [] {
      var rest := parts[1..];
      FilledIff(rest, text);
      assert forall k :: 0 <= k < |rest| ==> rest[k] == parts[k + 1];
      if text != "" && Trim(parts[0]) != text && exists k :: 0 <= k < |parts| && Trim(parts[k]) == text {
        var k :| 0 <= k < |parts| && Trim(parts[k]) == text;
        assert Trim(rest[k - 1]) == text;
      }
    }
  }

  /** Some part of the text between commas is, but for white space around it, a well-formed block that
      contains the address. */
  ghost predicate NamedIn(q: Quad, env: string) {
    exists k :: 0 <= k < |Split(env, ',')| && NamedBy(q, Trim(Split(env, ',')[k]))
  }

  predicate NamedBy(q: Quad, text: string) {
    ParseBlock(text).Some? && InBlock(q, ParseBlock(text).value.network, ParseBlock(text).value.prefix)
  }

  /** Whatever is written into the environment: blank and malformed parts, before or after, are nothing. */
  lemma EnvironmentOverlay(host: string, env: string)
    requires ParseQuad(host).Some?
    ensures ClassifyHost(host, ReadAdditionalPrivateCidrs(None, Some(env))) == Local <==>
              InRange(ParseQuad(host).value) && (InBuiltIn(ParseQuad(host).value) || NamedIn(ParseQuad(host).value, env))
  {
    var q, parts := ParseQuad(host).value, Split(env, ',');
    Ipv4Verdict(host, Filled(parts));
    if Overlaid(q, Filled(parts)) {
      var c :| c in Filled(parts) && NamedBy(q, c);
      FilledIff(parts, c);
      var k :| 0 <= k < |parts| && Trim(parts[k]) == c;
      assert NamedBy(q, Trim(parts[k]));
    }
    if NamedIn(q, env) {
      var k :| 0 <= k < |parts| && NamedBy(q, Trim(parts[k]));
      FilledIff(parts, Trim(parts[k]));
      assert Split("", '/') == [""];
    }
  }

  function Printed(blocks: seq<Block>): seq<string> {
    seq(|blocks|, k requires 0 <= k < |blocks| => PrintBlock(blocks[k]))
  }

  /** Each block as an operator may write it: with any white space around it. */
  predicate Spells(parts: seq<string>, blocks: seq<Block>, left: seq<string>, right: seq<string>) {
    && |parts| == |blocks| == |left| == |right|
    && forall k :: 0 <= k < |parts| ==> Blank(left[k]) && Blank(right[k]) && parts[k] == left[k] + PrintBlock(blocks[k]) + right[k]
  }

  lemma BlockText(b: Block, left: string, right: string)
    requires Blank(left) && Blank(right)
    ensures Trim(left + PrintBlock(b) + right) == PrintBlock(b) != ""
    ensures ',' !in left + PrintBlock(b) + right
  {
    var s := PrintBlock(b);
    QuadHasNo(b.network, ',');
    assert ',' !in ToDecimal(b.prefix);
    assert s[0] == ToDecimal(b.network.a)[0] && Last(s) == Last(ToDecimal(b.prefix));
    TrimOfPadded(left, s, right);
  }

  lemma {:induction false} FilledOfSpelled(parts: seq<string>, blocks: seq<Block>, left: seq<string>, right: seq<string>)
    requires Spells(parts, blocks, left, right)
    ensures Filled(parts) == Printed(blocks)
  {
    if blocks != [] {
      BlockText(blocks[0], left[0], right[0]);
      FilledOfSpelled(parts[1..], blocks[1..], left[1..], right[1..]);
      assert Printed(blocks)[1..] == Printed(blocks[1..]);
    }
  }

  ghost predicate InSome(q: Quad, blocks: seq<Block>) {
    exists k :: 0 <= k < |blocks| && blocks[k].prefix <= 32 && InBlock(q, blocks[k].network, blocks[k].prefix)
  }

  lemma OverlaidByPrinted(q: Quad, blocks: seq<Block>)
    requires forall k :: 0 <= k < |blocks| ==> InRange(blocks[k].network) && blocks[k].prefix <= 32
    ensures Overlaid(q, Printed(blocks)) <==> InSome(q, blocks)
  {
    var texts := Printed(blocks);
    forall k | 0 <= k < |texts| ensures texts[k] in texts && ParseBlock(texts[k]) == Some(blocks[k]) {
      BlockRoundTrip(blocks[k]);
    }
    if Overlaid(q, texts) {
      var c :| c in texts && ParseBlock(c).Some? && InBlock(q, ParseBlock(c).value.network, ParseBlock(c).value.prefix);
      var k :| 0 <= k < |texts| && texts[k] == c;
    }
  }

  /** End to end: with the blocks written into the environment, separated by commas and spaced in any
      way, an address is local iff it is in a built-in block or in one of those blocks. */
  lemma DeploymentOverlay(q: Quad, parts: seq<string>, blocks: seq<Block>, left: seq<string>, right: seq<string>)
    requires InRange(q) && blocks != [] && forall k :: 0 <= k < |blocks| ==> InRange(blocks[k].network) && blocks[k].prefix <= 32
    requires Spells(parts, blocks, left, right)
    ensures ClassifyHost(PrintQuad(q), ReadAdditionalPrivateCidrs(None, Some(Join(parts, ',')))) == Local
            <==> InBuiltIn(q) || InSome(q, blocks)
  {
    forall k | 0 <= k < |parts| ensures ',' !in parts[k] {
      BlockText(blocks[k], left[k], right[k]);
    }
    SplitOfJoin(parts, ',');
    FilledOfSpelled(parts, blocks, left, right);
    QuadRoundTrip(q);
    Ipv4Verdict(PrintQuad(q), Printed(blocks));
    OverlaidByPrinted(q, blocks);
  }

  // ----- the consent gate -----

  datatype Consent = Consent(granted: bool, grantedFor: ModelDestination)
  datatype BlockedReason = NoConsent | DestinationWidened

  function InferenceBlockedReason(consent: Option<Consent>, current: ModelDestination): Option<BlockedReason> {
    if consent.None? || !consent.value.granted then Some(NoConsent)
    else if consent.value.grantedFor == Local && current == External then Some(DestinationWidened)
    else None
  }

  /** Why inference is off: no consent at all; or a consent given for a local model, and a model that is
      external now. */
  lemma BlockedIff(consent: Option<Consent>, current: ModelDestination)
    ensures InferenceBlockedReason(consent, current) == Some(NoConsent) <==> !exists d :: consent == Some(Consent(true, d))
    ensures InferenceBlockedReason(consent, current) == Some(DestinationWidened) <==> consent == Some(Consent(true, Local)) && current == External
  {
    if consent.Some? && consent.value.granted {
      assert consent == Some(Consent(true, consent.value.grantedFor));
    }
  }

  /** With a consent given for a local model, every endpoint with a public host name is off, under every
      overlay. */
  lemma LocalConsentStopsAtPublicNames(endpoint: string, hostname: string -> Option<string>, domain: string, top: string, overlay: seq<string>)
    requires Tight(endpoint) && endpoint != "" && hostname(endpoint) == Some(domain + "." + top)
    requires '.' !in top && top !in {"local", "localhost"} && !ShortNumber(top, 3)
    ensures InferenceBlockedReason(Some(Consent(true, Local)), ClassifyDestination(Some(endpoint), hostname, Some(overlay)))
            == Some(DestinationWidened)
  {
    assert "" + endpoint + "" == endpoint;
    EndpointVerdict("", endpoint, "", hostname, Some(overlay));
    PublicNamesAreExternal(domain, top, overlay);
  }

  /** Consent shown for a local model never lets a name leave for an external one, whatever endpoint is
      configured later; and once inference may run, declaring more networks private keeps it running. */
  lemma ConsentIsNotWidened(consent: Option<Consent>, endpoint: Option<string>, hostname: string -> Option<string>,
                            less: seq<string>, more: seq<string>)
    requires forall c :: c in less ==> c in more
    requires InferenceBlockedReason(consent, ClassifyDestination(endpoint, hostname, Some(less))).None?
    ensures consent.Some? && consent.value.granted
    ensures consent.value.grantedFor == Local ==> ClassifyDestination(endpoint, hostname, Some(less)) == Local
    ensures InferenceBlockedReason(consent, ClassifyDestination(endpoint, hostname, Some(more))).None?
  {
    if ClassifyDestination(endpoint, hostname, Some(less)) == Local {
      MonotoneInOverlay(endpoint, hostname, less, more);
    }
  }
}
