/** The image_b64 guard of protocol-schemas-inject.ts, against the encoding of RFC 4648 section 4. */
module Base64Guard {
  import opened Prelude

  const MAX_CHARS := 5_500_000

  newtype byte = x: int | 0 <= x < 256

  /** `[A-Za-z0-9+/]` */
  predicate InAlphabet(c: char) {
    'A' <= c <= 'Z' || 'a' <= c <= 'z' || '0' <= c <= '9' || c == '+' || c == '/'
  }

  predicate AllInAlphabet(s: string) {
    forall k :: 0 <= k < |s| ==> InAlphabet(s[k])
  }

  /** A body of alphabet characters, at least one, followed by exactly p pads. */
  predicate Splits(s: string, p: nat) {
    |s| > p && AllInAlphabet(s[..|s| - p]) && forall k :: |s| - p <= k < |s| ==> s[k] == '='
  }

  /** `/^[A-Za-z0-9+/]+={0,2}$/` */
  predicate MatchesExpression(s: string) {
    Splits(s, 0) || Splits(s, 1) || Splits(s, 2)
  }

  predicate Guard(s: string) {
    |s| <= MAX_CHARS && |s| > 0 && |s| % 4 == 0 && MatchesExpression(s)
  }

  // ----- the shape it stands for: four-character groups, padding only in the last -----

  predicate FullGroup(g: string) {
    |g| == 4 && AllInAlphabet(g)
  }

  predicate LastGroup(g: string) {
    |g| == 4 && InAlphabet(g[0]) && InAlphabet(g[1])
    && ((InAlphabet(g[2]) && (InAlphabet(g[3]) || g[3] == '=')) || (g[2] == '=' && g[3] == '='))
  }

  predicate Grouped(s: string) {
    if |s| <= 4 then LastGroup(s) else FullGroup(s[..4]) && Grouped(s[4..])
  }

  lemma SplitsGroupwise(s: string, p: nat)
    requires |s| > 4 && |s| % 4 == 0 && p <= 2
    ensures Splits(s, p) <==> FullGroup(s[..4]) && Splits(s[4..], p)
  {
    var tail := s[4..];
    assert s[..|s| - p] == s[..4] + tail[..|tail| - p];
    assert forall k :: 0 <= k < |tail| ==> tail[k] == s[k + 4];
    if FullGroup(s[..4]) && Splits(tail, p) {
      forall k | |s| - p <= k < |s| ensures s[k] == '=' {
        assert tail[k - 4] == '=';
      }
    }
  }

  /** The three conditions of the guard accept exactly the well-grouped texts within the cap. */
  lemma GuardIffGrouped(s: string)
    ensures Guard(s) <==> |s| <= MAX_CHARS && Grouped(s)
  {
    if |s| % 4 == 0 {
      MatchesIffGrouped(s);
    } else if Grouped(s) {
      GroupedLength(s);
    }
  }

  lemma {:induction false} GroupedLength(s: string)
    requires Grouped(s)
    ensures |s| % 4 == 0 && |s| > 0
  {
    if |s| > 4 {
      GroupedLength(s[4..]);
    }
  }

  lemma {:induction false} MatchesIffGrouped(s: string)
    requires |s| % 4 == 0
    ensures MatchesExpression(s) <==> Grouped(s)
  {
    if |s| == 4 {
      assert s[..4] == s;
      assert Splits(s, 1) <==> InAlphabet(s[0]) && InAlphabet(s[1]) && InAlphabet(s[2]) && s[3] == '=';
      assert Splits(s, 2) <==> InAlphabet(s[0]) && InAlphabet(s[1]) && s[2] == '=' && s[3] == '=';
    } else if |s| > 4 {
      MatchesIffGrouped(s[4..]);
      SplitsGroupwise(s, 0);
      SplitsGroupwise(s, 1);
      SplitsGroupwise(s, 2);
    }
  }

  // ----- what an accepted text stands for -----

  /** The 64 symbols in order. */
  function Symbol(v: nat): (c: char)
    requires v < 64
    ensures InAlphabet(c)
  {
    if v < 26 then 'A' + v as char
    else if v < 52 then 'a' + (v - 26) as char
    else if v < 62 then '0' + (v - 52) as char
    else if v == 62 then '+' else '/'
  }

  function Value(c: char): (v: nat)
    requires InAlphabet(c)
    ensures v < 64 && Symbol(v) == c
  {
    if 'A' <= c <= 'Z' then (c - 'A') as nat
    else if 'a' <= c <= 'z' then (c - 'a') as nat + 26
    else if '0' <= c <= '9' then (c - '0') as nat + 52
    else if c == '+' then 62 else 63
  }

  /** Table 1 of RFC 4648: where each run of symbols begins and ends, and that the runs have no gaps. */
  lemma SymbolsAreTheTable(v: nat)
    requires v < 64
    ensures Symbol(0) == 'A' && Symbol(25) == 'Z' && Symbol(26) == 'a' && Symbol(51) == 'z'
    ensures Symbol(52) == '0' && Symbol(61) == '9' && Symbol(62) == '+' && Symbol(63) == '/'
    ensures v !in {25, 51, 61, 62, 63} ==> Symbol(v + 1) as int == Symbol(v) as int + 1
  {
  }

  lemma ValueOfSymbol(v: nat)
    requires v < 64
    ensures Value(Symbol(v)) == v
  {
  }

  /** Three bytes as four six-bit values. */
  function Sextets(p: nat, q: nat, r: nat): (s: (nat, nat, nat, nat))
    requires p < 256 && q < 256 && r < 256
    ensures s.0 < 64 && s.1 < 64 && s.2 < 64 && s.3 < 64
  {
    (p / 4, p % 4 * 16 + q / 16, q % 16 * 4 + r / 64, r % 64)
  }

  /** Up to three bytes to one group. */
  function EncodeGroup(b: seq<byte>): (g: string)
    requires 1 <= |b| <= 3
    ensures LastGroup(g) && (|b| == 3 ==> FullGroup(g))
  {
    var (v, w, x, y) := Sextets(b[0] as nat, if |b| > 1 then b[1] as nat else 0, if |b| > 2 then b[2] as nat else 0);
    [Symbol(v), Symbol(w), if |b| > 1 then Symbol(x) else '=', if |b| > 2 then Symbol(y) else '=']
  }

  function Encode(b: seq<byte>): string {
    if b == [] then "" else if |b| <= 3 then EncodeGroup(b) else EncodeGroup(b[..3]) + Encode(b[3..])
  }

  /** Four six-bit values as three bytes. */
  function Octets(v: nat, w: nat, x: nat, y: nat): (o: (nat, nat, nat))
    requires v < 64 && w < 64 && x < 64 && y < 64
    ensures o.0 < 256 && o.1 < 256 && o.2 < 256
  {
    (v * 4 + w / 16, w % 16 * 16 + x / 4, x % 4 * 64 + y)
  }

  function SymbolValue(c: char): (v: nat)
    ensures v < 64
  {
    if InAlphabet(c) then Value(c) else 0
  }

  function DecodeGroup(g: string): (b: seq<byte>)
    requires LastGroup(g)
    ensures |b| == if g[3] != '=' then 3 else if g[2] != '=' then 2 else 1
  {
    var (p, q, r) := Octets(SymbolValue(g[0]), SymbolValue(g[1]), SymbolValue(g[2]), SymbolValue(g[3]));
    if g[2] == '=' then [p as byte] else if g[3] == '=' then [p as byte, q as byte] else [p as byte, q as byte, r as byte]
  }

  function Decode(s: string): seq<byte>
    requires Grouped(s)
  {
    if |s| <= 4 then DecodeGroup(s) else DecodeGroup(s[..4]) + Decode(s[4..])
  }

  /** Two bit fields packed into one number come apart again. */
  lemma Unpack(high: nat, low: nat)
    ensures low < 4 ==> (high * 4 + low) / 4 == high && (high * 4 + low) % 4 == low
    ensures low < 16 ==> (high * 16 + low) / 16 == high && (high * 16 + low) % 16 == low
  {
  }

  lemma OctetsOfSextets(p: nat, q: nat, r: nat)
    requires p < 256 && q < 256 && r < 256
    ensures var (v, w, x, y) := Sextets(p, q, r); Octets(v, w, x, y) == (p, q, r)
    ensures var (v, w, x, _) := Sextets(p, q, 0); Octets(v, w, x, 0).0 == p && Octets(v, w, x, 0).1 == q
    ensures var (v, w, _, _) := Sextets(p, 0, 0); Octets(v, w, 0, 0).0 == p
  {
    Unpack(p % 4, q / 16);
    Unpack(q % 16, r / 64);
    Unpack(q % 16, 0);
    Unpack(p % 4, 0);
  }

  lemma GroupRoundTrip(b: seq<byte>)
    requires 1 <= |b| <= 3
    ensures DecodeGroup(EncodeGroup(b)) == b
  {
    var (p, q, r) := (b[0] as nat, if |b| > 1 then b[1] as nat else 0, if |b| > 2 then b[2] as nat else 0);
    var (v, w, x, y) := Sextets(p, q, r);
    OctetsOfSextets(p, q, r);
    ValueOfSymbol(v);
    ValueOfSymbol(w);
    ValueOfSymbol(x);
    ValueOfSymbol(y);
  }

  lemma DecodeOfAppend(g: string, tail: string)
    requires FullGroup(g) && Grouped(tail)
    ensures Grouped(g + tail) && Decode(g + tail) == DecodeGroup(g) + Decode(tail)
  {
    GroupedLength(tail);
    assert (g + tail)[..4] == g && (g + tail)[4..] == tail;
  }

  /** Encoding any non-empty bytes gives a well-grouped text, and decoding it gives the bytes back. */
  lemma {:induction false} RoundTrip(b: seq<byte>)
    requires b != []
    ensures Grouped(Encode(b)) && Decode(Encode(b)) == b
  {
    if |b| <= 3 {
      GroupRoundTrip(b);
    } else {
      RoundTrip(b[3..]);
      GroupRoundTrip(b[..3]);
      DecodeOfAppend(EncodeGroup(b[..3]), Encode(b[3..]));
      assert b == b[..3] + b[3..];
    }
  }

  /** The vectors of RFC 4648 section 10, "f" to "foobar", which fix the order of bits, symbols and pads. */
  lemma ShortVectors()
    ensures Encode([]) == "" && Encode([102]) == "Zg==" && Encode([102, 111]) == "Zm8=" && Encode([102, 111, 111]) == "Zm9v"
  {
    GroupOfOne(102, 'Z', 'g');
    GroupOfTwo(102, 111, 'Z', 'm', '8');
    GroupOfThree(102, 111, 111, 'Z', 'm', '9', 'v');
  }

  lemma LongVectors(b: seq<byte>)
    requires 4 <= |b| <= 6 && b[0] == 102 && b[1] == 111 && b[2] == 111 && b[3] == 98
    requires (|b| > 4 ==> b[4] == 97) && (|b| > 5 ==> b[5] == 114)
    ensures Encode(b) == "Zm9v" + (if |b| == 4 then "Yg==" else if |b| == 5 then "YmE=" else "YmFy")
  {
    GroupOfThree(102, 111, 111, 'Z', 'm', '9', 'v');
    assert b[..3] == [102, 111, 111];
    TailVectors(b[3..]);
  }

  lemma TailVectors(t: seq<byte>)
    requires 1 <= |t| <= 3 && t[0] == 98 && (|t| > 1 ==> t[1] == 97) && (|t| > 2 ==> t[2] == 114)
    ensures Encode(t) == if |t| == 1 then "Yg==" else if |t| == 2 then "YmE=" else "YmFy"
  {
    if |t| == 1 {
      GroupOfOne(98, 'Y', 'g');
      assert t == [98];
    } else if |t| == 2 {
      GroupOfTwo(98, 97, 'Y', 'm', 'E');
      assert t == [98, 97];
    } else {
      GroupOfThree(98, 97, 114, 'Y', 'm', 'F', 'y');
      assert t == [98, 97, 114];
    }
  }

  lemma GroupOfOne(p: byte, c: char, d: char)
    requires Symbol(p as nat / 4) == c && Symbol(p as nat % 4 * 16) == d
    ensures EncodeGroup([p]) == [c, d, '=', '='] && Encode([p]) == [c, d, '=', '=']
  {
  }

  lemma GroupOfTwo(p: byte, q: byte, c: char, d: char, e: char)
    requires Symbol(p as nat / 4) == c && Symbol(p as nat % 4 * 16 + q as nat / 16) == d && Symbol(q as nat % 16 * 4) == e
    ensures EncodeGroup([p, q]) == [c, d, e, '='] && Encode([p, q]) == [c, d, e, '=']
  {
  }

  lemma GroupOfThree(p: byte, q: byte, r: byte, c: char, d: char, e: char, f: char)
    requires Symbol(p as nat / 4) == c && Symbol(p as nat % 4 * 16 + q as nat / 16) == d
    requires Symbol(q as nat % 16 * 4 + r as nat / 64) == e && Symbol(r as nat % 64) == f
    ensures EncodeGroup([p, q, r]) == [c, d, e, f] && Encode([p, q, r]) == [c, d, e, f]
  {
  }

  lemma ThreeMore(n: nat)
    ensures n > 3 ==> (n + 2) / 3 == (n - 3 + 2) / 3 + 1
    ensures (n + 2) / 3 == if n == 0 then 0 else if n <= 3 then 1 else (n + 2) / 3
  {
  }

  lemma {:induction false} EncodedLength(b: seq<byte>)
    ensures |Encode(b)| == (|b| + 2) / 3 * 4
  {
    var tail := if |b| > 3 then b[3..] else [];
    ThreeMore(|b|);
    if |b| > 3 {
      EncodedLength(tail);
      assert |Encode(b)| == 4 + |Encode(tail)|;
    }
  }

  /** Every encoding is accepted, up to exactly the number of bytes the cap leaves room for. */
  lemma EncodingsAreAcceptedIff(b: seq<byte>)
    requires b != []
    ensures Guard(Encode(b)) <==> |b| <= 4_125_000
  {
    var s := Encode(b);
    assert Grouped(s) by {
      RoundTrip(b);
    }
    assert |s| == (|b| + 2) / 3 * 4 by {
      EncodedLength(b);
    }
    GuardIffGrouped(s);
    RoomFor(|b|);
  }

  lemma RoomFor(n: nat)
    ensures (n + 2) / 3 * 4 <= MAX_CHARS <==> n <= 4_125_000
  {
  }

  function Padding(s: string): nat
    requires |s| >= 2
  {
    if Last(s) != '=' then 0 else if s[|s| - 2] != '=' then 1 else 2
  }

  lemma FourMore(n: nat)
    ensures (n + 4) / 4 == n / 4 + 1
  {
  }

  lemma SamePadding(s: string, tail: string)
    requires |s| >= 8 && tail == s[4..]
    ensures Padding(s) == Padding(tail)
  {
    assert Last(s) == Last(tail) && s[|s| - 2] == tail[|tail| - 2];
  }

  /** An accepted text of n characters stands for 3n/4 bytes less its padding. */
  lemma {:induction false} AcceptedLength(s: string)
    requires Grouped(s)
    ensures |s| >= 4 && |Decode(s)| == |s| / 4 * 3 - Padding(s)
  {
    GroupedLength(s);
    if |s| > 4 {
      var tail := s[4..];
      GroupedLength(tail);
      AcceptedLength(tail);
      assert s[..4][3] != '=' && |DecodeGroup(s[..4])| == 3;
      assert |Decode(s)| == 3 + |Decode(tail)|;
      FourMore(|tail|);
      SamePadding(s, tail);
    } else {
      assert |s| / 4 == 1;
    }
  }

  /** The bits of the last symbol that no byte uses. */
  predicate SpareBitsAreZero(s: string)
    requires Grouped(s) && |s| >= 4
  {
    if Padding(s) == 1 then SymbolValue(s[|s| - 2]) % 4 == 0
    else if Padding(s) == 2 then SymbolValue(s[|s| - 3]) % 16 == 0
    else true
  }

  lemma OctetParts(v: nat, w: nat, x: nat, y: nat)
    requires v < 64 && w < 64 && x < 64 && y < 64
    ensures var (p, q, r) := Octets(v, w, x, y);
            p / 4 == v && p % 4 == w / 16 && q / 16 == w % 16 && q % 16 == x / 4 && r / 64 == x % 4 && r % 64 == y
  {
  }

  /** Six-bit values through bytes and back; where a byte is missing, the spare bits are lost. */
  lemma SextetsOfOctets(v: nat, w: nat, x: nat, y: nat)
    requires v < 64 && w < 64 && x < 64 && y < 64
    ensures var (p, q, r) := Octets(v, w, x, y);
            && Sextets(p, q, r) == (v, w, x, y)
            && Sextets(p, q, 0) == (v, w, x / 4 * 4, 0)
            && Sextets(p, 0, 0) == (v, w / 16 * 16, 0, 0)
  {
    OctetParts(v, w, x, y);
    assert w / 16 * 16 + w % 16 == w && x / 4 * 4 + x % 4 == x;
  }

  lemma SymbolIff(v: nat, c: char)
    requires v < 64 && InAlphabet(c)
    ensures Symbol(v) == c <==> v == Value(c)
  {
    ValueOfSymbol(v);
  }

  lemma GroupCanonicalIff(g: string)
    requires LastGroup(g)
    ensures EncodeGroup(DecodeGroup(g)) == g <==>
            if g[3] != '=' then true else if g[2] != '=' then SymbolValue(g[2]) % 4 == 0 else SymbolValue(g[1]) % 16 == 0
  {
    var (v, w, x, y) := (SymbolValue(g[0]), SymbolValue(g[1]), SymbolValue(g[2]), SymbolValue(g[3]));
    SextetsOfOctets(v, w, x, y);
    var h := EncodeGroup(DecodeGroup(g));
    if g[3] != '=' {
      assert h == [Symbol(v), Symbol(w), Symbol(x), Symbol(y)];
    } else if g[2] != '=' {
      assert h == [Symbol(v), Symbol(w), Symbol(x / 4 * 4), '='];
      SymbolIff(x / 4 * 4, g[2]);
    } else {
      assert h == [Symbol(v), Symbol(w / 16 * 16), '=', '='];
      SymbolIff(w / 16 * 16, g[1]);
    }
  }

  lemma EncodeUnfolds(b: seq<byte>, g: seq<byte>, tail: seq<byte>)
    requires |g| == 3 && tail != [] && b == g + tail
    ensures Encode(b) == EncodeGroup(g) + Encode(tail)
  {
    assert b[..3] == g && b[3..] == tail;
  }

  lemma SpareBitsAreInTheLastGroup(s: string)
    requires Grouped(s) && |s| >= 8
    ensures Grouped(s[4..]) && (SpareBitsAreZero(s) <==> SpareBitsAreZero(s[4..]))
  {
    var tail := s[4..];
    assert Last(s) == Last(tail) && s[|s| - 2] == tail[|tail| - 2] && s[|s| - 3] == tail[|tail| - 3];
  }

  /** The guard's message says "canonical", but the guard only sees the shape: an accepted text is the
      canonical encoding of what it stands for iff its spare bits are zero. */
  lemma {:induction false} CanonicalIff(s: string)
    requires Grouped(s)
    ensures |s| >= 4
    ensures Encode(Decode(s)) == s <==> SpareBitsAreZero(s)
  {
    GroupedLength(s);
    if |s| == 4 {
      GroupCanonicalIff(s);
    } else {
      var (head, tail) := (s[..4], s[4..]);
      CanonicalIff(tail);
      GroupCanonicalIff(head);
      AcceptedLength(tail);
      SpareBitsAreInTheLastGroup(s);
      assert head[3] != '=' && |DecodeGroup(head)| == 3 && EncodeGroup(DecodeGroup(head)) == head;
      EncodeUnfolds(Decode(s), DecodeGroup(head), Decode(tail));
      assert s == head + tail;
      assert (head + Encode(Decode(tail)))[4..] == Encode(Decode(tail));
    }
  }

  /** An accepted text that is no encoding. */
  lemma NotEveryAcceptedTextIsCanonical(s: string)
    requires s == "AB=="
    ensures Guard(s) && Grouped(s) && Encode(Decode(s)) != s
  {
    GuardIffGrouped(s);
    assert s[0] == 'A' && s[1] == 'B' && s[2] == '=' && s[3] == '=';
    CanonicalIff(s);
    assert SymbolValue(s[1]) == 1;
  }
}
