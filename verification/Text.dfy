/** Strings as the scripts handle them: split, join, trim, decimal numerals. */
module Text {
  import opened Prelude

  function Join(parts: seq<string>, sep: char): string
    requires parts != []
  {
    if |parts| == 1 then parts[0] else parts[0] + [sep] + Join(parts[1..], sep)
  }

  /** `s.split(sep)` for a one-character separator. */
  function Split(s: string, sep: char): (parts: seq<string>)
    ensures parts != []
  {
    if s == "" then [""]
    else
      var rest := Split(s[1..], sep);
      if s[0] == sep then [""] + rest else [[s[0]] + rest[0]] + rest[1..]
  }

  lemma {:induction false} JoinOfSplit(s: string, sep: char)
    ensures Join(Split(s, sep), sep) == s
    ensures forall k :: 0 <= k < |Split(s, sep)| ==> sep !in Split(s, sep)[k]
  {
    if s != "" {
      JoinOfSplit(s[1..], sep);
      var rest := Split(s[1..], sep);
      assert [s[0]] + s[1..] == s;
      if s[0] == sep {
        assert ([""] + rest)[1..] == rest;
        assert "" + [sep] + Join(rest, sep) == s;
      } else {
        var word := [s[0]] + rest[0];
        assert ([word] + rest[1..])[1..] == rest[1..];
        if |rest| > 1 {
          assert word + [sep] + Join(rest[1..], sep) == [s[0]] + (rest[0] + [sep] + Join(rest[1..], sep));
        }
      }
    }
  }

  lemma {:induction false} SplitOfWord(word: string, sep: char)
    requires sep !in word
    ensures Split(word, sep) == [word]
  {
    if word != "" {
      SplitOfWord(word[1..], sep);
      assert [word[0]] + word[1..] == word;
    }
  }

  lemma {:induction false} SplitAtFirst(word: string, sep: char, tail: string)
    requires sep !in word
    ensures Split(word + [sep] + tail, sep) == [word] + Split(tail, sep)
  {
    var s := word + [sep] + tail;
    if word == "" {
      assert s == [sep] + tail && s[1..] == tail;
    } else {
      SplitAtFirst(word[1..], sep, tail);
      assert s[1..] == word[1..] + [sep] + tail;
      assert [word[0]] + word[1..] == word;
    }
  }

  lemma {:induction false} SplitOfJoin(parts: seq<string>, sep: char)
    requires parts != [] && forall k :: 0 <= k < |parts| ==> sep !in parts[k]
    ensures Split(Join(parts, sep), sep) == parts
  {
    if |parts| == 1 {
      SplitOfWord(parts[0], sep);
      assert parts == [parts[0]];
    } else {
      SplitOfJoin(parts[1..], sep);
      SplitAtFirst(parts[0], sep, Join(parts[1..], sep));
    }
  }

  lemma {:induction false} SplitAtLast(s: string, sep: char, word: string)
    requires sep !in word
    ensures Split(s + [sep] + word, sep) == Split(s, sep) + [word]
  {
    var all := s + [sep] + word;
    if s == "" {
      SplitOfWord(word, sep);
      assert all[1..] == word;
    } else {
      SplitAtLast(s[1..], sep, word);
      assert all[1..] == s[1..] + [sep] + word;
    }
  }

  lemma {:induction false} SplitAddsUp(s: string, sep: char)
    ensures |Split(s, sep)| > 1 <==> sep in s
  {
    if s != "" {
      SplitAddsUp(s[1..], sep);
    }
  }

  lemma {:induction false} JoinAtLast(parts: seq<string>, sep: char)
    requires |parts| > 1
    ensures Join(parts, sep) == Join(Front(parts), sep) + [sep] + Last(parts)
  {
    if |parts| == 2 {
      assert parts[1..] == [parts[1]] && Front(parts) == [parts[0]];
    } else {
      JoinAtLast(parts[1..], sep);
      assert Front(parts[1..]) == Front(parts)[1..] && Last(parts[1..]) == Last(parts);
      var tail := Join(Front(parts)[1..], sep);
      assert parts[0] + [sep] + (tail + [sep] + Last(parts)) == parts[0] + [sep] + tail + [sep] + Last(parts);
    }
  }

  /** A text ends in a separator and a word iff that word is its last part, and not its only one. */
  lemma LastPartIff(s: string, sep: char, word: string)
    requires sep !in word
    ensures (exists p :: s == p + [sep] + word) <==> |Split(s, sep)| > 1 && Last(Split(s, sep)) == word
  {
    forall p | s == p + [sep] + word ensures |Split(s, sep)| > 1 && Last(Split(s, sep)) == word {
      SplitAtLast(p, sep, word);
    }
    JoinOfSplit(s, sep);
    if |Split(s, sep)| > 1 && Last(Split(s, sep)) == word {
      JoinAtLast(Split(s, sep), sep);
      assert s == Join(Front(Split(s, sep)), sep) + [sep] + word;
    }
  }

  // ----- white space -----

  /** What `trim` removes: WhiteSpace and LineTerminator of ECMA-262. */
  predicate IsSpace(c: char) {
    || '\U{0009}' <= c <= '\U{000D}'
    || c == ' ' || c == '\U{00A0}' || c == '\U{1680}'
    || '\U{2000}' <= c <= '\U{200A}'
    || c == '\U{2028}' || c == '\U{2029}' || c == '\U{202F}' || c == '\U{205F}' || c == '\U{3000}' || c == '\U{FEFF}'
  }

  function TrimStart(s: string): string {
    if s != "" && IsSpace(s[0]) then TrimStart(s[1..]) else s
  }

  function TrimEnd(s: string): string {
    if s != "" && IsSpace(Last(s)) then TrimEnd(Front(s)) else s
  }

  function Trim(s: string): string {
    TrimEnd(TrimStart(s))
  }

  predicate Blank(s: string) {
    forall k :: 0 <= k < |s| ==> IsSpace(s[k])
  }

  /** No white space at either end. */
  predicate Tight(s: string) {
    s != "" ==> !IsSpace(s[0]) && !IsSpace(Last(s))
  }

  lemma {:induction false} TrimEndOfPadded(core: string, right: string)
    requires Tight(core) && Blank(right)
    ensures TrimEnd(core + right) == core
  {
    if right == "" {
      assert core + right == core;
    } else {
      assert Front(core + right) == core + Front(right);
      assert Last(core + right) == Last(right);
      TrimEndOfPadded(core, Front(right));
    }
  }

  /** Trimming finds the core of any padded string. */
  lemma {:induction false} TrimOfPadded(left: string, core: string, right: string)
    requires Blank(left) && Tight(core) && Blank(right)
    ensures Trim(left + core + right) == core
  {
    var s := left + core + right;
    if left != "" {
      assert s[1..] == left[1..] + core + right;
      TrimOfPadded(left[1..], core, right);
    } else if core != "" {
      assert s == core + right && s[0] == core[0];
      TrimEndOfPadded(core, right);
    } else {
      TrimOfBlank(right);
      assert s == right;
    }
  }

  lemma {:induction false} TrimOfBlank(s: string)
    requires Blank(s)
    ensures Trim(s) == ""
  {
    if s != "" {
      TrimOfBlank(s[1..]);
    }
  }

  // ----- decimal numerals -----

  predicate IsDigit(c: char) {
    '0' <= c <= '9'
  }

  predicate AllDigits(s: string) {
    forall k :: 0 <= k < |s| ==> IsDigit(s[k])
  }

  function Digit(n: nat): char
    requires n < 10
  {
    '0' + n as char
  }

  /** A number the way String(n) prints it. */
  function ToDecimal(n: nat): (s: string)
    ensures s != "" && AllDigits(s)
  {
    if n < 10 then [Digit(n)] else ToDecimal(n / 10) + [Digit(n % 10)]
  }

  function FromDecimal(s: string): nat
    requires AllDigits(s)
  {
    if s == "" then 0 else FromDecimal(Front(s)) * 10 + (Last(s) - '0') as nat
  }

  lemma {:induction false} DecimalRoundTrip(n: nat)
    ensures FromDecimal(ToDecimal(n)) == n
  {
    if n < 10 {
      assert Front([Digit(n)]) == "";
      assert FromDecimal("") == 0;
    } else {
      DecimalRoundTrip(n / 10);
      assert Front(ToDecimal(n)) == ToDecimal(n / 10);
    }
  }

  /** Leading zeros do not count. */
  lemma {:induction false} LeadingZero(s: string)
    requires AllDigits(s)
    ensures FromDecimal("0" + s) == FromDecimal(s)
  {
    if s == "" {
      assert Front("0") == "" && FromDecimal("") == 0;
    } else {
      LeadingZero(Front(s));
      assert Front("0" + s) == "0" + Front(s);
    }
  }

  lemma {:induction false} NoLeadingZero(n: nat)
    requires n > 0
    ensures ToDecimal(n)[0] != '0'
  {
    if n >= 10 {
      NoLeadingZero(n / 10);
    }
  }

  lemma {:induction false} DecimalLength(n: nat)
    ensures n < 10 ==> |ToDecimal(n)| == 1
    ensures 10 <= n < 100 ==> |ToDecimal(n)| == 2
    ensures 100 <= n < 1000 ==> |ToDecimal(n)| == 3
  {
    if n >= 10 {
      DecimalLength(n / 10);
    }
  }
}
