/** i18n-web: filling the `{name}` holes of a message template. */
module Placeholders {
  import opened Prelude

  /** `[A-Za-z_]` */
  predicate IsNameStart(c: char) {
    'A' <= c <= 'Z' || 'a' <= c <= 'z' || c == '_'
  }

  /** `[A-Za-z0-9_]` */
  predicate IsNamePart(c: char) {
    IsNameStart(c) || '0' <= c <= '9'
  }

  /** Letters, digits and underscores, and no digit first. */
  predicate IsName(s: string) {
    && s != "" && !('0' <= s[0] <= '9')
    && forall k :: 0 <= k < |s| ==> 'A' <= s[k] <= 'Z' || 'a' <= s[k] <= 'z' || '0' <= s[k] <= '9' || s[k] == '_'
  }

  function HoleText(name: string): string {
    "{" + name + "}"
  }

  /** A hole called `name` starts the text. */
  predicate HoleHere(t: string, name: string) {
    IsName(name) && HoleText(name) <= t
  }

  // ----- the scanner -----

  /** `[A-Za-z0-9_]*`, greedily. */
  function NameRun(t: string): nat {
    if t == "" || !IsNamePart(t[0]) then 0 else 1 + NameRun(t[1..])
  }

  /** `\{([A-Za-z_][A-Za-z0-9_]*)\}` tried at the start of the text. */
  function MatchHere(t: string): Option<string> {
    if t == "" || t[0] != '{' then None
    else
      var n := NameRun(t[1..]);
      RunFits(t[1..]);
      if n > 0 && IsNameStart(t[1]) && n + 1 < |t| && t[n + 1] == '}' then Some(t[1..n + 1]) else None
  }

  lemma {:induction false} RunFits(t: string)
    ensures NameRun(t) <= |t| && forall k :: 0 <= k < NameRun(t) ==> IsNamePart(t[k])
    ensures NameRun(t) < |t| ==> !IsNamePart(t[NameRun(t)])
  {
    if t != "" && IsNamePart(t[0]) {
      RunFits(t[1..]);
    }
  }

  lemma {:induction false} RunOfName(name: string, rest: string)
    requires forall k :: 0 <= k < |name| ==> IsNamePart(name[k])
    requires rest != "" && !IsNamePart(rest[0])
    ensures NameRun(name + rest) == |name|
  {
    if name == "" {
      assert name + rest == rest;
    } else {
      assert (name + rest)[1..] == name[1..] + rest;
      RunOfName(name[1..], rest);
    }
  }

  /** The greedy matcher finds a hole exactly when there is one, and there is at most one. */
  lemma MatchIff(t: string, name: string)
    ensures MatchHere(t) == Some(name) <==> HoleHere(t, name)
  {
    if MatchHere(t) == Some(name) {
      RunFits(t[1..]);
      assert |name| == NameRun(t[1..]) && name == t[1..][..|name|];
      forall k | 0 <= k < |name| ensures IsNamePart(name[k]) {
        assert name[k] == t[1..][k];
      }
      assert HoleText(name) == t[..|name| + 2];
    }
    if HoleHere(t, name) {
      assert t[0] == '{' && t[|name| + 1] == '}' && t[1..|name| + 1] == name;
      assert t[1..] == name + t[|name| + 1..];
      assert t[1] == name[0];
      RunOfName(name, t[|name| + 1..]);
    }
  }

  datatype Segment = Literal(c: char) | Hole(name: string)

  function Scan(t: string): seq<Segment> {
    if t == "" then [] else
      match MatchHere(t)
      case Some(name) =>
        MatchIff(t, name);
        [Hole(name)] + Scan(t[|name| + 2..])
      case None => [Literal(t[0])] + Scan(t[1..])
  }

  function Source(segments: seq<Segment>): string {
    if segments == [] then ""
    else (if segments[0].Hole? then HoleText(segments[0].name) else [segments[0].c]) + Source(segments[1..])
  }

  /** Nothing of the template is lost or reordered by the scan. */
  lemma {:induction false} ScanIsLossless(t: string)
    ensures Source(Scan(t)) == t
    decreases |t|
  {
    if t != "" {
      match MatchHere(t)
      case Some(name) =>
        MatchIff(t, name);
        var rest := t[|name| + 2..];
        ScanIsLossless(rest);
        assert ([Hole(name)] + Scan(rest))[1..] == Scan(rest);
      case None =>
        var rest := t[1..];
        ScanIsLossless(rest);
        assert ([Literal(t[0])] + Scan(rest))[1..] == Scan(rest);
    }
  }

  /** A match that starts before a hole ends before it: what follows does not change it. */
  lemma MatchBeforeHole(p: string, rest: string)
    requires p != "" && rest != "" && rest[0] == '{'
    ensures MatchHere(p + rest) == MatchHere(p)
  {
    forall n | HoleHere(p + rest, n) ensures HoleHere(p, n) {
      assert (p + rest)[|p|] == '{';
      assert forall k :: 0 < k < |HoleText(n)| ==> HoleText(n)[k] != '{' && HoleText(n)[k] == (p + rest)[k];
      assert |HoleText(n)| <= |p|;
    }
    if MatchHere(p).Some? {
      MatchIff(p, MatchHere(p).value);
      MatchIff(p + rest, MatchHere(p).value);
    }
    if MatchHere(p + rest).Some? {
      MatchIff(p + rest, MatchHere(p + rest).value);
      MatchIff(p, MatchHere(p + rest).value);
    }
  }

  lemma {:induction false} ScanUpToBrace(p: string, rest: string)
    requires rest != "" && rest[0] == '{'
    ensures Scan(p + rest) == Scan(p) + Scan(rest)
    decreases |p|
  {
    if p == "" {
      assert p + rest == rest;
    } else {
      MatchBeforeHole(p, rest);
      var n := match MatchHere(p) { case Some(name) => (MatchIff(p, name); |name| + 2) case None => 1 };
      assert (p + rest)[n..] == p[n..] + rest;
      ScanUpToBrace(p[n..], rest);
    }
  }

  /** Every occurrence of a hole, wherever it stands, is found, and the text on its two sides is scanned
      as if it stood alone: occurrences cannot overlap and never hide one another. */
  lemma ScanFindsEveryHole(p: string, name: string, s: string)
    requires IsName(name)
    ensures Scan(p + HoleText(name) + s) == Scan(p) + [Hole(name)] + Scan(s)
  {
    var rest := HoleText(name) + s;
    assert p + HoleText(name) + s == p + rest;
    ScanUpToBrace(p, rest);
    assert HoleText(name) <= rest && rest[|name| + 2..] == s;
    MatchIff(rest, name);
  }

  ghost predicate HasHole(t: string, name: string) {
    exists i :: 0 <= i <= |t| && HoleHere(t[i..], name)
  }

  /** The names the scan reports are exactly those that occur. */
  lemma {:induction false} ScanReportsIff(t: string, name: string)
    ensures Hole(name) in Scan(t) <==> HasHole(t, name)
    decreases |t|
  {
    if HasHole(t, name) {
      var i :| 0 <= i <= |t| && HoleHere(t[i..], name);
      assert t == t[..i] + HoleText(name) + t[i + |name| + 2..];
      ScanFindsEveryHole(t[..i], name, t[i + |name| + 2..]);
    } else if t != "" {
      match MatchHere(t)
      case Some(n) =>
        MatchIff(t, n);
        assert t[0..] == t;
        NoHoleInTail(t, name, |n| + 2);
        ScanReportsIff(t[|n| + 2..], name);
      case None =>
        NoHoleInTail(t, name, 1);
        ScanReportsIff(t[1..], name);
    }
  }

  lemma NoHoleInTail(t: string, name: string, k: nat)
    requires k <= |t| && !HasHole(t, name)
    ensures !HasHole(t[k..], name)
  {
    forall i | 0 <= i <= |t[k..]| ensures !HoleHere(t[k..][i..], name) {
      assert t[k..][i..] == t[k + i..];
    }
  }

  // ----- formatting -----

  /** Done, or the name of the hole that had no value. */
  datatype Formatted = Done(text: string) | Needs(name: string)

  function Then(first: Formatted, second: Formatted): Formatted {
    if first.Needs? then first else if second.Needs? then second else Done(first.text + second.text)
  }

  function Fill(name: string, params: map<string, string>): Formatted {
    if name in params then Done(params[name]) else Needs(name)
  }

  /** `template.replace(PLACEHOLDER, fill)`: left to right, the callback's first throw ends it. */
  function Format(t: string, params: map<string, string>): Formatted {
    if t == "" then Done("") else
      match MatchHere(t)
      case Some(name) =>
        MatchIff(t, name);
        Then(Fill(name, params), Format(t[|name| + 2..], params))
      case None => Then(Done([t[0]]), Format(t[1..], params))
  }

  function Rendered(segments: seq<Segment>, params: map<string, string>): Formatted {
    if segments == [] then Done("")
    else Then(if segments[0].Hole? then Fill(segments[0].name, params) else Done([segments[0].c]),
              Rendered(segments[1..], params))
  }

  lemma RenderedCons(first: Segment, rest: seq<Segment>, params: map<string, string>)
    ensures Rendered([first] + rest, params)
            == Then(if first.Hole? then Fill(first.name, params) else Done([first.c]), Rendered(rest, params))
  {
    assert ([first] + rest)[1..] == rest;
  }

  lemma {:induction false} FormatIsRendered(t: string, params: map<string, string>)
    ensures Format(t, params) == Rendered(Scan(t), params)
    decreases |t|
  {
    if t != "" {
      match MatchHere(t)
      case Some(name) =>
        MatchIff(t, name);
        var rest := t[|name| + 2..];
        FormatIsRendered(rest, params);
        RenderedCons(Hole(name), Scan(rest), params);
      case None =>
        var rest := t[1..];
        FormatIsRendered(rest, params);
        RenderedCons(Literal(t[0]), Scan(rest), params);
    }
  }

  lemma {:induction false} RenderedOfAppend(a: seq<Segment>, b: seq<Segment>, params: map<string, string>)
    ensures Rendered(a + b, params) == Then(Rendered(a, params), Rendered(b, params))
  {
    if a == [] {
      assert a + b == b;
      var r := Rendered(b, params);
      assert r.Done? ==> "" + r.text == r.text;
    } else {
      assert (a + b)[1..] == a[1..] + b;
      RenderedOfAppend(a[1..], b, params);
      var x := if a[0].Hole? then Fill(a[0].name, params) else Done([a[0].c]);
      var y, z := Rendered(a[1..], params), Rendered(b, params);
      if x.Done? && y.Done? && z.Done? {
        assert x.text + (y.text + z.text) == x.text + y.text + z.text;
      }
    }
  }

  /** A hole anywhere is replaced by its value and nothing else: the value itself is never scanned, and
      the two sides are formatted as if they stood alone. The first hole without a value is the one named. */
  lemma FormatAroundHole(p: string, name: string, s: string, params: map<string, string>)
    requires IsName(name)
    ensures var (before, after) := (Format(p, params), Format(s, params));
            Format(p + HoleText(name) + s, params)
            == if before.Needs? then before
               else if name !in params then Needs(name)
               else if after.Needs? then after
               else Done(before.text + params[name] + after.text)
  {
    ScanFindsEveryHole(p, name, s);
    FormatIsRendered(p + HoleText(name) + s, params);
    FormatIsRendered(p, params);
    FormatIsRendered(s, params);
    RenderedOfAppend(Scan(p) + [Hole(name)], Scan(s), params);
    RenderedOfAppend(Scan(p), [Hole(name)], params);
    assert [Hole(name)][1..] == [];
    var f := Fill(name, params);
    assert f.Done? ==> f.text + "" == f.text;
  }

  /** Text without holes comes out unchanged. */
  lemma {:induction false} PlainTextIsKept(t: string, params: map<string, string>)
    requires forall name :: !HasHole(t, name)
    ensures Format(t, params) == Done(t)
    decreases |t|
  {
    if t != "" {
      assert t[0..] == t;
      if MatchHere(t).Some? {
        MatchIff(t, MatchHere(t).value);
        assert HasHole(t, MatchHere(t).value);
      }
      forall name ensures !HasHole(t[1..], name) {
        NoHoleInTail(t, name, 1);
      }
      PlainTextIsKept(t[1..], params);
      assert [t[0]] + t[1..] == t;
    }
  }

  lemma {:induction false} RenderedNeedsIff(segments: seq<Segment>, params: map<string, string>)
    ensures Rendered(segments, params).Needs? <==> exists k :: 0 <= k < |segments| && segments[k].Hole? && segments[k].name !in params
    ensures Rendered(segments, params).Needs? ==>
              exists k :: 0 <= k < |segments| && segments[k] == Hole(Rendered(segments, params).name) && segments[k].name !in params
                          && forall j :: 0 <= j < k && segments[j].Hole? ==> segments[j].name in params
  {
    if segments != [] {
      var rest := segments[1..];
      RenderedNeedsIff(rest, params);
      assert forall k :: 0 <= k < |rest| ==> rest[k] == segments[k + 1];
      if segments[0].Hole? && segments[0].name !in params {
        assert segments[0] == Hole(Rendered(segments, params).name);
      } else if Rendered(rest, params).Needs? {
        var k :| 0 <= k < |rest| && rest[k] == Hole(Rendered(rest, params).name) && rest[k].name !in params
                 && forall j :: 0 <= j < k && rest[j].Hole? ==> rest[j].name in params;
        assert segments[k + 1] == Hole(Rendered(segments, params).name);
      }
    }
  }

  /** Formatting refuses iff some hole of the template has no value. */
  lemma ThrowsIffSomeHoleLacksValue(t: string, params: map<string, string>)
    ensures Format(t, params).Needs? <==> exists name :: HasHole(t, name) && name !in params
    ensures Format(t, params).Needs? ==> HasHole(t, Format(t, params).name) && Format(t, params).name !in params
  {
    FormatIsRendered(t, params);
    RenderedNeedsIff(Scan(t), params);
    forall name ensures Hole(name) in Scan(t) <==> HasHole(t, name) {
      ScanReportsIff(t, name);
    }
  }

  predicate SameValue(name: string, one: map<string, string>, two: map<string, string>) {
    && (name in one <==> name in two)
    && (name in one && name in two ==> one[name] == two[name])
  }

  lemma {:induction false} RenderedDependsOnHoles(segments: seq<Segment>, one: map<string, string>, two: map<string, string>)
    requires forall name :: Hole(name) in segments ==> SameValue(name, one, two)
    ensures Rendered(segments, one) == Rendered(segments, two)
  {
    if segments != [] {
      assert segments[0] in segments;
      RenderedDependsOnHoles(segments[1..], one, two);
    }
  }

  /** Parameters the template does not mention do not matter. */
  lemma UnusedParametersDoNotMatter(t: string, one: map<string, string>, two: map<string, string>)
    requires forall name :: HasHole(t, name) ==> SameValue(name, one, two)
    ensures Format(t, one) == Format(t, two)
  {
    FormatIsRendered(t, one);
    FormatIsRendered(t, two);
    forall name | Hole(name) in Scan(t) ensures SameValue(name, one, two) {
      ScanReportsIff(t, name);
    }
    RenderedDependsOnHoles(Scan(t), one, two);
  }
}
