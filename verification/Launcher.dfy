/** flowmic-launcher.c: collecting the missing libraries into a fixed buffer. */
module Launcher {
  import opened Prelude

  const NUL := '\0'

  /** A C string's characters. */
  predicate IsText(s: string) {
    NUL !in s
  }

  /** The sonames of one library, any of which is enough; the first one names it. */
  type Library = seq<string>

  predicate IsTable(libs: seq<Library>) {
    forall i :: 0 <= i < |libs| ==> libs[i] != [] && forall j :: 0 <= j < |libs[i]| ==> IsText(libs[i][j])
  }

  predicate Found(lib: Library, present: string -> bool) {
    exists j :: 0 <= j < |lib| && present(lib[j])
  }

  /** The first sonames of the libraries none of whose sonames is present, in table order. */
  function Missing(libs: seq<Library>, present: string -> bool): seq<string>
    requires IsTable(libs)
  {
    if libs == [] then []
    else Missing(Front(libs), present) + if Found(Last(libs), present) then [] else [Last(libs)[0]]
  }

  function Absent(libs: seq<Library>, present: string -> bool): nat {
    if libs == [] then 0 else Absent(Front(libs), present) + if Found(Last(libs), present) then 0 else 1
  }

  /** A library none of whose sonames is present is listed by its first one, after those missing before
      it; and nothing else is listed. */
  lemma {:induction false} MissingAt(libs: seq<Library>, present: string -> bool, i: nat)
    requires IsTable(libs)
    ensures |Missing(libs, present)| == Absent(libs, present)
    ensures i < |libs| && (forall j :: 0 <= j < |libs[i]| ==> !present(libs[i][j])) ==>
              Absent(libs[..i], present) < Absent(libs, present)
              && Missing(libs, present)[Absent(libs[..i], present)] == libs[i][0]
  {
    if libs != [] {
      MissingAt(Front(libs), present, i);
      if i < |libs| - 1 {
        assert Front(libs)[..i] == libs[..i] && Front(libs)[i] == libs[i];
      } else if i == |libs| - 1 {
        assert libs[..i] == Front(libs);
      }
    }
  }

  /** The committed text and what a truncated write left behind it. */
  datatype Collected = Collected(text: string, tail: string)

  /** One missing soname. It is committed if it fits with its separator and the terminator; otherwise as
      much of it as fits stays in the buffer, uncounted, until something overwrites it. */
  function AddName(c: Collected, name: string, size: nat): Collected
    requires |c.text| < size
  {
    var piece := (if |c.text| > 0 then ", " else "") + name;
    if |c.text| + |piece| < size then Collected(c.text + piece, "")
    else Collected(c.text, piece[..size - |c.text| - 1])
  }

  function Collect(names: seq<string>, size: nat): (c: Collected)
    requires size > 0
    ensures |c.text| + |c.tail| < size
  {
    if names == [] then Collected("", "") else AddName(Collect(Front(names), size), Last(names), size)
  }

  /** What a reader of the buffer as a C string sees. */
  ghost predicate HoldsString(buf: seq<char>, s: string) {
    |s| < |buf| && buf[..|s|] == s && buf[|s|] == NUL
  }

  /** snprintf(buf + off, size - off, "%s", text): always terminated, truncated when too long; the answer
      is the length the whole text would have had. */
  method Snprintf(buf: array<char>, off: nat, text: string) returns (wrote: nat)
    requires off < buf.Length
    modifies buf
    ensures wrote == |text|
    ensures var room := buf.Length - off - 1;
            var kept := if |text| <= room then text else text[..room];
            HoldsString(buf[..], old(buf[..off]) + kept)
  {
    var room := buf.Length - off - 1;
    var n := if |text| <= room then |text| else room;
    var k := 0;
    while k < n
      invariant 0 <= k <= n
      invariant buf[..off] == old(buf[..off]) && buf[off..off + k] == text[..k]
    {
      buf[off + k] := text[k];
      k := k + 1;
    }
    buf[off + n] := NUL;
    wrote := |text|;
    assert buf[..][..off + n] == buf[..off] + buf[off..off + n];
  }

  /** Where the loop stands: `used` counts the committed text, and the buffer shows it and the tail. */
  ghost predicate Stands(buf: seq<char>, used: nat, c: Collected) {
    used == |c.text| < |buf| && HoldsString(buf, c.text + c.tail)
  }

  /** The body of the loop for a missing library. */
  method Report(buf: array<char>, used: nat, name: string, ghost c: Collected) returns (used': nat)
    requires Stands(buf[..], used, c)
    modifies buf
    ensures Stands(buf[..], used', AddName(c, name, buf.Length))
  {
    CommittedIsFirst(buf[..], used, c);
    assert buf[..used] == buf[..][..used];
    used' := used;
    var piece := (if used > 0 then ", " else "") + name;
    var wrote := Snprintf(buf, used, piece);
    if wrote > 0 && wrote < buf.Length - used {
      used' := used + wrote;
    }
    assert c.text + piece + "" == c.text + piece;
  }

  /** The loop of main: `used` stays inside the buffer, whose first `used` characters are the comma-join
      of the missing first sonames that fit; as a C string it shows that join and the truncated tail. */
  method CollectMissing(libs: seq<Library>, present: string -> bool, buf: array<char>) returns (used: nat)
    requires IsTable(libs) && buf.Length > 0
    requires forall k :: 0 <= k < buf.Length ==> buf[k] == NUL
    modifies buf
    ensures var c := Collect(Missing(libs, present), buf.Length);
            used == |c.text| < buf.Length && HoldsString(buf[..], c.text + c.tail) && IsText(c.text + c.tail)
    ensures var kept := Kept(Missing(libs, present), buf.Length);
            used < buf.Length && buf[..used] == JoinNames(kept) && Subsequence(kept, Missing(libs, present))
  {
    used := 0;
    var i := 0;
    while i < |libs|
      invariant 0 <= i <= |libs|
      invariant Stands(buf[..], used, Collect(Missing(libs[..i], present), buf.Length))
    {
      assert Front(libs[..i + 1]) == libs[..i] && Last(libs[..i + 1]) == libs[i];
      var found := false;
      var j := 0;
      while j < |libs[i]| && !found
        invariant 0 <= j <= |libs[i]|
        invariant found <==> exists k :: 0 <= k < j && present(libs[i][k])
      {
        found := present(libs[i][j]);
        j := j + 1;
      }
      assert found <==> Found(libs[i], present);
      ghost var names := Missing(libs[..i], present);
      if !found {
        used := Report(buf, used, libs[i][0], Collect(names, buf.Length));
        assert Front(names + [libs[i][0]]) == names;
      } else {
        assert names + [] == names;
      }
      i := i + 1;
    }
    assert libs[..i] == libs;
    MissingIsText(libs, present);
    CollectIsText(Missing(libs, present), buf.Length);
    CommittedIsJoin(Missing(libs, present), buf.Length);
    KeptIsSubsequence(Missing(libs, present), buf.Length);
    CommittedIsFirst(buf[..], used, Collect(Missing(libs, present), buf.Length));
  }

  lemma CommittedIsFirst(buf: seq<char>, used: nat, c: Collected)
    requires Stands(buf, used, c)
    ensures buf[..used] == c.text
  {
    assert buf[..used] == buf[..|c.text + c.tail|][..used];
  }

  lemma {:induction false} MissingIsText(libs: seq<Library>, present: string -> bool)
    requires IsTable(libs)
    ensures forall k :: 0 <= k < |Missing(libs, present)| ==> IsText(Missing(libs, present)[k])
  {
    if libs != [] {
      MissingIsText(Front(libs), present);
    }
  }

  lemma {:induction false} CollectIsText(names: seq<string>, size: nat)
    requires size > 0 && forall k :: 0 <= k < |names| ==> IsText(names[k])
    ensures IsText(Collect(names, size).text) && IsText(Collect(names, size).tail)
  {
    if names != [] {
      CollectIsText(Front(names), size);
    }
  }

  function JoinNames(names: seq<string>): string {
    if names == [] then "" else if |names| == 1 then names[0] else JoinNames(Front(names)) + ", " + Last(names)
  }

  /** The names that fit, taken in order: a name is kept iff the join with it is a non-empty text the
      buffer can hold. */
  function Kept(names: seq<string>, size: nat): seq<string> {
    if names == [] then [] else
      var kept := Kept(Front(names), size);
      if 0 < |JoinNames(kept + [Last(names)])| < size then kept + [Last(names)] else kept
  }

  lemma JoinOfSnoc(kept: seq<string>, name: string)
    ensures JoinNames(kept + [name]) == (if kept == [] then "" else JoinNames(kept) + ", ") + name
  {
    assert Front(kept + [name]) == kept;
  }

  /** The committed text is the comma-join of the names that fit. */
  lemma {:induction false} CommittedIsJoin(names: seq<string>, size: nat)
    requires size > 0
    ensures Collect(names, size).text == JoinNames(Kept(names, size))
    ensures Kept(names, size) == [] <==> JoinNames(Kept(names, size)) == ""
  {
    if names != [] {
      var front := Front(names);
      CommittedIsJoin(front, size);
      JoinOfSnoc(Kept(front, size), Last(names));
      var text := Collect(front, size).text;
      assert text + (", " + Last(names)) == text + ", " + Last(names);
    }
  }

  ghost predicate Subsequence(xs: seq<string>, ys: seq<string>) {
    if ys == [] then xs == []
    else Subsequence(xs, Front(ys)) || (xs != [] && Last(xs) == Last(ys) && Subsequence(Front(xs), Front(ys)))
  }

  /** They are missing names, in table order, each entry at most once. */
  lemma {:induction false} KeptIsSubsequence(names: seq<string>, size: nat)
    ensures Subsequence(Kept(names, size), names)
  {
    if names != [] {
      KeptIsSubsequence(Front(names), size);
      var kept := Kept(Front(names), size);
      assert Front(kept + [Last(names)]) == kept;
    }
  }

  /** When the whole comma-join fits, that is what the message shows, with nothing behind it. */
  lemma {:induction false} WholeJoinIsShown(names: seq<string>, size: nat)
    requires size > 0 && |JoinNames(names)| < size && forall k :: 0 <= k < |names| ==> names[k] != ""
    ensures Collect(names, size) == Collected(JoinNames(names), "")
  {
    if |names| == 1 {
      assert Front(names) == [] && "" + names[0] == names[0];
    } else if |names| > 1 {
      WholeJoinIsShown(Front(names), size);
      JoinIsLong(Front(names));
      assert JoinNames(Front(names)) + (", " + Last(names)) == JoinNames(names);
    }
  }

  lemma {:induction false} JoinIsLong(names: seq<string>)
    requires names != [] && forall k :: 0 <= k < |names| ==> names[k] != ""
    ensures JoinNames(names) != ""
  {
  }

  /** The launcher goes on to exec the real binary (nothing committed) iff no missing soname has a length
      the empty buffer can take: a library named by an empty or an over-long soname goes unnoticed. */
  lemma {:induction false} ExecIff(names: seq<string>, size: nat)
    requires size > 0
    ensures Collect(names, size).text == "" <==> forall k :: 0 <= k < |names| ==> |names[k]| == 0 || |names[k]| >= size
  {
    if names != [] {
      ExecIff(Front(names), size);
      FrontThenLast(names);
      assert forall k :: 0 <= k < |names| - 1 ==> names[k] == Front(names)[k];
    }
  }

  const BUFFER_SIZE := 1024

  /** Such a library: its only soname fills the buffer. It is missing, and nothing is committed. */
  lemma OverlongNameGoesUnnoticed(libs: seq<Library>, present: string -> bool)
    requires libs == [[seq(BUFFER_SIZE, _ => 'x')]] && !present(libs[0][0])
    ensures IsTable(libs) && Missing(libs, present) == [libs[0][0]] && Collect(Missing(libs, present), BUFFER_SIZE).text == ""
  {
    assert Front(libs) == [] && !Found(libs[0], present);
    assert Missing(libs, present) == [] + [libs[0][0]];
    ExecIff(Missing(libs, present), BUFFER_SIZE);
  }

  const REQUIRED_LIBS: seq<Library> := [
    ["libwebkit2gtk-4.1.so.0"],
    ["libjavascriptcoregtk-4.1.so.0"],
    ["libsoup-3.0.so.0"],
    ["libayatana-appindicator3.so.1", "libappindicator3.so.1"]]

  /** Names of a bounded length give a join of a bounded length. */
  lemma {:induction false} JoinLength(names: seq<string>, longest: nat)
    requires forall k :: 0 <= k < |names| ==> |names[k]| <= longest
    ensures |JoinNames(names)| <= |names| * (longest + 2)
  {
    if |names| > 1 {
      JoinLength(Front(names), longest);
      assert |names| * (longest + 2) == |Front(names)| * (longest + 2) + (longest + 2);
    }
  }

  lemma {:induction false} MissingFromTable(libs: seq<Library>, present: string -> bool, longest: nat)
    requires IsTable(libs) && forall i :: 0 <= i < |libs| ==> 0 < |libs[i][0]| <= longest
    ensures |Missing(libs, present)| <= |libs|
    ensures forall k :: 0 <= k < |Missing(libs, present)| ==> 0 < |Missing(libs, present)[k]| <= longest
    ensures Missing(libs, present) == [] <==> forall i :: 0 <= i < |libs| ==> Found(libs[i], present)
  {
    if libs != [] {
      FrontThenLast(libs);
      assert IsTable(Front(libs));
      MissingFromTable(Front(libs), present, longest);
    }
  }

  lemma FewerIsLess(a: nat, b: nat, c: nat)
    requires a <= b
    ensures a * c <= b * c
  {
  }

  /** For a table whose first sonames are non-empty and together short enough, on every machine: the
      message lists exactly the missing libraries, and exec is reached iff none is missing. */
  lemma ShortTablesAreReportedWhole(libs: seq<Library>, present: string -> bool, longest: nat, size: nat)
    requires IsTable(libs) && forall i :: 0 <= i < |libs| ==> 0 < |libs[i][0]| <= longest
    requires |libs| * (longest + 2) < size
    ensures Collect(Missing(libs, present), size) == Collected(JoinNames(Missing(libs, present)), "")
    ensures Collect(Missing(libs, present), size).text == "" <==> forall i :: 0 <= i < |libs| ==> Found(libs[i], present)
  {
    var names := Missing(libs, present);
    MissingFromTable(libs, present, longest);
    JoinLength(names, longest);
    FewerIsLess(|names|, |libs|, longest + 2);
    WholeJoinIsShown(names, size);
    if names != [] {
      JoinIsLong(names);
    }
  }

  lemma ShippedTableIsShort()
    ensures IsTable(REQUIRED_LIBS) && |REQUIRED_LIBS| * (29 + 2) < BUFFER_SIZE
    ensures forall i :: 0 <= i < |REQUIRED_LIBS| ==> 0 < |REQUIRED_LIBS[i][0]| <= 29
  {
  }

  /** The shipped table and buffer are such. */
  lemma ShippedTableIsReportedWhole(present: string -> bool)
    ensures IsTable(REQUIRED_LIBS)
    ensures Collect(Missing(REQUIRED_LIBS, present), BUFFER_SIZE) == Collected(JoinNames(Missing(REQUIRED_LIBS, present)), "")
    ensures Collect(Missing(REQUIRED_LIBS, present), BUFFER_SIZE).text == ""
            <==> forall i :: 0 <= i < |REQUIRED_LIBS| ==> Found(REQUIRED_LIBS[i], present)
  {
    ShippedTableIsShort();
    ShortTablesAreReportedWhole(REQUIRED_LIBS, present, 29, BUFFER_SIZE);
  }
}
