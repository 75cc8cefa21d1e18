/** log.ts: the durable log file with one rollover generation, under failing file operations. */
module LogSink {
  import opened Prelude

  newtype byte = x: int | 0 <= x < 256
  type Bytes = seq<byte>

  const MAX_BYTES: nat := 4 * 1024 * 1024

  /** What fails during one line, if anything does; an append lands whole or not at all. */
  datatype Fault = NoFault | RemoveFails | RenameFails | AppendFails

  /** An absent file is an empty one. `appended` is the history: everything the two files ever held. */
  datatype Sink = Sink(broken: bool, tracked: nat, previous: Bytes, current: Bytes, appended: Bytes)

  /** What is on disk when the process starts. */
  function OnDisk(previous: Bytes, current: Bytes): Sink {
    Sink(false, 0, previous, current, previous + current)
  }

  function Init(s: Sink, mkdirFails: bool, statFails: bool): Sink {
    if mkdirFails then s.(broken := true)
    else s.(tracked := if statFails then 0 else |s.current|)
  }

  function Appended(s: Sink, text: Bytes, fault: Fault): Sink {
    if fault == AppendFails then s.(broken := true)
    else s.(current := s.current + text, tracked := s.tracked + |text|, appended := s.appended + text)
  }

  /** toFile */
  function Next(s: Sink, text: Bytes, fault: Fault): Sink {
    if s.broken then s
    else if s.tracked > MAX_BYTES then
      if fault == RemoveFails then s.(broken := true)
      else if fault == RenameFails then s.(broken := true, previous := [])
      else Appended(s.(previous := s.current, current := [], tracked := 0), text, fault)
    else Appended(s, text, fault)
  }

  class LogFile {
    const configured: bool
    var fileBroken: bool
    var fileBytes: nat
    var previous: Bytes
    var current: Bytes
    ghost var appended: Bytes

    constructor (configured: bool, previous: Bytes, current: Bytes)
      ensures this.configured == configured && View() == OnDisk(previous, current)
    {
      this.configured, fileBroken, fileBytes := configured, false, 0;
      this.previous, this.current, appended := previous, current, previous + current;
    }

    ghost function View(): Sink
      reads this
    {
      Sink(fileBroken, fileBytes, previous, current, appended)
    }

    /** The size carried forward from the last process, so a restart cannot dodge the cap. */
    method InitLogFile(mkdirFails: bool, statFails: bool)
      modifies this
      ensures View() == if configured then Init(old(View()), mkdirFails, statFails) else old(View())
    {
      if !configured {
        return;
      }
      if mkdirFails {
        fileBroken := true;
      } else if statFails {
        fileBytes := 0;
      } else {
        fileBytes := |current|;
      }
    }

    method ToFile(text: Bytes, fault: Fault)
      modifies this
      ensures View() == if configured then Next(old(View()), text, fault) else old(View())
    {
      if !configured || fileBroken {
        return;
      }
      if fileBytes > MAX_BYTES {
        if fault == RemoveFails {
          fileBroken := true;
          return;
        }
        previous := [];
        if fault == RenameFails {
          fileBroken := true;
          return;
        }
        previous, current := current, [];
        fileBytes := 0;
      }
      if fault == AppendFails {
        fileBroken := true;
        return;
      }
      current := current + text;
      appended := appended + text;
      fileBytes := fileBytes + |text|;
    }
  }

  // ----- whole lives of the sink -----

  datatype Line = Line(text: Bytes, fault: Fault)

  function Run(s: Sink, lines: seq<Line>): Sink {
    if lines == [] then s else Next(Run(s, Front(lines)), Last(lines).text, Last(lines).fault)
  }

  function Life(previous: Bytes, current: Bytes, mkdirFails: bool, statFails: bool, lines: seq<Line>): Sink {
    Run(Init(OnDisk(previous, current), mkdirFails, statFails), lines)
  }

  function Max(x: int, y: int): int {
    if x < y then y else x
  }

  ghost predicate Suffix(part: Bytes, all: Bytes) {
    |part| <= |all| && all[|all| - |part|..] == part
  }

  lemma SuffixGrows(part: Bytes, all: Bytes, text: Bytes)
    requires Suffix(part, all)
    ensures Suffix(part + text, all + text)
  {
    var k := |all| - |part|;
    assert |all + text| - |part + text| == k;
    assert (all + text)[k..] == all[k..] + text;
  }

  lemma SuffixOfSuffix(older: Bytes, newer: Bytes, all: Bytes)
    requires Suffix(older + newer, all)
    ensures Suffix(newer, all)
  {
    assert all[|all| - |newer|..] == all[|all| - |older + newer|..][|older|..];
  }

  /** The two files are the newest part of the history; nothing is missing inside it, and if anything
      has been dropped at its old end then more than MAX_BYTES are still there. */
  ghost predicate KeepsNewest(s: Sink) {
    && Suffix(s.previous + s.current, s.appended)
    && (|s.previous| + |s.current| < |s.appended| ==> |s.previous| + |s.current| > MAX_BYTES)
  }

  lemma StepKeepsNewest(s: Sink, text: Bytes, fault: Fault)
    requires KeepsNewest(s) && (!s.broken ==> s.tracked <= |s.current|)
    ensures KeepsNewest(Next(s, text, fault))
    ensures !Next(s, text, fault).broken ==> Next(s, text, fault).tracked <= |Next(s, text, fault).current|
  {
    if !s.broken {
      if s.tracked > MAX_BYTES {
        RollKeepsNewest(s);
        AppendKeepsNewest(s.(previous := s.current, current := [], tracked := 0), text, fault);
      } else {
        AppendKeepsNewest(s, text, fault);
      }
    }
  }

  /** A full current file becomes the previous one, or the previous one is gone and the rename failed. */
  lemma RollKeepsNewest(s: Sink)
    requires KeepsNewest(s) && |s.current| > MAX_BYTES
    ensures KeepsNewest(s.(previous := s.current, current := [], tracked := 0))
    ensures KeepsNewest(s.(broken := true, previous := []))
  {
    SuffixOfSuffix(s.previous, s.current, s.appended);
    assert s.current + [] == s.current && [] + s.current == s.current;
  }

  lemma AppendKeepsNewest(s: Sink, text: Bytes, fault: Fault)
    requires KeepsNewest(s) && s.tracked <= |s.current|
    ensures KeepsNewest(Appended(s, text, fault)) && Appended(s, text, fault).tracked <= |Appended(s, text, fault).current|
  {
    SuffixGrows(s.previous + s.current, s.appended, text);
    assert s.previous + s.current + text == s.previous + (s.current + text);
  }

  /** Lossless up to the rollover: in every reachable state, whatever failed so far. */
  lemma {:induction false} NewestIsKept(previous: Bytes, current: Bytes, mkdirFails: bool, statFails: bool, lines: seq<Line>)
    ensures var s := Life(previous, current, mkdirFails, statFails, lines);
            KeepsNewest(s) && (!s.broken ==> s.tracked <= |s.current|)
  {
    if lines != [] {
      NewestIsKept(previous, current, mkdirFails, statFails, Front(lines));
      StepKeepsNewest(Life(previous, current, mkdirFails, statFails, Front(lines)), Last(lines).text, Last(lines).fault);
    }
  }

  /** After the first file error nothing changes again. */
  lemma {:induction false} BrokenIsFinal(s: Sink, lines: seq<Line>)
    requires s.broken
    ensures Run(s, lines) == s
  {
    if lines != [] {
      BrokenIsFinal(s, Front(lines));
    }
  }

  lemma {:induction false} TrackedIsReal(previous: Bytes, current: Bytes, mkdirFails: bool, statFails: bool, lines: seq<Line>)
    requires (!mkdirFails && !statFails) || current == []
    ensures var s := Life(previous, current, mkdirFails, statFails, lines); s.tracked == |s.current|
  {
    if lines != [] {
      TrackedIsReal(previous, current, mkdirFails, statFails, Front(lines));
    }
  }

  /** The tracked count is the real size in every state of every life iff at boot both the directory and
      the size could be had, or there was nothing to count. */
  lemma TrackedIsRealIff(previous: Bytes, current: Bytes, mkdirFails: bool, statFails: bool)
    ensures (forall lines :: (var s := Life(previous, current, mkdirFails, statFails, lines); s.tracked == |s.current|))
            <==> (!mkdirFails && !statFails) || current == []
  {
    if (mkdirFails || statFails) && current != [] {
      var s := Life(previous, current, mkdirFails, statFails, []);
      assert s.tracked == 0 && |s.current| > 0;
    } else {
      forall lines ensures (var s := Life(previous, current, mkdirFails, statFails, lines); s.tracked == |s.current|) {
        TrackedIsReal(previous, current, mkdirFails, statFails, lines);
      }
    }
  }

  predicate NoLongerThan(lines: seq<Line>, longest: nat) {
    forall k :: 0 <= k < |lines| ==> |lines[k].text| <= longest
  }

  /** Whatever fails at boot and later, the current file never outgrows its starting size by more than
      the cap and one line. */
  lemma {:induction false} SizeIsAlwaysBounded(previous: Bytes, current: Bytes, mkdirFails: bool, statFails: bool, lines: seq<Line>, longest: nat)
    requires NoLongerThan(lines, longest)
    ensures var s := Life(previous, current, mkdirFails, statFails, lines);
            && |s.current| <= |current| + MAX_BYTES + longest
            && (!s.broken ==> |s.current| <= |current| + s.tracked && s.tracked <= Max(|current|, MAX_BYTES + longest))
  {
    if lines != [] {
      SizeIsAlwaysBounded(previous, current, mkdirFails, statFails, Front(lines), longest);
    }
  }

  /** If the size was known at boot, or nothing is ever written, the starting size and the cap do not add
      up: the larger of the two, with one line on top of the cap, is the bound. */
  lemma {:induction false} SizeIsBounded(previous: Bytes, current: Bytes, mkdirFails: bool, statFails: bool, lines: seq<Line>, longest: nat)
    requires mkdirFails || !statFails || current == []
    requires NoLongerThan(lines, longest)
    ensures WithinCap(previous, current, mkdirFails, statFails, lines, longest)
  {
    if mkdirFails {
      BrokenIsFinal(Init(OnDisk(previous, current), mkdirFails, statFails), lines);
    } else if lines != [] {
      SizeIsBounded(previous, current, mkdirFails, statFails, Front(lines), longest);
      TrackedIsReal(previous, current, mkdirFails, statFails, Front(lines));
    }
  }

  predicate WithinCap(previous: Bytes, current: Bytes, mkdirFails: bool, statFails: bool, lines: seq<Line>, longest: nat) {
    |Life(previous, current, mkdirFails, statFails, lines).current| <= Max(|current|, MAX_BYTES + longest)
  }

  /** Otherwise two lines of the cap's size each go past it: the file that was there is not counted. */
  lemma UncountedFileOutgrows(previous: Bytes, current: Bytes) returns (lines: seq<Line>)
    requires current != []
    ensures NoLongerThan(lines, MAX_BYTES) && !WithinCap(previous, current, false, true, lines, MAX_BYTES)
  {
    var full := Line(seq(MAX_BYTES, _ => 0 as byte), NoFault);
    lines := [full, full];
    var s0 := Life(previous, current, false, true, []);
    assert Front(lines) == [full] && Front([full]) == [];
    assert Life(previous, current, false, true, [full]) == Next(s0, full.text, NoFault);
    assert Life(previous, current, false, true, lines) == Next(Next(s0, full.text, NoFault), full.text, NoFault);
  }

  /** The bound holds for all lines of every length iff the boot found the sink unusable, or its size, or
      nothing. */
  lemma SizeIsBoundedIff(previous: Bytes, current: Bytes, mkdirFails: bool, statFails: bool)
    ensures (forall lines, longest: nat :: NoLongerThan(lines, longest) ==> WithinCap(previous, current, mkdirFails, statFails, lines, longest))
            <==> mkdirFails || !statFails || current == []
  {
    if mkdirFails || !statFails || current == [] {
      forall lines, longest: nat | NoLongerThan(lines, longest)
        ensures WithinCap(previous, current, mkdirFails, statFails, lines, longest)
      {
        SizeIsBounded(previous, current, mkdirFails, statFails, lines, longest);
      }
    } else {
      var lines := UncountedFileOutgrows(previous, current);
    }
  }

  // ----- what is in the two files -----

  function Joined(lines: seq<Line>): Bytes {
    if lines == [] then [] else Joined(Front(lines)) + Last(lines).text
  }

  predicate Full(s: Sink) {
    s.tracked > MAX_BYTES
  }

  /** A failing append always counts, a failing removal or rename only when the file is rolled over. */
  predicate Fails(s: Sink, line: Line) {
    line.fault == AppendFails || (line.fault != NoFault && Full(s))
  }

  /** The last line before which the file was rolled over. */
  function LastRoll(s: Sink, lines: seq<Line>): Option<nat> {
    if lines == [] then None
    else if Full(Run(s, Front(lines))) then Some(|lines| - 1)
    else LastRoll(s, Front(lines))
  }

  ghost predicate SomeFails(s: Sink, lines: seq<Line>) {
    exists k :: 0 <= k < |lines| && Fails(Run(s, lines[..k]), lines[k])
  }

  lemma SomeFailsSnoc(s: Sink, lines: seq<Line>)
    requires lines != []
    ensures SomeFails(s, lines) <==> SomeFails(s, Front(lines)) || Fails(Run(s, Front(lines)), Last(lines))
  {
    var n := |lines| - 1;
    assert lines[..n] == Front(lines);
    assert forall k :: 0 <= k < n ==> Front(lines)[..k] == lines[..k] && Front(lines)[k] == lines[k];
    if SomeFails(s, Front(lines)) {
      var k :| 0 <= k < n && Fails(Run(s, Front(lines)[..k]), Front(lines)[k]);
      assert Fails(Run(s, lines[..k]), lines[k]);
    } else if Fails(Run(s, Front(lines)), Last(lines)) {
      assert Fails(Run(s, lines[..n]), lines[n]);
    }
  }

  /** The contents of both files and of the history, in terms of the lines alone. */
  ghost predicate FilesHold(s: Sink, lines: seq<Line>, r: Sink) {
    && r.appended == s.appended + Joined(lines)
    && (match LastRoll(s, lines)
        case None => r.previous == s.previous && r.current == s.current + Joined(lines)
        case Some(k) => k < |lines| && r.previous == Run(s, lines[..k]).current && r.current == Joined(lines[k..]))
  }

  lemma LineIsWritten(a: Sink, line: Line)
    requires !a.broken && !Fails(a, line)
    ensures var r := Next(a, line.text, line.fault);
            && !r.broken && r.appended == a.appended + line.text
            && r.previous == (if Full(a) then a.current else a.previous)
            && r.current == (if Full(a) then line.text else a.current + line.text)
  {
    assert [] + line.text == line.text;
  }

  lemma LineLands(s: Sink, lines: seq<Line>)
    requires lines != [] && FilesHold(s, Front(lines), Run(s, Front(lines))) && !Run(s, Front(lines)).broken
    requires !Fails(Run(s, Front(lines)), Last(lines))
    ensures FilesHold(s, lines, Run(s, lines)) && !Run(s, lines).broken
  {
    var front, text := Front(lines), Last(lines).text;
    LineIsWritten(Run(s, front), Last(lines));
    Associates(s.appended, Joined(front), text);
    if Full(Run(s, front)) {
      JoinedFrom(lines, |lines| - 1);
    } else if LastRoll(s, front).Some? {
      JoinedFrom(lines, LastRoll(s, front).value);
    } else {
      Associates(s.current, Joined(front), text);
    }
  }

  lemma Associates(a: Bytes, b: Bytes, c: Bytes)
    ensures a + b + c == a + (b + c)
  {
  }

  lemma JoinedFrom(lines: seq<Line>, k: nat)
    requires k < |lines|
    ensures lines[..k] == Front(lines)[..k]
    ensures Joined(lines[k..]) == if k == |lines| - 1 then Last(lines).text else Joined(Front(lines)[k..]) + Last(lines).text
  {
    if k == |lines| - 1 {
      assert lines[k..] == [Last(lines)];
      JoinedOne(Last(lines));
    } else {
      assert Front(lines[k..]) == Front(lines)[k..];
    }
  }

  lemma JoinedOne(line: Line)
    ensures Joined([line]) == line.text
  {
    assert Front([line]) == [] && [] + line.text == line.text;
  }

  /** The sink breaks iff some line fails; until then every line given is in the history, the current file
      holds the lines since the last roll-over, and the previous one what was current before it. */
  lemma {:induction false} FilesAre(s: Sink, lines: seq<Line>)
    requires !s.broken
    ensures Run(s, lines).broken <==> SomeFails(s, lines)
    ensures !Run(s, lines).broken ==> FilesHold(s, lines, Run(s, lines))
  {
    if lines == [] {
      assert s.appended + [] == s.appended && s.current + [] == s.current;
    } else {
      FilesAre(s, Front(lines));
      SomeFailsSnoc(s, lines);
      if !Run(s, Front(lines)).broken && !Fails(Run(s, Front(lines)), Last(lines)) {
        LineLands(s, lines);
      }
    }
  }

  lemma {:induction false} RunSplits(s: Sink, lines: seq<Line>, k: nat)
    requires k <= |lines|
    ensures Run(s, lines) == Run(Run(s, lines[..k]), lines[k..])
  {
    if k == |lines| {
      assert lines[..k] == lines;
    } else {
      RunSplits(s, Front(lines), k);
      assert Front(lines)[..k] == lines[..k] && Front(lines[k..]) == Front(lines)[k..];
    }
  }

  /** A rename that failed has lost the previous file; an append that failed after a roll-over leaves the
      current one empty. */
  ghost predicate Leaves(a: Sink, fault: Fault, r: Sink) {
    && r.broken && r.appended == a.appended
    && match fault
       case RemoveFails => r.previous == a.previous && r.current == a.current
       case RenameFails => r.previous == [] && r.current == a.current
       case _ => if Full(a) then r.previous == a.current && r.current == []
                 else r.previous == a.previous && r.current == a.current
  }

  lemma LineFails(a: Sink, line: Line)
    requires !a.broken && Fails(a, line)
    ensures Leaves(a, line.fault, Next(a, line.text, line.fault))
  {
  }

  /** What the first failing line leaves for good: the history ends before it. */
  lemma FirstFailureIsLeft(s: Sink, lines: seq<Line>, k: nat)
    requires !s.broken && k < |lines| && !Run(s, lines[..k]).broken && Fails(Run(s, lines[..k]), lines[k])
    ensures Leaves(Run(s, lines[..k]), lines[k].fault, Run(s, lines))
    ensures Run(s, lines).appended == s.appended + Joined(lines[..k])
  {
    FilesAre(s, lines[..k]);
    LineFails(Run(s, lines[..k]), lines[k]);
    RunSplits(s, lines, k + 1);
    assert Front(lines[..k + 1]) == lines[..k];
    BrokenIsFinal(Run(s, lines[..k + 1]), lines[k + 1..]);
  }

  // ----- the program's own variables -----

  /** A life of the file as the program holds it. */
  method Live(previous: Bytes, current: Bytes, mkdirFails: bool, statFails: bool, lines: seq<Line>) returns (log: LogFile)
    ensures fresh(log) && log.View() == Life(previous, current, mkdirFails, statFails, lines)
    ensures KeepsNewest(log.View())
    ensures !log.fileBroken ==> log.appended == previous + current + Joined(lines)
  {
    log := new LogFile(true, previous, current);
    log.InitLogFile(mkdirFails, statFails);
    var i := 0;
    while i < |lines|
      invariant 0 <= i <= |lines| && log.configured && fresh(log)
      invariant log.View() == Life(previous, current, mkdirFails, statFails, lines[..i])
    {
      assert Front(lines[..i + 1]) == lines[..i];
      log.ToFile(lines[i].text, lines[i].fault);
      i := i + 1;
    }
    assert lines[..i] == lines;
    NewestIsKept(previous, current, mkdirFails, statFails, lines);
    var booted := Init(OnDisk(previous, current), mkdirFails, statFails);
    if !booted.broken {
      FilesAre(booted, lines);
    } else {
      BrokenIsFinal(booted, lines);
    }
  }
}
