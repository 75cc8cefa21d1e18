/** dictionary-packs.ts: the effective dictionary of the selected packs. */
module Dictionary {
  import opened Prelude

  const DICTIONARY_PACK_MAX_ENTRIES := 300

  datatype Entry = Entry(term: string, weight: Option<real>, aliases: Option<seq<string>>)
  datatype Pack = Pack(id: string, entries: seq<Entry>)

  /** `entry.weight ?? 0` */
  function Weight(e: Entry): real {
    if e.weight.Some? then e.weight.value else 0.0
  }

  function Aliases(e: Entry): seq<string> {
    if e.aliases.Some? then e.aliases.value else []
  }

  /** The elements of xs, each once, in order of first appearance: an insertion-ordered Set. */
  function FirstSeen(xs: seq<string>): (r: seq<string>)
    ensures forall x :: x in r <==> x in xs
    ensures forall i, j :: 0 <= i < j < |r| ==> r[i] != r[j]
  {
    if xs == [] then []
    else
      FrontThenLast(xs);
      var r := FirstSeen(Front(xs));
      if Last(xs) in Front(xs) then r else r + [Last(xs)]
  }

  function MergeAliases(a: Option<seq<string>>, b: Option<seq<string>>): seq<string> {
    FirstSeen((if a.Some? then a.value else []) + (if b.Some? then b.value else []))
  }

  /** A second occurrence of a term meets the entry kept so far. */
  function MergeEntry(existing: Entry, incoming: Entry): Entry {
    var aliases := MergeAliases(existing.aliases, incoming.aliases);
    var winner := if Weight(incoming) > Weight(existing) then incoming else existing;
    if aliases != [] then winner.(aliases := Some(aliases)) else winner
  }

  /** `new Map(packs.map(p => [p.id, p]))`: of packs with one id, the last. */
  function Lookup(packs: seq<Pack>, id: string): Option<Pack> {
    if packs == [] then None
    else if Last(packs).id == id then Some(Last(packs))
    else Lookup(Front(packs), id)
  }

  /** Every entry of every known selected pack, in selection order. */
  function Occurrences(selected: seq<string>, packs: seq<Pack>): seq<Entry> {
    if selected == [] then []
    else
      Occurrences(Front(selected), packs) +
      match Lookup(packs, Last(selected)) { case None => [] case Some(p) => p.entries }
  }

  function Terms(occ: seq<Entry>): seq<string> {
    seq(|occ|, k requires 0 <= k < |occ| => occ[k].term)
  }

  /** What the merge holds for term t after the occurrences occ. */
  function Merged(occ: seq<Entry>, t: string): Option<Entry> {
    if occ == [] then None
    else if Last(occ).term != t then Merged(Front(occ), t)
    else match Merged(Front(occ), t)
      case None => Some(Last(occ))
      case Some(e) => Some(MergeEntry(e, Last(occ)))
  }

  lemma {:induction false} MergedIffSeen(occ: seq<Entry>, t: string)
    ensures Merged(occ, t).Some? <==> t in Terms(occ)
    ensures Merged(occ, t).Some? ==> Merged(occ, t).value.term == t
  {
    if occ != [] {
      MergedIffSeen(Front(occ), t);
      assert Terms(occ) == Terms(Front(occ)) + [Last(occ).term];
    }
  }

  /** The merge without the cap: one entry per term, in order of first occurrence. */
  function Uncapped(occ: seq<Entry>): (r: seq<Entry>)
    ensures |r| == |FirstSeen(Terms(occ))|
    ensures forall k :: 0 <= k < |r| ==> Merged(occ, FirstSeen(Terms(occ))[k]) == Some(r[k])
  {
    var order := FirstSeen(Terms(occ));
    assert forall k :: 0 <= k < |order| ==> Merged(occ, order[k]).Some? by {
      forall k | 0 <= k < |order| { MergedIffSeen(occ, order[k]); }
    }
    seq(|order|, k requires 0 <= k < |order| && Merged(occ, order[k]).Some? => Merged(occ, order[k]).value)
  }

  function Capped(es: seq<Entry>): seq<Entry> {
    if |es| > DICTIONARY_PACK_MAX_ENTRIES then es[..DICTIONARY_PACK_MAX_ENTRIES] else es
  }

  function Compose(selected: seq<string>, packs: seq<Pack>): seq<Entry> {
    Capped(Uncapped(Occurrences(selected, packs)))
  }

  /** The insertion-ordered Map the loop updates in place: keys in insertion order, and their values. */
  class OrderedMap {
    var keys: seq<string>
    var values: map<string, Entry>

    constructor ()
      ensures Holds([])
    {
      keys, values := [], map[];
    }

    /** It holds the merge of exactly the occurrences occ. */
    ghost predicate Holds(occ: seq<Entry>)
      reads this
    {
      && keys == FirstSeen(Terms(occ))
      && forall t :: if t in values then Merged(occ, t) == Some(values[t]) else Merged(occ, t).None?
    }

    method Set(t: string, e: Entry)
      modifies this
      ensures keys == (if t in old(values) then old(keys) else old(keys) + [t])
      ensures values == old(values)[t := e]
    {
      if t !in values {
        keys := keys + [t];
      }
      values := values[t := e];
    }

    /** One occurrence of the inner loop. */
    method Add(entry: Entry, ghost occ: seq<Entry>)
      requires Holds(occ)
      modifies this
      ensures Holds(occ + [entry])
    {
      MergedIffSeen(occ, entry.term);
      assert Front(occ + [entry]) == occ;
      assert Terms(occ + [entry]) == Terms(occ) + [entry.term];
      assert Front(Terms(occ + [entry])) == Terms(occ);
      if entry.term !in values {
        Set(entry.term, entry);
        return;
      }
      var existing := values[entry.term];
      var aliases := MergeAliases(existing.aliases, entry.aliases);
      var winner := if Weight(entry) > Weight(existing) then entry else existing;
      if aliases != [] {
        winner := winner.(aliases := Some(aliases));
      }
      Set(entry.term, winner);
    }

    /** One selected pack: the inner loop. */
    method AddAll(entries: seq<Entry>, ghost occ: seq<Entry>)
      requires Holds(occ)
      modifies this
      ensures Holds(occ + entries)
    {
      var j := 0;
      assert occ + entries[..0] == occ;
      while j < |entries|
        invariant 0 <= j <= |entries| && Holds(occ + entries[..j])
      {
        Add(entries[j], occ + entries[..j]);
        assert occ + entries[..j] + [entries[j]] == occ + entries[..j + 1];
        j := j + 1;
      }
      assert entries[..j] == entries;
    }

    method Values(ghost occ: seq<Entry>) returns (r: seq<Entry>)
      requires Holds(occ)
      ensures r == Uncapped(occ)
    {
      r := [];
      var i := 0;
      while i < |keys|
        invariant 0 <= i <= |keys| && r == Uncapped(occ)[..i]
      {
        MergedIffSeen(occ, keys[i]);
        r := r + [values[keys[i]]];
        i := i + 1;
      }
    }
  }

  method ComposeDictionary(selected: seq<string>, packs: seq<Pack>) returns (r: seq<Entry>)
    ensures r == Compose(selected, packs) && ComposedOf(r, selected, packs)
  {
    ComposeIsSelected(selected, packs);
    var merged := new OrderedMap();
    ghost var occ: seq<Entry> := [];
    var i := 0;
    while i < |selected|
      invariant 0 <= i <= |selected|
      invariant occ == Occurrences(selected[..i], packs) && merged.Holds(occ)
    {
      assert Front(selected[..i + 1]) == selected[..i];
      var pack := Lookup(packs, selected[i]);
      if pack.Some? {
        merged.AddAll(pack.value.entries, occ);
        occ := occ + pack.value.entries;
      }
      i := i + 1;
    }
    assert selected[..i] == selected;
    var all := merged.Values(occ);
    r := if |all| > DICTIONARY_PACK_MAX_ENTRIES then all[..DICTIONARY_PACK_MAX_ENTRIES] else all;
  }

  // ----- what the merge of one term is: a join -----

  /** k is the first occurrence of t that carries the greatest weight any occurrence of t carries. */
  ghost predicate FirstHeaviest(occ: seq<Entry>, t: string, k: int) {
    && 0 <= k < |occ| && occ[k].term == t
    && (forall j :: 0 <= j < |occ| && occ[j].term == t ==> Weight(occ[j]) <= Weight(occ[k]))
    && (forall j :: 0 <= j < k && occ[j].term == t ==> Weight(occ[j]) < Weight(occ[k]))
  }

  /** No weight counts as zero. */
  lemma WeightlessIsZero(t: string, w: real)
    ensures var occ := [Entry(t, None, None), Entry(t, Some(w), None)];
            Merged(occ, t).Some? && Merged(occ, t).value.weight == if w > 0.0 then Some(w) else None
  {
    var occ := [Entry(t, None, None), Entry(t, Some(w), None)];
    assert Front(occ) == [occ[0]] && Front([occ[0]]) == [];
    assert Merged(Front(occ), t) == Some(occ[0]);
  }

  ghost predicate AliasOfSome(occ: seq<Entry>, t: string, a: string) {
    exists j :: 0 <= j < |occ| && occ[j].term == t && a in Aliases(occ[j])
  }

  /** The kept weight is that of the first heaviest occurrence. */
  lemma {:induction false} MergedWeight(occ: seq<Entry>, t: string) returns (k: nat)
    requires Merged(occ, t).Some?
    ensures FirstHeaviest(occ, t, k) && Merged(occ, t).value.weight == occ[k].weight
  {
    var last := |occ| - 1;
    if Last(occ).term != t {
      k := MergedWeight(Front(occ), t);
    } else if Merged(Front(occ), t).None? {
      MergedIffSeen(Front(occ), t);
      k := last;
      forall j | 0 <= j < last ensures occ[j].term != t {
        assert Terms(Front(occ))[j] == occ[j].term;
      }
    } else {
      k := MergedWeight(Front(occ), t);
      if Weight(Last(occ)) > Weight(occ[k]) {
        k := last;
      }
    }
  }

  /** The kept aliases are the union over all occurrences. */
  lemma {:induction false} MergedAliases(occ: seq<Entry>, t: string, a: string)
    requires Merged(occ, t).Some?
    ensures a in Aliases(Merged(occ, t).value) <==> AliasOfSome(occ, t, a)
  {
    var last := |occ| - 1;
    assert AliasOfSome(occ, t, a) <==>
      AliasOfSome(Front(occ), t, a) || (occ[last].term == t && a in Aliases(occ[last])) by {
      if AliasOfSome(Front(occ), t, a) {
        var j :| 0 <= j < last && Front(occ)[j].term == t && a in Aliases(Front(occ)[j]);
        assert occ[j].term == t && a in Aliases(occ[j]);
      }
      if AliasOfSome(occ, t, a) {
        var j :| 0 <= j < |occ| && occ[j].term == t && a in Aliases(occ[j]);
        if j < last {
          assert Front(occ)[j].term == t && a in Aliases(Front(occ)[j]);
        }
      }
    }
    if Last(occ).term != t {
      MergedAliases(Front(occ), t, a);
    } else if Merged(Front(occ), t).None? {
      MergedIffSeen(Front(occ), t);
      forall j | 0 <= j < last ensures Front(occ)[j].term != t {
        assert Terms(Front(occ))[j] == Front(occ)[j].term;
      }
    } else {
      MergedAliases(Front(occ), t, a);
    }
  }

  /** All aliases of t's occurrences, in the order met. */
  function AllAliases(occ: seq<Entry>, t: string): seq<string> {
    if occ == [] then []
    else AllAliases(Front(occ), t) + if Last(occ).term == t then Aliases(Last(occ)) else []
  }

  function CountOf(occ: seq<Entry>, t: string): nat {
    if occ == [] then 0 else CountOf(Front(occ), t) + if Last(occ).term == t then 1 else 0
  }

  lemma {:induction false} FirstSeenTwice(xs: seq<string>, ys: seq<string>)
    ensures FirstSeen(FirstSeen(xs) + ys) == FirstSeen(xs + ys)
  {
    if ys == [] {
      FirstSeenOfDistinct(FirstSeen(xs));
      assert xs + [] == xs && FirstSeen(xs) + [] == FirstSeen(xs);
    } else {
      FirstSeenTwice(xs, Front(ys));
      assert Front(xs + ys) == xs + Front(ys) && Front(FirstSeen(xs) + ys) == FirstSeen(xs) + Front(ys);
    }
  }

  lemma {:induction false} FirstSeenOfDistinct(xs: seq<string>)
    requires forall i, j :: 0 <= i < j < |xs| ==> xs[i] != xs[j]
    ensures FirstSeen(xs) == xs
  {
    if xs != [] {
      FirstSeenOfDistinct(Front(xs));
      FrontThenLast(xs);
    }
  }

  /** A term met once is kept as it is; met again, its aliases are listed as first met, each once. */
  lemma {:induction false} MergedAliasOrder(occ: seq<Entry>, t: string)
    requires Merged(occ, t).Some?
    ensures CountOf(occ, t) >= 1
    ensures CountOf(occ, t) == 1 ==> Merged(occ, t).value in occ && AllAliases(occ, t) == Aliases(Merged(occ, t).value)
    ensures CountOf(occ, t) > 1 ==> Aliases(Merged(occ, t).value) == FirstSeen(AllAliases(occ, t))
  {
    var front := Front(occ);
    if Last(occ).term != t {
      MergedAliasOrder(front, t);
      assert AllAliases(occ, t) == AllAliases(front, t);
    } else if Merged(front, t).None? {
      NotMet(front, t);
      assert AllAliases(occ, t) == Aliases(Last(occ));
    } else {
      MergedAliasOrder(front, t);
      var before, now := Aliases(Merged(front, t).value), Aliases(Last(occ));
      if CountOf(front, t) > 1 {
        FirstSeenTwice(AllAliases(front, t), now);
      }
      assert FirstSeen(before + now) == FirstSeen(AllAliases(occ, t));
      if FirstSeen(before + now) == [] {
        NothingSeen(before + now);
        assert before == [] && now == [];
      }
    }
  }

  lemma {:induction false} NotMet(occ: seq<Entry>, t: string)
    requires Merged(occ, t).None?
    ensures CountOf(occ, t) == 0 && AllAliases(occ, t) == []
  {
    if occ != [] {
      NotMet(Front(occ), t);
    }
  }

  lemma NothingSeen(xs: seq<string>)
    ensures FirstSeen(xs) == [] ==> xs == []
  {
    if xs != [] {
      assert xs[0] in FirstSeen(xs);
    }
  }

  /** Effective equality of two merge results: same weight as the consumers read it, same alias set. */
  ghost predicate SameMeaning(x: Option<Entry>, y: Option<Entry>) {
    match (x, y)
    case (None, None) => true
    case (Some(e), Some(f)) => e.term == f.term && Weight(e) == Weight(f) && forall a :: a in Aliases(e) <==> a in Aliases(f)
    case _ => false
  }

  lemma WeightsAgree(one: seq<Entry>, two: seq<Entry>, t: string)
    requires Merged(one, t).Some? && Merged(two, t).Some?
    requires forall e :: e in one ==> e in two
    ensures Weight(Merged(one, t).value) <= Weight(Merged(two, t).value)
  {
    var j := MergedWeight(one, t);
    var k := MergedWeight(two, t);
    assert one[j] in two;
  }

  lemma AliasesAgree(one: seq<Entry>, two: seq<Entry>, t: string, a: string)
    requires Merged(one, t).Some? && Merged(two, t).Some?
    requires forall e :: e in one ==> e in two
    requires a in Aliases(Merged(one, t).value)
    ensures a in Aliases(Merged(two, t).value)
  {
    MergedAliases(one, t, a);
    MergedAliases(two, t, a);
    var j :| 0 <= j < |one| && one[j].term == t && a in Aliases(one[j]);
    assert one[j] in two;
  }

  lemma SeenAgree(one: seq<Entry>, two: seq<Entry>, t: string)
    requires forall e :: e in one ==> e in two
    ensures Merged(one, t).Some? ==> Merged(two, t).Some?
  {
    MergedIffSeen(one, t);
    MergedIffSeen(two, t);
    if Merged(one, t).Some? {
      var j :| 0 <= j < |Terms(one)| && Terms(one)[j] == t;
      assert one[j] in two;
      var k :| 0 <= k < |two| && two[k] == one[j];
      assert Terms(two)[k] == t;
    }
  }

  // ----- which packs are meant -----

  /** Of the packs with its id, packs[k] is the last. */
  predicate Meant(packs: seq<Pack>, k: nat)
    requires k < |packs|
  {
    forall j :: k < j < |packs| ==> packs[j].id != packs[k].id
  }

  /** An id means the last pack that carries it, and nothing if none does. */
  lemma {:induction false} LookupIs(packs: seq<Pack>, id: string)
    ensures Lookup(packs, id).None? <==> forall k :: 0 <= k < |packs| ==> packs[k].id != id
    ensures forall k :: 0 <= k < |packs| && packs[k].id == id && Meant(packs, k) ==> Lookup(packs, id) == Some(packs[k])
    ensures Lookup(packs, id).Some? ==>
              exists k :: 0 <= k < |packs| && packs[k].id == id && Meant(packs, k) && Lookup(packs, id) == Some(packs[k])
  {
    if packs != [] {
      var front := Front(packs);
      LookupIs(front, id);
      if Last(packs).id == id {
        assert Meant(packs, |packs| - 1);
      } else {
        forall k | 0 <= k < |front| && front[k].id == id ensures Meant(packs, k) <==> Meant(front, k) {
        }
      }
    }
  }

  /** The entry belongs to the last pack carrying some selected id. */
  ghost predicate Selected(selected: seq<string>, packs: seq<Pack>, e: Entry) {
    exists k :: 0 <= k < |packs| && packs[k].id in selected && Meant(packs, k) && e in packs[k].entries
  }

  lemma {:induction false} OccurrenceIff(selected: seq<string>, packs: seq<Pack>, e: Entry)
    ensures e in Occurrences(selected, packs) <==> Selected(selected, packs, e)
  {
    if selected != [] {
      OccurrenceIff(Front(selected), packs, e);
      FrontThenLast(selected);
      LookupIs(packs, Last(selected));
      if Selected(selected, packs, e) && !Selected(Front(selected), packs, e) {
        var k :| 0 <= k < |packs| && packs[k].id in selected && Meant(packs, k) && e in packs[k].entries;
        assert packs[k].id == Last(selected);
      }
    }
  }

  /** The occurrences of several selections are those of each in turn. */
  lemma {:induction false} OccurrencesOfAppend(selected: seq<string>, more: seq<string>, packs: seq<Pack>)
    ensures Occurrences(selected + more, packs) == Occurrences(selected, packs) + Occurrences(more, packs)
  {
    if more == [] {
      assert selected + more == selected;
    } else {
      OccurrencesOfAppend(selected, Front(more), packs);
      assert Front(selected + more) == selected + Front(more) && Last(selected + more) == Last(more);
      var last := match Lookup(packs, Last(more)) { case None => [] case Some(p) => p.entries };
      assert Occurrences(selected, packs) + Occurrences(Front(more), packs) + last
             == Occurrences(selected, packs) + (Occurrences(Front(more), packs) + last);
    }
  }

  /** And those of one selected pack are its entries, in its order. */
  lemma OccurrencesOfOne(packs: seq<Pack>, k: nat)
    requires k < |packs| && Meant(packs, k)
    ensures Occurrences([packs[k].id], packs) == packs[k].entries
  {
    LookupIs(packs, packs[k].id);
    assert Front([packs[k].id]) == [];
  }

  lemma OccurrencesIncluded(one: seq<string>, two: seq<string>, packs: seq<Pack>, e: Entry)
    requires forall k :: 0 <= k < |packs| && packs[k].id in one ==> packs[k].id in two
    requires e in Occurrences(one, packs)
    ensures e in Occurrences(two, packs)
  {
    OccurrenceIff(one, packs, e);
    OccurrenceIff(two, packs, e);
  }

  /** Before the cap the merge is a join per term: two selections naming the same known packs, in any
      order, with any repetitions and any unknown ids, give every term the same meaning. */
  lemma SelectionOrderDoesNotMatter(one: seq<string>, two: seq<string>, packs: seq<Pack>, t: string)
    requires forall k :: 0 <= k < |packs| ==> (packs[k].id in one <==> packs[k].id in two)
    ensures SameMeaning(Merged(Occurrences(one, packs), t), Merged(Occurrences(two, packs), t))
  {
    var a, b := Occurrences(one, packs), Occurrences(two, packs);
    forall e | e in a ensures e in b { OccurrencesIncluded(one, two, packs, e); }
    forall e | e in b ensures e in a { OccurrencesIncluded(two, one, packs, e); }
    SeenAgree(a, b, t);
    SeenAgree(b, a, t);
    if Merged(a, t).Some? {
      MergedIffSeen(a, t);
      MergedIffSeen(b, t);
      WeightsAgree(a, b, t);
      WeightsAgree(b, a, t);
      forall x | x in Aliases(Merged(a, t).value) ensures x in Aliases(Merged(b, t).value) { AliasesAgree(a, b, t, x); }
      forall x | x in Aliases(Merged(b, t).value) ensures x in Aliases(Merged(a, t).value) { AliasesAgree(b, a, t, x); }
    }
  }

  // ----- order and the cap -----

  /** The result lists the first 300 distinct terms in order of first occurrence, each with the merge of
      all its occurrences, those after the cap was reached included. */
  lemma ComposeLists(selected: seq<string>, packs: seq<Pack>, k: nat)
    requires k < |Compose(selected, packs)|
    ensures var occ, r := Occurrences(selected, packs), Compose(selected, packs);
            && |r| <= 300 && (|r| < 300 ==> |r| == |FirstSeen(Terms(occ))|)
            && r[k].term == FirstSeen(Terms(occ))[k]
            && (forall j :: 0 <= j < |r| && j != k ==> r[j].term != r[k].term)
            && (exists i :: FirstHeaviest(occ, r[k].term, i) && r[k].weight == occ[i].weight)
            && (forall a :: a in Aliases(r[k]) <==> AliasOfSome(occ, r[k].term, a))
  {
    var occ, r := Occurrences(selected, packs), Compose(selected, packs);
    var order := FirstSeen(Terms(occ));
    forall j | 0 <= j < |r| ensures r[j].term == order[j] {
      MergedIffSeen(occ, order[j]);
    }
    var i := MergedWeight(occ, order[k]);
    forall a ensures a in Aliases(r[k]) <==> AliasOfSome(occ, r[k].term, a) {
      MergedAliases(occ, order[k], a);
    }
  }

  /** In terms of the packs alone: every listed entry has the term, and the weight, of an entry of a selected
      pack, and exactly the aliases of such entries for its term; and short of the cap every such entry's
      term is listed. */
  ghost predicate ComposedOf(r: seq<Entry>, selected: seq<string>, packs: seq<Pack>) {
    && (forall k :: 0 <= k < |r| ==> HasSource(selected, packs, r[k]))
    && (forall k, a :: 0 <= k < |r| ==> (a in Aliases(r[k]) <==> AliasSelected(selected, packs, r[k].term, a)))
    && (|r| < 300 ==> forall e :: Selected(selected, packs, e) ==> exists k :: 0 <= k < |r| && r[k].term == e.term)
  }

  ghost predicate HasSource(selected: seq<string>, packs: seq<Pack>, x: Entry) {
    exists e :: Selected(selected, packs, e) && e.term == x.term && e.weight == x.weight
  }

  ghost predicate AliasSelected(selected: seq<string>, packs: seq<Pack>, t: string, a: string) {
    exists e :: Selected(selected, packs, e) && e.term == t && a in Aliases(e)
  }

  lemma AliasSelectedIff(selected: seq<string>, packs: seq<Pack>, t: string, a: string)
    ensures AliasOfSome(Occurrences(selected, packs), t, a) <==> AliasSelected(selected, packs, t, a)
  {
    var occ := Occurrences(selected, packs);
    if AliasOfSome(occ, t, a) {
      var j :| 0 <= j < |occ| && occ[j].term == t && a in Aliases(occ[j]);
      OccurrenceIff(selected, packs, occ[j]);
    }
    if AliasSelected(selected, packs, t, a) {
      var e :| Selected(selected, packs, e) && e.term == t && a in Aliases(e);
      OccurrenceIff(selected, packs, e);
      var j :| 0 <= j < |occ| && occ[j] == e;
    }
  }

  lemma ComposeIsSelected(selected: seq<string>, packs: seq<Pack>)
    ensures ComposedOf(Compose(selected, packs), selected, packs)
  {
    var occ, r := Occurrences(selected, packs), Compose(selected, packs);
    forall k | 0 <= k < |r| ensures HasSource(selected, packs, r[k]) {
      ComposeLists(selected, packs, k);
      var i :| FirstHeaviest(occ, r[k].term, i) && r[k].weight == occ[i].weight;
      var e := occ[i];
      OccurrenceIff(selected, packs, e);
      assert e in occ && Selected(selected, packs, e) && e.term == r[k].term;
    }
    forall k, a | 0 <= k < |r| ensures a in Aliases(r[k]) <==> AliasSelected(selected, packs, r[k].term, a) {
      ComposeLists(selected, packs, k);
      AliasSelectedIff(selected, packs, r[k].term, a);
    }
    if |r| < 300 {
      forall e | Selected(selected, packs, e) ensures exists k :: 0 <= k < |r| && r[k].term == e.term {
        TermIsListed(selected, packs, e);
      }
    }
  }

  lemma TermIsListed(selected: seq<string>, packs: seq<Pack>, e: Entry)
    requires Selected(selected, packs, e) && |Compose(selected, packs)| < 300
    ensures exists k :: 0 <= k < |Compose(selected, packs)| && Compose(selected, packs)[k].term == e.term
  {
    var occ, r := Occurrences(selected, packs), Compose(selected, packs);
    OccurrenceIff(selected, packs, e);
    var i :| 0 <= i < |occ| && occ[i] == e;
    assert Terms(occ)[i] == e.term && e.term in Terms(occ);
    assert e.term in FirstSeen(Terms(occ));
    var k :| 0 <= k < |FirstSeen(Terms(occ))| && FirstSeen(Terms(occ))[k] == e.term;
    ComposeLists(selected, packs, k);
  }

  lemma {:induction false} FirstSeenOfAppend(xs: seq<string>, ys: seq<string>)
    ensures FirstSeen(xs) <= FirstSeen(xs + ys)
  {
    if ys == [] {
      assert xs + ys == xs;
    } else {
      FirstSeenOfAppend(xs, Front(ys));
      assert Front(xs + ys) == xs + Front(ys);
    }
  }

  /** Selecting further packs keeps every entry at its place, never lowers its weight and never loses
      one of its aliases. */
  lemma MorePacksOnlyAdd(selected: seq<string>, more: seq<string>, packs: seq<Pack>, k: nat)
    requires k < |Compose(selected, packs)|
    ensures k < |Compose(selected + more, packs)|
    ensures var e, f := Compose(selected, packs)[k], Compose(selected + more, packs)[k];
            e.term == f.term && Weight(e) <= Weight(f) && forall a :: a in Aliases(e) ==> a in Aliases(f)
  {
    var occ, all := Occurrences(selected, packs), Occurrences(selected + more, packs);
    OccurrencesOfAppend(selected, more, packs);
    var rest := Occurrences(more, packs);
    assert all == occ + rest && Terms(all) == Terms(occ) + Terms(rest);
    FirstSeenOfAppend(Terms(occ), Terms(rest));
    var t := FirstSeen(Terms(occ))[k];
    MergedIffSeen(occ, t);
    MergedIffSeen(all, t);
    WeightsAgree(occ, all, t);
    var e := Compose(selected, packs)[k];
    forall a | a in Aliases(e) ensures a in Aliases(Merged(all, t).value) {
      AliasesAgree(occ, all, t, a);
    }
  }
}
