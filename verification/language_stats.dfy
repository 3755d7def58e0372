/** `LanguageStats` (src/components/LanguageStats.tsx): the chips above the list that show how
    many snippets use each language, most used first, and that toggle the language filter. */
module LanguageStats {
  import opened Common
  import opened Seqs
  import opened Types
  import opened Store

  /** One chip: a language and the number of snippets that use it. */
  datatype LanguageCount = LanguageCount(language: string, count: nat)

  /** The number of snippets whose language is `l`. */
  function CountOf(xs: seq<Snippet>, l: string): nat {
    if xs == [] then 0
    else (if xs[0].language == Some(l) then 1 else 0) + CountOf(xs[1..], l)
  }

  /** The languages of the chips, in chip order. */
  function Names(stats: seq<LanguageCount>): (r: seq<string>)
    ensures |r| == |stats|
    ensures forall i :: 0 <= i < |r| ==> r[i] == stats[i].language
  {
    seq(|stats|, i requires 0 <= i < |stats| => stats[i].language)
  }

  /** `a.localeCompare(b)`, read as the comparison of code points: negative when `a` comes
      first, zero exactly when the texts are equal, positive when `b` comes first. */
  function LocaleCompare(a: string, b: string): (r: int)
    ensures -1 <= r <= 1
    ensures r == 0 <==> a == b
  {
    if a == [] && b == [] then 0
    else if a == [] then -1
    else if b == [] then 1
    else if a[0] < b[0] then -1
    else if a[0] > b[0] then 1
    else
      assert a == [a[0]] + a[1..] && b == [b[0]] + b[1..];
      LocaleCompare(a[1..], b[1..])
  }

  /** Swapping the texts flips the sign of `localeCompare`. */
  lemma {:induction false} LocaleCompareFlips(a: string, b: string)
    ensures LocaleCompare(b, a) == -LocaleCompare(a, b)
  {
    if a != [] && b != [] && a[0] == b[0] {
      LocaleCompareFlips(a[1..], b[1..]);
    }
  }

  /** `localeCompare` orders texts transitively. */
  lemma {:induction false} LocaleCompareTransitive(a: string, b: string, c: string)
    requires LocaleCompare(a, b) < 0 && LocaleCompare(b, c) < 0
    ensures LocaleCompare(a, c) < 0
  {
    if a != [] && b != [] && c != [] && a[0] == b[0] && b[0] == c[0] {
      LocaleCompareTransitive(a[1..], b[1..], c[1..]);
    }
  }

  /** The comparator of the `sort` call: `(b.count - a.count) || a.language.localeCompare(b.language)`.
      A difference of zero is falsy, so only equal counts fall through to the names. */
  function Compare(a: LanguageCount, b: LanguageCount): (r: int)
    ensures r == 0 <==> a == b
    ensures a.count > b.count ==> r < 0
    ensures a.count < b.count ==> r > 0
    ensures a.count == b.count ==> r == LocaleCompare(a.language, b.language)
  {
    if b.count - a.count != 0 then b.count - a.count else LocaleCompare(a.language, b.language)
  }

  /** `a` goes before `b`: the comparator is negative. */
  predicate Before(a: LanguageCount, b: LanguageCount) {
    Compare(a, b) < 0
  }

  /** Nothing goes before itself, and never both ways. */
  lemma BeforeAsymmetric(a: LanguageCount, b: LanguageCount)
    ensures !Before(a, a)
    ensures Before(a, b) ==> !Before(b, a)
  {
    LocaleCompareFlips(a.language, b.language);
  }

  lemma BeforeTransitive(a: LanguageCount, b: LanguageCount, c: LanguageCount)
    requires Before(a, b) && Before(b, c)
    ensures Before(a, c)
  {
    if a.count == b.count && b.count == c.count {
      LocaleCompareTransitive(a.language, b.language, c.language);
    }
  }

  /** Chips of different languages are always ordered one way or the other. */
  lemma BeforeTotal(a: LanguageCount, b: LanguageCount)
    requires a.language != b.language
    ensures Before(a, b) || Before(b, a)
  {
    LocaleCompareFlips(a.language, b.language);
  }

  /** In chip order: more snippets first, and equal counts by name. */
  predicate Sorted(stats: seq<LanguageCount>) {
    forall i, j :: 0 <= i < j < |stats| ==> Before(stats[i], stats[j])
  }

  /** What the `stats` memo promises: one chip per language that some snippet uses (snippets
      with no language or an empty one count for none), each with the number of snippets using
      it, in chip order. */
  predicate IsStatsOf(xs: seq<Snippet>, stats: seq<LanguageCount>) {
    && Sorted(stats)
    && (forall i :: 0 <= i < |stats| ==>
          stats[i].language in LanguagesOf(xs) && stats[i].count == CountOf(xs, stats[i].language))
    && (forall l :: l in LanguagesOf(xs) ==> l in Names(stats))
  }

  /** The `stats` memo: a `Map` from language to count, filled in one pass over the snippets,
      then turned into a list and sorted. */
  method Stats(snippets: seq<Snippet>) returns (stats: seq<LanguageCount>)
    ensures IsStatsOf(snippets, stats)
  {
    var counts, order := Tally(snippets);
    var entries := Entries(counts, order);
    EntriesOfTally(LanguagesOf(snippets), counts, order);
    stats := SortStats(entries);
    StatsOfSorted(snippets, order, entries, stats);
  }

  /** The `for` loop: the `Map` and, as `order`, its keys in insertion order. Snippets with no
      language or an empty one are skipped. */
  method Tally(snippets: seq<Snippet>) returns (counts: map<string, nat>, order: seq<string>)
    ensures Tallied(LanguagesOf(snippets), counts, order)
  {
    counts := map[];
    order := [];
    for k := 0 to |snippets|
      invariant Tallied(LanguagesOf(snippets[..k]), counts, order)
    {
      var s := snippets[k];
      ghost var before := LanguagesOf(snippets[..k]);
      StepLanguages(snippets, k);
      if !HasLanguage(s) {
        continue;
      }
      counts, order := CountOne(counts, order, s.language.value, before);
    }
    assert snippets[..|snippets|] == snippets;
  }

  /** The `Map` after the snippets whose languages are `ls`: its keys, in insertion order, are
      the distinct languages in the order they first appear, and each maps to its number of
      occurrences. */
  ghost predicate Tallied(ls: seq<string>, counts: map<string, nat>, order: seq<string>) {
    && order == Dedup(ls)
    && (forall l :: l in counts <==> l in order)
    && (forall l :: l in counts ==> counts[l] == multiset(ls)[l])
  }

  /** `if (!map.has(l)) map.set(l, { count: 0 }); map.get(l)!.count += 1;`: a new language
      becomes the last key with a count of zero, then its count goes up by one. */
  method CountOne(counts: map<string, nat>, order: seq<string>, l: string, ghost ls: seq<string>)
    returns (counts': map<string, nat>, order': seq<string>)
    requires Tallied(ls, counts, order)
    ensures Tallied(ls + [l], counts', order')
  {
    counts', order' := counts, order;
    if l !in counts' {
      counts' := counts'[l := 0];
      order' := order' + [l];
    }
    counts' := counts'[l := counts'[l] + 1];
    TallyStep(ls, l, counts, order, counts', order');
  }

  lemma TallyStep(ls: seq<string>, l: string, counts: map<string, nat>, order: seq<string>,
                  counts': map<string, nat>, order': seq<string>)
    requires Tallied(ls, counts, order)
    requires order' == if l in counts then order else order + [l]
    requires counts' == counts[l := (if l in counts then counts[l] else 0) + 1]
    ensures Tallied(ls + [l], counts', order')
  {
    DedupSnoc(ls, l);
    assert order' == Dedup(ls + [l]);
    assert forall x :: x in counts' <==> x in order' by {
      assert forall x :: x in order' <==> x in order || x == l;
    }
    CountsStep(ls, l, counts, counts');
  }

  lemma CountsStep(ls: seq<string>, l: string, counts: map<string, nat>, counts': map<string, nat>)
    requires forall x :: x in counts ==> counts[x] == multiset(ls)[x]
    requires l !in counts ==> multiset(ls)[l] == 0
    requires counts' == counts[l := (if l in counts then counts[l] else 0) + 1]
    ensures forall x :: x in counts' ==> counts'[x] == multiset(ls + [l])[x]
  {
    assert multiset(ls + [l]) == multiset(ls) + multiset{l};
  }

  /** `Array.from(map.entries()).map(([language, { count }]) => ({ language, count }))`: the
      entries in the order their keys were inserted. */
  function Entries(counts: map<string, nat>, order: seq<string>): (r: seq<LanguageCount>)
    requires forall l :: l in order ==> l in counts
    ensures Names(r) == order
    ensures forall i :: 0 <= i < |r| ==> r[i].count == counts[order[i]]
  {
    var r := seq(|order|, i requires 0 <= i < |order| => LanguageCount(order[i], counts[order[i]]));
    assert Names(r) == order;
    r
  }

  /** The entries of a tally name each language once, with its number of occurrences. */
  lemma EntriesOfTally(ls: seq<string>, counts: map<string, nat>, order: seq<string>)
    requires Tallied(ls, counts, order)
    ensures var r := Entries(counts, order);
            && NoDup(Names(r))
            && forall i :: 0 <= i < |r| ==> r[i].count == multiset(ls)[r[i].language]
  {
  }

  /** The map's entries, sorted, are the stats. */
  lemma StatsOfSorted(xs: seq<Snippet>, order: seq<string>, entries: seq<LanguageCount>,
                      stats: seq<LanguageCount>)
    requires order == Dedup(LanguagesOf(xs)) && Names(entries) == order
    requires forall i :: 0 <= i < |entries| ==> entries[i].count == multiset(LanguagesOf(xs))[entries[i].language]
    requires Sorted(stats) && multiset(stats) == multiset(entries)
    ensures IsStatsOf(xs, stats)
  {
    forall i | 0 <= i < |stats|
      ensures stats[i].language in LanguagesOf(xs) && stats[i].count == CountOf(xs, stats[i].language)
    {
      assert stats[i] in multiset(entries);
      var j :| 0 <= j < |entries| && entries[j] == stats[i];
      assert stats[i].language == order[j];
      CountOfIsMultiplicity(xs, stats[i].language);
    }
    forall l | l in LanguagesOf(xs)
      ensures l in Names(stats)
    {
      DedupKeeps(LanguagesOf(xs), l);
      var j :| 0 <= j < |order| && order[j] == l;
      assert entries[j] in multiset(stats);
      var i :| 0 <= i < |stats| && stats[i] == entries[j];
      assert Names(stats)[i] == l;
    }
  }

  /** `.sort(...)`, as insertion into a sorted list: the result is sorted and holds the same
      entries. The map's keys are distinct, so the comparator orders them strictly. */
  method SortStats(entries: seq<LanguageCount>) returns (sorted: seq<LanguageCount>)
    requires NoDup(Names(entries))
    ensures Sorted(sorted) && multiset(sorted) == multiset(entries)
  {
    sorted := [];
    for i := 0 to |entries|
      invariant Sorted(sorted) && multiset(sorted) == multiset(entries[..i])
    {
      NotYetSorted(entries, i, sorted);
      InsertSorted(sorted, entries[i]);
      assert entries[..i + 1] == entries[..i] + [entries[i]];
      sorted := Insert(sorted, entries[i]);
    }
    assert entries[..|entries|] == entries;
  }

  /** The entries placed so far all have other languages than the next one. */
  lemma NotYetSorted(entries: seq<LanguageCount>, i: nat, sorted: seq<LanguageCount>)
    requires NoDup(Names(entries)) && i < |entries|
    requires multiset(sorted) == multiset(entries[..i])
    ensures forall j :: 0 <= j < |sorted| ==> sorted[j].language != entries[i].language
  {
    forall j | 0 <= j < |sorted|
      ensures sorted[j].language != entries[i].language
    {
      assert sorted[j] in multiset(entries[..i]);
      var k :| 0 <= k < i && entries[k] == sorted[j];
      assert Names(entries)[k] != Names(entries)[i];
    }
  }

  /** One step of insertion sort: `e` goes in front of the first entry it comes before. */
  function Insert(sorted: seq<LanguageCount>, e: LanguageCount): (r: seq<LanguageCount>)
    ensures multiset(r) == multiset(sorted) + multiset{e}
  {
    if sorted == [] || Before(e, sorted[0]) then [e] + sorted
    else
      assert sorted == [sorted[0]] + sorted[1..];
      [sorted[0]] + Insert(sorted[1..], e)
  }

  /** Inserting an entry of a new language into a sorted list keeps it sorted. */
  lemma {:induction false} InsertSorted(sorted: seq<LanguageCount>, e: LanguageCount)
    requires Sorted(sorted)
    requires forall j :: 0 <= j < |sorted| ==> sorted[j].language != e.language
    ensures Sorted(Insert(sorted, e))
  {
    if sorted == [] {
    } else if Before(e, sorted[0]) {
      var r := [e] + sorted;
      forall i, j | 0 <= i < j < |r|
        ensures Before(r[i], r[j])
      {
        if i == 0 && j > 1 {
          BeforeTransitive(e, sorted[0], sorted[j - 1]);
        }
      }
    } else {
      BeforeTotal(e, sorted[0]);
      var rest := Insert(sorted[1..], e);
      InsertSorted(sorted[1..], e);
      var r := [sorted[0]] + rest;
      forall j | 1 <= j < |r|
        ensures Before(sorted[0], r[j])
      {
        assert r[j] in multiset(rest);
        assert r[j] == e || r[j] in sorted[1..];
      }
    }
  }

  /** One more snippet of the list, one more language, if it has one. */
  lemma StepLanguages(xs: seq<Snippet>, k: nat)
    requires k < |xs|
    ensures !HasLanguage(xs[k]) ==> LanguagesOf(xs[..k + 1]) == LanguagesOf(xs[..k])
    ensures HasLanguage(xs[k]) ==> LanguagesOf(xs[..k + 1]) == LanguagesOf(xs[..k]) + [xs[k].language.value]
  {
    assert xs[..k + 1] == xs[..k] + [xs[k]];
    LanguagesSnoc(xs[..k], xs[k]);
    assert LanguagesOf(xs[..k]) + [] == LanguagesOf(xs[..k]);
  }

  /** Appending a snippet appends its language, if it has one. */
  lemma {:induction false} LanguagesSnoc(xs: seq<Snippet>, s: Snippet)
    ensures LanguagesOf(xs + [s]) == LanguagesOf(xs) + (if HasLanguage(s) then [s.language.value] else [])
  {
    if xs != [] {
      assert (xs + [s])[1..] == xs[1..] + [s];
      LanguagesSnoc(xs[1..], s);
    } else {
      assert xs + [s] == [s];
    }
  }

  lemma DedupSnoc(xs: seq<string>, x: string)
    ensures Dedup(xs + [x]) == Dedup(xs) + (if x in Dedup(xs) then [] else [x])
  {
    assert (xs + [x])[..|xs + [x]| - 1] == xs;
    if x in xs {
      DedupKeeps(xs, x);
    }
  }

  /** Counting snippets by language is counting the language in the list of languages. */
  lemma {:induction false} CountOfIsMultiplicity(xs: seq<Snippet>, l: string)
    requires l != ""
    ensures CountOf(xs, l) == multiset(LanguagesOf(xs))[l]
  {
    if xs != [] {
      CountOfIsMultiplicity(xs[1..], l);
    }
  }

  /** The sum of the counts on the chips. */
  function Total(stats: seq<LanguageCount>): nat {
    if stats == [] then 0 else stats[0].count + Total(stats[1..])
  }

  /** The sum, over distinct names, of how often each occurs in `ls`. */
  function Occurrences(names: seq<string>, ls: seq<string>): nat {
    if names == [] then 0 else multiset(ls)[names[0]] + Occurrences(names[1..], ls)
  }

  lemma {:induction false} TotalIsOccurrences(stats: seq<LanguageCount>, ls: seq<string>)
    requires forall i :: 0 <= i < |stats| ==> stats[i].count == multiset(ls)[stats[i].language]
    ensures Total(stats) == Occurrences(Names(stats), ls)
  {
    if stats != [] {
      TotalIsOccurrences(stats[1..], ls);
      assert Names(stats)[1..] == Names(stats[1..]);
    }
  }

  lemma {:induction false} OccurrencesCons(names: seq<string>, x: string, ls: seq<string>)
    ensures Occurrences(names, [x] + ls) == Occurrences(names, ls) + multiset(names)[x]
  {
    if names != [] {
      OccurrencesCons(names[1..], x, ls);
      assert names == [names[0]] + names[1..];
    }
  }

  lemma {:induction false} OnceInDistinct(names: seq<string>, x: string)
    requires NoDup(names) && x in names
    ensures multiset(names)[x] == 1
  {
    assert names == [names[0]] + names[1..];
    if names[0] == x {
      assert x !in names[1..];
    } else {
      OnceInDistinct(names[1..], x);
    }
  }

  /** Over distinct names that cover `ls`, the occurrences add up to the length of `ls`. */
  lemma {:induction false} OccurrencesCover(names: seq<string>, ls: seq<string>)
    requires NoDup(names) && forall x :: x in ls ==> x in names
    ensures Occurrences(names, ls) == |ls|
  {
    if ls == [] {
      OccurrencesOfNothing(names);
    } else {
      assert ls == [ls[0]] + ls[1..];
      OccurrencesCover(names, ls[1..]);
      OccurrencesCons(names, ls[0], ls[1..]);
      OnceInDistinct(names, ls[0]);
    }
  }

  lemma {:induction false} OccurrencesOfNothing(names: seq<string>)
    ensures Occurrences(names, []) == 0
  {
    if names != [] {
      OccurrencesOfNothing(names[1..]);
    }
  }

  /** What follows from the promise: the chips name distinct languages, each used by at least
      one snippet; the counts add up to the number of snippets that have a language; and there
      are no chips, so nothing is shown, exactly when no snippet has a language. */
  lemma StatsFacts(xs: seq<Snippet>, stats: seq<LanguageCount>)
    requires IsStatsOf(xs, stats)
    ensures NoDup(Names(stats))
    ensures forall i :: 0 <= i < |stats| ==> stats[i].count >= 1
    ensures Total(stats) == |LanguagesOf(xs)|
    ensures stats == [] <==> forall j :: 0 <= j < |xs| ==> !HasLanguage(xs[j])
  {
    var ls := LanguagesOf(xs);
    forall i | 0 <= i < |stats|
      ensures stats[i].count == multiset(ls)[stats[i].language] && stats[i].count >= 1
    {
      CountOfIsMultiplicity(xs, stats[i].language);
    }
    forall i, j | 0 <= i < j < |stats|
      ensures Names(stats)[i] != Names(stats)[j]
    {
      BeforeAsymmetric(stats[i], stats[j]);
    }
    TotalIsOccurrences(stats, ls);
    OccurrencesCover(Names(stats), ls);
    if ls != [] {
      assert ls[0] in Names(stats);
    } else {
      NoLanguagesNoneUsed(xs);
    }
    if stats != [] {
      ListedLanguageIsUsed(xs, stats[0].language);
    }
  }

  /** Snippets that list no language have none. */
  lemma {:induction false} NoLanguagesNoneUsed(xs: seq<Snippet>)
    requires LanguagesOf(xs) == []
    ensures forall j :: 0 <= j < |xs| ==> !HasLanguage(xs[j])
  {
    if xs != [] {
      NoLanguagesNoneUsed(xs[1..]);
      assert forall j :: 1 <= j < |xs| ==> xs[j] == xs[1..][j - 1];
    }
  }

  /** The promise fixes the chips: any two lists that keep it are the same list, so `Stats`
      gives the same answer as any other correct sort of the map's entries. */
  lemma StatsUnique(xs: seq<Snippet>, a: seq<LanguageCount>, b: seq<LanguageCount>)
    requires IsStatsOf(xs, a) && IsStatsOf(xs, b)
    ensures a == b
  {
    forall x | x in a
      ensures x in b
    {
      var i :| 0 <= i < |a| && a[i] == x;
      assert x.language in Names(b);
      var j :| 0 <= j < |b| && b[j].language == x.language;
    }
    forall x | x in b
      ensures x in a
    {
      var j :| 0 <= j < |b| && b[j] == x;
      assert x.language in Names(a);
      var i :| 0 <= i < |a| && a[i].language == x.language;
    }
    SortedSameEntries(a, b);
  }

  /** Two sorted lists with the same entries are equal. */
  lemma {:induction false} SortedSameEntries(a: seq<LanguageCount>, b: seq<LanguageCount>)
    requires Sorted(a) && Sorted(b)
    requires forall x :: x in a <==> x in b
    ensures a == b
  {
    if a != [] {
      assert a[0] in a;
      assert a[0] in b;
    }
    if b != [] {
      assert b[0] in b;
      assert b[0] in a;
    }
    if a != [] {
      SortedSameHead(a, b);
      forall x | x in a[1..]
        ensures x in b[1..]
      {
        var i :| 1 <= i < |a| && a[i] == x;
        BeforeAsymmetric(x, x);
        assert Before(a[0], x);
        assert x in a;
        var j :| 0 <= j < |b| && b[j] == x;
        assert j != 0;
        assert b[1..][j - 1] == x;
      }
      forall x | x in b[1..]
        ensures x in a[1..]
      {
        var j :| 1 <= j < |b| && b[j] == x;
        BeforeAsymmetric(x, x);
        assert Before(b[0], x);
        assert x in b;
        var i :| 0 <= i < |a| && a[i] == x;
        assert i != 0;
        assert a[1..][i - 1] == x;
      }
      SortedSameEntries(a[1..], b[1..]);
      assert a == [a[0]] + a[1..] && b == [b[0]] + b[1..];
    }
  }

  /** Two sorted lists that hold each other's first entries start with the same entry. */
  lemma SortedSameHead(a: seq<LanguageCount>, b: seq<LanguageCount>)
    requires Sorted(a) && Sorted(b) && a != [] && b != []
    requires a[0] in b && b[0] in a
    ensures a[0] == b[0]
  {
    var j :| 0 <= j < |b| && b[j] == a[0];
    var k :| 0 <= k < |a| && a[k] == b[0];
    BeforeAsymmetric(a[0], b[0]);
  }

  /** The language filter as the chips see it: `selected={languageFilter || undefined}`. */
  function Selected(filter: string): (r: Option<string>)
    ensures r.None? <==> filter == ""
    ensures r.Some? ==> r.value == filter && r.value != ""
  {
    if filter == "" then None else Some(filter)
  }

  /** `isActive`: the chip's language is the selected one. */
  predicate IsActive(selected: Option<string>, chip: LanguageCount) {
    selected == Some(chip.language)
  }

  /** At most one chip is highlighted, since no two chips share a language; and it is the chip
      of the filter's language, when some snippet uses it. */
  lemma OneActiveChip(xs: seq<Snippet>, stats: seq<LanguageCount>, filter: string)
    requires IsStatsOf(xs, stats)
    ensures forall i, j ::
              (0 <= i < |stats| && 0 <= j < |stats| &&
               IsActive(Selected(filter), stats[i]) && IsActive(Selected(filter), stats[j])) ==> i == j
    ensures filter in LanguagesOf(xs) ==> exists i :: 0 <= i < |stats| && IsActive(Selected(filter), stats[i])
  {
    StatsFacts(xs, stats);
    if filter in LanguagesOf(xs) {
      var i :| 0 <= i < |stats| && Names(stats)[i] == filter;
      assert filter != "";
      assert IsActive(Selected(filter), stats[i]);
    }
  }

  /** `onSelect(isActive ? '' : language)`: clicking the active chip clears the filter, clicking
      any other chip selects its language. */
  function NextFilter(selected: Option<string>, language: string): (r: string)
    ensures selected == Some(language) ==> r == ""
    ensures selected != Some(language) ==> r == language
  {
    if selected == Some(language) then "" else language
  }

  /** Clicking the same chip twice gets back to no filter when it was not selected, and back to
      its own filter when it was: a click toggles. */
  lemma ClickTwice(filter: string, language: string)
    requires language != ""
    ensures NextFilter(Selected(NextFilter(Selected(filter), language)), language) ==
            (if filter == language then language else "")
  {
  }
}
