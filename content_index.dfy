/** The content index of `src/lib/source.ts`: one snapshot of cheatsheet
    pages, taken once when the module loads, and three read-only queries
    over it. The snapshot is passed in as a sequence; every query is a
    function of it, so no query can change it and two calls on the same
    snapshot give equal results. */
module ContentIndex {
  import opened Wrappers
  import LexOrder

  /** One cheatsheet page as the queries see it: its front-matter date as
      milliseconds since the epoch (`date.getTime()`) and its optional list
      of tags. */
  datatype Item = Item(date: int, tags: Option<seq<string>>)

  /** `cheatsheet.data.tags?.includes(tag)` is truthy: exact, case-sensitive. */
  predicate HasTag(c: Item, tag: string) {
    c.tags.Some? && tag in c.tags.value
  }

  /** Some page of the snapshot carries `tag`. */
  predicate TagOccurs(s: seq<Item>, tag: string) {
    exists i :: 0 <= i < |s| && HasTag(s[i], tag)
  }

  /** Every page is at least as new as every later page. */
  predicate NewestFirst(s: seq<Item>) {
    forall i, j :: 0 <= i < j < |s| ==> s[i].date >= s[j].date
  }

  /** The pages of `s` dated exactly `d`, in their order in `s`. A sort is
      stable when it leaves each of these subsequences unchanged. */
  function SameDate(s: seq<Item>, d: int): seq<Item> {
    if s == [] then [] else (if s[0].date == d then [s[0]] else []) + SameDate(s[1..], d)
  }

  // ---------------------------------------------------------------------
  // toSorted((a, b) => b.date - a.date)
  // ---------------------------------------------------------------------

  /** One insertion step of a stable sort with the newest-first comparator:
      the comparator is positive exactly when `y` is strictly newer than
      `x`, so `x` goes before the first `y` that is not newer than it. */
  function InsertByDate(x: Item, t: seq<Item>): (r: seq<Item>)
    ensures |r| == |t| + 1
    ensures multiset(r) == multiset(t) + multiset{x}
  {
    if t == [] then [x]
    else if t[0].date <= x.date then [x] + t
    else
      assert t == [t[0]] + t[1..];
      [t[0]] + InsertByDate(x, t[1..])
  }

  lemma {:induction false} InsertByDateKeepsNewestFirst(x: Item, t: seq<Item>)
    requires NewestFirst(t)
    ensures NewestFirst(InsertByDate(x, t))
    decreases |t|
  {
    if t != [] && t[0].date > x.date {
      InsertByDateKeepsNewestFirst(x, t[1..]);
      var rest := InsertByDate(x, t[1..]);
      forall k | 0 <= k < |rest| ensures t[0].date >= rest[k].date {
        assert rest[k] in multiset(rest);
      }
    }
  }

  /** `toSorted` with the comparator `(a, b) => b.date - a.date`. The
      difference of two integral millisecond counts has the sign of the
      exact difference, so the comparator is modelled by comparing dates. */
  function SortByDate(s: seq<Item>): (r: seq<Item>)
    ensures |r| == |s|
    ensures multiset(r) == multiset(s)
    ensures NewestFirst(r)
  {
    if s == [] then []
    else
      assert s == [s[0]] + s[1..];
      InsertByDateKeepsNewestFirst(s[0], SortByDate(s[1..]));
      InsertByDate(s[0], SortByDate(s[1..]))
  }

  lemma {:induction false} InsertByDateKeepsTies(x: Item, t: seq<Item>, d: int)
    ensures SameDate(InsertByDate(x, t), d)
         == (if x.date == d then [x] + SameDate(t, d) else SameDate(t, d))
    decreases |t|
  {
    if t == [] {
      assert InsertByDate(x, t) == [x];
      assert [x][1..] == [];
    } else if t[0].date <= x.date {
      var r := InsertByDate(x, t);
      assert r == [x] + t && r[0] == x && r[1..] == t;
    } else {
      var rest := InsertByDate(x, t[1..]);
      InsertByDateKeepsTies(x, t[1..], d);
      var r := InsertByDate(x, t);
      assert r == [t[0]] + rest && r[0] == t[0] && r[1..] == rest;
      var head := if t[0].date == d then [t[0]] else [];
      assert SameDate(r, d) == head + SameDate(rest, d);
      assert SameDate(t, d) == head + SameDate(t[1..], d);
      assert x.date == d ==> head == [];
    }
  }


  /** Stability: pages with equal dates keep their relative order. */
  lemma {:induction false} SortByDateIsStable(s: seq<Item>, d: int)
    ensures SameDate(SortByDate(s), d) == SameDate(s, d)
    decreases |s|
  {
    if s != [] {
      SortByDateIsStable(s[1..], d);
      InsertByDateKeepsTies(s[0], SortByDate(s[1..]), d);
    }
  }

  lemma {:induction false} SameDateMembers(s: seq<Item>, d: int)
    ensures forall x :: x in SameDate(s, d) <==> x in s && x.date == d
    decreases |s|
  {
    if s != [] {
      SameDateMembers(s[1..], d);
      assert s == [s[0]] + s[1..];
    }
  }

  /** A page in one of two sequences with the same groups of equal dates
      is in the other. */
  lemma SameGroupsSameMembers(a: seq<Item>, b: seq<Item>, x: Item)
    requires forall d :: SameDate(a, d) == SameDate(b, d)
    requires x in a
    ensures x in b
  {
    SameDateMembers(a, x.date);
    SameDateMembers(b, x.date);
    assert x in SameDate(a, x.date);
  }

  /** Two newest-first orders with the same groups of equal dates are
      empty together, and otherwise start with the same page: the first
      page of the newest group. */
  lemma StableNewestFirstHeads(a: seq<Item>, b: seq<Item>)
    requires NewestFirst(a) && NewestFirst(b)
    requires forall d :: SameDate(a, d) == SameDate(b, d)
    ensures a != [] <==> b != []
    ensures a != [] ==> a[0] == b[0]
  {
    if a != [] {
      SameGroupsSameMembers(a, b, a[0]);
    }
    if b != [] {
      SameGroupsSameMembers(b, a, b[0]);
    }
    if a != [] && b != [] {
      var m, n := a[0].date, b[0].date;
      assert m >= n by {
        var k :| 0 <= k < |a| && a[k] == b[0];
      }
      assert n >= m by {
        var k :| 0 <= k < |b| && b[k] == a[0];
      }
      assert a[0] == SameDate(a, m)[0] == SameDate(b, m)[0] == b[0];
    }
  }

  lemma StableNewestFirstTails(a: seq<Item>, b: seq<Item>, d: int)
    requires a != [] && b != [] && a[0] == b[0]
    requires SameDate(a, d) == SameDate(b, d)
    ensures SameDate(a[1..], d) == SameDate(b[1..], d)
  {
    var p := if a[0].date == d then [a[0]] else [];
    assert SameDate(a[1..], d) == SameDate(a, d)[|p|..];
    assert SameDate(b[1..], d) == SameDate(b, d)[|p|..];
  }

  /** A newest-first order that keeps every group of equal dates in a fixed
      order is unique: the stable descending sort has exactly one result. */
  lemma {:induction false} StableNewestFirstIsUnique(a: seq<Item>, b: seq<Item>)
    requires NewestFirst(a) && NewestFirst(b)
    requires forall d :: SameDate(a, d) == SameDate(b, d)
    ensures a == b
    decreases |a|
  {
    StableNewestFirstHeads(a, b);
    if a != [] {
      forall d ensures SameDate(a[1..], d) == SameDate(b[1..], d) {
        StableNewestFirstTails(a, b, d);
      }
      StableNewestFirstIsUnique(a[1..], b[1..]);
      assert a == [a[0]] + a[1..] && b == [b[0]] + b[1..];
    }
  }

  /** The sort result is fully pinned down by what a stable sort promises:
      any sequence that lists the pages newest first and keeps equal dates
      in snapshot order is the sort's result. */
  lemma SortByDateIsTheStableOrder(s: seq<Item>, r: seq<Item>)
    requires NewestFirst(r)
    requires forall d :: SameDate(r, d) == SameDate(s, d)
    ensures r == SortByDate(s)
  {
    forall d ensures SameDate(r, d) == SameDate(SortByDate(s), d) {
      SortByDateIsStable(s, d);
    }
    StableNewestFirstIsUnique(r, SortByDate(s));
  }

  // ---------------------------------------------------------------------
  // getSortedByDateCheatsheets
  // ---------------------------------------------------------------------

  /** `getSortedByDateCheatsheets()`: all pages, newest first, ties kept in
      snapshot order. */
  function SortedByDateCheatsheets(snapshot: seq<Item>): (r: seq<Item>)
    ensures multiset(r) == multiset(snapshot)
    ensures NewestFirst(r)
    ensures forall d :: SameDate(r, d) == SameDate(snapshot, d)
  {
    var r := SortByDate(snapshot);
    assert forall d :: SameDate(r, d) == SameDate(snapshot, d) by {
      forall d ensures SameDate(r, d) == SameDate(snapshot, d) {
        SortByDateIsStable(snapshot, d);
      }
    }
    r
  }

  // ---------------------------------------------------------------------
  // getTags
  // ---------------------------------------------------------------------

  /** `tagSet.add(tag)` on a JavaScript `Set`, kept as its iteration
      order: a tag already present changes nothing, a new one goes last. */
  function AddTag(seen: seq<string>, tag: string): seq<string> {
    if tag in seen then seen else seen + [tag]
  }

  /** Adding the tags of one page, first to last. */
  function AddTags(seen: seq<string>, tags: seq<string>): seq<string>
    decreases |tags|
  {
    if tags == [] then seen
    else AddTag(AddTags(seen, tags[..|tags| - 1]), tags[|tags| - 1])
  }

  /** The Set after the outer loop has visited every page of `s`; a page
      whose `tags` is undefined contributes nothing. */
  function CollectTags(s: seq<Item>): seq<string>
    decreases |s|
  {
    if s == [] then []
    else
      var prev := CollectTags(s[..|s| - 1]);
      match s[|s| - 1].tags
      case None => prev
      case Some(ts) => AddTags(prev, ts)
  }

  /** The value `getTags()` returns: `Array.from(tagSet).toSorted()`. */
  function Tags(snapshot: seq<Item>): seq<string> {
    LexOrder.Sort(CollectTags(snapshot))
  }

  lemma {:induction false} AddTagsMembers(seen: seq<string>, tags: seq<string>)
    ensures forall t :: t in AddTags(seen, tags) <==> t in seen || t in tags
    ensures LexOrder.NoDuplicates(seen) ==> LexOrder.NoDuplicates(AddTags(seen, tags))
    decreases |tags|
  {
    if tags != [] {
      var init := tags[..|tags| - 1];
      AddTagsMembers(seen, init);
      assert tags == init + [tags[|tags| - 1]];
    }
  }

  lemma {:induction false} CollectTagsMembers(s: seq<Item>)
    ensures forall t :: t in CollectTags(s) <==> TagOccurs(s, t)
    ensures LexOrder.NoDuplicates(CollectTags(s))
    decreases |s|
  {
    if s != [] {
      var init := s[..|s| - 1];
      var last := s[|s| - 1];
      CollectTagsMembers(init);
      if last.tags.Some? {
        AddTagsMembers(CollectTags(init), last.tags.value);
      }
      forall t ensures TagOccurs(s, t) <==> TagOccurs(init, t) || HasTag(last, t) {
        if TagOccurs(s, t) {
          var i :| 0 <= i < |s| && HasTag(s[i], t);
          if i < |s| - 1 {
            assert init[i] == s[i];
          }
        }
        if TagOccurs(init, t) {
          var i :| 0 <= i < |init| && HasTag(init[i], t);
          assert s[i] == init[i];
        }
      }
    }
  }

  /** What `getTags()` promises: strictly ascending (hence free of
      duplicates), and a tag is listed exactly when some page carries it. */
  lemma TagsSpec(snapshot: seq<Item>)
    ensures LexOrder.StrictlyAscending(Tags(snapshot))
    ensures forall t :: t in Tags(snapshot) <==> TagOccurs(snapshot, t)
  {
    CollectTagsMembers(snapshot);
    LexOrder.SortIsStrictlyAscending(CollectTags(snapshot));
    forall t ensures t in Tags(snapshot) <==> t in CollectTags(snapshot) {
      assert t in Tags(snapshot) <==> t in multiset(Tags(snapshot));
    }
  }

  /** `getTags()`: the nested loops fill the Set, which is then sorted. */
  method GetTags(snapshot: seq<Item>) returns (tags: seq<string>)
    ensures tags == Tags(snapshot)
    ensures LexOrder.StrictlyAscending(tags)
    ensures forall t :: t in tags <==> TagOccurs(snapshot, t)
  {
    var tagSet: seq<string> := [];
    var i := 0;
    while i < |snapshot|
      invariant 0 <= i <= |snapshot|
      invariant tagSet == CollectTags(snapshot[..i])
    {
      var cheatsheet := snapshot[i];
      assert snapshot[..i + 1][..i] == snapshot[..i];
      if cheatsheet.tags.Some? {
        var ts := cheatsheet.tags.value;
        var j := 0;
        while j < |ts|
          invariant 0 <= j <= |ts|
          invariant tagSet == AddTags(CollectTags(snapshot[..i]), ts[..j])
        {
          assert ts[..j + 1][..j] == ts[..j];
          if ts[j] !in tagSet {
            tagSet := tagSet + [ts[j]];
          }
          j := j + 1;
        }
        assert ts[..|ts|] == ts;
      }
      i := i + 1;
    }
    assert snapshot[..|snapshot|] == snapshot;
    TagsSpec(snapshot);
    tags := LexOrder.Sort(tagSet);
  }

  // ---------------------------------------------------------------------
  // getCheatsheetsByTag
  // ---------------------------------------------------------------------

  /** `cheatsheets.filter((c) => c.data.tags?.includes(tag))`. */
  function Tagged(s: seq<Item>, tag: string): seq<Item>
    decreases |s|
  {
    if s == [] then [] else (if HasTag(s[0], tag) then [s[0]] else []) + Tagged(s[1..], tag)
  }

  /** The filter keeps every page carrying the tag, as often as the
      snapshot has it, and no other page. */
  lemma {:induction false} TaggedCounts(s: seq<Item>, tag: string)
    ensures forall x :: multiset(Tagged(s, tag))[x] == if HasTag(x, tag) then multiset(s)[x] else 0
    decreases |s|
  {
    if s != [] {
      TaggedCounts(s[1..], tag);
      assert s == [s[0]] + s[1..];
    }
  }

  lemma {:induction false} SameDateAppend(a: seq<Item>, b: seq<Item>, d: int)
    ensures SameDate(a + b, d) == SameDate(a, d) + SameDate(b, d)
    decreases |a|
  {
    if a != [] {
      assert (a + b)[1..] == a[1..] + b;
      SameDateAppend(a[1..], b, d);
    } else {
      assert a + b == b;
    }
  }

  lemma TaggedCons(x: Item, rest: seq<Item>, tag: string)
    ensures Tagged([x] + rest, tag) == (if HasTag(x, tag) then [x] else []) + Tagged(rest, tag)
  {
    assert ([x] + rest)[1..] == rest;
  }

  /** `.filter` keeps the order of the pages it keeps: filtering a
      concatenation filters each part. */
  lemma {:induction false} TaggedAppend(a: seq<Item>, b: seq<Item>, tag: string)
    ensures Tagged(a + b, tag) == Tagged(a, tag) + Tagged(b, tag)
    decreases |a|
  {
    if a == [] {
      assert a + b == b;
    } else {
      assert a + b == [a[0]] + (a[1..] + b);
      assert a == [a[0]] + a[1..];
      TaggedCons(a[0], a[1..] + b, tag);
      TaggedCons(a[0], a[1..], tag);
      TaggedAppend(a[1..], b, tag);
    }
  }

  /** The pages of one date among the tagged pages are the tagged pages
      among those of that date, both in snapshot order. */
  lemma {:induction false} SameDateOfTagged(s: seq<Item>, tag: string, d: int)
    ensures SameDate(Tagged(s, tag), d) == Tagged(SameDate(s, d), tag)
    decreases |s|
  {
    if s != [] {
      var x := s[0];
      var p := if HasTag(x, tag) then [x] else [];
      var q := if x.date == d then [x] else [];
      SameDateOfTagged(s[1..], tag, d);
      SameDateAppend(p, Tagged(s[1..], tag), d);
      TaggedAppend(q, SameDate(s[1..], d), tag);
      assert SameDate(p, d) == Tagged(q, tag);
    }
  }

  /** Ties in the sorted tagged pages keep both the filter's order and the
      snapshot's order. */
  lemma SortedTaggedIsStable(snapshot: seq<Item>, tag: string)
    ensures var r := SortByDate(Tagged(snapshot, tag));
            && (forall d :: SameDate(r, d) == SameDate(Tagged(snapshot, tag), d))
            && (forall d :: SameDate(r, d) == Tagged(SameDate(snapshot, d), tag))
  {
    forall d ensures SameDate(SortByDate(Tagged(snapshot, tag)), d) == SameDate(Tagged(snapshot, tag), d)
                  && SameDate(Tagged(snapshot, tag), d) == Tagged(SameDate(snapshot, d), tag) {
      SortByDateIsStable(Tagged(snapshot, tag), d);
      SameDateOfTagged(snapshot, tag, d);
    }
  }

  /** The sorted tagged pages are empty exactly when no page has the tag. */
  lemma SortedTaggedEmptyIff(snapshot: seq<Item>, tag: string)
    ensures SortByDate(Tagged(snapshot, tag)) == [] <==> !TagOccurs(snapshot, tag)
  {
    var r := SortByDate(Tagged(snapshot, tag));
    TaggedCounts(snapshot, tag);
    if TagOccurs(snapshot, tag) {
      var i :| 0 <= i < |snapshot| && HasTag(snapshot[i], tag);
      assert multiset(snapshot)[snapshot[i]] > 0;
      assert multiset(r)[snapshot[i]] > 0;
    }
    if r != [] {
      assert multiset(r)[r[0]] > 0;
      assert r[0] in snapshot;
      var i :| 0 <= i < |snapshot| && snapshot[i] == r[0];
      assert HasTag(snapshot[i], tag);
    }
  }

  /** `getCheatsheetsByTag(tag)`: exactly the pages carrying `tag`, each as
      often as in the snapshot, newest first; the tagged pages of each date
      appear in snapshot order; empty exactly when no page carries `tag`. */
  function CheatsheetsByTag(snapshot: seq<Item>, tag: string): (r: seq<Item>)
    ensures forall x :: multiset(r)[x] == if HasTag(x, tag) then multiset(snapshot)[x] else 0
    ensures NewestFirst(r)
    ensures forall d :: SameDate(r, d) == SameDate(Tagged(snapshot, tag), d)
    ensures forall d :: SameDate(r, d) == Tagged(SameDate(snapshot, d), tag)
    ensures r == [] <==> !TagOccurs(snapshot, tag)
  {
    TaggedCounts(snapshot, tag);
    SortedTaggedIsStable(snapshot, tag);
    SortedTaggedEmptyIff(snapshot, tag);
    SortByDate(Tagged(snapshot, tag))
  }

  /** Every tag that `getTags()` lists has at least one page, so a tag
      card never shows a count of zero. */
  lemma EveryListedTagHasCheatsheets(snapshot: seq<Item>, tag: string)
    requires tag in Tags(snapshot)
    ensures |CheatsheetsByTag(snapshot, tag)| >= 1
  {
    TagsSpec(snapshot);
  }

  /** The three pages of a small snapshot: dated 2024-01-01, 2024-03-01
      and 2024-02-01 (UTC midnight, in milliseconds), tagged `git`,
      `git, docker` and `docker`, listed in that order. */
  function ScenarioSnapshot(): seq<Item> {
    [Item(1704067200000, Some(["git"])),
     Item(1709251200000, Some(["git", "docker"])),
     Item(1706745600000, Some(["docker"]))]
  }

  lemma ScenarioSortedByDate()
    ensures var s := ScenarioSnapshot(); SortedByDateCheatsheets(s) == [s[1], s[2], s[0]]
  {
  }

  lemma ScenarioTags()
    ensures Tags(ScenarioSnapshot()) == ["docker", "git"]
  {
    var s := ScenarioSnapshot();
    assert s[..2] == [s[0], s[1]] && s[..2][..1] == [s[0]];
    assert CollectTags([s[0]]) == ["git"];
    assert ["git", "docker"][..1] == ["git"];
    assert CollectTags([s[0], s[1]]) == ["git", "docker"];
    assert CollectTags(s) == ["git", "docker"];
    assert LexOrder.Less("docker", "git");
  }

  lemma ScenarioTagged()
    ensures var s := ScenarioSnapshot(); Tagged(s, "docker") == [s[1], s[2]]
  {
    var s := ScenarioSnapshot();
    var jan, mar, feb := s[0], s[1], s[2];
    assert "docker"[0] != "git"[0];
    assert !HasTag(jan, "docker") && HasTag(mar, "docker") && HasTag(feb, "docker");
    assert s[1..] == [mar, feb] && s[1..][1..] == [feb] && s[1..][1..][1..] == [];
    assert Tagged([], "docker") == [];
    assert Tagged([feb], "docker") == [feb];
    assert Tagged([mar, feb], "docker") == [mar, feb];
  }

  lemma ScenarioTaggedSorted()
    ensures var s := ScenarioSnapshot(); SortByDate([s[1], s[2]]) == [s[1], s[2]]
  {
  }

  lemma ScenarioByTag()
    ensures var s := ScenarioSnapshot(); CheatsheetsByTag(s, "docker") == [s[1], s[2]]
  {
    ScenarioTagged();
    ScenarioTaggedSorted();
  }

  lemma ScenarioUnknownTag()
    ensures CheatsheetsByTag(ScenarioSnapshot(), "rust") == []
  {
  }
}
