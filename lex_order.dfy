/** The order in which ECMAScript's default `Array.prototype.toSorted()`
    arranges strings, and that sort applied to a list of strings.
    Characters are compared one at a time by their code; a proper prefix
    comes before any of its extensions. */
module LexOrder {

  /** `a` sorts strictly before `b`. */
  predicate Less(a: string, b: string)
    decreases |a|
  {
    |b| > 0 && (|a| == 0 || a[0] < b[0] || (a[0] == b[0] && Less(a[1..], b[1..])))
  }

  lemma {:induction false} LessIsIrreflexive(a: string)
    ensures !Less(a, a)
    decreases |a|
  {
    if |a| > 0 {
      LessIsIrreflexive(a[1..]);
    }
  }

  lemma {:induction false} LessIsTransitive(a: string, b: string, c: string)
    requires Less(a, b) && Less(b, c)
    ensures Less(a, c)
    decreases |a|
  {
    if |a| > 0 && a[0] == b[0] && b[0] == c[0] {
      LessIsTransitive(a[1..], b[1..], c[1..]);
    }
  }

  /** Any two different strings are ordered one way or the other. */
  lemma {:induction false} LessIsTotal(a: string, b: string)
    requires a != b
    ensures Less(a, b) || Less(b, a)
    decreases |a|
  {
    if |a| > 0 && |b| > 0 && a[0] == b[0] {
      assert a == [a[0]] + a[1..] && b == [b[0]] + b[1..];
      LessIsTotal(a[1..], b[1..]);
    }
  }

  predicate NoDuplicates(s: seq<string>) {
    forall i, j :: 0 <= i < j < |s| ==> s[i] != s[j]
  }

  /** Every string is strictly before every later one. */
  predicate StrictlyAscending(s: seq<string>) {
    forall i, j :: 0 <= i < j < |s| ==> Less(s[i], s[j])
  }

  lemma StrictlyAscendingHasNoDuplicates(s: seq<string>)
    requires StrictlyAscending(s)
    ensures NoDuplicates(s)
  {
    forall i, j | 0 <= i < j < |s| ensures s[i] != s[j] {
      LessIsIrreflexive(s[i]);
    }
  }

  /** One insertion step of a stable sort under the default comparison:
      `x` goes before the first element that does not sort before it. */
  function Insert(x: string, t: seq<string>): (r: seq<string>)
    ensures multiset(r) == multiset(t) + multiset{x}
  {
    if t == [] then [x]
    else if !Less(t[0], x) then [x] + t
    else
      assert t == [t[0]] + t[1..];
      [t[0]] + Insert(x, t[1..])
  }

  /** `toSorted()` with no comparator on a list of strings. Its ordering
      is proved only for lists without duplicates (`SortIsStrictlyAscending`),
      which is all the tag list ever sorts: the contents of a Set. */
  function Sort(s: seq<string>): (r: seq<string>)
    ensures multiset(r) == multiset(s)
  {
    if s == [] then []
    else
      assert s == [s[0]] + s[1..];
      Insert(s[0], Sort(s[1..]))
  }

  lemma {:induction false} InsertKeepsStrictlyAscending(x: string, t: seq<string>)
    requires StrictlyAscending(t) && x !in t
    ensures StrictlyAscending(Insert(x, t))
    decreases |t|
  {
    if t != [] {
      if !Less(t[0], x) {
        LessIsTotal(x, t[0]);
        forall j | 0 < j < |t| ensures Less(x, t[j]) {
          LessIsTransitive(x, t[0], t[j]);
        }
      } else {
        assert t[0] !in t[1..] by {
          LessIsIrreflexive(t[0]);
        }
        InsertKeepsStrictlyAscending(x, t[1..]);
        var r := Insert(x, t[1..]);
        forall k | 0 <= k < |r| ensures Less(t[0], r[k]) {
          assert r[k] in multiset(r);
        }
      }
    }
  }

  /** Sorting a duplicate-free list yields a strictly ascending one. */
  lemma {:induction false} SortIsStrictlyAscending(s: seq<string>)
    requires NoDuplicates(s)
    ensures StrictlyAscending(Sort(s))
    decreases |s|
  {
    if s != [] {
      SortIsStrictlyAscending(s[1..]);
      assert s[0] !in multiset(Sort(s[1..])) by {
        assert s[0] !in s[1..];
      }
      InsertKeepsStrictlyAscending(s[0], Sort(s[1..]));
    }
  }
}
