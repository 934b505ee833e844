/**
 * `sortHighlights` of the paper store: general notes first, in their input order, then the
 * anchored highlights stably sorted by (page number, top edge of the bounding rectangle).
 * The stable sort (lodash `sortBy` on the two key paths) is given by a reference definition,
 * `SortByPosition`, proved sorted, a permutation, stable, and the only list with those properties.
 */
module HighlightSort {
  import opened Models

  /** The sort key of an anchored highlight. */
  datatype SortKey = SortKey(page: int, y1: real)

  function KeyOf(h: Highlight): SortKey
    requires h.Anchored?
  {
    SortKey(h.position.pageNumber, h.position.boundingRect.y1)
  }

  /** Strict lexicographic order on keys. */
  predicate KeyLess(a: SortKey, b: SortKey) {
    a.page < b.page || (a.page == b.page && a.y1 < b.y1)
  }

  predicate AllAnchored(s: seq<Highlight>) {
    forall i :: 0 <= i < |s| ==> s[i].Anchored?
  }

  /** Ascending by key: no later entry has a smaller key than an earlier one. */
  predicate SortedByKey(s: seq<Highlight>)
    requires AllAnchored(s)
  {
    forall i, j :: 0 <= i < j < |s| ==> !KeyLess(KeyOf(s[j]), KeyOf(s[i]))
  }

  /** The entries with key `k`, in list order. */
  function WithKey(s: seq<Highlight>, k: SortKey): seq<Highlight>
    requires AllAnchored(s)
  {
    if s == [] then [] else (if KeyOf(s[0]) == k then [s[0]] else []) + WithKey(s[1..], k)
  }

  /** Inserts `x` behind every entry whose key is not larger than its own. */
  function InsertByKey(x: Highlight, s: seq<Highlight>): (r: seq<Highlight>)
    requires x.Anchored? && AllAnchored(s)
    ensures AllAnchored(r) && |r| == |s| + 1
    ensures multiset(r) == multiset(s) + multiset{x}
  {
    if s == [] then [x]
    else if KeyLess(KeyOf(x), KeyOf(s[0])) then [x] + s
    else
      assert s == [s[0]] + s[1..];
      [s[0]] + InsertByKey(x, s[1..])
  }

  /** The stable sort by key: insertion of each entry, last entry inserted last. */
  function SortByPosition(s: seq<Highlight>): (r: seq<Highlight>)
    requires AllAnchored(s)
    ensures AllAnchored(r) && |r| == |s|
    ensures multiset(r) == multiset(s)
  {
    if s == [] then []
    else
      assert s == s[..|s| - 1] + [s[|s| - 1]];
      InsertByKey(s[|s| - 1], SortByPosition(s[..|s| - 1]))
  }

  /** The general notes of a list, in list order. */
  function Generals(s: seq<Highlight>): (r: seq<Highlight>)
    ensures forall i :: 0 <= i < |r| ==> r[i].General?
  {
    if s == [] then [] else (if s[0].General? then [s[0]] else []) + Generals(s[1..])
  }

  /** The anchored highlights of a list, in list order. */
  function Anchoreds(s: seq<Highlight>): (r: seq<Highlight>)
    ensures AllAnchored(r)
  {
    if s == [] then [] else (if s[0].Anchored? then [s[0]] else []) + Anchoreds(s[1..])
  }

  /** What `sortHighlights` returns. */
  function SortedHighlights(s: seq<Highlight>): seq<Highlight> {
    Generals(s) + SortByPosition(Anchoreds(s))
  }

  // ---------------------------------------------------------------------------
  // Facts about the filters

  lemma {:induction false} GeneralsAppend(a: seq<Highlight>, b: seq<Highlight>)
    ensures Generals(a + b) == Generals(a) + Generals(b)
  {
    if a == [] {
      assert a + b == b;
    } else {
      assert (a + b)[1..] == a[1..] + b;
      GeneralsAppend(a[1..], b);
    }
  }

  lemma {:induction false} AnchoredsAppend(a: seq<Highlight>, b: seq<Highlight>)
    ensures Anchoreds(a + b) == Anchoreds(a) + Anchoreds(b)
  {
    if a == [] {
      assert a + b == b;
    } else {
      assert (a + b)[1..] == a[1..] + b;
      AnchoredsAppend(a[1..], b);
    }
  }

  /** Splitting a list into its general notes and its anchored highlights loses nothing. */
  lemma {:induction false} PartitionMultiset(s: seq<Highlight>)
    ensures multiset(Generals(s)) + multiset(Anchoreds(s)) == multiset(s)
  {
    if s != [] {
      PartitionMultiset(s[1..]);
      assert s == [s[0]] + s[1..];
    }
  }

  /** Filtering the general notes of a list of general notes changes nothing, and nothing is anchored. */
  lemma {:induction false} FiltersOfGenerals(g: seq<Highlight>)
    requires forall i :: 0 <= i < |g| ==> g[i].General?
    ensures Generals(g) == g && Anchoreds(g) == []
  {
    if g != [] {
      FiltersOfGenerals(g[1..]);
      assert g == [g[0]] + g[1..];
    }
  }

  /** Filtering a list of anchored highlights keeps all of them and no general note. */
  lemma {:induction false} FiltersOfAnchoreds(a: seq<Highlight>)
    requires AllAnchored(a)
    ensures Anchoreds(a) == a && Generals(a) == []
  {
    if a != [] {
      FiltersOfAnchoreds(a[1..]);
      assert a == [a[0]] + a[1..];
    }
  }

  // ---------------------------------------------------------------------------
  // The stable sort is sorted

  lemma {:induction false} InsertKeepsSorted(x: Highlight, s: seq<Highlight>)
    requires x.Anchored? && AllAnchored(s) && SortedByKey(s)
    ensures SortedByKey(InsertByKey(x, s))
    ensures InsertByKey(x, s)[0] == x || (s != [] && InsertByKey(x, s)[0] == s[0])
  {
    if s != [] && !KeyLess(KeyOf(x), KeyOf(s[0])) {
      SortedTail(s);
      InsertKeepsSorted(x, s[1..]);
      var t := InsertByKey(x, s[1..]);
      InsertedAboveHead(x, s);
      SortedCons(s[0], t);
      assert [s[0]] + t == InsertByKey(x, s);
    }
  }

  /** Behind the head of a sorted list, an insertion of a key not below it only holds keys not below it. */
  lemma {:induction false} InsertedAboveHead(x: Highlight, s: seq<Highlight>)
    requires x.Anchored? && AllAnchored(s) && SortedByKey(s) && s != [] && !KeyLess(KeyOf(x), KeyOf(s[0]))
    ensures var t := InsertByKey(x, s[1..]);
      forall m :: 0 <= m < |t| ==> !KeyLess(KeyOf(t[m]), KeyOf(s[0]))
  {
    var t := InsertByKey(x, s[1..]);
    forall m | 0 <= m < |t| ensures !KeyLess(KeyOf(t[m]), KeyOf(s[0])) {
      if t[m] != x {
        assert t[m] in multiset(t);
        assert t[m] in multiset(s[1..]);
        var k :| 0 <= k < |s[1..]| && s[1..][k] == t[m];
        assert s[k + 1] == t[m];
      }
    }
  }

  /** A head not above any entry of a sorted list keeps it sorted. */
  lemma {:induction false} SortedCons(h: Highlight, t: seq<Highlight>)
    requires h.Anchored? && AllAnchored(t) && SortedByKey(t)
    requires forall m :: 0 <= m < |t| ==> !KeyLess(KeyOf(t[m]), KeyOf(h))
    ensures AllAnchored([h] + t) && SortedByKey([h] + t)
  {
    var r := [h] + t;
    forall i, j | 0 <= i < j < |r| ensures !KeyLess(KeyOf(r[j]), KeyOf(r[i])) {
      assert r[j] == t[j - 1];
      if i > 0 {
        assert r[i] == t[i - 1];
      }
    }
  }

  /** The reference stable sort returns its input in ascending key order. */
  lemma {:induction false} SortByPositionSorted(s: seq<Highlight>)
    requires AllAnchored(s)
    ensures SortedByKey(SortByPosition(s))
  {
    if s != [] {
      SortByPositionSorted(s[..|s| - 1]);
      InsertKeepsSorted(s[|s| - 1], SortByPosition(s[..|s| - 1]));
    }
  }

  // ---------------------------------------------------------------------------
  // The stable sort is stable

  lemma {:induction false} WithKeyAppend(a: seq<Highlight>, b: seq<Highlight>, k: SortKey)
    requires AllAnchored(a) && AllAnchored(b)
    ensures AllAnchored(a + b)
    ensures WithKey(a + b, k) == WithKey(a, k) + WithKey(b, k)
  {
    if a == [] {
      assert a + b == b;
    } else {
      assert (a + b)[1..] == a[1..] + b;
      WithKeyAppend(a[1..], b, k);
    }
  }

  /** No entry has key `k` when every entry's key is larger than `k`. */
  lemma {:induction false} WithKeyAbove(s: seq<Highlight>, k: SortKey)
    requires AllAnchored(s)
    requires forall i :: 0 <= i < |s| ==> KeyLess(k, KeyOf(s[i]))
    ensures WithKey(s, k) == []
  {
    if s != [] {
      WithKeyAbove(s[1..], k);
    }
  }

  /** Inserting in front of a sorted list whose keys are all larger adds `x` behind no entry of its key. */
  lemma {:induction false} InsertFrontStable(x: Highlight, s: seq<Highlight>, k: SortKey)
    requires x.Anchored? && AllAnchored(s) && SortedByKey(s) && s != [] && KeyLess(KeyOf(x), KeyOf(s[0]))
    ensures WithKey([x] + s, k) == WithKey(s, k) + (if KeyOf(x) == k then [x] else [])
  {
    assert ([x] + s)[0] == x && ([x] + s)[1..] == s;
    if KeyOf(x) == k {
      forall i | 0 <= i < |s| ensures KeyLess(k, KeyOf(s[i])) {
        assert i == 0 || !KeyLess(KeyOf(s[i]), KeyOf(s[0]));
      }
      WithKeyAbove(s, k);
    }
  }

  lemma {:induction false} SortedTail(s: seq<Highlight>)
    requires AllAnchored(s) && SortedByKey(s) && s != []
    ensures AllAnchored(s[1..]) && SortedByKey(s[1..])
  {
    forall i, j | 0 <= i < j < |s| - 1 ensures !KeyLess(KeyOf(s[1..][j]), KeyOf(s[1..][i])) {
      assert s[1..][j] == s[j + 1] && s[1..][i] == s[i + 1];
    }
  }

  /** Inserting `x` puts it behind every entry that has its key. */
  lemma {:induction false} InsertStable(x: Highlight, s: seq<Highlight>, k: SortKey)
    requires x.Anchored? && AllAnchored(s) && SortedByKey(s)
    ensures WithKey(InsertByKey(x, s), k) == WithKey(s, k) + (if KeyOf(x) == k then [x] else [])
  {
    if s == [] {
    } else if KeyLess(KeyOf(x), KeyOf(s[0])) {
      InsertFrontStable(x, s, k);
    } else {
      SortedTail(s);
      InsertStable(x, s[1..], k);
      var rest := InsertByKey(x, s[1..]);
      var head := if KeyOf(s[0]) == k then [s[0]] else [];
      var tail := if KeyOf(x) == k then [x] else [];
      assert InsertByKey(x, s) == [s[0]] + rest;
      assert ([s[0]] + rest)[0] == s[0] && ([s[0]] + rest)[1..] == rest;
      assert WithKey([s[0]] + rest, k) == head + WithKey(rest, k);
      assert WithKey(s, k) == head + WithKey(s[1..], k);
      assert head + (WithKey(s[1..], k) + tail) == (head + WithKey(s[1..], k)) + tail;
    }
  }

  /** The entries of a one-entry list with key `k`. */
  lemma {:induction false} WithKeySingleton(x: Highlight, k: SortKey)
    requires x.Anchored?
    ensures WithKey([x], k) == if KeyOf(x) == k then [x] else []
  {
    assert [x][1..] == [];
  }

  /** The reference sort keeps, for every key, the entries with that key in input order. */
  lemma {:induction false} SortByPositionStable(s: seq<Highlight>, k: SortKey)
    requires AllAnchored(s)
    ensures WithKey(SortByPosition(s), k) == WithKey(s, k)
  {
    if s != [] {
      var init, last := s[..|s| - 1], s[|s| - 1];
      assert s == init + [last];
      SortByPositionStable(init, k);
      SortByPositionSorted(init);
      InsertStable(last, SortByPosition(init), k);
      WithKeyAppend(init, [last], k);
      WithKeySingleton(last, k);
    }
  }

  // ---------------------------------------------------------------------------
  // Sorted and stable determine the result

  lemma {:induction false} WithKeyMember(s: seq<Highlight>, k: SortKey, i: nat)
    requires AllAnchored(s) && i < |s| && KeyOf(s[i]) == k
    ensures s[i] in WithKey(s, k)
  {
    if i > 0 {
      WithKeyMember(s[1..], k, i - 1);
    }
  }

  lemma {:induction false} WithKeyKeys(s: seq<Highlight>, k: SortKey, h: Highlight)
    requires AllAnchored(s) && h in WithKey(s, k)
    ensures h in s && h.Anchored? && KeyOf(h) == k
  {
    if s != [] && !(KeyOf(s[0]) == k && h == s[0]) {
      WithKeyKeys(s[1..], k, h);
    }
  }

  /** A non-empty list has an entry with the key of its first entry. */
  lemma {:induction false} NonEmptyHasOwnKey(s: seq<Highlight>)
    requires AllAnchored(s)
    ensures s != [] ==> WithKey(s, KeyOf(s[0])) != []
  {
  }

  /**
   * Two lists in ascending key order that agree, key by key, on which entries carry that key
   * and in which order, are the same list: the stable sort of a list is unique.
   */
  lemma {:induction false} StableSortUnique(a: seq<Highlight>, b: seq<Highlight>)
    requires AllAnchored(a) && AllAnchored(b) && SortedByKey(a) && SortedByKey(b)
    requires forall k :: WithKey(a, k) == WithKey(b, k)
    ensures a == b
  {
    NonEmptyHasOwnKey(a);
    NonEmptyHasOwnKey(b);
    if a == [] || b == [] {
      assert a == [] && b == [];
    } else {
      HeadsAgree(a, b);
      forall k ensures WithKey(a[1..], k) == WithKey(b[1..], k) {
        TailsAgree(a, b, k);
      }
      SortedTail(a);
      SortedTail(b);
      StableSortUnique(a[1..], b[1..]);
      assert a == [a[0]] + a[1..] && b == [b[0]] + b[1..];
    }
  }

  /** Two sorted lists with the same entries per key start with the same entry. */
  lemma {:induction false} HeadsAgree(a: seq<Highlight>, b: seq<Highlight>)
    requires AllAnchored(a) && AllAnchored(b) && SortedByKey(a) && SortedByKey(b) && a != [] && b != []
    requires forall k :: WithKey(a, k) == WithKey(b, k)
    ensures a[0] == b[0]
  {
    var ka, kb := KeyOf(a[0]), KeyOf(b[0]);
    WithKeyMember(a, ka, 0);
    WithKeyKeys(b, ka, a[0]);
    WithKeyMember(b, kb, 0);
    WithKeyKeys(a, kb, b[0]);
    assert ka == kb by {
      var i :| 0 <= i < |b| && b[i] == a[0];
      var j :| 0 <= j < |a| && a[j] == b[0];
      assert !KeyLess(ka, kb) by { assert i == 0 || !KeyLess(KeyOf(b[i]), KeyOf(b[0])); }
      assert !KeyLess(kb, ka) by { assert j == 0 || !KeyLess(KeyOf(a[j]), KeyOf(a[0])); }
    }
    assert WithKey(a, ka) == [a[0]] + WithKey(a[1..], ka);
    assert WithKey(b, ka) == [b[0]] + WithKey(b[1..], ka);
    assert a[0] == WithKey(a, ka)[0] == WithKey(b, ka)[0] == b[0];
  }

  /** With equal heads, equal entries per key leave equal entries per key in the tails. */
  lemma {:induction false} TailsAgree(a: seq<Highlight>, b: seq<Highlight>, k: SortKey)
    requires AllAnchored(a) && AllAnchored(b) && a != [] && b != [] && a[0] == b[0]
    requires WithKey(a, k) == WithKey(b, k)
    ensures WithKey(a[1..], k) == WithKey(b[1..], k)
  {
    var p := if KeyOf(a[0]) == k then [a[0]] else [];
    assert WithKey(a, k) == p + WithKey(a[1..], k);
    assert WithKey(b, k) == p + WithKey(b[1..], k);
    assert (p + WithKey(a[1..], k))[|p|..] == WithKey(a[1..], k);
    assert (p + WithKey(b[1..], k))[|p|..] == WithKey(b[1..], k);
  }

  // ---------------------------------------------------------------------------
  // sortHighlights

  /** Ascending order of the anchored highlights laid out behind general notes. */
  predicate GeneralsFirst(r: seq<Highlight>) {
    forall i, j :: 0 <= i < j < |r| && r[j].General? ==> r[i].General?
  }

  /**
   * What `sortHighlights` promises: a permutation of its input whose general notes come
   * first in their input order, followed by the anchored highlights in ascending
   * (page, y1) order, entries with equal keys in their input order.
   */
  lemma {:induction false} SortedHighlightsSpec(s: seq<Highlight>)
    ensures multiset(SortedHighlights(s)) == multiset(s)
    ensures GeneralsFirst(SortedHighlights(s))
    ensures Generals(SortedHighlights(s)) == Generals(s)
    ensures Anchoreds(SortedHighlights(s)) == SortByPosition(Anchoreds(s))
    ensures SortedByKey(Anchoreds(SortedHighlights(s)))
    ensures forall k :: WithKey(Anchoreds(SortedHighlights(s)), k) == WithKey(Anchoreds(s), k)
  {
    var g, a := Generals(s), SortByPosition(Anchoreds(s));
    PartitionMultiset(s);
    GeneralsAppend(g, a);
    AnchoredsAppend(g, a);
    FiltersOfGenerals(g);
    FiltersOfAnchoreds(a);
    SortByPositionSorted(Anchoreds(s));
    forall k ensures WithKey(a, k) == WithKey(Anchoreds(s), k) {
      SortByPositionStable(Anchoreds(s), k);
    }
  }

  /**
   * The specified order determines the result: any list that puts
   * general notes first in input order and sorts the anchored ones stably is `SortedHighlights`.
   */
  lemma {:induction false} SortedHighlightsUnique(s: seq<Highlight>, r: seq<Highlight>)
    requires GeneralsFirst(r) && Generals(r) == Generals(s)
    requires SortedByKey(Anchoreds(r))
    requires forall k :: WithKey(Anchoreds(r), k) == WithKey(Anchoreds(s), k)
    ensures r == SortedHighlights(s)
  {
    var n := |Generals(r)|;
    SplitGeneralsFirst(r);
    var g, a := r[..n], r[n..];
    SplitFilters(r, n);
    assert Generals(r) == g && Anchoreds(r) == a;
    SortedAnchoredsUnique(s, a);
    assert r == g + a;
  }

  /** Cutting a list behind its general notes gives its two filters. */
  lemma {:induction false} SplitFilters(r: seq<Highlight>, n: nat)
    requires n <= |r|
    requires forall i :: 0 <= i < n ==> r[i].General?
    requires AllAnchored(r[n..])
    ensures Generals(r) == r[..n] && Anchoreds(r) == r[n..]
  {
    var g, a := r[..n], r[n..];
    assert r == g + a;
    GeneralsAppend(g, a);
    AnchoredsAppend(g, a);
    FiltersOfGenerals(g);
    FiltersOfAnchoreds(a);
  }

  /** A sorted list that is key by key the anchored part of `s` is the sorted anchored part. */
  lemma {:induction false} SortedAnchoredsUnique(s: seq<Highlight>, a: seq<Highlight>)
    requires AllAnchored(a) && SortedByKey(a)
    requires forall k :: WithKey(a, k) == WithKey(Anchoreds(s), k)
    ensures a == SortByPosition(Anchoreds(s))
  {
    var t := SortByPosition(Anchoreds(s));
    SortByPositionSorted(Anchoreds(s));
    forall k ensures WithKey(a, k) == WithKey(t, k) {
      SortByPositionStable(Anchoreds(s), k);
    }
    StableSortUnique(a, t);
  }

  /** A list with its general notes first splits into those notes and the anchored rest. */
  lemma {:induction false} SplitGeneralsFirst(r: seq<Highlight>)
    requires GeneralsFirst(r)
    ensures |Generals(r)| <= |r|
    ensures forall i :: 0 <= i < |Generals(r)| ==> r[i].General?
    ensures AllAnchored(r[|Generals(r)|..])
  {
    if r != [] {
      assert GeneralsFirst(r[1..]);
      SplitGeneralsFirst(r[1..]);
      if r[0].Anchored? {
        assert AllAnchored(r) by {
          forall j | 0 < j < |r| ensures r[j].Anchored? {
          }
        }
        FiltersOfAnchoreds(r);
      }
    }
  }

  /**
   * `sortHighlights` (src/stores/paper.ts): one pass that pushes each entry onto the
   * general list or the anchored list, then the stable sort of the anchored list.
   */
  method SortHighlights(highlights: seq<Highlight>) returns (r: seq<Highlight>)
    ensures r == SortedHighlights(highlights)
    ensures multiset(r) == multiset(highlights)
    ensures GeneralsFirst(r) && Generals(r) == Generals(highlights)
    ensures SortedByKey(Anchoreds(r))
    ensures forall k :: WithKey(Anchoreds(r), k) == WithKey(Anchoreds(highlights), k)
  {
    var general: seq<Highlight> := [];
    var rest: seq<Highlight> := [];
    for i := 0 to |highlights|
      invariant general == Generals(highlights[..i])
      invariant rest == Anchoreds(highlights[..i])
    {
      var h := highlights[i];
      assert highlights[..i + 1] == highlights[..i] + [h];
      GeneralsAppend(highlights[..i], [h]);
      AnchoredsAppend(highlights[..i], [h]);
      if IsGeneralHighlight(h) {
        general := general + [h];
      } else {
        rest := rest + [h];
      }
    }
    assert highlights[..|highlights|] == highlights;
    rest := SortByPosition(rest);
    r := general + rest;
    SortedHighlightsSpec(highlights);
  }
}
