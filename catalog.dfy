/**
 * The catalog-change test of the connection edit form: keep the selected
 * streams, sort them by stream name (a missing name counts as ""), and compare
 * the edited list with the saved one structurally.
 */
module Catalog {
  import opened Wrappers

  /**
   * One entry of a sync catalog. `name` is `stream?.name`, `selected` is
   * `config?.selected` (false when the config is absent) and `payload` stands
   * for everything else the entry holds.
   */
  datatype SyncStream<P> = SyncStream(name: Option<string>, selected: bool, payload: P)

  /** The sort key: `syncStream.stream?.name ?? ""`. */
  function Key<P>(s: SyncStream<P>): string {
    s.name.GetOr("")
  }

  /** The order `naturalComparatorBy` induces on names is a total preorder. */
  ghost predicate TotalPreorder(le: (string, string) -> bool) {
    && (forall a, b :: le(a, b) || le(b, a))
    && (forall a, b, c :: le(a, b) && le(b, c) ==> le(a, c))
  }

  /** `streams.filter((s) => s.config?.selected)`. */
  function Selected<P>(s: seq<SyncStream<P>>): (r: seq<SyncStream<P>>)
    ensures forall i :: 0 <= i < |r| ==> r[i].selected && r[i] in s
    ensures forall i :: 0 <= i < |s| && s[i].selected ==> s[i] in r
    ensures |r| <= |s|
  {
    if s == [] then []
    else
      assert s == [s[0]] + s[1..];
      if s[0].selected then [s[0]] + Selected(s[1..])
      else Selected(s[1..])
  }

  /** Sorted by key: every earlier entry's key is at most every later one's. */
  ghost predicate SortedByKey<P>(le: (string, string) -> bool, s: seq<SyncStream<P>>) {
    forall i, j :: 0 <= i < j < |s| ==> le(Key(s[i]), Key(s[j]))
  }

  /** Insert `x` before the first entry whose key is not below it. */
  function Insert<P>(le: (string, string) -> bool, x: SyncStream<P>, s: seq<SyncStream<P>>): (r: seq<SyncStream<P>>)
    ensures multiset(r) == multiset(s) + multiset{x}
    ensures |r| == |s| + 1
  {
    if s == [] || le(Key(x), Key(s[0])) then [x] + s
    else
      assert s == [s[0]] + s[1..];
      [s[0]] + Insert(le, x, s[1..])
  }

  /**
   * The stable sort `Array.prototype.sort` performs with the comparator
   * `naturalComparatorBy(Key)`: entries with equivalent keys keep their order.
   */
  function SortByName<P>(le: (string, string) -> bool, s: seq<SyncStream<P>>): (r: seq<SyncStream<P>>)
    ensures multiset(r) == multiset(s)
  {
    if s == [] then []
    else
      assert s == [s[0]] + s[1..];
      Insert(le, s[0], SortByName(le, s[1..]))
  }

  /** `hasCatalogChanged` in `onFormSubmit`. */
  function HasCatalogChanged<P(==)>(le: (string, string) -> bool, edited: seq<SyncStream<P>>, saved: seq<SyncStream<P>>): bool
  {
    SortByName(le, Selected(edited)) != SortByName(le, Selected(saved))
  }

  /**
   * For any comparator: identical selected streams are never a change, and
   * selected streams that differ as a multiset always are.
   */
  lemma ChangeBounds<P>(le: (string, string) -> bool, edited: seq<SyncStream<P>>, saved: seq<SyncStream<P>>)
    ensures Selected(edited) == Selected(saved) ==> !HasCatalogChanged(le, edited, saved)
    ensures multiset(Selected(edited)) != multiset(Selected(saved)) ==> HasCatalogChanged(le, edited, saved)
  {
    var a, b := SortByName(le, Selected(edited)), SortByName(le, Selected(saved));
    assert multiset(a) == multiset(Selected(edited)) && multiset(b) == multiset(Selected(saved));
  }

  // ---------------------------------------------------------------------------
  // Lemmas about the sort
  // ---------------------------------------------------------------------------

  lemma {:induction false} InsertSorted<P>(le: (string, string) -> bool, x: SyncStream<P>, s: seq<SyncStream<P>>)
    requires TotalPreorder(le)
    requires SortedByKey(le, s)
    ensures SortedByKey(le, Insert(le, x, s))
    decreases |s|
  {
    if s == [] || le(Key(x), Key(s[0])) {
      var r := [x] + s;
      forall i, j | 0 <= i < j < |r| ensures le(Key(r[i]), Key(r[j])) {
        if i == 0 && j > 1 {
          assert le(Key(x), Key(s[0])) && le(Key(s[0]), Key(s[j - 1]));
        }
      }
    } else {
      InsertSorted(le, x, s[1..]);
      var t := Insert(le, x, s[1..]);
      var r := [s[0]] + t;
      forall j | 0 <= j < |s[1..]| ensures le(Key(s[0]), Key(s[1..][j])) {
        assert s[1..][j] == s[j + 1];
      }
      LowerBoundInsert(le, Key(s[0]), x, s[1..]);
      forall i, j | 0 <= i < j < |r| ensures le(Key(r[i]), Key(r[j])) {
        if i > 0 {
          assert r[i] == t[i - 1] && r[j] == t[j - 1];
        } else {
          assert r[j] == t[j - 1];
        }
      }
    }
  }

  /** A lower bound of `x` and of every entry of `s` bounds every entry of the insertion. */
  lemma LowerBoundInsert<P>(le: (string, string) -> bool, k: string, x: SyncStream<P>, s: seq<SyncStream<P>>)
    requires le(k, Key(x))
    requires forall j :: 0 <= j < |s| ==> le(k, Key(s[j]))
    ensures forall j :: 0 <= j < |Insert(le, x, s)| ==> le(k, Key(Insert(le, x, s)[j]))
  {
    var t := Insert(le, x, s);
    forall j | 0 <= j < |t| ensures le(k, Key(t[j])) {
      assert t[j] in multiset(t);
      if t[j] != x {
        assert t[j] in multiset(s);
        var m :| 0 <= m < |s| && s[m] == t[j];
      }
    }
  }

  /** The result of `SortByName` is sorted by key. */
  lemma {:induction false} SortByNameSorted<P>(le: (string, string) -> bool, s: seq<SyncStream<P>>)
    requires TotalPreorder(le)
    ensures SortedByKey(le, SortByName(le, s))
  {
    if s != [] {
      SortByNameSorted(le, s[1..]);
      InsertSorted(le, s[0], SortByName(le, s[1..]));
    }
  }

  /** Two names the comparator ranks equal. */
  ghost predicate Equivalent(le: (string, string) -> bool, m: string, n: string) {
    le(m, n) && le(n, m)
  }

  /** `[e]` when the key of `e` is equivalent to `k`, else nothing. */
  ghost function IfEquivalent<P>(le: (string, string) -> bool, k: string, e: SyncStream<P>): seq<SyncStream<P>> {
    if Equivalent(le, Key(e), k) then [e] else []
  }

  /** The entries of `s` whose key is equivalent to `k`, in their order in `s`. */
  ghost function KeyClass<P>(le: (string, string) -> bool, k: string, s: seq<SyncStream<P>>): seq<SyncStream<P>> {
    if s == [] then [] else IfEquivalent(le, k, s[0]) + KeyClass(le, k, s[1..])
  }

  /**
   * Insertion goes before every entry with an equivalent key, so the inserted
   * entry comes first among its equivalents.
   */
  lemma {:induction false} InsertKeyClass<P>(le: (string, string) -> bool, k: string, x: SyncStream<P>, t: seq<SyncStream<P>>)
    requires TotalPreorder(le)
    ensures KeyClass(le, k, Insert(le, x, t)) == IfEquivalent(le, k, x) + KeyClass(le, k, t)
    decreases |t|
  {
    var r := Insert(le, x, t);
    if t == [] || le(Key(x), Key(t[0])) {
      assert r == [x] + t && r[0] == x && r[1..] == t;
    } else {
      var rest := Insert(le, x, t[1..]);
      assert r == [t[0]] + rest && r[0] == t[0] && r[1..] == rest;
      InsertKeyClass(le, k, x, t[1..]);
      assert KeyClass(le, k, r) == IfEquivalent(le, k, t[0]) + (IfEquivalent(le, k, x) + KeyClass(le, k, t[1..]));
      if Equivalent(le, Key(x), k) {
        assert IfEquivalent(le, k, t[0]) == [];
      } else {
        assert IfEquivalent(le, k, x) == [];
      }
    }
  }

  /**
   * The sort is stable: entries with equivalent keys keep their input order.
   */
  lemma {:induction false} SortByNameStable<P>(le: (string, string) -> bool, k: string, s: seq<SyncStream<P>>)
    requires TotalPreorder(le)
    ensures KeyClass(le, k, SortByName(le, s)) == KeyClass(le, k, s)
  {
    if s != [] {
      SortByNameStable(le, k, s[1..]);
      InsertKeyClass(le, k, s[0], SortByName(le, s[1..]));
    }
  }

  /** No two different entries of `s` have equivalent keys. */
  ghost predicate DistinctKeys<P>(le: (string, string) -> bool, s: seq<SyncStream<P>>) {
    forall x, y :: x in s && y in s && le(Key(x), Key(y)) && le(Key(y), Key(x)) ==> x == y
  }

  lemma SortedHeadIsLeast<P>(le: (string, string) -> bool, s: seq<SyncStream<P>>, x: SyncStream<P>)
    requires TotalPreorder(le) && SortedByKey(le, s) && x in s
    ensures le(Key(s[0]), Key(x))
  {
    var i :| 0 <= i < |s| && s[i] == x;
    if i > 0 {
      assert le(Key(s[0]), Key(s[i]));
    }
  }

  lemma MultisetTail<P>(a: seq<SyncStream<P>>, b: seq<SyncStream<P>>)
    requires a != [] && b != [] && a[0] == b[0] && multiset(a) == multiset(b)
    ensures multiset(a[1..]) == multiset(b[1..])
  {
    assert a == [a[0]] + a[1..] && b == [b[0]] + b[1..];
    assert multiset(a) == multiset{a[0]} + multiset(a[1..]);
    assert multiset(b) == multiset{a[0]} + multiset(b[1..]);
    forall x ensures multiset(a[1..])[x] == multiset(b[1..])[x] {
      assert multiset(a)[x] == multiset(b)[x];
    }
  }

  /** Two sorted lists with the same entries and distinct keys are equal. */
  lemma {:induction false} SortedUnique<P>(le: (string, string) -> bool, a: seq<SyncStream<P>>, b: seq<SyncStream<P>>)
    requires TotalPreorder(le)
    requires SortedByKey(le, a) && SortedByKey(le, b)
    requires multiset(a) == multiset(b)
    requires DistinctKeys(le, a)
    ensures a == b
    decreases |a|
  {
    if a != [] {
      assert |b| == |a| by { assert |multiset(a)| == |multiset(b)|; }
      assert a[0] in multiset(b) && b[0] in multiset(a);
      SortedHeadIsLeast(le, b, a[0]);
      SortedHeadIsLeast(le, a, b[0]);
      assert a[0] == b[0];
      MultisetTail(a, b);
      assert SortedByKey(le, a[1..]) && SortedByKey(le, b[1..]);
      assert DistinctKeys(le, a[1..]) by {
        forall x | x in a[1..] ensures x in a { }
      }
      SortedUnique(le, a[1..], b[1..]);
      assert a == [a[0]] + a[1..] && b == [b[0]] + b[1..];
    }
  }

  // ---------------------------------------------------------------------------
  // What counts as a catalog change
  // ---------------------------------------------------------------------------

  lemma {:induction false} SelectedAppend<P>(a: seq<SyncStream<P>>, b: seq<SyncStream<P>>)
    ensures Selected(a + b) == Selected(a) + Selected(b)
    decreases |a|
  {
    if a == [] {
      assert a + b == b;
    } else {
      assert (a + b)[0] == a[0];
      assert (a + b)[1..] == a[1..] + b;
      SelectedAppend(a[1..], b);
    }
  }

  /** Filtering ignores an unselected stream wherever it stands. */
  lemma SelectedSkipsUnselected<P>(a: seq<SyncStream<P>>, x: SyncStream<P>, b: seq<SyncStream<P>>)
    requires !x.selected
    ensures Selected(a + [x] + b) == Selected(a + b)
  {
    SelectedAppend(a + [x], b);
    SelectedAppend(a, [x]);
    assert [x][1..] == [];
    SelectedAppend(a, b);
  }

  /** Filtering keeps a selected stream, in its place between the kept streams around it. */
  lemma SelectedKeepsSelected<P>(a: seq<SyncStream<P>>, x: SyncStream<P>, b: seq<SyncStream<P>>)
    requires x.selected
    ensures Selected(a + [x] + b) == Selected(a) + [x] + Selected(b)
  {
    assert Selected([x]) == [x] by {
      assert [x][1..] == [];
    }
    calc {
      Selected(a + [x] + b);
      { SelectedAppend(a + [x], b); }
      Selected(a + [x]) + Selected(b);
      { SelectedAppend(a, [x]); }
      Selected(a) + [x] + Selected(b);
    }
  }

  /** Inserting an unselected stream anywhere in the edited list is no change. */
  lemma AddingUnselectedIsNoChange<P>(le: (string, string) -> bool, edited: seq<SyncStream<P>>,
                                      saved: seq<SyncStream<P>>, i: nat, x: SyncStream<P>)
    requires i <= |edited| && !x.selected
    ensures HasCatalogChanged(le, edited[..i] + [x] + edited[i..], saved) == HasCatalogChanged(le, edited, saved)
  {
    SelectedSkipsUnselected(edited[..i], x, edited[i..]);
    assert edited[..i] + edited[i..] == edited;
  }

  /** Removing an unselected stream from the edited list is no change. */
  lemma RemovingUnselectedIsNoChange<P>(le: (string, string) -> bool, edited: seq<SyncStream<P>>,
                                        saved: seq<SyncStream<P>>, i: nat)
    requires i < |edited| && !edited[i].selected
    ensures HasCatalogChanged(le, edited[..i] + edited[i + 1..], saved) == HasCatalogChanged(le, edited, saved)
  {
    SelectedSkipsUnselected(edited[..i], edited[i], edited[i + 1..]);
    assert edited[..i] + [edited[i]] + edited[i + 1..] == edited;
  }

  /** Editing a stream that is unselected before and after is no change. */
  lemma EditingUnselectedIsNoChange<P>(le: (string, string) -> bool, edited: seq<SyncStream<P>>,
                                       saved: seq<SyncStream<P>>, i: nat, x: SyncStream<P>)
    requires i < |edited| && !edited[i].selected && !x.selected
    ensures HasCatalogChanged(le, edited[i := x], saved) == HasCatalogChanged(le, edited, saved)
  {
    SelectedSkipsUnselected(edited[..i], edited[i], edited[i + 1..]);
    SelectedSkipsUnselected(edited[..i], x, edited[i + 1..]);
    assert edited[..i] + [edited[i]] + edited[i + 1..] == edited;
    assert edited[..i] + [x] + edited[i + 1..] == edited[i := x];
  }

  /**
   * When no two edited selected streams have names the comparator ranks
   * equal, the catalog has changed exactly when the selected streams differ
   * as a multiset: order alone never counts, and any added, removed or edited
   * selected stream does (`Selected` keeps every selected stream).
   */
  lemma ChangedIffSelectedDiffer<P>(le: (string, string) -> bool, edited: seq<SyncStream<P>>, saved: seq<SyncStream<P>>)
    requires TotalPreorder(le)
    requires DistinctKeys(le, Selected(edited))
    ensures HasCatalogChanged(le, edited, saved) <==> multiset(Selected(edited)) != multiset(Selected(saved))
  {
    var a, b := SortByName(le, Selected(edited)), SortByName(le, Selected(saved));
    if multiset(Selected(edited)) == multiset(Selected(saved)) {
      SortByNameSorted(le, Selected(edited));
      SortByNameSorted(le, Selected(saved));
      assert DistinctKeys(le, a) by {
        forall x | x in a ensures x in Selected(edited) {
          assert x in multiset(a);
        }
      }
      SortedUnique(le, a, b);
    }
  }

  /**
   * Without distinct names, order does matter: two selected streams that share
   * the name "users" (in two namespaces, say) swapped in the edited list count
   * as a change, because the stable sort keeps their relative order.
   */
  lemma SameNameReorderCountsAsChange(le: (string, string) -> bool)
    ensures var a := SyncStream(Some("users"), true, 1);
            var b := SyncStream(Some("users"), true, 2);
            le("users", "users") ==> HasCatalogChanged(le, [a, b], [b, a])
  {
    var a := SyncStream(Some("users"), true, 1);
    var b := SyncStream(Some("users"), true, 2);
    if le("users", "users") {
      assert Selected([a, b]) == [a, b] by {
        assert [a, b][1..] == [b] && [b][1..] == [];
      }
      assert Selected([b, a]) == [b, a] by {
        assert [b, a][1..] == [a] && [a][1..] == [];
      }
      assert SortByName(le, [a]) == [a] && SortByName(le, [b]) == [b] by {
        assert [a][1..] == [] && [b][1..] == [];
      }
      assert SortByName(le, [a, b]) == Insert(le, a, [b]) == [a, b] by {
        assert [a, b][1..] == [b];
      }
      assert SortByName(le, [b, a]) == Insert(le, b, [a]) == [b, a] by {
        assert [b, a][1..] == [a];
      }
      assert [a, b][0] != [b, a][0];
    }
  }
}
