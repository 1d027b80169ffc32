/**
 * Cross-page selection bookkeeping of the artwork table. The selection is a
 * sequence of row ids that outlives page changes; the table only ever sees the
 * part of it that belongs to the rows currently loaded.
 */
module Selection {

  /** No id occurs twice. */
  predicate NoDup(s: seq<int>)
  {
    forall i, j :: 0 <= i < j < |s| ==> s[i] != s[j]
  }

  /** Every element of s occurs in t. */
  predicate SubsetOf(s: seq<int>, t: seq<int>)
  {
    forall x :: x in s ==> x in t
  }

  /** s and t share no element. */
  predicate Disjoint(s: seq<int>, t: seq<int>)
  {
    forall x :: x in s ==> x !in t
  }

  /** The elements of s that do not occur in `drop`, in their order in s
      (`filter(id => !drop.includes(id))`). */
  function Remove(s: seq<int>, drop: seq<int>): (r: seq<int>)
    ensures forall x :: x in r <==> x in s && x !in drop
    ensures |r| <= |s|
  {
    if s == [] then []
    else if s[0] in drop then Remove(s[1..], drop)
    else [s[0]] + Remove(s[1..], drop)
  }

  /** The elements of s that occur in `keep`, in their order in s
      (`filter(x => keep.includes(x))`). */
  function Retain(s: seq<int>, keep: seq<int>): (r: seq<int>)
    ensures forall x :: x in r <==> x in s && x in keep
    ensures |r| <= |s|
  {
    if s == [] then []
    else if s[0] in keep then [s[0]] + Retain(s[1..], keep)
    else Retain(s[1..], keep)
  }

  /**
   * The stored selection after the table reports `newIds` as the selection of
   * the page showing `pageIds`: every id of that page is dropped, the others
   * keep their order, and the page's new selection is appended.
   */
  function Reconcile(selected: seq<int>, pageIds: seq<int>, newIds: seq<int>): (r: seq<int>)
    ensures forall x :: x in r <==> (x in selected && x !in pageIds) || x in newIds
    ensures |newIds| <= |r| && r[|r| - |newIds|..] == newIds
  {
    Remove(selected, pageIds) + newIds
  }

  /**
   * Order-preserving de-duplication: each value kept at its first occurrence,
   * as `Array.from(new Set(s))` does.
   */
  function Dedup(s: seq<int>): (r: seq<int>)
    ensures NoDup(r)
    ensures forall x :: x in r <==> x in s
    ensures |r| <= |s|
  {
    if s == [] then []
    else
      var init := Dedup(s[..|s| - 1]);
      if s[|s| - 1] in init then init else init + [s[|s| - 1]]
  }

  /** Filtering distributes over concatenation, so it keeps relative order. */
  lemma {:induction false} RemoveAppend(a: seq<int>, b: seq<int>, drop: seq<int>)
    ensures Remove(a + b, drop) == Remove(a, drop) + Remove(b, drop)
  {
    if a != [] {
      assert (a + b)[0] == a[0] && (a + b)[1..] == a[1..] + b;
      RemoveAppend(a[1..], b, drop);
    } else {
      assert a + b == b;
    }
  }

  lemma {:induction false} RetainAppend(a: seq<int>, b: seq<int>, keep: seq<int>)
    ensures Retain(a + b, keep) == Retain(a, keep) + Retain(b, keep)
  {
    if a != [] {
      assert (a + b)[0] == a[0] && (a + b)[1..] == a[1..] + b;
      RetainAppend(a[1..], b, keep);
    } else {
      assert a + b == b;
    }
  }

  /** Removing values that do not occur changes nothing. */
  lemma {:induction false} RemoveNothing(s: seq<int>, drop: seq<int>)
    requires Disjoint(s, drop)
    ensures Remove(s, drop) == s
  {
    if s != [] {
      var head := s[0];
      assert head in s;
      RemoveNothing(s[1..], drop);
      assert s == [s[0]] + s[1..];
    }
  }

  /** Retain only looks at which of its elements the `keep` list contains. */
  lemma {:induction false} RetainCongruent(s: seq<int>, k1: seq<int>, k2: seq<int>)
    requires forall x :: x in s ==> (x in k1 <==> x in k2)
    ensures Retain(s, k1) == Retain(s, k2)
  {
    if s != [] {
      var head := s[0];
      assert head in s;
      RetainCongruent(s[1..], k1, k2);
    }
  }

  /** Removing the values of one page does not affect which values of a disjoint page are retained. */
  lemma {:induction false} RetainAfterRemove(s: seq<int>, drop: seq<int>, keep: seq<int>)
    requires Disjoint(keep, drop)
    ensures Retain(Remove(s, drop), keep) == Retain(s, keep)
  {
    if s != [] {
      RetainAfterRemove(s[1..], drop, keep);
      var head := s[0];
      if head in drop {
        assert head !in keep;
      } else {
        assert Remove(s, drop) == [s[0]] + Remove(s[1..], drop);
      }
    }
  }

  lemma {:induction false} RemoveKeepsNoDup(s: seq<int>, drop: seq<int>)
    requires NoDup(s)
    ensures NoDup(Remove(s, drop))
  {
    if s != [] {
      assert NoDup(s[1..]) by {
        forall i, j | 0 <= i < j < |s| - 1 ensures s[1..][i] != s[1..][j] {
          assert s[1..][i] == s[i + 1] && s[1..][j] == s[j + 1];
        }
      }
      RemoveKeepsNoDup(s[1..], drop);
    }
  }

  /** Removing every value of s leaves nothing. */
  lemma {:induction false} RemoveAll(s: seq<int>, drop: seq<int>)
    requires SubsetOf(s, drop)
    ensures Remove(s, drop) == []
  {
    if s != [] {
      var head := s[0];
      assert head in s;
      RemoveAll(s[1..], drop);
    }
  }

  /** Retaining values none of which occur leaves nothing. */
  lemma {:induction false} RetainNone(s: seq<int>, keep: seq<int>)
    requires Disjoint(s, keep)
    ensures Retain(s, keep) == []
  {
    if s != [] {
      var head := s[0];
      assert head in s;
      RetainNone(s[1..], keep);
    }
  }

  /** Concatenating two duplicate-free, disjoint sequences keeps them duplicate-free. */
  lemma AppendNoDup(a: seq<int>, b: seq<int>)
    requires NoDup(a) && NoDup(b) && Disjoint(a, b)
    ensures NoDup(a + b)
  {
    forall i, j | 0 <= i < j < |a + b| ensures (a + b)[i] != (a + b)[j] {
      if j >= |a| && i < |a| {
        assert (a + b)[i] in a && (a + b)[j] == b[j - |a|];
      }
    }
  }

  /**
   * Reconciling a page keeps, in their original relative order, exactly the
   * selected ids that do not belong to that page.
   */
  lemma {:induction false} ReconcileKeepsOtherIds(selected: seq<int>, pageIds: seq<int>, newIds: seq<int>)
    requires SubsetOf(newIds, pageIds)
    ensures Remove(Reconcile(selected, pageIds, newIds), pageIds) == Remove(selected, pageIds)
  {
    var others := Remove(selected, pageIds);
    RemoveAppend(others, newIds, pageIds);
    RemoveNothing(others, pageIds);
    RemoveAll(newIds, pageIds);
  }

  /** The selection of any page disjoint from the reconciled one is untouched, order included. */
  lemma {:induction false} ReconcileKeepsOtherPage(selected: seq<int>, pageIds: seq<int>, newIds: seq<int>, otherPage: seq<int>)
    requires SubsetOf(newIds, pageIds) && Disjoint(otherPage, pageIds)
    ensures Retain(Reconcile(selected, pageIds, newIds), otherPage) == Retain(selected, otherPage)
  {
    var others := Remove(selected, pageIds);
    RetainAppend(others, newIds, otherPage);
    RetainNone(newIds, otherPage);
    RetainAfterRemove(selected, pageIds, otherPage);
  }

  /**
   * After reconciling, the page's view of the selection is the new selection,
   * taken in page order.
   */
  lemma {:induction false} ReconcileView(selected: seq<int>, pageIds: seq<int>, newIds: seq<int>)
    requires SubsetOf(newIds, pageIds)
    ensures Retain(pageIds, Reconcile(selected, pageIds, newIds)) == Retain(pageIds, newIds)
  {
    RetainCongruent(pageIds, Reconcile(selected, pageIds, newIds), newIds);
  }

  /** Taking a page's view of a page's view changes nothing. */
  lemma {:induction false} RetainIdempotent(pageIds: seq<int>, picked: seq<int>)
    ensures Retain(pageIds, Retain(pageIds, picked)) == Retain(pageIds, picked)
  {
    RetainCongruent(pageIds, Retain(pageIds, picked), picked);
  }

  /**
   * Reporting the page's current view back as the page's new selection
   * leaves that view as it was.
   */
  lemma {:induction false} ReportViewBack(selected: seq<int>, pageIds: seq<int>)
    ensures Retain(pageIds, Reconcile(selected, pageIds, Retain(pageIds, selected))) == Retain(pageIds, selected)
  {
    ReconcileView(selected, pageIds, Retain(pageIds, selected));
    RetainIdempotent(pageIds, selected);
  }

  /** Reconciling with a duplicate-free page-local selection keeps the store duplicate-free. */
  lemma {:induction false} ReconcileNoDup(selected: seq<int>, pageIds: seq<int>, newIds: seq<int>)
    requires NoDup(selected) && NoDup(newIds) && SubsetOf(newIds, pageIds)
    ensures NoDup(Reconcile(selected, pageIds, newIds))
  {
    RemoveKeepsNoDup(selected, pageIds);
    AppendNoDup(Remove(selected, pageIds), newIds);
  }

  /** A duplicate-free sequence is its own de-duplication. */
  lemma {:induction false} DedupOfNoDup(s: seq<int>)
    requires NoDup(s)
    ensures Dedup(s) == s
  {
    if s != [] {
      var init := s[..|s| - 1];
      assert NoDup(init);
      DedupOfNoDup(init);
      assert s[|s| - 1] !in init;
      assert init + [s[|s| - 1]] == s;
    }
  }

  /**
   * De-duplicating a concatenation keeps the de-duplicated first part as a
   * prefix and appends the first occurrences from the second part that the
   * first part lacks, in their order.
   */
  lemma {:induction false} DedupAppend(a: seq<int>, b: seq<int>)
    ensures Dedup(a + b) == Dedup(a) + Remove(Dedup(b), a)
  {
    if b == [] {
      assert a + b == a;
    } else {
      var b0, x := b[..|b| - 1], b[|b| - 1];
      assert (a + b)[..|a + b| - 1] == a + b0;
      assert (a + b)[|a + b| - 1] == x;
      DedupAppend(a, b0);
      if x in Dedup(b0) {
        assert x in a + b0;
      } else {
        RemoveAppend(Dedup(b0), [x], a);
        if x in a {
          assert x in Dedup(a + b0);
        } else {
          assert x !in Dedup(a + b0);
        }
      }
    }
  }

  /**
   * The "first N" merge: with a duplicate-free selection and duplicate-free
   * page ids, the old selection survives in order as a prefix and the first N
   * page ids that were not yet selected follow in page order.
   */
  lemma {:induction false} MergeKeepsOldThenAppends(selected: seq<int>, firstIds: seq<int>)
    requires NoDup(selected) && NoDup(firstIds)
    ensures Dedup(selected + firstIds) == selected + Remove(firstIds, selected)
    ensures NoDup(Dedup(selected + firstIds))
    ensures forall x :: x in Dedup(selected + firstIds) <==> x in selected || x in firstIds
  {
    DedupAppend(selected, firstIds);
    DedupOfNoDup(selected);
    DedupOfNoDup(firstIds);
  }
}
