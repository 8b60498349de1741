/** Rows keyed by (due time, event id), and the library sort and merge that the
    oracle, the pipeline and the evidence readers share. Sorting is the simple
    definition that every streaming form is proved against. */
module Ordering {

  /** A row keyed by its due time and its event id. The digest that serves as
      event id is compared as a number: digests have one length, so this is the
      order of their texts. */
  datatype Item<+T> = Item(due: int, id: nat, body: T)

  predicate KeyLess<T>(a: Item<T>, b: Item<T>) {
    a.due < b.due || (a.due == b.due && a.id < b.id)
  }

  predicate KeyAtMost<T>(a: Item<T>, b: Item<T>) {
    !KeyLess(b, a)
  }

  ghost predicate Sorted<T>(s: seq<Item<T>>) {
    forall i, j :: 0 <= i < j < |s| ==> KeyAtMost(s[i], s[j])
  }

  ghost predicate StrictlySorted<T>(s: seq<Item<T>>) {
    forall i, j :: 0 <= i < j < |s| ==> KeyLess(s[i], s[j])
  }

  /** No two members share an event id, and no member occurs twice. */
  ghost predicate Distinct<T(!new)>(m: multiset<Item<T>>) {
    && (forall x :: x in m ==> m[x] == 1)
    && (forall x, y :: x in m && y in m && x.id == y.id ==> x == y)
  }

  /** The two-way step of a stable merge: on equal keys the first input goes first. */
  function Merge<T>(a: seq<Item<T>>, b: seq<Item<T>>): seq<Item<T>>
    decreases |a| + |b|
  {
    if a == [] then b
    else if b == [] then a
    else if KeyAtMost(a[0], b[0]) then [a[0]] + Merge(a[1..], b)
    else [b[0]] + Merge(a, b[1..])
  }

  /** heapq.merge of any number of inputs. */
  function MergeAll<T>(inputs: seq<seq<Item<T>>>): seq<Item<T>> {
    if inputs == [] then [] else Merge(inputs[0], MergeAll(inputs[1..]))
  }

  /** list.sort: insertion of one row at a time. */
  function Sort<T>(s: seq<Item<T>>): seq<Item<T>> {
    if s == [] then [] else Merge([s[0]], Sort(s[1..]))
  }

  ghost function Flatten<T>(inputs: seq<seq<T>>): seq<T> {
    if inputs == [] then [] else inputs[0] + Flatten(inputs[1..])
  }

  lemma HeadMoves<T>(a: seq<T>, b: seq<T>, rest: seq<T>)
    requires a != [] && multiset(rest) == multiset(a[1..]) + multiset(b)
    ensures multiset([a[0]] + rest) == multiset(a) + multiset(b)
  {
    assert a == [a[0]] + a[1..];
  }

  lemma {:induction false} MergeIsPermutation<T>(a: seq<Item<T>>, b: seq<Item<T>>)
    ensures multiset(Merge(a, b)) == multiset(a) + multiset(b)
    decreases |a| + |b|
  {
    if a == [] || b == [] {
    } else if KeyAtMost(a[0], b[0]) {
      MergeIsPermutation(a[1..], b);
      HeadMoves(a, b, Merge(a[1..], b));
    } else {
      MergeIsPermutation(a, b[1..]);
      HeadMoves(b, a, Merge(a, b[1..]));
    }
  }

  lemma SortedCons<T>(head: Item<T>, rest: seq<Item<T>>)
    requires Sorted(rest)
    requires forall x :: x in rest ==> KeyAtMost(head, x)
    ensures Sorted([head] + rest)
  {
  }

  lemma MergeMembers<T>(a: seq<Item<T>>, b: seq<Item<T>>, x: Item<T>)
    requires x in Merge(a, b)
    ensures x in a || x in b
  {
    MergeIsPermutation(a, b);
    assert x in multiset(Merge(a, b));
  }

  lemma {:induction false} MergeIsSorted<T>(a: seq<Item<T>>, b: seq<Item<T>>)
    requires Sorted(a) && Sorted(b)
    ensures Sorted(Merge(a, b))
    decreases |a| + |b|
  {
    if a == [] || b == [] {
    } else if KeyAtMost(a[0], b[0]) {
      var rest := Merge(a[1..], b);
      MergeIsSorted(a[1..], b);
      forall x | x in rest ensures KeyAtMost(a[0], x) {
        MergeMembers(a[1..], b, x);
      }
      SortedCons(a[0], rest);
    } else {
      var rest := Merge(a, b[1..]);
      MergeIsSorted(a, b[1..]);
      forall x | x in rest ensures KeyAtMost(b[0], x) {
        MergeMembers(a, b[1..], x);
      }
      SortedCons(b[0], rest);
    }
  }

  lemma {:induction false} MergeAllIsSortedPermutation<T>(inputs: seq<seq<Item<T>>>)
    requires forall k :: 0 <= k < |inputs| ==> Sorted(inputs[k])
    ensures Sorted(MergeAll(inputs))
    ensures multiset(MergeAll(inputs)) == multiset(Flatten(inputs))
  {
    if inputs != [] {
      MergeAllIsSortedPermutation(inputs[1..]);
      MergeIsSorted(inputs[0], MergeAll(inputs[1..]));
      MergeIsPermutation(inputs[0], MergeAll(inputs[1..]));
    }
  }

  lemma {:induction false} SortIsSortedPermutation<T>(s: seq<Item<T>>)
    ensures Sorted(Sort(s))
    ensures multiset(Sort(s)) == multiset(s)
  {
    if s != [] {
      SortIsSortedPermutation(s[1..]);
      MergeIsSorted([s[0]], Sort(s[1..]));
      MergeIsPermutation([s[0]], Sort(s[1..]));
      assert s == [s[0]] + s[1..];
    }
  }

  lemma RepeatedElement<T>(s: seq<T>, i: nat, j: nat)
    requires i < j < |s| && s[i] == s[j]
    ensures multiset(s)[s[i]] >= 2
  {
    assert s == s[..j] + s[j..];
    assert s[i] in s[..j] && s[i] in s[j..];
  }

  /** Sorted rows with distinct ids are strictly increasing in (due, id). */
  lemma SortedDistinctIsStrict<T(!new)>(s: seq<Item<T>>)
    requires Sorted(s) && Distinct(multiset(s))
    ensures StrictlySorted(s)
  {
    forall i, j | 0 <= i < j < |s| ensures KeyLess(s[i], s[j]) {
      if !KeyLess(s[i], s[j]) {
        assert s[i] in multiset(s) && s[j] in multiset(s);
        RepeatedElement(s, i, j);
      }
    }
  }

  lemma LeastIsFirst<T>(a: seq<Item<T>>, b: seq<Item<T>>)
    requires StrictlySorted(a) && StrictlySorted(b)
    requires multiset(a) == multiset(b) && a != []
    ensures b != [] && a[0] == b[0]
  {
    assert |multiset(a)| == |multiset(b)|;
    assert a[0] in multiset(b) && b[0] in multiset(a);
    assert a[0] in b && b[0] in a;
    assert !KeyLess(a[0], b[0]) && !KeyLess(b[0], a[0]);
  }

  /** A multiset of rows has at most one strictly increasing arrangement. */
  lemma {:induction false} StrictlySortedIsUnique<T>(a: seq<Item<T>>, b: seq<Item<T>>)
    requires StrictlySorted(a) && StrictlySorted(b)
    requires multiset(a) == multiset(b)
    ensures a == b
  {
    assert |multiset(a)| == |multiset(b)|;
    if a != [] {
      LeastIsFirst(a, b);
      assert a == [a[0]] + a[1..] && b == [b[0]] + b[1..];
      assert multiset(a[1..]) == multiset(a) - multiset{a[0]};
      assert multiset(b[1..]) == multiset(b) - multiset{a[0]};
      StrictlySortedIsUnique(a[1..], b[1..]);
    }
  }

  /** Any sorted arrangement of rows with distinct ids is their sort: a streaming
      form is right as soon as it emits the right rows in nondecreasing order. */
  lemma SortedArrangementIsSort<T(!new)>(arranged: seq<Item<T>>, rows: seq<Item<T>>)
    requires Sorted(arranged) && multiset(arranged) == multiset(rows)
    requires Distinct(multiset(rows))
    ensures arranged == Sort(rows)
    ensures StrictlySorted(arranged)
  {
    SortIsSortedPermutation(rows);
    SortedDistinctIsStrict(arranged);
    SortedDistinctIsStrict(Sort(rows));
    StrictlySortedIsUnique(arranged, Sort(rows));
  }

  lemma DistinctPart<T(!new)>(part: multiset<Item<T>>, whole: multiset<Item<T>>)
    requires Distinct(whole) && part <= whole
    ensures Distinct(part)
  {
    forall x | x in part ensures part[x] == 1 {
      assert part[x] <= whole[x];
    }
  }

  lemma ConcatAssoc<T>(a: seq<T>, b: seq<T>, c: seq<T>)
    ensures (a + b) + c == a + (b + c)
  {
  }

  lemma {:induction false} FlattenSnoc<T>(a: seq<seq<T>>, b: seq<T>)
    ensures Flatten(a + [b]) == Flatten(a) + b
  {
    if a == [] {
      assert a + [b] == [b];
    } else {
      FlattenSnoc(a[1..], b);
      assert (a + [b])[1..] == a[1..] + [b];
    }
  }

  // ----- Sums over rows -----------------------------------------------------------------

  function SumBy<T>(f: T -> nat, items: seq<T>): nat {
    if items == [] then 0 else SumBy(f, items[..|items| - 1]) + f(items[|items| - 1])
  }

  lemma SumBySnoc<T>(f: T -> nat, items: seq<T>, item: T)
    ensures SumBy(f, items + [item]) == SumBy(f, items) + f(item)
  {
    assert (items + [item])[..|items|] == items;
  }

  lemma {:induction false} SumByConcat<T>(f: T -> nat, a: seq<T>, b: seq<T>)
    ensures SumBy(f, a + b) == SumBy(f, a) + SumBy(f, b)
  {
    if b == [] {
      assert a + b == a;
    } else {
      var last := |b| - 1;
      SumByConcat(f, a, b[..last]);
      assert a + b == (a + b[..last]) + [b[last]] && b == b[..last] + [b[last]];
      SumBySnoc(f, a + b[..last], b[last]);
    }
  }

  /** Taking the last row of one arrangement out of another arrangement. */
  lemma RemoveLast<T>(a: seq<T>, b: seq<T>) returns (j: nat)
    requires multiset(a) == multiset(b) && a != []
    ensures j < |b| && b[j] == a[|a| - 1]
    ensures multiset(a[..|a| - 1]) == multiset(b[..j] + b[j + 1..])
  {
    var last := |a| - 1;
    assert a[last] in multiset(b);
    j :| 0 <= j < |b| && b[j] == a[last];
    assert a == a[..last] + [a[last]];
    assert b == b[..j] + [b[j]] + b[j + 1..];
    assert multiset(a[..last]) == multiset(a) - multiset{a[last]};
    assert multiset(b[..j] + b[j + 1..]) == multiset(b) - multiset{b[j]};
  }

  /** A sum does not depend on the order of the rows. */
  lemma {:induction false} SumByPermutes<T>(f: T -> nat, a: seq<T>, b: seq<T>)
    requires multiset(a) == multiset(b)
    ensures SumBy(f, a) == SumBy(f, b)
  {
    assert |multiset(a)| == |multiset(b)|;
    if a != [] {
      var last := |a| - 1;
      var j := RemoveLast(a, b);
      var rest := b[..j] + b[j + 1..];
      assert a == a[..last] + [a[last]];
      assert b == b[..j] + [b[j]] + b[j + 1..];
      SumByPermutes(f, a[..last], rest);
      hide SumBy;
      SumBySnoc(f, a[..last], a[last]);
      SumByConcat(f, b[..j] + [b[j]], b[j + 1..]);
      SumBySnoc(f, b[..j], b[j]);
      SumByConcat(f, b[..j], b[j + 1..]);
    }
  }

  lemma SumByPrefix<T>(f: T -> nat, items: seq<T>, k: nat)
    requires k <= |items|
    ensures SumBy(f, items[..k]) <= SumBy(f, items)
  {
    SumByConcat(f, items[..k], items[k..]);
    assert items == items[..k] + items[k..];
  }
}
