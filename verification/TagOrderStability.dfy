/**
 * Why tag numbering settles after one round: an item exported with its tags in
 * number order contributes the same first occurrences as it did before.
 */
module TagOrderStability {
  import opened TagIndex
  import opened Sorting

  function Names(normalize: Normalize, tags: seq<string>): (r: seq<string>)
    ensures |r| == |tags| && forall i :: 0 <= i < |r| ==> r[i] == normalize(tags[i])
  {
    seq(|tags|, i requires 0 <= i < |tags| => normalize(tags[i]))
  }

  /** `AddTags` on normalized names. */
  function AddNames(known: seq<string>, names: seq<string>): seq<string> {
    if names == [] then known
    else
      var before, name := AddNames(known, names[..|names| - 1]), names[|names| - 1];
      if name in before then before else before + [name]
  }

  lemma {:induction false} AddTagsAddsNames(normalize: Normalize, known: seq<string>, tags: seq<string>)
    ensures AddTags(normalize, known, tags) == AddNames(known, Names(normalize, tags))
  {
    if tags != [] {
      var front := tags[..|tags| - 1];
      AddTagsAddsNames(normalize, known, front);
      assert Names(normalize, tags)[..|tags| - 1] == Names(normalize, front);
    }
  }

  lemma {:induction false} AddNamesIn(known: seq<string>, names: seq<string>)
    requires Distinct(known)
    ensures Distinct(AddNames(known, names)) && known <= AddNames(known, names)
    ensures forall x :: x in AddNames(known, names) <==> x in known || x in names
  {
    if names != [] {
      var front, last := names[..|names| - 1], names[|names| - 1];
      AddNamesIn(known, front);
      assert names == front + [last];
    }
  }

  lemma {:induction false} AddNamesInTwo(known: seq<string>, a: seq<string>, b: seq<string>)
    ensures AddNames(known, a + b) == AddNames(AddNames(known, a), b)
  {
    if b == [] {
      assert a + b == a;
    } else {
      assert (a + b)[..|a + b| - 1] == a + b[..|b| - 1];
      AddNamesInTwo(known, a, b[..|b| - 1]);
    }
  }

  lemma {:induction false} AddKnown(known: seq<string>, names: seq<string>)
    requires forall x :: x in names ==> x in known
    ensures AddNames(known, names) == known
  {
    if names != [] {
      AddKnown(known, names[..|names| - 1]);
    }
  }

  lemma {:induction false} AddNew(known: seq<string>, names: seq<string>)
    requires Distinct(known + names)
    ensures AddNames(known, names) == known + names
  {
    if names == [] {
      assert known + names == known;
    } else {
      var front, last := names[..|names| - 1], names[|names| - 1];
      assert (known + names)[..|known| + |front|] == known + front;
      AddNew(known, front);
      forall k | 0 <= k < |known + front| ensures (known + front)[k] != last {
        assert (known + names)[k] == (known + front)[k] && (known + names)[|known + front|] == last;
      }
      assert (known + front) + [last] == known + names;
    }
  }

  /** The names of the list that lie in the set, in the order of the list. */
  function Kept(list: seq<string>, names: set<string>): seq<string> {
    if list == [] then []
    else
      Kept(list[..|list| - 1], names) + (if list[|list| - 1] in names then [list[|list| - 1]] else [])
  }

  lemma {:induction false} KeptIn(list: seq<string>, names: set<string>)
    ensures forall x :: x in Kept(list, names) <==> x in list && x in names
  {
    if list != [] {
      KeptIn(list[..|list| - 1], names);
      assert list == list[..|list| - 1] + [list[|list| - 1]];
    }
  }

  lemma {:induction false} KeptInTwo(a: seq<string>, b: seq<string>, names: set<string>)
    ensures Kept(a + b, names) == Kept(a, names) + Kept(b, names)
  {
    if b == [] {
      assert a + b == a;
    } else {
      assert (a + b)[..|a + b| - 1] == a + b[..|b| - 1];
      KeptInTwo(a, b[..|b| - 1], names);
    }
  }

  lemma {:induction false} KeptAll(list: seq<string>, names: set<string>)
    requires forall x :: x in list ==> x in names
    ensures Kept(list, names) == list
  {
    if list != [] {
      KeptAll(list[..|list| - 1], names);
      assert list == list[..|list| - 1] + [list[|list| - 1]];
    }
  }

  lemma {:induction false} KeptNone(list: seq<string>, names: set<string>)
    requires forall x :: x in list ==> x !in names
    ensures Kept(list, names) == []
  {
    if list != [] {
      KeptNone(list[..|list| - 1], names);
    }
  }

  function Elements(names: seq<string>): set<string> {
    set x | x in names
  }

  lemma DistinctParts(a: seq<string>, b: seq<string>)
    requires Distinct(a + b)
    ensures Distinct(a) && Distinct(b) && forall x :: x in b ==> x !in a
  {
    forall i, j | 0 <= i < |a| && 0 <= j < |b| ensures a[i] != b[j] {
      assert (a + b)[i] == a[i] && (a + b)[|a| + j] == b[j];
    }
    forall i, j | 0 <= i < j < |b| ensures b[i] != b[j] {
      assert (a + b)[|a| + i] == b[i] && (a + b)[|a| + j] == b[j];
    }
    forall i, j | 0 <= i < j < |a| ensures a[i] != a[j] {
      assert (a + b)[i] == a[i] && (a + b)[j] == a[j];
    }
  }

  /** An item's names, taken in the order of the whole list instead of their own, add the same. */
  lemma AddKept(known: seq<string>, names: seq<string>, list: seq<string>)
    requires Distinct(list) && Distinct(known) && AddNames(known, names) <= list
    ensures AddNames(known, Kept(list, Elements(names))) == AddNames(known, names)
  {
    var wanted := Elements(names);
    var all := AddNames(known, names);
    AddNamesIn(known, names);
    var new_ := all[|known|..];
    var rest := list[|all|..];
    assert all == known + new_ && list == (known + new_) + rest;
    KeptInTwo(known + new_, rest, wanted);
    KeptInTwo(known, new_, wanted);
    DistinctParts(known, new_);
    assert forall x :: x in new_ ==> x in all;
    KeptAll(new_, wanted);
    DistinctParts(all, rest);
    KeptNone(rest, wanted);
    KeptIn(known, wanted);
    AddNamesInTwo(known, Kept(known, wanted), new_);
    AddKnown(known, Kept(known, wanted));
    AddNew(known, new_);
    assert Kept(list, wanted) == Kept(known, wanted) + new_;
  }

  // ----- over all items

  lemma {:induction false} TagOrderIsDistinct(normalize: Normalize, items: seq<Tagged>)
    ensures Distinct(TagOrder(normalize, items))
    ensures forall i :: 0 <= i < |items| ==> forall x :: x in Names(normalize, items[i].tags) ==> x in TagOrder(normalize, items)
  {
    if items != [] {
      var front, last := items[..|items| - 1], items[|items| - 1];
      TagOrderIsDistinct(normalize, front);
      AddTagsAddsNames(normalize, TagOrder(normalize, front), last.tags);
      AddNamesIn(TagOrder(normalize, front), Names(normalize, last.tags));
      forall i | 0 <= i < |items|
        ensures forall x :: x in Names(normalize, items[i].tags) ==> x in TagOrder(normalize, items)
      {
        if i < |front| {
          assert front[i] == items[i];
        }
      }
    }
  }

  /** Items whose tags are listed in the order of `list`. */
  ghost predicate Relisted(normalize: Normalize, items: seq<Tagged>, again: seq<Tagged>, list: seq<string>) {
    && |again| == |items|
    && forall i :: 0 <= i < |items| ==>
         Names(normalize, again[i].tags) == Kept(list, Elements(Names(normalize, items[i].tags)))
  }

  /** The fixed point: listing every item's tags in tag order leaves the tag order as it is. */
  lemma {:induction false} TagOrderIsStable(normalize: Normalize, items: seq<Tagged>, again: seq<Tagged>, list: seq<string>)
    requires Relisted(normalize, items, again, list) && Distinct(list) && TagOrder(normalize, items) <= list
    ensures TagOrder(normalize, again) == TagOrder(normalize, items)
  {
    if items != [] {
      var front, last := items[..|items| - 1], items[|items| - 1];
      var frontAgain, lastAgain := again[..|items| - 1], again[|items| - 1];
      var known := TagOrder(normalize, front);
      AddTagsAddsNames(normalize, known, last.tags);
      AddTagsAddsNames(normalize, known, lastAgain.tags);
      TagOrderIsDistinct(normalize, front);
      AddNamesIn(known, Names(normalize, last.tags));
      TagOrderIsStable(normalize, front, frontAgain, list);
      AddKept(known, Names(normalize, last.tags), list);
    }
  }
}
