/** `extractItems`: the items of a List document split into those kept in
    the list and the Ingresses to convert. */
module Items {

  /** An item of a List: its `apiVersion`, its `kind`, and the rest of the
      object, opaque here. */
  datatype Item = Item(apiVersion: string, kind: string, body: string)

  /** The two Ingress identifiers the tool converts. */
  predicate IsIngressItem(x: Item) {
    (x.apiVersion == "extensions/v1beta1" || x.apiVersion == "networking.k8s.io/v1") && x.kind == "Ingress"
  }

  predicate IsOtherItem(x: Item) {
    !IsIngressItem(x)
  }

  /** The elements of `xs` that satisfy `p`, in their order. */
  function Filter<T>(p: T -> bool, xs: seq<T>): seq<T>
  {
    if xs == [] then []
    else Filter(p, xs[..|xs| - 1]) + (if p(xs[|xs| - 1]) then [xs[|xs| - 1]] else [])
  }

  /** Filtering a concatenation filters each part in turn. */
  lemma {:induction false} FilterConcat<T>(p: T -> bool, a: seq<T>, b: seq<T>)
    ensures Filter(p, a + b) == Filter(p, a) + Filter(p, b)
    decreases |b|
  {
    if b == [] {
      assert a + b == a;
    } else {
      var init := b[..|b| - 1];
      var ab := a + b;
      FilterConcat(p, a, init);
      assert ab[..|ab| - 1] == a + init;
    }
  }

  /** An element is kept by the filter exactly when it is in `xs` and
      satisfies `p`. */
  lemma {:induction false} FilterMembers<T>(p: T -> bool, xs: seq<T>)
    ensures |Filter(p, xs)| <= |xs|
    ensures forall x :: x in Filter(p, xs) <==> x in xs && p(x)
  {
    if xs != [] {
      var init := xs[..|xs| - 1];
      FilterMembers(p, init);
      assert xs == init + [xs[|xs| - 1]];
    }
  }

  /** The Ingress items, in their order in `items`. */
  function ToConvert(items: seq<Item>): seq<Item>
  {
    Filter(IsIngressItem, items)
  }

  /** The other items, in their order in `items`. */
  function ToKeep(items: seq<Item>): seq<Item>
  {
    Filter(IsOtherItem, items)
  }

  /** The loop over the items, appending each to one of two slices. */
  method ExtractItems(items: seq<Item>) returns (toKeep: seq<Item>, toConvert: seq<Item>)
    ensures toKeep == ToKeep(items) && toConvert == ToConvert(items)
    ensures |toKeep| + |toConvert| == |items|
    ensures forall x :: x in toConvert <==> x in items && IsIngressItem(x)
    ensures forall x :: x in toKeep <==> x in items && !IsIngressItem(x)
  {
    toKeep, toConvert := [], [];
    var i := 0;
    while i < |items|
      invariant 0 <= i <= |items|
      invariant toKeep == ToKeep(items[..i]) && toConvert == ToConvert(items[..i])
    {
      assert items[..i + 1][..i] == items[..i];
      if IsIngressItem(items[i]) {
        toConvert := toConvert + [items[i]];
      } else {
        toKeep := toKeep + [items[i]];
      }
      i := i + 1;
    }
    assert items[..i] == items;
    PartitionSizes(items);
    PartitionMembers(items);
  }

  /** No item is dropped or duplicated. */
  lemma PartitionSizes(items: seq<Item>)
    ensures |ToKeep(items)| + |ToConvert(items)| == |items|
    ensures multiset(ToKeep(items)) + multiset(ToConvert(items)) == multiset(items)
  {
    PartitionMultiset(items);
    assert |multiset(ToKeep(items)) + multiset(ToConvert(items))| == |multiset(items)|;
  }

  lemma {:induction false} PartitionMultiset(items: seq<Item>)
    ensures multiset(ToKeep(items)) + multiset(ToConvert(items)) == multiset(items)
  {
    if items != [] {
      var init, last := items[..|items| - 1], items[|items| - 1];
      PartitionMultiset(init);
      assert items == init + [last];
      if IsIngressItem(last) {
        assert ToConvert(items) == ToConvert(init) + [last];
        assert ToKeep(items) == ToKeep(init);
      } else {
        assert ToKeep(items) == ToKeep(init) + [last];
        assert ToConvert(items) == ToConvert(init);
      }
    }
  }

  /** An item is converted exactly when it is an Ingress, and kept otherwise. */
  lemma PartitionMembers(items: seq<Item>)
    ensures forall x :: x in ToConvert(items) <==> x in items && IsIngressItem(x)
    ensures forall x :: x in ToKeep(items) <==> x in items && !IsIngressItem(x)
  {
    FilterMembers(IsIngressItem, items);
    FilterMembers(IsOtherItem, items);
  }

  /** Both halves keep the relative order of `items`: classifying a
      concatenation classifies each part in turn. */
  lemma PartitionOfConcat(a: seq<Item>, b: seq<Item>)
    ensures ToConvert(a + b) == ToConvert(a) + ToConvert(b)
    ensures ToKeep(a + b) == ToKeep(a) + ToKeep(b)
  {
    FilterConcat(IsIngressItem, a, b);
    FilterConcat(IsOtherItem, a, b);
  }

  /** Nothing is converted exactly when everything is kept. */
  lemma NothingToConvert(items: seq<Item>)
    ensures ToConvert(items) == [] <==> ToKeep(items) == items
  {
    PartitionSizes(items);
    if ToKeep(items) == items {
      assert |ToConvert(items)| == 0;
    }
    if ToConvert(items) == [] {
      KeepAllWhenNoIngress(items);
    }
  }

  lemma {:induction false} KeepAllWhenNoIngress(items: seq<Item>)
    requires ToConvert(items) == []
    ensures ToKeep(items) == items
  {
    if items != [] {
      var init := items[..|items| - 1];
      KeepAllWhenNoIngress(init);
      assert items == init + [items[|items| - 1]];
    }
  }
}
