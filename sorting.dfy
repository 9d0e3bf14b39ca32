/** `sort.Slice(middlewares, by Name)`: the synthesized middlewares ordered by
    name before they are emitted. */
module Sorting {
  import opened GoStrings
  import opened Resources

  predicate IsSortedByName(s: seq<Middleware>) {
    forall i, j :: 0 <= i < j < |s| ==> AtMost(s[i].name, s[j].name)
  }

  /** `m` inserted into `s` from the back: it moves in front of every
      trailing element whose name is greater than its own. */
  function InsertByName(s: seq<Middleware>, m: Middleware): seq<Middleware>
  {
    if s == [] then [m]
    else if Below(m.name, s[|s| - 1].name) then InsertByName(s[..|s| - 1], m) + [s[|s| - 1]]
    else s + [m]
  }

  /** Insertion sort by name, element by element from the front. */
  function SortByName(s: seq<Middleware>): seq<Middleware>
  {
    if s == [] then [] else InsertByName(SortByName(s[..|s| - 1]), s[|s| - 1])
  }

  lemma {:induction false} InsertPermutes(s: seq<Middleware>, m: Middleware)
    ensures multiset(InsertByName(s, m)) == multiset(s) + multiset{m}
    decreases |s|
  {
    if s != [] {
      var init, last := s[..|s| - 1], s[|s| - 1];
      assert s == init + [last];
      if Below(m.name, last.name) {
        InsertPermutes(init, m);
      }
    }
  }

  lemma {:induction false} InsertSorted(s: seq<Middleware>, m: Middleware)
    requires IsSortedByName(s)
    ensures IsSortedByName(InsertByName(s, m))
    decreases |s|
  {
    if s != [] {
      var init, last := s[..|s| - 1], s[|s| - 1];
      if Below(m.name, last.name) {
        var r := InsertByName(init, m);
        InsertSorted(init, m);
        InsertPermutes(init, m);
        forall k | 0 <= k < |r|
          ensures AtMost(r[k].name, last.name)
        {
          assert r[k] in multiset(r);
          if r[k] == m {
            BelowAsymmetric(m.name, last.name);
          } else {
            assert r[k] in init;
          }
        }
        assert InsertByName(s, m) == r + [last];
      } else {
        forall k | 0 <= k < |s|
          ensures AtMost(s[k].name, m.name)
        {
          if k < |s| - 1 {
            AtMostTransitive(s[k].name, last.name, m.name);
          }
        }
      }
    }
  }

  /** The sorted sequence is ordered by name and is a permutation of the
      input. */
  lemma {:induction false} SortByNameCorrect(s: seq<Middleware>)
    ensures IsSortedByName(SortByName(s))
    ensures multiset(SortByName(s)) == multiset(s)
  {
    if s != [] {
      var init, last := s[..|s| - 1], s[|s| - 1];
      SortByNameCorrect(init);
      InsertSorted(SortByName(init), last);
      InsertPermutes(SortByName(init), last);
      assert s == init + [last];
    }
  }

  /** The in-place sort: each element in turn is swapped down past the
      greater names before it. */
  method SortInPlace(a: array<Middleware>)
    modifies a
    ensures a[..] == SortByName(old(a[..]))
  {
    ghost var input := a[..];
    var i := 0;
    while i < a.Length
      invariant 0 <= i <= a.Length
      invariant a[..i] == SortByName(input[..i])
      invariant a[i..] == input[i..]
    {
      assert input[..i + 1][..i] == input[..i];
      assert a[i] == input[i];
      InsertInPlace(a, i);
      i := i + 1;
    }
    assert input[..a.Length] == input;
  }

  /** One insertion step: `a[i]` is swapped down into the sorted `a[..i]`. */
  method InsertInPlace(a: array<Middleware>, i: nat)
    requires i < a.Length
    modifies a
    ensures a[..i + 1] == InsertByName(old(a[..i]), old(a[i]))
    ensures a[i + 1..] == old(a[i + 1..])
  {
    ghost var sorted := a[..i];
    ghost var rest := a[i + 1..];
    var m := a[i];
    var j := i;
    assert sorted[..j] == sorted && sorted[j..] == [];
    assert a[..] == sorted[..j] + [m] + sorted[j..] + rest;
    while j > 0 && Below(m.name, a[j - 1].name)
      invariant 0 <= j <= i
      invariant a[..] == sorted[..j] + [m] + sorted[j..] + rest
      invariant InsertByName(sorted, m) == InsertByName(sorted[..j], m) + sorted[j..]
    {
      ghost var before := a[..];
      assert a[j - 1] == before[j - 1] == sorted[j - 1];
      InsertStepsOver(sorted, m, j);
      SwapDown(before, sorted, m, j, rest);
      a[j - 1], a[j] := a[j], a[j - 1];
      assert a[..] == before[j - 1 := m][j := before[j - 1]];
      j := j - 1;
    }
    if j > 0 {
      assert a[j - 1] == a[..][j - 1];
    }
    InsertStops(sorted, m, j);
    assert a[..][..i + 1] == sorted[..j] + [m] + sorted[j..];
    assert a[..][i + 1..] == rest;
  }

  lemma InsertStepsOver(sorted: seq<Middleware>, m: Middleware, j: nat)
    requires 0 < j <= |sorted| && Below(m.name, sorted[j - 1].name)
    ensures InsertByName(sorted[..j], m) + sorted[j..] == InsertByName(sorted[..j - 1], m) + sorted[j - 1..]
  {
    assert sorted[..j][..j - 1] == sorted[..j - 1];
    assert sorted[j - 1..] == [sorted[j - 1]] + sorted[j..];
  }

  lemma InsertStops(sorted: seq<Middleware>, m: Middleware, j: nat)
    requires j <= |sorted|
    requires j == 0 || !Below(m.name, sorted[j - 1].name)
    ensures InsertByName(sorted[..j], m) == sorted[..j] + [m]
  {
  }

  lemma SwapDown(s: seq<Middleware>, sorted: seq<Middleware>, m: Middleware, j: nat, rest: seq<Middleware>)
    requires 0 < j <= |sorted| && s == sorted[..j] + [m] + sorted[j..] + rest
    ensures s[j - 1 := m][j := s[j - 1]] == sorted[..j - 1] + [m] + sorted[j - 1..] + rest
  {
    assert sorted[..j] == sorted[..j - 1] + [sorted[j - 1]];
    assert sorted[j - 1..] == [sorted[j - 1]] + sorted[j..];
  }
}
