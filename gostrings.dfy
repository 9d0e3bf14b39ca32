/** The functions of Go's `strings` package (and Go's string comparison) that
    the conversion relies on, stated over `seq<char>`. */
module GoStrings {

  /** `strings.Split(s, sep)` for a non-empty separator: the pieces of `s`
      around its leftmost non-overlapping occurrences of `sep`. */
  function Split(s: string, sep: string): (parts: seq<string>)
    requires |sep| > 0
    ensures |parts| >= 1
    decreases |s|
  {
    if |s| < |sep| then [s]
    else if s[..|sep|] == sep then [""] + Split(s[|sep|..], sep)
    else
      var rest := Split(s[1..], sep);
      [[s[0]] + rest[0]] + rest[1..]
  }

  /** `strings.Join(parts, sep)`. */
  function Join(parts: seq<string>, sep: string): string
  {
    if |parts| == 0 then ""
    else if |parts| == 1 then parts[0]
    else parts[0] + sep + Join(parts[1..], sep)
  }

  /** Joining the pieces of a split with the same separator gives back the
      original string. */
  lemma {:induction false} JoinSplit(s: string, sep: string)
    requires |sep| > 0
    ensures Join(Split(s, sep), sep) == s
    decreases |s|
  {
    if |s| < |sep| {
    } else if s[..|sep|] == sep {
      var rest := Split(s[|sep|..], sep);
      JoinSplit(s[|sep|..], sep);
      assert Split(s, sep) == [""] + rest;
      JoinCons("", rest, sep);
      assert s == sep + s[|sep|..];
    } else {
      var rest := Split(s[1..], sep);
      JoinSplit(s[1..], sep);
      assert Split(s, sep) == [[s[0]] + rest[0]] + rest[1..];
      JoinPrepend(s[0], rest, sep);
      assert s == [s[0]] + s[1..];
    }
  }

  /** Joining a part in front of at least one more part puts the separator
      between them. */
  lemma JoinCons(x: string, rest: seq<string>, sep: string)
    requires |rest| >= 1
    ensures Join([x] + rest, sep) == x + sep + Join(rest, sep)
  {
    assert ([x] + rest)[1..] == rest;
  }

  /** Prefixing the first part with a character prefixes the join with it. */
  lemma JoinPrepend(c: char, rest: seq<string>, sep: string)
    requires |rest| >= 1
    ensures Join([[c] + rest[0]] + rest[1..], sep) == [c] + Join(rest, sep)
  {
    var parts := [[c] + rest[0]] + rest[1..];
    if |rest| > 1 {
      assert parts[1..] == rest[1..];
      assert Join(parts, sep) == ([c] + rest[0]) + sep + Join(rest[1..], sep);
      assert Join(rest, sep) == rest[0] + sep + Join(rest[1..], sep);
    }
  }

  /** A string without the character `c` is not split by it. */
  lemma {:induction false} SplitWithoutSeparator(w: string, c: char)
    requires c !in w
    ensures Split(w, [c]) == [w]
    decreases |w|
  {
    if |w| >= 1 {
      assert w[..1] == [w[0]];
      SplitWithoutSeparator(w[1..], c);
      assert [w[0]] + w[1..] == w;
    }
  }

  /** Splitting on `c` cuts exactly at the first `c`. */
  lemma {:induction false} SplitAtFirst(w: string, c: char, t: string)
    requires c !in w
    ensures Split(w + [c] + t, [c]) == [w] + Split(t, [c])
    decreases |w|
  {
    var s := w + [c] + t;
    if |w| == 0 {
      assert s[..1] == [c];
      assert s[1..] == t;
    } else {
      assert s[..1] == [w[0]];
      assert s[1..] == w[1..] + [c] + t;
      SplitAtFirst(w[1..], c, t);
      assert [w[0]] + w[1..] == w;
    }
  }

  /** The router reads a comma-joined annotation back by splitting it; when no
      element contains the one-character separator, that recovers the list. */
  lemma {:induction false} SplitJoin(parts: seq<string>, c: char)
    requires |parts| >= 1
    requires forall i :: 0 <= i < |parts| ==> c !in parts[i]
    ensures Split(Join(parts, [c]), [c]) == parts
    decreases |parts|
  {
    if |parts| == 1 {
      SplitWithoutSeparator(parts[0], c);
    } else {
      SplitJoin(parts[1..], c);
      SplitAtFirst(parts[0], c, Join(parts[1..], [c]));
      assert [parts[0]] + parts[1..] == parts;
    }
  }

  /** `strings.Contains(s, sub)`. */
  predicate Contains(s: string, sub: string)
    decreases |s|
  {
    if |s| < |sub| then false
    else s[..|sub|] == sub || Contains(s[1..], sub)
  }

  /** `sub` occurs in `s` at position `i`. */
  predicate OccursAt(s: string, sub: string, i: int) {
    0 <= i && i + |sub| <= |s| && s[i..i + |sub|] == sub
  }

  /** `Contains` holds exactly when `sub` occurs at some position of `s`. */
  lemma {:induction false} ContainsOccurrence(s: string, sub: string)
    ensures Contains(s, sub) <==> exists i :: OccursAt(s, sub, i)
    decreases |s|
  {
    if |s| < |sub| {
    } else if s[..|sub|] == sub {
      assert OccursAt(s, sub, 0);
    } else {
      ContainsOccurrence(s[1..], sub);
      if Contains(s[1..], sub) {
        var i :| OccursAt(s[1..], sub, i);
        assert s[i + 1..i + 1 + |sub|] == s[1..][i..i + |sub|];
        assert OccursAt(s, sub, i + 1);
      }
      if exists i :: OccursAt(s, sub, i) {
        var i :| OccursAt(s, sub, i);
        assert i > 0;
        assert s[1..][i - 1..i - 1 + |sub|] == s[i..i + |sub|];
        assert OccursAt(s[1..], sub, i - 1);
      }
    }
  }

  /** No part of a split contains the separator: `Split` cuts at every
      occurrence. Its first part is the text before the first cut. */
  lemma {:induction false} SplitPartsLackSeparator(s: string, sep: string)
    requires |sep| > 0
    ensures Split(s, sep)[0] <= s
    ensures forall i :: 0 <= i < |Split(s, sep)| ==> !Contains(Split(s, sep)[i], sep)
    decreases |s|
  {
    var parts := Split(s, sep);
    if |s| < |sep| {
      assert parts == [s];
    } else if s[..|sep|] == sep {
      var rest := Split(s[|sep|..], sep);
      SplitPartsLackSeparator(s[|sep|..], sep);
      assert parts == [""] + rest;
      forall i | 0 <= i < |parts|
        ensures !Contains(parts[i], sep)
      {
        if i > 0 {
          assert parts[i] == rest[i - 1];
        }
      }
    } else {
      var rest := Split(s[1..], sep);
      SplitPartsLackSeparator(s[1..], sep);
      var first := [s[0]] + rest[0];
      assert parts == [first] + rest[1..];
      assert s == [s[0]] + s[1..];
      assert first[1..] == rest[0];
      if |first| >= |sep| {
        assert first[..|sep|] == s[..|sep|];
      }
      forall i | 0 <= i < |parts|
        ensures !Contains(parts[i], sep)
      {
        if i > 0 {
          assert parts[i] == rest[i];
        }
      }
    }
  }

  /** Go's `a < b` on strings. Go compares the UTF-8 bytes; comparing code
      points lexicographically gives the same order. */
  predicate Below(a: string, b: string)
    decreases |a|
  {
    |b| > 0 && (|a| == 0 || a[0] < b[0] || (a[0] == b[0] && Below(a[1..], b[1..])))
  }

  lemma {:induction false} BelowIrreflexive(a: string)
    ensures !Below(a, a)
    decreases |a|
  {
    if |a| > 0 {
      BelowIrreflexive(a[1..]);
    }
  }

  lemma {:induction false} BelowTransitive(a: string, b: string, c: string)
    requires Below(a, b) && Below(b, c)
    ensures Below(a, c)
    decreases |a|
  {
    if |a| > 0 && a[0] == b[0] && b[0] == c[0] {
      BelowTransitive(a[1..], b[1..], c[1..]);
    }
  }

  /** Any two different strings are ordered one way or the other. */
  lemma {:induction false} BelowTotal(a: string, b: string)
    requires a != b
    ensures Below(a, b) || Below(b, a)
    decreases |a|
  {
    if |a| > 0 && |b| > 0 && a[0] == b[0] {
      assert a == [a[0]] + a[1..] && b == [b[0]] + b[1..];
      BelowTotal(a[1..], b[1..]);
    }
  }

  lemma BelowAsymmetric(a: string, b: string)
    requires Below(a, b)
    ensures !Below(b, a)
  {
    if Below(b, a) {
      BelowTransitive(a, b, a);
      BelowIrreflexive(a);
    }
  }

  /** `a <= b` in Go's order. */
  predicate AtMost(a: string, b: string) {
    !Below(b, a)
  }

  lemma AtMostTransitive(a: string, b: string, c: string)
    requires AtMost(a, b) && AtMost(b, c)
    ensures AtMost(a, c)
  {
    if a != b { BelowTotal(a, b); }
    if b != c { BelowTotal(b, c); }
    if a == c {
      BelowIrreflexive(a);
    } else if a == b || b == c {
    } else {
      BelowTransitive(a, b, c);
      BelowAsymmetric(a, c);
    }
  }

  /** One maximal run of characters that are not separators, at the start of `s`. */
  function Word(s: string, isSep: char -> bool): (w: string)
    ensures |w| <= |s| && w == s[..|w|]
    ensures forall k :: 0 <= k < |w| ==> !isSep(w[k])
    ensures |w| == |s| || isSep(s[|w|])
    decreases |s|
  {
    if |s| == 0 || isSep(s[0]) then "" else [s[0]] + Word(s[1..], isSep)
  }

  /** A field as `strings.FieldsFunc` returns it: non-empty, no separator. */
  predicate IsField(f: string, isSep: char -> bool) {
    |f| > 0 && forall k :: 0 <= k < |f| ==> !isSep(f[k])
  }

  /** `strings.FieldsFunc(s, isSep)`: the maximal runs of non-separator
      characters of `s`, in order. */
  function FieldsFunc(s: string, isSep: char -> bool): (fields: seq<string>)
    ensures forall i :: 0 <= i < |fields| ==> IsField(fields[i], isSep)
    decreases |s|
  {
    if |s| == 0 then []
    else if isSep(s[0]) then FieldsFunc(s[1..], isSep)
    else
      var w := Word(s, isSep);
      [w] + FieldsFunc(s[|w|..], isSep)
  }
}
