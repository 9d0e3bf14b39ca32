/** `normalizeObjectName`: turning an arbitrary string into a name that the
    target system accepts for a resource, by splitting on every character
    that is not a letter, a digit or `-` and joining the non-empty pieces with
    `-`. Letters and digits are the ASCII ones in this model. */
module Names {
  import opened GoStrings

  predicate IsNameChar(c: char) {
    ('a' <= c <= 'z') || ('A' <= c <= 'Z') || ('0' <= c <= '9') || c == '-'
  }

  /** The field separator handed to `strings.FieldsFunc`. */
  predicate IsSeparator(c: char) {
    !IsNameChar(c)
  }

  predicate IsName(s: string) {
    forall k :: 0 <= k < |s| ==> IsNameChar(s[k])
  }

  function NormalizeObjectName(name: string): (r: string)
    ensures IsName(r)
    ensures |r| <= |name|
  {
    var fields := FieldsFunc(name, IsSeparator);
    JoinedFieldsAreNames(fields);
    JoinedFieldsLength(name);
    Join(fields, "-")
  }

  /** Joining fields of name characters with `-` gives a name. */
  lemma {:induction false} JoinedFieldsAreNames(fields: seq<string>)
    requires forall i :: 0 <= i < |fields| ==> IsField(fields[i], IsSeparator)
    ensures IsName(Join(fields, "-"))
    decreases |fields|
  {
    if |fields| > 1 {
      JoinedFieldsAreNames(fields[1..]);
      var rest := Join(fields[1..], "-");
      assert Join(fields, "-") == fields[0] + "-" + rest;
      forall k | 0 <= k < |fields[0] + "-" + rest|
        ensures IsNameChar((fields[0] + "-" + rest)[k])
      {
        if k < |fields[0]| {
          assert (fields[0] + "-" + rest)[k] == fields[0][k];
        } else if k > |fields[0]| {
          assert (fields[0] + "-" + rest)[k] == rest[k - |fields[0]| - 1];
        }
      }
    }
  }

  /** The fields of `s` joined by `-` are never longer than `s`: every `-`
      that joins two fields stands where `s` had at least one separator. */
  lemma {:induction false} JoinedFieldsLength(s: string)
    ensures |Join(FieldsFunc(s, IsSeparator), "-")| <= |s|
    decreases |s|
  {
    if |s| > 0 {
      if IsSeparator(s[0]) {
        JoinedFieldsLength(s[1..]);
      } else {
        var w := Word(s, IsSeparator);
        var t := s[|w|..];
        var rest := FieldsFunc(t, IsSeparator);
        assert FieldsFunc(s, IsSeparator) == [w] + rest;
        if |rest| > 0 {
          assert IsSeparator(t[0]);
          assert rest == FieldsFunc(t[1..], IsSeparator);
          JoinedFieldsLength(t[1..]);
          assert ([w] + rest)[1..] == rest;
        }
      }
    }
  }

  /** The fields of a non-empty name are the name itself. */
  lemma {:induction false} FieldsOfName(s: string)
    requires IsName(s) && |s| > 0
    ensures FieldsFunc(s, IsSeparator) == [s]
  {
    var w := Word(s, IsSeparator);
    assert !IsSeparator(s[0]);
    assert |w| == |s|;
    assert s[|w|..] == "" && w == s;
    assert FieldsFunc(s, IsSeparator) == [w] + FieldsFunc(s[|w|..], IsSeparator);
  }

  /** A string made only of letters, digits and `-` comes back unchanged; so
      hyphens that are already there are kept, at either end as well. */
  lemma NormalizeKeepsNames(s: string)
    requires IsName(s)
    ensures NormalizeObjectName(s) == s
  {
    if |s| > 0 {
      FieldsOfName(s);
    }
  }

  lemma NormalizeIdempotent(s: string)
    ensures NormalizeObjectName(NormalizeObjectName(s)) == NormalizeObjectName(s)
  {
    NormalizeKeepsNames(NormalizeObjectName(s));
  }

  /** A leading run of separators vanishes. */
  lemma NormalizeDropsLeadingSeparator(c: char, t: string)
    requires IsSeparator(c)
    ensures NormalizeObjectName([c] + t) == NormalizeObjectName(t)
  {
    assert ([c] + t)[1..] == t;
  }

  /** `Word` of a name followed by a separator takes the whole name. */
  lemma WordAfterName(w: string, c: char, t: string)
    requires IsName(w) && IsSeparator(c)
    ensures Word(w + [c] + t, IsSeparator) == w
  {
    var s := w + [c] + t;
    assert s[|w|] == c;
  }

  /** Between two words, a run of separators becomes exactly one `-`; a
      trailing run (nothing normalizable after it) vanishes. */
  lemma NormalizeRun(w: string, c: char, t: string)
    requires IsName(w) && |w| > 0 && IsSeparator(c)
    ensures NormalizeObjectName(w + [c] + t) ==
            if NormalizeObjectName(t) == "" then w else w + "-" + NormalizeObjectName(t)
  {
    var s := w + [c] + t;
    WordAfterName(w, c, t);
    assert s[|w|..] == [c] + t;
    assert ([c] + t)[1..] == t;
    var rest := FieldsFunc(t, IsSeparator);
    assert FieldsFunc(s, IsSeparator) == [w] + rest;
    assert ([w] + rest)[1..] == rest;
    if |rest| > 0 {
      assert |Join(rest, "-")| > 0 by {
        JoinOfFieldsNonEmpty(rest);
      }
    }
  }

  lemma {:induction false} JoinOfFieldsNonEmpty(fields: seq<string>)
    requires |fields| > 0 && IsField(fields[0], IsSeparator)
    ensures |Join(fields, "-")| >= |fields[0]| > 0
  {
  }

  /** Hyphens already in a name survive normalization, also at its start. */
  lemma NormalizeKeepsLeadingHyphen()
    ensures NormalizeObjectName("-a") == "-a"
  {
    NormalizeKeepsNames("-a");
  }
}
