/** Character-level helpers the views rely on: Foundation's case-insensitive
    substring search and trimming of whitespace, and the standard library's `<`
    on names. All three are approximations on characters of the library rules. */
module Text {

  /** ASCII lower-casing; every other character is left as it is. */
  function ToLower(c: char): char
  {
    if 'A' <= c <= 'Z' then (c as int + 32) as char else c
  }

  /** The string with every character lower-cased. */
  function Fold(s: string): string
  {
    if s == [] then [] else [ToLower(s[0])] + Fold(s[1..])
  }

  lemma {:induction false} FoldChars(s: string)
    ensures |Fold(s)| == |s|
    ensures forall i :: 0 <= i < |s| ==> Fold(s)[i] == ToLower(s[i])
  {
    if s != [] {
      FoldChars(s[1..]);
    }
  }

  predicate IsPrefix(p: string, s: string)
  {
    |p| <= |s| && s[..|p|] == p
  }

  /** `p` occurs in `s` as a contiguous run of characters. */
  predicate Contains(s: string, p: string)
    decreases |s|
  {
    IsPrefix(p, s) || (s != [] && Contains(s[1..], p))
  }

  /** `p` occurs in `s` starting at index `i`. */
  predicate OccursAt(s: string, p: string, i: int)
  {
    0 <= i && i + |p| <= |s| && s[i..i + |p|] == p
  }

  /** Contains agrees with the positional definition of a substring. */
  lemma {:induction false} ContainsIffOccurs(s: string, p: string)
    ensures Contains(s, p) <==> exists i :: OccursAt(s, p, i)
  {
    if IsPrefix(p, s) {
      assert OccursAt(s, p, 0);
    } else if s == [] {
    } else {
      ContainsIffOccurs(s[1..], p);
      if Contains(s, p) {
        var i :| OccursAt(s[1..], p, i);
        assert s[i + 1..i + 1 + |p|] == s[1..][i..i + |p|];
        assert OccursAt(s, p, i + 1);
      }
      if exists i :: OccursAt(s, p, i) {
        var i :| OccursAt(s, p, i);
        assert i != 0 by { assert s[..|p|] == s[0..0 + |p|]; }
        assert s[1..][i - 1..i - 1 + |p|] == s[i..i + |p|];
        assert OccursAt(s[1..], p, i - 1);
      }
    }
  }

  /** `p` is a prefix of `s` when letters are compared without regard to case. */
  predicate PrefixIgnoringCase(p: string, s: string)
  {
    p == [] || (s != [] && ToLower(p[0]) == ToLower(s[0]) && PrefixIgnoringCase(p[1..], s[1..]))
  }

  /** `p` occurs somewhere in `s`, letters compared without regard to case. */
  predicate OccursIgnoringCase(s: string, p: string)
  {
    PrefixIgnoringCase(p, s) || (s != [] && OccursIgnoringCase(s[1..], p))
  }

  /** `String.localizedCaseInsensitiveContains`, folding ASCII letters only. Like
      Foundation's search, an empty needle is never found. */
  predicate ContainsIgnoringCase(s: string, p: string)
  {
    p != [] && OccursIgnoringCase(s, p)
  }

  lemma {:induction false} PrefixIgnoringCaseIff(p: string, s: string)
    ensures PrefixIgnoringCase(p, s) <==> IsPrefix(Fold(p), Fold(s))
  {
    FoldChars(p);
    FoldChars(s);
    if p != [] && s != [] {
      PrefixIgnoringCaseIff(p[1..], s[1..]);
      FoldChars(p[1..]);
      FoldChars(s[1..]);
      assert Fold(p) == [ToLower(p[0])] + Fold(p[1..]);
      assert Fold(s) == [ToLower(s[0])] + Fold(s[1..]);
      if IsPrefix(Fold(p), Fold(s)) {
        assert Fold(s)[..|Fold(p)|][0] == Fold(p)[0];
        assert Fold(s[1..])[..|Fold(p[1..])|] == Fold(s)[..|Fold(p)|][1..];
      }
      if PrefixIgnoringCase(p, s) {
        assert Fold(s)[..|Fold(p)|] == [ToLower(s[0])] + Fold(s[1..])[..|Fold(p[1..])|];
      }
    }
  }

  /** The case-blind search agrees with a plain search of the lower-cased strings. */
  lemma {:induction false} OccursIgnoringCaseIff(s: string, p: string)
    ensures OccursIgnoringCase(s, p) <==> Contains(Fold(s), Fold(p))
  {
    PrefixIgnoringCaseIff(p, s);
    if s != [] {
      OccursIgnoringCaseIff(s[1..], p);
      assert Fold(s)[1..] == Fold(s[1..]);
    }
  }

  lemma FoldIdempotent(s: string)
    ensures Fold(Fold(s)) == Fold(s)
  {
    FoldChars(s);
    FoldChars(Fold(s));
  }

  /** Changing the case of either the name or the search term does not change
      whether it matches. */
  lemma CaseOfEitherSideIgnored(s: string, p: string)
    ensures ContainsIgnoringCase(Fold(s), p) == ContainsIgnoringCase(s, p)
    ensures ContainsIgnoringCase(s, Fold(p)) == ContainsIgnoringCase(s, p)
  {
    FoldIdempotent(s);
    FoldIdempotent(p);
    FoldChars(p);
    OccursIgnoringCaseIff(s, p);
    OccursIgnoringCaseIff(Fold(s), p);
    OccursIgnoringCaseIff(s, Fold(p));
  }

  /** A non-empty term is found exactly when its lower-cased form occurs, at some
      index, in the lower-cased name (so "MARIO" finds "Super Mario Bros."). */
  lemma ContainsIgnoringCaseIff(name: string, term: string)
    ensures ContainsIgnoringCase(name, term) <==> term != [] && exists i :: OccursAt(Fold(name), Fold(term), i)
  {
    OccursIgnoringCaseIff(name, term);
    ContainsIffOccurs(Fold(name), Fold(term));
  }

  /** The characters `trimmingCharacters(in: .whitespaces)` removes, restricted to ASCII. */
  predicate IsWhitespace(c: char)
  {
    c == ' ' || c == '\t'
  }

  function TrimLeading(s: string): (r: string)
    ensures r == [] <==> forall i :: 0 <= i < |s| ==> IsWhitespace(s[i])
    ensures r != [] ==> !IsWhitespace(r[0])
  {
    if s != [] && IsWhitespace(s[0]) then TrimLeading(s[1..]) else s
  }

  function TrimTrailing(s: string): (r: string)
    ensures r == [] <==> forall i :: 0 <= i < |s| ==> IsWhitespace(s[i])
    ensures r != [] ==> !IsWhitespace(r[|r| - 1])
  {
    if s != [] && IsWhitespace(s[|s| - 1]) then TrimTrailing(s[..|s| - 1]) else s
  }

  /** `trimmingCharacters(in: .whitespaces)`: whitespace removed from both ends. */
  function Trim(s: string): string
  {
    TrimTrailing(TrimLeading(s))
  }

  /** Trimming leaves nothing exactly when every character is whitespace. */
  lemma TrimEmptyIffBlank(s: string)
    ensures Trim(s) == [] <==> forall i :: 0 <= i < |s| ==> IsWhitespace(s[i])
  {
    var t := TrimLeading(s);
    if t != [] {
      assert !IsWhitespace(t[0]);
    }
  }

  /** Trimming the front drops a run of whitespace and keeps the rest as it was. */
  lemma {:induction false} TrimLeadingDropsBlankPrefix(s: string)
    ensures |TrimLeading(s)| <= |s|
    ensures forall j :: 0 <= j < |TrimLeading(s)| ==> TrimLeading(s)[j] == s[|s| - |TrimLeading(s)| + j]
    ensures forall i :: 0 <= i < |s| - |TrimLeading(s)| ==> IsWhitespace(s[i])
  {
    if s != [] && IsWhitespace(s[0]) {
      var t := s[1..];
      TrimLeadingDropsBlankPrefix(t);
      var r := TrimLeading(t);
      assert TrimLeading(s) == r;
      forall j | 0 <= j < |r|
        ensures r[j] == s[|s| - |r| + j]
      {
        assert t[|t| - |r| + j] == s[|s| - |r| + j];
      }
      forall i | 0 <= i < |s| - |r|
        ensures IsWhitespace(s[i])
      {
        if i > 0 {
          assert s[i] == t[i - 1];
        }
      }
    }
  }

  /** Trimming the back drops a run of whitespace and keeps the rest as it was. */
  lemma {:induction false} TrimTrailingDropsBlankSuffix(s: string)
    ensures |TrimTrailing(s)| <= |s|
    ensures forall j :: 0 <= j < |TrimTrailing(s)| ==> TrimTrailing(s)[j] == s[j]
    ensures forall i :: |TrimTrailing(s)| <= i < |s| ==> IsWhitespace(s[i])
  {
    if s != [] && IsWhitespace(s[|s| - 1]) {
      var t := s[..|s| - 1];
      TrimTrailingDropsBlankSuffix(t);
      var r := TrimTrailing(t);
      assert TrimTrailing(s) == r;
      forall j | 0 <= j < |r|
        ensures r[j] == s[j]
      {
        assert t[j] == s[j];
      }
      forall i | |r| <= i < |s|
        ensures IsWhitespace(s[i])
      {
        if i < |s| - 1 {
          assert s[i] == t[i];
        }
      }
    }
  }

  /** Swift's `<` on `String`, taken as lexicographic order on code points. */
  predicate Below(a: string, b: string)
  {
    if a == [] then b != []
    else if b == [] then false
    else if a[0] != b[0] then a[0] < b[0]
    else Below(a[1..], b[1..])
  }

  lemma {:induction false} BelowIrreflexive(a: string)
    ensures !Below(a, a)
  {
    if a != [] {
      BelowIrreflexive(a[1..]);
    }
  }

  lemma {:induction false} BelowTransitive(a: string, b: string, c: string)
    requires Below(a, b) && Below(b, c)
    ensures Below(a, c)
  {
    if a != [] && b != [] && c != [] && a[0] == b[0] == c[0] {
      BelowTransitive(a[1..], b[1..], c[1..]);
    }
  }

  lemma {:induction false} BelowTotal(a: string, b: string)
    requires a != b
    ensures Below(a, b) || Below(b, a)
  {
    if a != [] && b != [] && a[0] == b[0] {
      assert a == [a[0]] + a[1..] && b == [b[0]] + b[1..];
      BelowTotal(a[1..], b[1..]);
    }
  }

  lemma BelowAsymmetric(a: string, b: string)
    requires Below(a, b)
    ensures !Below(b, a)
  {
    if Below(b, a) {
      BelowTransitive(a, b, a);
      BelowIrreflexive(a);
    }
  }

  /** "Not below" is transitive: the order sorting relies on. */
  lemma NotBelowTransitive(a: string, b: string, c: string)
    requires !Below(b, a) && !Below(c, b)
    ensures !Below(c, a)
  {
    if a != b && b != c {
      BelowTotal(a, b);
      BelowTotal(b, c);
      BelowTransitive(a, b, c);
      if Below(c, a) {
        BelowTransitive(a, b, c);
        BelowTransitive(c, a, c);
        BelowIrreflexive(c);
      }
    } else if a == b {
    } else {
    }
  }
}
