/** Case-insensitive substring search on byte strings. */
module Text {
  import opened Basics

  /** Lower-case an ASCII letter; every other byte is left alone. */
  function Lower(b: bv8): bv8 {
    if 0x41 <= b <= 0x5A then b | 0x20 else b
  }

  function LowerAll(s: Bytes): (r: Bytes)
    ensures |r| == |s| && forall i | 0 <= i < |s| :: r[i] == Lower(s[i])
  {
    seq(|s|, i requires 0 <= i < |s| => Lower(s[i]))
  }

  /** `search` occurs in `base` at position `i`, ignoring case. */
  ghost predicate OccursAt(base: Bytes, search: Bytes, i: nat) {
    i + |search| <= |base| && LowerAll(base)[i..i + |search|] == LowerAll(search)
  }

  ghost predicate Contains(base: Bytes, search: Bytes) {
    exists i: nat :: OccursAt(base, search, i)
  }

  lemma OccursBytewise(base: Bytes, search: Bytes, i: nat)
    requires i + |search| <= |base|
    ensures OccursAt(base, search, i) <==> forall j | 0 <= j < |search| :: Lower(base[i + j]) == Lower(search[j])
  {
    var window := LowerAll(base)[i..i + |search|];
    assert forall j | 0 <= j < |search| :: window[j] == Lower(base[i + j]);
    if forall j | 0 <= j < |search| :: Lower(base[i + j]) == Lower(search[j]) {
      assert window == LowerAll(search);
    } else {
      var j :| 0 <= j < |search| && Lower(base[i + j]) != Lower(search[j]);
      assert window[j] != LowerAll(search)[j];
    }
  }

  /** Equal bytes, or the two cases of one ASCII letter. */
  predicate SameLetter(x: bv8, y: bv8) {
    x == y || (0x41 <= x <= 0x5A && y == x + 0x20) || (0x41 <= y <= 0x5A && x == y + 0x20)
  }

  /** Every byte of `search` matches the byte `i` places further in `base`. */
  predicate MatchesAt(base: Bytes, search: Bytes, i: nat) {
    i + |search| <= |base| && forall j | 0 <= j < |search| :: SameLetter(base[i + j], search[j])
  }

  lemma LowerIsSameLetter(x: bv8, y: bv8)
    ensures Lower(x) == Lower(y) <==> SameLetter(x, y)
  {
  }

  /** Byte by byte: some window of `base` equals `search` but for the case of ASCII letters. */
  lemma ContainsBytewise(base: Bytes, search: Bytes)
    ensures Contains(base, search) <==> exists i: nat :: MatchesAt(base, search, i)
  {
    forall i: nat
      ensures OccursAt(base, search, i) <==> MatchesAt(base, search, i)
    {
      if i + |search| <= |base| {
        OccursBytewise(base, search, i);
        forall j | 0 <= j < |search|
          ensures Lower(base[i + j]) == Lower(search[j]) <==> SameLetter(base[i + j], search[j])
        {
          LowerIsSameLetter(base[i + j], search[j]);
        }
      }
    }
  }

  /** `_containsIgnoreCase`: true exactly when some window of `base` is `search` up to ASCII case. */
  method ContainsIgnoreCase(base: Bytes, search: Bytes) returns (r: bool)
    ensures r <==> Contains(base, search)
    ensures r <==> exists i: nat :: MatchesAt(base, search, i)
  {
    ContainsBytewise(base, search);
    if |search| == 0 {
      assert LowerAll(base)[0..0] == LowerAll(search);
      assert OccursAt(base, search, 0);
      return true;
    }
    if |base| < |search| {
      return false;
    }
    var i := 0;
    while i <= |base| - |search|
      invariant 0 <= i <= |base| - |search| + 1
      invariant forall n: nat | n < i :: !OccursAt(base, search, n)
    {
      var found := true;
      var j := 0;
      while j < |search|
        invariant 0 <= j <= |search|
        invariant found && forall m | 0 <= m < j :: Lower(base[i + m]) == Lower(search[m])
      {
        var b, s := base[i + j], search[j];
        if b >= 0x41 && b <= 0x5A {
          b := b | 0x20;
        }
        if s >= 0x41 && s <= 0x5A {
          s := s | 0x20;
        }
        if b != s {
          assert Lower(base[i + j]) != Lower(search[j]);
          found := false;
          break;
        }
        j := j + 1;
      }
      OccursBytewise(base, search, i);
      if found {
        return true;
      }
      i := i + 1;
    }
    return false;
  }

  // ---- The relation ----

  lemma ContainsItself(s: Bytes)
    ensures Contains(s, s)
  {
    assert LowerAll(s)[0..|s|] == LowerAll(s);
    assert OccursAt(s, s, 0);
  }

  lemma ContainsIsTransitive(a: Bytes, b: Bytes, c: Bytes)
    requires Contains(a, b) && Contains(b, c)
    ensures Contains(a, c)
  {
    var i: nat :| OccursAt(a, b, i);
    var j: nat :| OccursAt(b, c, j);
    var la := LowerAll(a);
    assert la[i..i + |b|][j..j + |c|] == la[i + j..i + j + |c|];
    assert OccursAt(a, c, i + j);
  }

  lemma LowerTwice(s: Bytes)
    ensures LowerAll(LowerAll(s)) == LowerAll(s)
  {
    assert forall b: bv8 :: Lower(Lower(b)) == Lower(b);
  }

  /** Lower-casing either side changes nothing. */
  lemma ContainsIgnoresCase(base: Bytes, search: Bytes)
    ensures Contains(LowerAll(base), search) <==> Contains(base, search)
    ensures Contains(base, LowerAll(search)) <==> Contains(base, search)
  {
    LowerTwice(base);
    LowerTwice(search);
    assert forall i: nat :: OccursAt(LowerAll(base), search, i) <==> OccursAt(base, search, i);
    assert forall i: nat :: OccursAt(base, LowerAll(search), i) <==> OccursAt(base, search, i);
  }

  /** A string is found in anything written around it, in whatever case. */
  lemma ContainsMiddle(before: Bytes, s: Bytes, after: Bytes, search: Bytes)
    requires LowerAll(s) == LowerAll(search)
    ensures Contains(before + s + after, search)
  {
    var base := before + s + after;
    assert |s| == |LowerAll(s)| == |search|;
    assert LowerAll(base)[|before|..|before| + |search|] == LowerAll(s);
    assert OccursAt(base, search, |before|);
  }
}
