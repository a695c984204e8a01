/** The e-mail check of the admin form: `/\S+@\S+\.\S+/.test(email)`. The
    regular expression is not anchored, so it succeeds when SOME substring of
    the address has the shape `x@y.z` with `x`, `y`, `z` non-empty runs of
    non-space characters. */
module EmailPattern {
  import opened Text

  /** `t` matches `\S+`: it is non-empty and holds no white space. */
  ghost predicate NonSpaceRun(t: string) {
    |t| > 0 && forall k :: 0 <= k < |t| ==> !IsSpace(t[k])
  }

  /** `t` as a whole matches `\S+@\S+\.\S+`, reading the `@` at `i` and the
      `.` at `j`. */
  ghost predicate SplitsAt(t: string, i: int, j: int) {
    && 0 <= i < j < |t|
    && t[i] == '@' && t[j] == '.'
    && NonSpaceRun(t[..i]) && NonSpaceRun(t[i + 1..j]) && NonSpaceRun(t[j + 1..])
  }

  ghost predicate WholeMatch(t: string) {
    exists i, j :: SplitsAt(t, i, j)
  }

  /** What `test` decides: some substring of `s` matches the pattern. */
  ghost predicate PatternFound(s: string) {
    exists a, b :: 0 <= a <= b <= |s| && WholeMatch(s[a..b])
  }

  /** The shortest match around an `@` at `i` and a `.` at `j`: one non-space
      character before the `@`, non-space characters from the `@` up to and
      including the one after the `.`. */
  ghost predicate Occurrence(s: string, i: int, j: int) {
    && 0 < i && i + 1 < j && j + 1 < |s|
    && s[i] == '@' && s[j] == '.' && !IsSpace(s[i - 1])
    && forall m :: i < m <= j + 1 ==> !IsSpace(s[m])
  }

  /** From index `k` on, `s` continues with `\S+\.\S`. */
  predicate DomainFrom(s: string, k: nat)
    decreases |s| - k
  {
    && k < |s| && !IsSpace(s[k])
    && ((k + 2 < |s| && s[k + 1] == '.' && !IsSpace(s[k + 2])) || DomainFrom(s, k + 1))
  }

  /** A match whose `@` is at index `i`. */
  predicate MatchAt(s: string, i: nat) {
    0 < i < |s| && s[i] == '@' && !IsSpace(s[i - 1]) && DomainFrom(s, i + 1)
  }

  /** Some match has its `@` at index `i` or later. */
  predicate FoundFrom(s: string, i: nat)
    decreases |s| - i
  {
    i < |s| && (MatchAt(s, i) || FoundFrom(s, i + 1))
  }

  /** `/\S+@\S+\.\S+/.test(s)`. */
  predicate Test(s: string) {
    FoundFrom(s, 0)
  }

  lemma {:induction false} DomainFromIff(s: string, k: nat)
    ensures DomainFrom(s, k) <==>
      exists j :: k < j && j + 1 < |s| && s[j] == '.' && forall m :: k <= m <= j + 1 ==> !IsSpace(s[m])
    decreases |s| - k
  {
    if DomainFrom(s, k) {
      if k + 2 < |s| && s[k + 1] == '.' && !IsSpace(s[k + 2]) {
        var j := k + 1;
        assert k < j && j + 1 < |s| && s[j] == '.' && forall m :: k <= m <= j + 1 ==> !IsSpace(s[m]);
      } else {
        DomainFromIff(s, k + 1);
        var j :| k + 1 < j && j + 1 < |s| && s[j] == '.' && forall m :: k + 1 <= m <= j + 1 ==> !IsSpace(s[m]);
        assert forall m :: k <= m <= j + 1 ==> !IsSpace(s[m]);
      }
    }
    if j :| k < j && j + 1 < |s| && s[j] == '.' && forall m :: k <= m <= j + 1 ==> !IsSpace(s[m]) {
      assert !IsSpace(s[k]);
      if j > k + 1 {
        assert forall m :: k + 1 <= m <= j + 1 ==> !IsSpace(s[m]);
        DomainFromIff(s, k + 1);
      } else {
        assert !IsSpace(s[k + 2]);
      }
    }
  }

  lemma MatchAtIff(s: string, i: nat)
    ensures MatchAt(s, i) <==> exists j :: Occurrence(s, i, j)
  {
    if 0 < i < |s| {
      DomainFromIff(s, i + 1);
      if MatchAt(s, i) {
        var j :| i + 1 < j && j + 1 < |s| && s[j] == '.' && forall m :: i + 1 <= m <= j + 1 ==> !IsSpace(s[m]);
        assert Occurrence(s, i, j);
      }
      if j :| Occurrence(s, i, j) {
        assert forall m :: i + 1 <= m <= j + 1 ==> !IsSpace(s[m]);
      }
    }
  }

  lemma {:induction false} FoundFromIff(s: string, i: nat)
    ensures FoundFrom(s, i) <==> exists a, j :: i <= a && Occurrence(s, a, j)
    decreases |s| - i
  {
    if i < |s| {
      MatchAtIff(s, i);
      FoundFromIff(s, i + 1);
      if a, j :| i <= a && Occurrence(s, a, j) {
        if a > i {
          assert i + 1 <= a && Occurrence(s, a, j);
        }
      }
    }
  }

  /** An occurrence is the index form of a matching substring, and back. */
  lemma OccurrenceIffFound(s: string)
    ensures (exists i, j :: Occurrence(s, i, j)) <==> PatternFound(s)
  {
    if i, j :| Occurrence(s, i, j) {
      var a, b := i - 1, j + 2;
      var t := s[a..b];
      assert t[..1] == [s[i - 1]];
      assert t[2..j - a] == s[i + 1..j];
      assert t[j - a + 1..] == [s[j + 1]];
      assert SplitsAt(t, 1, j - a);
      assert WholeMatch(s[a..b]);
    }
    if PatternFound(s) {
      var a, b :| 0 <= a <= b <= |s| && WholeMatch(s[a..b]);
      var t := s[a..b];
      var i', j' :| SplitsAt(t, i', j');
      var i, j := a + i', a + j';
      assert t[..i'][i' - 1] == s[i - 1];
      assert t[j' + 1..][0] == s[j + 1];
      forall m | i < m <= j + 1
        ensures !IsSpace(s[m])
      {
        if m < j {
          assert t[i' + 1..j'][m - i - 1] == s[m];
        }
      }
      assert Occurrence(s, i, j);
    }
  }

  /** The scan decides the regular expression's `test`, in both directions. */
  lemma TestIff(s: string)
    ensures Test(s) <==> PatternFound(s)
  {
    FoundFromIff(s, 0);
    OccurrenceIffFound(s);
  }

  /** The check on a few addresses: a plain address passes, an address
      buried in other text passes because nothing anchors the pattern, and
      a domain without a dot or a space before the `@` fails. */
  lemma Examples()
    ensures Test("a@b.c")
    ensures Test("mail x@y.z now")
    ensures !Test("a@b")
    ensures !Test("a @b.c")
    ensures !Test("")
  {
    assert MatchAt("a@b.c", 1);
    assert MatchAt("mail x@y.z now", 6);
    assert !MatchAt("a@b", 1);
  }
}
