/** Sequence facts shared by the domain lists and the editor's bookkeeping. */
module Seqs {

  /** No element occurs twice: what a std::set insert loop checks. */
  predicate Distinct<T(==)>(s: seq<T>) {
    forall a, b :: 0 <= a < b < |s| ==> s[a] != s[b]
  }

  lemma DistinctAppend<T>(s: seq<T>, x: T)
    ensures Distinct(s + [x]) <==> Distinct(s) && x !in s
  {
    if Distinct(s) && x !in s {
      forall a, b | 0 <= a < b < |s| + 1
        ensures (s + [x])[a] != (s + [x])[b]
      {
        if b == |s| { assert (s + [x])[a] == s[a]; }
      }
    }
    if Distinct(s + [x]) {
      forall a, b | 0 <= a < b < |s| ensures s[a] != s[b] {
        assert s[a] == (s + [x])[a] && s[b] == (s + [x])[b];
      }
      forall k | 0 <= k < |s| ensures s[k] != x {
        assert s[k] == (s + [x])[k] && x == (s + [x])[|s|];
      }
    }
  }

  /** The elements of `s`, as a set. */
  function Members<T>(s: seq<T>): (r: set<T>)
    ensures forall i :: 0 <= i < |s| ==> s[i] in r
  {
    set x | x in s
  }

  /**
   * One step of a std::set insert loop over `s`, with `seen` holding the first
   * j elements: a repeat means `s` has a duplicate, anything else extends the
   * duplicate-free prefix.
   */
  lemma SeenStep<T>(s: seq<T>, j: nat, seen: set<T>)
    requires j < |s| && seen == Members(s[..j]) && Distinct(s[..j])
    ensures s[j] in seen ==> !Distinct(s)
    ensures s[j] !in seen ==> Distinct(s[..j + 1]) && seen + {s[j]} == Members(s[..j + 1])
  {
    assert s[..j + 1] == s[..j] + [s[j]];
    DistinctAppend(s[..j], s[j]);
    if s[j] in seen {
      var k :| 0 <= k < j && s[..j][k] == s[j];
      assert s[k] == s[j];
    }
  }

  /** The end of such a loop: the prefix is the whole sequence. */
  lemma SeenAll<T>(s: seq<T>, seen: set<T>)
    requires seen == Members(s[..|s|]) && Distinct(s[..|s|])
    ensures Distinct(s) && forall x :: x in seen <==> x in s
  {
    assert s[..|s|] == s;
  }

  /** A sequence has no more distinct elements than positions. */
  lemma {:induction false} MembersBound<T>(s: seq<T>)
    ensures |Members(s)| <= |s|
  {
    if s != [] {
      var init := s[..|s| - 1];
      MembersBound(init);
      assert Members(s) == Members(init) + {s[|s| - 1]} by {
        assert s == init + [s[|s| - 1]];
      }
    }
  }

  /** Dropping one of two equal elements leaves the same elements. */
  lemma MembersDropRepeat<T>(s: seq<T>, i: nat, j: nat)
    requires i < j < |s| && s[i] == s[j]
    ensures Members(s[..j] + s[j + 1..]) == Members(s)
  {
    var t := s[..j] + s[j + 1..];
    forall x | x in Members(s) ensures x in Members(t) {
      var k :| 0 <= k < |s| && s[k] == x;
      if k < j {
        assert t[k] == x;
      } else if k == j {
        assert t[i] == x;
      } else {
        assert t[k - 1] == x;
      }
    }
    forall x | x in Members(t) ensures x in Members(s) {
      var k :| 0 <= k < |t| && t[k] == x;
      if k < j {
        assert s[k] == x;
      } else {
        assert s[k + 1] == x;
      }
    }
  }

  /** `s` with every occurrence of `x` taken out (std::list::remove). */
  function Without<T(==)>(s: seq<T>, x: T): (r: seq<T>)
    ensures x !in r && |r| <= |s|
    ensures forall i :: 0 <= i < |r| ==> r[i] in s
    ensures forall i :: 0 <= i < |s| && s[i] != x ==> s[i] in r
  {
    if s == [] then []
    else if s[0] == x then Without(s[1..], x)
    else [s[0]] + Without(s[1..], x)
  }

  /** Removing what is not there changes nothing. */
  lemma {:induction false} WithoutAbsent<T>(s: seq<T>, x: T)
    requires x !in s
    ensures Without(s, x) == s
  {
    if s != [] {
      assert x !in s[1..];
      WithoutAbsent(s[1..], x);
      assert s == [s[0]] + s[1..];
    }
  }

  /** Removing what was just appended, and was not there before, restores the list. */
  lemma {:induction false} WithoutAppended<T>(s: seq<T>, x: T)
    requires x !in s
    ensures Without(s + [x], x) == s
  {
    if s != [] {
      assert (s + [x])[1..] == s[1..] + [x];
      WithoutAppended(s[1..], x);
    }
  }

}
