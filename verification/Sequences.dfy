/** Sequences without repetition, and taking an element out of one. */
module Sequences {
  ghost predicate NoRepeats(s: seq<nat>) {
    forall i, j :: 0 <= i < j < |s| ==> s[i] != s[j]
  }

  /** The sequence without the first occurrence of x. */
  function Without(s: seq<nat>, x: nat): seq<nat> {
    if s == [] then [] else if s[0] == x then s[1..] else [s[0]] + Without(s[1..], x)
  }

  lemma {:induction false} WithoutHas(s: seq<nat>, x: nat)
    requires NoRepeats(s)
    ensures NoRepeats(Without(s, x))
    ensures forall y :: y in Without(s, x) <==> y in s && y != x
  {
    if s != [] && s[0] != x {
      WithoutHas(s[1..], x);
      var w := Without(s[1..], x);
      var r := [s[0]] + w;
      forall y ensures y in r <==> y in s && y != x {
        assert y in r <==> y == s[0] || y in w;
        assert y in s <==> y == s[0] || y in s[1..];
      }
      forall i, j | 0 <= i < j < |r| ensures r[i] != r[j] {
        assert r[j] in w;
        assert r[j] in s[1..];
      }
    } else if s != [] {
      assert forall y :: y in s <==> y == s[0] || y in s[1..];
    }
  }

  /** Cutting at the first occurrence takes it out. */
  lemma {:induction false} WithoutAt(s: seq<nat>, k: nat)
    requires k < |s| && s[k] !in s[..k]
    ensures Without(s, s[k]) == s[..k] + s[k + 1..]
  {
    if k > 0 {
      assert s[0] in s[..k];
      assert s[1..][..k - 1] == s[..k][1..];
      WithoutAt(s[1..], k - 1);
      assert s[..k] == [s[0]] + s[1..][..k - 1] && s[k + 1..] == s[1..][k..];
    } else {
      assert s == [s[0]] + s[1..];
    }
  }
}
