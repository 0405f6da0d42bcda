/**
 * Linked lists without repetition as sequences, and taking an element off one.
 */
module Lists {
  predicate Distinct(s: seq<nat>) {
    forall i, j | 0 <= i < j < |s| :: s[i] != s[j]
  }

  // list_del of `x`.
  function Without(s: seq<nat>, x: nat): seq<nat> {
    if s == [] then [] else if s[0] == x then s[1..] else [s[0]] + Without(s[1..], x)
  }

  lemma {:induction false} WithoutDrops(s: seq<nat>, x: nat)
    requires Distinct(s)
    ensures Distinct(Without(s, x))
    ensures forall y: nat :: y in Without(s, x) <==> y in s && y != x
  {
    if s != [] {
      var rest := s[1..];
      WithoutDrops(rest, x);
      assert s == [s[0]] + rest;
      assert s[0] !in rest;
    }
  }

  lemma {:induction false} WithoutAt(s: seq<nat>, q: nat)
    requires Distinct(s) && q < |s|
    ensures Without(s, s[q]) == s[..q] + s[q + 1..]
  {
    if q > 0 {
      WithoutAt(s[1..], q - 1);
      assert s[1..][..q - 1] == s[1..q] && s[1..][q..] == s[q + 1..];
      assert s[..q] == [s[0]] + s[1..q];
    }
  }

  lemma PushKeeps(s: seq<nat>, x: nat)
    requires Distinct(s) && x !in s
    ensures Distinct([x] + s)
  {
  }
}
