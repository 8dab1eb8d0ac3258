/**
 A JavaScript `Set` as the relay uses it for a room's clients: a sequence
 without duplicates whose order is insertion order. `add` of a present
 element changes nothing; `delete` takes the element out and keeps the
 order of the rest.
 */
module ClientSet {

  import opened Protocol

  predicate NoDup(s: seq<ConnId>) {
    forall i, j :: 0 <= i < j < |s| ==> s[i] != s[j]
  }

  /** `Set.prototype.add`. */
  function Add(s: seq<ConnId>, x: ConnId): (r: seq<ConnId>)
    ensures forall y :: y in r <==> y in s || y == x
    ensures NoDup(s) ==> NoDup(r)
    ensures |s| <= |r| && r[..|s|] == s
    ensures x in s ==> r == s
    ensures NoDup(s) && x !in s ==> r == s + [x]
  {
    if x in s then s else s + [x]
  }

  /** `Set.prototype.delete`. */
  function Delete(s: seq<ConnId>, x: ConnId): (r: seq<ConnId>)
    ensures forall y :: y in r <==> y in s && y != x
    ensures NoDup(s) ==> NoDup(r)
    ensures x !in s ==> r == s
    ensures NoDup(s) && x in s ==> |r| == |s| - 1
  {
    if s == [] then []
    else if s[0] == x then Delete(s[1..], x)
    else
      assert NoDup(s) ==> s[0] !in s[1..];
      [s[0]] + Delete(s[1..], x)
  }

  /** Deleting the element at position k from a duplicate-free sequence
      closes the gap and keeps every other element in its order. */
  lemma {:induction false} DeleteSplices(s: seq<ConnId>, k: nat)
    requires NoDup(s) && k < |s|
    ensures Delete(s, s[k]) == s[..k] + s[k + 1..]
  {
    if k == 0 {
      assert s[0] !in s[1..];
      assert s[1..] == s[..0] + s[1..];
    } else {
      assert s[1..][k - 1] == s[k];
      DeleteSplices(s[1..], k - 1);
      assert s[..k] == [s[0]] + s[1..][..k - 1];
      assert s[k + 1..] == s[1..][k..];
    }
  }

  /** Deleting from a concatenation deletes from each part. */
  lemma {:induction false} DeleteAppend(s: seq<ConnId>, t: seq<ConnId>, x: ConnId)
    ensures Delete(s + t, x) == Delete(s, x) + Delete(t, x)
  {
    if s == [] {
      assert s + t == t;
    } else {
      var u := s + t;
      assert u[0] == s[0] && u[1..] == s[1..] + t;
      DeleteAppend(s[1..], t, x);
      if s[0] == x {
        assert Delete(u, x) == Delete(u[1..], x);
      } else {
        assert Delete(u, x) == [s[0]] + Delete(u[1..], x);
      }
    }
  }
}
