/** Sequence helpers shared by the catalog model and the drop-batch parser. */
module Seqs {

  /** No element occurs twice. */
  predicate NoDup<T(==)>(s: seq<T>)
  {
    forall i, j :: 0 <= i < j < |s| ==> s[i] != s[j]
  }

  /** The position of the first occurrence of x in s, or -1 when there is none,
      as JavaScript's Array.prototype.indexOf answers. */
  function IndexOf<T(==)>(s: seq<T>, x: T): (i: int)
    ensures -1 <= i < |s|
    ensures i == -1 <==> x !in s
    ensures 0 <= i ==> s[i] == x && x !in s[..i]
  {
    if s == [] then -1
    else if s[0] == x then 0
    else
      var j := IndexOf(s[1..], x);
      assert s == [s[0]] + s[1..];
      if j == -1 then -1
      else
        assert s[..j + 1] == [s[0]] + s[1..][..j];
        j + 1
  }

  /** s with every element of ts taken out, in the order of s. */
  function Without<T(==,!new)>(s: seq<T>, ts: seq<T>): (r: seq<T>)
    ensures |r| <= |s|
    ensures forall x :: x in r <==> x in s && x !in ts
    ensures NoDup(s) ==> NoDup(r)
    ensures (exists i :: 0 <= i < |s| && s[i] in ts) ==> |r| < |s|
    ensures (forall i :: 0 <= i < |s| ==> s[i] in ts) ==> r == []
  {
    if s == [] then []
    else
      var rest := Without(s[1..], ts);
      assert forall i :: 1 <= i < |s| ==> s[i] == s[1..][i - 1];
      if s[0] in ts then rest
      else
        assert NoDup(s) ==> s[0] !in s[1..];
        [s[0]] + rest
  }

  /** Without keeps the order of s: the survivors of a prefix come before the survivors
      of what follows it. */
  lemma {:induction false} WithoutAppend<T(!new)>(a: seq<T>, b: seq<T>, ts: seq<T>)
    ensures Without(a + b, ts) == Without(a, ts) + Without(b, ts)
  {
    if a == [] {
      assert a + b == b;
    } else {
      assert (a + b)[0] == a[0] && (a + b)[1..] == a[1..] + b;
      WithoutAppend(a[1..], b, ts);
    }
  }
}
