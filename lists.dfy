/** The Python list idioms the algorithms rely on: negative indices, reversal, pop. */
module Lists {

  /** The element position Python's l[i] reads for -n <= i < n, n == len(l). */
  function PyIndex(n: nat, i: int): (k: nat)
    requires -(n as int) <= i < n
    ensures k < n
    ensures k == i || k == n + i
  {
    if i < 0 then n + i else i
  }

  /** list(reversed(s)), also the slice s[::-1]. */
  function Reversed<T>(s: seq<T>): (r: seq<T>)
    ensures |r| == |s|
    ensures forall i :: 0 <= i < |s| ==> r[i] == s[|s| - 1 - i]
  {
    if s == [] then [] else Reversed(s[1..]) + [s[0]]
  }

  lemma ReversedInvolutive<T>(s: seq<T>)
    ensures Reversed(Reversed(s)) == s
  {
  }

  /** The list that s.pop(i) leaves behind, for 0 <= i < len(s). */
  function RemoveAt<T>(s: seq<T>, i: nat): (r: seq<T>)
    requires i < |s|
    ensures |r| == |s| - 1
    ensures forall j :: 0 <= j < i ==> r[j] == s[j]
    ensures forall j :: i <= j < |r| ==> r[j] == s[j + 1]
    ensures multiset(r) == multiset(s) - multiset{s[i]}
  {
    assert s == s[..i] + [s[i]] + s[i + 1..];
    s[..i] + s[i + 1..]
  }

  /** pop only takes elements away: whatever is left was there before. */
  lemma RemoveAtSubset<T>(s: seq<T>, i: nat)
    requires i < |s|
    ensures forall x :: x in RemoveAt(s, i) ==> x in s
  {
    var r := RemoveAt(s, i);
    forall x | x in r
      ensures x in s
    {
      var j :| 0 <= j < |r| && r[j] == x;
      if j < i {
        assert s[j] == x;
      } else {
        assert s[j + 1] == x;
      }
    }
  }
}
