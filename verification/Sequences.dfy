/** Inserting into and removing from sequences. */
module Sequences {

  function InsertAt<X>(s: seq<X>, i: nat, x: X): seq<X>
    requires i <= |s|
  {
    s[..i] + [x] + s[i..]
  }

  function RemoveAt<X>(s: seq<X>, i: nat): seq<X>
    requires i < |s|
  {
    s[..i] + s[i + 1..]
  }

  lemma InsertAtIs<X>(s: seq<X>, i: nat, x: X)
    requires i <= |s|
    ensures var r := InsertAt(s, i, x);
            && |r| == |s| + 1 && r[i] == x
            && (forall j :: 0 <= j < i ==> r[j] == s[j])
            && (forall j :: i < j < |r| ==> r[j] == s[j - 1])
  {
  }

  lemma RemoveAtIs<X>(s: seq<X>, i: nat)
    requires i < |s|
    ensures var r := RemoveAt(s, i);
            && |r| == |s| - 1
            && (forall j :: 0 <= j < i ==> r[j] == s[j])
            && (forall j :: i <= j < |r| ==> r[j] == s[j + 1])
  {
  }
}
