/** Python's list operations, as far as the server relies on them. */
module Lists {
  datatype Option<+T> = None | Some(value: T)

  /** No element occurs twice. */
  ghost predicate NoDup<T>(s: seq<T>) {
    s == [] || (s[|s| - 1] !in s[..|s| - 1] && NoDup(s[..|s| - 1]))
  }

  /** list.remove: drops the first occurrence of x. */
  function Without<T(==)>(s: seq<T>, x: T): (r: seq<T>)
    requires x in s
    ensures |r| == |s| - 1
    ensures forall y :: y in r ==> y in s
    ensures forall y :: y in s && y != x ==> y in r
    ensures NoDup(s) ==> NoDup(r) && x !in r
  {
    var last := |s| - 1;
    assert s == s[..last] + [s[last]];
    if x in s[..last] then
      var r := Without(s[..last], x);
      assert (r + [s[last]])[..|r|] == r;
      r + [s[last]]
    else s[..last]
  }

  /** It is the first occurrence that goes, and the others stay in order. */
  lemma {:induction false} FirstGoes<T>(s: seq<T>, x: T, i: nat)
    requires i < |s| && s[i] == x && x !in s[..i]
    ensures Without(s, x) == s[..i] + s[i + 1..]
  {
    var last := |s| - 1;
    if i < last {
      var front := s[..last];
      assert front[i] == x && front[..i] == s[..i];
      FirstGoes(front, x, i);
      assert s == front + [s[last]];
    }
  }

  /** s without x, if it is there. */
  function Drop<T(==)>(s: seq<T>, x: T): seq<T> { if x in s then Without(s, x) else s }

  lemma AppendNoDup<T>(s: seq<T>, x: T)
    requires NoDup(s) && x !in s
    ensures NoDup(s + [x])
  {
    assert (s + [x])[..|s|] == s;
  }

  lemma SomeMember<T>(s: seq<T>)
    ensures s != [] ==> s[0] in s
  {
  }

  /** NoDup in terms of indices. */
  lemma {:induction false} NoDupIndex<T>(s: seq<T>, i: nat, j: nat)
    requires NoDup(s) && i < |s| && j < |s| && s[i] == s[j]
    ensures i == j
  {
    var last := |s| - 1;
    if i < last && j < last {
      NoDupIndex(s[..last], i, j);
    }
  }

  lemma NoDupDiffer<T>(s: seq<T>, i: nat, j: nat)
    requires NoDup(s) && i < j < |s|
    ensures s[i] != s[j]
  {
    if s[i] == s[j] { NoDupIndex(s, i, j); }
  }
}
