/** Shared result types and a few facts about sequences that several components need. */
module Wrappers {

  datatype Option<+T> = None | Some(value: T)

  datatype Result<+T, +E> = Success(value: T) | Failure(error: E)

  /** The set of the elements of a sequence. */
  function Elems<T>(s: seq<T>): set<T> {
    set x | x in s
  }

  /** No element occurs twice. */
  ghost predicate Distinct<T>(s: seq<T>) {
    forall i, j :: 0 <= i < j < |s| ==> s[i] != s[j]
  }

  function Last<T>(s: seq<T>): T
    requires s != []
  {
    s[|s| - 1]
  }

  function Filter<T(!new)>(f: T -> bool, s: seq<T>): (r: seq<T>)
    ensures forall x :: x in r <==> x in s && f(x)
  {
    if s == [] then [] else (if f(s[0]) then [s[0]] else []) + Filter(f, s[1..])
  }

  /** The first element with the property. */
  function Find<T(!new)>(f: T -> bool, s: seq<T>): (r: Option<T>)
    ensures r.None? ==> forall x :: x in s ==> !f(x)
    ensures r.Some? ==> r.value in s && f(r.value)
  {
    if s == [] then None else if f(s[0]) then Some(s[0]) else Find(f, s[1..])
  }

  predicate IsFirst<T(!new)>(f: T -> bool, s: seq<T>, i: nat) {
    i <= |s| && (i < |s| ==> f(s[i])) && forall k :: 0 <= k < i ==> !f(s[k])
  }

  lemma {:induction false} FirstExists<T(!new)>(f: T -> bool, s: seq<T>, n: nat)
    requires n <= |s| && (n < |s| ==> f(s[n]))
    ensures exists i: nat :: i <= |s| && IsFirst(f, s, i)
  {
    if k :| 0 <= k < n && f(s[k]) {
      FirstExists(f, s, k);
    } else {
      assert IsFirst(f, s, n);
    }
  }

  /** The index of the first element with the property, or the length. */
  function First<T(!new)>(f: T -> bool, s: seq<T>): (i: nat)
    ensures IsFirst(f, s, i)
  {
    FirstExists(f, s, |s|);
    var i: nat :| i <= |s| && IsFirst(f, s, i);
    i
  }

  lemma FirstIs<T(!new)>(f: T -> bool, s: seq<T>, i: nat)
    requires i <= |s| && (i < |s| ==> f(s[i])) && forall k :: 0 <= k < i ==> !f(s[k])
    ensures First(f, s) == i
  {
  }

  lemma FirstSkips<T(!new)>(f: T -> bool, a: seq<T>, b: seq<T>)
    requires forall x :: x in a ==> !f(x)
    ensures First(f, a + b) == |a| + First(f, b)
  {
    var i := |a| + First(f, b);
    forall k | 0 <= k < i
      ensures !f((a + b)[k])
    {
      if k < |a| {
        assert a[k] in a;
      }
    }
    FirstIs(f, a + b, i);
  }

  /** A block between two pieces: where its first element is found, and where a search that starts
      behind it and skips the rest of it goes on. */
  lemma FirstInSplice<T(!new)>(f: T -> bool, g: T -> bool, pre: seq<T>, block: seq<T>, post: seq<T>)
    requires (forall x :: x in pre ==> !f(x)) && block != [] && f(block[0])
    requires forall x :: x in block[1..] ==> !g(x)
    ensures var all := pre + block + post;
            && First(f, all) == |pre|
            && First(g, all[|pre| + 1..]) == |block| - 1 + First(g, post)
            && all[..|pre|] == pre && all[|pre|..|pre| + |block|] == block && all[|pre| + |block|..] == post
  {
    var all := pre + block + post;
    assert all == pre + (block + post);
    FirstSkips(f, pre, block + post);
    FirstIs(f, block + post, 0);
    assert all[|pre| + 1..] == block[1..] + post;
    FirstSkips(g, block[1..], post);
  }

  lemma Rejoin<T>(s: seq<T>, i: nat)
    requires i <= |s|
    ensures s[..i] + s[i..] == s
  {
  }

  lemma DropTwice<T>(s: seq<T>, i: nat, k: nat)
    requires i + k <= |s|
    ensures s[i..][k..] == s[i + k..]
  {
  }

  lemma TailOfSlice<T>(s: seq<T>, i: nat, e: nat, j: nat)
    requires i < e <= j <= |s|
    ensures forall x :: x in s[i..e][1..] ==> x in s[i + 1..j]
  {
  }
}
