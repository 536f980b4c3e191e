/** Dropping and inserting single elements of a sequence, found by tests. The profile editor works
    this way on the lines of a block. */
module Edits {
  import opened Wrappers

  function DropFirst<T(!new)>(test: T -> bool, s: seq<T>): seq<T> {
    var i := First(test, s);
    if i == |s| then s else s[..i] + s[i + 1..]
  }

  function InsertAfterFirst<T(!new)>(test: T -> bool, x: T, s: seq<T>): seq<T> {
    var i := First(test, s);
    if i == |s| then s else s[..i + 1] + [x] + s[i + 1..]
  }

  /** Drop the first key; when switching on, put the mark below the first name. */
  function Switch<T(!new)>(key: T -> bool, name: T -> bool, mark: T, s: seq<T>, on: bool): seq<T> {
    var cleared := DropFirst(key, s);
    if on then InsertAfterFirst(name, mark, cleared) else cleared
  }

  /** The mark is a key, and no element is both a key and a name. */
  ghost predicate Apart<T(!new)>(key: T -> bool, name: T -> bool, mark: T) {
    key(mark) && forall x :: key(x) ==> !name(x)
  }

  /** Switching keeps the first element and adds nothing but the mark. */
  lemma SwitchElements<T(!new)>(key: T -> bool, name: T -> bool, mark: T, s: seq<T>, on: bool)
    requires s != [] && !key(s[0]) && !name(s[0])
    ensures var r := Switch(key, name, mark, s, on);
            r != [] && r[0] == s[0] && forall x :: x in r[1..] ==> x in s[1..] || x == mark
  {
    var cleared := DropFirst(key, s);
    assert cleared != [] && cleared[0] == s[0] && forall x :: x in cleared[1..] ==> x in s[1..];
  }

  /** The inserted mark is the first key, when no other key is above it. */
  lemma InsertedMark<T(!new)>(key: T -> bool, name: T -> bool, mark: T, s: seq<T>)
    requires Apart(key, name, mark) && First(name, s) < |s| && First(name, s) < First(key, s)
    ensures First(key, InsertAfterFirst(name, mark, s)) == First(name, s) + 1
    ensures DropFirst(key, InsertAfterFirst(name, mark, s)) == s
  {
    var n := First(name, s);
    var r := InsertAfterFirst(name, mark, s);
    assert r[n + 1] == mark;
    assert forall k :: 0 <= k <= n ==> r[k] == s[k];
    FirstIs(key, r, n + 1);
    assert r[..n + 1] + r[n + 2..] == s;
  }

  /** On and off again is the identity exactly on sequences without a key. */
  lemma OnAndOff<T(!new)>(key: T -> bool, name: T -> bool, mark: T, s: seq<T>)
    requires Apart(key, name, mark)
    ensures Switch(key, name, mark, Switch(key, name, mark, s, true), false) == s <==> First(key, s) == |s|
  {
    var cleared := DropFirst(key, s);
    var on := Switch(key, name, mark, s, true);
    var n := First(name, cleared);
    if First(key, s) == |s| {
      if n < |s| {
        InsertedMark(key, name, mark, s);
      }
    } else if n < |cleared| {
      assert on[n + 1] == mark;
      assert |DropFirst(key, on)| == |cleared|;
    }
  }

  /** On twice, after the clearing of the first round. */
  lemma OnAgain<T(!new)>(key: T -> bool, name: T -> bool, mark: T, cleared: seq<T>)
    requires Apart(key, name, mark)
    ensures var on := InsertAfterFirst(name, mark, cleared);
            Switch(key, name, mark, on, true) == on
            <==> First(key, cleared) == |cleared| || First(name, cleared) < First(key, cleared)
  {
    var n, k := First(name, cleared), First(key, cleared);
    if n == |cleared| {
      NoName(key, name, mark, cleared);
    } else if n < k {
      InsertedMark(key, name, mark, cleared);
    } else {
      assert k != n;
      KeyAboveName(key, name, mark, cleared);
    }
  }

  lemma NoName<T(!new)>(key: T -> bool, name: T -> bool, mark: T, s: seq<T>)
    requires First(name, s) == |s|
    ensures Switch(key, name, mark, s, true) == s <==> First(key, s) == |s|
  {
    var r := DropFirst(key, s);
    forall k | 0 <= k < |r|
      ensures !name(r[k])
    {
      assert r[k] in s;
    }
    FirstIs(name, r, |r|);
  }

  lemma KeyAboveName<T(!new)>(key: T -> bool, name: T -> bool, mark: T, s: seq<T>)
    requires Apart(key, name, mark) && First(key, s) < First(name, s) < |s|
    ensures var on := InsertAfterFirst(name, mark, s);
            Switch(key, name, mark, on, true) != on
  {
    var n, k := First(name, s), First(key, s);
    var on := InsertAfterFirst(name, mark, s);
    assert forall i :: 0 <= i <= n ==> on[i] == s[i];
    FirstIs(key, on, k);
    var again := DropFirst(key, on);
    assert forall i :: 0 <= i < n - 1 ==> again[i] == s[if i < k then i else i + 1];
    assert again[n - 1] == s[n];
    FirstIs(name, again, n - 1);
    var r := InsertAfterFirst(name, mark, again);
    assert r[n] == mark;
  }
}
