/** The few operations of the language's strings that the parsers and printers use. */
module Text {
  import opened Wrappers

  /** The characters that `trim` removes and `\s` matches. */
  predicate White(c: char) {
    || '\t' <= c <= '\r'
    || c in {' ', '\U{00A0}', '\U{1680}', '\U{2028}', '\U{2029}', '\U{202F}', '\U{205F}', '\U{3000}', '\U{FEFF}'}
    || '\U{2000}' <= c <= '\U{200A}'
  }

  function TrimStart(s: string): string {
    if s != [] && White(s[0]) then TrimStart(s[1..]) else s
  }

  function TrimEnd(s: string): string {
    if s != [] && White(Last(s)) then TrimEnd(s[..|s| - 1]) else s
  }

  function Trim(s: string): string {
    TrimEnd(TrimStart(s))
  }

  predicate AllWhite(s: string) {
    forall k :: 0 <= k < |s| ==> White(s[k])
  }

  lemma {:induction false} TrimStartSplits(s: string)
    ensures var r := TrimStart(s);
            && |r| <= |s| && r == s[|s| - |r|..] && AllWhite(s[..|s| - |r|]) && (r != "" ==> !White(r[0]))
  {
    if s != [] && White(s[0]) {
      TrimStartSplits(s[1..]);
      var r := TrimStart(s);
      var taken := s[..|s| - |r|];
      forall k | 0 <= k < |taken|
        ensures White(taken[k])
      {
        assert k > 0 ==> taken[k] == s[1..][..|s| - 1 - |r|][k - 1];
      }
    }
  }

  lemma {:induction false} TrimEndSplits(s: string)
    ensures var r := TrimEnd(s);
            |r| <= |s| && r == s[..|r|] && AllWhite(s[|r|..]) && (r != "" ==> !White(Last(r)))
  {
    if s != [] && White(Last(s)) {
      var front := s[..|s| - 1];
      TrimEndSplits(front);
      var r := TrimEnd(s);
      var taken := s[|r|..];
      forall k | 0 <= k < |taken|
        ensures White(taken[k])
      {
        assert k < |front| - |r| ==> taken[k] == front[|r|..][k];
      }
    }
  }

  /** Trimming takes away what is white at both ends, all of it and nothing else. */
  lemma TrimExactly(s: string) returns (before: string, after: string)
    ensures s == before + Trim(s) + after && AllWhite(before) && AllWhite(after)
    ensures Trim(s) != "" ==> !White(Trim(s)[0]) && !White(Last(Trim(s)))
  {
    TrimStartSplits(s);
    var r := TrimStart(s);
    TrimEndSplits(r);
    before, after := s[..|s| - |r|], r[|Trim(s)|..];
  }

  lemma TrimOfWhite(s: string)
    ensures Trim(s) == "" <==> AllWhite(s)
  {
    var before, after := TrimExactly(s);
    var core := Trim(s);
    if core == "" {
      assert s == before + after;
    } else {
      assert s[|before|] == core[0];
    }
  }

  /** White, by code points: the white space and line terminators of ECMAScript (sections 12.2 and 12.3). */
  lemma WhiteByCode(c: char)
    ensures White(c) <==>
      var code := c as int;
      || 9 <= code <= 13 || code == 32 || code == 160 || code == 5760 || 8192 <= code <= 8202
      || code in {8232, 8233, 8239, 8287, 12288, 65279}
  {
  }

  /** The pieces between the separators. */
  function Split(separator: char, s: string): (r: seq<string>)
    ensures r != []
  {
    if s == [] then [[]]
    else
      var rest := Split(separator, s[1..]);
      if s[0] == separator then [[]] + rest else Lengthen(s[0], rest)
  }

  /** The first piece with one more character in front. */
  function Lengthen(c: char, pieces: seq<string>): (r: seq<string>)
    requires pieces != []
    ensures r != []
  {
    [[c] + pieces[0]] + pieces[1..]
  }

  lemma LengthenFirst(c: char, a: seq<string>, b: seq<string>)
    requires a != []
    ensures Lengthen(c, a + b) == Lengthen(c, a) + b
  {
    assert (a + b)[1..] == a[1..] + b;
  }

  lemma SplitHead(separator: char, c: char, s: string)
    ensures Split(separator, [c] + s) ==
      if c == separator then [[]] + Split(separator, s) else Lengthen(c, Split(separator, s))
  {
    assert ([c] + s)[1..] == s;
  }

  lemma HeadOff(c: char, a: string, separator: char, b: string)
    ensures [c] + a + [separator] + b == [c] + (a + [separator] + b)
  {
  }

  lemma {:induction false} SplitAtSeparator(separator: char, a: string, b: string)
    ensures Split(separator, a + [separator] + b) == Split(separator, a) + Split(separator, b)
    decreases |a|
  {
    if a == [] {
      assert a + [separator] + b == [separator] + b;
      SplitHead(separator, separator, b);
    } else {
      var c, rest := a[0], a[1..];
      assert a == [c] + rest;
      HeadOff(c, rest, separator, b);
      SplitHead(separator, c, rest + [separator] + b);
      SplitHead(separator, c, rest);
      SplitAtSeparator(separator, rest, b);
      LengthenFirst(c, Split(separator, rest), Split(separator, b));
    }
  }

  lemma {:induction false} SplitWithout(separator: char, s: string)
    requires separator !in s
    ensures Split(separator, s) == [s]
  {
    if s != [] {
      SplitWithout(separator, s[1..]);
      assert [s[0]] + s[1..] == s;
    }
  }

  /** No piece holds the separator. */
  lemma {:induction false} PiecesHoldNone(separator: char, s: string)
    ensures forall piece :: piece in Split(separator, s) ==> separator !in piece
  {
    if s != [] {
      PiecesHoldNone(separator, s[1..]);
      var rest := Split(separator, s[1..]);
      assert forall piece :: piece in rest[1..] ==> piece in rest;
      assert rest[0] in rest;
    }
  }
}
