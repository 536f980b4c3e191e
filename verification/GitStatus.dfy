/** Reading what `git status --porcelain -z` prints: fields that end with NUL, where a renamed or
    copied path brings its origin along as one more field. */
module GitStatus {
  import opened Wrappers
  import Text

  const NUL := '\0'

  datatype StatusEntry = StatusEntry(path: string, status: string)

  /** Rewrites an absolute path relative to an absolute directory. */
  type Rebase = (string, string) -> string

  predicate RenameOrCopy(c: char) {
    c == 'R' || c == 'C'
  }

  function StatusOf(code: string): string {
    var trimmed := Text.Trim(code);
    if trimmed == "" then "??" else trimmed
  }

  /** A status is its two characters without blanks, and two question marks for nothing but blanks. */
  lemma StatusExactly(code: string) returns (before: string, after: string)
    ensures StatusOf(code) != ""
    ensures if Text.AllWhite(code) then StatusOf(code) == "??"
            else code == before + StatusOf(code) + after && Text.AllWhite(before) && Text.AllWhite(after)
                 && !Text.White(StatusOf(code)[0]) && !Text.White(Last(StatusOf(code)))
  {
    before, after := Text.TrimExactly(code);
    Text.TrimOfWhite(code);
  }

  function EntryOf(field: string, prefix: string, rebase: Rebase): StatusEntry
    requires |field| >= 4
  {
    StatusEntry(if prefix == "" then field[3..] else rebase("/" + prefix, "/" + field[3..]), StatusOf(field[..2]))
  }

  function Entries(fields: seq<string>, prefix: string, rebase: Rebase): seq<StatusEntry>
    decreases |fields|
  {
    if fields == [] then []
    else if |fields[0]| < 4 then Entries(fields[1..], prefix, rebase)
    else
      [EntryOf(fields[0], prefix, rebase)] +
      Entries(if RenameOrCopy(fields[0][0]) && |fields| > 1 then fields[2..] else fields[1..], prefix, rebase)
  }

  function Parse(output: string, prefix: string, rebase: Rebase): seq<StatusEntry> {
    Entries(Text.Split(NUL, output), prefix, rebase)
  }

  /** `parseGitStatus`. */
  method ParseGitStatus(output: string, prefix: string, rebase: Rebase) returns (entries: seq<StatusEntry>)
    ensures entries == Parse(output, prefix, rebase)
  {
    var fields := Text.Split(NUL, output);
    entries := [];
    var index := 0;
    while index < |fields|
      invariant 0 <= index <= |fields| + 1
      invariant entries + Entries(if index < |fields| then fields[index..] else [], prefix, rebase)
             == Entries(fields, prefix, rebase)
    {
      var field := fields[index];
      ghost var rest := fields[index..];
      if |field| >= 4 {
        if RenameOrCopy(field[0]) {
          index := index + 1;
        }
        entries := entries + [EntryOf(field, prefix, rebase)];
      }
      index := index + 1;
      assert index < |fields| ==> fields[index..] == rest[|rest| - |fields| + index..];
    }
  }

  /** What is kept of output that was cut off: all of it up to its last NUL. */
  function CompletePart(stdout: string): string {
    if stdout == "" || Last(stdout) == NUL then stdout else CompletePart(stdout[..|stdout| - 1])
  }

  // ----- the printer

  const STATUS_LETTERS := {' ', 'M', 'T', 'A', 'D', 'R', 'C', 'U', '?', '!'}

  /** The states of a renamed or copied path, which come with an origin. */
  const ORIGIN_LETTERS := {'R', 'C'}

  /** One changed path: the states in the index and in the working tree, and where it came from. */
  datatype Change = Change(index: char, tree: char, path: string, origin: Option<string>)

  ghost predicate Name(s: string) {
    s != "" && NUL !in s
  }

  ghost predicate Printable(c: Change) {
    && c.index in STATUS_LETTERS && c.tree in STATUS_LETTERS && !(c.index == ' ' && c.tree == ' ')
    && Name(c.path)
    && (c.origin.Some? <==> c.index in ORIGIN_LETTERS || c.tree in ORIGIN_LETTERS)
    && (c.origin.Some? ==> Name(c.origin.value))
  }

  function Head(c: Change): string {
    [c.index, c.tree, ' '] + c.path
  }

  function PrintChange(c: Change): string {
    Head(c) + [NUL] + if c.origin.Some? then c.origin.value + [NUL] else ""
  }

  function Print(changes: seq<Change>): string {
    if changes == [] then "" else PrintChange(changes[0]) + Print(changes[1..])
  }

  /** What a change should be read as: its path, seen from the prefix, and its states without blanks. */
  function Meaning(c: Change, prefix: string, rebase: Rebase): StatusEntry {
    StatusEntry(if prefix == "" then c.path else rebase("/" + prefix, "/" + c.path),
                (if c.index == ' ' then "" else [c.index]) + if c.tree == ' ' then "" else [c.tree])
  }

  function Meanings(changes: seq<Change>, prefix: string, rebase: Rebase): seq<StatusEntry> {
    seq(|changes|, i requires 0 <= i < |changes| => Meaning(changes[i], prefix, rebase))
  }

  /** The origin, if there is one, is announced in the first column or too short to be taken for an entry. */
  predicate InStep(c: Change) {
    c.origin.Some? ==> c.index in ORIGIN_LETTERS || |c.origin.value| < 4
  }

  // ----- round trip

  function FieldsOf(c: Change): seq<string> {
    [Head(c)] + if c.origin.Some? then [c.origin.value] else []
  }

  lemma HeadIsRead(c: Change, prefix: string, rebase: Rebase)
    requires Printable(c)
    ensures |Head(c)| >= 4 && Head(c)[0] == c.index && NUL !in Head(c) && EntryOf(Head(c), prefix, rebase) == Meaning(c, prefix, rebase)
  {
    var code := [c.index, c.tree];
    assert Head(c)[..2] == code && Head(c)[3..] == c.path;
    CodeIsTrimmed(c.index, c.tree);
  }

  lemma CodeIsTrimmed(x: char, y: char)
    requires x in STATUS_LETTERS && y in STATUS_LETTERS && !(x == ' ' && y == ' ')
    ensures Text.Trim([x, y]) == (if x == ' ' then "" else [x]) + if y == ' ' then "" else [y]
  {
    var code := [x, y];
    assert forall c :: c in STATUS_LETTERS && c != ' ' ==> !Text.White(c);
    if x == ' ' {
      assert code[1..] == [y];
      assert Text.TrimStart(code) == Text.TrimStart([y]) == [y];
    } else if y == ' ' {
      assert code[..1] == [x];
      assert Text.TrimEnd(code) == Text.TrimEnd([x]) == [x];
    }
  }

  lemma SplitPiece(a: string, b: string)
    requires NUL !in a
    ensures Text.Split(NUL, a + [NUL] + b) == [a] + Text.Split(NUL, b)
  {
    Text.SplitAtSeparator(NUL, a, b);
    Text.SplitWithout(NUL, a);
  }

  lemma SplitChange(c: Change, rest: string)
    requires Printable(c)
    ensures Text.Split(NUL, PrintChange(c) + rest) == FieldsOf(c) + Text.Split(NUL, rest)
  {
    HeadHoldsNoNul(c);
    if c.origin.Some? {
      var origin := c.origin.value;
      assert PrintChange(c) + rest == Head(c) + [NUL] + (origin + [NUL] + rest);
      SplitPiece(Head(c), origin + [NUL] + rest);
      SplitPiece(origin, rest);
    } else {
      assert PrintChange(c) + rest == Head(c) + [NUL] + rest;
      SplitPiece(Head(c), rest);
    }
  }

  lemma HeadHoldsNoNul(c: Change)
    requires Printable(c)
    ensures NUL !in Head(c)
  {
  }

  lemma InStepIsRead(c: Change, rest: seq<string>, prefix: string, rebase: Rebase)
    requires Printable(c) && InStep(c)
    ensures Entries(FieldsOf(c) + rest, prefix, rebase) == [Meaning(c, prefix, rebase)] + Entries(rest, prefix, rebase)
  {
    HeadIsRead(c, prefix, rebase);
    var fields := FieldsOf(c) + rest;
    assert fields[0] == Head(c);
    if c.origin.Some? {
      assert fields[1] == c.origin.value && fields[1..][1..] == rest && fields[2..] == rest;
    } else {
      assert fields[1..] == rest;
    }
  }

  lemma OutOfStepIsMisread(c: Change, rest: seq<string>, prefix: string, rebase: Rebase)
    requires Printable(c) && !InStep(c)
    ensures |Entries(FieldsOf(c) + rest, prefix, rebase)| >= 2
  {
    HeadIsRead(c, prefix, rebase);
    var fields := FieldsOf(c) + rest;
    var tail := fields[1..];
    assert fields[0] == Head(c) && tail[0] == c.origin.value;
    assert Entries(fields, prefix, rebase) == [Meaning(c, prefix, rebase)] + Entries(tail, prefix, rebase);
    assert |Entries(tail, prefix, rebase)| >= 1;
  }

  lemma ParseOne(c: Change, rest: string, prefix: string, rebase: Rebase)
    requires Printable(c) && InStep(c)
    ensures Parse(PrintChange(c) + rest, prefix, rebase) == [Meaning(c, prefix, rebase)] + Parse(rest, prefix, rebase)
  {
    SplitChange(c, rest);
    InStepIsRead(c, Text.Split(NUL, rest), prefix, rebase);
  }

  /** Reading what was printed, when every origin is announced in the first column. */
  lemma {:induction false} PrintThenParse(changes: seq<Change>, rest: string, prefix: string, rebase: Rebase)
    requires forall c :: c in changes ==> Printable(c) && InStep(c)
    ensures Parse(Print(changes) + rest, prefix, rebase) == Meanings(changes, prefix, rebase) + Parse(rest, prefix, rebase)
    decreases |changes|
  {
    if changes == [] {
      assert Print(changes) + rest == rest;
    } else {
      var c, more := changes[0], changes[1..];
      assert Print(changes) + rest == PrintChange(c) + (Print(more) + rest);
      ParseOne(c, Print(more) + rest, prefix, rebase);
      PrintThenParse(more, rest, prefix, rebase);
      MeaningsFrom(changes, |more|, prefix, rebase);
      assert changes[..1 + |more|] == changes && more[..|more|] == more;
    }
  }

  lemma EmptyFieldIsSkipped(prefix: string, rebase: Rebase)
    ensures Entries([""], prefix, rebase) == []
  {
    assert [""][1..] == [];
  }

  lemma NothingParsesToNothing(prefix: string, rebase: Rebase)
    ensures Parse("", prefix, rebase) == []
  {
    assert Text.Split(NUL, "") == [""];
    EmptyFieldIsSkipped(prefix, rebase);
  }

  /** Every stretch of changes from the first one on is read back exactly when no change has an origin
      of four characters or more that only its second column announces. */
  lemma RoundTripExactly(changes: seq<Change>, prefix: string, rebase: Rebase)
    requires forall c :: c in changes ==> Printable(c)
    ensures (forall n :: 0 <= n <= |changes| ==> Parse(Print(changes[..n]), prefix, rebase) == Meanings(changes[..n], prefix, rebase))
       <==> forall c :: c in changes ==> InStep(c)
  {
    NothingParsesToNothing(prefix, rebase);
    if forall c :: c in changes ==> InStep(c) {
      forall n | 0 <= n <= |changes|
        ensures Parse(Print(changes[..n]), prefix, rebase) == Meanings(changes[..n], prefix, rebase)
      {
        PrintThenParse(changes[..n], "", prefix, rebase);
        assert Print(changes[..n]) + "" == Print(changes[..n]);
      }
    } else {
      var i := FirstOutOfStep(changes);
      MisreadAt(changes, i, prefix, rebase);
    }
  }

  lemma FirstOutOfStep(changes: seq<Change>) returns (i: nat)
    requires exists c :: c in changes && !InStep(c)
    ensures i < |changes| && !InStep(changes[i]) && forall k :: 0 <= k < i ==> InStep(changes[k])
  {
    i := First((c: Change) => !InStep(c), changes);
  }

  lemma MisreadAt(changes: seq<Change>, i: nat, prefix: string, rebase: Rebase)
    requires i < |changes| && forall c :: c in changes ==> Printable(c)
    requires !InStep(changes[i]) && forall k :: 0 <= k < i ==> InStep(changes[k])
    ensures Parse(Print(changes[..i + 1]), prefix, rebase) != Meanings(changes[..i + 1], prefix, rebase)
  {
    var c := changes[i];
    PrintAppended(changes[..i], [c]);
    assert changes[..i + 1] == changes[..i] + [c];
    PrintThenParse(changes[..i], Print([c]), prefix, rebase);
    assert Print([c]) == PrintChange(c) + "";
    SplitChange(c, "");
    OutOfStepIsMisread(c, Text.Split(NUL, ""), prefix, rebase);
  }

  lemma {:induction false} PrintAppended(a: seq<Change>, b: seq<Change>)
    ensures Print(a + b) == Print(a) + Print(b)
    decreases |a|
  {
    if a == [] {
      assert a + b == b;
    } else {
      PrintAppended(a[1..], b);
      assert (a + b)[1..] == a[1..] + b;
    }
  }

  // ----- output that was cut off

  /** Whatever git printed and wherever it was cut off, the part that is kept yields a first part of
      the entries that the whole output yields. */
  lemma CutOutputYieldsPrefix(output: string, n: nat, prefix: string, rebase: Rebase)
    requires n <= |output|
    ensures Parse(CompletePart(output[..n]), prefix, rebase) <= Parse(output, prefix, rebase)
  {
    var kept := CompletePart(output[..n]);
    CompletePartIs(output[..n]);
    if kept == "" {
      NothingParsesToNothing(prefix, rebase);
    } else {
      var a, b := kept[..|kept| - 1], output[|kept|..];
      assert kept == a + [NUL] + "" && output == a + [NUL] + b;
      Text.SplitAtSeparator(NUL, a, "");
      Text.SplitAtSeparator(NUL, a, b);
      CutFieldsYieldPrefix(Text.Split(NUL, a), Text.Split(NUL, b), prefix, rebase);
    }
  }

  lemma {:induction false} CompletePartIs(stdout: string)
    ensures CompletePart(stdout) <= stdout
    ensures CompletePart(stdout) != "" ==> Last(CompletePart(stdout)) == NUL
    ensures NUL !in stdout[|CompletePart(stdout)|..]
    decreases |stdout|
  {
    if stdout != "" && Last(stdout) != NUL {
      var shorter := stdout[..|stdout| - 1];
      CompletePartIs(shorter);
      assert stdout[|CompletePart(stdout)|..] == shorter[|CompletePart(stdout)|..] + [Last(stdout)];
    }
  }

  lemma {:induction false} CutFieldsYieldPrefix(fields: seq<string>, more: seq<string>, prefix: string, rebase: Rebase)
    ensures Entries(fields + [""], prefix, rebase) <= Entries(fields + more, prefix, rebase)
    decreases |fields|
  {
    var cut, all := fields + [""], fields + more;
    if fields == [] {
      assert cut == [""];
      EmptyFieldIsSkipped(prefix, rebase);
    } else {
      assert cut[1..] == fields[1..] + [""] && all[1..] == fields[1..] + more;
      if |fields[0]| >= 4 && RenameOrCopy(fields[0][0]) {
        if |fields| == 1 {
          assert cut[2..] == [];
        } else {
          assert cut[2..] == fields[2..] + [""] && all[2..] == fields[2..] + more;
          CutFieldsYieldPrefix(fields[2..], more, prefix, rebase);
        }
      } else {
        CutFieldsYieldPrefix(fields[1..], more, prefix, rebase);
      }
    }
  }

  /** How many changes have their states and path, with the NUL after it, among the first n characters. */
  function Arrived(changes: seq<Change>, n: nat): (m: nat)
    ensures m <= |changes|
    decreases |changes|
  {
    if changes == [] || n <= |Head(changes[0])| then 0
    else 1 + Arrived(changes[1..], if n <= |PrintChange(changes[0])| then 0 else n - |PrintChange(changes[0])|)
  }

  /** Of output that was cut off, exactly the changes whose own field arrived in full are read. */
  lemma {:induction false} CutOutputYieldsArrived(changes: seq<Change>, n: nat, prefix: string, rebase: Rebase)
    requires n <= |Print(changes)| && forall c :: c in changes ==> Printable(c) && InStep(c)
    ensures Parse(CompletePart(Print(changes)[..n]), prefix, rebase) == Meanings(changes[..Arrived(changes, n)], prefix, rebase)
    decreases |changes|
  {
    if changes == [] {
      NothingParsesToNothing(prefix, rebase);
    } else {
      var c, more := changes[0], changes[1..];
      if n <= |Head(c)| {
        CutInHead(c, Print(more), n);
        NothingParsesToNothing(prefix, rebase);
      } else if n < |PrintChange(c)| {
        CutInOrigin(c, Print(more), n);
        HeadAlone(c, prefix, rebase);
        assert changes[..1] == [c];
      } else {
        var later := n - |PrintChange(c)|;
        CutOutputYieldsArrived(more, later, prefix, rebase);
        CutAfterChange(c, Print(more), n, prefix, rebase);
        MeaningsFrom(changes, Arrived(more, later), prefix, rebase);
      }
    }
  }

  lemma MeaningsFrom(changes: seq<Change>, m: nat, prefix: string, rebase: Rebase)
    requires m < |changes|
    ensures Meanings(changes[..1 + m], prefix, rebase) == [Meaning(changes[0], prefix, rebase)] + Meanings(changes[1..][..m], prefix, rebase)
  {
  }

  lemma CutAfterChange(c: Change, rest: string, n: nat, prefix: string, rebase: Rebase)
    requires Printable(c) && InStep(c) && |PrintChange(c)| <= n <= |PrintChange(c) + rest|
    ensures Parse(CompletePart((PrintChange(c) + rest)[..n]), prefix, rebase)
         == [Meaning(c, prefix, rebase)] + Parse(CompletePart(rest[..n - |PrintChange(c)|]), prefix, rebase)
  {
    CutLater(PrintChange(c), rest, n);
    var kept := CompletePart(rest[..n - |PrintChange(c)|]);
    SplitChange(c, kept);
    InStepIsRead(c, Text.Split(NUL, kept), prefix, rebase);
  }

  lemma CompletePartUnique(stdout: string, kept: string)
    requires kept <= stdout && NUL !in stdout[|kept|..] && (kept == "" || Last(kept) == NUL)
    ensures CompletePart(stdout) == kept
  {
    CompletePartIs(stdout);
    var other := CompletePart(stdout);
    NulFrom(stdout, |other|, |kept| - 1);
    NulFrom(stdout, |kept|, |other| - 1);
    assert kept == stdout[..|kept|] && other == stdout[..|other|];
  }

  lemma NulFrom(s: string, a: nat, k: int)
    ensures a <= k < |s| && s[k] == NUL ==> NUL in s[a..]
  {
    if a <= k < |s| {
      assert s[a..][k - a] == s[k];
    }
  }

  lemma CutInHead(c: Change, rest: string, n: nat)
    requires Printable(c) && n <= |Head(c)|
    ensures n <= |PrintChange(c) + rest| && CompletePart((PrintChange(c) + rest)[..n]) == ""
  {
    var cut := (PrintChange(c) + rest)[..n];
    assert cut == Head(c)[..n];
    HeadHoldsNoNul(c);
    CompletePartUnique(cut, "");
  }

  lemma CutInOrigin(c: Change, rest: string, n: nat)
    requires Printable(c) && |Head(c)| < n < |PrintChange(c)|
    ensures CompletePart((PrintChange(c) + rest)[..n]) == Head(c) + [NUL]
  {
    var kept := Head(c) + [NUL];
    var cut := (PrintChange(c) + rest)[..n];
    assert cut == kept + c.origin.value[..n - |kept|];
    assert cut[|kept|..] == c.origin.value[..n - |kept|];
    CompletePartUnique(cut, kept);
  }

  lemma HeadAlone(c: Change, prefix: string, rebase: Rebase)
    requires Printable(c)
    ensures Parse(Head(c) + [NUL], prefix, rebase) == [Meaning(c, prefix, rebase)]
  {
    HeadIsRead(c, prefix, rebase);
    assert Head(c) + [NUL] == Head(c) + [NUL] + "";
    SplitPiece(Head(c), "");
    assert Text.Split(NUL, "") == [""];
    var fields := [Head(c), ""];
    assert fields == [Head(c)] + [""] && fields[1..] == [""] && fields[2..] == [];
    EmptyFieldIsSkipped(prefix, rebase);
  }

  lemma CutLater(whole: string, rest: string, n: nat)
    requires whole != "" && Last(whole) == NUL && |whole| <= n <= |whole + rest|
    ensures CompletePart((whole + rest)[..n]) == whole + CompletePart(rest[..n - |whole|])
  {
    var cut, later := (whole + rest)[..n], rest[..n - |whole|];
    assert cut == whole + later;
    CompletePartIs(later);
    var kept := whole + CompletePart(later);
    assert cut[|kept|..] == later[|CompletePart(later)|..];
    CompletePartUnique(cut, kept);
  }
}
