/** The trailing white space that goes when an entry is appended at the end of the profile. */
module ProfileTrim {
  import opened Wrappers
  import opened ProfileText

  function LineText(line: Line): string {
    line.indent + line.content
  }

  /** The text of a source, with a line feed between its lines. */
  function SourceText(lines: seq<Line>): string {
    if lines == [] then ""
    else if |lines| == 1 then LineText(lines[0])
    else SourceText(lines[..|lines| - 1]) + "\n" + LineText(Last(lines))
  }

  predicate AllSpace(s: string) {
    forall k :: 0 <= k < |s| ==> IsBlank(s[k]) || s[k] == '\n'
  }

  predicate EndsInBlack(s: string) {
    s == "" || !(IsBlank(Last(s)) || Last(s) == '\n')
  }

  lemma {:induction false} TrimTextSplits(s: string) returns (blanks: string)
    ensures s == TrimText(s) + blanks && AllBlank(blanks)
    ensures TrimText(s) != "" ==> !IsBlank(Last(TrimText(s)))
  {
    if s != "" && IsBlank(Last(s)) {
      var front := s[..|s| - 1];
      blanks := TrimTextSplits(front);
      assert s == front + [Last(s)];
      blanks := blanks + [Last(s)];
    } else {
      blanks := "";
    }
  }

  lemma TrimLineSplits(line: Line) returns (blanks: string)
    requires '\n' !in line.content
    ensures LineText(line) == LineText(TrimLine(line)) + blanks && AllBlank(blanks)
    ensures TrimLine(line) == EMPTY_LINE || (TrimLine(line).content != "" && EndsInBlack(TrimLine(line).content))
  {
    blanks := TrimTextSplits(line.content);
    var content := TrimText(line.content);
    if content == "" {
      assert LineText(line) == "" + (line.indent + blanks);
      blanks := line.indent + blanks;
    } else {
      assert Last(content) in content && Last(content) in line.content;
      assert LineText(line) == line.indent + content + blanks;
    }
  }

  lemma SourcePush(front: seq<Line>, line: Line)
    ensures SourceText(front + [line]) == (if front == [] then "" else SourceText(front) + "\n") + LineText(line)
  {
    assert (front + [line])[..|front|] == front;
    if front == [] {
      assert front + [line] == [line];
    }
  }

  lemma TrimEndPush(front: seq<Line>, last: Line)
    ensures TrimEnd(front + [last])
         == if TrimLine(last) == EMPTY_LINE && front != [] then TrimEnd(front) else front + [TrimLine(last)]
  {
    assert (front + [last])[..|front|] == front;
  }

  lemma TrimmedAway(front: seq<Line>, last: Line, space: string)
    requires front != [] && AllBlank(LineText(last))
    requires SourceText(front) == SourceText(TrimEnd(front)) + space && AllSpace(space)
    ensures SourceText(front + [last]) == SourceText(TrimEnd(front)) + (space + "\n" + LineText(last))
    ensures AllSpace(space + "\n" + LineText(last))
  {
    SourcePush(front, last);
    var kept, blanks := SourceText(TrimEnd(front)), LineText(last);
    assert kept + space + "\n" + blanks == kept + (space + "\n" + blanks);
  }

  lemma TrimmedShort(front: seq<Line>, last: Line, blanks: string)
    requires LineText(last) == LineText(TrimLine(last)) + blanks
    ensures SourceText(front + [last]) == SourceText(front + [TrimLine(last)]) + blanks
  {
    SourcePush(front, last);
    SourcePush(front, TrimLine(last));
    var before := if front == [] then "" else SourceText(front) + "\n";
    assert before + (LineText(TrimLine(last)) + blanks) == before + LineText(TrimLine(last)) + blanks;
  }

  /** What an append at the end trims is white space, and it trims all of it. */
  lemma {:induction false} TrimEndExactly(lines: seq<Line>) returns (space: string)
    requires forall line :: line in lines ==> '\n' !in line.content
    ensures SourceText(lines) == SourceText(TrimEnd(lines)) + space && AllSpace(space)
    ensures EndsInBlack(SourceText(TrimEnd(lines)))
  {
    if lines == [] {
      space := "";
    } else {
      var front, last := lines[..|lines| - 1], Last(lines);
      assert lines == front + [last] && last in lines;
      var blanks := TrimLineSplits(last);
      TrimEndPush(front, last);
      if TrimLine(last) == EMPTY_LINE && front != [] {
        space := TrimEndExactly(front);
        assert LineText(last) == blanks;
        TrimmedAway(front, last, space);
        space := space + "\n" + blanks;
      } else {
        space := blanks;
        TrimmedShort(front, last, blanks);
        LastOfLine(front, TrimLine(last));
      }
    }
  }

  lemma LastOfLine(front: seq<Line>, line: Line)
    requires if line == EMPTY_LINE then front == [] else line.content != "" && EndsInBlack(line.content)
    ensures EndsInBlack(SourceText(front + [line]))
  {
    SourcePush(front, line);
    if line != EMPTY_LINE {
      assert Last(SourceText(front + [line])) == Last(line.content);
    }
  }
}
