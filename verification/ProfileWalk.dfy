/** The install walk over the text of the profile does, for the reader, what the walk over its
    entries does. */
module ProfileWalk {
  import opened Wrappers
  import opened InstallPlan
  import opened Marketplace
  import opened ProfileText
  import opened ProfileRoundTrip
  import opened ProfileReading

  function NameText(packageName: string): string {
    NAME_KEY + packageName + "\""
  }

  /** The walk of Marketplace.Walk, with text instead of entries. */
  function TextWalk(lines: seq<Line>, printed: Plugin -> Printed, entries: seq<ProfileEntry>, missing: set<string>,
                    plan: seq<Plugin>, anchor: Option<string>): seq<Line>
    decreases |plan|
  {
    if plan == [] then lines
    else
      var plugin := Last(plan);
      var rest := plan[..|plan| - 1];
      match Configured(entries, plugin.packageName)
      case Some(entry) => TextWalk(lines, printed, entries, missing, rest, Some(entry.id))
      case None =>
        if plugin.packageName in missing then
          TextWalk(TextAppend(lines, plugin, printed(plugin), anchor), printed, entries, missing, rest, Some(EntryId(plugin)))
        else
          TextWalk(lines, printed, entries, missing, rest, anchor)
  }

  // ----- what the printed lines of one plugin say about another

  /** A text with quotes at two places only holds one quoted name. */
  lemma NameLineContains(p: string, q: string)
    requires '"' !in p && '"' !in q && Contains(NameText(q), NameText(p))
    ensures p == q
  {
    var line, part := NameText(q), NameText(p);
    var k :| 0 <= k <= |line| && OccursAt(line, part, k);
    var open, close := 6, |line| - 1;
    assert forall i :: 0 <= i < |line| && i != open && i != close ==> line[i] != '"' by {
      forall i | 0 <= i < |line| && i != open && i != close
        ensures line[i] != '"'
      {
        if i > open {
          assert line[i] == q[i - 7];
        }
      }
    }
    assert part[open] == '"' && line[k..k + |part|][open] == line[k + open];
    assert part[|part| - 1] == '"' && line[k..k + |part|][|part| - 1] == line[k + |part| - 1];
    assert k == 0 && |part| == |line|;
    assert line[0..|line|] == line;
    assert line[7..|line| - 1] == q && part[7..|part| - 1] == p;
  }

  lemma NoQuoteNoName(text: string, packageName: string)
    requires '"' !in text
    ensures !Contains(text, NameText(packageName))
  {
    var part := NameText(packageName);
    assert part[6] == '"';
    forall k | 0 <= k <= |text|
      ensures !OccursAt(text, part, k)
    {
      if k + |part| <= |text| {
        assert text[k..k + |part|][6] == text[k + 6];
      }
    }
  }

  /** The lines of one plugin do not name the package of another. */
  lemma EntryLinesMention(plugin: Plugin, printed: Printed, indent: string, packageName: string)
    requires Printable(plugin) && AllBlank(indent) && '"' !in packageName && packageName != plugin.packageName
    requires !Contains("config: " + printed.config, NameText(packageName))
    ensures !Mentions(EntryLines(plugin, printed, indent), packageName)
  {
    var e := EntryLines(plugin, printed, indent);
    NoQuoteNoName("- id: " + EntryId(plugin), packageName);
    NoQuoteNoName("group: true", packageName);
    if Contains(NameText(plugin.packageName), NameText(packageName)) {
      NameLineContains(packageName, plugin.packageName);
    }
    forall k | 0 <= k < |e|
      ensures !Contains(e[k].content, NameText(packageName))
    {
    }
  }

  // ----- one append, and what else is in the text

  lemma SpliceMentions(pre: seq<Line>, e: seq<Line>, post: seq<Line>, packageName: string)
    requires !Mentions(pre + post, packageName) && !Mentions(e, packageName)
    ensures !Mentions(pre + e + post, packageName)
  {
    var all := pre + e + post;
    forall k | 0 <= k < |all|
      ensures !Contains(all[k].content, NAME_KEY + packageName + "\"")
    {
      if |pre| <= k < |pre| + |e| {
        assert all[k] == e[k - |pre|];
      } else {
        assert all[k] == (pre + post)[if k < |pre| then k else k - |e|];
      }
    }
  }

  lemma SpliceNoId(pre: seq<Line>, e: seq<Line>, post: seq<Line>, id: string)
    requires HasNoId(pre + post, id) && HasNoId(e, id)
    ensures HasNoId(pre + e + post, id)
  {
    forall line | line in pre + e + post
      ensures IdOf(line) != Some(id)
    {
      assert line in e || line in pre + post;
    }
  }

  /** An anchored entry of another id stays anchored when a block is put in front of an item. */
  lemma SpliceAnchored(pre: seq<Line>, e: seq<Line>, post: seq<Line>, id: string)
    requires HasNoId(e, id) && post != [] && IdOf(post[0]).Some?
    requires Anchored(pre + post, id)
    ensures Anchored(pre + e + post, id)
  {
    var before, after := pre + post, pre + e + post;
    var k := FindId(before, id);
    Pieces(before, id);
    if k < |pre| {
      if k + 1 == |pre| {
        NameLineIsNoItem(before[k + 1]);
      }
      assert before[k] == after[k] && before[k + 1] == after[k + 1];
      assert forall i :: 0 <= i < k ==> after[i] == before[i] && before[i] in before[..k];
      FirstIs(IdTest(id), after, k);
    } else {
      var k' := k + |e|;
      assert before[k] == after[k'] && before[k + 1] == after[k' + 1];
      forall i | 0 <= i < k'
        ensures IdOf(after[i]) != Some(id)
      {
        if i < |pre| {
          assert after[i] == before[i] && before[i] in before[..k];
        } else if i < |pre| + |e| {
          assert after[i] == e[i - |pre|] && after[i] in e;
        } else {
          assert after[i] == before[i - |e|] && before[i - |e|] in before[..k];
        }
      }
      FirstIs(IdTest(id), after, k');
    }
  }

  lemma PrintedIds(plugin: Plugin, printed: Printed, indent: string, id: string)
    requires Printable(plugin) && AllBlank(indent) && id != EntryId(plugin)
    ensures HasNoId(EntryLines(plugin, printed, indent), id)
  {
    EntryLinesShape(plugin, printed, indent);
  }

  /** The text an anchored append gives, in pieces. */
  lemma AppendedPieces(lines: seq<Line>, plugin: Plugin, printed: Printed, anchor: string)
    returns (pre: seq<Line>, e: seq<Line>, post: seq<Line>)
    requires !Mentions(lines, plugin.packageName) && Anchored(lines, anchor)
    ensures lines == pre + post && post != [] && IdOf(post[0]).Some?
    ensures AllBlank(post[0].indent) && e == EntryLines(plugin, printed, post[0].indent)
    ensures TextAppend(lines, plugin, printed, Some(anchor)) == pre + e + post
  {
    var i := FindId(lines, anchor);
    pre, post := lines[..i], lines[i..];
    e := EntryLines(plugin, printed, lines[i].indent);
    Pieces(lines, anchor);
    Rejoin(lines, i);
  }

  /** The appended entry can serve as the next anchor. */
  lemma NewEntryAnchored(pre: seq<Line>, plugin: Plugin, printed: Printed, indent: string, post: seq<Line>)
    requires Printable(plugin) && AllBlank(indent) && HasNoId(pre, EntryId(plugin))
    ensures Anchored(pre + EntryLines(plugin, printed, indent) + post, EntryId(plugin))
  {
    var e := EntryLines(plugin, printed, indent);
    var all := pre + e + post;
    EntryLinesShape(plugin, printed, indent);
    assert all[|pre|] == e[0] && all[|pre| + 1] == e[1];
    assert forall i :: 0 <= i < |pre| ==> all[i] in pre;
    FirstIs(IdTest(EntryId(plugin)), all, |pre|);
  }

  // ----- the walk

  ghost predicate DistinctPackages(plan: seq<Plugin>) {
    forall i, j :: 0 <= i < j < |plan| ==> plan[i].packageName != plan[j].packageName
  }

  /** The configured plan entries are in the text; the missing ones are not, and can be printed. */
  ghost predicate Ready(lines: seq<Line>, entries: seq<ProfileEntry>, missing: set<string>, p: Plugin) {
    match Configured(entries, p.packageName)
    case Some(entry) => Anchored(lines, entry.id)
    case None => p.packageName in missing ==>
      Printable(p) && !Mentions(lines, p.packageName) && HasNoId(lines, EntryId(p))
  }

  /** No printed configuration happens to hold the name line of a plan entry. */
  ghost predicate NamesNothing(printed: Printed, packageName: string) {
    !Contains("config: " + printed.config, NameText(packageName))
  }

  lemma StillReady(lines: seq<Line>, plugin: Plugin, printed: Printed, anchor: string,
                   entries: seq<ProfileEntry>, missing: set<string>, q: Plugin)
    requires Printable(plugin) && !Mentions(lines, plugin.packageName) && HasNoId(lines, EntryId(plugin))
    requires Anchored(lines, anchor) && Ready(lines, entries, missing, q)
    requires q.packageName != plugin.packageName && EntryId(q) != EntryId(plugin)
    requires NamesNothing(printed, q.packageName)
    ensures Ready(TextAppend(lines, plugin, printed, Some(anchor)), entries, missing, q)
  {
    var pre, e, post := AppendedPieces(lines, plugin, printed, anchor);
    match Configured(entries, q.packageName) {
      case Some(entry) =>
        AnchoredHasId(lines, entry.id);
        PrintedIds(plugin, printed, post[0].indent, entry.id);
        SpliceAnchored(pre, e, post, entry.id);
      case None =>
        if q.packageName in missing {
          PrintedIds(plugin, printed, post[0].indent, EntryId(q));
          SpliceNoId(pre, e, post, EntryId(q));
          EntryLinesMention(plugin, printed, post[0].indent, q.packageName);
          SpliceMentions(pre, e, post, q.packageName);
        }
    }
  }

  lemma AnchoredHasId(lines: seq<Line>, id: string)
    requires Anchored(lines, id)
    ensures !HasNoId(lines, id)
  {
    Pieces(lines, id);
    assert lines[FindId(lines, id)] in lines;
  }

  ghost predicate AllReady(lines: seq<Line>, printed: Plugin -> Printed, entries: seq<ProfileEntry>,
                           missing: set<string>, plan: seq<Plugin>) {
    && DistinctIds(plan) && DistinctPackages(plan)
    && (forall p :: p in plan ==> Ready(lines, entries, missing, p))
    && (forall p, q :: p in plan && q in plan ==> NamesNothing(printed(p), q.packageName))
  }

  lemma FrontReady(lines: seq<Line>, printed: Plugin -> Printed, entries: seq<ProfileEntry>,
                   missing: set<string>, plan: seq<Plugin>)
    requires plan != [] && AllReady(lines, printed, entries, missing, plan)
    ensures AllReady(lines, printed, entries, missing, plan[..|plan| - 1])
    ensures Ready(lines, entries, missing, Last(plan))
  {
  }

  /** Appending the last plan entry leaves the others ready. */
  lemma RestReady(lines: seq<Line>, printed: Plugin -> Printed, entries: seq<ProfileEntry>,
                  missing: set<string>, plan: seq<Plugin>, anchor: string)
    requires plan != [] && AllReady(lines, printed, entries, missing, plan) && Anchored(lines, anchor)
    requires Configured(entries, Last(plan).packageName).None? && Last(plan).packageName in missing
    ensures AllReady(TextAppend(lines, Last(plan), printed(Last(plan)), Some(anchor)), printed, entries, missing, plan[..|plan| - 1])
  {
    var p := Last(plan);
    var rest := plan[..|plan| - 1];
    assert p in plan;
    forall q | q in rest
      ensures Ready(TextAppend(lines, p, printed(p), Some(anchor)), entries, missing, q)
    {
      var i :| 0 <= i < |rest| && rest[i] == q;
      assert plan[i] == q && plan[|plan| - 1] == p;
      EntryIdsDiffer(p, q);
      StillReady(lines, p, printed(p), anchor, entries, missing, q);
    }
  }

  /** One missing entry: after its lines are written, the rest of the plan is still ready. */
  lemma StepReady(lines: seq<Line>, printed: Plugin -> Printed, entries: seq<ProfileEntry>,
                  missing: set<string>, plan: seq<Plugin>, anchor: string)
    requires plan != [] && AllReady(lines, printed, entries, missing, plan) && Anchored(lines, anchor)
    requires Configured(entries, Last(plan).packageName).None? && Last(plan).packageName in missing
    ensures var p := Last(plan);
            var next := TextAppend(lines, p, printed(p), Some(anchor));
            && AllReady(next, printed, entries, missing, plan[..|plan| - 1]) && Anchored(next, EntryId(p))
            && Read(next) == AppendEntry(Read(lines), p, Some(anchor))
  {
    var p := Last(plan);
    FrontReady(lines, printed, entries, missing, plan);
    var pre, e, post := AppendedPieces(lines, p, printed(p), anchor);
    ReadAppended(lines, p, printed(p), anchor);
    NewEntryAnchored(pre, p, printed(p), post[0].indent, post);
    RestReady(lines, printed, entries, missing, plan, anchor);
  }

  /** The walk over the text refines the walk over the entries. */
  lemma {:induction false} TextWalkRefines(lines: seq<Line>, printed: Plugin -> Printed, entries: seq<ProfileEntry>,
                                           missing: set<string>, plan: seq<Plugin>, anchor: string)
    requires AllReady(lines, printed, entries, missing, plan) && Anchored(lines, anchor)
    ensures Read(TextWalk(lines, printed, entries, missing, plan, Some(anchor)))
         == Walk(Read(lines), entries, missing, plan, Some(anchor))
    decreases |plan|
  {
    if plan != [] {
      var p := Last(plan);
      var rest := plan[..|plan| - 1];
      FrontReady(lines, printed, entries, missing, plan);
      match Configured(entries, p.packageName) {
        case Some(entry) =>
          TextWalkRefines(lines, printed, entries, missing, rest, entry.id);
        case None =>
          if p.packageName in missing {
            StepReady(lines, printed, entries, missing, plan, anchor);
            TextWalkRefines(TextAppend(lines, p, printed(p), Some(anchor)), printed, entries, missing, rest, EntryId(p));
          } else {
            TextWalkRefines(lines, printed, entries, missing, rest, anchor);
          }
      }
    }
  }

  // ----- both passes of an install

  /** The loop that re-enables, over the text. */
  ghost function TextReenable(lines: seq<Line>, entries: seq<ProfileEntry>, dependencies: seq<Plugin>): Edit
    decreases |dependencies|
  {
    if dependencies == [] then Edited(lines)
    else
      match Configured(entries, dependencies[0].packageName)
      case None => NotFound
      case Some(entry) =>
        match TextSetDisabled(lines, entry.id, false)
        case Edited(next) => TextReenable(next, entries, dependencies[1..])
        case other => other
  }

  /** One after the other, the entries are found in the text and can be switched on in it. */
  ghost predicate Switchable(lines: seq<Line>, entries: seq<ProfileEntry>, dependencies: seq<Plugin>)
    decreases |dependencies|
  {
    dependencies == [] ||
    match Configured(entries, dependencies[0].packageName)
    case None => false
    case Some(entry) =>
      && Anchored(lines, entry.id) && ScanEnds(lines, entry.id) && !StillOff(lines, entry.id)
      && ChildrenApart(BlockOf(lines, entry.id), ChildIndent(lines[FindId(lines, entry.id)].indent))
      && TextSetDisabled(lines, entry.id, false).Edited?
      && Switchable(TextSetDisabled(lines, entry.id, false).text, entries, dependencies[1..])
  }

  lemma {:induction false} TextReenableRefines(lines: seq<Line>, entries: seq<ProfileEntry>, dependencies: seq<Plugin>)
    requires Switchable(lines, entries, dependencies)
    ensures TextReenable(lines, entries, dependencies).Edited?
    ensures Reenable(Read(lines), entries, dependencies) == Some(Read(TextReenable(lines, entries, dependencies).text))
    decreases |dependencies|
  {
    if dependencies != [] {
      var entry := Configured(entries, dependencies[0].packageName).value;
      ReadSwitched(lines, entry.id, false);
      TextReenableRefines(TextSetDisabled(lines, entry.id, false).text, entries, dependencies[1..]);
    }
  }

  /** All that an install writes into the text, read back, is the profile that it should have written. */
  lemma TextInstallRefines(lines: seq<Line>, printed: Plugin -> Printed, s: State, plan: seq<Plugin>, anchor: string)
    requires plan != [] && s.profile == Read(lines) && RuntimeAnchor(s.loader) == Some(anchor)
    requires var entries := ReadProfile(s.profile);
             var dependencies := DisabledAmong(s, plan[..|plan| - 1]);
             && Switchable(lines, entries, dependencies)
             && TextReenable(lines, entries, dependencies).Edited?
             && var text := TextReenable(lines, entries, dependencies).text;
                AllReady(text, printed, entries, MissingPackages(s, plan), plan) && Anchored(text, anchor)
    ensures var text := TextReenable(lines, ReadProfile(s.profile), DisabledAmong(s, plan[..|plan| - 1])).text;
            InstalledProfile(s, plan)
            == Some(Read(TextWalk(text, printed, ReadProfile(s.profile), MissingPackages(s, plan), plan, Some(anchor))))
  {
    var entries := ReadProfile(s.profile);
    var dependencies := DisabledAmong(s, plan[..|plan| - 1]);
    TextReenableRefines(lines, entries, dependencies);
    TextWalkRefines(TextReenable(lines, entries, dependencies).text, printed, entries, MissingPackages(s, plan), plan, anchor);
  }

  lemma EntryIdsDiffer(p: Plugin, q: Plugin)
    requires p.id != q.id
    ensures EntryId(p) != EntryId(q)
  {
    assert EntryId(p)[|MARKETPLACE_PREFIX|..] == p.id;
    assert EntryId(q)[|MARKETPLACE_PREFIX|..] == q.id;
  }
}
