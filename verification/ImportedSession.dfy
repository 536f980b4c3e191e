/** The validator of imported sessions. The entries of a version 2 body form a forest by their
    parent ids; the check walks each chain once and remembers what it has seen. */
module ImportedSession {
  import opened Wrappers

  /** The version field of a header; an absent or null one counts as 1. */
  datatype Version = Absent | Number(value: int) | OtherVersion

  datatype Parent = NullParent | ParentId(id: string) | InvalidParent

  /** One line of the body after parsing. Fields of the wrong type, and empty ids and types, are None. */
  datatype Line =
    | Blank
    | MalformedJson
    | NotARecord
    | Record(kind: Option<string>, id: Option<string>, version: Version, validMessage: bool, parent: Parent)

  datatype Reason =
    | MalformedLine | ExpectedRecord | MissingType | ExpectedHeader | UnsupportedVersion
    | DuplicateHeader | InvalidMessage | MissingId | DuplicateId | InvalidParentId
    | CyclicChain | MissingParent

  datatype Error = Invalid(line: nat, reason: Reason) | EmptySession

  /** An entry with an id: its parent, and the line it stood on. */
  datatype Node = Node(id: string, parent: Option<string>, line: nat)

  function VersionOf(version: Version): int {
    match version
    case Absent => 1
    case Number(value) => value
    case OtherVersion => 0
  }

  predicate SupportedVersion(version: Version, current: int) {
    !version.OtherVersion? && 1 <= VersionOf(version) <= current
  }

  // ----- what is accepted, line by line

  /** A version that can be read: a whole number from 1 on, not above the current one; none stands for 1. */
  predicate Readable(version: Version, current: int) {
    match version
    case Absent => current >= 1
    case Number(value) => 1 <= value <= current
    case OtherVersion => false
  }

  /** From version 2 on, entries carry ids and parents. */
  predicate Chained(header: Line) {
    header.Record? && header.version.Number? && header.version.value >= 2
  }

  predicate GoodHeader(line: Line, current: int) {
    line.Record? && line.kind == Some("session") && line.id.Some? && Readable(line.version, current)
  }

  /** A record of a known type that is no second header, and a message only if it is a valid one. */
  predicate PlainEntry(line: Line) {
    && line.Record? && line.kind.Some? && line.kind.value != "session"
    && (line.kind.value == "message" ==> line.validMessage)
  }

  predicate GoodEntry(line: Line, chained: bool) {
    PlainEntry(line) && (chained ==> line.id.Some? && !line.parent.InvalidParent?)
  }

  /** The header is the first line that is not blank. */
  ghost predicate HeaderAt(body: seq<Line>, h: nat, current: int) {
    && h < |body| && GoodHeader(body[h], current)
    && forall k :: 0 <= k < h ==> body[k].Blank?
  }

  ghost predicate EntriesGood(body: seq<Line>, h: nat, chained: bool) {
    forall k :: h < k < |body| ==> body[k].Blank? || GoodEntry(body[k], chained)
  }

  ghost predicate UniqueIds(body: seq<Line>, h: nat) {
    forall i, j :: h < i < j < |body| && body[i].Record? && body[j].Record? ==> body[i].id != body[j].id
  }

  /** The parents of the entries behind line h, up to line n. */
  function Parents(body: seq<Line>, h: nat, n: nat): map<string, Option<string>>
    requires h < n <= |body|
    decreases n
  {
    if n == h + 1 then map[]
    else
      var rest := Parents(body, h, n - 1);
      var line := body[n - 1];
      if line.Record? && line.id.Some? then rest[line.id.value := match line.parent case ParentId(id) => Some(id) case _ => None] else rest
  }

  // ----- the forest

  /** The chain of an entry reaches null within n further steps. */
  predicate RootedWithin(m: map<string, Option<string>>, id: string, n: nat)
    decreases n
  {
    id in m && (m[id].None? || (n > 0 && RootedWithin(m, m[id].value, n - 1)))
  }

  ghost predicate Rooted(m: map<string, Option<string>>, id: string) {
    exists n: nat :: RootedWithin(m, id, n)
  }

  /** The chain of an entry leads to an id that is not there within n further steps. */
  predicate LostWithin(m: map<string, Option<string>>, id: string, n: nat)
    decreases n
  {
    id !in m || (m[id].Some? && n > 0 && LostWithin(m, m[id].value, n - 1))
  }

  ghost predicate Lost(m: map<string, Option<string>>, id: string) {
    exists n: nat :: LostWithin(m, id, n)
  }

  ghost predicate AllRooted(m: map<string, Option<string>>, ids: set<string>) {
    forall id :: id in ids ==> Rooted(m, id)
  }

  ghost predicate Forest(m: map<string, Option<string>>) {
    AllRooted(m, m.Keys)
  }

  /** What the validator is for. */
  ghost predicate Acceptable(body: seq<Line>, current: int) {
    exists h: nat ::
      && HeaderAt(body, h, current)
      && EntriesGood(body, h, Chained(body[h]))
      && (Chained(body[h]) ==> UniqueIds(body, h) && Forest(Parents(body, h, |body|)))
  }

  lemma RootedStep(m: map<string, Option<string>>, id: string)
    requires id in m && m[id].Some?
    ensures Rooted(m, id) <==> Rooted(m, m[id].value)
  {
    if Rooted(m, m[id].value) {
      var n: nat :| RootedWithin(m, m[id].value, n);
      assert RootedWithin(m, id, n + 1);
    }
    if Rooted(m, id) {
      var n: nat :| RootedWithin(m, id, n);
      assert RootedWithin(m, m[id].value, n - 1);
    }
  }

  /** The chain walked so far: each element is followed by its parent. */
  ghost predicate Walked(m: map<string, Option<string>>, chain: seq<string>, next: Option<string>) {
    && (forall i :: 0 <= i < |chain| ==> chain[i] in m)
    && (forall i :: 0 <= i < |chain| - 1 ==> m[chain[i]] == Some(chain[i + 1]))
    && (chain != [] ==> m[Last(chain)] == next)
  }

  /** All of a walked chain is rooted as soon as its continuation is. */
  lemma {:induction false} WalkedRooted(m: map<string, Option<string>>, chain: seq<string>, next: Option<string>)
    requires Walked(m, chain, next) && (next.Some? ==> Rooted(m, next.value))
    ensures forall id :: id in chain ==> Rooted(m, id)
  {
    if chain != [] {
      var last := Last(chain);
      var front := chain[..|chain| - 1];
      if next.Some? {
        RootedStep(m, last);
      } else {
        assert RootedWithin(m, last, 0);
      }
      assert Walked(m, front, Some(last)) by {
        assert front != [] ==> Last(front) == chain[|chain| - 2];
      }
      WalkedRooted(m, front, Some(last));
      assert chain == front + [last];
    }
  }

  /** The start of a walked chain is rooted exactly if its continuation is. */
  lemma {:induction false} WalkedFromStart(m: map<string, Option<string>>, chain: seq<string>, next: string)
    requires chain != [] && Walked(m, chain, Some(next))
    ensures Rooted(m, chain[0]) <==> Rooted(m, next)
  {
    var last := Last(chain);
    RootedStep(m, last);
    if |chain| > 1 {
      var front := chain[..|chain| - 1];
      assert Walked(m, front, Some(last)) by {
        assert Last(front) == chain[|chain| - 2];
      }
      WalkedFromStart(m, front, last);
    }
  }

  lemma {:induction false} WalkedToLost(m: map<string, Option<string>>, chain: seq<string>, next: string)
    requires chain != [] && Walked(m, chain, Some(next)) && Lost(m, next)
    ensures Lost(m, chain[0])
  {
    var last := Last(chain);
    var n: nat :| LostWithin(m, next, n);
    assert LostWithin(m, last, n + 1);
    if |chain| > 1 {
      var front := chain[..|chain| - 1];
      assert Walked(m, front, Some(last)) by {
        assert Last(front) == chain[|chain| - 2];
      }
      WalkedToLost(m, front, last);
    }
  }

  /** Nothing on a cycle is lost, nor is anything that leads to one. */
  lemma {:induction false} CycleNotLost(m: map<string, Option<string>>, cycle: seq<string>, i: nat, n: nat)
    requires i < |cycle| && Walked(m, cycle, Some(cycle[0]))
    ensures !LostWithin(m, cycle[i], n)
    decreases n
  {
    var next := if i + 1 < |cycle| then i + 1 else 0;
    assert m[cycle[i]] == Some(cycle[next]);
    if n > 0 {
      CycleNotLost(m, cycle, next, n - 1);
    }
  }

  lemma {:induction false} WalkedNotLost(m: map<string, Option<string>>, chain: seq<string>, i: nat, next: string, n: nat)
    requires i < |chain| && Walked(m, chain, Some(next)) && forall k: nat :: !LostWithin(m, next, k)
    ensures !LostWithin(m, chain[i], n)
    decreases n
  {
    if n > 0 && i + 1 < |chain| {
      WalkedNotLost(m, chain, i + 1, next, n - 1);
    }
  }

  /** Nothing on a cycle is rooted. */
  lemma {:induction false} CycleNotRooted(m: map<string, Option<string>>, cycle: seq<string>, i: nat, n: nat)
    requires i < |cycle| && Walked(m, cycle, Some(cycle[0]))
    ensures !RootedWithin(m, cycle[i], n)
    decreases n
  {
    var next := if i + 1 < |cycle| then i + 1 else 0;
    assert m[cycle[i]] == Some(cycle[next]);
    if n > 0 {
      CycleNotRooted(m, cycle, next, n - 1);
    }
  }

  // ----- the second pass

  /** A table of nodes in insertion order, with distinct ids. */
  ghost predicate NodeTable(nodes: seq<Node>, m: map<string, Option<string>>) {
    && (forall i, j :: 0 <= i < j < |nodes| ==> nodes[i].id != nodes[j].id)
    && (forall i :: 0 <= i < |nodes| ==> nodes[i].id in m && m[nodes[i].id] == nodes[i].parent)
    && (forall id :: id in m ==> exists i :: 0 <= i < |nodes| && nodes[i].id == id)
  }

  /** Why a chain does not reach null: it leads to an id that is not there, or it never ends. */
  ghost function ReasonFor(m: map<string, Option<string>>, id: string): Reason {
    if Lost(m, id) then MissingParent else CyclicChain
  }

  /** Walk from one node until null, a node that is known to be good, or a defect. */
  method WalkChain(m: map<string, Option<string>>, id: string, checked: set<string>)
    returns (failure: Option<Reason>, path: set<string>, steps: nat)
    requires id in m && checked <= m.Keys && AllRooted(m, checked)
    ensures failure.None? <==> Rooted(m, id)
    ensures failure.None? ==> path <= m.Keys && path !! checked && id in path + checked
    ensures failure.None? ==> AllRooted(m, path)
    ensures failure.None? ==> steps == |path|
    ensures failure.Some? ==> steps <= |m.Keys - checked| + 1
    ensures failure.Some? ==> failure.value == ReasonFor(m, id)
  {
    path, steps := {}, 0;
    var current := Some(id);
    ghost var chain: seq<string> := [];
    while current.Some? && current.value !in checked
      invariant Walked(m, chain, current) && Elems(chain) == path
      invariant if chain == [] then current == Some(id) else chain[0] == id
      invariant path <= m.Keys && path !! checked && steps == |path|
      decreases m.Keys - path
    {
      if current.value in path {
        CycleInChain(m, chain, current.value);
        SubsetSize(path, m.Keys - checked);
        return Some(CyclicChain), path, steps;
      }
      ghost var before := path;
      path := path + {current.value};
      steps := steps + 1;
      if current.value !in m {
        assert !Rooted(m, current.value);
        WalkedFromStart(m, chain, current.value);
        assert LostWithin(m, current.value, 0);
        WalkedToLost(m, chain, current.value);
        assert |before| <= |m.Keys - checked| by {
          SubsetSize(before, m.Keys - checked);
        }
        return Some(MissingParent), path, steps;
      }
      ExtendWalk(m, chain, current.value);
      chain := chain + [current.value];
      current := m[current.value];
    }
    WalkedRooted(m, chain, current);
    failure := None;
  }

  lemma {:induction false} SubsetSize<T>(a: set<T>, b: set<T>)
    requires a <= b
    ensures |a| <= |b|
  {
    if a != {} {
      var x :| x in a;
      SubsetSize(a - {x}, b - {x});
    }
  }

  lemma ExtendWalk(m: map<string, Option<string>>, chain: seq<string>, id: string)
    requires Walked(m, chain, Some(id)) && id in m
    ensures Walked(m, chain + [id], m[id])
    ensures Elems(chain + [id]) == Elems(chain) + {id}
  {
    var longer := chain + [id];
    forall i | 0 <= i < |longer| - 1
      ensures m[longer[i]] == Some(longer[i + 1])
    {
      if i == |chain| - 1 {
        assert longer[i] == Last(chain);
      }
    }
    assert forall x :: x in longer <==> x in chain || x == id;
  }

  /** Meeting the chain again closes a cycle, so the start is not rooted. */
  lemma CycleInChain(m: map<string, Option<string>>, chain: seq<string>, id: string)
    requires Walked(m, chain, Some(id)) && id in chain
    ensures !Rooted(m, chain[0]) && !Lost(m, chain[0])
  {
    var k :| 0 <= k < |chain| && chain[k] == id;
    var cycle := chain[k..];
    assert Last(cycle) == Last(chain);
    assert Walked(m, cycle, Some(cycle[0]));
    forall n: nat
      ensures !RootedWithin(m, id, n)
    {
      CycleNotRooted(m, cycle, 0, n);
    }
    WalkedFromStart(m, chain, id);
    forall n: nat
      ensures !LostWithin(m, id, n)
    {
      CycleNotLost(m, cycle, 0, n);
    }
    forall n: nat
      ensures !LostWithin(m, chain[0], n)
    {
      WalkedNotLost(m, chain, 0, id, n);
    }
  }

  /** The first node, in insertion order, whose chain does not reach null. */
  ghost predicate FirstUnrooted(nodes: seq<Node>, m: map<string, Option<string>>, k: nat) {
    k < |nodes| && !Rooted(m, nodes[k].id) && forall j :: 0 <= j < k ==> Rooted(m, nodes[j].id)
  }

  lemma FoundUnrooted(nodes: seq<Node>, m: map<string, Option<string>>, checked: set<string>, k: nat)
    requires k < |nodes| && AllRooted(m, checked) && !Rooted(m, nodes[k].id)
    requires forall j :: 0 <= j < k ==> nodes[j].id in checked
    ensures FirstUnrooted(nodes, m, k)
    ensures nodes[k].id in m ==> !Forest(m)
  {
  }

  lemma CheckedGrows(m: map<string, Option<string>>, checked: set<string>, path: set<string>)
    requires AllRooted(m, checked) && AllRooted(m, path) && path !! checked
    ensures AllRooted(m, checked + path) && |checked + path| == |checked| + |path|
  {
  }

  lemma Remaining<T>(all: set<T>, part: set<T>)
    requires part <= all
    ensures |all - part| == |all| - |part|
  {
    assert all == (all - part) + part;
  }

  /** The loop over all nodes, with the set of checked ids and the number of steps taken. */
  method CheckEach(nodes: seq<Node>, m: map<string, Option<string>>)
    returns (failure: Option<Reason>, at: nat, checked: set<string>, steps: nat)
    requires forall i :: 0 <= i < |nodes| ==> nodes[i].id in m
    ensures failure.None? ==> checked <= m.Keys && AllRooted(m, checked) && steps == |checked|
    ensures failure.None? ==> forall j :: 0 <= j < |nodes| ==> nodes[j].id in checked
    ensures failure.Some? ==>
      FirstUnrooted(nodes, m, at) && failure.value == ReasonFor(m, nodes[at].id) && steps <= |m| + 1
  {
    checked, steps, at := {}, 0, 0;
    while at < |nodes|
      invariant 0 <= at <= |nodes|
      invariant checked <= m.Keys && steps == |checked| && AllRooted(m, checked)
      invariant forall j :: 0 <= j < at ==> nodes[j].id in checked
    {
      var path, walked;
      failure, path, walked := WalkChain(m, nodes[at].id, checked);
      if failure.Some? {
        Remaining(m.Keys, checked);
        FoundUnrooted(nodes, m, checked, at);
        return failure, at, checked, steps + walked;
      }
      CheckedGrows(m, checked, path);
      steps := steps + walked;
      checked := checked + path;
      at := at + 1;
    }
    failure := None;
  }

  /** The second pass. It fails at the line of the first node whose chain does not reach null; if it
      succeeds it has taken exactly one step per node. */
  method CheckChains(nodes: seq<Node>, m: map<string, Option<string>>)
    returns (error: Option<Error>, steps: nat, ghost at: nat)
    requires NodeTable(nodes, m)
    ensures error.None? <==> Forest(m)
    ensures error.None? ==> steps == |m|
    ensures steps <= |m| + 1
    ensures error.Some? ==>
      FirstUnrooted(nodes, m, at) && error.value == Invalid(nodes[at].line, ReasonFor(m, nodes[at].id))
  {
    var failure, k, checked, taken := CheckEach(nodes, m);
    steps, at := taken, k;
    if failure.Some? {
      return Some(Invalid(nodes[k].line, failure.value)), steps, at;
    }
    AllChecked(nodes, m, checked);
    error := None;
  }

  lemma AllChecked(nodes: seq<Node>, m: map<string, Option<string>>, checked: set<string>)
    requires NodeTable(nodes, m) && checked <= m.Keys
    requires forall j :: 0 <= j < |nodes| ==> nodes[j].id in checked
    ensures checked == m.Keys && |checked| == |m|
  {
    forall id | id in m
      ensures id in checked
    {
      var i :| 0 <= i < |nodes| && nodes[i].id == id;
    }
    assert checked == m.Keys;
  }

  // ----- the first pass

  /** The lines of the body are read in order; the table of nodes grows as they are. */
  datatype Collected = Collected(header: nat, version: int, nodes: seq<Node>, parents: map<string, Option<string>>)

  /** What the entries behind the header may look like up to line n. */
  ghost predicate GoodSoFar(body: seq<Line>, h: nat, n: nat, chained: bool) {
    && (forall k :: h < k < n && k < |body| ==> body[k].Blank? || GoodEntry(body[k], chained))
    && (chained ==>
          forall i, j :: h < i < j < n && j < |body| && body[i].Record? && body[j].Record? ==> body[i].id != body[j].id)
  }

  predicate RecordAt(body: seq<Line>, h: nat, n: nat, k: nat) {
    h < k < n && k < |body| && body[k].Record?
  }

  predicate OnLine(body: seq<Line>, h: nat, n: nat, node: Node) {
    node.line > 0 && RecordAt(body, h, n, node.line - 1) && body[node.line - 1].id == Some(node.id)
  }

  ghost predicate HasNode(nodes: seq<Node>, line: nat) {
    exists i :: 0 <= i < |nodes| && nodes[i].line == line
  }

  /** The nodes are the entries behind the header, in the order of their lines. */
  ghost predicate NodeLines(body: seq<Line>, h: nat, n: nat, nodes: seq<Node>) {
    && (forall i :: 0 <= i < |nodes| ==> OnLine(body, h, n, nodes[i]))
    && (forall i, j :: 0 <= i < j < |nodes| ==> nodes[i].line < nodes[j].line)
    && (forall k: nat :: RecordAt(body, h, n, k) ==> HasNode(nodes, k + 1))
  }

  ghost predicate CollectedUpTo(body: seq<Line>, c: Collected, n: nat) {
    && c.header < n <= |body| && (c.version >= 2 <==> Chained(body[c.header]))
    && GoodSoFar(body, c.header, n, Chained(body[c.header]))
    && (if c.version < 2 then c.nodes == [] && c.parents == map[]
        else && c.parents == Parents(body, c.header, n) && NodeTable(c.nodes, c.parents)
             && NodeLines(body, c.header, n, c.nodes))
  }

  lemma KnownId(body: seq<Line>, h: nat, n: nat, id: string)
    requires h < n <= |body|
    ensures id in Parents(body, h, n) <==> exists k :: h < k < n && body[k].Record? && body[k].id == Some(id)
  {
    if n > h + 1 {
      KnownId(body, h, n - 1, id);
      if k :| h < k < n && body[k].Record? && body[k].id == Some(id) {
        assert k == n - 1 || id in Parents(body, h, n - 1);
      }
    }
  }

  lemma GrowTable(nodes: seq<Node>, m: map<string, Option<string>>, node: Node)
    requires NodeTable(nodes, m) && node.id !in m
    ensures NodeTable(nodes + [node], m[node.id := node.parent])
  {
    var longer := nodes + [node];
    var m' := m[node.id := node.parent];
    forall id | id in m'
      ensures exists i :: 0 <= i < |longer| && longer[i].id == id
    {
      if id == node.id {
        assert longer[|nodes|].id == id;
      } else {
        var i :| 0 <= i < |nodes| && nodes[i].id == id;
        assert longer[i].id == id;
      }
    }
  }

  lemma GrowLines(body: seq<Line>, h: nat, n: nat, nodes: seq<Node>, node: Node)
    requires h < n < |body| && NodeLines(body, h, n, nodes)
    requires node.line == n + 1 && body[n].Record? && body[n].id == Some(node.id)
    ensures NodeLines(body, h, n + 1, nodes + [node])
  {
    var longer, m := nodes + [node], n + 1;
    forall k: nat | RecordAt(body, h, m, k)
      ensures HasNode(longer, k + 1)
    {
      if k < n {
        assert RecordAt(body, h, n, k);
        var i :| 0 <= i < |nodes| && nodes[i].line == k + 1;
        assert longer[i].line == k + 1;
      } else {
        assert longer[|nodes|].line == k + 1;
      }
    }
    forall i | 0 <= i < |longer|
      ensures OnLine(body, h, m, longer[i])
    {
      assert i < |nodes| ==> OnLine(body, h, n, nodes[i]);
    }
  }

  lemma BlankKeepsLines(body: seq<Line>, h: nat, n: nat, nodes: seq<Node>)
    requires h < n < |body| && NodeLines(body, h, n, nodes) && body[n].Blank?
    ensures NodeLines(body, h, n + 1, nodes)
  {
    var m := n + 1;
    forall k: nat | RecordAt(body, h, m, k)
      ensures HasNode(nodes, k + 1)
    {
      assert RecordAt(body, h, n, k);
    }
    forall i | 0 <= i < |nodes|
      ensures OnLine(body, h, m, nodes[i])
    {
      assert OnLine(body, h, n, nodes[i]);
    }
  }

  // ----- the first defect

  /** What is wrong with a first line that is no header. */
  predicate IsHeaderDefect(line: Line, current: int, reason: Reason) {
    match reason
    case MalformedLine => line.MalformedJson?
    case ExpectedRecord => line.NotARecord?
    case MissingType => line.Record? && line.kind.None?
    case ExpectedHeader => line.Record? && line.kind.Some? && (line.kind.value != "session" || line.id.None?)
    case UnsupportedVersion =>
      line.Record? && line.kind == Some("session") && line.id.Some? && !Readable(line.version, current)
    case _ => false
  }

  ghost predicate SeenBefore(body: seq<Line>, h: nat, n: nat, id: string) {
    exists k :: h < k < n && k < |body| && body[k].Record? && body[k].id == Some(id)
  }

  /** What is wrong with line n behind the header. */
  ghost predicate IsEntryDefect(body: seq<Line>, h: nat, n: nat, chained: bool, reason: Reason)
    requires n < |body|
  {
    var line := body[n];
    match reason
    case MalformedLine => line.MalformedJson?
    case ExpectedRecord => line.NotARecord?
    case MissingType => line.Record? && line.kind.None?
    case DuplicateHeader => line.Record? && line.kind == Some("session")
    case InvalidMessage => line.Record? && line.kind == Some("message") && !line.validMessage
    case MissingId => chained && PlainEntry(line) && line.id.None?
    case DuplicateId => chained && PlainEntry(line) && line.id.Some? && SeenBefore(body, h, n, line.id.value)
    case InvalidParentId =>
      && chained && PlainEntry(line) && line.id.Some? && !SeenBefore(body, h, n, line.id.value)
      && line.parent.InvalidParent?
    case _ => false
  }

  ghost predicate HeaderFault(body: seq<Line>, current: int, n: nat, reason: Reason) {
    n < |body| && (forall k :: 0 <= k < n ==> body[k].Blank?) && IsHeaderDefect(body[n], current, reason)
  }

  ghost predicate EntryFault(body: seq<Line>, current: int, h: nat, n: nat, reason: Reason) {
    && HeaderAt(body, h, current) && h < n < |body|
    && GoodSoFar(body, h, n, Chained(body[h])) && IsEntryDefect(body, h, n, Chained(body[h]), reason)
  }

  /** All lines are good, and line n is the first entry whose chain does not reach null. */
  ghost predicate ChainFault(body: seq<Line>, current: int, h: nat, n: nat, reason: Reason) {
    && HeaderAt(body, h, current) && h < n < |body| && Chained(body[h]) && GoodSoFar(body, h, |body|, true)
    && body[n].Record? && body[n].id.Some?
    && !Rooted(Parents(body, h, |body|), body[n].id.value)
    && (forall k :: h < k < n && body[k].Record? && body[k].id.Some? ==>
          Rooted(Parents(body, h, |body|), body[k].id.value))
    && reason == ReasonFor(Parents(body, h, |body|), body[n].id.value)
  }

  /** The error names the first defect: that there is no line at all, or the line, counted from 1, and
      what is wrong with it. */
  ghost predicate FirstDefect(body: seq<Line>, current: int, error: Error) {
    match error
    case EmptySession => forall k :: 0 <= k < |body| ==> body[k].Blank?
    case Invalid(line, reason) =>
      line >= 1 &&
      var n := line - 1;
      || HeaderFault(body, current, n, reason)
      || (exists h: nat :: EntryFault(body, current, h, n, reason))
      || (exists h: nat :: ChainFault(body, current, h, n, reason))
  }

  /** One line behind the header. */
  method ReadEntry(body: seq<Line>, c: Collected, n: nat) returns (r: Result<Collected, Error>)
    requires n < |body| && CollectedUpTo(body, c, n) && !body[n].Blank?
    ensures r.Success? <==> GoodSoFar(body, c.header, n + 1, Chained(body[c.header]))
    ensures r.Success? ==>
      r.value.header == c.header && r.value.version == c.version && CollectedUpTo(body, r.value, n + 1)
    ensures r.Failure? ==>
      && r.error.Invalid? && r.error.line == n + 1
      && IsEntryDefect(body, c.header, n, Chained(body[c.header]), r.error.reason)
  {
    var line := body[n];
    if line.MalformedJson? {
      return Failure(Invalid(n + 1, MalformedLine));
    }
    if line.NotARecord? {
      return Failure(Invalid(n + 1, ExpectedRecord));
    }
    if line.kind.None? {
      return Failure(Invalid(n + 1, MissingType));
    }
    if line.kind.value == "session" {
      return Failure(Invalid(n + 1, DuplicateHeader));
    }
    if line.kind.value == "message" && !line.validMessage {
      return Failure(Invalid(n + 1, InvalidMessage));
    }
    if c.version < 2 {
      return Success(c);
    }
    if line.id.None? {
      return Failure(Invalid(n + 1, MissingId));
    }
    KnownId(body, c.header, n, line.id.value);
    if line.id.value in c.parents {
      return Failure(Invalid(n + 1, DuplicateId));
    }
    if line.parent.InvalidParent? {
      return Failure(Invalid(n + 1, InvalidParentId));
    }
    var node := Node(line.id.value, if line.parent.ParentId? then Some(line.parent.id) else None, n + 1);
    GrowTable(c.nodes, c.parents, node);
    GrowLines(body, c.header, n, c.nodes, node);
    return Success(Collected(c.header, c.version, c.nodes + [node], c.parents[node.id := node.parent]));
  }

  /** The first line that is not blank: the version of a header, or why it is none. */
  method ReadHeader(line: Line, lineNumber: nat, current: int) returns (r: Result<int, Error>)
    requires !line.Blank?
    ensures r.Success? <==> GoodHeader(line, current)
    ensures r.Success? ==> (r.value >= 2 <==> Chained(line))
    ensures r.Failure? ==>
      r.error.Invalid? && r.error.line == lineNumber && IsHeaderDefect(line, current, r.error.reason)
  {
    if line.MalformedJson? {
      return Failure(Invalid(lineNumber, MalformedLine));
    }
    if line.NotARecord? {
      return Failure(Invalid(lineNumber, ExpectedRecord));
    }
    if line.kind.None? {
      return Failure(Invalid(lineNumber, MissingType));
    }
    if line.kind.value != "session" || line.id.None? {
      return Failure(Invalid(lineNumber, ExpectedHeader));
    }
    if !SupportedVersion(line.version, current) {
      return Failure(Invalid(lineNumber, UnsupportedVersion));
    }
    return Success(VersionOf(line.version));
  }

  /** `validateImportedSession`: it accepts exactly the acceptable bodies, and of any other it names the
      first defect. */
  method ValidateImportedSession(body: seq<Line>, current: int) returns (error: Option<Error>)
    ensures error.None? <==> Acceptable(body, current)
    ensures error.Some? ==> FirstDefect(body, current, error.value)
  {
    var collected: Option<Collected> := None;
    var n := 0;
    while n < |body|
      invariant 0 <= n <= |body|
      invariant collected.None? ==> forall k :: 0 <= k < n ==> body[k].Blank?
      invariant collected.Some? ==> HeaderAt(body, collected.value.header, current) && CollectedUpTo(body, collected.value, n)
    {
      var line := body[n];
      if line.Blank? {
        BlankLine(body, collected, n);
        n := n + 1;
        continue;
      }
      if collected.None? {
        var version := ReadHeader(line, n + 1, current);
        if version.Failure? {
          HeaderFaultFound(body, n, current, version.error);
          return Some(version.error);
        }
        StartCollecting(body, n, version.value);
        collected := Some(Collected(n, version.value, [], map[]));
      } else {
        var r := ReadEntry(body, collected.value, n);
        if r.Failure? {
          EntryFaultFound(body, collected.value.header, n, current, r.error);
          return Some(r.error);
        }
        collected := Some(r.value);
      }
      n := n + 1;
    }
    if collected.None? {
      return Some(EmptySession);
    }
    error := CheckCollected(body, current, collected.value);
  }

  /** The end of the validator, when all lines are good. */
  method CheckCollected(body: seq<Line>, current: int, c: Collected) returns (error: Option<Error>)
    requires HeaderAt(body, c.header, current) && CollectedUpTo(body, c, |body|)
    ensures error.None? <==> Acceptable(body, current)
    ensures error.Some? ==> FirstDefect(body, current, error.value)
  {
    HeaderIsUnique(body, c.header, current);
    AcceptableFrom(body, current, c);
    if c.version < 2 {
      // Only numbered entries carry ids; there is no chain to check.
      return None;
    }
    var failure, _, at := CheckChains(c.nodes, c.parents);
    if failure.Some? {
      ChainErrorFound(body, current, c.header, c.nodes, at);
    }
    return failure;
  }

  lemma AcceptableFrom(body: seq<Line>, current: int, c: Collected)
    requires HeaderAt(body, c.header, current) && CollectedUpTo(body, c, |body|)
    ensures Acceptable(body, current) <==> c.version < 2 || Forest(c.parents)
  {
    HeaderIsUnique(body, c.header, current);
  }

  lemma StartCollecting(body: seq<Line>, n: nat, version: int)
    requires n < |body| && (version >= 2 <==> Chained(body[n]))
    ensures CollectedUpTo(body, Collected(n, version, [], map[]), n + 1)
  {
  }

  lemma HeaderFaultFound(body: seq<Line>, n: nat, current: int, error: Error)
    requires n < |body| && !body[n].Blank? && !GoodHeader(body[n], current)
    requires forall k :: 0 <= k < n ==> body[k].Blank?
    requires error.Invalid? && error.line == n + 1 && IsHeaderDefect(body[n], current, error.reason)
    ensures !Acceptable(body, current) && FirstDefect(body, current, error)
  {
    NoOtherHeader(body, n, current);
    assert HeaderFault(body, current, n, error.reason);
  }

  lemma EntryFaultFound(body: seq<Line>, h: nat, n: nat, current: int, error: Error)
    requires h < n < |body| && HeaderAt(body, h, current) && GoodSoFar(body, h, n, Chained(body[h]))
    requires !GoodSoFar(body, h, n + 1, Chained(body[h]))
    requires error.Invalid? && error.line == n + 1 && IsEntryDefect(body, h, n, Chained(body[h]), error.reason)
    ensures !Acceptable(body, current) && FirstDefect(body, current, error)
  {
    BadEntryRefutes(body, h, n + 1, current);
    assert EntryFault(body, current, h, n, error.reason);
  }

  lemma EarlierIsRooted(body: seq<Line>, h: nat, nodes: seq<Node>, m: map<string, Option<string>>, at: nat, k: nat)
    requires NodeLines(body, h, |body|, nodes) && FirstUnrooted(nodes, m, at)
    requires RecordAt(body, h, |body|, k) && k + 1 < nodes[at].line && body[k].id.Some?
    ensures Rooted(m, body[k].id.value)
  {
    assert HasNode(nodes, k + 1);
    var i :| 0 <= i < |nodes| && nodes[i].line == k + 1;
    assert OnLine(body, h, |body|, nodes[i]);
    assert i < at;
  }

  lemma ChainErrorFound(body: seq<Line>, current: int, h: nat, nodes: seq<Node>, at: nat)
    requires HeaderAt(body, h, current) && Chained(body[h]) && GoodSoFar(body, h, |body|, true)
    requires NodeLines(body, h, |body|, nodes) && FirstUnrooted(nodes, Parents(body, h, |body|), at)
    ensures FirstDefect(body, current, Invalid(nodes[at].line, ReasonFor(Parents(body, h, |body|), nodes[at].id)))
  {
    var m := Parents(body, h, |body|);
    FirstChain(body, h, nodes, m, at);
    var n := nodes[at].line - 1;
    ChainDefect(body, current, h, n, ReasonFor(m, nodes[at].id));
  }

  lemma ChainDefect(body: seq<Line>, current: int, h: nat, n: nat, reason: Reason)
    requires ChainFault(body, current, h, n, reason)
    ensures FirstDefect(body, current, Invalid(n + 1, reason))
  {
  }

  lemma FirstChain(body: seq<Line>, h: nat, nodes: seq<Node>, m: map<string, Option<string>>, at: nat)
    requires NodeLines(body, h, |body|, nodes) && FirstUnrooted(nodes, m, at)
    ensures var n := nodes[at].line - 1;
            && h < n < |body| && body[n].Record? && body[n].id == Some(nodes[at].id) && !Rooted(m, nodes[at].id)
            && forall k :: h < k < n && body[k].Record? && body[k].id.Some? ==> Rooted(m, body[k].id.value)
  {
    assert OnLine(body, h, |body|, nodes[at]);
    var n := nodes[at].line - 1;
    forall k | h < k < n && body[k].Record? && body[k].id.Some?
      ensures Rooted(m, body[k].id.value)
    {
      EarlierIsRooted(body, h, nodes, m, at, k);
    }
  }

  lemma BlankLine(body: seq<Line>, collected: Option<Collected>, n: nat)
    requires n < |body| && body[n].Blank?
    requires collected.Some? ==> CollectedUpTo(body, collected.value, n)
    ensures collected.Some? ==> CollectedUpTo(body, collected.value, n + 1)
  {
    if collected.Some? && collected.value.version >= 2 {
      BlankKeepsLines(body, collected.value.header, n, collected.value.nodes);
    }
  }

  lemma HeaderIsUnique(body: seq<Line>, h: nat, current: int)
    requires HeaderAt(body, h, current)
    ensures forall g: nat :: HeaderAt(body, g, current) ==> g == h
  {
    forall g: nat | HeaderAt(body, g, current)
      ensures g == h
    {
    }
  }

  lemma NoOtherHeader(body: seq<Line>, n: nat, current: int)
    requires n < |body| && !body[n].Blank? && !GoodHeader(body[n], current)
    requires forall k :: 0 <= k < n ==> body[k].Blank?
    ensures !Acceptable(body, current)
  {
    forall h: nat | HeaderAt(body, h, current)
      ensures false
    {
    }
  }

  lemma BadEntryRefutes(body: seq<Line>, h: nat, n: nat, current: int)
    requires HeaderAt(body, h, current) && n <= |body|
    requires !GoodSoFar(body, h, n, Chained(body[h]))
    ensures !Acceptable(body, current)
  {
    HeaderIsUnique(body, h, current);
  }
}
