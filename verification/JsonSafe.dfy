/** Turning a graph of objects, possibly cyclic and possibly shared, into plain JSON. Only the
    ancestors of the value at hand are marked, so a repeated object is written out and a cycle is cut. */
module JsonSafe {
  import opened Wrappers

  const CIRCULAR := "[Circular]"

  type Id = nat

  /** A value as the program holds it. Objects are referred to by identity. A date that is not valid
      has no text, and asking for it throws. */
  datatype Value =
    | Null
    | Undefined
    | Text(text: string)
    | Number(number: real)
    | Boolean(truth: bool)
    | BigInt(digits: string)
    | ErrorObject(name: string, message: string, stack: Option<string>)
    | Date(iso: Option<string>)
    | Other(tag: string)
    | Reference(id: Id)

  /** An array, or an object with its own enumerable properties in order. */
  datatype Object = Array(items: seq<Value>) | Record(names: seq<string>, items: seq<Value>)

  type Heap = map<Id, Object>

  datatype Json =
    | JNull
    | JText(text: string)
    | JNumber(number: real)
    | JBoolean(truth: bool)
    | JError(name: string, message: string, stack: Option<string>)
    | JArray(items: seq<Json>)
    | JRecord(names: seq<string>, items: seq<Json>)

  datatype Thrown = InvalidDate

  /** References point at objects. */
  ghost predicate Closed(heap: Heap) {
    forall id :: id in heap ==>
      && (heap[id].Record? ==> |heap[id].names| == |heap[id].items|)
      && forall v :: v in heap[id].items ==> Known(heap, v)
  }

  predicate Known(heap: Heap, value: Value) {
    value.Reference? ==> value.id in heap
  }

  /** A value that is not followed. */
  function Leaf(value: Value): Result<Json, Thrown>
    requires !value.Reference?
  {
    match value
    case Null => Success(JNull)
    case Undefined => Success(JNull)
    case Text(text) => Success(JText(text))
    case Number(number) => Success(JNumber(number))
    case Boolean(truth) => Success(JBoolean(truth))
    case BigInt(digits) => Success(JText(digits))
    case ErrorObject(name, message, stack) => Success(JError(name, message, stack))
    case Date(iso) => if iso.Some? then Success(JText(iso.value)) else Failure(InvalidDate)
    case Other(tag) => Success(JText(tag))
  }

  function Rebuild(o: Object, items: seq<Json>): Json {
    match o
    case Array(_) => JArray(items)
    case Record(names, _) => JRecord(names, items)
  }

  // ----- the result, with the set of marked objects as an argument

  function Safe(heap: Heap, value: Value, seen: set<Id>): (r: Result<Json, Thrown>)
    requires Closed(heap) && Known(heap, value)
    decreases heap.Keys - seen, 0
  {
    if !value.Reference? then Leaf(value)
    else if value.id in seen then Success(JText(CIRCULAR))
    else
      assert value.id in heap.Keys - seen;
      match SafeAll(heap, heap[value.id].items, seen + {value.id})
      case Success(items) => Success(Rebuild(heap[value.id], items))
      case Failure(e) => Failure(e)
  }

  function SafeAll(heap: Heap, values: seq<Value>, seen: set<Id>): (r: Result<seq<Json>, Thrown>)
    requires Closed(heap) && forall v :: v in values ==> Known(heap, v)
    ensures r.Success? ==> |r.value| == |values|
    ensures r.Success? ==> forall k :: 0 <= k < |values| ==> Safe(heap, values[k], seen) == Success(r.value[k])
    ensures r.Failure? ==> exists k :: 0 <= k < |values| && Safe(heap, values[k], seen).Failure?
    decreases heap.Keys - seen, 1 + |values|
  {
    if values == [] then Success([])
    else
      match Safe(heap, values[0], seen)
      case Failure(e) => Failure(e)
      case Success(item) =>
        match SafeAll(heap, values[1..], seen)
        case Failure(e) =>
          assert forall k :: 0 <= k < |values[1..]| ==> values[1..][k] == values[k + 1];
          Failure(e)
        case Success(items) => Success([item] + items)
  }

  lemma {:induction false} AllSafe(heap: Heap, values: seq<Value>, seen: set<Id>, items: seq<Json>)
    requires Closed(heap) && forall v :: v in values ==> Known(heap, v)
    requires |items| == |values| && forall k :: 0 <= k < |values| ==> Safe(heap, values[k], seen) == Success(items[k])
    ensures SafeAll(heap, values, seen) == Success(items)
    decreases |values|
  {
    if values != [] {
      AllSafe(heap, values[1..], seen, items[1..]);
      assert items == [items[0]] + items[1..];
    }
  }

  lemma {:induction false} FirstThrows(heap: Heap, values: seq<Value>, seen: set<Id>, i: nat)
    requires Closed(heap) && forall v :: v in values ==> Known(heap, v)
    requires i < |values| && Safe(heap, values[i], seen).Failure?
    requires forall k :: 0 <= k < i ==> Safe(heap, values[k], seen).Success?
    ensures SafeAll(heap, values, seen) == Failure(Safe(heap, values[i], seen).error)
    decreases i
  {
    if i > 0 {
      FirstThrows(heap, values[1..], seen, i - 1);
    }
  }

  // ----- the recursive walk with its one set of marks

  class Marks {
    var seen: set<Id>

    constructor ()
      ensures seen == {}
    {
      seen := {};
    }

    /** `jsonSafe`. The marks are as before when it returns and when it throws. */
    method JsonSafe(heap: Heap, value: Value) returns (r: Result<Json, Thrown>)
      requires Closed(heap) && Known(heap, value)
      modifies this
      ensures seen == old(seen)
      ensures r == Safe(heap, value, old(seen))
      decreases heap.Keys - seen
    {
      if !value.Reference? {
        return Leaf(value);
      }
      if value.id in seen {
        return Success(JText(CIRCULAR));
      }
      ghost var before := seen;
      var o := heap[value.id];
      assert value.id in heap.Keys - before;
      seen := seen + {value.id};
      var items: seq<Json> := [];
      for i := 0 to |o.items|
        invariant seen == before + {value.id}
        invariant |items| == i
        invariant forall k :: 0 <= k < i ==> Safe(heap, o.items[k], seen) == Success(items[k])
      {
        var item := JsonSafe(heap, o.items[i]);
        if item.Failure? {
          FirstThrows(heap, o.items, seen, i);
          seen := seen - {value.id};
          return Failure(item.error);
        }
        items := items + [item.value];
      }
      AllSafe(heap, o.items, seen, items);
      seen := seen - {value.id};
      return Success(Rebuild(o, items));
    }
  }

  // ----- positions

  /** A position, as the numbers of the items taken on the way down. */
  type Position = seq<nat>

  /** The value found at a position when every reference is followed. */
  ghost function ValueAt(heap: Heap, value: Value, p: Position): (r: Option<Value>)
    requires Closed(heap) && Known(heap, value)
    ensures r.Some? ==> Known(heap, r.value)
    decreases |p|
  {
    if p == [] then Some(value)
    else if value.Reference? && p[0] < |heap[value.id].items| then ValueAt(heap, heap[value.id].items[p[0]], p[1..])
    else None
  }

  /** The objects passed through before the position is reached. */
  ghost function Ancestors(heap: Heap, value: Value, p: Position): seq<Id>
    requires Closed(heap) && Known(heap, value)
    decreases |p|
  {
    if p != [] && value.Reference? && p[0] < |heap[value.id].items|
    then [value.id] + Ancestors(heap, heap[value.id].items[p[0]], p[1..])
    else []
  }

  ghost function At(json: Json, p: Position): Option<Json>
    decreases |p|
  {
    if p == [] then Some(json)
    else if (json.JArray? || json.JRecord?) && p[0] < |json.items| then At(json.items[p[0]], p[1..])
    else None
  }

  /** The way to the position enters no object twice. */
  ghost predicate Simple(heap: Heap, value: Value, p: Position)
    requires Closed(heap) && Known(heap, value)
  {
    ValueAt(heap, value, p).Some? && Distinct(Ancestors(heap, value, p))
  }

  ghost predicate SameShape(json: Json, o: Object) {
    match o
    case Array(items) => json.JArray? && |json.items| == |items|
    case Record(names, items) => json.JRecord? && json.names == names && |json.items| == |items|
  }

  /** What a value that is not followed may be written as: null for null and undefined, a text for itself,
      for the digits of a big integer, for a tag and for a valid date, numbers and truth values as they
      are, and the three fields of an error. */
  predicate WrittenAs(value: Value, json: Json) {
    match json
    case JNull => value.Null? || value.Undefined?
    case JText(text) => value in {Text(text), BigInt(text), Other(text), Date(Some(text))}
    case JNumber(number) => value == Number(number)
    case JBoolean(truth) => value == Boolean(truth)
    case JError(name, message, stack) => value == ErrorObject(name, message, stack)
    case _ => false
  }

  /** What is written for a value below some ancestors. */
  ghost predicate WrittenFor(heap: Heap, value: Value, above: set<Id>, json: Json)
    requires Known(heap, value)
  {
    if !value.Reference? then WrittenAs(value, json)
    else if value.id in above then json == JText(CIRCULAR)
    else SameShape(json, heap[value.id])
  }

  /** The positions of the result are those whose way down enters no object twice, and the result
      says "[Circular]" for a reference exactly where it points at one of its ancestors; any other
      reference is written out, item by item, and everything else is written as it stands. */
  lemma CircularExactly(heap: Heap, value: Value, json: Json, p: Position)
    requires Closed(heap) && Known(heap, value) && Safe(heap, value, {}) == Success(json)
    ensures At(json, p).Some? <==> Simple(heap, value, p)
    ensures At(json, p).Some? ==>
      WrittenFor(heap, ValueAt(heap, value, p).value, Elems(Ancestors(heap, value, p)), At(json, p).value)
  {
    CircularBelow(heap, value, {}, json, p);
    assert {} + Elems(Ancestors(heap, value, p)) == Elems(Ancestors(heap, value, p));
  }

  lemma {:induction false} CircularBelow(heap: Heap, value: Value, seen: set<Id>, json: Json, p: Position)
    requires Closed(heap) && Known(heap, value) && Safe(heap, value, seen) == Success(json)
    ensures At(json, p).Some? <==>
      Simple(heap, value, p) && forall id :: id in Ancestors(heap, value, p) ==> id !in seen
    ensures At(json, p).Some? ==>
      WrittenFor(heap, ValueAt(heap, value, p).value, seen + Elems(Ancestors(heap, value, p)), At(json, p).value)
    decreases |p|
  {
    if p != [] && value.Reference? && p[0] < |heap[value.id].items| {
      var child := heap[value.id].items[p[0]];
      var below := Ancestors(heap, child, p[1..]);
      var above := Ancestors(heap, value, p);
      assert above == [value.id] + below && above[0] == value.id;
      assert forall id :: id in above <==> id == value.id || id in below;
      assert Distinct(above) <==> value.id !in below && Distinct(below) by {
        PushDistinct(value.id, below);
      }
      if value.id in seen {
        assert value.id in above;
      } else {
        CircularBelow(heap, child, seen + {value.id}, json.items[p[0]], p[1..]);
        assert seen + {value.id} + Elems(below) == seen + Elems(above);
      }
    } else if p == [] {
      assert seen + Elems(Ancestors(heap, value, p)) == seen;
    }
  }

  lemma PushDistinct<T>(x: T, s: seq<T>)
    ensures Distinct([x] + s) <==> x !in s && Distinct(s)
  {
    var all := [x] + s;
    assert all[0] == x && all[1..] == s;
    if Distinct(all) {
      forall i, j | 0 <= i < j < |s|
        ensures s[i] != s[j] && s[j] != x && s[i] != x
      {
        assert all[i + 1] == s[i] && all[j + 1] == s[j];
      }
      assert forall k :: 0 <= k < |s| ==> s[k] == all[k + 1] != x;
    }
  }

  /** It throws exactly when a date that is not valid stands where it would be written. */
  lemma ThrowsExactly(heap: Heap, value: Value)
    requires Closed(heap) && Known(heap, value)
    ensures Safe(heap, value, {}).Failure? <==>
      exists p :: Simple(heap, value, p) && ValueAt(heap, value, p) == Some(Date(None))
  {
    if Safe(heap, value, {}).Success? {
      forall p | Simple(heap, value, p)
        ensures ValueAt(heap, value, p) != Some(Date(None))
      {
        CircularExactly(heap, value, Safe(heap, value, {}).value, p);
      }
    } else {
      var _ := WhereItThrows(heap, value, {});
    }
  }

  lemma {:induction false} WhereItThrows(heap: Heap, value: Value, seen: set<Id>) returns (p: Position)
    requires Closed(heap) && Known(heap, value) && Safe(heap, value, seen).Failure?
    ensures Simple(heap, value, p) && ValueAt(heap, value, p) == Some(Date(None))
    ensures forall id :: id in Ancestors(heap, value, p) ==> id !in seen
    decreases heap.Keys - seen
  {
    if !value.Reference? {
      p := [];
    } else {
      var items := heap[value.id].items;
      var k :| 0 <= k < |items| && Safe(heap, items[k], seen + {value.id}).Failure?;
      assert value.id in heap.Keys - seen;
      var q := WhereItThrows(heap, items[k], seen + {value.id});
      p := [k] + q;
      assert p[1..] == q;
      PushDistinct(value.id, Ancestors(heap, items[k], q));
    }
  }

  // ----- without cycles

  /** The JSON is the value with every reference followed. */
  ghost predicate Unfolds(heap: Heap, value: Value, json: Json)
    requires Closed(heap) && Known(heap, value)
    decreases json
  {
    if !value.Reference? then WrittenAs(value, json)
    else
      var o := heap[value.id];
      && SameShape(json, o)
      && forall k :: 0 <= k < |o.items| ==> Unfolds(heap, o.items[k], json.items[k])
  }

  lemma {:induction false} UnfoldsIsUnique(heap: Heap, value: Value, a: Json, b: Json)
    requires Closed(heap) && Known(heap, value) && Unfolds(heap, value, a) && Unfolds(heap, value, b)
    ensures a == b
    decreases a
  {
    if value.Reference? {
      var items := heap[value.id].items;
      forall k | 0 <= k < |items|
        ensures a.items[k] == b.items[k]
      {
        UnfoldsIsUnique(heap, items[k], a.items[k], b.items[k]);
      }
      assert a.items == b.items;
    }
  }

  /** No reference that can be reached points at one of its ancestors, nor into the given set. */
  ghost predicate Acyclic(heap: Heap, value: Value, seen: set<Id>)
    requires Closed(heap) && Known(heap, value)
  {
    forall p, id :: ValueAt(heap, value, p) == Some(Reference(id)) ==> id !in seen && id !in Ancestors(heap, value, p)
  }

  /** The result is the plain unfolding exactly when the graph has no cycle, however much of it is shared. */
  lemma PlainExactlyWithoutCycles(heap: Heap, value: Value, json: Json)
    requires Closed(heap) && Known(heap, value) && Safe(heap, value, {}) == Success(json)
    ensures Unfolds(heap, value, json) <==> Acyclic(heap, value, {})
    ensures forall other :: Unfolds(heap, value, other) && Acyclic(heap, value, {}) ==> other == json
  {
    if Acyclic(heap, value, {}) {
      AcyclicUnfolds(heap, value, {}, json);
      forall other | Unfolds(heap, value, other)
        ensures other == json
      {
        UnfoldsIsUnique(heap, value, other, json);
      }
    }
    if Unfolds(heap, value, json) {
      forall p, id | ValueAt(heap, value, p) == Some(Reference(id))
        ensures id !in Ancestors(heap, value, p)
      {
        UnfoldedIsNoAncestor(heap, value, {}, json, p);
      }
    }
  }

  lemma {:induction false} AcyclicUnfolds(heap: Heap, value: Value, seen: set<Id>, json: Json)
    requires Closed(heap) && Known(heap, value) && Safe(heap, value, seen) == Success(json)
    requires Acyclic(heap, value, seen)
    ensures Unfolds(heap, value, json)
    decreases heap.Keys - seen
  {
    if value.Reference? {
      assert ValueAt(heap, value, []) == Some(value);
      var items := heap[value.id].items;
      assert value.id in heap.Keys - seen;
      forall k | 0 <= k < |items|
        ensures Unfolds(heap, items[k], json.items[k])
      {
        AcyclicBelow(heap, value, seen, k);
        AcyclicUnfolds(heap, items[k], seen + {value.id}, json.items[k]);
      }
    }
  }

  lemma AcyclicBelow(heap: Heap, value: Value, seen: set<Id>, k: nat)
    requires Closed(heap) && Known(heap, value) && value.Reference? && k < |heap[value.id].items|
    requires Acyclic(heap, value, seen)
    ensures Acyclic(heap, heap[value.id].items[k], seen + {value.id})
  {
    var child := heap[value.id].items[k];
    forall q, id | ValueAt(heap, child, q) == Some(Reference(id))
      ensures id !in seen + {value.id} && id !in Ancestors(heap, child, q)
    {
      var p := [k] + q;
      assert p[1..] == q;
      assert ValueAt(heap, value, p) == Some(Reference(id));
      assert Ancestors(heap, value, p) == [value.id] + Ancestors(heap, child, q);
      assert Ancestors(heap, value, p)[0] == value.id;
    }
  }

  lemma {:induction false} UnfoldedIsNoAncestor(heap: Heap, value: Value, seen: set<Id>, json: Json, p: Position)
    requires Closed(heap) && Known(heap, value) && Safe(heap, value, seen) == Success(json)
    requires Unfolds(heap, value, json) && ValueAt(heap, value, p).Some?
    ensures var v := ValueAt(heap, value, p).value;
            v.Reference? ==> v.id !in seen && v.id !in Ancestors(heap, value, p)
    decreases |p|
  {
    if p != [] {
      UnfoldedIsNoAncestor(heap, heap[value.id].items[p[0]], seen + {value.id}, json.items[p[0]], p[1..]);
    }
  }
}
