/**
 The search of renderer arguments for signing keys: a last-in-first-out walk over an
 object graph that may share and cycle, under object, depth and field budgets
 (electron/rendererSigningBoundary.ts:1-117).
 */
module SecretSearch {
  import opened Bytes
  import opened Sequences

  const MAX_OBJECTS := 10_000
  const MAX_DEPTH := 64
  const MAX_FIELDS := 512
  const MAX_TOTAL_FIELDS := 20_000
  const MAX_BINARY_BYTES := 65_536

  /** Objects and functions are numbered; everything else is primitive. */
  datatype Value = Primitive | Object(id: nat)

  /** An enumerable field in the order `for in` visits it. */
  datatype Field = OwnData(value: Value) | OwnAccessor | Inherited

  /** `secret`: one of the two secret keys is in the object or in its prototype chain. */
  datatype Thing = Thing(secret: bool, arrayLength: Option<nat>, byteLength: Option<nat>, fields: seq<Field>)

  predicate InGraph(heap: seq<Thing>, v: Value) {
    v.Object? ==> v.id < |heap|
  }

  predicate FieldInGraph(heap: seq<Thing>, field: Field) {
    field.OwnData? ==> InGraph(heap, field.value)
  }

  ghost predicate Graph(heap: seq<Thing>) {
    forall r, i :: 0 <= r < |heap| && 0 <= i < |heap[r].fields| ==> FieldInGraph(heap, heap[r].fields[i])
  }

  /** `to` is the value of an enumerable own data field of `from`. */
  ghost predicate Edge(heap: seq<Thing>, from: nat, to: nat) {
    from < |heap| && exists i :: 0 <= i < |heap[from].fields| && heap[from].fields[i] == OwnData(Object(to))
  }

  ghost predicate Path(heap: seq<Thing>, root: Value, p: seq<nat>) {
    && |p| > 0 && root == Object(p[0])
    && forall i :: 0 <= i < |p| - 1 ==> Edge(heap, p[i], p[i + 1])
  }

  ghost predicate Reachable(heap: seq<Thing>, root: Value, r: nat) {
    exists p :: Path(heap, root, p) && p[|p| - 1] == r
  }

  ghost predicate HasSecret(heap: seq<Thing>, root: Value) {
    exists r: nat :: r < |heap| && Reachable(heap, root, r) && heap[r].secret
  }

  /** An object that alone is over a limit. */
  predicate Oversized(thing: Thing) {
    || |thing.fields| > MAX_FIELDS
    || (thing.arrayLength.Some? && thing.arrayLength.value > MAX_FIELDS)
    || (thing.byteLength.Some? && thing.byteLength.value > MAX_BINARY_BYTES)
  }

  function TotalFields(heap: seq<Thing>, objects: seq<nat>): nat
    requires forall i :: 0 <= i < |objects| ==> objects[i] < |heap|
  {
    if objects == [] then 0
    else TotalFields(heap, objects[..|objects| - 1]) + |heap[objects[|objects| - 1]].fields|
  }

  ghost predicate DistinctReachable(heap: seq<Thing>, root: Value, objects: seq<nat>) {
    && Distinct(objects)
    && forall i :: 0 <= i < |objects| ==> objects[i] < |heap| && Reachable(heap, root, objects[i])
  }

  /** Some reachable object is oversized, or the graph is too deep, too large, or has too many fields. */
  ghost predicate Complex(heap: seq<Thing>, root: Value) {
    || (exists r: nat :: r < |heap| && Reachable(heap, root, r) && Oversized(heap[r]))
    || (exists p: seq<nat> :: Path(heap, root, p) && Distinct(p) && |p| > MAX_DEPTH + 1)
    || (exists objects :: DistinctReachable(heap, root, objects)
          && (|objects| > MAX_OBJECTS || TotalFields(heap, objects) > MAX_TOTAL_FIELDS))
  }

  datatype Outcome = Clean | Secret | TooComplex

  datatype Work = Work(value: Value, depth: nat)

  /** The pending value is reached by its path through objects already seen. */
  ghost predicate WorkOk(heap: seq<Thing>, root: Value, seen: set<nat>, w: Work, path: seq<nat>) {
    && InGraph(heap, w.value) && |path| == w.depth && Distinct(path)
    && (forall i :: 0 <= i < |path| ==> path[i] in seen)
    && (w.value.Object? ==> Path(heap, root, path + [w.value.id]))
  }

  ghost predicate PendingOk(heap: seq<Thing>, root: Value, seen: set<nat>, pending: seq<Work>, paths: seq<seq<nat>>) {
    |paths| == |pending| && forall j :: 0 <= j < |pending| ==> WorkOk(heap, root, seen, pending[j], paths[j])
  }

  /** The value was searched or will be. */
  ghost predicate Covered(seen: set<nat>, pending: seq<Work>, v: Value) {
    v.Object? ==> v.id in seen || exists j :: 0 <= j < |pending| && pending[j].value == v
  }

  ghost predicate FieldCovered(seen: set<nat>, pending: seq<Work>, field: Field) {
    field.OwnData? ==> Covered(seen, pending, field.value)
  }

  ghost predicate FieldsCovered(seen: set<nat>, pending: seq<Work>, fields: seq<Field>) {
    forall i :: 0 <= i < |fields| ==> FieldCovered(seen, pending, fields[i])
  }

  /** Every object seen is clean, within its own limits, and its fields are covered. */
  ghost predicate Searched(heap: seq<Thing>, root: Value, seen: set<nat>, pending: seq<Work>, visited: seq<nat>) {
    && DistinctReachable(heap, root, visited)
    && (forall r :: r in seen <==> r in visited)
    && (forall r :: r in seen ==> r < |heap| && !heap[r].secret && FieldsCovered(seen, pending, heap[r].fields))
    && Covered(seen, pending, root)
  }

  // ---------------------------------------------------------------- facts about one step

  lemma CoveredPop(seen: set<nat>, rest: seq<Work>, w: Work, v: Value)
    requires Covered(seen, rest + [w], v)
    ensures Covered(seen, rest, v) || v == w.value
  {
    if v.Object? && v.id !in seen {
      var j :| 0 <= j < |rest + [w]| && (rest + [w])[j].value == v;
      assert j < |rest| ==> rest[j].value == v;
    }
  }

  /** Popping a primitive, or an object that was seen already. */
  lemma PopSeen(heap: seq<Thing>, root: Value, seen: set<nat>, rest: seq<Work>, w: Work, visited: seq<nat>)
    requires Searched(heap, root, seen, rest + [w], visited) && (w.value.Object? ==> w.value.id in seen)
    ensures Searched(heap, root, seen, rest, visited)
  {
    hide DistinctReachable;
    CoveredPop(seen, rest, w, root);
    forall r, i | r in seen && r < |heap| && 0 <= i < |heap[r].fields|
      ensures FieldCovered(seen, rest, heap[r].fields[i])
    {
      assert FieldCovered(seen, rest + [w], heap[r].fields[i]);
      if heap[r].fields[i].OwnData? {
        CoveredPop(seen, rest, w, heap[r].fields[i].value);
      }
    }
  }

  lemma CoveredGrows(seen: set<nat>, rest: seq<Work>, r: nat, more: seq<Work>, v: Value)
    requires Covered(seen, rest, v)
    ensures Covered(seen + {r}, rest + more, v)
  {
    if v.Object? && v.id !in seen {
      var j :| 0 <= j < |rest| && rest[j].value == v;
      assert (rest + more)[j].value == v;
    }
  }

  lemma CoveredStep(seen: set<nat>, rest: seq<Work>, w: Work, more: seq<Work>, v: Value)
    requires Covered(seen, rest + [w], v) && w.value.Object?
    ensures Covered(seen + {w.value.id}, rest + more, v)
  {
    CoveredPop(seen, rest, w, v);
    if Covered(seen, rest, v) {
      CoveredGrows(seen, rest, w.value.id, more, v);
    }
  }

  /** An object joins those seen; its own data fields join the pending work. */
  lemma VisitObject(heap: seq<Thing>, root: Value, seen: set<nat>, rest: seq<Work>, w: Work, more: seq<Work>,
                    visited: seq<nat>)
    requires Searched(heap, root, seen, rest + [w], visited)
    requires w.value.Object? && w.value.id !in seen && w.value.id < |heap| && !heap[w.value.id].secret
    requires Reachable(heap, root, w.value.id)
    requires FieldsCovered(seen + {w.value.id}, rest + more, heap[w.value.id].fields)
    ensures Searched(heap, root, seen + {w.value.id}, rest + more, visited + [w.value.id])
  {
    hide Covered, Reachable;
    CoveredStep(seen, rest, w, more, root);
    forall r, i | r in seen && r < |heap| && 0 <= i < |heap[r].fields|
      ensures FieldCovered(seen + {w.value.id}, rest + more, heap[r].fields[i])
    {
      assert FieldCovered(seen, rest + [w], heap[r].fields[i]);
      if heap[r].fields[i].OwnData? {
        CoveredStep(seen, rest, w, more, heap[r].fields[i].value);
      }
    }
  }

  /** The path of a field value goes through the object that holds it. */
  lemma FieldWork(heap: seq<Thing>, root: Value, seen: set<nat>, w: Work, path: seq<nat>, i: nat)
    requires Graph(heap) && WorkOk(heap, root, seen, w, path) && w.value.Object? && w.value.id !in seen
    requires i < |heap[w.value.id].fields| && heap[w.value.id].fields[i].OwnData?
    ensures WorkOk(heap, root, seen + {w.value.id}, Work(heap[w.value.id].fields[i].value, w.depth + 1),
      path + [w.value.id])
  {
    var v := heap[w.value.id].fields[i].value;
    assert FieldInGraph(heap, heap[w.value.id].fields[i]);
    if v.Object? {
      assert Edge(heap, w.value.id, v.id);
      var p := path + [w.value.id];
      var q := p + [v.id];
      forall k | 0 <= k < |q| - 1
        ensures Edge(heap, q[k], q[k + 1])
      {
        assert k < |p| - 1 ==> q[k] == p[k] && q[k + 1] == p[k + 1];
      }
    }
  }

  /** When nothing is pending, every reachable object was seen. */
  lemma {:induction false} AllSeen(heap: seq<Thing>, root: Value, seen: set<nat>, visited: seq<nat>, p: seq<nat>)
    requires Searched(heap, root, seen, [], visited) && Path(heap, root, p)
    ensures p[|p| - 1] in seen
    decreases |p|
  {
    hide DistinctReachable;
    if |p| == 1 {
    } else {
      var before := p[..|p| - 1];
      assert Path(heap, root, before) by {
        forall i | 0 <= i < |before| - 1
          ensures Edge(heap, before[i], before[i + 1])
        {
          assert Edge(heap, p[i], p[i + 1]);
        }
      }
      AllSeen(heap, root, seen, visited, before);
      var from := before[|before| - 1];
      assert Edge(heap, p[|p| - 2], p[|p| - 1]);
      var i :| 0 <= i < |heap[from].fields| && heap[from].fields[i] == OwnData(Object(p[|p| - 1]));
      assert FieldCovered(seen, [], heap[from].fields[i]);
    }
  }

  lemma SearchedAll(heap: seq<Thing>, root: Value, seen: set<nat>, visited: seq<nat>)
    requires Searched(heap, root, seen, [], visited)
    ensures !HasSecret(heap, root)
  {
    hide DistinctReachable, FieldCovered;
    forall r: nat | r < |heap| && Reachable(heap, root, r)
      ensures !heap[r].secret
    {
      var p :| Path(heap, root, p) && p[|p| - 1] == r;
      AllSeen(heap, root, seen, visited, p);
    }
  }

  // ---------------------------------------------------------------- the search

  lemma TotalFieldsNext(heap: seq<Thing>, objects: seq<nat>, r: nat)
    requires r < |heap| && forall i :: 0 <= i < |objects| ==> objects[i] < |heap|
    ensures TotalFields(heap, objects + [r]) == TotalFields(heap, objects) + |heap[r].fields|
  {
    assert (objects + [r])[..|objects|] == objects;
  }

  /** Visiting one more object keeps the visited ones distinct and reachable. */
  lemma VisitedNext(heap: seq<Thing>, root: Value, visited: seq<nat>, r: nat)
    requires DistinctReachable(heap, root, visited) && r !in visited && r < |heap| && Reachable(heap, root, r)
    ensures DistinctReachable(heap, root, visited + [r])
  {
    hide Reachable;
  }

  lemma PathReaches(heap: seq<Thing>, root: Value, p: seq<nat>, r: nat)
    requires Path(heap, root, p + [r])
    ensures Reachable(heap, root, r)
  {
    assert (p + [r])[|p + [r]| - 1] == r;
  }

  /** The pending work after the fields before the i-th were pushed. */
  lemma FieldsGrow(seen: set<nat>, pending: seq<Work>, fields: seq<Field>, w: Work, i: nat)
    requires i < |fields| && FieldsCovered(seen, pending, fields[..i])
    requires fields[i].OwnData? ==> w.value == fields[i].value
    ensures FieldsCovered(seen, pending + [w], fields[..i + 1])
  {
    forall j | 0 <= j < i + 1
      ensures FieldCovered(seen, pending + [w], fields[j])
    {
      if j < i {
        assert FieldCovered(seen, pending, fields[..i][j]);
        if fields[j].OwnData? && fields[j].value.Object? && fields[j].value.id !in seen {
          var k :| 0 <= k < |pending| && pending[k].value == fields[j].value;
          assert (pending + [w])[k].value == fields[j].value;
        }
      } else {
        assert (pending + [w])[|pending|] == w;
      }
    }
  }

  /** A pushed field value, and all that was pending before. */
  lemma PushOk(heap: seq<Thing>, root: Value, seen: set<nat>, pending: seq<Work>, paths: seq<seq<nat>>, w: Work,
               path: seq<nat>)
    requires PendingOk(heap, root, seen, pending, paths) && WorkOk(heap, root, seen, w, path)
    ensures PendingOk(heap, root, seen, pending + [w], paths + [path])
  {
    hide WorkOk;
  }

  lemma SeenGrows(heap: seq<Thing>, root: Value, seen: set<nat>, pending: seq<Work>, paths: seq<seq<nat>>, r: nat)
    requires PendingOk(heap, root, seen, pending, paths)
    ensures PendingOk(heap, root, seen + {r}, pending, paths)
  {
    forall j | 0 <= j < |pending|
      ensures WorkOk(heap, root, seen + {r}, pending[j], paths[j])
    {
      assert WorkOk(heap, root, seen, pending[j], paths[j]);
    }
  }

  lemma DeepPath(heap: seq<Thing>, root: Value, seen: set<nat>, w: Work, path: seq<nat>)
    requires WorkOk(heap, root, seen, w, path) && w.value.Object? && w.value.id !in seen && w.depth > MAX_DEPTH
    ensures Complex(heap, root)
  {
    var p := path + [w.value.id];
    assert Path(heap, root, p) && Distinct(p) && |p| > MAX_DEPTH + 1;
  }

  lemma ManyObjects(heap: seq<Thing>, root: Value, objects: seq<nat>)
    requires DistinctReachable(heap, root, objects)
    requires |objects| > MAX_OBJECTS || TotalFields(heap, objects) > MAX_TOTAL_FIELDS
    ensures Complex(heap, root)
  {
  }

  lemma NoFields(seen: set<nat>, pending: seq<Work>)
    ensures FieldsCovered(seen, pending, [])
  {
  }

  lemma FieldSkipped(seen: set<nat>, pending: seq<Work>, fields: seq<Field>, i: nat)
    requires i < |fields| && FieldsCovered(seen, pending, fields[..i]) && !fields[i].OwnData?
    ensures FieldsCovered(seen, pending, fields[..i + 1])
  {
    forall j | 0 <= j < i + 1
      ensures FieldCovered(seen, pending, fields[j])
    {
      assert j < i ==> FieldCovered(seen, pending, fields[..i][j]);
    }
  }

  /** Pushes the own data fields of an object; false when a field budget is exceeded. */
  method PushFields(heap: seq<Thing>, ghost root: Value, ghost seen: set<nat>, w: Work, ghost path: seq<nat>,
                    rest: seq<Work>, ghost restPaths: seq<seq<nat>>, inspected: nat)
    returns (ok: bool, pending: seq<Work>, inspectedFields: nat, ghost paths: seq<seq<nat>>)
    requires Graph(heap) && w.value.Object? && w.value.id < |heap| && inspected <= MAX_TOTAL_FIELDS
    requires WorkOk(heap, root, seen, w, path) && w.value.id !in seen
    requires PendingOk(heap, root, seen + {w.value.id}, rest, restPaths)
    ensures ok <==> |heap[w.value.id].fields| <= MAX_FIELDS && inspected + |heap[w.value.id].fields| <= MAX_TOTAL_FIELDS
    ensures ok ==> rest <= pending && |pending| <= |rest| + |heap[w.value.id].fields|
    ensures ok ==> inspectedFields == inspected + |heap[w.value.id].fields|
    ensures ok ==> FieldsCovered(seen + {w.value.id}, pending, heap[w.value.id].fields)
    ensures ok ==> PendingOk(heap, root, seen + {w.value.id}, pending, paths)
  {
    hide PendingOk, WorkOk, FieldsCovered;
    var fields := heap[w.value.id].fields;
    ghost var seen' := seen + {w.value.id};
    pending, inspectedFields, paths := rest, inspected, restPaths;
    var containerFields := 0;
    assert fields[..0] == [];
    NoFields(seen', pending);
    while containerFields < |fields|
      invariant containerFields <= |fields| && containerFields <= MAX_FIELDS
      invariant inspectedFields == inspected + containerFields <= MAX_TOTAL_FIELDS
      invariant rest <= pending && |pending| <= |rest| + containerFields
      invariant FieldsCovered(seen', pending, fields[..containerFields])
      invariant PendingOk(heap, root, seen', pending, paths)
    {
      var field := fields[containerFields];
      containerFields := containerFields + 1;
      inspectedFields := inspectedFields + 1;
      if containerFields > MAX_FIELDS || inspectedFields > MAX_TOTAL_FIELDS {
        ok := false;
        return;
      }
      if field.OwnData? {
        var next := Work(field.value, w.depth + 1);
        FieldWork(heap, root, seen, w, path, containerFields - 1);
        PushOk(heap, root, seen', pending, paths, next, path + [w.value.id]);
        FieldsGrow(seen', pending, fields, next, containerFields - 1);
        pending, paths := pending + [next], paths + [path + [w.value.id]];
      } else {
        FieldSkipped(seen', pending, fields, containerFields - 1);
      }
    }
    assert fields[..containerFields] == fields;
    ok := true;
  }

  /** The state of the walk between two objects. */
  ghost predicate Walking(heap: seq<Thing>, root: Value, seen: set<nat>, pending: seq<Work>, paths: seq<seq<nat>>,
                          visited: seq<nat>, inspectedObjects: nat, inspectedFields: nat) {
    && Searched(heap, root, seen, pending, visited) && PendingOk(heap, root, seen, pending, paths)
    && |visited| == inspectedObjects <= MAX_OBJECTS
    && TotalFields(heap, visited) == inspectedFields <= MAX_TOTAL_FIELDS
  }

  lemma OversizedIsComplex(heap: seq<Thing>, root: Value, r: nat)
    requires r < |heap| && Reachable(heap, root, r) && Oversized(heap[r])
    ensures Complex(heap, root)
  {
  }

  lemma WalkStarts(heap: seq<Thing>, root: Value)
    requires InGraph(heap, root)
    ensures Walking(heap, root, {}, [Work(root, 0)], [[]], [], 0, 0)
  {
    assert [Work(root, 0)][0].value == root;
    if root.Object? {
      assert [] + [root.id] == [root.id];
      assert Path(heap, root, [] + [root.id]);
    }
  }

  lemma WalkPop(heap: seq<Thing>, root: Value, seen: set<nat>, pending: seq<Work>, paths: seq<seq<nat>>)
    returns (path: seq<nat>, rest: seq<seq<nat>>)
    requires pending != [] && PendingOk(heap, root, seen, pending, paths)
    ensures WorkOk(heap, root, seen, pending[|pending| - 1], path) && InGraph(heap, pending[|pending| - 1].value)
    ensures PendingOk(heap, root, seen, pending[..|pending| - 1], rest)
    ensures pending == pending[..|pending| - 1] + [pending[|pending| - 1]]
  {
    path, rest := paths[|paths| - 1], paths[..|paths| - 1];
  }

  /** What visiting a new object adds. */
  lemma VisitedFacts(heap: seq<Thing>, root: Value, seen: set<nat>, pending: seq<Work>, visited: seq<nat>, w: Work,
                     path: seq<nat>)
    requires Searched(heap, root, seen, pending, visited) && WorkOk(heap, root, seen, w, path)
    requires w.value.Object? && w.value.id !in seen
    ensures Reachable(heap, root, w.value.id) && DistinctReachable(heap, root, visited + [w.value.id])
    ensures DistinctReachable(heap, root, visited)
    ensures TotalFields(heap, visited + [w.value.id]) == TotalFields(heap, visited) + |heap[w.value.id].fields|
  {
    hide Reachable, FieldsCovered;
    PathReaches(heap, root, path, w.value.id);
    VisitedNext(heap, root, visited, w.value.id);
    TotalFieldsNext(heap, visited, w.value.id);
  }

  /**
   `Secret` only if a reachable object has a secret key, `Clean` only if none has, and
   `TooComplex` only if the reachable graph exceeds a budget.
   */
  method ContainsRendererSigningSecret(heap: seq<Thing>, value: Value) returns (outcome: Outcome)
    requires Graph(heap) && InGraph(heap, value)
    ensures outcome == Secret ==> HasSecret(heap, value)
    ensures outcome == Clean ==> !HasSecret(heap, value)
    ensures outcome == TooComplex ==> Complex(heap, value)
  {
    hide Searched, PendingOk, WorkOk, Complex, Reachable, DistinctReachable, FieldsCovered, TotalFields, Graph;
    var pending: seq<Work> := [Work(value, 0)];
    var seen: set<nat> := {};
    var inspectedObjects, inspectedFields: nat := 0, 0;
    ghost var visited: seq<nat> := [];
    ghost var paths: seq<seq<nat>> := [[]];
    WalkStarts(heap, value);
    while pending != []
      invariant Walking(heap, value, seen, pending, paths, visited, inspectedObjects, inspectedFields)
      decreases MAX_TOTAL_FIELDS - inspectedFields + |pending|
    {
      var last := |pending| - 1;
      var current := pending[last];
      var rest := pending[..last];
      ghost var path, restPaths := WalkPop(heap, value, seen, pending, paths);
      pending, paths := rest, restPaths;
      if current.value.Primitive? || current.value.id in seen {
        PopSeen(heap, value, seen, rest, current, visited);
      } else {
        var r := current.value.id;
        var thing := heap[r];
        VisitedFacts(heap, value, seen, rest + [current], visited, current, path);
        inspectedObjects := inspectedObjects + 1;
        if inspectedObjects > MAX_OBJECTS || current.depth > MAX_DEPTH {
          if current.depth > MAX_DEPTH {
            DeepPath(heap, value, seen, current, path);
          } else {
            ManyObjects(heap, value, visited + [r]);
          }
          return TooComplex;
        }
        if thing.secret {
          return Secret;
        }
        if thing.arrayLength.Some? && thing.arrayLength.value > MAX_FIELDS {
          OversizedIsComplex(heap, value, r);
          return TooComplex;
        }
        if thing.byteLength.Some? && thing.byteLength.value > MAX_BINARY_BYTES {
          OversizedIsComplex(heap, value, r);
          return TooComplex;
        }
        SeenGrows(heap, value, seen, rest, restPaths, r);
        var ok, pushed, inspected;
        ghost var pushedPaths;
        ok, pushed, inspected, pushedPaths :=
          PushFields(heap, value, seen, current, path, rest, restPaths, inspectedFields);
        if !ok {
          if |thing.fields| > MAX_FIELDS {
            OversizedIsComplex(heap, value, r);
          } else {
            ManyObjects(heap, value, visited + [r]);
          }
          return TooComplex;
        }
        assert pushed == rest + pushed[|rest|..];
        VisitObject(heap, value, seen, rest, current, pushed[|rest|..], visited);
        seen := seen + {r};
        visited := visited + [r];
        pending, paths, inspectedFields := pushed, pushedPaths, inspected;
      }
    }
    SearchedAll(heap, value, seen, visited);
    return Clean;
  }
}
