/**
 `requireFirstReleaseJsonObject`: a renderer-supplied object graph, possibly cyclic, is
 copied by a last-in-first-out worklist that counts the bytes of its JSON text
 (electron/firstReleaseResourceLimits.ts:44-292).
 */
module JsonSnapshot {
  import opened Bytes
  import opened JsonText
  import opened Sequences

  const MAX_DEPTH := 16
  const MAX_NODES := 2048
  const MAX_PROPERTIES := 128
  const MAX_ITEMS := 512
  const TEXT_MAX_BYTES := 16384
  const KEY_MAX_BYTES := 128

  // ---------------------------------------------------------------- the object graph

  /** A number is represented by its decimal text, as `String` gives it. */
  datatype Scalar = Null | Bool(b: bool) | Number(text: seq<Byte>) | String(s: Text)

  /** What a data field can hold; `Odd` is a NaN, infinite or negative zero number or a non-JSON value. */
  datatype Value = Leaf(scalar: Scalar) | Odd | Ref(node: nat)

  /** `NotData` is an accessor, a hole or a non-enumerable element. */
  datatype Slot = Data(value: Value) | NotData

  /**
   A container. A record has the names of its own enumerable fields, in order; an array
   has none. `plain`: it has the standard prototype. `otherFields`: symbol keys, or keys
   of an array that are not its indices.
   */
  datatype Node = Node(names: Option<seq<Text>>, slots: seq<Slot>, plain: bool, otherFields: bool)

  predicate InGraph(heap: seq<Node>, v: Value) {
    v.Ref? ==> v.node < |heap|
  }

  /** A heap as the language guarantees it. */
  ghost predicate Graph(heap: seq<Node>) {
    forall r :: 0 <= r < |heap| ==>
      && (heap[r].names.Some? ==> |heap[r].names.value| == |heap[r].slots| && Distinct(heap[r].names.value))
      && forall i :: 0 <= i < |heap[r].slots| && heap[r].slots[i].Data? ==> InGraph(heap, heap[r].slots[i].value)
  }

  predicate TextOk(s: Text) {
    |s| <= TEXT_MAX_BYTES && Utf8Length(s) <= TEXT_MAX_BYTES
  }

  predicate KeyOk(key: Text) {
    0 < |key| <= KEY_MAX_BYTES && Utf8Length(key) <= KEY_MAX_BYTES
  }

  predicate ScalarOk(s: Scalar) {
    s.String? ==> TextOk(s.s)
  }

  /** The container is plain JSON data within its own limits. */
  ghost predicate ShapeOk(node: Node) {
    && node.plain && !node.otherFields
    && (forall i :: 0 <= i < |node.slots| ==> node.slots[i].Data?)
    && match node.names
       case None => |node.slots| <= MAX_ITEMS
       case Some(names) =>
         |names| == |node.slots| <= MAX_PROPERTIES && forall i :: 0 <= i < |names| ==> KeyOk(names[i])
  }

  // ---------------------------------------------------------------- JSON data

  /** A JSON value; `node` tells which container it was read from. */
  datatype Tree = Scalar(scalar: Scalar) | Branch(node: nat, names: Option<seq<Text>>, children: seq<Tree>)

  /** The same JSON value, wherever it was read from. */
  ghost predicate SameJson(a: Tree, b: Tree) {
    if a.Scalar? || b.Scalar? then a == b
    else a.names == b.names && |a.children| == |b.children|
         && forall i :: 0 <= i < |a.children| ==> SameJson(a.children[i], b.children[i])
  }

  /** The graph below this value, unfolded, is this tree of JSON data. */
  ghost predicate Denotes(heap: seq<Node>, v: Value, t: Tree)
    decreases t
  {
    match v
    case Odd => false
    case Leaf(s) => t == Scalar(s)
    case Ref(r) =>
      && r < |heap| && t.Branch? && t.node == r && t.names == heap[r].names
      && heap[r].plain && !heap[r].otherFields
      && |t.children| == |heap[r].slots|
      && forall i :: 0 <= i < |t.children| ==>
           heap[r].slots[i].Data? && Denotes(heap, heap[r].slots[i].value, t.children[i])
  }

  /** Depth, text, key and member limits, for a value at this depth. */
  ghost predicate Within(t: Tree, depth: nat) {
    && depth <= MAX_DEPTH
    && match t
       case Scalar(s) => ScalarOk(s)
       case Branch(_, names, children) =>
         && (match names
             case None => |children| <= MAX_ITEMS
             case Some(keys) =>
               |keys| == |children| <= MAX_PROPERTIES && forall i :: 0 <= i < |keys| ==> KeyOk(keys[i]))
         && forall i :: 0 <= i < |children| ==> Within(children[i], depth + 1)
  }

  function ScalarText(s: Scalar): seq<Byte> {
    match s
    case Null => NULL_TEXT
    case Bool(b) => BoolText(b)
    case Number(text) => text
    case String(s) => Quote(s)
  }

  /** The compact JSON text. */
  function Print(t: Tree): seq<Byte> {
    match t
    case Scalar(s) => ScalarText(s)
    case Branch(_, None, children) => ArrayText(seq(|children|, i requires 0 <= i < |children| => Print(children[i])))
    case Branch(_, Some(names), children) =>
      if |names| != |children| then []
      else ObjectText(seq(|children|, i requires 0 <= i < |children| => FieldText(names[i], Print(children[i]))))
  }

  function ItemTexts(children: seq<Tree>): seq<seq<Byte>> {
    seq(|children|, i requires 0 <= i < |children| => Print(children[i]))
  }

  function FieldTexts(names: seq<Text>, children: seq<Tree>): seq<seq<Byte>>
    requires |names| == |children|
  {
    seq(|children|, i requires 0 <= i < |children| => FieldText(names[i], Print(children[i])))
  }

  // ---------------------------------------------------------------- what a tree costs

  /** The containers a value uses, its node count and the length of its text. */
  datatype Tally = Tally(containers: multiset<nat>, nodes: nat, bytes: nat)

  function Add(a: Tally, b: Tally): Tally {
    Tally(a.containers + b.containers, a.nodes + b.nodes, a.bytes + b.bytes)
  }

  /** The bytes of a key with the punctuation around it. */
  function KeyBytes(key: Text, first: bool): nat {
    (if first then 0 else 1) + |Quote(key)| + 1
  }

  /** The keys and the punctuation around them. */
  function NameBytes(names: seq<Text>): nat {
    if names == [] then 0
    else NameBytes(names[..|names| - 1]) + KeyBytes(names[|names| - 1], |names| == 1)
  }

  /** The bytes of a container's text that are not its members' own text. */
  function OwnBytes(names: Option<seq<Text>>, size: nat): nat {
    match names
    case None => 2 + if size == 0 then 0 else size - 1
    case Some(keys) => 2 + NameBytes(keys)
  }

  function TreeTally(t: Tree): Tally
    decreases t, 1
  {
    match t
    case Scalar(s) => Tally(multiset{}, 1, |ScalarText(s)|)
    case Branch(r, names, children) =>
      Add(Tally(multiset{r}, 1, OwnBytes(names, |children|)), ListTally(children))
  }

  function ListTally(ts: seq<Tree>): Tally
    decreases ts, 0
  {
    if ts == [] then Tally(multiset{}, 0, 0)
    else Add(ListTally(ts[..|ts| - 1]), TreeTally(ts[|ts| - 1]))
  }

  ghost predicate NamesMatch(t: Tree) {
    t.Branch? ==>
      && (t.names.Some? ==> |t.names.value| == |t.children|)
      && forall i :: 0 <= i < |t.children| ==> NamesMatch(t.children[i])
  }

  lemma FieldTextsSnoc(names: seq<Text>, ts: seq<Tree>)
    requires |names| == |ts| > 0
    ensures var n := |ts| - 1;
      FieldTexts(names, ts) == FieldTexts(names[..n], ts[..n]) + [FieldText(names[n], Print(ts[n]))]
  {
    hide Print, FieldText;
  }

  lemma {:induction false} ItemsLength(ts: seq<Tree>)
    requires forall i :: 0 <= i < |ts| ==> NamesMatch(ts[i])
    ensures |Join(ItemTexts(ts))| == ListTally(ts).bytes + if |ts| == 0 then 0 else |ts| - 1
    decreases ts, 0
  {
    if ts == [] {
    } else {
      var n := |ts| - 1;
      ItemsLength(ts[..n]);
      PrintLength(ts[n]);
      assert ItemTexts(ts) == ItemTexts(ts[..n]) + [Print(ts[n])];
      JoinSnoc(ItemTexts(ts[..n]), Print(ts[n]));
    }
  }

  /** The tally's byte count is the length of the compact JSON text. */
  lemma {:induction false} PrintLength(t: Tree)
    requires NamesMatch(t)
    ensures |Print(t)| == TreeTally(t).bytes
    decreases t, 1
  {
    hide Join, Quote, ListTally;
    match t
    case Scalar(_) =>
    case Branch(_, None, children) =>
      assert Print(t) == ArrayText(ItemTexts(children));
      ItemsLength(children);
    case Branch(_, Some(names), children) =>
      assert Print(t) == ObjectText(FieldTexts(names, children));
      FieldsLength(names, children);
  }

  lemma {:induction false} FieldsLength(names: seq<Text>, ts: seq<Tree>)
    requires |names| == |ts| && forall i :: 0 <= i < |ts| ==> NamesMatch(ts[i])
    ensures |Join(FieldTexts(names, ts))| == NameBytes(names) + ListTally(ts).bytes
    decreases ts, 0
  {
    hide Print, Quote, Join, NamesMatch, TreeTally;
    if ts == [] {
      JoinNothing();
      assert FieldTexts(names, ts) == [];
    } else {
      var n := |ts| - 1;
      FieldsLength(names[..n], ts[..n]);
      PrintLength(ts[n]);
      FieldTextsSnoc(names, ts);
      JoinSnoc(FieldTexts(names[..n], ts[..n]), FieldText(names[n], Print(ts[n])));
    }
  }

  lemma AddAssociates(a: Tally, b: Tally, c: Tally)
    ensures Add(a, Add(b, c)) == Add(Add(a, b), c)
  {
  }

  lemma ListTallySnoc(a: seq<Tree>, t: Tree)
    ensures ListTally(a + [t]) == Add(ListTally(a), TreeTally(t))
  {
    hide TreeTally, Add;
    assert (a + [t])[..|a|] == a;
  }

  lemma {:induction false} ListTallyConcat(a: seq<Tree>, b: seq<Tree>)
    ensures ListTally(a + b) == Add(ListTally(a), ListTally(b))
  {
    hide TreeTally;
    if b == [] {
      assert a + b == a;
    } else {
      var n := |b| - 1;
      ListTallyConcat(a, b[..n]);
      assert a + b == (a + b[..n]) + [b[n]];
      ListTallySnoc(a + b[..n], b[n]);
      AddAssociates(ListTally(a), ListTally(b[..n]), TreeTally(b[n]));
    }
  }

  // ---------------------------------------------------------------- unfolding within the limits

  /** The tree below a value at this depth, if it is JSON data within its limits. */
  ghost function Unfold(heap: seq<Node>, v: Value, depth: nat): Option<Tree>
    decreases MAX_DEPTH + 1 - depth
  {
    if depth > MAX_DEPTH then None
    else
      match v
      case Odd => None
      case Leaf(s) => if ScalarOk(s) then Some(Scalar(s)) else None
      case Ref(r) =>
        if r >= |heap| || !ShapeOk(heap[r]) then None
        else
          var slots := heap[r].slots;
          if forall i :: 0 <= i < |slots| ==> Unfold(heap, slots[i].value, depth + 1).Some?
          then Some(Branch(r, heap[r].names,
            seq(|slots|, i requires 0 <= i < |slots| => Unfold(heap, slots[i].value, depth + 1).value)))
          else None
  }

  /** Unfolding finds exactly the trees the graph denotes within the limits. */
  lemma {:induction false} UnfoldSound(heap: seq<Node>, v: Value, depth: nat)
    ensures var u := Unfold(heap, v, depth);
      u.Some? ==> Denotes(heap, v, u.value) && Within(u.value, depth) && NamesMatch(u.value)
    decreases MAX_DEPTH + 1 - depth
  {
    hide Utf8Length, TextOk, ScalarOk;
    if depth <= MAX_DEPTH && v.Ref? && v.node < |heap| && ShapeOk(heap[v.node]) {
      var slots := heap[v.node].slots;
      forall i | 0 <= i < |slots|
        ensures var u := Unfold(heap, slots[i].value, depth + 1);
          u.Some? ==> Denotes(heap, slots[i].value, u.value) && Within(u.value, depth + 1) && NamesMatch(u.value)
      {
        UnfoldSound(heap, slots[i].value, depth + 1);
      }
    }
  }

  lemma {:induction false} UnfoldComplete(heap: seq<Node>, v: Value, depth: nat, t: Tree)
    requires Graph(heap) && Denotes(heap, v, t) && Within(t, depth)
    ensures Unfold(heap, v, depth) == Some(t)
    decreases MAX_DEPTH + 1 - depth
  {
    if v.Ref? {
      var slots := heap[v.node].slots;
      forall i | 0 <= i < |slots|
        ensures Unfold(heap, slots[i].value, depth + 1) == Some(t.children[i])
      {
        UnfoldComplete(heap, slots[i].value, depth + 1, t.children[i]);
      }
      var u := Unfold(heap, v, depth);
      assert u.value.children == t.children;
    }
  }

  // ---------------------------------------------------------------- the worklist

  datatype Key = Index(index: nat) | Name(name: Text)

  datatype Target = Holder | Field(container: nat, key: Key)

  datatype Work = Work(value: Value, depth: nat, target: Target)

  function KeyAt(names: Option<seq<Text>>, i: nat): Key
    requires names.Some? ==> i < |names.value|
  {
    match names
    case None => Index(i)
    case Some(keys) => Name(keys[i])
  }

  /** The work items for the members of a container that is copied to `copy`. */
  ghost function Members(node: Node, depth: nat, copy: nat): seq<Work>
    requires ShapeOk(node)
  {
    seq(|node.slots|, i requires 0 <= i < |node.slots| =>
      Work(node.slots[i].value, depth, Field(copy, KeyAt(node.names, i))))
  }

  ghost predicate AllUnfold(heap: seq<Node>, work: seq<Work>) {
    forall i :: 0 <= i < |work| ==> Unfold(heap, work[i].value, work[i].depth).Some?
  }

  ghost function Trees(heap: seq<Node>, work: seq<Work>): seq<Tree>
    requires AllUnfold(heap, work)
  {
    seq(|work|, i requires 0 <= i < |work| => Unfold(heap, work[i].value, work[i].depth).value)
  }

  /** The remaining trees share no container with each other or with what was seen, and fit the limits. */
  ghost predicate Fits(seen: set<nat>, nodes: int, bytes: int, rest: Tally, maximumBytes: int) {
    && (forall r :: r in rest.containers ==> rest.containers[r] == 1 && r !in seen)
    && nodes + rest.nodes <= MAX_NODES
    && bytes + rest.bytes <= maximumBytes
  }

  /** The verdict that the work still pending will produce. */
  ghost predicate Verdict(heap: seq<Node>, work: seq<Work>, seen: set<nat>, discovered: int, bytes: int,
                          maximumBytes: int) {
    && AllUnfold(heap, work)
    && Fits(seen, discovered - |work|, bytes, ListTally(Trees(heap, work)), maximumBytes)
  }

  lemma TreesSnoc(heap: seq<Node>, work: seq<Work>, w: Work)
    ensures AllUnfold(heap, work + [w]) <==> AllUnfold(heap, work) && Unfold(heap, w.value, w.depth).Some?
    ensures AllUnfold(heap, work + [w]) ==>
      ListTally(Trees(heap, work + [w]))
        == Add(ListTally(Trees(heap, work)), TreeTally(Unfold(heap, w.value, w.depth).value))
  {
    hide Unfold, TreeTally, ListTally, Add;
    assert AllUnfold(heap, work + [w]) ==>
      (work + [w])[|work|] == w && forall i :: 0 <= i < |work| ==> (work + [w])[i] == work[i];
    if AllUnfold(heap, work + [w]) {
      assert Trees(heap, work + [w]) == Trees(heap, work) + [Unfold(heap, w.value, w.depth).value];
      ListTallySnoc(Trees(heap, work), Unfold(heap, w.value, w.depth).value);
    }
  }

  lemma TreesConcat(heap: seq<Node>, a: seq<Work>, b: seq<Work>)
    ensures AllUnfold(heap, a + b) <==> AllUnfold(heap, a) && AllUnfold(heap, b)
    ensures AllUnfold(heap, a + b) ==>
      ListTally(Trees(heap, a + b)) == Add(ListTally(Trees(heap, a)), ListTally(Trees(heap, b)))
  {
    hide Unfold, ListTally, Add;
    assert forall i :: 0 <= i < |b| ==> (a + b)[|a| + i] == b[i];
    assert forall i :: 0 <= i < |a| ==> (a + b)[i] == a[i];
    if AllUnfold(heap, a + b) {
      assert Trees(heap, a + b) == Trees(heap, a) + Trees(heap, b);
      ListTallyConcat(Trees(heap, a), Trees(heap, b));
    }
  }

  lemma UnfoldLeaf(heap: seq<Node>, w: Work)
    requires w.value.Leaf? && w.depth <= MAX_DEPTH
    ensures Unfold(heap, w.value, w.depth) == if ScalarOk(w.value.scalar) then Some(Scalar(w.value.scalar)) else None
  {
    hide ScalarOk;
  }

  /** A scalar takes one node and the bytes of its text. */
  lemma FitsScalar(seen: set<nat>, nodes: int, bytes: int, rest: Tally, size: nat, maximumBytes: int)
    ensures Fits(seen, nodes - 1, bytes, Add(rest, Tally(multiset{}, 1, size)), maximumBytes)
            <==> Fits(seen, nodes, bytes + size, rest, maximumBytes)
    ensures Fits(seen, nodes, bytes + size, rest, maximumBytes) ==> bytes + size <= maximumBytes
  {
    assert rest.containers + multiset{} == rest.containers;
  }

  /** Removing a scalar from the pending work. */
  lemma PopScalar(heap: seq<Node>, work: seq<Work>, w: Work, seen: set<nat>, discovered: int, bytes: int,
                  maximumBytes: int)
    requires w.value.Leaf? && w.depth <= MAX_DEPTH
    ensures var s := w.value.scalar;
      Verdict(heap, work + [w], seen, discovered, bytes, maximumBytes)
      <==> ScalarOk(s) && bytes + |ScalarText(s)| <= maximumBytes
           && Verdict(heap, work, seen, discovered, bytes + |ScalarText(s)|, maximumBytes)
  {
    hide ListTally, ScalarOk, ScalarText, AllUnfold, Trees, Unfold, Add, Fits;
    TreesSnoc(heap, work, w);
    UnfoldLeaf(heap, w);
    assert |work + [w]| == |work| + 1;
    if AllUnfold(heap, work) {
      var rest := ListTally(Trees(heap, work));
      FitsScalar(seen, discovered - |work|, bytes, rest, |ScalarText(w.value.scalar)|, maximumBytes);
    }
  }

  /** Work that can never succeed. */
  lemma PopRefused(heap: seq<Node>, work: seq<Work>, w: Work, seen: set<nat>, discovered: int, bytes: int,
                   maximumBytes: int)
    requires w.depth > MAX_DEPTH || w.value.Odd?
          || (w.value.Ref? && (w.value.node >= |heap| || !ShapeOk(heap[w.value.node])))
    ensures !Verdict(heap, work + [w], seen, discovered, bytes, maximumBytes)
  {
    hide ListTally, ShapeOk, AllUnfold, Trees;
    TreesSnoc(heap, work, w);
  }

  lemma MembersUnfold(heap: seq<Node>, r: nat, depth: nat, copy: nat)
    requires r < |heap| && ShapeOk(heap[r]) && depth <= MAX_DEPTH
    ensures var m := Members(heap[r], depth + 1, copy); var u := Unfold(heap, Ref(r), depth);
      && (u.Some? <==> AllUnfold(heap, m))
      && |m| == |heap[r].slots|
      && (u.Some? ==>
            && |Trees(heap, m)| == |m|
            && TreeTally(u.value)
                 == Add(Tally(multiset{r}, 1, OwnBytes(heap[r].names, |heap[r].slots|)), ListTally(Trees(heap, m))))
  {
    hide ListTally, Add, OwnBytes;
    var m := Members(heap[r], depth + 1, copy);
    var slots := heap[r].slots;
    assert forall i :: 0 <= i < |slots| ==> m[i].value == slots[i].value && m[i].depth == depth + 1;
    if AllUnfold(heap, m) {
      assert Unfold(heap, Ref(r), depth).value.children == Trees(heap, m);
    }
  }

  lemma TreesSize(heap: seq<Node>, work: seq<Work>)
    requires AllUnfold(heap, work)
    ensures |Trees(heap, work)| == |work|
  {
  }

  /** Every tree has at least one node. */
  lemma {:induction false} ListTallyCounts(ts: seq<Tree>)
    ensures ListTally(ts).nodes >= |ts|
  {
    if ts == [] {
    } else {
      ListTallyCounts(ts[..|ts| - 1]);
    }
  }

  /** Moving a container from the remaining trees to the seen ones. */
  lemma FitsContainer(seen: set<nat>, r: nat, nodes: int, bytes: int, a: Tally, b: Tally, own: nat, maximumBytes: int,
                      aSize: nat, bSize: nat)
    requires a.nodes >= aSize && b.nodes >= bSize
    ensures var rest := Add(a, Add(Tally(multiset{r}, 1, own), b));
      Fits(seen, nodes, bytes, rest, maximumBytes)
      <==> r !in seen && nodes + aSize + 1 + bSize <= MAX_NODES && bytes + own <= maximumBytes
           && Fits(seen + {r}, nodes + 1, bytes + own, Add(a, b), maximumBytes)
  {
    var rest := Add(a, Add(Tally(multiset{r}, 1, own), b));
    var less := Add(a, b);
    assert forall q :: rest.containers[q] == less.containers[q] + if q == r then 1 else 0;
    if Fits(seen, nodes, bytes, rest, maximumBytes) {
      assert r in rest.containers;
      assert forall q :: q in less.containers ==> q in rest.containers;
    }
    if r !in seen && Fits(seen + {r}, nodes + 1, bytes + own, less, maximumBytes) {
      assert r !in less.containers;
      forall q | q in rest.containers
        ensures rest.containers[q] == 1 && q !in seen
      {
        assert q == r || q in less.containers;
      }
    }
  }

  /** Replacing a container by its members. */
  lemma PopContainer(heap: seq<Node>, work: seq<Work>, w: Work, seen: set<nat>, discovered: int, bytes: int,
                     maximumBytes: int,
                     copy: nat)
    requires w.value.Ref? && w.value.node < |heap| && ShapeOk(heap[w.value.node]) && w.depth <= MAX_DEPTH
    ensures var r := w.value.node; var node := heap[r]; var own := OwnBytes(node.names, |node.slots|);
      Verdict(heap, work + [w], seen, discovered, bytes, maximumBytes)
      <==> r !in seen && discovered + |node.slots| <= MAX_NODES && bytes + own <= maximumBytes
           && Verdict(heap, work + Members(node, w.depth + 1, copy), seen + {r}, discovered + |node.slots|,
                bytes + own, maximumBytes)
  {
    hide ListTally, TreeTally, ShapeOk, AllUnfold, Trees, Unfold, OwnBytes, Members, Fits, Add;
    var r := w.value.node;
    var m := Members(heap[r], w.depth + 1, copy);
    MembersUnfold(heap, r, w.depth, copy);
    TreesSnoc(heap, work, w);
    TreesConcat(heap, work, m);
    if AllUnfold(heap, work) && AllUnfold(heap, m) {
      TreesSize(heap, work);
      ListTallyCounts(Trees(heap, m));
      ListTallyCounts(Trees(heap, work));
      FitsContainer(seen, r, discovered - |work| - 1, bytes, ListTally(Trees(heap, work)), ListTally(Trees(heap, m)),
                    OwnBytes(heap[r].names, |heap[r].slots|), maximumBytes, |work|, |m|);
    }
  }

  // ---------------------------------------------------------------- acceptance

  /** The value is a record of JSON data, a tree without sharing, within every limit. */
  ghost predicate BoundedObject(heap: seq<Node>, v: Value, t: Tree, maximumBytes: int) {
    && Denotes(heap, v, t) && t.Branch? && t.names.Some? && Within(t, 0)
    && (forall r :: r in TreeTally(t).containers ==> TreeTally(t).containers[r] == 1)
    && TreeTally(t).nodes <= MAX_NODES
    && |Print(t)| <= maximumBytes
  }

  lemma SingleTally(heap: seq<Node>, w: Work)
    requires AllUnfold(heap, [w])
    ensures ListTally(Trees(heap, [w])) == TreeTally(Unfold(heap, w.value, w.depth).value)
  {
    hide TreeTally, Unfold;
    assert [w][0] == w;
    var t := Trees(heap, [w]);
    assert t == [Unfold(heap, w.value, w.depth).value];
    assert t[..0] == [];
    assert ListTally([]) == Tally(multiset{}, 0, 0);
  }

  lemma DenotesRecord(heap: seq<Node>, r: nat, t: Tree)
    requires Denotes(heap, Ref(r), t)
    ensures r < |heap| && t.Branch? && t.names == heap[r].names && heap[r].plain
  {
  }

  /** The verdict on a record is that it is a bounded object. */
  lemma VerdictSound(heap: seq<Node>, r: nat, maximumBytes: int)
    requires r < |heap| && heap[r].names.Some? && Verdict(heap, [Work(Ref(r), 0, Holder)], {}, 1, 0, maximumBytes)
    ensures Unfold(heap, Ref(r), 0).Some? && BoundedObject(heap, Ref(r), Unfold(heap, Ref(r), 0).value, maximumBytes)
  {
    hide Unfold, TreeTally, ListTally, Denotes, Within, NamesMatch;
    var w := Work(Ref(r), 0, Holder);
    assert [w][0] == w;
    SingleTally(heap, w);
    UnfoldSound(heap, Ref(r), 0);
    PrintLength(Unfold(heap, Ref(r), 0).value);
    assert Unfold(heap, Ref(r), 0).value.Branch? && Unfold(heap, Ref(r), 0).value.names == heap[r].names by {
      DenotesRecord(heap, r, Unfold(heap, Ref(r), 0).value);
    }
  }

  lemma VerdictComplete(heap: seq<Node>, v: Value, t: Tree, maximumBytes: int)
    requires Graph(heap) && BoundedObject(heap, v, t, maximumBytes)
    ensures Unfold(heap, v, 0) == Some(t) && Verdict(heap, [Work(v, 0, Holder)], {}, 1, 0, maximumBytes)
  {
    UnfoldComplete(heap, v, 0, t);
    UnfoldSound(heap, v, 0);
    PrintLength(t);
    hide Unfold, TreeTally, ListTally, Denotes, Within, NamesMatch;
    SingleTally(heap, Work(v, 0, Holder));
  }
}
