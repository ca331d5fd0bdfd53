/**
 The snapshotter at work: what it has copied so far, and the loop
 (electron/firstReleaseResourceLimits.ts:97-292).
 */
module JsonSnapshotter {
  import opened Bytes
  import opened JsonText
  import opened JsonSnapshot
  import opened Sequences

  // ---------------------------------------------------------------- defining fields

  function Position(names: seq<Text>, name: Text): (i: nat)
    ensures i <= |names| && (i < |names| ==> names[i] == name)
    ensures forall j :: 0 <= j < i ==> names[j] != name
  {
    if names == [] || names[0] == name then 0
    else
      var i := Position(names[1..], name);
      assert i < |names| - 1 ==> names[1..][i] == names[i + 1];
      assert forall j :: 0 < j < i + 1 ==> names[j] == names[1..][j - 1];
      i + 1
  }

  /** `setJsonSnapshotValue`: an existing field keeps its place, a new one comes last. */
  function Define(node: Node, key: Key, slot: Slot): Node
    requires node.names.Some? ==> |node.names.value| == |node.slots|
  {
    match key
    case Index(i) => if i < |node.slots| then node.(slots := node.slots[i := slot]) else node
    case Name(name) =>
      if node.names.None? then node
      else
        var i := Position(node.names.value, name);
        if i < |node.slots| then node.(slots := node.slots[i := slot])
        else node.(names := Some(node.names.value + [name]), slots := node.slots + [slot])
  }

  lemma PositionUnique(names: seq<Text>, i: nat)
    requires Distinct(names) && i < |names|
    ensures Position(names, names[i]) == i
  {
  }

  // ---------------------------------------------------------------- the copy so far

  /** The copy has the members of its original, in order. */
  ghost predicate Skeleton(copy: Node, original: Node) {
    && copy.names == original.names && |copy.slots| == |original.slots|
    && copy.plain && !copy.otherFields
    && ShapeOk(original) && (original.names.Some? ==> Distinct(original.names.value))
  }

  /** The slot holds the copy of this value; `origin[k]` is what container k was copied from. */
  ghost predicate Copied(heap: seq<Node>, origin: seq<nat>, slot: Slot, v: Value) {
    && slot.Data?
    && match v
       case Leaf(_) => slot.value == v
       case Odd => false
       case Ref(r) => slot.value.Ref? && slot.value.node < |origin| && origin[slot.value.node] == r
  }

  ghost predicate Waiting(pending: seq<Work>, target: Target) {
    exists j :: 0 <= j < |pending| && pending[j].target == target
  }

  ghost predicate Skeletons(heap: seq<Node>, store: seq<Node>, origin: seq<nat>) {
    |store| == |origin| && forall k :: 0 <= k < |store| ==> origin[k] < |heap| && Skeleton(store[k], heap[origin[k]])
  }

  ghost predicate ItemOk(heap: seq<Node>, root: Value, w: Work, origin: seq<nat>) {
    match w.target
    case Holder => w.value == root
    case Field(k, key) =>
      && k < |origin| && origin[k] < |heap| && ShapeOk(heap[origin[k]])
      && exists i :: 0 <= i < |heap[origin[k]].slots| && key == KeyAt(heap[origin[k]].names, i)
                     && heap[origin[k]].slots[i] == Data(w.value)
  }

  /** Each pending item is the value of the field it will fill. */
  ghost predicate PendingOk(heap: seq<Node>, root: Value, pending: seq<Work>, origin: seq<nat>) {
    forall j :: 0 <= j < |pending| ==> ItemOk(heap, root, pending[j], origin)
  }

  /** Every field is copied or still pending. */
  ghost predicate FieldsOk(heap: seq<Node>, pending: seq<Work>, store: seq<Node>, origin: seq<nat>)
    requires Skeletons(heap, store, origin)
  {
    forall k, i :: 0 <= k < |store| && 0 <= i < |store[k].slots| ==>
      || Copied(heap, origin, store[k].slots[i], heap[origin[k]].slots[i].value)
      || Waiting(pending, Field(k, KeyAt(heap[origin[k]].names, i)))
  }

  ghost predicate Copying(heap: seq<Node>, root: Value, pending: seq<Work>, holder: Slot, store: seq<Node>,
                          origin: seq<nat>) {
    && Skeletons(heap, store, origin)
    && PendingOk(heap, root, pending, origin)
    && (Copied(heap, origin, holder, root) || Waiting(pending, Holder))
    && FieldsOk(heap, pending, store, origin)
  }

  /** The holder and the copies after a value has been assigned to its target. */
  function SetTarget(holder: Slot, store: seq<Node>, target: Target, slot: Slot): (Slot, seq<Node>) {
    match target
    case Holder => (slot, store)
    case Field(k, key) =>
      if k < |store| && (store[k].names.Some? ==> |store[k].names.value| == |store[k].slots|)
      then (holder, store[k := Define(store[k], key, slot)])
      else (holder, store)
  }

  // ---------------------------------------------------------------- nothing is shared

  predicate IsRef(slot: Slot) { slot.Data? && slot.value.Ref? }

  ghost predicate Unused(holder: Slot, store: seq<Node>, x: nat) {
    && holder != Data(Ref(x))
    && forall k, i :: 0 <= k < |store| && 0 <= i < |store[k].slots| ==> store[k].slots[i] != Data(Ref(x))
  }

  /** Each copied container is referred to from one place at most. */
  ghost predicate Exclusive(holder: Slot, store: seq<Node>) {
    && (IsRef(holder) ==> holder.value.node < |store|)
    && (forall k, i :: 0 <= k < |store| && 0 <= i < |store[k].slots| && IsRef(store[k].slots[i]) ==>
          store[k].slots[i].value.node < |store| && store[k].slots[i] != holder)
    && forall k, i, l, j :: 0 <= k < |store| && 0 <= i < |store[k].slots| && 0 <= l < |store| ==>
         0 <= j < |store[l].slots| && IsRef(store[k].slots[i]) && store[k].slots[i] == store[l].slots[j] ==>
           k == l && i == j
  }

  /** Assigning a field changes or adds one slot at most. */
  lemma DefineSlots(node: Node, key: Key, slot: Slot) returns (p: nat)
    requires node.names.Some? ==> |node.names.value| == |node.slots|
    ensures var d := Define(node, key, slot);
      forall i :: 0 <= i < |d.slots| ==>
        if i == p then d.slots[i] == slot else i < |node.slots| && d.slots[i] == node.slots[i]
  {
    p := match key
         case Index(i) => i
         case Name(name) => if node.names.None? then |node.slots| else Position(node.names.value, name);
  }

  /** Nothing becomes shared when a slot is given a value that is no container, or one that nothing refers to yet. */
  lemma ExclusiveSet(holder: Slot, store: seq<Node>, target: Target, slot: Slot)
    requires Exclusive(holder, store)
    requires IsRef(slot) ==> slot.value.node < |store| && Unused(holder, store, slot.value.node)
    ensures var (h, s) := SetTarget(holder, store, target, slot); Exclusive(h, s)
  {
    hide Define;
    var (h, s) := SetTarget(holder, store, target, slot);
    if s != store {
      var c := target.container;
      var p := DefineSlots(store[c], target.key, slot);
      assert forall k :: 0 <= k < |s| && k != c ==> s[k] == store[k];
    }
  }

  /** A new container without references is referred to by nothing. */
  lemma ExclusiveGrows(holder: Slot, store: seq<Node>, blank: Node)
    requires Exclusive(holder, store) && forall i :: 0 <= i < |blank.slots| ==> !IsRef(blank.slots[i])
    ensures Exclusive(holder, store + [blank]) && Unused(holder, store + [blank], |store|)
  {
  }

  // ---------------------------------------------------------------- filling one field

  lemma WaitingPop(pending: seq<Work>, w: Work, target: Target)
    requires Waiting(pending + [w], target)
    ensures target == w.target || Waiting(pending, target)
  {
    var j :| 0 <= j < |pending + [w]| && (pending + [w])[j].target == target;
    if j < |pending| {
      assert pending[j].target == target;
    }
  }

  lemma WaitingMore(pending: seq<Work>, more: seq<Work>, target: Target)
    requires Waiting(pending, target) || Waiting(more, target)
    ensures Waiting(pending + more, target)
  {
    if Waiting(pending, target) {
      var j :| 0 <= j < |pending| && pending[j].target == target;
      assert (pending + more)[j].target == target;
    } else {
      var j :| 0 <= j < |more| && more[j].target == target;
      assert (pending + more)[|pending| + j].target == target;
    }
  }

  lemma FieldsPop(heap: seq<Node>, pending: seq<Work>, w: Work, store: seq<Node>, origin: seq<nat>)
    requires Skeletons(heap, store, origin) && FieldsOk(heap, pending + [w], store, origin)
    ensures forall k, i :: 0 <= k < |store| && 0 <= i < |store[k].slots| ==>
      || Copied(heap, origin, store[k].slots[i], heap[origin[k]].slots[i].value)
      || Waiting(pending, Field(k, KeyAt(heap[origin[k]].names, i)))
      || w.target == Field(k, KeyAt(heap[origin[k]].names, i))
  {
    hide Copied;
    forall k, i | 0 <= k < |store| && 0 <= i < |store[k].slots|
      && !Copied(heap, origin, store[k].slots[i], heap[origin[k]].slots[i].value)
      ensures Waiting(pending, Field(k, KeyAt(heap[origin[k]].names, i)))
        || w.target == Field(k, KeyAt(heap[origin[k]].names, i))
    {
      WaitingPop(pending, w, Field(k, KeyAt(heap[origin[k]].names, i)));
    }
  }

  /** The field that a work item fills. */
  lemma FieldOf(heap: seq<Node>, w: Work, store: seq<Node>, origin: seq<nat>, slot: Slot) returns (i: nat)
    requires Skeletons(heap, store, origin) && w.target.Field? && ItemOk(heap, Odd, w, origin)
    ensures var k := w.target.container;
      && k < |store| && i < |store[k].slots| && w.target.key == KeyAt(heap[origin[k]].names, i)
      && heap[origin[k]].slots[i] == Data(w.value)
      && SetTarget(Data(Odd), store, w.target, slot).1 == store[k := store[k].(slots := store[k].slots[i := slot])]
      && forall j :: 0 <= j < |store[k].slots| && w.target.key == KeyAt(heap[origin[k]].names, j) ==> j == i
  {
    hide KeyOk, Distinct;
    var k := w.target.container;
    var original := heap[origin[k]];
    i :| 0 <= i < |original.slots| && w.target.key == KeyAt(original.names, i) && original.slots[i] == Data(w.value);
    assert Skeleton(store[k], original);
    if original.names.Some? {
      PositionUnique(original.names.value, i);
      forall j | 0 <= j < |original.slots| && original.names.value[j] == original.names.value[i]
        ensures j == i
      {
        PositionUnique(original.names.value, j);
      }
    }
  }

  lemma FillField(heap: seq<Node>, pending: seq<Work>, w: Work, store: seq<Node>, origin: seq<nat>, slot: Slot)
    requires Skeletons(heap, store, origin) && FieldsOk(heap, pending + [w], store, origin)
    requires Copied(heap, origin, slot, w.value) && w.target.Field? && ItemOk(heap, Odd, w, origin)
    ensures var s := SetTarget(Data(Odd), store, w.target, slot).1;
      Skeletons(heap, s, origin) && FieldsOk(heap, pending, s, origin)
  {
    hide Copied, Waiting, ShapeOk, Distinct, SetTarget, ItemOk;
    var i := FieldOf(heap, w, store, origin, slot);
    FieldsPop(heap, pending, w, store, origin);
  }

  /** Filling the target of one work item. */
  lemma FillKeeps(heap: seq<Node>, root: Value, pending: seq<Work>, w: Work, holder: Slot, store: seq<Node>,
                  origin: seq<nat>,
                  slot: Slot)
    requires Copying(heap, root, pending + [w], holder, store, origin) && Copied(heap, origin, slot, w.value)
    ensures var (h, s) := SetTarget(holder, store, w.target, slot); Copying(heap, root, pending, h, s, origin)
  {
    var (h, s) := SetTarget(holder, store, w.target, slot);
    assert (pending + [w])[|pending|] == w && ItemOk(heap, root, w, origin);
    assert PendingOk(heap, root, pending, origin) by {
      assert forall j :: 0 <= j < |pending| ==> (pending + [w])[j] == pending[j];
    }
    if w.target == Holder {
      assert FieldsOk(heap, pending, s, origin) by { FieldsPop(heap, pending, w, store, origin); }
    } else {
      if !Copied(heap, origin, holder, root) {
        WaitingPop(pending, w, Holder);
      }
      FillField(heap, pending, w, store, origin, slot);
    }
  }

  lemma CopiedGrows(heap: seq<Node>, origin: seq<nat>, r: nat, slot: Slot, v: Value)
    requires Copied(heap, origin, slot, v)
    ensures Copied(heap, origin + [r], slot, v)
  {
  }

  lemma ItemGrows(heap: seq<Node>, root: Value, w: Work, origin: seq<nat>, r: nat)
    requires ItemOk(heap, root, w, origin)
    ensures ItemOk(heap, root, w, origin + [r])
  {
    hide ShapeOk;
  }

  lemma MemberWaits(node: Node, depth: nat, copy: nat, i: nat)
    requires ShapeOk(node) && i < |node.slots|
    ensures Waiting(Members(node, depth, copy), Field(copy, KeyAt(node.names, i)))
  {
    assert Members(node, depth, copy)[i].target == Field(copy, KeyAt(node.names, i));
  }

  lemma MembersOk(heap: seq<Node>, root: Value, r: nat, depth: nat, origin: seq<nat>, j: nat)
    requires r < |heap| && ShapeOk(heap[r]) && j < |heap[r].slots|
    ensures ItemOk(heap, root, Members(heap[r], depth, |origin|)[j], origin + [r])
  {
    var w := Members(heap[r], depth, |origin|)[j];
    assert w.target.key == KeyAt(heap[r].names, j) && heap[r].slots[j] == Data(w.value);
  }

  lemma WaitingSelf(pending: seq<Work>, w: Work)
    ensures Waiting(pending + [w], w.target)
  {
    assert (pending + [w])[|pending|].target == w.target;
  }

  lemma AddFields(heap: seq<Node>, pending: seq<Work>, w: Work, r: nat, depth: nat, store: seq<Node>,
                  origin: seq<nat>, blank: Node)
    requires r < |heap| && ShapeOk(heap[r]) && Skeleton(blank, heap[r])
    requires Skeletons(heap, store, origin) && FieldsOk(heap, pending + [w], store, origin)
    ensures Skeletons(heap, store + [blank], origin + [r])
    ensures FieldsOk(heap, pending + Members(heap[r], depth, |store|) + [w], store + [blank], origin + [r])
  {
    hide Copied, Waiting;
    var members := Members(heap[r], depth, |store|);
    var s, o := store + [blank], origin + [r];
    forall k, i | 0 <= k < |s| && 0 <= i < |s[k].slots|
      ensures Copied(heap, o, s[k].slots[i], heap[o[k]].slots[i].value)
           || Waiting(pending + members + [w], Field(k, KeyAt(heap[o[k]].names, i)))
    {
      if k == |store| {
        MemberWaits(heap[r], depth, |store|, i);
        WaitingMore(pending, members, Field(k, KeyAt(heap[r].names, i)));
        WaitingMore(pending + members, [w], Field(k, KeyAt(heap[r].names, i)));
      } else if Copied(heap, origin, store[k].slots[i], heap[origin[k]].slots[i].value) {
        CopiedGrows(heap, origin, r, store[k].slots[i], heap[origin[k]].slots[i].value);
      } else {
        var target := Field(k, KeyAt(heap[origin[k]].names, i));
        WaitingPop(pending, w, target);
        if Waiting(pending, target) {
          WaitingMore(pending, members, target);
          WaitingMore(pending + members, [w], target);
        } else {
          WaitingSelf(pending + members, w);
        }
      }
    }
  }

  /** A new container joins the copies: all its fields are pending. */
  lemma AddContainer(heap: seq<Node>, root: Value, pending: seq<Work>, w: Work, r: nat, depth: nat, holder: Slot,
                     store: seq<Node>, origin: seq<nat>, blank: Node)
    requires r < |heap| && ShapeOk(heap[r]) && Skeleton(blank, heap[r])
    requires Copying(heap, root, pending + [w], holder, store, origin)
    ensures Copying(heap, root, pending + Members(heap[r], depth, |store|) + [w], holder, store + [blank], origin + [r])
  {
    hide Copied, Waiting, ShapeOk, ItemOk;
    var members := Members(heap[r], depth, |store|);
    var after := pending + members + [w];
    forall target | Waiting(pending + [w], target)
      ensures Waiting(after, target)
    {
      WaitingPop(pending, w, target);
      if Waiting(pending, target) {
        WaitingMore(pending, members, target);
        WaitingMore(pending + members, [w], target);
      } else {
        WaitingSelf(pending + members, w);
      }
    }
    forall j | 0 <= j < |after|
      ensures ItemOk(heap, root, after[j], origin + [r])
    {
      if |pending| <= j < |pending| + |members| {
        MembersOk(heap, root, r, depth, origin, j - |pending|);
      } else {
        assert after[j] == (pending + [w])[if j < |pending| then j else |pending|];
        ItemGrows(heap, root, after[j], origin, r);
      }
    }
    AddFields(heap, pending, w, r, depth, store, origin, blank);
    if Copied(heap, origin, holder, root) {
      CopiedGrows(heap, origin, r, holder, root);
    }
  }

  lemma AllCopied(heap: seq<Node>, store: seq<Node>, origin: seq<nat>, k: nat)
    requires Skeletons(heap, store, origin) && FieldsOk(heap, [], store, origin) && k < |store|
    ensures forall i :: 0 <= i < |store[k].slots| ==>
      Copied(heap, origin, store[k].slots[i], heap[origin[k]].slots[i].value)
    ensures ShapeOk(store[k]) && ShapeOk(heap[origin[k]])
  {
    assert Skeleton(store[k], heap[origin[k]]);
  }

  ghost predicate SameUnfolding(a: Option<Tree>, b: Option<Tree>) {
    (a.Some? <==> b.Some?) && (a.Some? ==> SameJson(a.value, b.value))
  }

  lemma ContainerUnfolds(heap: seq<Node>, store: seq<Node>, r: nat, k: nat, depth: nat)
    requires r < |heap| && k < |store| && depth <= MAX_DEPTH && ShapeOk(heap[r]) && ShapeOk(store[k])
    requires heap[r].names == store[k].names && |heap[r].slots| == |store[k].slots|
    requires forall i :: 0 <= i < |store[k].slots| ==>
      SameUnfolding(Unfold(heap, heap[r].slots[i].value, depth + 1), Unfold(store, store[k].slots[i].value, depth + 1))
    ensures SameUnfolding(Unfold(heap, Ref(r), depth), Unfold(store, Ref(k), depth))
  {
  }

  /** When nothing is pending, the copy unfolds to the same JSON value as the original. */
  lemma {:induction false} CopyUnfolds(heap: seq<Node>, store: seq<Node>, origin: seq<nat>, v: Value, slot: Slot,
                                       depth: nat)
    requires Skeletons(heap, store, origin) && FieldsOk(heap, [], store, origin) && Copied(heap, origin, slot, v)
    ensures SameUnfolding(Unfold(heap, v, depth), Unfold(store, slot.value, depth))
    decreases MAX_DEPTH + 1 - depth
  {
    hide FieldsOk;
    if depth <= MAX_DEPTH && v.Ref? {
      hide FieldsOk, Unfold, SameUnfolding, ShapeOk;
      var k := slot.value.node;
      var original, copy := heap[origin[k]], store[k];
      assert Skeleton(copy, original);
      AllCopied(heap, store, origin, k);
      forall i | 0 <= i < |copy.slots|
        ensures SameUnfolding(Unfold(heap, original.slots[i].value, depth + 1),
          Unfold(store, copy.slots[i].value, depth + 1))
      {
        CopyUnfolds(heap, store, origin, original.slots[i].value, copy.slots[i], depth + 1);
      }
      ContainerUnfolds(heap, store, origin[k], k, depth);
    }
  }

  // ---------------------------------------------------------------- the loop

  /** The text of the members that remain, together with the bytes counted so far, is the whole text. */
  ghost predicate BytesConserved(heap: seq<Node>, root: Value, pending: seq<Work>, bytes: int) {
    Unfold(heap, root, 0).Some? ==>
      AllUnfold(heap, pending)
        && bytes + ListTally(Trees(heap, pending)).bytes == TreeTally(Unfold(heap, root, 0).value).bytes
  }

  lemma BytesScalar(heap: seq<Node>, root: Value, work: seq<Work>, w: Work, bytes: int)
    requires BytesConserved(heap, root, work + [w], bytes) && w.value.Leaf? && w.depth <= MAX_DEPTH
    ensures BytesConserved(heap, root, work, bytes + |ScalarText(w.value.scalar)|)
  {
    hide ListTally, AllUnfold, Trees, ScalarText, ScalarOk;
    TreesSnoc(heap, work, w);
  }

  lemma AddBytes(a: Tally, b: Tally)
    ensures Add(a, b).bytes == a.bytes + b.bytes
  {
  }

  lemma MembersBytes(heap: seq<Node>, work: seq<Work>, w: Work, copy: nat)
    requires w.value.Ref? && w.value.node < |heap| && ShapeOk(heap[w.value.node]) && w.depth <= MAX_DEPTH
    requires AllUnfold(heap, work + [w])
    ensures var node := heap[w.value.node]; var after := work + Members(node, w.depth + 1, copy);
      && AllUnfold(heap, after)
      && ListTally(Trees(heap, work + [w])).bytes
           == ListTally(Trees(heap, after)).bytes + OwnBytes(node.names, |node.slots|)
  {
    hide ListTally, TreeTally, AllUnfold, Trees, Unfold, Members, OwnBytes, ShapeOk, Add;
    var m := Members(heap[w.value.node], w.depth + 1, copy);
    MembersUnfold(heap, w.value.node, w.depth, copy);
    TreesSnoc(heap, work, w);
    TreesConcat(heap, work, m);
    var a, b, own := ListTally(Trees(heap, work)), ListTally(Trees(heap, m)),
      Tally(multiset{w.value.node}, 1, OwnBytes(heap[w.value.node].names, |heap[w.value.node].slots|));
    AddBytes(a, b);
    AddBytes(own, b);
    AddBytes(a, Add(own, b));
  }

  lemma BytesContainer(heap: seq<Node>, root: Value, work: seq<Work>, w: Work, bytes: int, copy: nat)
    requires BytesConserved(heap, root, work + [w], bytes)
    requires w.value.Ref? && w.value.node < |heap| && ShapeOk(heap[w.value.node]) && w.depth <= MAX_DEPTH
    ensures var node := heap[w.value.node];
      BytesConserved(heap, root, work + Members(node, w.depth + 1, copy), bytes + OwnBytes(node.names, |node.slots|))
  {
    hide ListTally, TreeTally, AllUnfold, Trees, Unfold, Members, OwnBytes, ShapeOk;
    if AllUnfold(heap, work + [w]) {
      MembersBytes(heap, work, w, copy);
    }
  }

  lemma {:induction false} NameBytesMonotone(names: seq<Text>, n: nat)
    requires n <= |names|
    ensures NameBytes(names[..n]) <= NameBytes(names)
    decreases |names|
  {
    if n < |names| {
      NameBytesMonotone(names[..|names| - 1], n);
      assert names[..|names| - 1][..n] == names[..n];
    } else {
      assert names[..n] == names;
    }
  }

  /** An array or record whose members are all still to be copied. */
  function Blank(names: Option<seq<Text>>, size: nat): Node {
    Node(names, seq(size, i => NotData), true, false)
  }

  /** The container passes its own checks, and its members fit the node and byte limits. */
  ghost predicate Admissible(node: Node, discovered: int, bytes: int, maximumBytes: int) {
    && ShapeOk(node)
    && discovered + |node.slots| <= MAX_NODES
    && bytes + OwnBytes(node.names, |node.slots|) <= maximumBytes
  }

  /**
   What the loop keeps: the pending work will produce the verdict, the copy and the
   byte count of the whole.
   */
  ghost predicate Progress(heap: seq<Node>, maximumBytes: int, root: Value, pending: seq<Work>, seen: set<nat>,
                           discovered: int, bytes: int, holder: Slot, store: seq<Node>, origin: seq<nat>) {
    && Graph(heap) && discovered <= MAX_NODES && bytes <= maximumBytes
    && Copying(heap, root, pending, holder, store, origin)
    && BytesConserved(heap, root, pending, bytes)
    && Exclusive(holder, store)
    && (Verdict(heap, pending, seen, discovered, bytes, maximumBytes)
        <==> Verdict(heap, [Work(root, 0, Holder)], {}, 1, 0, maximumBytes))
  }

  lemma ContainerFails(heap: seq<Node>, work: seq<Work>, w: Work, seen: set<nat>, discovered: int, bytes: int,
                       maximumBytes: int)
    requires w.value.Ref?
    requires w.value.node in seen || w.value.node >= |heap| || w.depth > MAX_DEPTH
          || !Admissible(heap[w.value.node], discovered, bytes, maximumBytes)
    ensures !Verdict(heap, work + [w], seen, discovered, bytes, maximumBytes)
  {
    hide ShapeOk, Verdict, Members, OwnBytes;
    if w.value.node >= |heap| || w.depth > MAX_DEPTH || !ShapeOk(heap[w.value.node]) {
      PopRefused(heap, work, w, seen, discovered, bytes, maximumBytes);
    } else {
      PopContainer(heap, work, w, seen, discovered, bytes, maximumBytes, 0);
    }
  }

  lemma SameLength(heap: seq<Node>, root: Value, pending: seq<Work>, holder: Slot, store: seq<Node>, origin: seq<nat>)
    requires Copying(heap, root, pending, holder, store, origin)
    ensures |store| == |origin|
    ensures forall j :: 0 <= j < |pending| ==> pending[j].target.Field? ==> pending[j].target.container < |store|
  {
    hide ShapeOk;
    forall j | 0 <= j < |pending|
      ensures pending[j].target.Field? ==> pending[j].target.container < |store|
    {
      assert ItemOk(heap, root, pending[j], origin);
    }
  }

  lemma BlankSkeleton(heap: seq<Node>, r: nat)
    requires Graph(heap) && r < |heap| && ShapeOk(heap[r])
    ensures Skeleton(Blank(heap[r].names, |heap[r].slots|), heap[r])
  {
  }

  lemma ContainerProgress(heap: seq<Node>, maximumBytes: int, root: Value, pending: seq<Work>, w: Work, seen: set<nat>,
                          discovered: int, bytes: int, holder: Slot, store: seq<Node>, origin: seq<nat>)
    requires Progress(heap, maximumBytes, root, pending + [w], seen, discovered, bytes, holder, store, origin)
    requires w.value.Ref? && w.value.node !in seen && w.value.node < |heap| && w.depth <= MAX_DEPTH
    requires Admissible(heap[w.value.node], discovered, bytes, maximumBytes)
    ensures var r := w.value.node; var node := heap[r];
      var (h, s) := SetTarget(holder, store + [Blank(node.names, |node.slots|)], w.target, Data(Ref(|store|)));
      Progress(heap, maximumBytes, root, pending + Members(node, w.depth + 1, |store|), seen + {r},
               discovered + |node.slots|, bytes + OwnBytes(node.names, |node.slots|), h, s, origin + [r])
  {
    hide Copying, BytesConserved, Exclusive, Unused, Verdict, ShapeOk, Members, OwnBytes, SetTarget;
    var r := w.value.node;
    var node := heap[r];
    var blank := Blank(node.names, |node.slots|);
    ExclusiveGrows(holder, store, blank);
    ExclusiveSet(holder, store + [blank], w.target, Data(Ref(|store|)));
    PopContainer(heap, pending, w, seen, discovered, bytes, maximumBytes, |store|);
    BytesContainer(heap, root, pending, w, bytes, |store|);
    BlankSkeleton(heap, r);
    SameLength(heap, root, pending + [w], holder, store, origin);
    AddContainer(heap, root, pending, w, r, w.depth + 1, holder, store, origin, blank);
    FillKeeps(heap, root, pending + Members(node, w.depth + 1, |store|), w, holder, store + [blank], origin + [r],
      Data(Ref(|store|)));
  }

  /** What the checks of one container rely on. */
  lemma ProgressShape(heap: seq<Node>, maximumBytes: int, root: Value, pending: seq<Work>, w: Work, seen: set<nat>,
                      discovered: int, bytes: int, holder: Slot, store: seq<Node>, origin: seq<nat>)
    requires Progress(heap, maximumBytes, root, pending + [w], seen, discovered, bytes, holder, store, origin)
    requires w.value.Ref? && w.value.node < |heap|
    ensures discovered <= MAX_NODES && bytes <= maximumBytes && |store| == |origin|
    ensures w.target.Field? ==> w.target.container < |store|
    ensures var node := heap[w.value.node];
      node.names.Some? ==> |node.names.value| == |node.slots| && Distinct(node.names.value)
  {
    hide Copying, BytesConserved, Verdict, Distinct;
    assert (pending + [w])[|pending|] == w;
    SameLength(heap, root, pending + [w], holder, store, origin);
  }

  lemma LeafProgress(heap: seq<Node>, maximumBytes: int, root: Value, pending: seq<Work>, w: Work, seen: set<nat>,
                     discovered: int, bytes: int, holder: Slot, store: seq<Node>, origin: seq<nat>)
    requires Progress(heap, maximumBytes, root, pending + [w], seen, discovered, bytes, holder, store, origin)
    requires w.value.Leaf? && w.depth <= MAX_DEPTH && ScalarOk(w.value.scalar)
    requires bytes + |ScalarText(w.value.scalar)| <= maximumBytes
    ensures var (h, s) := SetTarget(holder, store, w.target, Data(w.value));
      Progress(heap, maximumBytes, root, pending, seen, discovered, bytes + |ScalarText(w.value.scalar)|, h, s, origin)
  {
    hide Copying, BytesConserved, Exclusive, Verdict, SetTarget, ScalarOk, ScalarText;
    ExclusiveSet(holder, store, w.target, Data(w.value));
    PopScalar(heap, pending, w, seen, discovered, bytes, maximumBytes);
    BytesScalar(heap, root, pending, w, bytes);
    FillKeeps(heap, root, pending, w, holder, store, origin, Data(w.value));
  }

  /** Replacing the last container commutes with filling a field of an earlier one. */
  lemma SetTargetBefore(holder: Slot, store: seq<Node>, target: Target, slot: Slot, first: Node, second: Node)
    requires target.Field? ==> target.container < |store|
    ensures var (h, s) := SetTarget(holder, store + [first], target, slot);
      |s| == |store| + 1 && s[|store|] == first
      && (h, s[|store| := second]) == SetTarget(holder, store + [second], target, slot)
  {
    hide Define;
    var (h, s) := SetTarget(holder, store + [first], target, slot);
    assert s[|store| := second] == SetTarget(holder, store + [second], target, slot).1;
  }

  /** A value still pending is the root or a field of the graph. */
  lemma ItemInGraph(heap: seq<Node>, root: Value, pending: seq<Work>, holder: Slot, store: seq<Node>, origin: seq<nat>)
    requires Graph(heap) && InGraph(heap, root) && Copying(heap, root, pending, holder, store, origin)
    ensures forall j :: 0 <= j < |pending| ==> InGraph(heap, pending[j].value)
  {
    hide ShapeOk;
    forall j | 0 <= j < |pending|
      ensures InGraph(heap, pending[j].value)
    {
      assert ItemOk(heap, root, pending[j], origin);
    }
  }

  lemma NothingPending(heap: seq<Node>, seen: set<nat>, discovered: int, bytes: int, maximumBytes: int)
    requires discovered <= MAX_NODES && bytes <= maximumBytes
    ensures Verdict(heap, [], seen, discovered, bytes, maximumBytes)
  {
  }

  lemma MembersCount(node: Node, depth: nat, copy: nat)
    requires ShapeOk(node)
    ensures |Members(node, depth, copy)| == |node.slots|
  {
  }

  lemma NoNames()
    ensures NameBytes([]) == 0
  {
  }

  lemma NextName(names: seq<Text>, i: nat)
    requires i < |names|
    ensures NameBytes(names[..i + 1]) == NameBytes(names[..i]) + KeyBytes(names[i], i == 0)
  {
    hide Quote;
    assert names[..i + 1][..i] == names[..i];
  }

  lemma BlankShape(names: seq<Text>, i: nat)
    requires i <= |names|
    ensures var blank := Blank(Some(names[..i]), i); blank.names == Some(names[..i]) && |blank.slots| == i
  {
  }

  /** Defining the next name of a record that so far has the names before it. */
  lemma DefineNext(names: seq<Text>, i: nat)
    requires i < |names| && Distinct(names)
    ensures Define(Blank(Some(names[..i]), i), Name(names[i]), NotData) == Blank(Some(names[..i + 1]), i + 1)
  {
    var before := names[..i];
    assert Position(before, names[i]) == i;
    assert names[..i + 1] == before + [names[i]];
  }

  class Snapshotter {
    const heap: seq<Node>
    const maximumBytes: int
    var pending: seq<Work>
    var seen: set<nat>
    var discoveredNodeCount: int
    var encodedBytes: int
    var holder: Slot
    var store: seq<Node>
    ghost var origin: seq<nat>

    constructor (heap: seq<Node>, root: Value, maximumBytes: int)
      ensures this.heap == heap && this.maximumBytes == maximumBytes
      ensures pending == [Work(root, 0, Holder)] && seen == {} && discoveredNodeCount == 1 && encodedBytes == 0
      ensures holder == NotData && store == [] && origin == []
    {
      this.heap, this.maximumBytes := heap, maximumBytes;
      pending, seen, discoveredNodeCount, encodedBytes := [Work(root, 0, Holder)], {}, 1, 0;
      holder, store, origin := NotData, [], [];
    }

    method AddEncodedBytes(amount: nat) returns (ok: bool)
      modifies this`encodedBytes
      ensures ok <==> old(encodedBytes) + amount <= maximumBytes
      ensures encodedBytes == old(encodedBytes) + if ok then amount else 0
    {
      if amount > maximumBytes - encodedBytes {
        return false;
      }
      encodedBytes := encodedBytes + amount;
      return true;
    }

    method Enqueue(entry: Work) returns (ok: bool)
      modifies this`pending, this`discoveredNodeCount
      ensures discoveredNodeCount == old(discoveredNodeCount) + 1
      ensures ok <==> discoveredNodeCount <= MAX_NODES
      ensures pending == if ok then old(pending) + [entry] else old(pending)
    {
      discoveredNodeCount := discoveredNodeCount + 1;
      if discoveredNodeCount > MAX_NODES {
        return false;
      }
      pending := pending + [entry];
      return true;
    }

    method SetSnapshotValue(target: Target, slot: Slot)
      modifies this`holder, this`store
      ensures (holder, store) == SetTarget(old(holder), old(store), target, slot)
    {
      match target
      case Holder => holder := slot;
      case Field(k, key) =>
        if k < |store| && (store[k].names.Some? ==> |store[k].names.value| == |store[k].slots|) {
          store := store[k := Define(store[k], key, slot)];
        }
    }

    /** The fields of an array whose copy, all holes, is the last container. */
    method WalkArray(node: Node, depth: nat) returns (ok: bool)
      requires node.names.None? && node.plain && |node.slots| <= MAX_ITEMS && |store| > 0
      requires discoveredNodeCount <= MAX_NODES
      modifies this`pending, this`discoveredNodeCount
      ensures ok <==> ShapeOk(node) && old(discoveredNodeCount) + |node.slots| <= MAX_NODES
      ensures ok ==> pending == old(pending) + Members(node, depth, |store| - 1)
      ensures ok ==> discoveredNodeCount == old(discoveredNodeCount) + |node.slots|
    {
      if node.otherFields {
        return false;
      }
      var index := 0;
      while index < |node.slots|
        invariant index <= |node.slots| && |pending| == |old(pending)| + index && old(pending) <= pending
        invariant discoveredNodeCount == old(discoveredNodeCount) + index <= MAX_NODES
        invariant forall j :: 0 <= j < index ==>
          node.slots[j].Data?
            && pending[|old(pending)| + j] == Work(node.slots[j].value, depth, Field(|store| - 1, Index(j)))
      {
        if node.slots[index].NotData? {
          return false;
        }
        var added := Enqueue(Work(node.slots[index].value, depth, Field(|store| - 1, Index(index))));
        if !added {
          return false;
        }
        index := index + 1;
      }
      assert pending == old(pending) + Members(node, depth, |store| - 1);
      return true;
    }

    /** One own field of a record: its key and punctuation are counted, and its value joins the list. */
    method WalkField(key: Text, slot: Slot, depth: nat, copy: nat, first: bool) returns (ok: bool)
      requires discoveredNodeCount <= MAX_NODES && encodedBytes <= maximumBytes && copy < |store|
      requires store[copy].names.Some? && |store[copy].names.value| == |store[copy].slots|
      modifies this`pending, this`discoveredNodeCount, this`encodedBytes, this`store, this`holder
      ensures ok <==> KeyOk(key) && slot.Data? && old(discoveredNodeCount) < MAX_NODES
                      && old(encodedBytes) + KeyBytes(key, first) <= maximumBytes
      ensures holder == old(holder)
      ensures ok ==> pending == old(pending) + [Work(slot.value, depth, Field(copy, Name(key)))]
      ensures ok ==> discoveredNodeCount == old(discoveredNodeCount) + 1
      ensures ok ==> encodedBytes == old(encodedBytes) + KeyBytes(key, first)
      ensures ok ==> store == old(store)[copy := Define(old(store)[copy], Name(key), NotData)]
    {
      hide Utf8Length, Quote, Define;
      if |key| == 0 || |key| > KEY_MAX_BYTES || Utf8Length(key) > KEY_MAX_BYTES {
        return false;
      }
      var length := JsonStringByteLength(key);
      var added := AddEncodedBytes((if first then 0 else 1) + length + 1);
      if !added || slot.NotData? {
        return false;
      }
      SetSnapshotValue(Field(copy, Name(key)), NotData);
      ok := Enqueue(Work(slot.value, depth, Field(copy, Name(key))));
    }

    /** The fields of a record whose copy, still without fields, is the last container. */
    method WalkRecord(node: Node, depth: nat) returns (ok: bool)
      requires node.names.Some? && |node.names.value| == |node.slots| && Distinct(node.names.value)
      requires node.plain && |store| > 0 && store[|store| - 1] == Blank(Some([]), 0)
      requires discoveredNodeCount <= MAX_NODES && encodedBytes <= maximumBytes
      modifies this`pending, this`discoveredNodeCount, this`encodedBytes, this`store, this`holder
      ensures ok <==> ShapeOk(node) && old(discoveredNodeCount) + |node.slots| <= MAX_NODES
                      && old(encodedBytes) + NameBytes(node.names.value) <= maximumBytes
      ensures holder == old(holder)
      ensures ok ==> pending == old(pending) + Members(node, depth, |old(store)| - 1)
      ensures ok ==> discoveredNodeCount == old(discoveredNodeCount) + |node.slots|
      ensures ok ==> encodedBytes == old(encodedBytes) + NameBytes(node.names.value)
      ensures ok ==> store == old(store)[|old(store)| - 1 := Blank(node.names, |node.slots|)]
    {
      hide NameBytes, Distinct, Blank, KeyOk, KeyBytes;
      var keys := node.names.value;
      var copy := |store| - 1;
      var propertyCount := 0;
      assert keys[..0] == [];
      NoNames();
      while propertyCount < |keys|
        invariant propertyCount <= |keys| && propertyCount <= MAX_PROPERTIES && holder == old(holder)
        invariant |pending| == |old(pending)| + propertyCount && old(pending) <= pending
        invariant discoveredNodeCount == old(discoveredNodeCount) + propertyCount <= MAX_NODES
        invariant encodedBytes == old(encodedBytes) + NameBytes(keys[..propertyCount]) <= maximumBytes
        invariant store == old(store)[copy := Blank(Some(keys[..propertyCount]), propertyCount)]
        invariant forall j :: 0 <= j < propertyCount ==> node.slots[j].Data? && KeyOk(keys[j])
        invariant forall j :: 0 <= j < propertyCount ==>
          pending[|old(pending)| + j] == Work(node.slots[j].value, depth, Field(copy, Name(keys[j])))
      {
        var key, slot := keys[propertyCount], node.slots[propertyCount];
        NextName(keys, propertyCount);
        NameBytesMonotone(keys, propertyCount + 1);
        DefineNext(keys, propertyCount);
        BlankShape(keys, propertyCount);
        propertyCount := propertyCount + 1;
        if propertyCount > MAX_PROPERTIES {
          return false;
        }
        var walked := WalkField(key, slot, depth, copy, propertyCount == 1);
        if !walked {
          return false;
        }
      }
      assert keys[..propertyCount] == keys;
      if node.otherFields {
        return false;
      }
      assert pending == old(pending) + Members(node, depth, copy);
      return true;
    }

    /** A container leaves the worklist: it is copied without its members, which join the list. */
    method VisitContainer(w: Work, ghost root: Value) returns (ok: bool)
      requires Progress(heap, maximumBytes, root, pending + [w], seen, discoveredNodeCount, encodedBytes, holder,
        store, origin)
      requires w.value.Ref? && w.depth <= MAX_DEPTH && w.value.node < |heap|
      modifies this
      ensures ok <==> w.value.node !in old(seen)
                      && Admissible(heap[w.value.node], old(discoveredNodeCount), old(encodedBytes), maximumBytes)
      ensures ok ==>
        Progress(heap, maximumBytes, root, pending, seen, discoveredNodeCount, encodedBytes, holder, store, origin)
      ensures ok ==> discoveredNodeCount - |pending| == old(discoveredNodeCount - |pending|)
    {
      hide Progress, Members, SetTarget, NameBytes, Blank, Distinct;
      ProgressShape(heap, maximumBytes, root, pending, w, seen, discoveredNodeCount, encodedBytes, holder, store,
        origin);
      var r := w.value.node;
      var node := heap[r];
      var copy := |store|;
      if r in seen {
        return false;
      }
      if Admissible(node, discoveredNodeCount, encodedBytes, maximumBytes) {
        ContainerProgress(heap, maximumBytes, root, pending, w, seen, discoveredNodeCount, encodedBytes, holder,
          store, origin);
        MembersCount(node, w.depth + 1, copy);
      }
      SetTargetBefore(holder, store, w.target, Data(Ref(copy)), Blank(Some([]), 0), Blank(node.names, |node.slots|));
      SetTargetBefore(holder, store, w.target, Data(Ref(copy)), Blank(None, |node.slots|), Blank(None, |node.slots|));
      seen := seen + {r};
      if node.names.None? {
        if !node.plain || |node.slots| > MAX_ITEMS {
          return false;
        }
        ok := AddEncodedBytes(2 + if |node.slots| == 0 then 0 else |node.slots| - 1);
        if !ok {
          return;
        }
        store, origin := store + [Blank(None, |node.slots|)], origin + [r];
        SetSnapshotValue(w.target, Data(Ref(copy)));
        ok := WalkArray(node, w.depth + 1);
      } else {
        if !node.plain {
          return false;
        }
        ok := AddEncodedBytes(2);
        if !ok {
          return;
        }
        store, origin := store + [Blank(Some([]), 0)], origin + [r];
        SetSnapshotValue(w.target, Data(Ref(copy)));
        ok := WalkRecord(node, w.depth + 1);
      }
    }

    /** A primitive value leaves the worklist. */
    method VisitLeaf(w: Work, ghost root: Value) returns (ok: bool)
      requires Progress(heap, maximumBytes, root, pending + [w], seen, discoveredNodeCount, encodedBytes, holder,
        store, origin)
      requires w.value.Leaf? && w.depth <= MAX_DEPTH
      modifies this`encodedBytes, this`holder, this`store
      ensures ok <==> ScalarOk(w.value.scalar) && old(encodedBytes) + |ScalarText(w.value.scalar)| <= maximumBytes
      ensures ok ==>
        Progress(heap, maximumBytes, root, pending, seen, discoveredNodeCount, encodedBytes, holder, store, origin)
    {
      hide Progress, Copying, BytesConserved, Verdict, SetTarget;
      var s := w.value.scalar;
      if ScalarOk(s) && encodedBytes + |ScalarText(s)| <= maximumBytes {
        LeafProgress(heap, maximumBytes, root, pending, w, seen, discoveredNodeCount, encodedBytes, holder, store,
          origin);
      }
      var amount;
      match s {
        case Null => amount := 4;
        case Bool(b) => amount := if b then 4 else 5;
        case Number(text) => amount := |text|;
        case String(text) =>
          if |text| > TEXT_MAX_BYTES || Utf8Length(text) > TEXT_MAX_BYTES {
            return false;
          }
          amount := JsonStringByteLength(text);
      }
      ok := AddEncodedBytes(amount);
      if ok {
        SetSnapshotValue(w.target, Data(w.value));
      }
    }

    /** Pops and visits until nothing is pending. */
    method Process(ghost root: Value) returns (ok: bool)
      requires Progress(heap, maximumBytes, root, pending, seen, discoveredNodeCount, encodedBytes, holder, store,
        origin)
      requires InGraph(heap, root)
      modifies this
      ensures ok <==> Verdict(heap, [Work(root, 0, Holder)], {}, 1, 0, maximumBytes)
      ensures ok ==>
        Progress(heap, maximumBytes, root, [], seen, discoveredNodeCount, encodedBytes, holder, store, origin)
    {
      hide Copying, BytesConserved, Verdict, Graph, Admissible, ScalarOk, ScalarText;
      while pending != []
        invariant Progress(heap, maximumBytes, root, pending, seen, discoveredNodeCount, encodedBytes, holder, store,
          origin)
        decreases MAX_NODES - discoveredNodeCount + |pending|
      {
        var last := |pending| - 1;
        var current := pending[last];
        var rest := pending[..last];
        assert pending == rest + [current];
        pending := rest;
        if current.depth > MAX_DEPTH || current.value.Odd? {
          PopRefused(heap, rest, current, seen, discoveredNodeCount, encodedBytes, maximumBytes);
          return false;
        }
        if current.value.Leaf? {
          PopScalar(heap, rest, current, seen, discoveredNodeCount, encodedBytes, maximumBytes);
          ok := VisitLeaf(current, root);
        } else {
          ItemInGraph(heap, root, rest + [current], holder, store, origin);
          assert (rest + [current])[last] == current;
          if current.value.node in seen
            || !Admissible(heap[current.value.node], discoveredNodeCount, encodedBytes, maximumBytes) {
            ContainerFails(heap, rest, current, seen, discoveredNodeCount, encodedBytes, maximumBytes);
          }
          ok := VisitContainer(current, root);
        }
        if !ok {
          return;
        }
      }
      NothingPending(heap, seen, discoveredNodeCount, encodedBytes, maximumBytes);
      return true;
    }
  }

  lemma Starts(heap: seq<Node>, maximumBytes: int, root: Value)
    requires Graph(heap) && maximumBytes >= 0
    ensures Progress(heap, maximumBytes, root, [Work(root, 0, Holder)], {}, 1, 0, NotData, [], [])
  {
    hide Unfold, TreeTally, ListTally, Verdict;
    var pending := [Work(root, 0, Holder)];
    assert pending[0].target == Holder;
    if Unfold(heap, root, 0).Some? {
      SingleTally(heap, pending[0]);
    }
  }

  /** The copy of the root, once nothing is pending. */
  lemma Finishes(heap: seq<Node>, root: Value, bytes: int, holder: Slot, store: seq<Node>, origin: seq<nat>)
    requires Copying(heap, root, [], holder, store, origin) && BytesConserved(heap, root, [], bytes)
    requires Unfold(heap, root, 0).Some?
    ensures Copied(heap, origin, holder, root) && SameUnfolding(Unfold(heap, root, 0), Unfold(store, holder.value, 0))
    ensures bytes == |Print(Unfold(heap, root, 0).value)|
  {
    hide Unfold, TreeTally, ShapeOk, FieldsOk, Skeletons, SameUnfolding, NamesMatch, Denotes, Within;
    assert !Waiting([], Holder);
    CopyUnfolds(heap, store, origin, root, holder, 0);
    UnfoldSound(heap, root, 0);
    PrintLength(Unfold(heap, root, 0).value);
    assert ListTally(Trees(heap, [])).bytes == 0;
  }

  datatype Snapshot = Snapshot(store: seq<Node>, root: Value, encodedBytes: int)

  /**
   The snapshot is a fresh graph of the same JSON value in which no container is shared,
   and its byte count is that of its compact text.
   */
  ghost predicate IsSnapshotOf(snapshot: Snapshot, t: Tree) {
    && snapshot.encodedBytes == |Print(t)|
    && Exclusive(Data(snapshot.root), snapshot.store)
    && exists copy :: Denotes(snapshot.store, snapshot.root, copy) && SameJson(t, copy)
  }

  lemma BoundedIsRecord(heap: seq<Node>, v: Value, t: Tree, maximumBytes: int)
    requires BoundedObject(heap, v, t, maximumBytes)
    ensures v.Ref? && v.node < |heap| && heap[v.node].names.Some? && heap[v.node].plain
  {
  }

  /**
   Accepts exactly the records that are trees of JSON data within every limit, and
   returns a fresh structure with the same value and the same member order, in which no
   container is shared.
   */
  method RequireFirstReleaseJsonObject(heap: seq<Node>, value: Value, maximumBytes: int)
    returns (snapshot: Option<Snapshot>)
    requires Graph(heap) && InGraph(heap, value)
    ensures snapshot.Some?
      <==> 2 <= maximumBytes <= MAX_SAFE_INTEGER && exists t :: BoundedObject(heap, value, t, maximumBytes)
    ensures snapshot.Some? ==>
      forall t :: BoundedObject(heap, value, t, maximumBytes) ==> IsSnapshotOf(snapshot.value, t)
  {
    hide BoundedObject, Verdict, Graph, Copying, BytesConserved, Exclusive, Unfold, Denotes, Within, SameJson,
         TreeTally;
    forall t | BoundedObject(heap, value, t, maximumBytes)
      ensures Unfold(heap, value, 0) == Some(t) && Verdict(heap, [Work(value, 0, Holder)], {}, 1, 0, maximumBytes)
      ensures value.Ref? && heap[value.node].names.Some? && heap[value.node].plain
    {
      VerdictComplete(heap, value, t, maximumBytes);
      BoundedIsRecord(heap, value, t, maximumBytes);
    }
    if !value.Ref? || heap[value.node].names.None? || !heap[value.node].plain
       || maximumBytes > MAX_SAFE_INTEGER || maximumBytes < 2 {
      return None;
    }
    var snapshotter := new Snapshotter(heap, value, maximumBytes);
    Starts(heap, maximumBytes, value);
    var ok := snapshotter.Process(value);
    if !ok {
      return None;
    }
    VerdictSound(heap, value.node, maximumBytes);
    Finishes(heap, value, snapshotter.encodedBytes, snapshotter.holder, snapshotter.store, snapshotter.origin);
    UnfoldSound(snapshotter.store, snapshotter.holder.value, 0);
    return Some(Snapshot(snapshotter.store, snapshotter.holder.value, snapshotter.encodedBytes));
  }
}
