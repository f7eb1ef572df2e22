/** The flat array side of the filter compiler: what it means for an array to
    hold a tree, and the imperative writer, which leaves exactly the outlined
    tree in the array. */
module FilterArray {
  import opened Prelude
  import opened FilterCompiler

  // ----- what it means for a node array to hold a tree

  function PoisonNode(index: nat, toSelf: bool): Node {
    BLANK.(op := 8, childrenStart := if toSelf then index else UINT32_MAX, childrenCount := 1)
  }

  function LogicalNode(op: nat, start: nat, count: nat): Node {
    BLANK.(op := op, childrenStart := start, childrenCount := count)
  }

  /** Node `i` is the root of `t`; the rest of `t` fills the slots from `lo`. */
  ghost predicate Encodes(nodes: seq<Node>, i: nat, lo: nat, t: Tree)
    decreases t, 0
  {
    && i < |nodes|
    && lo + Extra(t) <= |nodes|
    && match t
       case Leaf(n) => nodes[i] == n
       case Poison(toSelf) => nodes[i] == PoisonNode(i, toSelf)
       case Logical(op, kids) =>
         nodes[i] == LogicalNode(op, lo, |kids|) && EncodesAll(nodes, lo, lo + |kids|, kids)
  }

  /** Nodes from `first` on are the roots of `ts`; the rest fills from `lo`. */
  ghost predicate EncodesAll(nodes: seq<Node>, first: nat, lo: nat, ts: seq<Tree>)
    decreases ts, 1
  {
    ts == [] || (Encodes(nodes, first, lo, ts[0]) && EncodesAll(nodes, first + 1, lo + Extra(ts[0]), ts[1..]))
  }

  ghost predicate SameOn(a: seq<Node>, b: seq<Node>, from: nat, to: nat) {
    to <= |a| && to <= |b| && forall k :: from <= k < to ==> a[k] == b[k]
  }

  lemma {:induction false} EncodingSurvives(a: seq<Node>, b: seq<Node>, i: nat, lo: nat, t: Tree)
    requires Encodes(a, i, lo, t) && i < |b| && a[i] == b[i] && SameOn(a, b, lo, lo + Extra(t))
    ensures Encodes(b, i, lo, t)
    decreases t, 0
  {
    if t.Logical? {
      EncodingsSurvive(a, b, lo, lo + |t.kids|, t.kids);
    }
  }

  /** Later siblings grow the array and fill their own slots without
      disturbing what earlier siblings wrote. */
  lemma {:induction false} EncodingsSurvive(a: seq<Node>, b: seq<Node>, first: nat, lo: nat, ts: seq<Tree>)
    requires EncodesAll(a, first, lo, ts)
    requires SameOn(a, b, first, first + |ts|) && SameOn(a, b, lo, lo + ExtraAll(ts))
    ensures EncodesAll(b, first, lo, ts)
    decreases ts, 1
  {
    if ts != [] {
      EncodingSurvives(a, b, first, lo, ts[0]);
      EncodingsSurvive(a, b, first + 1, lo + Extra(ts[0]), ts[1..]);
    }
  }

  lemma {:induction false} EncodesAppend(nodes: seq<Node>, first: nat, lo: nat, ts: seq<Tree>, t: Tree)
    requires EncodesAll(nodes, first, lo, ts) && Encodes(nodes, first + |ts|, lo + ExtraAll(ts), t)
    ensures EncodesAll(nodes, first, lo, ts + [t])
    ensures ExtraAll(ts + [t]) == ExtraAll(ts) + Extra(t)
    decreases |ts|
  {
    if ts == [] {
      assert [t][1..] == [];
      assert ts + [t] == [t];
    } else {
      assert (ts + [t])[1..] == ts[1..] + [t];
      EncodesAppend(nodes, first + 1, lo + Extra(ts[0]), ts[1..], t);
    }
  }

  // ----- the writer

  class FilterStorage {
    var storage: seq<Node>
    var seen: seq<Id>

    constructor ()
      ensures storage == [BLANK] && seen == []
    {
      storage, seen := [BLANK], [];
    }

    /** Writes `v` at `index`, whose slot has been reserved, and its children
        behind the end of the array. */
    method ParseNode(objects: Objects, v: Value, index: nat, depth: nat) returns (r: Option<ArgumentError>)
      requires index < |storage| <= UINT32_MAX && storage[index] == BLANK
      modifies this
      ensures Writes(objects, v, index, depth, old(storage), old(seen), storage, seen, r)
      decreases Fuel(depth), 0
    {
      if depth > MAX_DEPTH {
        storage := storage[index := BLANK.(op := 8, childrenStart := index, childrenCount := 1)];
        return None;
      }
      if v.Object? && v.id in seen {
        storage := storage[index := BLANK.(op := 8, childrenStart := index, childrenCount := 1)];
        return None;
      }
      if v.NotObject? {
        storage := storage[index := BLANK.(op := 8, childrenStart := UINT32_MAX, childrenCount := 1)];
        return None;
      }
      seen := seen + [v.id];
      match objects(v.id) {
        case Faulty(e) =>
          return Some(e);
        case Operand(node) =>
          storage := storage[index := node];
          return None;
        case Connective(op, children) =>
          var start := |storage|;
          if start + |children| > UINT32_MAX {
            return Some(OutOfRange("children"));
          }
          storage := storage + seq(|children|, _ => BLANK);
          storage := storage[index := BLANK.(op := op, childrenStart := start, childrenCount := |children|)];
          ghost var reserved := storage;
          r := ParseChildren(objects, children, start, depth + 1);
          ConnectiveWritten(objects, v.id, index, depth, old(storage), old(seen), reserved, storage, seen, r);
      }
    }

    /** The loop over the children of one connective. */
    method ParseChildren(objects: Objects, children: seq<Value>, start: nat, depth: nat) returns (r: Option<ArgumentError>)
      requires start + |children| <= |storage| <= UINT32_MAX
      requires forall k :: start <= k < start + |children| ==> storage[k] == BLANK
      modifies this
      ensures WritesAll(objects, children, start, depth, old(storage), old(seen), storage, seen, r)
      decreases Fuel(depth), 1
    {
      ghost var total, was := OutlineAll(objects, children, depth, seen, |storage|), storage;
      ghost var done: seq<Tree> := [];
      assert children[0..] == children;
      assert total.Built? ==> [] + total.tree == total.tree;
      for child := 0 to |children|
        invariant |done| == child
        invariant Progress(children, start, was, storage, done)
        invariant total == Continue(done, OutlineAll(objects, children[child..], depth, seen, |storage|))
      {
        ghost var before, beforeSeen := storage, seen;
        r := ParseNode(objects, children[child], start + child, depth);
        assert children[child..][1..] == children[child + 1..];
        if r.Some? {
          return;
        }
        ghost var o := Outline(objects, children[child], depth, beforeSeen, |before|);
        ChildWritten(objects, children, start, depth, was, before, beforeSeen, storage, seen, done);
        ContinueStep(done, o.tree, OutlineAll(objects, children[child + 1..], depth, o.seen, o.used));
        done := done + [o.tree];
      }
      assert done + [] == done;
      r := None;
    }
  }

  /** The first children of a range are written, the rest of the range is blank
      and nothing else that was there has changed. */
  ghost predicate Progress(children: seq<Value>, start: nat, was: seq<Node>, nodes: seq<Node>, done: seq<Tree>) {
    && |done| <= |children| && start + |children| <= |was| && |was| + ExtraAll(done) == |nodes| <= UINT32_MAX
    && EncodesAll(nodes, start, |was|, done)
    && (forall k :: start + |done| <= k < start + |children| ==> nodes[k] == BLANK)
    && (forall k :: 0 <= k < |was| && !(start <= k < start + |children|) ==> nodes[k] == was[k])
  }

  lemma ChildWritten(objects: Objects, children: seq<Value>, start: nat, depth: nat, was: seq<Node>,
                     nodes: seq<Node>, seen: seq<Id>, nodes': seq<Node>, seen': seq<Id>, done: seq<Tree>)
    requires Progress(children, start, was, nodes, done) && |done| < |children|
    requires Outline(objects, children[|done|], depth, seen, |nodes|).Built?
    requires Writes(objects, children[|done|], start + |done|, depth, nodes, seen, nodes', seen', None)
    ensures Progress(children, start, was, nodes', done + [Outline(objects, children[|done|], depth, seen, |nodes|).tree])
  {
    var t := Outline(objects, children[|done|], depth, seen, |nodes|).tree;
    EncodingsSurvive(nodes, nodes', start, |was|, done);
    EncodesAppend(nodes', start, |was|, done, t);
    OutlineAccounts(objects, children[|done|], depth, seen, |nodes|);
  }

  /** Resume an outline of siblings of which `done` are already built. */
  ghost function Continue(done: seq<Tree>, rest: Outcome<seq<Tree>>): Outcome<seq<Tree>> {
    match rest
    case Threw(e) => Threw(e)
    case Built(ts, s, u) => Built(done + ts, s, u)
  }

  lemma ContinueStep(done: seq<Tree>, t: Tree, rest: Outcome<seq<Tree>>)
    ensures Continue(done, Continue([t], rest)) == Continue(done + [t], rest)
  {
    if rest.Built? {
      assert done + ([t] + rest.tree) == (done + [t]) + rest.tree;
    }
  }

  /** A step that either reports the outline's error or leaves the outline's
      tree at `index`, touching no other existing slot. */
  ghost predicate Writes(objects: Objects, v: Value, index: nat, depth: nat,
                         nodes: seq<Node>, seen: seq<Id>, nodes': seq<Node>, seen': seq<Id>, r: Option<ArgumentError>) {
    match Outline(objects, v, depth, seen, |nodes|)
    case Threw(e) => r == Some(e)
    case Built(t, s, u) =>
      && r == None && seen' == s && |nodes'| == u && |nodes| + Extra(t) == u
      && Encodes(nodes', index, |nodes|, t)
      && forall k :: 0 <= k < |nodes| && k != index ==> nodes'[k] == nodes[k]
  }

  ghost predicate WritesAll(objects: Objects, vs: seq<Value>, start: nat, depth: nat,
                            nodes: seq<Node>, seen: seq<Id>, nodes': seq<Node>, seen': seq<Id>, r: Option<ArgumentError>) {
    match OutlineAll(objects, vs, depth, seen, |nodes|)
    case Threw(e) => r == Some(e)
    case Built(ts, s, u) =>
      && r == None && seen' == s && |nodes'| == u && |nodes| + ExtraAll(ts) == u && |ts| == |vs|
      && EncodesAll(nodes', start, |nodes|, ts)
      && forall k :: 0 <= k < |nodes| && !(start <= k < start + |vs|) ==> nodes'[k] == nodes[k]
  }

  /** Reserving the slots, writing the range and parsing the children into it
      amounts to writing the connective. */
  lemma ConnectiveWritten(objects: Objects, id: Id, index: nat, depth: nat, nodes: seq<Node>, seen: seq<Id>,
                          reserved: seq<Node>, nodes': seq<Node>, seen': seq<Id>, r: Option<ArgumentError>)
    requires objects(id).Connective? && depth <= MAX_DEPTH && id !in seen && index < |nodes|
    requires var vs := objects(id).children;
             && |nodes| + |vs| <= UINT32_MAX && |reserved| == |nodes| + |vs|
             && reserved[index] == LogicalNode(objects(id).op, |nodes|, |vs|)
             && (forall k :: 0 <= k < |nodes| && k != index ==> reserved[k] == nodes[k])
             && WritesAll(objects, vs, |nodes|, depth + 1, reserved, seen + [id], nodes', seen', r)
    ensures Writes(objects, Object(id), index, depth, nodes, seen, nodes', seen', r)
  {
    var vs := objects(id).children;
    var o := OutlineAll(objects, vs, depth + 1, seen + [id], |nodes| + |vs|);
    if o.Built? {
      var t := Logical(objects(id).op, o.tree);
      assert Outline(objects, Object(id), depth, seen, |nodes|) == Built(t, o.seen, o.used);
      assert nodes'[index] == reserved[index];
      assert Encodes(nodes', index, |nodes|, t);
    }
  }
}
