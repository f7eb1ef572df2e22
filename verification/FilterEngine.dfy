/** The engine's reader of the flat filter array, and the proof that decoding a
    compiled array gives what the tree denotes that the object graph unfolds
    to, within the engine's limits. */
module FilterEngine {
  import opened Prelude
  import opened FilterCompiler
  import opened FilterArray

  datatype Predicate =
    | Eq(column: nat, value: Attribute)
    | In(column: nat, values: seq<Attribute>)
    | Range(column: nat, lower: Option<Bound>, upper: Option<Bound>)
    | Exists(column: nat)
    | IsNull(column: nat)
    | And(all: seq<Predicate>)
    | Or(any: seq<Predicate>)
    | Not(inner: Predicate)

  const ENGINE_DEPTH: nat := 32
  const MAX_FILTER_NODES: nat := 0x10_0000

  /** Shape checks of a leaf; `admits` stands for the checks of its values
      against the store's schema. */
  function DecodeLeaf(n: Node, admits: Node -> bool): Option<Predicate> {
    if n.childrenCount != 0 || !admits(n) then None
    else if n.op == 5 then
      if n.values != [] || (n.lower.None? && n.upper.None?) then None
      else Some(Range(n.attributeId, n.lower, n.upper))
    else if n.lower.Some? || n.upper.Some? then None
    else
      match n.op
      case 1 => if |n.values| == 1 then Some(Eq(n.attributeId, n.values[0])) else None
      case 2 => if |n.values| == 1 then Some(Not(Eq(n.attributeId, n.values[0]))) else None
      case 3 => Some(In(n.attributeId, n.values))
      case 4 => Some(Not(In(n.attributeId, n.values)))
      case 6 => if n.values == [] then Some(Exists(n.attributeId)) else None
      case 7 => if n.values == [] then Some(IsNull(n.attributeId)) else None
      case _ => None
  }

  function Combine(op: nat, ps: seq<Predicate>): Option<Predicate> {
    match op
    case 8 => Some(And(ps))
    case 9 => Some(Or(ps))
    case 10 => if |ps| == 1 then Some(Not(ps[0])) else None
    case _ => None
  }

  datatype Decoded<+T> = Decoded(value: T, visited: set<nat>)

  function EngineFuel(depth: nat): nat {
    if depth <= ENGINE_DEPTH then ENGINE_DEPTH + 1 - depth else 0
  }

  /** Reads the node at `index`; a node may be visited once only. */
  function Decode(nodes: seq<Node>, admits: Node -> bool, visited: set<nat>, index: nat, depth: nat): Option<Decoded<Predicate>>
    decreases EngineFuel(depth), 0
  {
    if depth > ENGINE_DEPTH || index >= |nodes| || index in visited then None
    else
      var node := nodes[index];
      if 8 <= node.op <= 10 then
        if node.lower.Some? || node.upper.Some? || node.values != [] then None
        else if node.op == 10 && node.childrenCount != 1 then None
        else if node.childrenStart + node.childrenCount > |nodes| then None
        else
          match DecodeRange(nodes, admits, visited + {index}, node.childrenStart, node.childrenStart + node.childrenCount, depth + 1)
          case None => None
          case Some(Decoded(ps, seen)) =>
            match Combine(node.op, ps)
            case None => None
            case Some(p) => Some(Decoded(p, seen))
      else
        match DecodeLeaf(node, admits)
        case None => None
        case Some(p) => Some(Decoded(p, visited + {index}))
  }

  function DecodeRange(nodes: seq<Node>, admits: Node -> bool, visited: set<nat>, from: nat, to: nat, depth: nat):
    Option<Decoded<seq<Predicate>>>
    decreases EngineFuel(depth), if from <= to then to - from + 1 else 1
  {
    if from >= to then Some(Decoded([], visited))
    else
      match Decode(nodes, admits, visited, from, depth)
      case None => None
      case Some(Decoded(p, seen)) =>
        match DecodeRange(nodes, admits, seen, from + 1, to, depth)
        case None => None
        case Some(Decoded(ps, seen')) => Some(Decoded([p] + ps, seen'))
  }

  function DecodeFilter(nodes: seq<Node>, admits: Node -> bool): Option<Predicate> {
    if |nodes| == 0 || |nodes| > MAX_FILTER_NODES then None
    else
      match Decode(nodes, admits, {}, 0, 1)
      case None => None
      case Some(Decoded(p, _)) => Some(p)
  }

  // ----- the reference meaning, on trees

  function Interpret(t: Tree, depth: nat, admits: Node -> bool): Option<Predicate>
    decreases t, 0
  {
    if depth > ENGINE_DEPTH then None
    else
      match t
      case Leaf(n) => DecodeLeaf(n, admits)
      case Poison(_) => None
      case Logical(op, kids) =>
        match InterpretAll(kids, depth + 1, admits)
        case None => None
        case Some(ps) => Combine(op, ps)
  }

  function InterpretAll(ts: seq<Tree>, depth: nat, admits: Node -> bool): (r: Option<seq<Predicate>>)
    ensures r.Some? ==> |r.value| == |ts|
    decreases ts, 1
  {
    if ts == [] then Some([])
    else
      match Interpret(ts[0], depth, admits)
      case None => None
      case Some(p) =>
        match InterpretAll(ts[1..], depth, admits)
        case None => None
        case Some(ps) => Some([p] + ps)
  }

  // ----- what a filter means, without any limit

  function Denote(t: Tree, admits: Node -> bool): Option<Predicate>
    decreases t, 0
  {
    match t
    case Leaf(n) => DecodeLeaf(n, admits)
    case Poison(_) => None
    case Logical(op, kids) =>
      match DenoteAll(kids, admits)
      case None => None
      case Some(ps) => Combine(op, ps)
  }

  function DenoteAll(ts: seq<Tree>, admits: Node -> bool): Option<seq<Predicate>>
    decreases ts, 1
  {
    if ts == [] then Some([])
    else
      match Denote(ts[0], admits)
      case None => None
      case Some(p) =>
        match DenoteAll(ts[1..], admits)
        case None => None
        case Some(ps) => Some([p] + ps)
  }

  /** What a caller's filter means: what the tree it unfolds to denotes, if it
      is regular. */
  ghost function Meaning(objects: Objects, v: Value, admits: Node -> bool): Option<Predicate> {
    if Regular(objects, v) then Denote(Unfold(objects, v, 0).value, admits) else None
  }

  function Levels(t: Tree): (n: nat)
    ensures n >= 1
  {
    match t
    case Logical(_, kids) => 1 + MaxLevels(kids)
    case _ => 1
  }

  function MaxLevels(ts: seq<Tree>): nat {
    if ts == [] then 0 else if Levels(ts[0]) > MaxLevels(ts[1..]) then Levels(ts[0]) else MaxLevels(ts[1..])
  }

  /** The limits of the engine: 32 levels and 2^20 nodes. */
  predicate WithinLimits(t: Tree) {
    Levels(t) <= ENGINE_DEPTH && 1 + Extra(t) <= MAX_FILTER_NODES
  }

  /** What the engine makes of a caller's filter: its meaning, or nothing when a
      regular filter exceeds a limit. */
  ghost function Reading(objects: Objects, v: Value, admits: Node -> bool): Option<Predicate> {
    if Regular(objects, v) && !WithinLimits(Unfold(objects, v, 0).value) then None else Meaning(objects, v, admits)
  }

  /** The depth limit cuts off the trees with too many levels and has no other
      effect. */
  lemma {:induction false} InterpretIsDenote(t: Tree, depth: nat, admits: Node -> bool)
    ensures Interpret(t, depth, admits) == if depth + Levels(t) <= ENGINE_DEPTH + 1 then Denote(t, admits) else None
    decreases t, 0
  {
    if t.Logical? && depth <= ENGINE_DEPTH {
      InterpretAllIsDenote(t.kids, depth + 1, admits);
    }
  }

  lemma {:induction false} InterpretAllIsDenote(ts: seq<Tree>, depth: nat, admits: Node -> bool)
    requires depth <= ENGINE_DEPTH + 1
    ensures InterpretAll(ts, depth, admits) == if depth + MaxLevels(ts) <= ENGINE_DEPTH + 1 then DenoteAll(ts, admits) else None
    decreases ts, 1
  {
    if ts != [] {
      InterpretIsDenote(ts[0], depth, admits);
      InterpretAllIsDenote(ts[1..], depth, admits);
    }
  }

  ghost predicate Shaped(t: Tree) {
    match t
    case Leaf(n) => 1 <= n.op <= 7
    case Poison(_) => true
    case Logical(op, kids) => 8 <= op <= 10 && ShapedAll(kids)
  }

  ghost predicate ShapedAll(ts: seq<Tree>) {
    ts == [] || (Shaped(ts[0]) && ShapedAll(ts[1..]))
  }

  ghost predicate Shapely(objects: Objects) {
    forall id :: match objects(id)
                 case Faulty(_) => true
                 case Operand(n) => 1 <= n.op <= 7
                 case Connective(op, _) => 8 <= op <= 10
  }

  lemma {:induction false} OutlineIsShaped(objects: Objects, v: Value, depth: nat, seen: seq<Id>, used: nat)
    requires Shapely(objects) && Outline(objects, v, depth, seen, used).Built?
    ensures Shaped(Outline(objects, v, depth, seen, used).tree)
    decreases Fuel(depth), 0
  {
    var o := Outline(objects, v, depth, seen, used);
    if !o.tree.Poison? {
      assert !objects(v.id).Faulty?;
      if o.tree.Logical? {
        var vs := objects(v.id).children;
        OutlinesAreShaped(objects, vs, depth + 1, seen + [v.id], used + |vs|);
      }
    }
  }

  lemma {:induction false} OutlinesAreShaped(objects: Objects, vs: seq<Value>, depth: nat, seen: seq<Id>, used: nat)
    requires Shapely(objects) && OutlineAll(objects, vs, depth, seen, used).Built?
    ensures ShapedAll(OutlineAll(objects, vs, depth, seen, used).tree)
    decreases Fuel(depth), |vs| + 1
  {
    if vs != [] {
      var h := Outline(objects, vs[0], depth, seen, used);
      var o := OutlineAll(objects, vs[1..], depth, h.seen, h.used);
      assert ([h.tree] + o.tree)[1..] == o.tree;
      OutlineIsShaped(objects, vs[0], depth, seen, used);
      OutlinesAreShaped(objects, vs[1..], depth, h.seen, h.used);
    }
  }

  // ----- decoding an encoded tree

  predicate Between(lo: nat, k: nat, hi: nat) {
    lo <= k < hi
  }

  function Span(lo: nat, hi: nat): set<nat> {
    set k: nat | k < hi && Between(lo, k, hi)
  }

  function Visit<T>(p: Option<T>, visited: set<nat>): Option<Decoded<T>> {
    match p
    case None => None
    case Some(x) => Some(Decoded(x, visited))
  }

  lemma PoisonIsRejected(nodes: seq<Node>, admits: Node -> bool, visited: set<nat>, i: nat, depth: nat, toSelf: bool)
    requires i < |nodes| <= UINT32_MAX && nodes[i] == PoisonNode(i, toSelf)
    ensures Decode(nodes, admits, visited, i, depth) == None
  {
    if toSelf && depth <= ENGINE_DEPTH {
      assert Decode(nodes, admits, visited + {i}, i, depth + 1) == None;
      assert DecodeRange(nodes, admits, visited + {i}, i, i + 1, depth + 1) == None;
    }
  }

  /** Reading at a tree's root gives the tree's interpretation and marks
      exactly the tree's slots. */
  lemma {:induction false} DecodeReadsTree(nodes: seq<Node>, admits: Node -> bool, visited: set<nat>, i: nat, lo: nat, depth: nat, t: Tree)
    requires Encodes(nodes, i, lo, t) && Shaped(t) && i < lo && |nodes| <= UINT32_MAX
    requires i !in visited && visited !! Span(lo, lo + Extra(t))
    ensures Decode(nodes, admits, visited, i, depth)
            == Visit(Interpret(t, depth, admits), visited + {i} + Span(lo, lo + Extra(t)))
    decreases t, 0
  {
    match t {
      case Leaf(n) =>
        assert visited + {i} + Span(lo, lo) == visited + {i};
      case Poison(toSelf) =>
        PoisonIsRejected(nodes, admits, visited, i, depth, toSelf);
      case Logical(op, kids) =>
        if depth <= ENGINE_DEPTH {
          var n := |kids|;
          DecodeReadsTrees(nodes, admits, visited + {i}, lo, lo + n, depth + 1, kids);
          assert visited + {i} + Span(lo, lo + n) + Span(lo + n, lo + Extra(t)) == visited + {i} + Span(lo, lo + Extra(t));
        }
    }
  }

  lemma {:induction false} DecodeReadsTrees(nodes: seq<Node>, admits: Node -> bool, visited: set<nat>, first: nat, lo: nat, depth: nat, ts: seq<Tree>)
    requires EncodesAll(nodes, first, lo, ts) && ShapedAll(ts) && first + |ts| <= lo && |nodes| <= UINT32_MAX
    requires visited !! Span(first, first + |ts|) && visited !! Span(lo, lo + ExtraAll(ts))
    ensures DecodeRange(nodes, admits, visited, first, first + |ts|, depth)
            == Visit(InterpretAll(ts, depth, admits), visited + Span(first, first + |ts|) + Span(lo, lo + ExtraAll(ts)))
    decreases ts, 1
  {
    if ts == [] {
      assert visited + Span(first, first) + Span(lo, lo) == visited;
    } else {
      var mid, hi := lo + Extra(ts[0]), lo + ExtraAll(ts);
      assert first in Span(first, first + |ts|);
      assert Span(lo, mid) <= Span(lo, hi);
      DecodeReadsTree(nodes, admits, visited, first, lo, depth, ts[0]);
      var after := visited + {first} + Span(lo, mid);
      assert Span(first + 1, first + |ts|) <= Span(first, first + |ts|);
      assert Span(mid, hi) <= Span(lo, hi);
      DecodeReadsTrees(nodes, admits, after, first + 1, mid, depth, ts[1..]);
      assert after + Span(first + 1, first + |ts|) + Span(mid, hi) == visited + Span(first, first + |ts|) + Span(lo, hi);
    }
  }

  lemma {:induction false} PoisonHasNoMeaning(t: Tree, depth: nat, admits: Node -> bool)
    requires !Clean(t)
    ensures Interpret(t, depth, admits) == None
    decreases t, 0
  {
    if t.Logical? {
      PoisonsHaveNoMeaning(t.kids, depth + 1, admits);
    }
  }

  lemma {:induction false} PoisonsHaveNoMeaning(ts: seq<Tree>, depth: nat, admits: Node -> bool)
    requires !CleanAll(ts)
    ensures InterpretAll(ts, depth, admits) == None
    decreases ts, 1
  {
    if !Clean(ts[0]) {
      PoisonHasNoMeaning(ts[0], depth, admits);
    } else {
      PoisonsHaveNoMeaning(ts[1..], depth, admits);
    }
  }

  // ----- clean exactly when regular

  lemma CleanIsRegular(objects: Objects, v: Value)
    requires Outline(objects, v, 0, [], 1).Built? && Clean(Outline(objects, v, 0, [], 1).tree)
    ensures Regular(objects, v) && Unfold(objects, v, 0) == Some(Outline(objects, v, 0, [], 1).tree)
    ensures Outline(objects, v, 0, [], 1).seen == Preorder(objects, v, 0)
  {
    assert [] + Preorder(objects, v, 0) == Preorder(objects, v, 0);
    CleanOutlineIsUnfolding(objects, v, 0, [], 1);
    OutlineAccounts(objects, v, 0, [], 1);
  }

  lemma RegularIsClean(objects: Objects, v: Value)
    requires Outline(objects, v, 0, [], 1).Built? && Regular(objects, v)
    ensures Clean(Outline(objects, v, 0, [], 1).tree)
  {
    assert [] + Preorder(objects, v, 0) == Preorder(objects, v, 0);
    RegularOutline(objects, v, 0, [], 1);
    UnfoldIsClean(objects, v, 0);
  }

  /** When nothing is thrown, the outline is free of poison exactly when no
      object was met twice, none was too deep and none was a non-object. */
  lemma CleanIffRegular(objects: Objects, v: Value)
    requires Outline(objects, v, 0, [], 1).Built?
    ensures var o := Outline(objects, v, 0, [], 1);
            && (Clean(o.tree) <==> Regular(objects, v))
            && (Regular(objects, v) ==> Unfold(objects, v, 0) == Some(o.tree) && o.seen == Preorder(objects, v, 0))
  {
    if Clean(Outline(objects, v, 0, [], 1).tree) {
      CleanIsRegular(objects, v);
    } else if Regular(objects, v) {
      RegularIsClean(objects, v);
    }
  }

  /** An argument error is thrown only for filters that are not regular or that
      exceed the engine's limits by far. */
  lemma ThrownIsUnreadable(objects: Objects, v: Value, admits: Node -> bool)
    requires Outline(objects, v, 0, [], 1).Threw?
    ensures Reading(objects, v, admits) == None
    ensures Regular(objects, v) ==> 1 + Extra(Unfold(objects, v, 0).value) > UINT32_MAX
  {
    if Regular(objects, v) {
      assert [] + Preorder(objects, v, 0) == Preorder(objects, v, 0);
      RegularOutline(objects, v, 0, [], 1);
    }
  }

  /** What the engine decodes from a written array is the filter's meaning
      within the limits, and nothing beyond them. */
  lemma DecodedArrayHasMeaning(objects: Objects, v: Value, admits: Node -> bool, nodes: seq<Node>)
    requires Shapely(objects) && Outline(objects, v, 0, [], 1).Built?
    requires var o := Outline(objects, v, 0, [], 1);
             |nodes| == o.used <= UINT32_MAX && Encodes(nodes, 0, 1, o.tree) && 1 + Extra(o.tree) == o.used
    ensures DecodeFilter(nodes, admits) == Reading(objects, v, admits)
  {
    var o := Outline(objects, v, 0, [], 1);
    OutlineIsShaped(objects, v, 0, [], 1);
    CleanIffRegular(objects, v);
    DecodeReadsTree(nodes, admits, {}, 0, 1, 1, o.tree);
    InterpretIsDenote(o.tree, 1, admits);
    if !Clean(o.tree) {
      PoisonHasNoMeaning(o.tree, 1, admits);
    }
  }

  // ----- the array is a forward tree exactly when it is clean

  predicate Holds(nodes: seq<Node>, p: nat, j: nat) {
    p < |nodes| && nodes[p].op >= 8 && nodes[p].childrenStart <= j < nodes[p].childrenStart + nodes[p].childrenCount
  }

  predicate PointsForward(nodes: seq<Node>, p: nat, lo: nat, hi: nat)
    requires p < |nodes|
  {
    nodes[p].op >= 8 ==>
      p < nodes[p].childrenStart && lo <= nodes[p].childrenStart && nodes[p].childrenStart + nodes[p].childrenCount <= hi
  }

  ghost predicate HasParent(nodes: seq<Node>, j: nat) {
    exists p :: Holds(nodes, p, j)
  }

  /** Child ranges point forward, stay inside the array, and every node but
      the root lies in exactly one of them. */
  ghost predicate ForwardTree(nodes: seq<Node>) {
    && (forall p: nat :: p < |nodes| ==> PointsForward(nodes, p, 0, |nodes|))
    && (forall j: nat :: 1 <= j < |nodes| ==> HasParent(nodes, j))
    && (forall p, q, j :: Holds(nodes, p, j) && Holds(nodes, q, j) ==> p == q)
  }

  predicate Member(p: nat, first: nat, n: nat, lo: nat, hi: nat) {
    first <= p < first + n || lo <= p < hi
  }

  ghost predicate HasParentAmong(nodes: seq<Node>, j: nat, first: nat, n: nat, lo: nat, hi: nat) {
    exists p :: Member(p, first, n, lo, hi) && Holds(nodes, p, j)
  }

  /** The ranges of the nodes in `[first, first + n)` and `[lo, hi)` tile
      `[lo, hi)` exactly, each pointing forward. */
  ghost predicate Tiled(nodes: seq<Node>, first: nat, n: nat, lo: nat, hi: nat) {
    && (forall p: nat :: Member(p, first, n, lo, hi) && p < |nodes| ==> PointsForward(nodes, p, lo, hi))
    && (forall j: nat :: lo <= j < hi ==> HasParentAmong(nodes, j, first, n, lo, hi))
    && (forall p, q, j :: Member(p, first, n, lo, hi) && Member(q, first, n, lo, hi) && Holds(nodes, p, j) && Holds(nodes, q, j)
                          ==> p == q)
  }

  lemma TileUnderParent(nodes: seq<Node>, i: nat, n: nat, lo: nat, hi: nat, op: nat)
    requires i < |nodes| && nodes[i] == LogicalNode(op, lo, n) && op >= 8 && i < lo && lo + n <= hi <= |nodes|
    requires Tiled(nodes, lo, n, lo + n, hi)
    ensures Tiled(nodes, i, 1, lo, hi)
  {
    forall p: nat | Member(p, i, 1, lo, hi) && p != i && p < |nodes|
      ensures Member(p, lo, n, lo + n, hi) && PointsForward(nodes, p, lo + n, hi)
    {
    }
    forall j: nat | lo <= j < hi
      ensures HasParentAmong(nodes, j, i, 1, lo, hi)
    {
      if j < lo + n {
        assert Member(i, i, 1, lo, hi) && Holds(nodes, i, j);
      } else {
        assert HasParentAmong(nodes, j, lo, n, lo + n, hi);
        var p :| Member(p, lo, n, lo + n, hi) && Holds(nodes, p, j);
        assert Member(p, i, 1, lo, hi);
      }
    }
  }

  lemma TileSideBySide(nodes: seq<Node>, first: nat, n: nat, lo: nat, mid: nat, hi: nat)
    requires n > 0 && first + n <= lo <= mid <= hi <= |nodes|
    requires Tiled(nodes, first, 1, lo, mid) && Tiled(nodes, first + 1, n - 1, mid, hi)
    ensures Tiled(nodes, first, n, lo, hi)
  {
    forall p: nat | Member(p, first, n, lo, hi) && p < |nodes|
      ensures (Member(p, first, 1, lo, mid) && PointsForward(nodes, p, lo, mid))
              || (Member(p, first + 1, n - 1, mid, hi) && PointsForward(nodes, p, mid, hi))
    {
    }
    forall j: nat | lo <= j < hi
      ensures HasParentAmong(nodes, j, first, n, lo, hi)
    {
      if j < mid {
        assert HasParentAmong(nodes, j, first, 1, lo, mid);
        var p :| Member(p, first, 1, lo, mid) && Holds(nodes, p, j);
        assert Member(p, first, n, lo, hi);
      } else {
        assert HasParentAmong(nodes, j, first + 1, n - 1, mid, hi);
        var p :| Member(p, first + 1, n - 1, mid, hi) && Holds(nodes, p, j);
        assert Member(p, first, n, lo, hi);
      }
    }
  }

  lemma {:induction false} CleanTreeTiles(nodes: seq<Node>, i: nat, lo: nat, t: Tree)
    requires Encodes(nodes, i, lo, t) && Clean(t) && Shaped(t) && i < lo
    ensures Tiled(nodes, i, 1, lo, lo + Extra(t))
    decreases t, 0
  {
    if t.Logical? {
      var n := |t.kids|;
      CleanTreesTile(nodes, lo, lo + n, t.kids);
      TileUnderParent(nodes, i, n, lo, lo + Extra(t), t.op);
    }
  }

  lemma {:induction false} CleanTreesTile(nodes: seq<Node>, first: nat, lo: nat, ts: seq<Tree>)
    requires EncodesAll(nodes, first, lo, ts) && CleanAll(ts) && ShapedAll(ts)
    requires first + |ts| <= lo && lo + ExtraAll(ts) <= |nodes|
    ensures Tiled(nodes, first, |ts|, lo, lo + ExtraAll(ts))
    decreases ts, 1
  {
    if ts != [] {
      var mid := lo + Extra(ts[0]);
      CleanTreeTiles(nodes, first, lo, ts[0]);
      CleanTreesTile(nodes, first + 1, mid, ts[1..]);
      TileSideBySide(nodes, first, |ts|, lo, mid, lo + ExtraAll(ts));
    }
  }

  lemma {:induction false} PoisonIsInTheArray(nodes: seq<Node>, i: nat, lo: nat, t: Tree) returns (p: nat, toSelf: bool)
    requires Encodes(nodes, i, lo, t) && !Clean(t)
    ensures p < |nodes| && nodes[p] == PoisonNode(p, toSelf)
    decreases t, 0
  {
    if t.Poison? {
      p, toSelf := i, t.toSelf;
    } else {
      p, toSelf := PoisonIsInTheRange(nodes, lo, lo + |t.kids|, t.kids);
    }
  }

  lemma {:induction false} PoisonIsInTheRange(nodes: seq<Node>, first: nat, lo: nat, ts: seq<Tree>) returns (p: nat, toSelf: bool)
    requires EncodesAll(nodes, first, lo, ts) && !CleanAll(ts)
    ensures p < |nodes| && nodes[p] == PoisonNode(p, toSelf)
    decreases ts, 1
  {
    if !Clean(ts[0]) {
      p, toSelf := PoisonIsInTheArray(nodes, first, lo, ts[0]);
    } else {
      p, toSelf := PoisonIsInTheRange(nodes, first + 1, lo + Extra(ts[0]), ts[1..]);
    }
  }

  lemma ForwardTreeIffClean(nodes: seq<Node>, t: Tree)
    requires Encodes(nodes, 0, 1, t) && Shaped(t) && |nodes| == 1 + Extra(t) <= UINT32_MAX
    ensures ForwardTree(nodes) <==> Clean(t)
  {
    if Clean(t) {
      CleanTreeTiles(nodes, 0, 1, t);
      forall p: nat | p < |nodes|
        ensures Member(p, 0, 1, 1, |nodes|) && PointsForward(nodes, p, 0, |nodes|)
      {
        assert Member(p, 0, 1, 1, |nodes|);
        assert PointsForward(nodes, p, 1, |nodes|);
      }
      forall j: nat | 1 <= j < |nodes|
        ensures HasParent(nodes, j)
      {
        assert HasParentAmong(nodes, j, 0, 1, 1, |nodes|);
      }
    } else {
      var p, toSelf := PoisonIsInTheArray(nodes, 0, 1, t);
      assert !PointsForward(nodes, p, 0, |nodes|);
    }
  }

  // ----- the whole path

  lemma ViewIsShapely(heap: Heap)
    ensures Shapely(View(heap))
  {
    forall id
      ensures match View(heap)(id)
              case Faulty(_) => true
              case Operand(n) => 1 <= n.op <= 7
              case Connective(op, _) => 8 <= op <= 10
    {
      assert View(heap)(id) == Inspect(heap(id));
    }
  }

  datatype Compiled = Compiled(nodes: seq<Node>, expanded: seq<Id>) | Refused(error: ArgumentError)

  lemma WrittenArrayIsAccounted(objects: Objects, v: Value, nodes: seq<Node>)
    requires Shapely(objects) && Outline(objects, v, 0, [], 1).Built?
    requires var o := Outline(objects, v, 0, [], 1);
             |nodes| == o.used == 1 + Extra(o.tree) && Encodes(nodes, 0, 1, o.tree)
    ensures var o := Outline(objects, v, 0, [], 1);
            && 1 <= |nodes| <= UINT32_MAX && Distinct(o.seen) && |nodes| == 1 + ChildSlots(objects, o.seen)
            && (ForwardTree(nodes) <==> Regular(objects, v))
            && (Regular(objects, v) ==> o.seen == Preorder(objects, v, 0))
  {
    var o := Outline(objects, v, 0, [], 1);
    OutlineAccounts(objects, v, 0, [], 1);
    SlotsAreConserved(objects, v, 0, [], 1);
    OutlineIsShaped(objects, v, 0, [], 1);
    ForwardTreeIffClean(nodes, o.tree);
    CleanIffRegular(objects, v);
  }

  /** Compiles any object graph, in finitely many steps. Every object is
      expanded at most once, and the array is a forward tree exactly when the
      graph is regular. */
  method ParseFilter(heap: Heap, v: Value) returns (r: Compiled)
    ensures match Outline(View(heap), v, 0, [], 1)
            case Threw(e) => r == Refused(e)
            case Built(t, s, u) =>
              r.Compiled? && r.expanded == s && |r.nodes| == u == 1 + Extra(t) && Encodes(r.nodes, 0, 1, t)
    ensures r.Compiled? ==>
              && 1 <= |r.nodes| <= UINT32_MAX
              && Distinct(r.expanded)
              && |r.nodes| == 1 + ChildSlots(View(heap), r.expanded)
              && (ForwardTree(r.nodes) <==> Regular(View(heap), v))
              && (Regular(View(heap), v) ==> r.expanded == Preorder(View(heap), v, 0))
  {
    var objects := View(heap);
    var filter := new FilterStorage();
    var error := filter.ParseNode(objects, v, 0, 0);
    if error.Some? {
      return Refused(error.value);
    }
    ViewIsShapely(heap);
    WrittenArrayIsAccounted(objects, v, filter.storage);
    r := Compiled(filter.storage, filter.seen);
  }

  // ----- filters that the compiler takes and the engine does not

  lemma {:induction false} UnfoldLevels(objects: Objects, v: Value, depth: nat)
    requires Unfold(objects, v, depth).Some?
    ensures depth + Levels(Unfold(objects, v, depth).value) <= MAX_DEPTH + 1
    decreases Fuel(depth), 0
  {
    if objects(v.id).Connective? {
      UnfoldAllLevels(objects, objects(v.id).children, depth + 1);
    }
  }

  lemma {:induction false} UnfoldAllLevels(objects: Objects, vs: seq<Value>, depth: nat)
    requires UnfoldAll(objects, vs, depth).Some? && depth <= MAX_DEPTH + 1
    ensures depth + MaxLevels(UnfoldAll(objects, vs, depth).value) <= MAX_DEPTH + 1
    decreases Fuel(depth), |vs| + 1
  {
    if vs != [] {
      UnfoldLevels(objects, vs[0], depth);
      UnfoldAllLevels(objects, vs[1..], depth);
      var t, ts := Unfold(objects, vs[0], depth).value, UnfoldAll(objects, vs[1..], depth).value;
      assert ([t] + ts)[1..] == ts;
    }
  }

  /** A meaningful filter is read by the engine if and only if it is within both
      limits; the compiler's own depth limit lets through one level more. */
  lemma ReadIffWithinLimits(objects: Objects, v: Value, admits: Node -> bool)
    requires Meaning(objects, v, admits).Some?
    ensures var t := Unfold(objects, v, 0).value;
            && Levels(t) <= ENGINE_DEPTH + 1
            && (Reading(objects, v, admits).Some? <==> Levels(t) <= ENGINE_DEPTH && 1 + Extra(t) <= MAX_FILTER_NODES)
  {
    UnfoldLevels(objects, v, 0);
  }

  /** Nested one-child conjunctions around an `exists` leaf. */
  function Nested(): Objects {
    (id: Id) => if id < 32 then Connective(8, [Object(id + 1)]) else Operand(BLANK.(op := 6))
  }

  lemma {:induction false} NestedUnfolds(id: nat, admits: Node -> bool)
    requires id <= 32 && admits(BLANK.(op := 6))
    ensures Unfold(Nested(), Object(id), id).Some?
    ensures Levels(Unfold(Nested(), Object(id), id).value) == 33 - id
    ensures Denote(Unfold(Nested(), Object(id), id).value, admits).Some?
    ensures forall k :: k in Preorder(Nested(), Object(id), id) ==> k >= id
    ensures Distinct(Preorder(Nested(), Object(id), id))
    decreases 32 - id
  {
    if id < 32 {
      NestedUnfolds(id + 1, admits);
      var o, vs := Nested(), [Object(id + 1)];
      assert o(id) == Connective(8, vs);
      var t := Unfold(o, Object(id + 1), id + 1).value;
      assert UnfoldAll(o, vs[1..], id + 1) == Some([]);
      assert UnfoldAll(o, vs, id + 1) == Some([t] + []);
      assert [t] + [] == [t] && [t][1..] == [];
      assert MaxLevels([t]) == Levels(t);
      assert DenoteAll([t][1..], admits) == Some([]);
      assert DenoteAll([t], admits).Some?;
      assert PreorderAll(o, vs[1..], id + 1) == [];
      var rest := Preorder(o, Object(id + 1), id + 1);
      assert PreorderAll(o, vs, id + 1) == rest;
      assert forall k :: 0 <= k < |rest| ==> rest[k] in rest;
    } else {
      assert Nested()(id) == Operand(BLANK.(op := 6));
    }
  }

  /** A filter of 33 levels that has a meaning and is refused. */
  lemma DeepestFilterIsRefused(admits: Node -> bool)
    requires admits(BLANK.(op := 6))
    ensures Meaning(Nested(), Object(0), admits).Some? && Reading(Nested(), Object(0), admits) == None
  {
    NestedUnfolds(0, admits);
  }

  /** One conjunction over `n` leaves. */
  function Wide(n: nat): Objects {
    (id: Id) => if id == 0 then Connective(8, Leaves(1, n)) else Operand(BLANK.(op := 6))
  }

  function Leaves(from: nat, n: nat): seq<Value>
    decreases n
  {
    if n == 0 then [] else [Object(from)] + Leaves(from + 1, n - 1)
  }

  lemma {:induction false} WideUnfolds(m: nat, from: nat, n: nat, admits: Node -> bool)
    requires from >= 1 && admits(BLANK.(op := 6))
    ensures UnfoldAll(Wide(m), Leaves(from, n), 1).Some?
    ensures var ts := UnfoldAll(Wide(m), Leaves(from, n), 1).value;
            |ts| == n && ExtraAll(ts) == 0 && MaxLevels(ts) <= 1 && DenoteAll(ts, admits).Some?
    ensures var ids := PreorderAll(Wide(m), Leaves(from, n), 1);
            Distinct(ids) && forall k :: 0 <= k < |ids| ==> ids[k] >= from
    decreases n
  {
    if n > 0 {
      WideUnfolds(m, from + 1, n - 1, admits);
      var o, vs, t := Wide(m), Leaves(from, n), Leaf(BLANK.(op := 6));
      assert o(from) == Operand(BLANK.(op := 6)) && vs[1..] == Leaves(from + 1, n - 1);
      var ts := UnfoldAll(o, vs[1..], 1).value;
      assert UnfoldAll(o, vs, 1) == Some([t] + ts) && ([t] + ts)[1..] == ts;
      assert PreorderAll(o, vs, 1) == [from] + PreorderAll(o, vs[1..], 1);
    }
  }

  /** Filters of two levels and more than 2^20 nodes that have a meaning and are
      refused. */
  lemma WideFilterIsRefused(n: nat, admits: Node -> bool)
    requires n >= MAX_FILTER_NODES && admits(BLANK.(op := 6))
    ensures Meaning(Wide(n), Object(0), admits).Some? && Levels(Unfold(Wide(n), Object(0), 0).value) <= 2
    ensures Reading(Wide(n), Object(0), admits) == None
  {
    var o, vs := Wide(n), Leaves(1, n);
    assert o(0) == Connective(8, vs);
    WideUnfolds(n, 1, n, admits);
    var ts := UnfoldAll(o, vs, 1).value;
    assert Unfold(o, Object(0), 0) == Some(Logical(8, ts));
    assert Preorder(o, Object(0), 0) == [0] + PreorderAll(o, vs, 1);
  }
}
