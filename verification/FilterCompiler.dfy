/** The filter compiler of the Node addon. A nested JavaScript filter, an
    arbitrary graph of objects in which sharing and cycles are possible, is
    written into one flat node array whose logical nodes name a contiguous
    range of children. Child slots are reserved before recursing. */
module FilterCompiler {
  import opened Prelude

  /** The identity of a JavaScript object. */
  type Id = nat

  datatype Result<+T> = Failure(error: ArgumentError) | Success(value: T)

  datatype ArgumentError = Missing(field: string) | WrongType(field: string) | OutOfRange(field: string)

  datatype Value = Object(id: Id) | NotObject

  /** A property as the addon can read it. */
  datatype Field<+T> = Absent | Wrong | Given(value: T)

  datatype Attribute = Attribute(column: nat, valueType: nat, payload: string)

  datatype Fields = Fields(
    op: Field<string>,
    attributeId: Field<nat>,
    values: Field<seq<Field<Attribute>>>,
    lower: Field<Attribute>,
    lowerInclusive: Field<bool>,
    upper: Field<Attribute>,
    upperInclusive: Field<bool>,
    children: Field<seq<Value>>)

  type Heap = Id -> Fields

  datatype Bound = Bound(value: Attribute, inclusive: bool)

  /** One element of the flat array handed to the engine. */
  datatype Node = Node(
    op: nat,
    attributeId: nat,
    values: seq<Attribute>,
    lower: Option<Bound>,
    upper: Option<Bound>,
    childrenStart: nat,
    childrenCount: nat)

  const BLANK := Node(0, 0, [], None, None, 0, 0)
  const UINT32_MAX: nat := 0xFFFF_FFFF
  const MAX_DEPTH: nat := 32
  const OPERATIONS := ["eq", "notEq", "in", "notIn", "range", "exists", "isNull", "and", "or", "not"]

  // ----- one object, without its children

  function Require<T>(f: Field<T>, name: string): Result<T> {
    match f
    case Absent => Failure(Missing(name))
    case Wrong => Failure(WrongType(name))
    case Given(x) => Success(x)
  }

  function IndexOf(s: string, names: seq<string>): (i: nat)
    ensures i <= |names| && (i < |names| ==> names[i] == s) && forall j :: 0 <= j < i ==> names[j] != s
  {
    if names == [] || names[0] == s then 0
    else
      var i := IndexOf(s, names[1..]);
      assert forall j :: 0 < j < i + 1 ==> names[1..][j - 1] == names[j];
      i + 1
  }

  function ParseOperation(f: Fields): (r: Result<nat>)
    ensures r.Success? ==> 1 <= r.value <= 10
  {
    match Require(f.op, "op")
    case Failure(e) => Failure(e)
    case Success(s) =>
      if IndexOf(s, OPERATIONS) < 10 then Success(IndexOf(s, OPERATIONS) + 1) else Failure(OutOfRange("op"))
  }

  function ParseValues(vs: seq<Field<Attribute>>): Result<seq<Attribute>> {
    if vs == [] then Success([])
    else
      match Require(vs[0], "values")
      case Failure(e) => Failure(e)
      case Success(x) =>
        match ParseValues(vs[1..])
        case Failure(e) => Failure(e)
        case Success(xs) => Success([x] + xs)
  }

  function ParseBound(value: Field<Attribute>, inclusive: Field<bool>, name: string): Result<Option<Bound>> {
    match value
    case Absent => Success(None)
    case Wrong => Failure(WrongType(name))
    case Given(x) =>
      match inclusive
      case Absent => Success(Some(Bound(x, true)))
      case Wrong => Failure(WrongType(name))
      case Given(b) => Success(Some(Bound(x, b)))
  }

  /** Operator and operands of an object; a logical node has operator only. */
  function ParseHead(f: Fields): (r: Result<Node>)
    ensures r.Success? ==> 1 <= r.value.op <= 10 && r.value.childrenStart == r.value.childrenCount == 0
  {
    match ParseOperation(f)
    case Failure(e) => Failure(e)
    case Success(op) =>
      if op >= 8 then Success(BLANK.(op := op))
      else
        match Require(f.attributeId, "attributeId")
        case Failure(e) => Failure(e)
        case Success(column) => ParseOperands(f, BLANK.(op := op, attributeId := column))
  }

  function ParseOperands(f: Fields, node: Node): (r: Result<Node>)
    ensures r.Success? ==> r.value == node.(values := r.value.values, lower := r.value.lower, upper := r.value.upper)
  {
    if node.op <= 4 then
      match Require(f.values, "values")
      case Failure(e) => Failure(e)
      case Success(vs) =>
        match ParseValues(vs)
        case Failure(e) => Failure(e)
        case Success(xs) => Success(node.(values := xs))
    else if node.op == 5 then
      match ParseBound(f.lower, f.lowerInclusive, "lower")
      case Failure(e) => Failure(e)
      case Success(lower) =>
        match ParseBound(f.upper, f.upperInclusive, "upper")
        case Failure(e) => Failure(e)
        case Success(upper) => Success(node.(lower := lower, upper := upper))
    else Success(node)
  }

  /** What the addon learns from one object before looking at its children. */
  datatype Inspected = Faulty(error: ArgumentError) | Operand(node: Node) | Connective(op: nat, children: seq<Value>)

  function Inspect(f: Fields): (r: Inspected)
    ensures r.Operand? ==> 1 <= r.node.op <= 7 && r.node.childrenStart == r.node.childrenCount == 0
    ensures r.Connective? ==> 8 <= r.op <= 10
  {
    match ParseHead(f)
    case Failure(e) => Faulty(e)
    case Success(node) =>
      if node.op <= 7 then Operand(node)
      else
        match Require(f.children, "children")
        case Failure(e) => Faulty(e)
        case Success(vs) => Connective(node.op, vs)
  }

  /** The heap seen through `Inspect`. */
  type Objects = Id -> Inspected

  function View(heap: Heap): Objects {
    (id: Id) => Inspect(heap(id))
  }

  // ----- the tree an object graph unfolds to, on its own

  datatype Tree = Leaf(node: Node) | Logical(op: nat, kids: seq<Tree>) | Poison(toSelf: bool)

  function Fuel(depth: nat): nat {
    if depth <= MAX_DEPTH then MAX_DEPTH + 1 - depth else 0
  }

  /** The filter below `v`, if every object down to the depth limit is a well
      formed filter object; sharing is not noticed here. */
  function Unfold(objects: Objects, v: Value, depth: nat): Option<Tree>
    decreases Fuel(depth), 0
  {
    if depth > MAX_DEPTH || v.NotObject? then None
    else
      match objects(v.id)
      case Faulty(_) => None
      case Operand(node) => Some(Leaf(node))
      case Connective(op, vs) =>
        match UnfoldAll(objects, vs, depth + 1)
        case None => None
        case Some(ts) => Some(Logical(op, ts))
  }

  function UnfoldAll(objects: Objects, vs: seq<Value>, depth: nat): Option<seq<Tree>>
    decreases Fuel(depth), |vs| + 1
  {
    if vs == [] then Some([])
    else
      match Unfold(objects, vs[0], depth)
      case None => None
      case Some(t) =>
        match UnfoldAll(objects, vs[1..], depth)
        case None => None
        case Some(ts) => Some([t] + ts)
  }

  /** The objects met when walking that tree in preorder. */
  function Preorder(objects: Objects, v: Value, depth: nat): seq<Id>
    decreases Fuel(depth), 0
  {
    if depth > MAX_DEPTH || v.NotObject? then []
    else if objects(v.id).Connective? then [v.id] + PreorderAll(objects, objects(v.id).children, depth + 1)
    else [v.id]
  }

  function PreorderAll(objects: Objects, vs: seq<Value>, depth: nat): seq<Id>
    decreases Fuel(depth), |vs| + 1
  {
    if vs == [] then [] else Preorder(objects, vs[0], depth) + PreorderAll(objects, vs[1..], depth)
  }

  /** No object is met twice, none is too deep and none is a non-object. */
  ghost predicate Regular(objects: Objects, v: Value) {
    Unfold(objects, v, 0).Some? && Distinct(Preorder(objects, v, 0))
  }

  // ----- sizes

  /** Slots a tree needs beyond its own. */
  function Extra(t: Tree): nat {
    match t
    case Logical(_, kids) => |kids| + ExtraAll(kids)
    case _ => 0
  }

  function ExtraAll(ts: seq<Tree>): nat {
    if ts == [] then 0 else Extra(ts[0]) + ExtraAll(ts[1..])
  }

  predicate Clean(t: Tree) {
    match t
    case Leaf(_) => true
    case Poison(_) => false
    case Logical(_, kids) => CleanAll(kids)
  }

  predicate CleanAll(ts: seq<Tree>) {
    ts == [] || (Clean(ts[0]) && CleanAll(ts[1..]))
  }

  // ----- what the compiler builds, as a tree

  datatype Outcome<+T> = Threw(error: ArgumentError) | Built(tree: T, seen: seq<Id>, used: nat)

  /** The tree the compiler encodes, with the objects expanded so far and the
      slots taken so far; a revisited, too deep or non-object value is poison. */
  function Outline(objects: Objects, v: Value, depth: nat, seen: seq<Id>, used: nat): Outcome<Tree>
    decreases Fuel(depth), 0
  {
    if depth > MAX_DEPTH || (v.Object? && v.id in seen) then Built(Poison(true), seen, used)
    else if v.NotObject? then Built(Poison(false), seen, used)
    else
      match objects(v.id)
      case Faulty(e) => Threw(e)
      case Operand(node) => Built(Leaf(node), seen + [v.id], used)
      case Connective(op, vs) =>
        if used + |vs| > UINT32_MAX then Threw(OutOfRange("children"))
        else
          match OutlineAll(objects, vs, depth + 1, seen + [v.id], used + |vs|)
          case Threw(e) => Threw(e)
          case Built(ts, s, u) => Built(Logical(op, ts), s, u)
  }

  function OutlineAll(objects: Objects, vs: seq<Value>, depth: nat, seen: seq<Id>, used: nat): Outcome<seq<Tree>>
    decreases Fuel(depth), |vs| + 1
  {
    if vs == [] then Built([], seen, used)
    else
      match Outline(objects, vs[0], depth, seen, used)
      case Threw(e) => Threw(e)
      case Built(t, s, u) =>
        match OutlineAll(objects, vs[1..], depth, s, u)
        case Threw(e) => Threw(e)
        case Built(ts, s', u') => Built([t] + ts, s', u')
  }

  /** Clean outlines are exactly the unfolded tree, expanding its preorder. */
  lemma {:induction false} CleanOutlineIsUnfolding(objects: Objects, v: Value, depth: nat, seen: seq<Id>, used: nat)
    requires Outline(objects, v, depth, seen, used).Built? && Clean(Outline(objects, v, depth, seen, used).tree)
    ensures var o := Outline(objects, v, depth, seen, used);
            Unfold(objects, v, depth) == Some(o.tree) && o.seen == seen + Preorder(objects, v, depth)
    decreases Fuel(depth), 0
  {
    if objects(v.id).Connective? {
      var vs := objects(v.id).children;
      CleanOutlinesAreUnfoldings(objects, vs, depth + 1, seen + [v.id], used + |vs|);
      assert seen + [v.id] + PreorderAll(objects, vs, depth + 1) == seen + ([v.id] + PreorderAll(objects, vs, depth + 1));
    }
  }

  lemma {:induction false} CleanOutlinesAreUnfoldings(objects: Objects, vs: seq<Value>, depth: nat, seen: seq<Id>, used: nat)
    requires OutlineAll(objects, vs, depth, seen, used).Built? && CleanAll(OutlineAll(objects, vs, depth, seen, used).tree)
    ensures var o := OutlineAll(objects, vs, depth, seen, used);
            UnfoldAll(objects, vs, depth) == Some(o.tree) && o.seen == seen + PreorderAll(objects, vs, depth)
    decreases Fuel(depth), |vs| + 1
  {
    if vs != [] {
      var h := Outline(objects, vs[0], depth, seen, used);
      var o := OutlineAll(objects, vs[1..], depth, h.seen, h.used);
      assert ([h.tree] + o.tree)[1..] == o.tree;
      CleanOutlineIsUnfolding(objects, vs[0], depth, seen, used);
      CleanOutlinesAreUnfoldings(objects, vs[1..], depth, h.seen, h.used);
      var a, b := Preorder(objects, vs[0], depth), PreorderAll(objects, vs[1..], depth);
      assert (seen + a) + b == seen + (a + b);
    }
  }

  /** Each object is expanded at most once, and the slots taken are those the
      tree needs. */
  lemma {:induction false} OutlineAccounts(objects: Objects, v: Value, depth: nat, seen: seq<Id>, used: nat)
    requires Outline(objects, v, depth, seen, used).Built?
    ensures var o := Outline(objects, v, depth, seen, used);
            && (Distinct(seen) ==> Distinct(o.seen))
            && o.used == used + Extra(o.tree) && (used <= UINT32_MAX ==> o.used <= UINT32_MAX)
    decreases Fuel(depth), 0
  {
    var o := Outline(objects, v, depth, seen, used);
    if o.tree.Logical? {
      var vs := objects(v.id).children;
      OutlineAccountsAll(objects, vs, depth + 1, seen + [v.id], used + |vs|);
    }
  }

  lemma {:induction false} OutlineAccountsAll(objects: Objects, vs: seq<Value>, depth: nat, seen: seq<Id>, used: nat)
    requires OutlineAll(objects, vs, depth, seen, used).Built?
    ensures var o := OutlineAll(objects, vs, depth, seen, used);
            && (Distinct(seen) ==> Distinct(o.seen)) && o.used == used + ExtraAll(o.tree) && |o.tree| == |vs|
            && (used <= UINT32_MAX ==> o.used <= UINT32_MAX)
    decreases Fuel(depth), |vs| + 1
  {
    if vs != [] {
      var h := Outline(objects, vs[0], depth, seen, used);
      var o := OutlineAll(objects, vs[1..], depth, h.seen, h.used);
      assert ([h.tree] + o.tree)[1..] == o.tree;
      OutlineAccounts(objects, vs[0], depth, seen, used);
      OutlineAccountsAll(objects, vs[1..], depth, h.seen, h.used);
    }
  }

  lemma {:induction false} UnfoldIsClean(objects: Objects, v: Value, depth: nat)
    requires Unfold(objects, v, depth).Some?
    ensures Clean(Unfold(objects, v, depth).value)
    decreases Fuel(depth), 0
  {
    if objects(v.id).Connective? {
      UnfoldAllIsClean(objects, objects(v.id).children, depth + 1);
    }
  }

  lemma {:induction false} UnfoldAllIsClean(objects: Objects, vs: seq<Value>, depth: nat)
    requires UnfoldAll(objects, vs, depth).Some?
    ensures CleanAll(UnfoldAll(objects, vs, depth).value) && |UnfoldAll(objects, vs, depth).value| == |vs|
    decreases Fuel(depth), |vs| + 1
  {
    if vs != [] {
      UnfoldIsClean(objects, vs[0], depth);
      UnfoldAllIsClean(objects, vs[1..], depth);
      var t, ts := Unfold(objects, vs[0], depth).value, UnfoldAll(objects, vs[1..], depth).value;
      assert ([t] + ts)[1..] == ts;
    }
  }

  lemma DistinctPrefix(a: seq<Id>, b: seq<Id>)
    requires Distinct(a + b)
    ensures Distinct(a)
  {
    forall i, j | 0 <= i < j < |a|
      ensures a[i] != a[j]
    {
      assert (a + b)[i] == a[i] && (a + b)[j] == a[j];
    }
  }

  lemma DistinctAvoids(a: seq<Id>, x: Id, b: seq<Id>)
    requires Distinct(a + ([x] + b))
    ensures x !in a
  {
    forall i | 0 <= i < |a|
      ensures a[i] != x
    {
      assert (a + ([x] + b))[i] == a[i] && (a + ([x] + b))[|a|] == x;
    }
  }

  function Fits<T>(tree: T, seen: seq<Id>, used: nat): Outcome<T> {
    if used > UINT32_MAX then Threw(OutOfRange("children")) else Built(tree, seen, used)
  }

  /** A regular graph is never poisoned: the compiler builds its unfolding,
      or refuses because the slots run out. */
  lemma {:induction false} RegularOutline(objects: Objects, v: Value, depth: nat, seen: seq<Id>, used: nat)
    requires Unfold(objects, v, depth).Some? && Distinct(seen + Preorder(objects, v, depth)) && used <= UINT32_MAX
    ensures var t := Unfold(objects, v, depth).value;
            Outline(objects, v, depth, seen, used) == Fits(t, seen + Preorder(objects, v, depth), used + Extra(t))
    decreases Fuel(depth), 0
  {
    if objects(v.id).Connective? {
      var vs := objects(v.id).children;
      var rest := PreorderAll(objects, vs, depth + 1);
      DistinctAvoids(seen, v.id, rest);
      UnfoldAllIsClean(objects, vs, depth + 1);
      assert seen + ([v.id] + rest) == (seen + [v.id]) + rest;
      if used + |vs| <= UINT32_MAX {
        RegularOutlines(objects, vs, depth + 1, seen + [v.id], used + |vs|);
      }
    } else {
      assert [v.id] == [v.id] + [];
      DistinctAvoids(seen, v.id, []);
    }
  }

  lemma {:induction false} RegularOutlines(objects: Objects, vs: seq<Value>, depth: nat, seen: seq<Id>, used: nat)
    requires UnfoldAll(objects, vs, depth).Some? && Distinct(seen + PreorderAll(objects, vs, depth)) && used <= UINT32_MAX
    ensures var ts := UnfoldAll(objects, vs, depth).value;
            OutlineAll(objects, vs, depth, seen, used)
            == Fits(ts, seen + PreorderAll(objects, vs, depth), used + ExtraAll(ts))
    decreases Fuel(depth), |vs| + 1
  {
    if vs == [] {
      assert seen + [] == seen;
    } else {
      var a, b := Preorder(objects, vs[0], depth), PreorderAll(objects, vs[1..], depth);
      assert seen + (a + b) == (seen + a) + b;
      DistinctPrefix(seen + a, b);
      RegularOutline(objects, vs[0], depth, seen, used);
      var t, ts := Unfold(objects, vs[0], depth).value, UnfoldAll(objects, vs[1..], depth).value;
      assert ([t] + ts)[1..] == ts;
      if used + Extra(t) <= UINT32_MAX {
        RegularOutlines(objects, vs[1..], depth, seen + a, used + Extra(t));
      }
    }
  }

  // ----- conservation: slots are exactly the child slots of expanded objects

  function ChildCount(objects: Objects, id: Id): nat {
    if objects(id).Connective? then |objects(id).children| else 0
  }

  function ChildSlots(objects: Objects, ids: seq<Id>): nat {
    if ids == [] then 0 else ChildSlots(objects, ids[..|ids| - 1]) + ChildCount(objects, ids[|ids| - 1])
  }

  lemma {:induction false} SlotsAreConserved(objects: Objects, v: Value, depth: nat, seen: seq<Id>, used: nat)
    requires Outline(objects, v, depth, seen, used).Built?
    ensures var o := Outline(objects, v, depth, seen, used);
            o.used - used == ChildSlots(objects, o.seen) - ChildSlots(objects, seen)
    decreases Fuel(depth), 0
  {
    var o := Outline(objects, v, depth, seen, used);
    if !o.tree.Poison? {
      assert (seen + [v.id])[..|seen|] == seen;
      if o.tree.Logical? {
        var vs := objects(v.id).children;
        SlotsAreConservedAll(objects, vs, depth + 1, seen + [v.id], used + |vs|);
      }
    }
  }

  lemma {:induction false} SlotsAreConservedAll(objects: Objects, vs: seq<Value>, depth: nat, seen: seq<Id>, used: nat)
    requires OutlineAll(objects, vs, depth, seen, used).Built?
    ensures var o := OutlineAll(objects, vs, depth, seen, used);
            o.used - used == ChildSlots(objects, o.seen) - ChildSlots(objects, seen)
    decreases Fuel(depth), |vs| + 1
  {
    if vs != [] {
      var h := Outline(objects, vs[0], depth, seen, used);
      SlotsAreConserved(objects, vs[0], depth, seen, used);
      SlotsAreConservedAll(objects, vs[1..], depth, h.seen, h.used);
    }
  }
}
