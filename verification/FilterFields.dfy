/** Filters as a caller writes them, read straight off the fields of the
    objects, and the end-to-end result: on every heap, compiling and decoding
    gives what the fields say. Nothing here is defined by the compiler or the
    decoder. */
module FilterFields {
  import opened Prelude
  import opened FilterCompiler
  import opened FilterArray
  import opened FilterEngine

  // ----- one object

  predicate TakesValues(op: string) {
    op == "eq" || op == "notEq" || op == "in" || op == "notIn"
  }

  predicate IsLeaf(op: string) {
    TakesValues(op) || op == "range" || op == "exists" || op == "isNull"
  }

  predicate IsConnective(op: string) {
    op == "and" || op == "or" || op == "not"
  }

  predicate BoundOk(value: Field<Attribute>, inclusive: Field<bool>) {
    !value.Wrong? && (value.Given? ==> !inclusive.Wrong?)
  }

  predicate AllGiven(vs: seq<Field<Attribute>>) {
    forall i :: 0 <= i < |vs| ==> vs[i].Given?
  }

  /** A known operator with the operands it needs, each of the right kind. */
  predicate WellFormed(f: Fields) {
    && f.op.Given?
    && if IsConnective(f.op.value) then f.children.Given?
       else
         && IsLeaf(f.op.value) && f.attributeId.Given?
         && (TakesValues(f.op.value) ==> f.values.Given? && AllGiven(f.values.value))
         && (f.op.value == "range" ==> BoundOk(f.lower, f.lowerInclusive) && BoundOk(f.upper, f.upperInclusive))
  }

  /** The operator's number in the C ABI; 0 for an unknown name. */
  function CodeOf(op: string): nat {
    if op == "eq" then 1 else if op == "notEq" then 2 else if op == "in" then 3 else if op == "notIn" then 4
    else if op == "range" then 5 else if op == "exists" then 6 else if op == "isNull" then 7
    else if op == "and" then 8 else if op == "or" then 9 else if op == "not" then 10 else 0
  }

  function GivenValues(vs: seq<Field<Attribute>>): seq<Attribute>
    requires AllGiven(vs)
  {
    seq(|vs|, i requires 0 <= i < |vs| => vs[i].value)
  }

  function GivenBound(value: Field<Attribute>, inclusive: Field<bool>): Option<Bound> {
    if value.Given? then Some(Bound(value.value, inclusive.Given? ==> inclusive.value)) else None
  }

  /** The node of a well-formed leaf. */
  function NodeOf(f: Fields): Node
    requires WellFormed(f) && IsLeaf(f.op.value)
  {
    var ranged := f.op.value == "range";
    Node(CodeOf(f.op.value), f.attributeId.value,
         if TakesValues(f.op.value) then GivenValues(f.values.value) else [],
         if ranged then GivenBound(f.lower, f.lowerInclusive) else None,
         if ranged then GivenBound(f.upper, f.upperInclusive) else None, 0, 0)
  }

  lemma NamesHaveCodes()
    ensures forall i :: 0 <= i < 10 ==> CodeOf(OPERATIONS[i]) == i + 1
    ensures forall s :: CodeOf(s) > 0 ==> CodeOf(s) <= 10 && OPERATIONS[CodeOf(s) - 1] == s
  {
    assert OPERATIONS[0] == "eq" && OPERATIONS[1] == "notEq" && OPERATIONS[2] == "in" && OPERATIONS[3] == "notIn";
    assert OPERATIONS[4] == "range" && OPERATIONS[5] == "exists" && OPERATIONS[6] == "isNull";
    assert OPERATIONS[7] == "and" && OPERATIONS[8] == "or" && OPERATIONS[9] == "not";
    assert "eq"[0] != "in"[0] && "notEq"[3] != "notIn"[3] && "and"[0] != "not"[0] && "exists"[0] != "isNull"[0];
    assert "range"[0] != "notEq"[0] && "range"[0] != "notIn"[0] && "eq"[0] != "or"[0] && "in"[0] != "or"[0];
  }

  lemma OperationIsCode(f: Fields)
    ensures ParseOperation(f)
            == match f.op
               case Absent => Failure(Missing("op"))
               case Wrong => Failure(WrongType("op"))
               case Given(s) => if CodeOf(s) == 0 then Failure(OutOfRange("op")) else Success(CodeOf(s))
  {
    NamesHaveCodes();
    if f.op.Given? {
      var s := f.op.value;
      var i := IndexOf(s, OPERATIONS);
      assert i < 10 ==> CodeOf(OPERATIONS[i]) == i + 1;
      assert CodeOf(s) > 0 ==> OPERATIONS[CodeOf(s) - 1] == s;
    }
  }

  lemma {:induction false} ValuesParse(vs: seq<Field<Attribute>>)
    requires AllGiven(vs)
    ensures ParseValues(vs) == Success(GivenValues(vs))
  {
    if vs != [] {
      ValuesParse(vs[1..]);
      assert GivenValues(vs) == [vs[0].value] + GivenValues(vs[1..]);
    } else {
      assert GivenValues(vs) == [];
    }
  }

  lemma {:induction false} ValuesFail(vs: seq<Field<Attribute>>) returns (i: nat)
    requires !AllGiven(vs)
    ensures i < |vs| && ParseValues(vs).Failure? && FaultOf(vs[i], "values", ParseValues(vs).error)
  {
    if !vs[0].Given? {
      i := 0;
    } else {
      assert !AllGiven(vs[1..]) by {
        var k :| 0 <= k < |vs| && !vs[k].Given?;
        assert vs[1..][k - 1] == vs[k];
      }
      var j := ValuesFail(vs[1..]);
      i := j + 1;
    }
  }

  /** `e` is what is wrong with a required field. */
  predicate FaultOf<T>(f: Field<T>, name: string, e: ArgumentError) {
    match f
    case Absent => e == Missing(name)
    case Wrong => e == WrongType(name)
    case Given(_) => false
  }

  predicate BoundFault(value: Field<Attribute>, inclusive: Field<bool>, name: string, e: ArgumentError) {
    !BoundOk(value, inclusive) && e == WrongType(name)
  }

  /** `e` names a field of `f` and what is wrong with it. */
  predicate FaultIn(f: Fields, e: ArgumentError) {
    || FaultOf(f.op, "op", e)
    || (f.op.Given? && CodeOf(f.op.value) == 0 && e == OutOfRange("op"))
    || FaultOf(f.attributeId, "attributeId", e)
    || FaultOf(f.values, "values", e)
    || (f.values.Given? && exists i :: 0 <= i < |f.values.value| && FaultOf(f.values.value[i], "values", e))
    || BoundFault(f.lower, f.lowerInclusive, "lower", e)
    || BoundFault(f.upper, f.upperInclusive, "upper", e)
    || FaultOf(f.children, "children", e)
  }

  lemma CodeTells(op: string)
    ensures IsLeaf(op) <==> 1 <= CodeOf(op) <= 7
    ensures TakesValues(op) <==> 1 <= CodeOf(op) <= 4
    ensures op == "range" <==> CodeOf(op) == 5
    ensures IsConnective(op) <==> 8 <= CodeOf(op) <= 10
  {
    NamesHaveCodes();
  }

  lemma OperandsParse(f: Fields, node: Node)
    requires WellFormed(f) && IsLeaf(f.op.value) && node == BLANK.(op := CodeOf(f.op.value), attributeId := f.attributeId.value)
    ensures ParseOperands(f, node) == Success(NodeOf(f))
  {
    CodeTells(f.op.value);
    if TakesValues(f.op.value) {
      ValuesParse(f.values.value);
    }
  }

  lemma OperandsFail(f: Fields, node: Node)
    requires f.op.Given? && IsLeaf(f.op.value) && f.attributeId.Given? && !WellFormed(f) && node.op == CodeOf(f.op.value)
    ensures ParseOperands(f, node).Failure? && FaultIn(f, ParseOperands(f, node).error)
  {
    CodeTells(f.op.value);
    if TakesValues(f.op.value) && f.values.Given? {
      var i := ValuesFail(f.values.value);
    }
  }

  lemma LeafIsAccepted(f: Fields)
    requires WellFormed(f) && IsLeaf(f.op.value)
    ensures Inspect(f) == Operand(NodeOf(f))
  {
    OperationIsCode(f);
    CodeTells(f.op.value);
    OperandsParse(f, BLANK.(op := CodeOf(f.op.value), attributeId := f.attributeId.value));
  }

  lemma ConnectiveIsAccepted(f: Fields)
    requires WellFormed(f) && IsConnective(f.op.value)
    ensures Inspect(f) == Connective(CodeOf(f.op.value), f.children.value)
  {
    OperationIsCode(f);
    CodeTells(f.op.value);
  }

  lemma FaultIsReported(f: Fields)
    requires !WellFormed(f)
    ensures Inspect(f).Faulty? && FaultIn(f, Inspect(f).error)
  {
    OperationIsCode(f);
    if f.op.Given? {
      CodeTells(f.op.value);
      if IsLeaf(f.op.value) && f.attributeId.Given? {
        OperandsFail(f, BLANK.(op := CodeOf(f.op.value), attributeId := f.attributeId.value));
      }
    }
  }

  /** An object is accepted exactly when it is well formed; otherwise the error
      is a fault it has. */
  lemma AcceptedIffWellFormed(f: Fields)
    ensures !Inspect(f).Faulty? <==> WellFormed(f)
    ensures Inspect(f).Faulty? ==> FaultIn(f, Inspect(f).error)
  {
    if !WellFormed(f) {
      FaultIsReported(f);
    } else if IsConnective(f.op.value) {
      ConnectiveIsAccepted(f);
    } else {
      LeafIsAccepted(f);
    }
  }

  // ----- what a leaf and a connective say

  /** What a well-formed leaf says, given that the schema admits it. */
  function Said(f: Fields): Option<Predicate>
    requires WellFormed(f) && IsLeaf(f.op.value)
  {
    if TakesValues(f.op.value) then SaidOfValues(f.op.value, f.attributeId.value, GivenValues(f.values.value))
    else if f.op.value == "exists" then Some(Exists(f.attributeId.value))
    else if f.op.value == "isNull" then Some(IsNull(f.attributeId.value))
    else
      var lower, upper := GivenBound(f.lower, f.lowerInclusive), GivenBound(f.upper, f.upperInclusive);
      if lower.None? && upper.None? then None else Some(Range(f.attributeId.value, lower, upper))
  }

  function SaidOfValues(op: string, column: nat, xs: seq<Attribute>): Option<Predicate> {
    if op == "in" then Some(In(column, xs))
    else if op == "notIn" then Some(Not(In(column, xs)))
    else if |xs| != 1 then None
    else if op == "eq" then Some(Eq(column, xs[0]))
    else Some(Not(Eq(column, xs[0])))
  }

  lemma ValuesMeanWhatTheySay(op: string, column: nat, xs: seq<Attribute>, admits: Node -> bool)
    requires TakesValues(op)
    ensures var n := Node(CodeOf(op), column, xs, None, None, 0, 0);
            DecodeLeaf(n, admits) == if admits(n) then SaidOfValues(op, column, xs) else None
  {
    CodeTells(op);
    NamesHaveCodes();
  }

  /** Decoding a compiled leaf gives what its fields say if the schema admits it,
      and nothing otherwise. */
  lemma LeafMeansWhatItSays(f: Fields, admits: Node -> bool)
    requires WellFormed(f) && IsLeaf(f.op.value)
    ensures DecodeLeaf(NodeOf(f), admits) == if admits(NodeOf(f)) then Said(f) else None
  {
    CodeTells(f.op.value);
    if TakesValues(f.op.value) {
      ValuesMeanWhatTheySay(f.op.value, f.attributeId.value, GivenValues(f.values.value), admits);
    } else {
      NamesHaveCodes();
    }
  }

  function Joined(op: string, ps: seq<Predicate>): Option<Predicate> {
    if op == "and" then Some(And(ps))
    else if op == "or" then Some(Or(ps))
    else if op == "not" && |ps| == 1 then Some(Not(ps[0]))
    else None
  }

  /** A connective keeps its operator. */
  lemma ConnectiveMeansWhatItSays(op: string, ps: seq<Predicate>)
    requires IsConnective(op)
    ensures Combine(CodeOf(op), ps) == Joined(op, ps)
  {
    CodeTells(op);
    NamesHaveCodes();
  }

  // ----- whole filters

  /** An object by its fields. */
  datatype Form = Malformed | LeafForm(node: Node, said: Option<Predicate>) | JoinForm(op: string, children: seq<Value>)

  type Forms = Id -> Form

  function FormOf(f: Fields): Form {
    if !WellFormed(f) then Malformed
    else if IsConnective(f.op.value) then JoinForm(f.op.value, f.children.value)
    else LeafForm(NodeOf(f), Said(f))
  }

  function FormsOf(heap: Heap): Forms {
    (id: Id) => FormOf(heap(id))
  }

  /** The objects met on the way down to the depth limit, in preorder. */
  function Met(forms: Forms, v: Value, depth: nat): seq<Id>
    decreases Fuel(depth), 0
  {
    if depth > 32 || v.NotObject? then []
    else
      match forms(v.id)
      case JoinForm(_, vs) => [v.id] + MetAll(forms, vs, depth + 1)
      case _ => [v.id]
  }

  function MetAll(forms: Forms, vs: seq<Value>, depth: nat): seq<Id>
    decreases Fuel(depth), |vs| + 1
  {
    if vs == [] then [] else Met(forms, vs[0], depth) + MetAll(forms, vs[1..], depth)
  }

  /** Only well-formed objects all the way down, none below depth 32. */
  predicate Sane(forms: Forms, v: Value, depth: nat)
    decreases Fuel(depth), 0
  {
    && depth <= 32 && v.Object?
    && match forms(v.id)
       case Malformed => false
       case LeafForm(_, _) => true
       case JoinForm(_, vs) => SaneAll(forms, vs, depth + 1)
  }

  predicate SaneAll(forms: Forms, vs: seq<Value>, depth: nat)
    decreases Fuel(depth), |vs| + 1
  {
    vs == [] || (Sane(forms, vs[0], depth) && SaneAll(forms, vs[1..], depth))
  }

  /** What the filter says; a leaf the schema does not admit leaves the whole
      unsaid. */
  function Says(forms: Forms, v: Value, depth: nat, admits: Node -> bool): Option<Predicate>
    requires Sane(forms, v, depth)
    decreases Fuel(depth), 0
  {
    match forms(v.id)
    case LeafForm(node, said) => if admits(node) then said else None
    case JoinForm(op, vs) =>
      match SaysAll(forms, vs, depth + 1, admits)
      case None => None
      case Some(ps) => Joined(op, ps)
  }

  function SaysAll(forms: Forms, vs: seq<Value>, depth: nat, admits: Node -> bool): Option<seq<Predicate>>
    requires SaneAll(forms, vs, depth)
    decreases Fuel(depth), |vs| + 1
  {
    if vs == [] then Some([])
    else
      match (Says(forms, vs[0], depth, admits), SaysAll(forms, vs[1..], depth, admits))
      case (Some(p), Some(ps)) => Some([p] + ps)
      case _ => None
  }

  /** Levels of nesting, and nodes below the root. */
  function Height(forms: Forms, v: Value, depth: nat): nat
    requires Sane(forms, v, depth)
    decreases Fuel(depth), 0
  {
    if forms(v.id).JoinForm? then 1 + MaxHeight(forms, forms(v.id).children, depth + 1) else 1
  }

  function MaxHeight(forms: Forms, vs: seq<Value>, depth: nat): nat
    requires SaneAll(forms, vs, depth)
    decreases Fuel(depth), |vs| + 1
  {
    if vs == [] then 0
    else
      var h, rest := Height(forms, vs[0], depth), MaxHeight(forms, vs[1..], depth);
      if h > rest then h else rest
  }

  function Below(forms: Forms, v: Value, depth: nat): nat
    requires Sane(forms, v, depth)
    decreases Fuel(depth), 0
  {
    if forms(v.id).JoinForm? then |forms(v.id).children| + BelowAll(forms, forms(v.id).children, depth + 1) else 0
  }

  function BelowAll(forms: Forms, vs: seq<Value>, depth: nat): nat
    requires SaneAll(forms, vs, depth)
    decreases Fuel(depth), |vs| + 1
  {
    if vs == [] then 0 else Below(forms, vs[0], depth) + BelowAll(forms, vs[1..], depth)
  }

  /** What the addon learns from an object agrees with its fields. */
  ghost predicate Agrees(o: Inspected, form: Form, admits: Node -> bool) {
    match form
    case Malformed => o.Faulty?
    case LeafForm(node, said) => o == Operand(node) && DecodeLeaf(node, admits) == if admits(node) then said else None
    case JoinForm(op, vs) => o.Connective? && o.children == vs && forall ps :: Combine(o.op, ps) == Joined(op, ps)
  }

  ghost predicate AllAgree(objects: Objects, forms: Forms, admits: Node -> bool) {
    forall id :: Agrees(objects(id), forms(id), admits)
  }

  lemma FieldsAgree(f: Fields, admits: Node -> bool)
    ensures Agrees(Inspect(f), FormOf(f), admits)
  {
    if !WellFormed(f) {
      FaultIsReported(f);
    } else if IsConnective(f.op.value) {
      ConnectiveIsAccepted(f);
      forall ps
        ensures Combine(CodeOf(f.op.value), ps) == Joined(f.op.value, ps)
      {
        ConnectiveMeansWhatItSays(f.op.value, ps);
      }
    } else {
      LeafIsAccepted(f);
      LeafMeansWhatItSays(f, admits);
    }
  }

  lemma HeapAgrees(heap: Heap, admits: Node -> bool)
    ensures AllAgree(View(heap), FormsOf(heap), admits)
  {
    forall id
      ensures Agrees(View(heap)(id), FormsOf(heap)(id), admits)
    {
      FieldsAgree(heap(id), admits);
    }
  }

  /** A tree is the one the fields describe. */
  ghost predicate Describes(forms: Forms, v: Value, depth: nat, admits: Node -> bool, t: Tree)
    requires Sane(forms, v, depth)
  {
    && Denote(t, admits) == Says(forms, v, depth, admits)
    && Levels(t) == Height(forms, v, depth) && Extra(t) == Below(forms, v, depth)
  }

  ghost predicate DescribesAll(forms: Forms, vs: seq<Value>, depth: nat, admits: Node -> bool, ts: seq<Tree>)
    requires SaneAll(forms, vs, depth)
  {
    && DenoteAll(ts, admits) == SaysAll(forms, vs, depth, admits)
    && MaxLevels(ts) == MaxHeight(forms, vs, depth) && ExtraAll(ts) == BelowAll(forms, vs, depth) && |ts| == |vs|
  }

  lemma {:induction false} UnfoldsAsSaid(objects: Objects, forms: Forms, v: Value, depth: nat, admits: Node -> bool)
    requires AllAgree(objects, forms, admits)
    ensures Unfold(objects, v, depth).Some? <==> Sane(forms, v, depth)
    ensures Preorder(objects, v, depth) == Met(forms, v, depth)
    ensures Sane(forms, v, depth) ==> Describes(forms, v, depth, admits, Unfold(objects, v, depth).value)
    decreases Fuel(depth), 0
  {
    if depth <= 32 && v.Object? {
      assert Agrees(objects(v.id), forms(v.id), admits);
      if forms(v.id).JoinForm? {
        UnfoldAsSaid(objects, forms, forms(v.id).children, depth + 1, admits);
      }
    }
  }

  lemma {:induction false} UnfoldAsSaid(objects: Objects, forms: Forms, vs: seq<Value>, depth: nat, admits: Node -> bool)
    requires AllAgree(objects, forms, admits)
    ensures UnfoldAll(objects, vs, depth).Some? <==> SaneAll(forms, vs, depth)
    ensures PreorderAll(objects, vs, depth) == MetAll(forms, vs, depth)
    ensures SaneAll(forms, vs, depth) ==> DescribesAll(forms, vs, depth, admits, UnfoldAll(objects, vs, depth).value)
    decreases Fuel(depth), |vs| + 1
  {
    if vs != [] {
      UnfoldsAsSaid(objects, forms, vs[0], depth, admits);
      UnfoldAsSaid(objects, forms, vs[1..], depth, admits);
      if SaneAll(forms, vs, depth) {
        var t, ts := Unfold(objects, vs[0], depth).value, UnfoldAll(objects, vs[1..], depth).value;
        assert ([t] + ts)[1..] == ts;
      }
    }
  }

  /** The caller's notion of a regular filter: no object met twice, none
      malformed, missing or below depth 32. */
  predicate Proper(forms: Forms, v: Value) {
    Sane(forms, v, 0) && Distinct(Met(forms, v, 0))
  }

  /** What the engine is to read. */
  function Wanted(forms: Forms, v: Value, admits: Node -> bool): Option<Predicate> {
    if Proper(forms, v) && Height(forms, v, 0) <= 32 && 1 + Below(forms, v, 0) <= 0x10_0000
    then Says(forms, v, 0, admits) else None
  }

  lemma ReadingIsWanted(heap: Heap, v: Value, admits: Node -> bool)
    ensures Regular(View(heap), v) <==> Proper(FormsOf(heap), v)
    ensures Proper(FormsOf(heap), v) ==>
              Met(FormsOf(heap), v, 0) == Preorder(View(heap), v, 0)
              && Below(FormsOf(heap), v, 0) == Extra(Unfold(View(heap), v, 0).value)
    ensures Reading(View(heap), v, admits) == Wanted(FormsOf(heap), v, admits)
  {
    HeapAgrees(heap, admits);
    UnfoldsAsSaid(View(heap), FormsOf(heap), v, 0, admits);
  }

  // ----- what is refused

  /** `e` is a fault of some object. */
  ghost predicate SomeFault(heap: Heap, e: ArgumentError) {
    exists id :: FaultyAt(heap, id, e)
  }

  ghost predicate FaultyAt(heap: Heap, id: Id, e: ArgumentError) {
    !WellFormed(heap(id)) && FaultIn(heap(id), e)
  }

  /** Every fault the addon reports is a fault of the object. */
  ghost predicate FaultsAreReal(objects: Objects, faults: (Id, ArgumentError) -> bool) {
    forall id :: objects(id).Faulty? ==> faults(id, objects(id).error)
  }

  ghost predicate Reasoned(faults: (Id, ArgumentError) -> bool, e: ArgumentError) {
    e == OutOfRange("children") || exists id :: faults(id, e)
  }

  lemma {:induction false} ThrownForAReason(objects: Objects, faults: (Id, ArgumentError) -> bool, v: Value, depth: nat, seen: seq<Id>, used: nat)
    requires FaultsAreReal(objects, faults)
    ensures Outline(objects, v, depth, seen, used).Threw? ==> Reasoned(faults, Outline(objects, v, depth, seen, used).error)
    decreases Fuel(depth), 0
  {
    if depth <= 32 && v.Object? && v.id !in seen && objects(v.id).Connective? {
      var vs := objects(v.id).children;
      AllThrownForAReason(objects, faults, vs, depth + 1, seen + [v.id], used + |vs|);
    }
  }

  lemma {:induction false} AllThrownForAReason(objects: Objects, faults: (Id, ArgumentError) -> bool, vs: seq<Value>, depth: nat, seen: seq<Id>, used: nat)
    requires FaultsAreReal(objects, faults)
    ensures OutlineAll(objects, vs, depth, seen, used).Threw? ==> Reasoned(faults, OutlineAll(objects, vs, depth, seen, used).error)
    decreases Fuel(depth), |vs| + 1
  {
    if vs != [] {
      ThrownForAReason(objects, faults, vs[0], depth, seen, used);
      var h := Outline(objects, vs[0], depth, seen, used);
      if h.Built? {
        AllThrownForAReason(objects, faults, vs[1..], depth, h.seen, h.used);
      }
    }
  }

  lemma RefusedForAReason(heap: Heap, v: Value)
    requires Outline(View(heap), v, 0, [], 1).Threw?
    ensures var e := Outline(View(heap), v, 0, [], 1).error; e == OutOfRange("children") || SomeFault(heap, e)
  {
    var faults := (id: Id, e: ArgumentError) => !WellFormed(heap(id)) && FaultIn(heap(id), e);
    forall id | View(heap)(id).Faulty?
      ensures faults(id, View(heap)(id).error)
    {
      AcceptedIffWellFormed(heap(id));
    }
    ThrownForAReason(View(heap), faults, v, 0, [], 1);
    var e := Outline(View(heap), v, 0, [], 1).error;
    if e != OutOfRange("children") {
      var id :| faults(id, e);
      assert FaultyAt(heap, id, e);
    }
  }

  /** Compiles a filter. It refuses only when the slots run out or for a fault
      that some object has, and a proper filter only when the slots run out. */
  method Compile(heap: Heap, v: Value) returns (r: Compiled)
    ensures r.Refused? ==> r.error == OutOfRange("children") || SomeFault(heap, r.error)
    ensures (forall id :: WellFormed(heap(id))) && r.Refused? ==> r.error == OutOfRange("children")
    ensures Proper(FormsOf(heap), v) ==> (r.Refused? <==> 1 + Below(FormsOf(heap), v, 0) > 0xFFFF_FFFF)
    ensures r.Compiled? ==> Distinct(r.expanded) && (ForwardTree(r.nodes) <==> Proper(FormsOf(heap), v))
    ensures r.Compiled? && Proper(FormsOf(heap), v) ==>
              r.expanded == Met(FormsOf(heap), v, 0) && |r.nodes| == 1 + Below(FormsOf(heap), v, 0)
  {
    r := ParseFilter(heap, v);
    ReadingIsWanted(heap, v, (_: Node) => true);
    if r.Refused? {
      RefusedForAReason(heap, v);
      ThrownIsUnreadable(View(heap), v, (_: Node) => true);
    } else {
      CleanIffRegular(View(heap), v);
    }
  }

  /** On every heap, what the engine reads is what the fields say, if the filter
      is proper and within the engine's 32 levels and 2^20 nodes; otherwise it
      reads nothing. */
  method Apply(heap: Heap, v: Value, admits: Node -> bool) returns (p: Option<Predicate>)
    ensures p == Wanted(FormsOf(heap), v, admits)
  {
    var r := ParseFilter(heap, v);
    ReadingIsWanted(heap, v, admits);
    if r.Refused? {
      ThrownIsUnreadable(View(heap), v, admits);
      return None;
    }
    ViewIsShapely(heap);
    DecodedArrayHasMeaning(View(heap), v, admits, r.nodes);
    p := DecodeFilter(r.nodes, admits);
  }
}
