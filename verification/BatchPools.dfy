/** The append-only pool format that scripts/graph-workloads.py writes for the
    C driver: every string, value, property, label, vector and image lives in
    a shared pool and is referred to by index or by (start, count) range. */
module BatchPools {
  import opened Prelude
  import opened Bytes

  /** A string in its encoded form. */
  type Text = seq<Byte>

  datatype Scalar =
    | Str(text: Text)
    | I64(integer: int)
    | Bool(truth: bool)
    | F64(bits: nat)
    | StrList(items: seq<Text>)

  datatype Property = Property(name: Text, value: Scalar)

  datatype Key = Key(namespace: Text, key: Text)

  /** A relationship end: a node key, and the id used when the key is not one
      of the batch's own nodes. */
  datatype End = End(key: Key, high: nat, low: nat)

  /** Properties are listed by sorted name. */
  datatype Image =
    | Node(key: Key, properties: seq<Property>, labels: seq<Text>, text: Option<Text>, vector: Option<seq<nat>>)
    | Relationship(key: Key, properties: seq<Property>, kind: Text, source: End, target: End)

  // ----- the pools

  datatype Range = Range(start: nat, count: nat)

  datatype ValueRow = ValueRow(tag: nat, listKind: nat, boolean: nat, integer: int, bits: nat, range: Range)

  datatype PropertyRow = PropertyRow(name: Range, value: nat)

  datatype NodeRow = NodeRow(hasText: bool, hasVector: bool, properties: Range, text: Range, vector: Range, labels: Range)

  datatype RelRow = RelRow(properties: Range, kind: Range)

  datatype EndRow = EndRow(kind: nat, local: nat, high: nat, low: nat)

  datatype ItemRow = ItemRow(kind: nat, namespace: Range, key: Range, index: nat, source: EndRow, target: EndRow)

  datatype Pools = Pools(
    data: seq<Byte>,
    values: seq<ValueRow>,
    children: seq<nat>,
    properties: seq<PropertyRow>,
    names: seq<Range>,
    vectors: seq<nat>,
    nodes: seq<NodeRow>,
    rels: seq<RelRow>,
    items: seq<ItemRow>)

  const EMPTY := Pools([], [], [], [], [], [], [], [], [])

  // ----- reading

  function Slice<T>(pool: seq<T>, r: Range): Option<seq<T>> {
    if r.start + r.count <= |pool| then Some(pool[r.start..r.start + r.count]) else None
  }

  function ReadTexts(p: Pools, ranges: seq<Range>): Option<seq<Text>> {
    if ranges == [] then Some([])
    else
      match (ReadTexts(p, ranges[..|ranges| - 1]), Slice(p.data, ranges[|ranges| - 1]))
      case (Some(ts), Some(t)) => Some(ts + [t])
      case _ => None
  }

  /** The ranges of string values; any other value is no list member. */
  function StringRanges(p: Pools, indices: seq<nat>): Option<seq<Range>> {
    if indices == [] then Some([])
    else
      var i := indices[|indices| - 1];
      match StringRanges(p, indices[..|indices| - 1])
      case Some(rs) => if i < |p.values| && p.values[i].tag == 4 then Some(rs + [p.values[i].range]) else None
      case None => None
  }

  function ReadList(p: Pools, r: Range): Option<seq<Text>> {
    match Slice(p.children, r)
    case None => None
    case Some(indices) =>
      match StringRanges(p, indices)
      case None => None
      case Some(ranges) => ReadTexts(p, ranges)
  }

  function ReadScalar(p: Pools, i: nat): Option<Scalar> {
    if i >= |p.values| then None
    else
      var row := p.values[i];
      match row.tag
      case 1 => Some(Bool(row.boolean != 0))
      case 2 => Some(I64(row.integer))
      case 3 => Some(F64(row.bits))
      case 4 => (match Slice(p.data, row.range) case None => None case Some(t) => Some(Str(t)))
      // A list of strings says so by the tag of its members.
      case 7 => (match if row.listKind == 4 then ReadList(p, row.range) else None
                 case None => None
                 case Some(ts) => Some(StrList(ts)))
      case _ => None
  }

  function ReadProperties(p: Pools, rows: seq<PropertyRow>): Option<seq<Property>> {
    if rows == [] then Some([])
    else
      var row := rows[|rows| - 1];
      match (ReadProperties(p, rows[..|rows| - 1]), Slice(p.data, row.name), ReadScalar(p, row.value))
      case (Some(ps), Some(name), Some(value)) => Some(ps + [Property(name, value)])
      case _ => None
  }

  function ReadPropertyRange(p: Pools, r: Range): Option<seq<Property>> {
    match Slice(p.properties, r)
    case None => None
    case Some(rows) => ReadProperties(p, rows)
  }

  function ReadNames(p: Pools, r: Range): Option<seq<Text>> {
    match Slice(p.names, r)
    case None => None
    case Some(ranges) => ReadTexts(p, ranges)
  }

  /** What a reader finds in an item: an end is an item of the batch, or an id. */
  datatype FoundEnd = Local(item: nat) | External(high: nat, low: nat)

  datatype Found =
    | FoundNode(key: Key, properties: seq<Property>, labels: seq<Text>, text: Option<Text>, vector: Option<seq<nat>>)
    | FoundRelationship(key: Key, properties: seq<Property>, kind: Text, source: FoundEnd, target: FoundEnd)

  function ReadEnd(e: EndRow): Option<FoundEnd> {
    match e.kind
    case 1 => Some(External(e.high, e.low))
    case 2 => Some(Local(e.local))
    case _ => None
  }

  function ReadKey(p: Pools, item: ItemRow): Option<Key> {
    match (Slice(p.data, item.namespace), Slice(p.data, item.key))
    case (Some(n), Some(k)) => Some(Key(n, k))
    case _ => None
  }

  function ReadOptional<T>(present: bool, pool: seq<T>, r: Range): Option<Option<seq<T>>> {
    if !present then Some(None)
    else match Slice(pool, r) case None => None case Some(x) => Some(Some(x))
  }

  function ReadNode(p: Pools, key: Key, row: NodeRow): Option<Found> {
    match (ReadPropertyRange(p, row.properties), ReadNames(p, row.labels))
    case (Some(ps), Some(labels)) =>
      (match (ReadOptional(row.hasText, p.data, row.text), ReadOptional(row.hasVector, p.vectors, row.vector))
       case (Some(text), Some(vector)) => Some(FoundNode(key, ps, labels, text, vector))
       case _ => None)
    case _ => None
  }

  function ReadRelationship(p: Pools, key: Key, row: RelRow, item: ItemRow): Option<Found> {
    match (ReadPropertyRange(p, row.properties), Slice(p.data, row.kind))
    case (Some(ps), Some(kind)) =>
      (match (ReadEnd(item.source), ReadEnd(item.target))
       case (Some(a), Some(b)) => Some(FoundRelationship(key, ps, kind, a, b))
       case _ => None)
    case _ => None
  }

  function ReadItem(p: Pools, item: ItemRow): Option<Found> {
    match ReadKey(p, item)
    case None => None
    case Some(key) =>
      if item.kind == 0 && item.index < |p.nodes| then ReadNode(p, key, p.nodes[item.index])
      else if item.kind == 1 && item.index < |p.rels| then ReadRelationship(p, key, p.rels[item.index], item)
      else None
  }

  // ----- appending keeps every range readable

  predicate Extends(p: Pools, q: Pools) {
    && p.data <= q.data && p.values <= q.values && p.children <= q.children && p.properties <= q.properties
    && p.names <= q.names && p.vectors <= q.vectors && p.nodes <= q.nodes && p.rels <= q.rels && p.items <= q.items
  }

  lemma SliceSurvives<T>(a: seq<T>, b: seq<T>, r: Range)
    requires a <= b && Slice(a, r).Some?
    ensures Slice(b, r) == Slice(a, r)
  {
    assert b[r.start..r.start + r.count] == a[r.start..r.start + r.count];
  }

  lemma {:induction false} TextsSurvive(p: Pools, q: Pools, ranges: seq<Range>)
    requires Extends(p, q) && ReadTexts(p, ranges).Some?
    ensures ReadTexts(q, ranges) == ReadTexts(p, ranges)
  {
    if ranges != [] {
      TextsSurvive(p, q, ranges[..|ranges| - 1]);
      SliceSurvives(p.data, q.data, ranges[|ranges| - 1]);
    }
  }

  lemma {:induction false} StringRangesSurvive(p: Pools, q: Pools, indices: seq<nat>)
    requires Extends(p, q) && StringRanges(p, indices).Some?
    ensures StringRanges(q, indices) == StringRanges(p, indices)
  {
    if indices != [] {
      StringRangesSurvive(p, q, indices[..|indices| - 1]);
    }
  }

  lemma ScalarSurvives(p: Pools, q: Pools, i: nat)
    requires Extends(p, q) && ReadScalar(p, i).Some?
    ensures ReadScalar(q, i) == ReadScalar(p, i)
  {
    var row := p.values[i];
    assert q.values[i] == row;
    if row.tag == 7 {
      SliceSurvives(p.children, q.children, row.range);
      var indices := Slice(p.children, row.range).value;
      StringRangesSurvive(p, q, indices);
      TextsSurvive(p, q, StringRanges(p, indices).value);
    } else if row.tag == 4 {
      SliceSurvives(p.data, q.data, row.range);
    }
  }

  lemma {:induction false} PropertiesSurvive(p: Pools, q: Pools, rows: seq<PropertyRow>)
    requires Extends(p, q) && ReadProperties(p, rows).Some?
    ensures ReadProperties(q, rows) == ReadProperties(p, rows)
  {
    if rows != [] {
      var row := rows[|rows| - 1];
      PropertiesSurvive(p, q, rows[..|rows| - 1]);
      SliceSurvives(p.data, q.data, row.name);
      ScalarSurvives(p, q, row.value);
    }
  }

  lemma PropertyRangeSurvives(p: Pools, q: Pools, r: Range)
    requires Extends(p, q) && ReadPropertyRange(p, r).Some?
    ensures ReadPropertyRange(q, r) == ReadPropertyRange(p, r)
  {
    SliceSurvives(p.properties, q.properties, r);
    PropertiesSurvive(p, q, Slice(p.properties, r).value);
  }

  lemma NamesSurvive(p: Pools, q: Pools, r: Range)
    requires Extends(p, q) && ReadNames(p, r).Some?
    ensures ReadNames(q, r) == ReadNames(p, r)
  {
    SliceSurvives(p.names, q.names, r);
    TextsSurvive(p, q, Slice(p.names, r).value);
  }

  lemma NodeSurvives(p: Pools, q: Pools, key: Key, row: NodeRow)
    requires Extends(p, q) && ReadNode(p, key, row).Some?
    ensures ReadNode(q, key, row) == ReadNode(p, key, row)
  {
    PropertyRangeSurvives(p, q, row.properties);
    NamesSurvive(p, q, row.labels);
    if row.hasText { SliceSurvives(p.data, q.data, row.text); }
    if row.hasVector { SliceSurvives(p.vectors, q.vectors, row.vector); }
  }

  lemma RelationshipSurvives(p: Pools, q: Pools, key: Key, row: RelRow, item: ItemRow)
    requires Extends(p, q) && ReadRelationship(p, key, row, item).Some?
    ensures ReadRelationship(q, key, row, item) == ReadRelationship(p, key, row, item)
  {
    PropertyRangeSurvives(p, q, row.properties);
    SliceSurvives(p.data, q.data, row.kind);
  }

  /** A readable item stays readable, with the same content, under any append. */
  lemma ItemSurvives(p: Pools, q: Pools, item: ItemRow)
    requires Extends(p, q) && ReadItem(p, item).Some?
    ensures ReadItem(q, item) == ReadItem(p, item)
  {
    SliceSurvives(p.data, q.data, item.namespace);
    SliceSurvives(p.data, q.data, item.key);
    var key := ReadKey(p, item).value;
    if item.kind == 0 {
      NodeSurvives(p, q, key, p.nodes[item.index]);
    } else {
      RelationshipSurvives(p, q, key, p.rels[item.index], item);
    }
  }

  // ----- which item an endpoint names

  /** The batch's own nodes by key; a later node takes over an equal key. */
  function LocalNodes(changes: seq<Image>): map<Key, nat> {
    if changes == [] then map[]
    else
      var n := |changes| - 1;
      if changes[n].Node? then LocalNodes(changes[..n])[changes[n].key := n] else LocalNodes(changes[..n])
  }

  lemma {:induction false} LocalNodesAreNodes(changes: seq<Image>)
    ensures forall k :: k in LocalNodes(changes) ==>
                          LocalNodes(changes)[k] < |changes|
                          && changes[LocalNodes(changes)[k]].Node? && changes[LocalNodes(changes)[k]].key == k
    ensures forall i :: 0 <= i < |changes| && changes[i].Node? ==> changes[i].key in LocalNodes(changes)
    ensures forall i :: 0 <= i < |changes| && changes[i].Node? ==> i <= LocalNodes(changes)[changes[i].key]
  {
    if changes != [] {
      LocalNodesAreNodes(changes[..|changes| - 1]);
    }
  }

  function FindEnd(local: map<Key, nat>, e: End): FoundEnd {
    if e.key in local then Local(local[e.key]) else External(e.high, e.low)
  }

  /** What a reader must find for a change. */
  function Expected(local: map<Key, nat>, c: Image): Found {
    match c
    case Node(key, ps, labels, text, vector) => FoundNode(key, ps, labels, text, vector)
    case Relationship(key, ps, kind, a, b) => FoundRelationship(key, ps, kind, FindEnd(local, a), FindEnd(local, b))
  }

  // ----- writing

  /** Only the byte, value and child pools differ. */
  predicate SameRows(p: Pools, q: Pools) {
    q == p.(data := q.data, values := q.values, children := q.children)
  }

  /** Labels, vectors, images and items are untouched. */
  predicate OnlyProperties(p: Pools, q: Pools) {
    q == p.(data := q.data, values := q.values, children := q.children, properties := q.properties)
  }

  lemma Appended<T>(s: seq<T>, t: seq<T>)
    ensures s <= s + t && Slice(s + t, Range(|s|, |t|)) == Some(t)
  {
    assert (s + t)[|s|..|s| + |t|] == t;
  }

  class Writer {
    var p: Pools

    constructor ()
      ensures p == EMPTY
    {
      p := EMPTY;
    }

    /** `span(text)`. */
    method Span(raw: Text) returns (r: Range)
      modifies this
      ensures p == old(p).(data := old(p).data + raw) && Extends(old(p), p) && SameRows(old(p), p)
      ensures r == Range(|old(p).data|, |raw|) && Slice(p.data, r) == Some(raw)
    {
      r := Range(|p.data|, |raw|);
      Appended(p.data, raw);
      p := p.(data := p.data + raw);
    }

    method PushValue(row: ValueRow) returns (index: nat)
      modifies this
      ensures p == old(p).(values := old(p).values + [row]) && Extends(old(p), p) && SameRows(old(p), p)
      ensures index == |old(p).values| < |p.values| && p.values[index] == row
    {
      index := |p.values|;
      p := p.(values := p.values + [row]);
    }

    method StringValue(text: Text) returns (index: nat)
      modifies this
      ensures Extends(old(p), p) && SameRows(old(p), p) && p.children == old(p).children
      ensures index < |p.values| && p.values[index].tag == 4 && Slice(p.data, p.values[index].range) == Some(text)
    {
      var r := Span(text);
      index := PushValue(ValueRow(4, 0, 0, 0, 0, r));
    }

    /** The members of a string list, one value each. */
    method StringValues(texts: seq<Text>) returns (indices: seq<nat>)
      modifies this
      ensures Extends(old(p), p) && SameRows(old(p), p) && p.children == old(p).children
      ensures |indices| == |texts| && StringRanges(p, indices).Some?
      ensures ReadTexts(p, StringRanges(p, indices).value) == Some(texts)
    {
      indices := [];
      for i := 0 to |texts|
        invariant Extends(old(p), p) && SameRows(old(p), p) && p.children == old(p).children
        invariant |indices| == i && StringsAt(p, indices, texts[..i])
      {
        ghost var before := p;
        var index := StringValue(texts[i]);
        StringAdded(before, p, indices, index, texts[..i], texts[i]);
        assert texts[..i + 1] == texts[..i] + [texts[i]];
        indices := indices + [index];
      }
      assert texts[..|texts|] == texts;
    }

    /** Members first, then their indices, then the list itself. */
    method ListValue(items: seq<Text>) returns (index: nat)
      modifies this
      ensures Extends(old(p), p) && SameRows(old(p), p)
      ensures ReadScalar(p, index) == Some(StrList(items))
    {
      var start := |p.children|;
      var indices := StringValues(items);
      ghost var before := p;
      Appended(p.children, indices);
      p := p.(children := p.children + indices);
      var r := Range(start, |indices|);
      index := PushValue(ValueRow(7, 4, 0, 0, 0, r));
      ListWritten(before, p, indices, items, r);
    }

    /** `scalar(v)`. */
    method Value(v: Scalar) returns (index: nat)
      modifies this
      ensures Extends(old(p), p) && SameRows(old(p), p)
      ensures ReadScalar(p, index) == Some(v)
    {
      match v {
        case Str(text) =>
          index := StringValue(text);
        case I64(n) =>
          index := PushValue(ValueRow(2, 0, 0, n, 0, Range(0, 0)));
        case Bool(b) =>
          index := PushValue(ValueRow(1, 0, if b then 1 else 0, 0, 0, Range(0, 0)));
        case F64(bits) =>
          index := PushValue(ValueRow(3, 0, 0, 0, bits, Range(0, 0)));
        case StrList(items) =>
          index := ListValue(items);
      }
    }

    /** `properties.append((*span(k), scalar(v)))`. */
    method OneProperty(prop: Property) returns (row: PropertyRow)
      modifies this
      ensures Extends(old(p), p) && OnlyProperties(old(p), p)
      ensures p.properties == old(p).properties + [row]
      ensures Slice(p.data, row.name) == Some(prop.name) && ReadScalar(p, row.value) == Some(prop.value)
    {
      var name := Span(prop.name);
      ghost var named := p;
      var value := Value(prop.value);
      SliceSurvives(named.data, p.data, name);
      ghost var valued := p;
      row := PropertyRow(name, value);
      p := p.(properties := p.properties + [row]);
      ScalarSurvives(valued, p, value);
    }

    /** The loop over a change's sorted properties. */
    method Properties(props: seq<Property>) returns (r: Range)
      modifies this
      ensures Extends(old(p), p) && OnlyProperties(old(p), p)
      ensures ReadPropertyRange(p, r) == Some(props)
    {
      var start := |p.properties|;
      ghost var first, rows: seq<PropertyRow> := p, [];
      for i := 0 to |props|
        invariant Extends(first, p) && OnlyProperties(first, p)
        invariant p.properties == first.properties + rows && |rows| == i
        invariant ReadProperties(p, rows) == Some(props[..i])
      {
        ghost var before := p;
        var row := OneProperty(props[i]);
        PushProperty(before, p, rows, row, props[..i], props[i]);
        ExtendsTransitive(first, before, p);
        assert props[..i + 1] == props[..i] + [props[i]];
        rows := rows + [row];
      }
      assert props[..|props|] == props;
      Appended(first.properties, rows);
      r := Range(start, |props|);
    }

    /** `names.extend(span(s) for s in labels)`. */
    method Names(labels: seq<Text>) returns (r: Range)
      modifies this
      ensures Extends(old(p), p) && p == old(p).(data := p.data, names := p.names)
      ensures ReadNames(p, r) == Some(labels)
    {
      var start := |p.names|;
      ghost var first, rows: seq<Range> := p, [];
      for i := 0 to |labels|
        invariant Extends(first, p) && p == first.(data := p.data, names := p.names)
        invariant p.names == first.names + rows && |rows| == i
        invariant ReadTexts(p, rows) == Some(labels[..i])
      {
        ghost var before := p;
        var name := Span(labels[i]);
        p := p.(names := p.names + [name]);
        PushName(before, p, rows, name, labels[..i], labels[i]);
        ExtendsTransitive(first, before, p);
        assert labels[..i + 1] == labels[..i] + [labels[i]];
        rows := rows + [name];
      }
      assert labels[..|labels|] == labels;
      Appended(first.names, rows);
      r := Range(start, |labels|);
    }

    method Vector(bits: seq<nat>) returns (r: Range)
      modifies this
      ensures p == old(p).(vectors := old(p).vectors + bits) && Extends(old(p), p)
      ensures Slice(p.vectors, r) == Some(bits)
    {
      r := Range(|p.vectors|, |bits|);
      Appended(p.vectors, bits);
      p := p.(vectors := p.vectors + bits);
    }

    /** The optional parts of a node image. */
    method TextAndVector(text: Option<Text>, vector: Option<seq<nat>>) returns (t: Range, v: Range)
      modifies this
      ensures Extends(old(p), p) && p == old(p).(data := p.data, vectors := p.vectors)
      ensures ReadOptional(text.Some?, p.data, t) == Some(text)
      ensures ReadOptional(vector.Some?, p.vectors, v) == Some(vector)
    {
      t, v := Range(0, 0), Range(0, 0);
      if text.Some? {
        t := Span(text.value);
      }
      if vector.Some? {
        v := Vector(vector.value);
      }
    }

    method NodeImage(c: Image) returns (index: nat)
      requires c.Node?
      modifies this
      ensures Extends(old(p), p) && p.items == old(p).items && index < |p.nodes|
      ensures ReadNode(p, c.key, p.nodes[index]) == Some(FoundNode(c.key, c.properties, c.labels, c.text, c.vector))
    {
      var ps := Properties(c.properties);
      ghost var p1 := p;
      var labels := Names(c.labels);
      ghost var p2 := p;
      var t, v := TextAndVector(c.text, c.vector);
      ghost var p3 := p;
      var row := NodeRow(c.text.Some?, c.vector.Some?, ps, t, v, labels);
      index := |p.nodes|;
      PropertyRangeSurvives(p1, p, ps);
      NamesSurvive(p2, p, labels);
      p := p.(nodes := p.nodes + [row]);
      NodeSurvives(p3, p, c.key, row);
    }

    method RelationshipImage(c: Image) returns (index: nat)
      requires c.Relationship?
      modifies this
      ensures Extends(old(p), p) && p.items == old(p).items && index < |p.rels|
      ensures ReadPropertyRange(p, p.rels[index].properties) == Some(c.properties)
      ensures Slice(p.data, p.rels[index].kind) == Some(c.kind)
    {
      var ps := Properties(c.properties);
      ghost var p1 := p;
      var kind := Span(c.kind);
      ghost var p2 := p;
      index := |p.rels|;
      p := p.(rels := p.rels + [RelRow(ps, kind)]);
      PropertyRangeSurvives(p1, p, ps);
    }

    /** The item row, once the image is in place. */
    method Item(key: Key, kind: nat, index: nat, source: EndRow, target: EndRow) returns (row: ItemRow)
      modifies this
      ensures Extends(old(p), p) && p.items == old(p).items + [row]
      ensures p.nodes == old(p).nodes && p.rels == old(p).rels
      ensures row == ItemRow(kind, row.namespace, row.key, index, source, target) && ReadKey(p, row) == Some(key)
    {
      var n := Span(key.namespace);
      ghost var p1 := p;
      var k := Span(key.key);
      SliceSurvives(p1.data, p.data, n);
      row := ItemRow(kind, n, k, index, source, target);
      p := p.(items := p.items + [row]);
    }

    /** One turn of the loop over the changes. */
    method Change(c: Image, local: map<Key, nat>) returns (row: ItemRow)
      modifies this
      ensures Extends(old(p), p) && p.items == old(p).items + [row]
      ensures ReadItem(p, row) == Some(Expected(local, c))
    {
      if c.Node? {
        var index := NodeImage(c);
        ghost var written := p;
        row := Item(c.key, 0, index, EndRow(0, 0, 0, 0), EndRow(0, 0, 0, 0));
        NodeSurvives(written, p, c.key, written.nodes[index]);
      } else {
        var index := RelationshipImage(c);
        ghost var written := p;
        row := Item(c.key, 1, index, EndFor(local, c.source), EndFor(local, c.target));
        PropertyRangeSurvives(written, p, written.rels[index].properties);
        SliceSurvives(written.data, p.data, written.rels[index].kind);
      }
    }
  }

  /** The values at `indices` are the strings `texts`. */
  ghost predicate StringsAt(p: Pools, indices: seq<nat>, texts: seq<Text>) {
    StringRanges(p, indices).Some? && ReadTexts(p, StringRanges(p, indices).value) == Some(texts)
  }

  lemma StringAdded(before: Pools, p: Pools, indices: seq<nat>, index: nat, texts: seq<Text>, text: Text)
    requires Extends(before, p) && StringsAt(before, indices, texts)
    requires index < |p.values| && p.values[index].tag == 4 && Slice(p.data, p.values[index].range) == Some(text)
    ensures StringsAt(p, indices + [index], texts + [text])
  {
    StringRangesSurvive(before, p, indices);
    TextsSurvive(before, p, StringRanges(p, indices).value);
    PushString(p, indices, index, texts, text);
  }

  lemma PushString(p: Pools, indices: seq<nat>, index: nat, texts: seq<Text>, text: Text)
    requires StringRanges(p, indices).Some? && ReadTexts(p, StringRanges(p, indices).value) == Some(texts)
    requires index < |p.values| && p.values[index].tag == 4 && Slice(p.data, p.values[index].range) == Some(text)
    ensures StringRanges(p, indices + [index]).Some?
    ensures ReadTexts(p, StringRanges(p, indices + [index]).value) == Some(texts + [text])
  {
    var ranges, r := StringRanges(p, indices).value, p.values[index].range;
    assert (indices + [index])[..|indices|] == indices;
    assert StringRanges(p, indices + [index]) == Some(ranges + [r]);
    assert (ranges + [r])[..|ranges|] == ranges;
  }

  lemma ListWritten(before: Pools, p: Pools, indices: seq<nat>, items: seq<Text>, r: Range)
    requires Extends(before, p) && StringRanges(before, indices).Some?
    requires ReadTexts(before, StringRanges(before, indices).value) == Some(items)
    requires Slice(p.children, r) == Some(indices)
    ensures ReadList(p, r) == Some(items)
  {
    StringRangesSurvive(before, p, indices);
    TextsSurvive(before, p, StringRanges(before, indices).value);
  }

  lemma ExtendsTransitive(a: Pools, b: Pools, c: Pools)
    requires Extends(a, b) && Extends(b, c)
    ensures Extends(a, c)
  {
  }

  lemma PushName(before: Pools, p: Pools, rows: seq<Range>, row: Range, texts: seq<Text>, text: Text)
    requires Extends(before, p) && ReadTexts(before, rows) == Some(texts) && Slice(p.data, row) == Some(text)
    ensures ReadTexts(p, rows + [row]) == Some(texts + [text])
  {
    TextsSurvive(before, p, rows);
    assert (rows + [row])[..|rows|] == rows;
  }

  lemma PushProperty(before: Pools, p: Pools, rows: seq<PropertyRow>, row: PropertyRow, props: seq<Property>, prop: Property)
    requires Extends(before, p) && ReadProperties(before, rows) == Some(props)
    requires Slice(p.data, row.name) == Some(prop.name) && ReadScalar(p, row.value) == Some(prop.value)
    ensures ReadProperties(p, rows + [row]) == Some(props + [prop])
  {
    PropertiesSurvive(before, p, rows);
    assert (rows + [row])[..|rows|] == rows;
  }

  /** An end inside the batch is an item index; any other end is an id. */
  function EndFor(local: map<Key, nat>, e: End): EndRow {
    if e.key in local then EndRow(2, local[e.key], 0, 0) else EndRow(1, 0, e.high, e.low)
  }

  /** Every change can be read back, in order and whole, and every end that is
      read as local names an item holding a node of exactly that key. */
  ghost predicate ReadsBack(p: Pools, changes: seq<Image>) {
    && |p.items| == |changes|
    && forall i :: 0 <= i < |changes| ==> ReadItem(p, p.items[i]) == Some(Expected(LocalNodes(changes), changes[i]))
  }

  /** An end leads to the last node of the batch with its key, or carries its own
      id when there is none. */
  predicate EndFound(changes: seq<Image>, e: End, found: FoundEnd) {
    match found
    case Local(item) =>
      && item < |changes| && changes[item].Node? && changes[item].key == e.key
      && forall k :: item < k < |changes| && changes[k].Node? ==> changes[k].key != e.key
    case External(high, low) =>
      high == e.high && low == e.low && forall k :: 0 <= k < |changes| && changes[k].Node? ==> changes[k].key != e.key
  }

  /** What is found for change `i` is that change, part by part. */
  predicate Recovered(changes: seq<Image>, i: nat, found: Found)
    requires i < |changes|
  {
    match (changes[i], found)
    case (Node(key, ps, labels, text, vector), FoundNode(key', ps', labels', text', vector')) =>
      key == key' && ps == ps' && labels == labels' && text == text' && vector == vector'
    case (Relationship(key, ps, kind, a, b), FoundRelationship(key', ps', kind', a', b')) =>
      key == key' && ps == ps' && kind == kind' && EndFound(changes, a, a') && EndFound(changes, b, b')
    case _ => false
  }

  lemma ReadsBackWhole(p: Pools, changes: seq<Image>, i: nat)
    requires ReadsBack(p, changes) && i < |changes|
    ensures ReadItem(p, p.items[i]).Some? && Recovered(changes, i, ReadItem(p, p.items[i]).value)
  {
    LocalNodesAreNodes(changes);
  }

  method WriteBatch(changes: seq<Image>) returns (p: Pools)
    ensures ReadsBack(p, changes)
    ensures forall i :: 0 <= i < |changes| ==> ReadItem(p, p.items[i]).Some? && Recovered(changes, i, ReadItem(p, p.items[i]).value)
  {
    var w := new Writer();
    var local := LocalNodes(changes);
    for i := 0 to |changes|
      invariant fresh(w) && |w.p.items| == i
      invariant forall j :: 0 <= j < i ==> ReadItem(w.p, w.p.items[j]) == Some(Expected(local, changes[j]))
    {
      ghost var before := w.p;
      var row := w.Change(changes[i], local);
      forall j | 0 <= j < i
        ensures ReadItem(w.p, w.p.items[j]) == Some(Expected(local, changes[j]))
      {
        assert w.p.items[j] == before.items[j];
        ItemSurvives(before, w.p, before.items[j]);
      }
    }
    p := w.p;
    forall i | 0 <= i < |changes|
      ensures ReadItem(p, p.items[i]).Some? && Recovered(changes, i, ReadItem(p, p.items[i]).value)
    {
      ReadsBackWhole(p, changes, i);
    }
  }

  /** A local end leads to a node with the end's own namespace and key; an end
      is external exactly when the batch has no such node. */
  lemma LocalEndsNameTheirNode(p: Pools, changes: seq<Image>, i: nat, e: End)
    requires ReadsBack(p, changes) && i < |changes| && changes[i].Relationship?
    requires e == changes[i].source || e == changes[i].target
    ensures ReadItem(p, p.items[i]).Some? && var r := ReadItem(p, p.items[i]).value;
              && r.FoundRelationship?
              && var found := (if e == changes[i].source then r.source else r.target);
              && (found.External? <==> forall k :: 0 <= k < |changes| && changes[k].Node? ==> changes[k].key != e.key)
              && (found.External? ==> found == External(e.high, e.low))
              && (found.Local? ==>
                    && found.item < |p.items|
                    && ReadItem(p, p.items[found.item]).Some?
                    && ReadItem(p, p.items[found.item]).value.FoundNode?
                    && ReadItem(p, p.items[found.item]).value.key == e.key)
  {
    LocalNodesAreNodes(changes);
  }

  // ----- the format

  /** The tags of the C reader: 1 boolean, 2 integer, 3 bits of a double, 4 string,
      7 list, of strings when its kind is 4. */
  lemma TagsOfValues(p: Pools, i: nat)
    requires i < |p.values|
    ensures var row := p.values[i];
            && (row == ValueRow(1, 0, 1, 0, 0, Range(0, 0)) ==> ReadScalar(p, i) == Some(Bool(true)))
            && (row == ValueRow(1, 0, 0, 0, 0, Range(0, 0)) ==> ReadScalar(p, i) == Some(Bool(false)))
            && (forall n :: row == ValueRow(2, 0, 0, n, 0, Range(0, 0)) ==> ReadScalar(p, i) == Some(I64(n)))
            && (forall bits :: row == ValueRow(3, 0, 0, 0, bits, Range(0, 0)) ==> ReadScalar(p, i) == Some(F64(bits)))
            && (forall a: nat, n: nat :: row == ValueRow(4, 0, 0, 0, 0, Range(a, n)) && a + n <= |p.data| ==>
                                 ReadScalar(p, i) == Some(Str(p.data[a..a + n])))
            && (row.tag == 7 && row.listKind != 4 ==> ReadScalar(p, i) == None)
  {
  }

  /** The kinds of the C reader: an end is an id (1) or an item (2), an item a node
      (0) or a relationship (1). */
  lemma KindsOfRows(p: Pools, item: ItemRow, i: nat, high: nat, low: nat)
    ensures ReadEnd(EndRow(1, 0, high, low)) == Some(External(high, low)) && ReadEnd(EndRow(2, i, 0, 0)) == Some(Local(i))
    ensures item.kind == 0 && ReadItem(p, item).Some? ==> ReadItem(p, item).value.FoundNode?
    ensures item.kind == 1 && ReadItem(p, item).Some? ==> ReadItem(p, item).value.FoundRelationship?
    ensures item.kind > 1 ==> ReadItem(p, item) == None
  {
  }
}
