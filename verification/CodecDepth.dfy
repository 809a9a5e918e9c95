/**
  Nesting on the wire. The encoding of a value is the serialisation of a tree
  of protobuf messages; if the depth check accepts the value, that tree is no
  deeper than the receiver allows and decodeValue stays within its own limit.
*/
module CodecDepth {
  import opened Prelude
  import opened ProtoWire
  import opened Records
  import opened Uuid
  import opened Values
  import opened Codec
  import opened CodecRoundTrip
  import opened CodecBudget

  // ----- message trees -----

  datatype Node = Leaf(f: Field) | Sub(num: nat, parts: seq<Node>)

  function Serialize(parts: seq<Node>): Bytes {
    if parts == [] then [] else SerializeNode(parts[0]) + Serialize(parts[1..])
  }

  function SerializeNode(n: Node): Bytes {
    match n
    case Leaf(f) => Emit(f)
    case Sub(num, parts) => BytesField(num, Serialize(parts))
  }

  /** A message with these parts, counted with those nested in it, is at most n messages deep. */
  predicate NestsWithin(parts: seq<Node>, n: int) {
    n >= 1 && forall i | 0 <= i < |parts| :: NodeWithin(parts[i], n - 1)
  }

  predicate NodeWithin(node: Node, n: int) {
    node.Sub? ==> NestsWithin(node.parts, n)
  }

  function Leaves(fs: seq<Field>): (parts: seq<Node>)
    ensures forall i | 0 <= i < |parts| :: parts[i].Leaf?
  {
    if fs == [] then [] else [Leaf(fs[0])] + Leaves(fs[1..])
  }

  function TreeOf(v: Value): seq<Node> {
    match v
    case Ellipsis => [Sub(1, [])]
    case Null => [Sub(2, [])]
    case NotImplemented => [Sub(3, [])]
    case Bool(b) => [Leaf(Field(4, Varint(if b then 1 else 0)))]
    case Int(i) =>
      if IsInt64(i) then [Leaf(Field(5, Varint(EncodeZigZag(i))))] else [Sub(6, Leaves(BigFields(i)))]
    case Float(bits) => [Leaf(Field(7, Fixed(bits)))]
    case Str(s) => [Leaf(Field(8, Blob(s)))]
    case ByteString(s) => [Leaf(Field(9, Blob(s)))]
    case Sequence(kind, items) => [Sub(SequenceNumber(kind), ItemNodes(1, items))]
    case NamedTuple(name, fields, values) =>
      [Sub(13, Leaves(NonEmpty(1, name)) + (NameNodes(fields) + ItemNodes(3, values)))]
    case Dict(pairs) => [Sub(14, PairNodes(pairs))]
    case Plain(rec) => [Sub(Number(rec), Leaves(FieldsOf(rec)))]
    case Class(t) => [Sub(23, TypeNodes(t))]
    case Instance(t, id, attrs) => [Sub(24, [Sub(1, TypeNodes(t)), UuidNode(id), Sub(3, PairNodes(attrs))])]
    case BuiltinFunction(name) => [Leaf(Field(26, Blob(name)))]
    case Path(p) => [Leaf(Field(27, Blob(p)))]
  }

  function ItemNodes(num: nat, items: seq<Value>): seq<Node>
    decreases items
  {
    if items == [] then [] else [Sub(num, TreeOf(items[0]))] + ItemNodes(num, items[1..])
  }

  function NameNodes(names: seq<Bytes>): (parts: seq<Node>)
    ensures forall i | 0 <= i < |parts| :: parts[i].Leaf?
  {
    if names == [] then [] else [Leaf(Field(2, Blob(names[0])))] + NameNodes(names[1..])
  }

  function PairNode(p: Pair): Node {
    Sub(1, [Sub(1, TreeOf(p.key)), Sub(2, TreeOf(p.value))])
  }

  function PairNodes(pairs: seq<Pair>): seq<Node> {
    if pairs == [] then [] else [PairNode(pairs[0])] + PairNodes(pairs[1..])
  }

  function UuidNode(id: Bytes): Node {
    Sub(2, Leaves([Field(1, Blob(UuidBytes(id)))]))
  }

  function TypeNodes(t: TypeInfo): seq<Node> {
    Leaves(NonEmpty(1, t.name))
    + ((if t.id == [] then [] else [UuidNode(t.id)])
       + (Leaves(Uint(3, t.origin))
          + (Leaves(Uint(4, if t.isDataclass then 1 else 0))
             + (if t.attrs == [] then [] else [Sub(5, PairNodes(t.attrs))]))))
  }

  // ----- the tree is what is sent -----

  lemma {:induction false} SerializeConcat(a: seq<Node>, b: seq<Node>)
    ensures Serialize(a + b) == Serialize(a) + Serialize(b)
    decreases |a|
  {
    if a == [] {
      assert a + b == b;
    } else {
      hide SerializeNode;
      SerializeConcat(a[1..], b);
      assert (a + b)[1..] == a[1..] + b;
      assert SerializeNode(a[0]) + Serialize(a[1..]) + Serialize(b) == SerializeNode(a[0]) + (Serialize(a[1..]) + Serialize(b));
    }
  }

  lemma SerializeOne(n: Node)
    ensures Serialize([n]) == SerializeNode(n)
  {
    hide SerializeNode;
    assert SerializeNode(n) + Serialize([]) == SerializeNode(n);
  }

  lemma SerializeCons(n: Node, rest: seq<Node>)
    ensures Serialize([n] + rest) == SerializeNode(n) + Serialize(rest)
  {
    hide SerializeNode;
    assert ([n] + rest)[1..] == rest;
  }

  lemma {:induction false} SerializeLeaves(fs: seq<Field>)
    ensures Serialize(Leaves(fs)) == FlatBody(fs)
  {
    if fs != [] {
      SerializeLeaves(fs[1..]);
      SerializeCons(Leaf(fs[0]), Leaves(fs[1..]));
    }
  }

  lemma {:induction false} SerializeNames(names: seq<Bytes>)
    ensures Serialize(NameNodes(names)) == NamesBody(names)
  {
    if names != [] {
      SerializeNames(names[1..]);
      SerializeCons(Leaf(Field(2, Blob(names[0]))), NameNodes(names[1..]));
    }
  }

  /** AppendValue writes exactly the tree of messages. */
  lemma {:induction false} TreeIsEncoding(v: Value)
    ensures Serialize(TreeOf(v)) == Body(v)
    decreases v
  {
    match v
    case Sequence(kind, items) =>
      hide TreeOf, BytesField, Serialize, Body;
      SequenceTree(v);
    case NamedTuple(_, _, _) =>
      hide TreeOf, BytesField, Serialize, Body;
      NamedTupleTree(v);
    case Dict(pairs) =>
      hide BytesField, Serialize, PairNodes, PairsBody;
      SerializeOne(Sub(14, PairNodes(pairs)));
      PairsTree(pairs);
    case Class(t) =>
      hide BytesField, Serialize, TypeNodes, TypeBody;
      SerializeOne(Sub(23, TypeNodes(t)));
      TypeTree(t);
    case Instance(_, _, _) =>
      hide TreeOf, BytesField, Serialize, Body;
      InstanceTree(v);
    case _ =>
      LeafTree(v);
  }

  lemma LeafTree(v: Value)
    requires !v.Sequence? && !v.NamedTuple? && !v.Dict? && !v.Class? && !v.Instance?
    ensures Serialize(TreeOf(v)) == Body(v)
  {
    hide BytesField, FieldsOf, BigFields, FlatBody, Leaves, Serialize;
    SerializeOne(TreeOf(v)[0]);
    SerializeLeaves([]);
    match v
    case Int(i) => SerializeLeaves(BigFields(i));
    case Plain(rec) => SerializeLeaves(FieldsOf(rec));
    case _ => NoFields();
  }

  lemma NoFields()
    ensures Serialize([]) == [] && FlatBody([]) == []
  {
  }

  lemma {:induction false} SequenceTree(v: Value)
    requires v.Sequence?
    ensures Serialize(TreeOf(v)) == Body(v)
    decreases v, 0
  {
    hide BytesField, Serialize, ItemNodes, ItemsBody;
    SerializeOne(TreeOf(v)[0]);
    ItemsTree(1, v.items);
  }

  lemma {:induction false} ItemsTree(num: nat, items: seq<Value>)
    ensures Serialize(ItemNodes(num, items)) == ItemsBody(num, items)
    decreases items, 0
  {
    if items != [] {
      hide BytesField, TreeOf, Body;
      TreeIsEncoding(items[0]);
      ItemsTree(num, items[1..]);
      SerializeCons(Sub(num, TreeOf(items[0])), ItemNodes(num, items[1..]));
    }
  }

  lemma SerializeText(k: nat, s: Bytes)
    ensures Serialize(Leaves(NonEmpty(k, s))) == StringField(k, s)
  {
    hide BytesField;
    SerializeLeaves(NonEmpty(k, s));
    if s != [] {
      assert FlatBody([Field(k, Blob(s))]) == Emit(Field(k, Blob(s))) + FlatBody([]);
    }
  }

  lemma SerializeUint(k: nat, v: nat)
    ensures Serialize(Leaves(Uint(k, v))) == UintField(k, v)
  {
    hide VarintField;
    SerializeLeaves(Uint(k, v));
    if v != 0 {
      assert FlatBody([Field(k, Varint(v))]) == Emit(Field(k, Varint(v))) + FlatBody([]);
    }
  }

  lemma {:induction false} NamedTupleTree(v: Value)
    requires v.NamedTuple?
    ensures Serialize(TreeOf(v)) == Body(v)
    decreases v, 0
  {
    hide BytesField, Serialize, ItemNodes, ItemsBody, NameNodes, NamesBody, Leaves, StringField;
    var names, values := NameNodes(v.fieldNames), ItemNodes(3, v.values);
    SerializeOne(TreeOf(v)[0]);
    SerializeConcat(Leaves(NonEmpty(1, v.typeName)), names + values);
    SerializeConcat(names, values);
    SerializeText(1, v.typeName);
    SerializeNames(v.fieldNames);
    ItemsTree(3, v.values);
  }

  lemma {:induction false} PairsTree(pairs: seq<Pair>)
    ensures Serialize(PairNodes(pairs)) == PairsBody(pairs)
    decreases pairs, 0
  {
    if pairs != [] {
      hide BytesField, PairNode, PairBody;
      PairTree(pairs[0]);
      PairsTree(pairs[1..]);
      SerializeCons(PairNode(pairs[0]), PairNodes(pairs[1..]));
    }
  }

  lemma {:induction false} PairTree(p: Pair)
    ensures SerializeNode(PairNode(p)) == BytesField(1, PairBody(p))
    decreases p, 0
  {
    hide BytesField, TreeOf, Body;
    TreeIsEncoding(p.key);
    TreeIsEncoding(p.value);
    var first, second := Sub(1, TreeOf(p.key)), Sub(2, TreeOf(p.value));
    SerializeCons(first, [second]);
    assert [first] + [second] == [first, second];
    SerializeOne(second);
  }

  lemma UuidTree(id: Bytes)
    ensures SerializeNode(UuidNode(id)) == BytesField(2, UuidMessage(id))
  {
    hide BytesField, FlatBody, Leaves;
    SerializeLeaves([Field(1, Blob(UuidBytes(id)))]);
  }

  lemma {:induction false} TypeTree(t: TypeInfo)
    ensures Serialize(TypeNodes(t)) == TypeBody(t)
    decreases t, 0
  {
    hide BytesField, Serialize, SerializeNode, Leaves, PairNodes, PairsBody, UuidNode, UuidMessage, StringField, UintField;
    var attrs: seq<Node> := if t.attrs == [] then [] else [Sub(5, PairNodes(t.attrs))];
    var flag := Leaves(Uint(4, if t.isDataclass then 1 else 0));
    var origin := Leaves(Uint(3, t.origin));
    var id := if t.id == [] then [] else [UuidNode(t.id)];
    SerializeConcat(Leaves(NonEmpty(1, t.name)), id + (origin + (flag + attrs)));
    SerializeConcat(id, origin + (flag + attrs));
    SerializeConcat(origin, flag + attrs);
    SerializeConcat(flag, attrs);
    SerializeText(1, t.name);
    SerializeUint(3, t.origin);
    SerializeUint(4, if t.isDataclass then 1 else 0);
    NoFields();
    if t.id != [] {
      SerializeOne(UuidNode(t.id));
      UuidTree(t.id);
    }
    if t.attrs != [] {
      AttrsTree(t.attrs);
    }
  }

  lemma {:induction false} AttrsTree(attrs: seq<Pair>)
    ensures Serialize([Sub(5, PairNodes(attrs))]) == BytesField(5, PairsBody(attrs))
    decreases attrs, 1
  {
    hide BytesField, PairNodes, PairsBody;
    SerializeOne(Sub(5, PairNodes(attrs)));
    PairsTree(attrs);
  }

  lemma {:induction false} InstanceTree(v: Value)
    requires v.Instance?
    ensures Serialize(TreeOf(v)) == Body(v)
    decreases v, 0
  {
    hide BytesField, Serialize, TypeNodes, TypeBody, PairNodes, PairsBody, UuidNode, UuidMessage;
    var typ, id, attrs := Sub(1, TypeNodes(v.t)), UuidNode(v.id), Sub(3, PairNodes(v.attrs));
    SerializeOne(TreeOf(v)[0]);
    assert [typ, id, attrs] == [typ] + ([id] + [attrs]);
    SerializeCons(typ, [id] + [attrs]);
    SerializeCons(id, [attrs]);
    SerializeOne(attrs);
    TypeTree(v.t);
    UuidTree(v.id);
    PairsTree(v.attrs);
  }

  // ----- the depth check bounds the tree -----

  ghost predicate NodesWithin(parts: seq<Node>, n: int) {
    forall i | 0 <= i < |parts| :: NodeWithin(parts[i], n)
  }

  lemma OneNode(num: nat, parts: seq<Node>, n: int)
    requires n >= 2 && NodesWithin(parts, n - 2)
    ensures NestsWithin([Sub(num, parts)], n)
  {
    assert NestsWithin(parts, n - 1);
  }

  /**
    Main result: a value the depth check accepts is encoded in at most
    budget + 1 nested messages, and decoding it needs at most budget levels.
  */
  lemma {:induction false} DepthBounds(v: Value, budget: nat)
    requires !DepthExceeds(v, budget) && BareBuiltins(v)
    ensures NestsWithin(TreeOf(v), budget + 1)
    ensures Shallow(v, budget)
    decreases v
  {
    match v
    case Sequence(kind, items) =>
      hide NestsWithin, TreeOf;
      ItemsBound(1, items, budget - LIST_COST);
      SequenceBound(kind, items, budget);
    case NamedTuple(name, fields, values) =>
      hide NestsWithin, TreeOf;
      ItemsBound(3, values, budget - LIST_COST);
      NamedTupleBound(name, fields, values, budget);
    case Dict(pairs) =>
      hide NestsWithin, PairNodes;
      PairsBound(pairs, budget, DICT_COST);
      OneNode(14, PairNodes(pairs), budget + 1);
      ShallowPairsMonotone(pairs, budget - DICT_COST, budget - 1);
    case Class(t) =>
      hide NestsWithin, TypeNodes;
      TypeBound(t, budget - TYPE_COST);
      OneNode(23, TypeNodes(t), budget + 1);
      ShallowPairsMonotone(t.attrs, budget - TYPE_COST - TYPE_ATTRS_COST, budget - 1);
    case Instance(t, id, attrs) =>
      hide NestsWithin, TreeOf;
      InstanceBound(v, budget);
    case _ => LeafBound(v, budget);
  }

  lemma LeafBound(v: Value, budget: nat)
    requires !v.Sequence? && !v.NamedTuple? && !v.Dict? && !v.Class? && !v.Instance?
    requires budget >= 1
    ensures NestsWithin(TreeOf(v), budget + 1)
  {
    var node := TreeOf(v)[0];
    if node.Sub? {
      assert forall i | 0 <= i < |node.parts| :: node.parts[i].Leaf?;
      OneNode(node.num, node.parts, budget + 1);
    }
  }

  lemma SequenceBound(kind: SequenceKind, items: seq<Value>, budget: nat)
    requires budget >= LIST_COST && NodesWithin(ItemNodes(1, items), budget - 1)
    requires forall i | 0 <= i < |items| :: Shallow(items[i], budget - LIST_COST)
    ensures NestsWithin(TreeOf(Sequence(kind, items)), budget + 1)
    ensures Shallow(Sequence(kind, items), budget)
  {
    hide NestsWithin, ItemNodes;
    OneNode(SequenceNumber(kind), ItemNodes(1, items), budget + 1);
    forall i | 0 <= i < |items| ensures Shallow(items[i], budget - 1) {
      ShallowMonotone(items[i], budget - LIST_COST, budget - 1);
    }
  }

  lemma NamedTupleBound(name: Bytes, fields: seq<Bytes>, values: seq<Value>, budget: nat)
    requires budget >= LIST_COST && NodesWithin(ItemNodes(3, values), budget - 1)
    requires forall i | 0 <= i < |values| :: Shallow(values[i], budget - LIST_COST)
    ensures NestsWithin(TreeOf(NamedTuple(name, fields, values)), budget + 1)
    ensures Shallow(NamedTuple(name, fields, values), budget)
  {
    hide NestsWithin, ItemNodes, NameNodes, Leaves;
    OneNode(13, Leaves(NonEmpty(1, name)) + (NameNodes(fields) + ItemNodes(3, values)), budget + 1);
    forall i | 0 <= i < |values| ensures Shallow(values[i], budget - 1) {
      ShallowMonotone(values[i], budget - LIST_COST, budget - 1);
    }
  }

  lemma {:induction false} ItemsBound(num: nat, items: seq<Value>, budget: nat)
    requires forall i | 0 <= i < |items| :: !DepthExceeds(items[i], budget) && BareBuiltins(items[i])
    ensures NodesWithin(ItemNodes(num, items), budget + 1)
    ensures forall i | 0 <= i < |items| :: Shallow(items[i], budget)
    decreases items, 0
  {
    if items != [] {
      hide DepthExceeds, BareBuiltins, Shallow, TreeOf, NestsWithin;
      DepthBounds(items[0], budget);
      ItemsBound(num, items[1..], budget);
      forall i | 0 <= i < |items| ensures Shallow(items[i], budget) {
        if i > 0 {
          assert items[i] == items[1..][i - 1];
        }
      }
    }
  }

  lemma {:induction false} PairsBound(pairs: seq<Pair>, budget: nat, cost: nat)
    requires !PairsExceed(pairs, budget, cost) && BareBuiltinsPairs(pairs)
    ensures NodesWithin(PairNodes(pairs), budget - cost + 2)
    ensures ShallowPairs(pairs, budget - cost)
    decreases pairs, 0
  {
    if pairs != [] {
      hide PairExceeds, BareBuiltinsPair, ShallowPair, PairNode, NestsWithin;
      PairBound(pairs[0], budget - cost);
      PairsBound(pairs[1..], budget, cost);
      forall i | 0 <= i < |pairs| ensures ShallowPair(pairs[i], budget - cost) {
        if i > 0 {
          assert pairs[i] == pairs[1..][i - 1];
        }
      }
    }
  }

  lemma {:induction false} PairBound(p: Pair, budget: nat)
    requires !PairExceeds(p, budget) && BareBuiltinsPair(p)
    ensures NodeWithin(PairNode(p), budget + 2)
    ensures ShallowPair(p, budget)
    decreases p, 0
  {
    hide DepthExceeds, BareBuiltins, Shallow, TreeOf;
    DepthBounds(p.key, budget);
    DepthBounds(p.value, budget);
    assert NodeWithin(Sub(1, TreeOf(p.key)), budget + 1) && NodeWithin(Sub(2, TreeOf(p.value)), budget + 1);
  }

  /** A type body: its id is one message deeper, its attributes two and their values more. */
  lemma {:induction false} TypeBound(t: TypeInfo, budget: nat)
    requires t.attrs != [] ==> !PairsExceed(t.attrs, budget, TYPE_ATTRS_COST)
    requires BareBuiltinsPairs(t.attrs)
    ensures NodesWithin(TypeNodes(t), budget + 1)
    ensures ShallowPairs(t.attrs, budget - TYPE_ATTRS_COST)
    decreases t, 0
  {
    hide PairsExceed, BareBuiltinsPairs, PairNodes, Leaves;
    UuidWithin(t.id, budget + 1);
    if t.attrs != [] {
      PairsBound(t.attrs, budget, TYPE_ATTRS_COST);
      PairsWithin(5, t.attrs, budget);
    }
  }

  lemma UuidWithin(id: Bytes, n: int)
    requires n >= 1
    ensures NodeWithin(UuidNode(id), n)
  {
    hide UuidBytes, Leaves;
    assert NestsWithin(UuidNode(id).parts, n);
  }

  lemma PairsWithin(num: nat, pairs: seq<Pair>, n: int)
    requires n >= 0 && NodesWithin(PairNodes(pairs), n)
    ensures NodeWithin(Sub(num, PairNodes(pairs)), n + 1)
  {
    hide PairNodes;
  }

  lemma {:induction false} InstanceBound(v: Value, budget: nat)
    requires v.Instance? && !DepthExceeds(v, budget) && BareBuiltins(v)
    ensures NestsWithin(TreeOf(v), budget + 1)
    ensures Shallow(v, budget)
    decreases v, 0
  {
    hide PairNodes, TypeNodes, UuidNode;
    TypeBound(v.t, budget - CLASS_INSTANCE_TYPE_COST);
    PairsBound(v.attrs, budget, CLASS_INSTANCE_COST);
    PairsWithin(3, v.attrs, budget - 2);
    UuidWithin(v.id, budget - 1);
    assert NodeWithin(Sub(1, TypeNodes(v.t)), budget - 1);
    OneNode(24, [Sub(1, TypeNodes(v.t)), UuidNode(v.id), Sub(3, PairNodes(v.attrs))], budget + 1);
    ShallowPairsMonotone(v.t.attrs, budget - CLASS_INSTANCE_TYPE_COST - TYPE_ATTRS_COST, budget - 2);
    ShallowPairsMonotone(v.attrs, budget - CLASS_INSTANCE_COST, budget - 1);
  }

  lemma {:induction false} ShallowMonotone(v: Value, small: int, large: int)
    requires Shallow(v, small) && small <= large
    ensures Shallow(v, large)
    decreases v
  {
    match v
    case Sequence(_, items) =>
      forall i | 0 <= i < |items| ensures Shallow(items[i], large - 1) {
        ShallowMonotone(items[i], small - 1, large - 1);
      }
    case NamedTuple(_, _, values) =>
      forall i | 0 <= i < |values| ensures Shallow(values[i], large - 1) {
        ShallowMonotone(values[i], small - 1, large - 1);
      }
    case Dict(pairs) => ShallowPairsMonotone(pairs, small - 1, large - 1);
    case Class(t) => ShallowPairsMonotone(t.attrs, small - 1, large - 1);
    case Instance(t, _, attrs) =>
      ShallowPairsMonotone(t.attrs, small - 2, large - 2);
      ShallowPairsMonotone(attrs, small - 1, large - 1);
    case _ =>
  }

  lemma {:induction false} ShallowPairsMonotone(pairs: seq<Pair>, small: int, large: int)
    requires ShallowPairs(pairs, small) && small <= large
    ensures ShallowPairs(pairs, large)
    decreases pairs, 0
  {
    forall i | 0 <= i < |pairs| ensures ShallowPair(pairs[i], large) {
      ShallowPairMonotone(pairs[i], small, large);
    }
  }

  lemma {:induction false} ShallowPairMonotone(p: Pair, small: int, large: int)
    requires ShallowPair(p, small) && small <= large
    ensures ShallowPair(p, large)
    decreases p, 0
  {
    ShallowMonotone(p.key, small, large);
    ShallowMonotone(p.value, small, large);
  }

  // ----- what it all comes to -----

  lemma {:induction false} WellFormedEncodable(v: Value)
    requires WellFormed(v) && CycleFree(v)
    ensures Encodable(v)
    decreases v
  {
    match v
    case Sequence(_, items) =>
      forall i | 0 <= i < |items| ensures Encodable(items[i]) {
        WellFormedEncodable(items[i]);
      }
    case NamedTuple(_, _, values) =>
      forall i | 0 <= i < |values| ensures Encodable(values[i]) {
        WellFormedEncodable(values[i]);
      }
    case Dict(pairs) => PairsEncodable(pairs);
    case Class(t) => TypeEncodable(t);
    case Instance(t, id, attrs) =>
      hide ParseUUID, FormatUUID, IsUUID;
      TypeEncodable(t);
      FormatParse(id);
      PairsEncodable(attrs);
    case _ =>
  }

  lemma {:induction false} TypeEncodable(t: TypeInfo)
    requires WellFormedType(t) && CycleFreePairs(t.attrs)
    ensures EncodableType(t)
    decreases t, 0
  {
    hide ParseUUID, FormatUUID, IsUUID;
    if t.id != [] {
      FormatParse(t.id);
    }
    PairsEncodable(t.attrs);
  }

  lemma {:induction false} PairsEncodable(pairs: seq<Pair>)
    requires WellFormedPairs(pairs) && CycleFreePairs(pairs)
    ensures EncodablePairs(pairs)
    decreases pairs, 0
  {
    forall i | 0 <= i < |pairs| ensures EncodablePair(pairs[i]) {
      PairEncodable(pairs[i]);
    }
  }

  lemma {:induction false} PairEncodable(p: Pair)
    requires WellFormedPair(p) && CycleFreePair(p)
    ensures EncodablePair(p)
    decreases p, 0
  {
    WellFormedEncodable(p.key);
    WellFormedEncodable(p.value);
  }

  /**
    A well-formed value that the depth check accepts is encoded, stays within
    the receiver's recursion limit, and is decoded to itself exactly when the
    budget covers it.
  */
  lemma AcceptedRoundTrip(v: Value, budget: nat)
    requires WellFormed(v) && CycleFree(v) && BareBuiltins(v) && !ExceedsMaxDepth(v)
    requires |Body(v)| < TWO64
    ensures AppendValue(v) == Some(Body(v))
    ensures NestsWithin(TreeOf(v), 98)
    ensures DecodeValue(Body(v), budget, 0) == if budget >= Need(v) then Some(Decoded(v, budget - Need(v))) else None
  {
    hide WellFormed, CycleFree, BareBuiltins, DepthExceeds, Encodable, NestsWithin, TreeOf, Shallow, Body, DecodeValue, Need;
    WellFormedEncodable(v);
    DepthBounds(v, MAX_PROTO_VALUE_DEPTH);
    ShallowMonotone(v, MAX_PROTO_VALUE_DEPTH, MAX_DECODE_NESTING);
    ValueRoundTrip(v, budget + Need(v), 0);
    if budget >= Need(v) {
      ValueRoundTrip(v, budget, 0);
    } else if DecodeValue(Body(v), budget, 0).Some? {
      ValueFacts(Body(v), budget, 0, Need(v));
      assert false;
    }
  }

  /** Whatever bytes a value came from, its own encoding gives it back. */
  lemma DecodedReencodes(msg: Bytes, budget: nat, again: nat)
    requires DecodeValue(msg, budget, 0).Some?
    ensures var v := DecodeValue(msg, budget, 0).value.value;
      && WellFormed(v)
      && (CycleFree(v) && |Body(v)| < TWO64 && again >= Need(v) ==>
            AppendValue(v) == Some(Body(v)) && DecodeValue(Body(v), again, 0) == Some(Decoded(v, again - Need(v))))
  {
    hide WellFormed, CycleFree, Encodable, Shallow, Body, DecodeValue, Need;
    ValueFacts(msg, budget, 0, 0);
    var v := DecodeValue(msg, budget, 0).value.value;
    if CycleFree(v) && |Body(v)| < TWO64 && again >= Need(v) {
      WellFormedEncodable(v);
      ValueRoundTrip(v, again, 0);
    }
  }

  // ----- how much the check turns away -----

  lemma PartWithin(parts: seq<Node>, i: nat, n: int)
    requires NestsWithin(parts, n) && i < |parts| && parts[i].Sub?
    ensures NestsWithin(parts[i].parts, n - 1)
  {
    assert NodeWithin(parts[i], n - 1);
  }

  lemma {:induction false} ItemNodeAt(num: nat, items: seq<Value>, i: nat)
    requires i < |items|
    ensures |ItemNodes(num, items)| == |items| && ItemNodes(num, items)[i] == Sub(num, TreeOf(items[i]))
    decreases |items|
  {
    hide TreeOf;
    if i > 0 {
      ItemNodeAt(num, items[1..], i - 1);
    } else if |items| > 1 {
      ItemNodeAt(num, items[1..], 0);
    }
  }

  lemma {:induction false} PairNodeAt(pairs: seq<Pair>, i: nat)
    requires i < |pairs|
    ensures |PairNodes(pairs)| == |pairs| && PairNodes(pairs)[i] == PairNode(pairs[i])
    decreases |pairs|
  {
    hide PairNode;
    if i > 0 {
      PairNodeAt(pairs[1..], i - 1);
    } else if |pairs| > 1 {
      PairNodeAt(pairs[1..], 0);
    }
  }

  /**
    The other side: a value whose messages nest less than budget deep is never
    turned away, so a refusal means the tree is at least budget deep.
  */
  lemma {:induction false} DepthTight(v: Value, budget: nat)
    requires NestsWithin(TreeOf(v), budget - 1)
    ensures !DepthExceeds(v, budget)
    decreases v, 2
  {
    match v
    case Sequence(_, _) => SequenceTight(v, budget);
    case NamedTuple(_, _, _) => NamedTupleTight(v, budget);
    case Dict(_) => DictTight(v, budget);
    case Class(_) => ClassTight(v, budget);
    case Instance(_, _, _) => InstanceTight(v, budget);
    case _ =>
  }

  lemma {:induction false} SequenceTight(v: Value, budget: nat)
    requires v.Sequence? && NestsWithin(TreeOf(v), budget - 1)
    ensures !DepthExceeds(v, budget)
    decreases v, 1
  {
    hide NestsWithin, ItemNodes;
    PartWithin(TreeOf(v), 0, budget - 1);
    DeepEnough(ItemNodes(1, v.items), budget - 2);
    ItemsTight(v, 1, v.items, ItemNodes(1, v.items), 0, budget - 2);
  }

  lemma {:induction false} NamedTupleTight(v: Value, budget: nat)
    requires v.NamedTuple? && NestsWithin(TreeOf(v), budget - 1)
    ensures !DepthExceeds(v, budget)
    decreases v, 1
  {
    hide NestsWithin, ItemNodes, NameNodes, Leaves;
    PartWithin(TreeOf(v), 0, budget - 1);
    var before := Leaves(NonEmpty(1, v.typeName)) + NameNodes(v.fieldNames);
    var parts := TreeOf(v)[0].parts;
    assert parts == before + ItemNodes(3, v.values);
    DeepEnough(parts, budget - 2);
    ItemsTight(v, 3, v.values, parts, |before|, budget - 2);
  }

  lemma {:induction false} DictTight(v: Value, budget: nat)
    requires v.Dict? && NestsWithin(TreeOf(v), budget - 1)
    ensures !DepthExceeds(v, budget)
    decreases v, 1
  {
    hide NestsWithin, PairNodes, PairExceeds;
    PartWithin(TreeOf(v), 0, budget - 1);
    DeepEnough(PairNodes(v.pairs), budget - 2);
    PairsTight(v.pairs, budget - DICT_COST);
  }

  lemma {:induction false} ClassTight(v: Value, budget: nat)
    requires v.Class? && NestsWithin(TreeOf(v), budget - 1)
    ensures !DepthExceeds(v, budget)
    decreases v, 1
  {
    hide NestsWithin, TypeNodes, PairsExceed;
    PartWithin(TreeOf(v), 0, budget - 1);
    TypeTight(v.t, budget - TYPE_COST);
  }

  lemma {:induction false} ItemsTight(v: Value, num: nat, items: seq<Value>, parts: seq<Node>, from: nat, n: int)
    requires (v.Sequence? && items == v.items) || (v.NamedTuple? && items == v.values)
    requires NestsWithin(parts, n) && from <= |parts| && parts[from..] == ItemNodes(num, items)
    ensures forall i | 0 <= i < |items| :: n >= 1 && !DepthExceeds(items[i], n)
    decreases v, 0
  {
    hide DepthExceeds, TreeOf, NestsWithin;
    forall i | 0 <= i < |items| ensures n >= 1 && !DepthExceeds(items[i], n) {
      ItemNodeAt(num, items, i);
      assert parts[from + i] == parts[from..][i];
      PartWithin(parts, from + i, n);
      DeepEnough(TreeOf(items[i]), n - 1);
      DepthTight(items[i], n);
    }
  }

  lemma DeepEnough(parts: seq<Node>, n: int)
    requires NestsWithin(parts, n)
    ensures n >= 1
  {
  }

  ghost predicate PairsFit(pairs: seq<Pair>, budget: int) {
    forall i | 0 <= i < |pairs| :: budget >= 2 && !PairExceeds(pairs[i], budget)
  }

  lemma {:induction false} PairsTight(pairs: seq<Pair>, budget: int)
    requires NestsWithin(PairNodes(pairs), budget + 1)
    ensures budget >= 0 && PairsFit(pairs, budget)
    decreases pairs, 1
  {
    DeepEnough(PairNodes(pairs), budget + 1);
    hide PairExceeds, PairNodes, PairNode, NestsWithin;
    forall i | 0 <= i < |pairs| ensures budget >= 2 && !PairExceeds(pairs[i], budget) {
      PairNodeAt(pairs, i);
      PairTight(pairs[i], PairNodes(pairs), i, budget);
    }
  }

  lemma {:induction false} PairTight(p: Pair, parts: seq<Node>, i: nat, budget: int)
    requires NestsWithin(parts, budget + 1) && i < |parts| && parts[i] == PairNode(p)
    ensures budget >= 2 && !PairExceeds(p, budget)
    decreases p, 3
  {
    hide DepthExceeds, TreeOf, NestsWithin;
    PartWithin(parts, i, budget + 1);
    PartWithin(PairNode(p).parts, 0, budget);
    PartWithin(PairNode(p).parts, 1, budget);
    DeepEnough(TreeOf(p.key), budget - 1);
    DepthTight(p.key, budget);
    DepthTight(p.value, budget);
  }

  lemma {:induction false} TypeTight(t: TypeInfo, budget: int)
    requires NestsWithin(TypeNodes(t), budget)
    ensures budget >= 0 && !ClassTypeExceeds(t, budget)
    decreases t, 0
  {
    DeepEnough(TypeNodes(t), budget);
    hide PairNodes, PairExceeds, NestsWithin;
    if t.attrs != [] {
      var last := |TypeNodes(t)| - 1;
      assert TypeNodes(t)[last] == Sub(5, PairNodes(t.attrs));
      PartWithin(TypeNodes(t), last, budget);
      PairsTight(t.attrs, budget - TYPE_ATTRS_COST);
    }
  }

  lemma {:induction false} InstanceTight(v: Value, budget: nat)
    requires v.Instance? && NestsWithin(TreeOf(v), budget - 1)
    ensures !DepthExceeds(v, budget)
    decreases v, 1
  {
    hide PairNodes, TypeNodes, UuidNode, PairExceeds, NestsWithin, ClassTypeExceeds;
    var parts := [Sub(1, TypeNodes(v.t)), UuidNode(v.id), Sub(3, PairNodes(v.attrs))];
    assert TreeOf(v)[0].parts == parts;
    PartWithin(TreeOf(v), 0, budget - 1);
    PartWithin(parts, 0, budget - 2);
    PartWithin(parts, 2, budget - 2);
    TypeTight(v.t, budget - CLASS_INSTANCE_TYPE_COST);
    PairsTight(v.attrs, budget - CLASS_INSTANCE_COST);
  }

  /** No value whose messages nest at most 96 deep is turned away. */
  lemma NeverTurnedAway(v: Value)
    requires NestsWithin(TreeOf(v), 96)
    ensures !ExceedsMaxDepth(v)
  {
    hide NestsWithin, TreeOf, DepthExceeds;
    DepthTight(v, 97);
  }

  /** Neither side can be improved: an empty dict is charged one message too many, None one too few. */
  lemma DepthSlack()
    ensures NestsWithin(TreeOf(Dict([])), 2) && DepthExceeds(Dict([]), 2)
    ensures !DepthExceeds(Null, 1) && !NestsWithin(TreeOf(Null), 1)
  {
    assert TreeOf(Dict([]))[0] == Sub(14, []);
    assert TreeOf(Null)[0] == Sub(2, []);
    assert NodeWithin(Sub(14, []), 1) && !NodeWithin(Sub(2, []), 0);
  }

  // ----- where the check does not look -----

  /** None inside n lists. */
  function Nested(n: nat): Value {
    if n == 0 then Null else Sequence(List, [Nested(n - 1)])
  }

  lemma {:induction false} NestedDepth(n: nat, k: int)
    ensures WellFormed(Nested(n))
    ensures NestsWithin(TreeOf(Nested(n)), k) ==> k > 2 * n
  {
    if n > 0 {
      var inner := Nested(n - 1);
      NestedDepth(n - 1, k - 2);
      assert Nested(n).items == [inner];
      var parts := ItemNodes(1, [inner]);
      assert parts[0] == Sub(1, TreeOf(inner));
      var node := TreeOf(Nested(n))[0];
      assert node.parts == parts;
      if NestsWithin(TreeOf(Nested(n)), k) {
        PartWithin(TreeOf(Nested(n)), 0, k);
        PartWithin(parts, 0, k - 1);
      }
    }
  }

  /** A builtin type that carries an attribute n lists deep. */
  function DeepBuiltin(n: nat): Value {
    Class(TypeInfo([], [], BUILTIN, false, [Pair(Null, Nested(n))]))
  }

  /** The check is right about a builtin type, for every budget, exactly when the type carries no attributes. */
  lemma BuiltinFitsExactly(t: TypeInfo)
    requires t.origin == BUILTIN
    ensures (forall budget: nat | !DepthExceeds(Class(t), budget) :: NestsWithin(TreeOf(Class(t)), budget + 1)) <==> t.attrs == []
  {
    if t.attrs == [] {
      forall budget: nat | !DepthExceeds(Class(t), budget) ensures NestsWithin(TreeOf(Class(t)), budget + 1) {
        DepthBounds(Class(t), budget);
      }
    } else {
      BuiltinTooDeep(t);
      hide NestsWithin, TreeOf;
      assert !DepthExceeds(Class(t), TYPE_COST);
    }
  }

  lemma BuiltinTooDeep(t: TypeInfo)
    requires t.attrs != []
    ensures !NestsWithin(TreeOf(Class(t)), TYPE_COST + 1)
  {
    var attrs := Sub(5, PairNodes(t.attrs));
    assert TypeNodes(t)[|TypeNodes(t)| - 1] == attrs;
    assert PairNodes(t.attrs)[0] == PairNode(t.attrs[0]);
    assert TreeOf(Class(t))[0].parts == TypeNodes(t);
    if NestsWithin(TreeOf(Class(t)), 3) {
      PartWithin(TreeOf(Class(t)), 0, 3);
      PartWithin(TypeNodes(t), |TypeNodes(t)| - 1, 2);
      PartWithin(PairNodes(t.attrs), 0, 1);
    }
  }

  lemma DeepWellFormed(p: Pair)
    requires p.key == Null && WellFormed(p.value)
    ensures WellFormed(Class(TypeInfo([], [], BUILTIN, false, [p])))
  {
    var t := TypeInfo([], [], BUILTIN, false, [p]);
    assert WellFormedPair(p);
    assert WellFormedPairs([p]);
    assert WellFormedType(t);
  }

  /**
    Why builtin types are left out above: the check looks at no attribute of
    theirs, so it accepts values nested deeper than any bound, the receiver's
    recursion limit included.
  */
  lemma BuiltinAttrsEscape(n: nat)
    ensures WellFormed(DeepBuiltin(n)) && !ExceedsMaxDepth(DeepBuiltin(n)) && !NestsWithin(TreeOf(DeepBuiltin(n)), n)
  {
    hide Nested;
    var p := Pair(Null, Nested(n));
    var t := TypeInfo([], [], BUILTIN, false, [p]);
    NestedDepth(n, n - 4);
    DeepWellFormed(p);
    var attrs := Sub(5, PairNodes([p]));
    assert TypeNodes(t)[|TypeNodes(t)| - 1] == attrs;
    assert PairNodes([p])[0] == PairNode(p) && PairNode(p).parts[1] == Sub(2, TreeOf(Nested(n)));
    var node := TreeOf(Class(t))[0];
    assert node.parts == TypeNodes(t);
    if NestsWithin(TreeOf(Class(t)), n) {
      PartWithin(TreeOf(Class(t)), 0, n);
      PartWithin(TypeNodes(t), |TypeNodes(t)| - 1, n - 1);
      PartWithin(PairNodes([p]), 0, n - 2);
      PartWithin(PairNode(p).parts, 1, n - 3);
    }
  }
}
