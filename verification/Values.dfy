/**
  The values that cross the worker boundary (internal/value), what makes one
  well formed, and the nesting check of internal/value/depth.go.
*/
module Values {
  import opened Prelude
  import opened ProtoWire
  import opened Records
  import opened Uuid

  datatype SequenceKind = List | Tuple | Set | FrozenSet

  /** Integers of every Go width and big integers are one kind; floats are their bit patterns. */
  datatype Value =
    | Ellipsis
    | Null
    | NotImplemented
    | Bool(b: bool)
    | Int(i: int)
    | Float(bits: nat)
    | Str(s: Bytes)
    | ByteString(s: Bytes)
    | Sequence(kind: SequenceKind, items: seq<Value>)
    | NamedTuple(typeName: Bytes, fieldNames: seq<Bytes>, values: seq<Value>)
    | Dict(pairs: seq<Pair>)
    | Plain(rec: Record)
    | Class(t: TypeInfo)
    | Instance(t: TypeInfo, id: Bytes, attrs: seq<Pair>)
    | BuiltinFunction(name: Bytes)
    | Path(p: Bytes)

  datatype Pair = Pair(key: Value, value: Value)

  datatype TypeInfo = TypeInfo(name: Bytes, id: Bytes, origin: nat, isDataclass: bool, attrs: seq<Pair>)

  const BUILTIN: nat := 1
  const SANDBOX: nat := 2
  const HOST: nat := 3

  predicate IsInt64(i: int) {
    -0x8000_0000_0000_0000 <= i < 0x8000_0000_0000_0000
  }

  // ----- well-formed values -----

  predicate WellFormed(v: Value) {
    match v
    case Float(bits) => bits < TWO64
    case Sequence(_, items) => forall i | 0 <= i < |items| :: WellFormed(items[i])
    case NamedTuple(_, _, values) => forall i | 0 <= i < |values| :: WellFormed(values[i])
    case Dict(pairs) => WellFormedPairs(pairs)
    case Plain(rec) => WellFormedRecord(rec)
    case Class(t) => WellFormedType(t)
    case Instance(t, id, attrs) => WellFormedType(t) && t.origin != BUILTIN && IsUUID(id) && WellFormedPairs(attrs)
    case _ => true
  }

  predicate WellFormedPair(p: Pair) {
    WellFormed(p.key) && WellFormed(p.value)
  }

  predicate WellFormedPairs(pairs: seq<Pair>) {
    forall i | 0 <= i < |pairs| :: WellFormedPair(pairs[i])
  }

  /** A builtin type has no id; a class of the sandbox or the host has one. */
  predicate WellFormedType(t: TypeInfo) {
    && BUILTIN <= t.origin <= HOST
    && (if t.origin == BUILTIN then t.id == [] else IsUUID(t.id))
    && WellFormedPairs(t.attrs)
  }

  /** Cycle markers are only ever received. */
  predicate CycleFree(v: Value) {
    match v
    case Sequence(_, items) => forall i | 0 <= i < |items| :: CycleFree(items[i])
    case NamedTuple(_, _, values) => forall i | 0 <= i < |values| :: CycleFree(values[i])
    case Dict(pairs) => CycleFreePairs(pairs)
    case Plain(rec) => !rec.Cycle?
    case Class(t) => CycleFreePairs(t.attrs)
    case Instance(t, _, attrs) => CycleFreePairs(t.attrs) && CycleFreePairs(attrs)
    case _ => true
  }

  predicate CycleFreePair(p: Pair) {
    CycleFree(p.key) && CycleFree(p.value)
  }

  predicate CycleFreePairs(pairs: seq<Pair>) {
    forall i | 0 <= i < |pairs| :: CycleFreePair(pairs[i])
  }

  /** No value sits more than room levels of decodeValue below this one. */
  predicate Shallow(v: Value, room: int) {
    room >= 0
    && match v
       case Sequence(_, items) => forall i | 0 <= i < |items| :: Shallow(items[i], room - 1)
       case NamedTuple(_, _, values) => forall i | 0 <= i < |values| :: Shallow(values[i], room - 1)
       case Dict(pairs) => ShallowPairs(pairs, room - 1)
       case Class(t) => ShallowPairs(t.attrs, room - 1)
       case Instance(t, _, attrs) => ShallowPairs(t.attrs, room - 2) && ShallowPairs(attrs, room - 1)
       case _ => true
  }

  predicate ShallowPair(p: Pair, room: int) {
    Shallow(p.key, room) && Shallow(p.value, room)
  }

  predicate ShallowPairs(pairs: seq<Pair>, room: int) {
    forall i | 0 <= i < |pairs| :: ShallowPair(pairs[i], room)
  }

  // ----- host memory -----

  const NODE_SIZE: nat := 88

  function Abs(i: int): nat {
    if i < 0 then -i else i
  }

  /** The budget a value takes: 88 bytes a node, and its string, bytes and big-integer payloads. */
  function Need(v: Value): (n: nat)
    ensures n >= NODE_SIZE
  {
    NODE_SIZE +
    match v
    case Int(i) => if IsInt64(i) then 0 else |BigBytes(Abs(i))|
    case Str(s) => |s|
    case ByteString(s) => |s|
    case Sequence(_, items) => NeedItems(items)
    case NamedTuple(_, _, values) => NeedItems(values)
    case Dict(pairs) => NeedPairs(pairs)
    case Class(t) => NeedPairs(t.attrs)
    case Instance(t, _, attrs) => NeedPairs(t.attrs) + NeedPairs(attrs)
    case _ => 0
  }

  function NeedItems(items: seq<Value>): nat {
    if items == [] then 0 else Need(items[0]) + NeedItems(items[1..])
  }

  function NeedPairs(pairs: seq<Pair>): nat {
    if pairs == [] then 0 else NeedPair(pairs[0]) + NeedPairs(pairs[1..])
  }

  function NeedPair(p: Pair): nat {
    Need(p.key) + Need(p.value)
  }

  lemma {:induction false} NeedItemsAppend(items: seq<Value>, v: Value)
    ensures NeedItems(items + [v]) == NeedItems(items) + Need(v)
  {
    if items == [] {
      assert (items + [v])[1..] == [];
    } else {
      NeedItemsAppend(items[1..], v);
      assert (items + [v])[1..] == items[1..] + [v];
    }
  }

  lemma {:induction false} NeedPairsAppend(pairs: seq<Pair>, p: Pair)
    ensures NeedPairs(pairs + [p]) == NeedPairs(pairs) + NeedPair(p)
  {
    if pairs == [] {
      assert (pairs + [p])[1..] == [];
    } else {
      NeedPairsAppend(pairs[1..], p);
      assert (pairs + [p])[1..] == pairs[1..] + [p];
    }
  }

  // ----- the nesting check -----

  const PROST_RECURSION_LIMIT: nat := 100
  const FRAME_WRAPPER_DEPTH: nat := 3
  const MAX_PROTO_VALUE_DEPTH: nat := PROST_RECURSION_LIMIT - FRAME_WRAPPER_DEPTH
  const LIST_COST: nat := 2
  const DICT_COST: nat := 3
  const CLASS_INSTANCE_COST: nat := 4
  const TYPE_COST: nat := 2
  const CLASS_INSTANCE_TYPE_COST: nat := 3
  const TYPE_ATTRS_COST: nat := 2

  predicate ExceedsMaxDepth(v: Value) {
    DepthExceeds(v, MAX_PROTO_VALUE_DEPTH)
  }

  predicate DepthExceeds(v: Value, budget: nat) {
    match v
    case Sequence(_, items) =>
      budget < LIST_COST || exists i | 0 <= i < |items| :: DepthExceeds(items[i], budget - LIST_COST)
    case NamedTuple(_, _, values) =>
      budget < LIST_COST || exists i | 0 <= i < |values| :: DepthExceeds(values[i], budget - LIST_COST)
    case Dict(pairs) => PairsExceed(pairs, budget, DICT_COST)
    case Instance(t, _, attrs) =>
      || budget < CLASS_INSTANCE_TYPE_COST
      || ClassTypeExceeds(t, budget - CLASS_INSTANCE_TYPE_COST)
      || PairsExceed(attrs, budget, CLASS_INSTANCE_COST)
    case Class(t) =>
      budget < TYPE_COST || (t.origin != BUILTIN && ClassTypeExceeds(t, budget - TYPE_COST))
    case _ => budget == 0
  }

  predicate PairExceeds(p: Pair, budget: nat) {
    DepthExceeds(p.key, budget) || DepthExceeds(p.value, budget)
  }

  predicate PairsExceed(pairs: seq<Pair>, budget: nat, cost: nat) {
    budget < cost || exists i | 0 <= i < |pairs| :: PairExceeds(pairs[i], budget - cost)
  }

  predicate ClassTypeExceeds(t: TypeInfo, budget: nat) {
    |t.attrs| > 0 && PairsExceed(t.attrs, budget, TYPE_ATTRS_COST)
  }

  /** No builtin type carries attributes: the check does not look into those. */
  predicate BareBuiltins(v: Value) {
    match v
    case Sequence(_, items) => forall i | 0 <= i < |items| :: BareBuiltins(items[i])
    case NamedTuple(_, _, values) => forall i | 0 <= i < |values| :: BareBuiltins(values[i])
    case Dict(pairs) => BareBuiltinsPairs(pairs)
    case Class(t) => (t.origin == BUILTIN ==> t.attrs == []) && BareBuiltinsPairs(t.attrs)
    case Instance(t, _, attrs) => BareBuiltinsPairs(t.attrs) && BareBuiltinsPairs(attrs)
    case _ => true
  }

  predicate BareBuiltinsPair(p: Pair) {
    BareBuiltins(p.key) && BareBuiltins(p.value)
  }

  predicate BareBuiltinsPairs(pairs: seq<Pair>) {
    forall i | 0 <= i < |pairs| :: BareBuiltinsPair(pairs[i])
  }

  /** A larger budget never turns an accepted value away. */
  lemma {:induction false} DepthMonotone(v: Value, small: nat, large: nat)
    requires small <= large
    requires !DepthExceeds(v, small)
    ensures !DepthExceeds(v, large)
  {
    match v
    case Sequence(_, items) =>
      forall i | 0 <= i < |items| ensures !DepthExceeds(items[i], large - LIST_COST) {
        DepthMonotone(items[i], small - LIST_COST, large - LIST_COST);
      }
    case NamedTuple(_, _, values) =>
      forall i | 0 <= i < |values| ensures !DepthExceeds(values[i], large - LIST_COST) {
        DepthMonotone(values[i], small - LIST_COST, large - LIST_COST);
      }
    case Dict(pairs) =>
      PairsMonotone(pairs, small, large, DICT_COST);
    case Instance(t, _, attrs) =>
      PairsMonotone(attrs, small, large, CLASS_INSTANCE_COST);
      if t.attrs != [] {
        PairsMonotone(t.attrs, small - CLASS_INSTANCE_TYPE_COST, large - CLASS_INSTANCE_TYPE_COST, TYPE_ATTRS_COST);
      }
    case Class(t) =>
      if t.origin != BUILTIN && t.attrs != [] {
        PairsMonotone(t.attrs, small - TYPE_COST, large - TYPE_COST, TYPE_ATTRS_COST);
      }
    case _ =>
  }

  lemma {:induction false} PairsMonotone(pairs: seq<Pair>, small: nat, large: nat, cost: nat)
    requires small <= large
    requires !PairsExceed(pairs, small, cost)
    ensures !PairsExceed(pairs, large, cost)
  {
    forall i | 0 <= i < |pairs| ensures !PairExceeds(pairs[i], large - cost) {
      PairMonotone(pairs[i], small - cost, large - cost);
    }
  }

  lemma {:induction false} PairMonotone(p: Pair, small: nat, large: nat)
    requires small <= large
    requires !PairExceeds(p, small)
    ensures !PairExceeds(p, large)
  {
    DepthMonotone(p.key, small, large);
    DepthMonotone(p.value, small, large);
  }
}
