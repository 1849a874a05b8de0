/** Reading a dictionary-encoded column of an IPC record batch
    (`io::ipc::read::array::dictionary`): the field's dictionary id is
    resolved against the dictionaries read so far, then the keys are read
    as a primitive array from the two queues of field nodes and buffer
    descriptors. Skipping the column consumes the queues in the same way. */
module IpcDictionary {
  import opened Common

  // ---------------------------------------------------------------------
  // The decode queues

  /** A field node: an array's length and null count. */
  datatype Node = Node(length: nat, nullCount: nat)

  /** A buffer descriptor: where one buffer lies in the message body. */
  datatype BufferSpec = BufferSpec(offset: nat, length: nat)

  /** The `VecDeque`s of field nodes and buffer descriptors that decoding
      pops from the front. */
  class Queues {
    var fieldNodes: seq<Node>
    var buffers: seq<BufferSpec>

    constructor (fieldNodes: seq<Node>, buffers: seq<BufferSpec>)
      ensures this.fieldNodes == fieldNodes && this.buffers == buffers
    {
      this.fieldNodes := fieldNodes;
      this.buffers := buffers;
    }

    /** `field_nodes.pop_front().unwrap()`. */
    method PopNode() returns (n: Node)
      requires |fieldNodes| >= 1
      modifies this
      ensures [n] + fieldNodes == old(fieldNodes) && buffers == old(buffers)
    {
      n := fieldNodes[0];
      fieldNodes := fieldNodes[1..];
    }

    /** `buffers.pop_front().unwrap()`. */
    method PopBuffer() returns (b: BufferSpec)
      requires |buffers| >= 1
      modifies this
      ensures [b] + buffers == old(buffers) && fieldNodes == old(fieldNodes)
    {
      b := buffers[0];
      buffers := buffers[1..];
    }
  }

  /** What a primitive column takes from the queues: one field node, then
      two buffer descriptors (validity and values). */
  const PRIMITIVE_NODES: nat := 1
  const PRIMITIVE_BUFFERS: nat := 2

  predicate HasPrimitive(fieldNodes: seq<Node>, buffers: seq<BufferSpec>)
  {
    |fieldNodes| >= PRIMITIVE_NODES && |buffers| >= PRIMITIVE_BUFFERS
  }

  // ---------------------------------------------------------------------
  // Primitive columns

  /** A decoded primitive array of dictionary keys. */
  datatype KeyArray = KeyArray(keyType: IntegerType, values: seq<int>, validity: Option<seq<bool>>)

  /** How the bytes of a primitive column become an array: the reader, the
      block offset, the byte order and the body compression are folded into
      this function, which sees the key type, the node and the validity and
      values buffer descriptors and may fail (a short read, a failed
      decompression). */
  type Decoder = (IntegerType, Node, BufferSpec, BufferSpec) -> Result<KeyArray>

  /** `read_primitive`: pops the node and both buffer descriptors, then
      decodes them. */
  method ReadPrimitive(q: Queues, keyType: IntegerType, decode: Decoder) returns (r: Result<KeyArray>)
    requires HasPrimitive(q.fieldNodes, q.buffers)
    modifies q
    ensures q.fieldNodes == old(q.fieldNodes)[PRIMITIVE_NODES..]
    ensures q.buffers == old(q.buffers)[PRIMITIVE_BUFFERS..]
    ensures r == decode(keyType, old(q.fieldNodes)[0], old(q.buffers)[0], old(q.buffers)[1])
  {
    var node := q.PopNode();
    var validity := q.PopBuffer();
    var values := q.PopBuffer();
    r := decode(keyType, node, validity, values);
  }

  /** `skip_primitive`: pops the node and both buffer descriptors. */
  method SkipPrimitive(q: Queues)
    requires HasPrimitive(q.fieldNodes, q.buffers)
    modifies q
    ensures q.fieldNodes == old(q.fieldNodes)[PRIMITIVE_NODES..]
    ensures q.buffers == old(q.buffers)[PRIMITIVE_BUFFERS..]
  {
    var _ := q.PopNode();
    var _ := q.PopBuffer();
    var _ := q.PopBuffer();
  }

  // ---------------------------------------------------------------------
  // Dictionary resolution

  /** `dict_id as usize` for an `i64` id on a 64-bit target: a negative id
      wraps around. */
  function AsUsize(id: int): (u: nat)
    requires -I64_MAX - 1 <= id <= I64_MAX
    ensures id >= 0 ==> u == id
    ensures id < 0 ==> u == id + USIZE_MODULUS && u > I64_MAX
  {
    if id < 0 then id + USIZE_MODULUS else id
  }

  /** The lookup of `read_dictionary`: the registered array, or an error
      naming the id and every registered id. */
  function Resolve<V>(id: nat, dictionaries: map<nat, V>): (r: Result<V>)
    ensures r.Ok? <==> id in dictionaries
    ensures r.Ok? ==> r.value == dictionaries[id]
    ensures r.Err? ==> r.error == IpcDictionaryNotFound(id, dictionaries.Keys) && id !in r.error.validIds
  {
    if id in dictionaries then Ok(dictionaries[id]) else Err(IpcDictionaryNotFound(id, dictionaries.Keys))
  }

  /** Resolving an id right after registering an array under it gives that
      array, and registering leaves every other id's resolution as it was. */
  lemma ResolveAfterRegister<V>(dictionaries: map<nat, V>, id: nat, values: V, other: nat)
    requires other != id
    ensures Resolve(id, dictionaries[id := values]) == Ok(values)
    ensures Resolve(other, dictionaries[id := values]).Ok? <==> Resolve(other, dictionaries).Ok?
    ensures Resolve(other, dictionaries).Ok? ==>
      Resolve(other, dictionaries[id := values]) == Resolve(other, dictionaries)
  {
  }

  /** A frozen dictionary array: keys into the shared values. */
  datatype DictionaryArray<V> = DictionaryArray(keys: KeyArray, values: V)

  /** `read_dictionary`: an unknown id fails before the queues are
      touched; otherwise the keys are read as a primitive array of the key
      type, any error of that read is returned, and the array pairs the keys
      with the registered values. */
  method ReadDictionary<V>(q: Queues, dictId: Option<int>, keyType: IntegerType,
                           dictionaries: map<nat, V>, decode: Decoder)
    returns (r: Result<DictionaryArray<V>>)
    requires dictId.Some? && -I64_MAX - 1 <= dictId.value <= I64_MAX
    requires AsUsize(dictId.value) in dictionaries ==> HasPrimitive(q.fieldNodes, q.buffers)
    modifies q
    ensures var id := AsUsize(dictId.value);
      id !in dictionaries ==>
        && r == Err(IpcDictionaryNotFound(id, dictionaries.Keys))
        && q.fieldNodes == old(q.fieldNodes) && q.buffers == old(q.buffers)
    ensures var id := AsUsize(dictId.value);
      id in dictionaries ==>
        && q.fieldNodes == old(q.fieldNodes)[PRIMITIVE_NODES..]
        && q.buffers == old(q.buffers)[PRIMITIVE_BUFFERS..]
        && var keys := decode(keyType, old(q.fieldNodes)[0], old(q.buffers)[0], old(q.buffers)[1]);
           && (keys.Err? ==> r == Err(keys.error))
           && (keys.Ok? ==> r == Ok(DictionaryArray(keys.value, dictionaries[id])))
  {
    var id := AsUsize(dictId.value);
    var values := Resolve(id, dictionaries);
    if values.Err? {
      return Err(values.error);
    }
    var keys := ReadPrimitive(q, keyType, decode);
    if keys.Err? {
      return Err(keys.error);
    }
    r := Ok(DictionaryArray(keys.value, values.value));
  }

  /** `skip_dictionary`: what `skip_primitive` consumes, which is also what
      a successful `read_dictionary` consumes. */
  method SkipDictionary(q: Queues)
    requires HasPrimitive(q.fieldNodes, q.buffers)
    modifies q
    ensures q.fieldNodes == old(q.fieldNodes)[PRIMITIVE_NODES..]
    ensures q.buffers == old(q.buffers)[PRIMITIVE_BUFFERS..]
  {
    SkipPrimitive(q);
  }

  /** Reading and skipping a dictionary column of a batch leave the queues
      in the same state, so the columns after it are found at the same
      place whether or not it is projected. */
  method ReadSkipParity<V>(fieldNodes: seq<Node>, buffers: seq<BufferSpec>, dictId: int, keyType: IntegerType,
                           dictionaries: map<nat, V>, decode: Decoder)
    returns (readRest: (seq<Node>, seq<BufferSpec>), skipRest: (seq<Node>, seq<BufferSpec>))
    requires HasPrimitive(fieldNodes, buffers)
    requires -I64_MAX - 1 <= dictId <= I64_MAX && AsUsize(dictId) in dictionaries
    ensures readRest == skipRest
    ensures |readRest.0| == |fieldNodes| - PRIMITIVE_NODES && |readRest.1| == |buffers| - PRIMITIVE_BUFFERS
  {
    var reading := new Queues(fieldNodes, buffers);
    var _ := ReadDictionary(reading, Some(dictId), keyType, dictionaries, decode);
    var skipping := new Queues(fieldNodes, buffers);
    SkipDictionary(skipping);
    readRest := (reading.fieldNodes, reading.buffers);
    skipRest := (skipping.fieldNodes, skipping.buffers);
  }

  /** Id `3` against dictionaries `0` and `1` fails with both ids listed,
      and the column's node and buffers stay queued. */
  method UnknownIdExample() returns (r: Result<DictionaryArray<string>>, nodesLeft: seq<Node>, buffersLeft: seq<BufferSpec>)
    ensures r == Err(IpcDictionaryNotFound(3, {0, 1}))
    ensures nodesLeft == [Node(2, 0)] && buffersLeft == [BufferSpec(0, 0), BufferSpec(0, 8)]
  {
    var q := new Queues([Node(2, 0)], [BufferSpec(0, 0), BufferSpec(0, 8)]);
    var dictionaries := map[0 := "a", 1 := "b"];
    assert dictionaries.Keys == {0, 1};
    r := ReadDictionary(q, Some(3), Int32, dictionaries, (t, n, v, b) => Err(Ipc("unused")));
    nodesLeft, buffersLeft := q.fieldNodes, q.buffers;
  }
}
