/**
 * A watched scalar: one node's data mirrored locally as a typed value
 * (`WatchedInt`, `WatchedBoolean`). Node data is text: `Integer.toString`
 * for an int and `Boolean.toString` for a boolean, read back with
 * `Integer.parseInt` and `Boolean.parseBoolean`; a node without data holds
 * null.
 */
module WatchedNode {
  import opened Wrappers
  import opened JavaText
  import opened ZkPath
  import opened ZkStore

  function EncodeInt(v: int32): Bytes {
    StringToBytes(IntToString(v))
  }

  function DecodeInt(b: Bytes): Option<int32> {
    ParseInt(BytesToString(b))
  }

  function EncodeBool(v: bool): Bytes {
    StringToBytes(BooleanToString(v))
  }

  function DecodeBool(b: Bytes): Option<bool> {
    Some(ParseBoolean(BytesToString(b)))
  }

  lemma IntCodecRoundTrip(v: int32)
    ensures DecodeInt(EncodeInt(v)) == Some(v)
  {
    BytesRoundTrip(IntToString(v));
    ParseIntToString(v);
  }

  lemma BoolCodecRoundTrip(v: bool)
    ensures DecodeBool(EncodeBool(v)) == Some(v)
  {
    BytesRoundTrip(BooleanToString(v));
  }

  /** Every value survives being written and read back. */
  ghost predicate RoundTrips<T(!new)>(encode: T -> Bytes, decode: Bytes -> Option<T>) {
    forall x :: decode(encode(x)) == Some(x)
  }

  lemma IntCodecRoundTrips()
    ensures RoundTrips(EncodeInt, DecodeInt)
  {
    forall x: int32 ensures DecodeInt(EncodeInt(x)) == Some(x) {
      IntCodecRoundTrip(x);
    }
  }

  lemma BoolCodecRoundTrips()
    ensures RoundTrips(EncodeBool, DecodeBool)
  {
    forall x: bool ensures DecodeBool(EncodeBool(x)) == Some(x) {
      BoolCodecRoundTrip(x);
    }
  }

  /** The node data a value is written as; a null value is written as no data. */
  function EncodeData<T>(v: Option<T>, encode: T -> Bytes): Option<Bytes> {
    match v
    case None => None
    case Some(x) => Some(encode(x))
  }

  /** The value node data is read as; data that does not decode is an error. */
  function DecodeData<T>(data: Option<Bytes>, decode: Bytes -> Option<T>): Result<Option<T>, Fault> {
    match data
    case None => Success(None)
    case Some(b) =>
      match decode(b)
      case None => Failure(MalformedData)
      case Some(x) => Success(Some(x))
  }

  lemma DataRoundTrip<T(!new)>(v: Option<T>, encode: T -> Bytes, decode: Bytes -> Option<T>)
    requires RoundTrips(encode, decode)
    ensures DecodeData(EncodeData(v, encode), decode) == Success(v)
  {
  }

  /** The value a node holds in `nodes`: a missing node reads as null, not as an error. */
  function ReadValue<T>(nodes: Tree, path: Path, decode: Bytes -> Option<T>): Result<Option<T>, Fault> {
    if path !in nodes then Success(None) else DecodeData(nodes[path], decode)
  }

  /** The one-shot read `WatchedInt.get(zk, path)` / `WatchedBoolean.get(zk, path)`, which sets no watch. */
  method ReadScalar<T>(store: Store, path: Path, decode: Bytes -> Option<T>) returns (r: Result<Option<T>, Fault>)
    requires store.Valid()
    modifies store`failAfter
    ensures store.failAfter == Tick(old(store.failAfter))
    ensures r == if Lost(old(store.failAfter)) then Failure(ConnectionLoss) else ReadValue(store.nodes, path, decode)
  {
    var data := store.GetData(path);
    match data
    case Success(d) => r := DecodeData(d, decode);
    case Failure(f) => r := if f == NoNode then Success(None) else Failure(f);
  }

  /** Attaches a watched scalar to `path`, reading its current value first. */
  method OpenScalar<T(!new)>(store: Store, path: Path, encode: T -> Bytes, decode: Bytes -> Option<T>)
    returns (r: Result<WatchedScalar<T>, Fault>)
    requires store.Valid()
    modifies store`failAfter
    ensures store.failAfter == Tick(old(store.failAfter))
    ensures r.Success? <==> !Lost(old(store.failAfter)) && ReadValue(store.nodes, path, decode).Success?
    ensures r.Failure? ==> r.error == if Lost(old(store.failAfter)) then ConnectionLoss
                                     else ReadValue(store.nodes, path, decode).error
    ensures r.Success? ==> fresh(r.value) && r.value.store == store && r.value.nodePath == path
                           && r.value.encode == encode && r.value.decode == decode
                           && r.value.value == ReadValue(store.nodes, path, decode).value
  {
    var read := ReadScalar(store, path, decode);
    match read
    case Success(v) =>
      var s := new WatchedScalar(store, path, encode, decode, v);
      r := Success(s);
    case Failure(f) =>
      r := Failure(f);
  }

  class WatchedScalar<T(!new)> {
    const store: Store
    const nodePath: Path
    const encode: T -> Bytes
    const decode: Bytes -> Option<T>
    /** The most recently observed value (null when the node holds no data). */
    var value: Option<T>

    constructor (store: Store, nodePath: Path, encode: T -> Bytes, decode: Bytes -> Option<T>, value: Option<T>)
      ensures this.store == store && this.nodePath == nodePath && this.value == value
      ensures this.encode == encode && this.decode == decode
    {
      this.store := store;
      this.nodePath := nodePath;
      this.encode := encode;
      this.decode := decode;
      this.value := value;
    }

    /** The node's watch fired: read the node again and keep what was read. */
    method Refresh() returns (r: Outcome<Fault>)
      requires store.Valid()
      modifies this, store`failAfter
      ensures store.failAfter == Tick(old(store.failAfter))
      ensures Lost(old(store.failAfter)) ==> r == Fail(ConnectionLoss) && value == old(value)
      ensures !Lost(old(store.failAfter)) ==>
                match ReadValue(store.nodes, nodePath, decode)
                case Success(x) => r == Pass && value == x
                case Failure(f) => r == Fail(f) && value == old(value)
    {
      var read := ReadScalar(store, nodePath, decode);
      match read
      case Success(x) =>
        value := x;
        r := Pass;
      case Failure(f) =>
        r := Fail(f);
    }

    /**
     * `set(v)`: writes the encoded value to the node. On success the
     * notification for that write is delivered at once, so the cached value
     * becomes what a read of the node now gives back.
     */
    method Set(v: Option<T>) returns (r: Outcome<Fault>)
      requires store.Valid()
      requires RoundTrips(encode, decode)
      modifies this, store
      ensures store.Valid()
      ensures store.failAfter == Tick(old(store.failAfter))
      ensures r == Status(old(store.failAfter), SetFault(old(store.nodes), nodePath))
      ensures r.Pass? ==> store.nodes == old(store.nodes)[nodePath := EncodeData(v, encode)]
                          && store.log == old(store.log) + [DataSet(nodePath, EncodeData(v, encode))]
                          && value == v
                          && ReadValue(store.nodes, nodePath, decode) == Success(v)
      ensures r.Fail? ==> store.nodes == old(store.nodes) && store.log == old(store.log) && value == old(value)
    {
      var data := EncodeData(v, encode);
      r := store.SetData(nodePath, data);
      if r.Pass? {
        DataRoundTrip(v, encode, decode);
        value := v;
      }
    }
  }
}
