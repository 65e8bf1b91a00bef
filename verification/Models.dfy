/** The rows of the two tables and the conversions that produce them (src/models.rs). */
module Models {
  import opened MachineInts
  import opened Wrappers

  /** Object ids and account addresses are the same 32 bytes; here they are read as a number. */
  type Address = nat

  newtype byte = b: int | 0 <= b < 256
  type Contents = seq<byte>

  datatype ObjectType = Basic | Nft

  datatype Data =
    | Move(moduleName: string, structName: string, contents: Contents)
    | Package

  /** A ledger object as a checkpoint delivers it. */
  datatype Object = Object(id: Address, shared: bool, data: Data)

  datatype StoredObject = StoredObject(id: Address, objectType: ObjectType, contents: Contents)

  datatype Expiration = Expiration(owner: Address, returnAddress: Address, unixTime: u32)

  /** What the indexer reads of a decoded basic or NFT output. */
  datatype Output = Output(id: Address, balance: u64, expiration: Option<Expiration>)

  /** The two BCS decoders, about which nothing is assumed. */
  datatype Codec = Codec(basic: Contents -> Option<Output>, nft: Contents -> Option<Output>)

  datatype ExpirationRow = ExpirationRow(
    owner: Address,
    returnAddress: Address,
    unixTime: i64,
    objectId: Address)

  datatype IndexError =
    | NotShared
    | NotMove
    | NotEligible
    | WrongType
    | Undecodable
    | NoExpiration
    | ForeignKeyViolation
    | InvalidTransaction
    | DatabaseUnavailable

  /** Only the module and the struct name decide; the package that defines the struct does not. */
  function Classify(data: Data): (r: Result<ObjectType, IndexError>)
    ensures r == Success(Nft) <==> data.Move? && data.moduleName == "nft_output" && data.structName == "NftOutput"
    ensures r == Success(Basic) <==> data.Move? && data.moduleName == "basic_output" && data.structName == "BasicOutput"
  {
    match data
    case Package => Failure(NotMove)
    case Move(m, s, _) =>
      if m == "nft_output" && s == "NftOutput" then Success(Nft)
      else if m == "basic_output" && s == "BasicOutput" then Success(Basic)
      else Failure(NotEligible)
  }

  /** The row a ledger object is meant to be stored as. It is shared, and its Move type is one of the two
      pairs of module and struct name, which gives the type of the row. */
  predicate StoredAs(o: Object, s: StoredObject) {
    && o.shared && o.data.Move?
    && s.id == o.id && s.contents == o.data.contents
    && (s.objectType == Nft <==> o.data.moduleName == "nft_output" && o.data.structName == "NftOutput")
    && (s.objectType == Basic <==> o.data.moduleName == "basic_output" && o.data.structName == "BasicOutput")
  }

  function ToStored(o: Object): (r: Result<StoredObject, IndexError>)
    ensures forall s :: r == Success(s) <==> StoredAs(o, s)
  {
    if !o.shared then Failure(NotShared)
    else
      var objectType :- Classify(o.data);
      Success(StoredObject(o.id, objectType, o.data.contents))
  }

  function Decode(codec: Codec, objectType: ObjectType, contents: Contents): Option<Output> {
    match objectType
    case Basic => codec.basic(contents)
    case Nft => codec.nft(contents)
  }

  /** The conversion of a stored row into the output of one expected type. */
  function DecodeAs(codec: Codec, expected: ObjectType, o: StoredObject): Result<Output, IndexError> {
    if o.objectType != expected then Failure(WrongType)
    else
      match Decode(codec, expected, o.contents)
      case None => Failure(Undecodable)
      case Some(output) => Success(output)
  }

  function OutputToRow(output: Output): Result<ExpirationRow, IndexError> {
    match output.expiration
    case None => Failure(NoExpiration)
    case Some(e) => Success(ExpirationRow(e.owner, e.returnAddress, e.unixTime, output.id))
  }

  /** The decoder of the row's own type reads its contents as `output`. */
  predicate DecodesTo(codec: Codec, o: StoredObject, output: Output) {
    || (o.objectType == Basic && codec.basic(o.contents) == Some(output))
    || (o.objectType == Nft && codec.nft(o.contents) == Some(output))
  }

  lemma DecodeAsIff(codec: Codec, expected: ObjectType, o: StoredObject, output: Output)
    ensures DecodeAs(codec, expected, o) == Success(output)
       <==> o.objectType == expected && DecodesTo(codec, o, output)
  {
  }

  /** The terms of the output's expiration, and the output's own id. */
  predicate IsRowOf(row: ExpirationRow, output: Output) {
    && output.expiration.Some?
    && row.owner == output.expiration.value.owner
    && row.returnAddress == output.expiration.value.returnAddress
    && row.unixTime == output.expiration.value.unixTime
    && row.objectId == output.id
  }

  ghost predicate HasRow(codec: Codec, o: StoredObject) {
    exists output :: DecodesTo(codec, o, output) && output.expiration.Some?
  }

  /** The derived row of a stored object. Seconds come from a u32, so milliseconds fit an i64. */
  function ToExpiration(codec: Codec, o: StoredObject): (r: Result<ExpirationRow, IndexError>)
    ensures r.Success? ==> 0 <= r.value.unixTime * 1000 < TWO_TO_THE_63
  {
    var output :- DecodeAs(codec, o.objectType, o);
    OutputToRow(output)
  }

  /** The derived row is that of the output the contents decode to, and fails to exist for one of two
      reasons: they do not decode, or the output has no expiration. */
  lemma ToExpirationIff(codec: Codec, o: StoredObject, row: ExpirationRow)
    ensures ToExpiration(codec, o) == Success(row)
       <==> exists output :: DecodesTo(codec, o, output) && IsRowOf(row, output)
    ensures ToExpiration(codec, o).Success? <==> HasRow(codec, o)
    ensures ToExpiration(codec, o) == Failure(Undecodable) <==> forall output :: !DecodesTo(codec, o, output)
    ensures ToExpiration(codec, o) == Failure(NoExpiration)
       <==> exists output :: DecodesTo(codec, o, output) && output.expiration.None?
  {
    var decoded := Decode(codec, o.objectType, o.contents);
    if decoded.Some? {
      assert DecodesTo(codec, o, decoded.value);
    }
  }
}
