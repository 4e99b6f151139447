/** The `GetStream` command payload of the SDK (iggy/src/streams/get_stream.rs):
    a single stream identifier. The identifier's own text and byte formats
    are not part of this model, so the payload is generic over the
    identifier type and takes its four conversions as an `IdentifierCodec`. */
module GetStreamCommand {
  import opened Errors
  import Text
  import Utf8

  /** `Identifier::as_bytes`, `Identifier::from_bytes`, `Display` and
      `FromStr` of the identifier type `Id`. */
  datatype IdentifierCodec<!Id> = IdentifierCodec(
    asBytes: Id -> seq<Utf8.byte>,
    fromBytes: seq<Utf8.byte> -> Result<Id, Error>,
    display: Id -> string,
    parse: string -> Result<Id, Error>)

  datatype GetStream<Id> = GetStream(streamId: Id)

  /** `Validatable::validate`: every stream identifier is accepted. */
  function Validate<Id>(command: GetStream<Id>): (r: Result<(), Error>)
    ensures r == Ok(())
  {
    Ok(())
  }

  /** `FromStr::from_str`: exactly one `'|'`-part, parsed as an identifier;
      an identifier parse error is passed on unchanged. */
  function FromStr<Id>(codec: IdentifierCodec<Id>, input: string): (r: Result<GetStream<Id>, Error>)
    ensures '|' in input ==> r == Err(InvalidCommand)
    ensures '|' !in input ==>
              match codec.parse(input)
              case Ok(id) => r == Ok(GetStream(id))
              case Err(e) => r == Err(e)
  {
    Text.SplitSingleIff(input, '|');
    var parts := Text.Split(input, '|');
    if |parts| != 1 then Err(InvalidCommand)
    else
      match codec.parse(parts[0])
      case Err(e) => Err(e)
      case Ok(id) =>
        var command := GetStream(id);
        match Validate(command)
        case Err(e) => Err(e)
        case Ok(_) => Ok(command)
  }

  /** `BytesSerializable::as_bytes`: the identifier's own bytes, nothing added. */
  function AsBytes<Id>(codec: IdentifierCodec<Id>, command: GetStream<Id>): seq<Utf8.byte>
  {
    codec.asBytes(command.streamId)
  }

  /** `BytesSerializable::from_bytes`: fewer than 3 bytes is `InvalidCommand`
      without consulting the identifier; otherwise the identifier decoder
      decides, and its error is passed on unchanged. */
  function FromBytes<Id>(codec: IdentifierCodec<Id>, bytes: seq<Utf8.byte>): (r: Result<GetStream<Id>, Error>)
    ensures |bytes| < 3 ==> r == Err(InvalidCommand)
    ensures |bytes| >= 3 ==>
              match codec.fromBytes(bytes)
              case Ok(id) => r == Ok(GetStream(id))
              case Err(e) => r == Err(e)
  {
    if |bytes| < 3 then Err(InvalidCommand)
    else
      match codec.fromBytes(bytes)
      case Err(e) => Err(e)
      case Ok(id) =>
        var command := GetStream(id);
        match Validate(command)
        case Err(e) => Err(e)
        case Ok(_) => Ok(command)
  }

  /** `Display::fmt`: the identifier's text. */
  function Display<Id>(codec: IdentifierCodec<Id>, command: GetStream<Id>): string
  {
    codec.display(command.streamId)
  }

  /** Round trip through the wire bytes, for an identifier whose own byte
      round trip holds and whose encoding is at least 3 bytes long. */
  lemma BytesRoundTrip<Id>(codec: IdentifierCodec<Id>, command: GetStream<Id>)
    requires codec.fromBytes(codec.asBytes(command.streamId)) == Ok(command.streamId)
    requires |codec.asBytes(command.streamId)| >= 3
    ensures FromBytes(codec, AsBytes(codec, command)) == Ok(command)
  {
  }

  /** An identifier encoding shorter than 3 bytes cannot be read back, even
      when the identifier's own decoder would accept it. */
  lemma ShortEncodingIsRejected<Id>(codec: IdentifierCodec<Id>, command: GetStream<Id>)
    requires |codec.asBytes(command.streamId)| < 3
    ensures FromBytes(codec, AsBytes(codec, command)) == Err(InvalidCommand)
  {
  }

  /** Round trip through the text form, for an identifier whose text has no
      `'|'` and parses back to it. */
  lemma DisplayRoundTrip<Id>(codec: IdentifierCodec<Id>, command: GetStream<Id>)
    requires codec.parse(codec.display(command.streamId)) == Ok(command.streamId)
    requires '|' !in codec.display(command.streamId)
    ensures FromStr(codec, Display(codec, command)) == Ok(command)
  {
  }
}
