/** The `GetSnapshot` command payload of the SDK
    (iggy/src/system/get_snapshot.rs): one text field, the location where the
    server should save the snapshot, parsed from `|`-separated CLI text and
    carried on the wire as its UTF-8 bytes. */
module GetSnapshotCommand {
  import opened Errors
  import Text
  import Utf8

  datatype GetSnapshot = GetSnapshot(fileSaveLocation: string)

  /** `Validatable::validate`: every location is accepted. */
  function Validate(command: GetSnapshot): (r: Result<(), Error>)
    ensures r == Ok(())
  {
    Ok(())
  }

  /** `FromStr::from_str`: the input must split on `'|'` into exactly one
      part, which becomes the location unchanged. */
  function FromStr(input: string): (r: Result<GetSnapshot, Error>)
    ensures r.Err? <==> '|' in input
    ensures r.Err? ==> r.error == InvalidCommand
    ensures r.Ok? ==> r.value.fileSaveLocation == input
  {
    Text.SplitSingleIff(input, '|');
    var parts := Text.Split(input, '|');
    if |parts| != 1 then Err(InvalidCommand)
    else
      var command := GetSnapshot(parts[0]);
      match Validate(command)
      case Err(e) => Err(e)
      case Ok(_) => Ok(command)
  }

  /** `BytesSerializable::as_bytes`: the UTF-8 bytes of the location. */
  function AsBytes(command: GetSnapshot): seq<Utf8.byte>
  {
    Utf8.Encode(command.fileSaveLocation)
  }

  /** `BytesSerializable::from_bytes`: the bytes must be well-formed UTF-8;
      the decoded text becomes the location. */
  function FromBytes(bytes: seq<Utf8.byte>): (r: Result<GetSnapshot, Error>)
    ensures r.Err? <==> Utf8.Decode(bytes).None?
    ensures r.Err? ==> r.error == InvalidUtf8
    ensures r.Ok? ==> r.value.fileSaveLocation == Utf8.Decode(bytes).value
  {
    match Utf8.Decode(bytes)
    case None => Err(InvalidUtf8)
    case Some(location) =>
      var command := GetSnapshot(location);
      match Validate(command)
      case Err(e) => Err(e)
      case Ok(_) => Ok(command)
  }

  /** `Display::fmt`: the location as it is. */
  function Display(command: GetSnapshot): string
  {
    command.fileSaveLocation
  }

  /** Every command survives a trip through its wire bytes. */
  lemma BytesRoundTrip(command: GetSnapshot)
    ensures FromBytes(AsBytes(command)) == Ok(command)
  {
    Utf8.DecodeEncode(command.fileSaveLocation);
  }

  /** Every byte sequence `from_bytes` accepts is the encoding of the command
      it returns, so decoding loses nothing. */
  lemma FromBytesThenAsBytes(bytes: seq<Utf8.byte>)
    requires FromBytes(bytes).Ok?
    ensures AsBytes(FromBytes(bytes).value) == bytes
  {
    Utf8.EncodeDecode(bytes);
  }

  /** `from_bytes` fails exactly on bytes that encode no string at all. */
  lemma FromBytesFailsIffNotUtf8(bytes: seq<Utf8.byte>)
    ensures FromBytes(bytes).Err? <==> forall s: string :: Utf8.Encode(s) != bytes
  {
    Utf8.DecodeFailsIffNotEncoding(bytes);
  }

  /** Printing a command and parsing the text gives it back, provided the
      location has no `'|'`; a location with one cannot be read back. */
  lemma DisplayRoundTrip(command: GetSnapshot)
    ensures FromStr(Display(command)).Ok? <==> '|' !in command.fileSaveLocation
    ensures '|' !in command.fileSaveLocation ==> FromStr(Display(command)) == Ok(command)
  {
  }
}
