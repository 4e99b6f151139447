/** The CLI's command dispatch (cli/src/command.rs): the typed input line is
    parsed into an SDK command, and a poll command additionally takes an
    output format from the text after its last `'|'`. The command parser and
    the handlers that talk to the server are not part of this model: the
    parse outcome is an input, and dispatch yields what would be handed on. */
module CliCommand {
  import Errors
  import Text

  /** How polled message payloads are printed. */
  datatype Format = None | Binary | String

  /** `#[default]` of `Format`. */
  const DEFAULT_FORMAT: Format := None

  datatype ClientError = InvalidCommand

  /** A parsed SDK command, split into the one case `handle` looks inside
      and all the others. */
  datatype Command<Poll, Other> = PollMessages(payload: Poll) | OtherCommand(command: Other)

  /** What `handle` passes on to a handler. */
  datatype Dispatch<Poll, Other> =
    | PollMessagesWithFormat(payload: Poll, format: Format)
    | Forward(command: Other)

  /** The format named by one token; matching is exact and case-sensitive. */
  function FormatOfToken(token: string): (f: Format)
    ensures f == Binary <==> token == "b" || token == "binary"
    ensures f == String <==> token == "s" || token == "string"
  {
    if token == "b" || token == "binary" then Binary
    else if token == "s" || token == "string" then String
    else None
  }

  /** The output format of a poll command line: the token after the last
      `'|'`, or the whole line when there is none. */
  function PollFormat(input: string): Format
  {
    FormatOfToken(Text.Last(Text.Split(input, '|')))
  }

  /** `handle` without the network: a line the command parser rejects
      becomes `InvalidCommand` whatever the parser's own error was; a poll
      command is wrapped with its format; every other command is passed on. */
  function Handle<Poll, Other, E>(input: string, parsed: Errors.Result<Command<Poll, Other>, E>): (r: Errors.Result<Dispatch<Poll, Other>, ClientError>)
    ensures parsed.Err? <==> r == Errors.Err(InvalidCommand)
    ensures parsed.Ok? && parsed.value.PollMessages? ==>
              r == Errors.Ok(PollMessagesWithFormat(parsed.value.payload, PollFormat(input)))
    ensures parsed.Ok? && parsed.value.OtherCommand? ==> r == Errors.Ok(Forward(parsed.value.command))
  {
    match parsed
    case Err(_) => Errors.Err(InvalidCommand)
    case Ok(PollMessages(payload)) => Errors.Ok(PollMessagesWithFormat(payload, PollFormat(input)))
    case Ok(OtherCommand(command)) => Errors.Ok(Forward(command))
  }

  /** The poll format is decided by the final segment of the line alone:
      the part after the last `'|'` (which holds no `'|'`), or the whole
      line when it has no `'|'`. */
  lemma PollFormatOfFinalSegment(input: string, k: nat)
    requires k <= |input| && '|' !in input[k..]
    requires k == 0 || input[k - 1] == '|'
    ensures PollFormat(input) == FormatOfToken(input[k..])
  {
    Text.LastPartIsFinalSegment(input, '|');
  }

  /** A line without `'|'` is used whole as the format token. */
  lemma PollFormatWithoutSeparator(input: string)
    requires '|' !in input
    ensures PollFormat(input) == FormatOfToken(input)
  {
    Text.SplitSingleIff(input, '|');
  }

  /** Which final segments select which format. */
  lemma PollFormatCases(prefix: string, token: string)
    requires '|' !in token
    ensures PollFormat(prefix + "|" + token) == Binary <==> token == "b" || token == "binary"
    ensures PollFormat(prefix + "|" + token) == String <==> token == "s" || token == "string"
    ensures PollFormat(prefix + "|" + token) == None <==>
              token != "b" && token != "binary" && token != "s" && token != "string"
  {
    var input := prefix + "|" + token;
    assert input[|prefix| + 1..] == token;
    PollFormatOfFinalSegment(input, |prefix| + 1);
  }
}
