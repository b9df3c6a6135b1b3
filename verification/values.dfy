/**
 * The values the csveach render loop passes around: output bytes, the
 * outcomes of reading the CSV input, the context a template is executed
 * against, the command-line options the loop consults, and exit statuses.
 */
module Values {

  /** One byte of output. */
  newtype Byte = b: int | 0 <= b < 256

  /** The delimiter written after a record when --new-line is set. */
  const Newline: Byte := 10
  /** The delimiter written after a record when --zero is set. */
  const Nul: Byte := 0

  /**
   * What one call of the CSV reader gives: a record (its fields in order),
   * end of input, or any other read error (a malformed record).
   */
  datatype ReadResult = Record(fields: seq<string>) | EndOfFile | ReadError

  /**
   * The context a template is executed against, with the names a template
   * refers to: `.N` the ordinal of the record, `.Name` the header-name to
   * field mapping, `.Index` the fields of the record.
   */
  datatype TemplateData = TemplateData(N: int, Name: map<string, string>, Index: seq<string>)

  /** The options of the loop: --no-header, --new-line and --zero. */
  datatype Config = Config(noHeader: bool, newLine: bool, zeroDelim: bool)

  /** How a run ends. */
  datatype ExitStatus = Success | TemplateParseError | HeaderReadError | RowReadError
  {
    /** The process exit code of each way a run can end. */
    function Code(): int
    {
      match this
      case Success => 0
      case TemplateParseError => 4
      case HeaderReadError => 6
      case RowReadError => 7
    }
  }

  /** Everything a run writes to its output, and how it ends. */
  datatype Outcome = Outcome(output: seq<Byte>, status: ExitStatus)

  function Min(a: int, b: int): int
  {
    if a < b then a else b
  }
}
