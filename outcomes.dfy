/** Option/Result wrappers and the exceptions the aggregator sorts into log buckets. */
module Outcomes {

  datatype Option<+T> = None | Some(value: T)

  datatype Result<+T, +E> = Ok(value: T) | Err(error: E)

  /** The outcome of a step that produces no value: it returned, or it raised. */
  datatype Outcome = Done | Raised(error: Error)

  /** The ComicsError family (comics.core.exceptions and comics.aggregator.exceptions). */
  datatype ComicsErrorKind =
    | NotHistoryCapable
    | OutsideHistoryCapabilityRange
    | StripAlreadyExists(slug: string)
    | StripURLNotFound(slug: string)
    | ComicNotFound(slug: string)
    | InvalidDateRange

  /** Built-in Python exceptions the core can raise that are neither ComicsError nor IOError. */
  datatype Fault =
    | TypeError            // e.g. comparing a date with None, `x in None`, dt.date() with too few fields
    | ValueError           // strptime/strftime/dt.date() rejecting a value
    | IndexError           // indexing past the end of a list
    | AttributeError       // `.groups()` on a failed regex match
    | UnicodeDecodeError   // unicode(bytes, encoding) failing
    | NotImplementedError  // the base crawl() hook
    | OverflowError        // date arithmetic past date.max
    | ImportError          // no crawler module for a slug
    | MultipleObjectsReturned

  datatype Error =
    | ComicsError(kind: ComicsErrorKind)
    | IOError
    | OtherError(fault: Fault)

  /** Log severities used by the aggregator's try-wrappers. */
  datatype Level = Info | Warning | Exception

  /** The except-ladder of the try-wrappers: ComicsError first, then IOError, then anything. */
  function LevelOf(e: Error): (l: Level)
    ensures l == Info <==> e.ComicsError?
    ensures l == Warning <==> e.IOError?
    ensures l == Exception <==> e.OtherError?
  {
    match e
    case ComicsError(_) => Info
    case IOError => Warning
    case OtherError(_) => Exception
  }

  /** An exception that a try-wrapper caught and logged. */
  datatype Absorbed = Absorbed(level: Level, error: Error)

  function Absorb(e: Error): Absorbed
  {
    Absorbed(LevelOf(e), e)
  }
}
