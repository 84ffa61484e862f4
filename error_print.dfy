/** `pretty_print_error`, which every exception handler of the service uses to build the text
    of its `{"error": ...}` record. */
module ErrorPrint {
  import opened Values

  /** The error text for a message. The escape-sequence decoding and the wrapping of each
      line to 100 columns are text layout and are not modelled: the text is kept as is. */
  function PrettyPrintError(message: string): string {
    message
  }

  /** The text Python gives a `KeyError` for a missing key: the key in single quotes. */
  function KeyErrorText(key: string): (t: string)
    ensures |t| == |key| + 2 && t[0] == '\'' && t[|t| - 1] == '\'' && t[1..|t| - 1] == key
  {
    "'" + key + "'"
  }

  /** What a handler hands to `pretty_print_error`: a string, or an exception object. */
  datatype ErrorArg = Message(text: string) | ExceptionObject(text: string)

  /** `pretty_print_error` as written. `error_message.encode(...)` fails on an exception
      object, and that failure is caught; `unescaped_message.splitlines()` then fails on the
      same object and nothing catches it, so the call raises (`None` here). */
  function PrettyPrintErrorAsWritten(arg: ErrorArg): (r: Option<string>)
    ensures r.Some? <==> arg.Message?
    ensures arg.Message? ==> r == Some(PrettyPrintError(arg.text))
  {
    match arg
    case Message(text) => Some(PrettyPrintError(text))
    case ExceptionObject(_) => None
  }

  /** Every handler of the form `except Exception as e: return {"error": str(pretty_print_error(e))}`
      passes the exception object itself, so, as written, the handler raises instead of
      returning its error record, whatever the exception. With `str(e)` passed instead it
      returns the record. */
  lemma HandlerRaisesAsWritten(text: string)
    ensures PrettyPrintErrorAsWritten(ExceptionObject(text)).None?
    ensures PrettyPrintErrorAsWritten(Message(text)) == Some(PrettyPrintError(text))
  {
  }
}
