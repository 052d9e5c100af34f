/** The small part of Python's run-time behaviour the modelled handlers rely on. */
module Python {
  import opened Wrappers

  /**
   * The exceptions the handlers can raise and do not catch. Each of them
   * propagates to the caller of the handler; none is turned into a return value.
   */
  datatype Exception =
    | AttributeError      // attribute access on None (`None.text`, `None.get`)
    | TypeError           // slicing None, searching None, subscripting a non-container
    | IndexError          // `[][0]`, `""[0]`
    | KeyError            // a dictionary lookup of a key it does not hold
    | UnicodeDecodeError  // a response body that is not UTF-8
    | ParseError          // a response body that is not well-formed XML

  /** What the f-string `f"{v}"` prints for a value that is a `str` or `None`. */
  function FormatValue(v: Option<string>): string
  {
    match v
    case None => "None"
    case Some(s) => s
  }
}
