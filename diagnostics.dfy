/** The diagnostic bag, as far as the collectors use it: an ordered list of
    diagnostics that reports only ever append to. */
module Diagnostics {
  import opened Scanning

  /** The diagnostic kinds the modelled code reports. */
  datatype DiagnosticCode = TwoLabelsWithTheSameName

  /** A code, the source range it points at, and its formatting arguments. */
  datatype Diagnostic = Diagnostic(code: DiagnosticCode, range: TextRange, args: seq<string>)

  class DiagnosticBag {
    /** The diagnostics reported so far, in arrival order. */
    var contents: seq<Diagnostic>

    constructor ()
      ensures contents == []
    {
      contents := [];
    }

    /** Reports a label defined a second time, at the later label token. */
    method ReportTwoLabelsWithTheSameName(range: TextRange, labelName: string)
      modifies this
      ensures contents == old(contents) + [Diagnostic(TwoLabelsWithTheSameName, range, [labelName])]
    {
      contents := contents + [Diagnostic(TwoLabelsWithTheSameName, range, [labelName])];
    }
  }
}
