/** The exceptions the modelled code can raise, as values. */
module Errors {
  datatype Error =
    | InvalidRuleset(id: int)        // ArgumentException from the ruleset resolver
    | FileNotFound(path: string)     // FileNotFoundException on a read of a missing file
    | DirectoryNotFound(path: string) // DirectoryNotFoundException on a missing directory
    | BadDateFormat(text: string)    // FormatException from DateTime.ParseExact
    | MissingRow(table: string)      // a row the header builder dereferences was not found
    | TooLong(what: string)          // a string or array whose length a 32-bit prefix cannot hold
}
