/** What becomes of one SQL write; the caller cannot tell the last two apart. */
module Writes {
  datatype Write = Stored | Refused | StoredThenRaised
}
