/**
 * The boundary to the Accept-Language parser (section 12.5.4 of RFC 9110,
 * tags as in BCP 47). The parser itself is a library; what the server sees
 * of it is either an error or the list of tags it returned, each rendered
 * as a string. Both revisions of `getLanguage` consume it the same way.
 */
module AcceptLanguage {
  import opened GoStrings

  datatype ParseResult = ParseError | Parsed(tags: seq<string>)

  /**
   * What `getLanguage` ends in: a language code, or the run-time panic that
   * slicing `[0:2]` raises on a tag shorter than two characters.
   */
  datatype Selection = Chosen(lang: string) | SliceOutOfRange

  /** The language both revisions fall back to. */
  const Default: string := "en"

  /** The lower-cased first two characters of a tag: the language candidate. */
  function PrimaryPrefix(tag: string): (code: string)
    requires |tag| >= 2
    ensures |code| == 2
    ensures code[0] == LowerAscii(tag[0]) && code[1] == LowerAscii(tag[1])
    ensures !IsUpperAscii(code[0]) && !IsUpperAscii(code[1])
  {
    ToLower(tag[..2])
  }

  /** True when the header is consulted at all: it is set and parsed into at least one tag. */
  predicate HasFirstTag(header: string, parse: ParseResult) {
    header != "" && parse.Parsed? && |parse.tags| > 0
  }
}
