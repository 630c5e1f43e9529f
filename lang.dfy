/**
 * lang.go: the language choice whose whitelist is the list of translation
 * files in static/lang. The directory listing is passed in as the names
 * of its entries, in the order the listing gives them.
 */
module Languages {
  import opened GoStrings
  import opened AcceptLanguage
  import QrServer

  const JsonExtension: string := ".json"

  /** The supported languages: every entry name with one trailing ".json" removed, in listing order. */
  function SupportedLanguages(entries: seq<string>): (names: seq<string>)
    ensures |names| == |entries|
    ensures forall i :: 0 <= i < |entries| ==> names[i] == TrimSuffix(entries[i], JsonExtension)
  {
    if entries == [] then [] else [TrimSuffix(entries[0], JsonExtension)] + SupportedLanguages(entries[1..])
  }

  /** `getSupportedLanguages`: fills a slice of the listing's length, one name per entry. */
  method GetSupportedLanguages(entries: seq<string>) returns (names: seq<string>)
    ensures names == SupportedLanguages(entries)
  {
    var fileNames := new string[|entries|];
    for i := 0 to |entries|
      invariant forall k :: 0 <= k < i ==> fileNames[k] == TrimSuffix(entries[k], JsonExtension)
    {
      fileNames[i] := TrimSuffix(entries[i], JsonExtension);
    }
    names := fileNames[..];
  }

  /** `isLanguageSupported`: scans the supported list and stops at the first match. */
  method IsLanguageSupported(lang: string, entries: seq<string>) returns (supported: bool)
    ensures supported <==> lang in SupportedLanguages(entries)
  {
    var names := GetSupportedLanguages(entries);
    for i := 0 to |names|
      invariant forall k :: 0 <= k < i ==> names[k] != lang
    {
      if lang == names[i] {
        return true;
      }
    }
    return false;
  }

  /** The value `validateLanguage` gives: `lang` when supported, "en" otherwise. */
  function Validated(lang: string, supported: seq<string>): string {
    if lang in supported then lang else Default
  }

  /** The result of validation is always a supported language or "en". */
  lemma ValidatedIsAllowed(lang: string, supported: seq<string>)
    ensures Validated(lang, supported) in supported || Validated(lang, supported) == Default
    ensures Validated(lang, supported) == lang <==> lang in supported || lang == Default
  {
  }

  /** Validating twice is validating once: "en" stays "en" whether or not it is listed. */
  lemma ValidatedIdempotent(lang: string, supported: seq<string>)
    ensures Validated(Validated(lang, supported), supported) == Validated(lang, supported)
  {
  }

  /** `validateLanguage`. */
  method ValidateLanguage(lang: string, entries: seq<string>) returns (r: string)
    ensures r == Validated(lang, SupportedLanguages(entries))
  {
    var supported := IsLanguageSupported(lang, entries);
    if supported {
      r := lang;
    } else {
      r := Default;
    }
  }

  /** The language lang.go's `getLanguage` chooses against a list of supported languages. */
  function SelectedLanguage(header: string, parse: ParseResult, supported: seq<string>): Selection {
    if header == "" then Chosen(Default)
    else if parse.ParseError? || |parse.tags| == 0 then Chosen(Default)
    else if |parse.tags[0]| < 2 then SliceOutOfRange
    else Chosen(Validated(PrimaryPrefix(parse.tags[0]), supported))
  }

  /**
   * What lang.go's `getLanguage` promises: "en" when the header is absent or
   * yields no tag, a panic only on a first tag shorter than two characters,
   * and otherwise a supported language or "en"; a supported prefix of the
   * first tag is always chosen.
   */
  lemma SelectedLanguageOutcomes(header: string, parse: ParseResult, supported: seq<string>)
    ensures !HasFirstTag(header, parse) ==> SelectedLanguage(header, parse, supported) == Chosen(Default)
    ensures SelectedLanguage(header, parse, supported).SliceOutOfRange? <==>
              HasFirstTag(header, parse) && |parse.tags[0]| < 2
    ensures SelectedLanguage(header, parse, supported).Chosen? ==>
              SelectedLanguage(header, parse, supported).lang in supported ||
              SelectedLanguage(header, parse, supported).lang == Default
    ensures HasFirstTag(header, parse) && |parse.tags[0]| >= 2 && PrimaryPrefix(parse.tags[0]) in supported ==>
              SelectedLanguage(header, parse, supported) == Chosen(PrimaryPrefix(parse.tags[0]))
  {
  }

  /** `getLanguage` of lang.go, with the listing of static/lang as `entries`. */
  method GetLanguage(header: string, parse: ParseResult, entries: seq<string>) returns (sel: Selection)
    ensures sel == SelectedLanguage(header, parse, SupportedLanguages(entries))
  {
    if header == "" {
      return Chosen(Default);
    }
    if parse.ParseError? || |parse.tags| == 0 {
      return Chosen(Default);
    }
    if |parse.tags[0]| < 2 {
      return SliceOutOfRange;
    }
    var lang := PrimaryPrefix(parse.tags[0]);
    var validated := ValidateLanguage(lang, entries);
    return Chosen(validated);
  }

  /** A listing with en.json, es.json, fr.json and de.json supports exactly main.go's whitelist. */
  lemma FourFileListing()
    ensures SupportedLanguages(["en.json", "es.json", "fr.json", "de.json"]) == ["en", "es", "fr", "de"]
  {
    var entries := ["en.json", "es.json", "fr.json", "de.json"];
    var codes := ["en", "es", "fr", "de"];
    forall i | 0 <= i < 4
      ensures TrimSuffix(entries[i], JsonExtension) == codes[i]
    {
      assert entries[i] == codes[i] + JsonExtension;
      TrimSuffixOfAppended(codes[i], JsonExtension);
    }
    var names := SupportedLanguages(entries);
    assert |names| == 4;
    assert forall i | 0 <= i < 4 :: names[i] == codes[i];
  }

  /**
   * The two revisions agree: main.go's hard-coded whitelist chooses what
   * lang.go chooses when static/lang holds the four matching files.
   */
  lemma RevisionsAgree(header: string, parse: ParseResult)
    ensures QrServer.GetLanguage(header, parse) ==
            SelectedLanguage(header, parse, SupportedLanguages(["en.json", "es.json", "fr.json", "de.json"]))
  {
    FourFileListing();
  }
}
