/**
 * main.go: the language choice with its hard-coded whitelist, and the
 * naming of the QR-code image that `generateQRCode` writes and links to.
 */
module QrServer {
  import opened Options
  import opened GoStrings
  import opened GoFormat
  import opened AcceptLanguage

  /** The whitelist of main.go's `getLanguage`. */
  predicate IsHardCoded(lang: string) {
    lang == "en" || lang == "es" || lang == "fr" || lang == "de"
  }

  /**
   * `getLanguage` of main.go. `header` is the Accept-Language header ("" when
   * absent) and `parse` what the parser returned for it.
   */
  function GetLanguage(header: string, parse: ParseResult): (sel: Selection)
    ensures sel.Chosen? ==> sel.lang in {"en", "es", "fr", "de"}
    ensures !HasFirstTag(header, parse) ==> sel == Chosen(Default)
    ensures sel.SliceOutOfRange? <==> HasFirstTag(header, parse) && |parse.tags[0]| < 2
    ensures sel.Chosen? && sel.lang != Default ==>
              HasFirstTag(header, parse) && |parse.tags[0]| >= 2 && sel.lang == PrimaryPrefix(parse.tags[0])
    ensures HasFirstTag(header, parse) && |parse.tags[0]| >= 2 && IsHardCoded(PrimaryPrefix(parse.tags[0])) ==>
              sel == Chosen(PrimaryPrefix(parse.tags[0]))
  {
    if header == "" then Chosen("en")
    else if parse.ParseError? || |parse.tags| == 0 then Chosen("en")
    else if |parse.tags[0]| < 2 then SliceOutOfRange
    else
      var lang := PrimaryPrefix(parse.tags[0]);
      if lang != "en" && lang != "es" && lang != "fr" && lang != "de" then Chosen("en")
      else Chosen(lang)
  }

  /** The undetermined tag "und" and a three-letter tag are cut to two letters before the whitelist. */
  lemma GetLanguageTruncatesTags()
    ensures GetLanguage("und", Parsed(["und"])) == Chosen("en")
    ensures GetLanguage("frr", Parsed(["frr"])) == Chosen("fr")
    ensures GetLanguage("es-MX", Parsed(["es-MX", "en"])) == Chosen("es")
  {
    assert PrimaryPrefix("und") == "un" by { assert "und"[..2] == "un"; }
    assert PrimaryPrefix("frr") == "fr" by { assert "frr"[..2] == "fr"; }
    assert PrimaryPrefix("es-MX") == "es" by { assert "es-MX"[..2] == "es"; }
  }

  /** `time.Now().UnixNano()` is a signed 64-bit count of nanoseconds. */
  newtype int64 = x: int | -0x8000_0000_0000_0000 <= x < 0x8000_0000_0000_0000

  /** The directory the image is written to and the URL prefix it is served under. */
  const ImageDir: string := "static/img"
  const ImageUrlPrefix: string := "/static/img/"
  const PngExtension: string := ".png"

  /** A single path element that `path.Clean` leaves alone: non-empty, no '/', not "." or "..". */
  predicate IsCleanElement(name: string) {
    name != "" && '/' !in name && name != "." && name != ".."
  }

  /** A relative directory `path.Clean` leaves alone: one or more clean elements separated by single '/'. */
  predicate IsCleanRelativeDir(dir: string) {
    forall i :: 0 <= i < |Split(dir, '/')| ==> IsCleanElement(Split(dir, '/')[i])
  }

  /** The image directory is such a directory: "static" and "img". */
  lemma ImageDirIsClean()
    ensures IsCleanRelativeDir(ImageDir)
  {
    assert ImageDir == Join(["static", "img"], '/');
    SplitJoin(["static", "img"], '/');
  }

  /**
   * `path.Join(dir, elem)` in the one case the server reaches: a clean
   * relative directory and a single clean element, which are joined by "/".
   */
  function JoinPath(dir: string, elem: string): (p: string)
    requires IsCleanRelativeDir(dir)
    requires IsCleanElement(elem)
    ensures |p| == |dir| + 1 + |elem| && p[|dir|] == '/'
    ensures p[..|dir|] == dir && p[|dir| + 1..] == elem
  {
    dir + "/" + elem
  }

  /** `fmt.Sprintf("%d.png", now)`: the image's file name. */
  function FileName(now: int64): (name: string)
    ensures HasSuffix(name, PngExtension)
    ensures IsCleanElement(name)
  {
    var digits := FormatInt(now as int);
    assert '/' !in digits by {
      forall i | 0 <= i < |digits| ensures digits[i] != '/' { }
    }
    digits + PngExtension
  }

  /** `path.Join("static/img", fileName)`: where the image is created. */
  function FilePath(now: int64): (p: string)
    ensures |p| > |ImageDir| + 1 && p[..|ImageDir| + 1] == ImageDir + "/"
    ensures p[|ImageDir| + 1..] == FileName(now)
    ensures HasSuffix(p, PngExtension)
  {
    ImageDirIsClean();
    JoinPath(ImageDir, FileName(now))
  }

  /** `fmt.Sprintf("/static/img/%s", fileName)`: the URL that is returned. */
  function ImageUrl(now: int64): (url: string)
    ensures url == "/" + FilePath(now)
  {
    var name := FileName(now);
    assert ImageUrlPrefix == "/" + ImageDir + "/";
    assert ImageUrlPrefix + name == "/" + (ImageDir + "/" + name);
    ImageUrlPrefix + name
  }

  /** Reads the timestamp back out of a file name: the digits before ".png". */
  function ParseFileName(name: string): Option<int> {
    if HasSuffix(name, PngExtension) then ParseInt(name[..|name| - |PngExtension|]) else None
  }

  /** Reads the timestamp back out of a returned URL. */
  function ParseImageUrl(url: string): Option<int> {
    if |ImageUrlPrefix| <= |url| && url[..|ImageUrlPrefix|] == ImageUrlPrefix
    then ParseFileName(url[|ImageUrlPrefix|..])
    else None
  }

  /** The timestamp can be recovered from the file name. */
  lemma ParseFileNameRoundTrip(now: int64)
    ensures ParseFileName(FileName(now)) == Some(now as int)
  {
    var digits := FormatInt(now as int);
    TrimSuffixOfAppended(digits, PngExtension);
    ParseFormatInt(now as int);
  }

  /** The timestamp can be recovered from the URL. */
  lemma ParseImageUrlRoundTrip(now: int64)
    ensures ParseImageUrl(ImageUrl(now)) == Some(now as int)
  {
    var url := ImageUrl(now);
    assert url[..|ImageUrlPrefix|] == ImageUrlPrefix;
    assert url[|ImageUrlPrefix|..] == FileName(now);
    ParseFileNameRoundTrip(now);
  }

  /** Distinct timestamps give distinct names, paths and URLs: the uniqueness the server relies on. */
  lemma NamesInjective(a: int64, b: int64)
    ensures FileName(a) == FileName(b) <==> a == b
    ensures FilePath(a) == FilePath(b) <==> a == b
    ensures ImageUrl(a) == ImageUrl(b) <==> a == b
  {
    ParseFileNameRoundTrip(a);
    ParseFileNameRoundTrip(b);
    if FilePath(a) == FilePath(b) {
      assert FileName(a) == FilePath(a)[|ImageDir| + 1..];
    }
    if ImageUrl(a) == ImageUrl(b) {
      ParseImageUrlRoundTrip(a);
      ParseImageUrlRoundTrip(b);
    }
  }

  /** The steps of `generateQRCode` that can fail, in the order they run. */
  datatype Step = NewQrCode | CreateFile | EncodePng

  /** Whether `qrcode.New`, `os.Create` and `png.Encode` succeed on this call. */
  datatype StepResults = StepResults(newOk: bool, createOk: bool, encodeOk: bool)

  /** How `generateQRCode` ends: with the URL, or with `log.Fatal` at a step. */
  datatype Ending = Returned(url: string) | Fatal(step: Step)

  /**
   * The effect of one call: the file it created (if any) and how it ended.
   * `log.Fatal` exits the process without running deferred calls, so a
   * file created before a failed encode stays on disk.
   */
  datatype Generation = Generation(created: Option<string>, ending: Ending)

  /** `generateQRCode` at time `now` with the given step outcomes. */
  function GenerateQRCode(now: int64, steps: StepResults): (g: Generation)
    ensures g.ending.Returned? <==> steps.newOk && steps.createOk && steps.encodeOk
    ensures g.ending.Returned? ==> g.created.Some? && g.ending.url == "/" + g.created.value
    ensures g.created.Some? <==> steps.newOk && steps.createOk
    ensures g.created.Some? ==> g.created.value == FilePath(now)
    ensures !steps.newOk ==> g.ending == Fatal(NewQrCode)
    ensures steps.newOk && !steps.createOk ==> g.ending == Fatal(CreateFile)
    ensures steps.newOk && steps.createOk && !steps.encodeOk ==> g.ending == Fatal(EncodePng)
  {
    if !steps.newOk then Generation(None, Fatal(NewQrCode))
    else if !steps.createOk then Generation(None, Fatal(CreateFile))
    else if !steps.encodeOk then Generation(Some(FilePath(now)), Fatal(EncodePng))
    else Generation(Some(FilePath(now)), Returned(ImageUrl(now)))
  }

  /** Two successful calls at different times create different files and return different URLs. */
  lemma GenerationsDistinct(a: int64, b: int64, sa: StepResults, sb: StepResults)
    requires GenerateQRCode(a, sa).ending.Returned? && GenerateQRCode(b, sb).ending.Returned?
    requires a != b
    ensures GenerateQRCode(a, sa).created != GenerateQRCode(b, sb).created
    ensures GenerateQRCode(a, sa).ending.url != GenerateQRCode(b, sb).ending.url
  {
    NamesInjective(a, b);
  }

  /** A returned URL names the time it was generated at. */
  lemma GeneratedUrlNamesTime(now: int64, steps: StepResults)
    requires GenerateQRCode(now, steps).ending.Returned?
    ensures ParseImageUrl(GenerateQRCode(now, steps).ending.url) == Some(now as int)
  {
    ParseImageUrlRoundTrip(now);
  }
}
