/**
 * config.go: the server's configuration, read from three environment
 * variables. An unset variable reads as "", as `os.Getenv` returns it.
 */
module Configuration {
  import opened GoStrings

  datatype Config = Config(port: string, staticFilesDir: string, languages: seq<string>)

  const DefaultPort: string := "8080"
  const DefaultStaticFilesDir: string := "static"

  /** `LoadConfig` with the values of PORT, STATIC_FILES_DIR and LANGUAGES. */
  function LoadConfig(portEnv: string, staticFilesDirEnv: string, languagesEnv: string): (c: Config)
    ensures c.port != "" && c.staticFilesDir != ""
    ensures portEnv != "" ==> c.port == portEnv
    ensures portEnv == "" ==> c.port == DefaultPort
    ensures staticFilesDirEnv != "" ==> c.staticFilesDir == staticFilesDirEnv
    ensures staticFilesDirEnv == "" ==> c.staticFilesDir == DefaultStaticFilesDir
    ensures |c.languages| >= 1
  {
    var port := if portEnv == "" then DefaultPort else portEnv;
    var staticFilesDir := if staticFilesDirEnv == "" then DefaultStaticFilesDir else staticFilesDirEnv;
    var languages := Split(languagesEnv, ',');
    var languages' := if |languages| == 0 then ["en"] else languages;
    Config(port, staticFilesDir, languages')
  }

  /**
   * The list of languages is LANGUAGES split on ",": joining it back gives
   * LANGUAGES, no entry holds a comma, and there is one entry more than there
   * are commas. So the `["en"]` fallback never applies.
   */
  lemma LanguagesAreSplit(portEnv: string, staticFilesDirEnv: string, languagesEnv: string)
    ensures Join(LoadConfig(portEnv, staticFilesDirEnv, languagesEnv).languages, ',') == languagesEnv
    ensures |LoadConfig(portEnv, staticFilesDirEnv, languagesEnv).languages| == Count(languagesEnv, ',') + 1
    ensures forall i :: 0 <= i < |LoadConfig(portEnv, staticFilesDirEnv, languagesEnv).languages| ==>
              ',' !in LoadConfig(portEnv, staticFilesDirEnv, languagesEnv).languages[i]
  {
    JoinSplit(languagesEnv, ',');
    SplitLength(languagesEnv, ',');
    SplitPiecesFree(languagesEnv, ',');
  }

  /** An unset LANGUAGES gives one empty entry, not the `["en"]` fallback. */
  lemma UnsetLanguagesGiveEmptyEntry(portEnv: string, staticFilesDirEnv: string)
    ensures LoadConfig(portEnv, staticFilesDirEnv, "").languages == [""]
  {
  }

  /** The list of languages is determined by LANGUAGES alone, and can be given as any comma-free list. */
  lemma LanguagesRoundTrip(portEnv: string, staticFilesDirEnv: string, langs: seq<string>)
    requires |langs| >= 1
    requires forall i :: 0 <= i < |langs| ==> ',' !in langs[i]
    ensures LoadConfig(portEnv, staticFilesDirEnv, Join(langs, ',')).languages == langs
  {
    SplitJoin(langs, ',');
  }
}
