/** The three languages docugen handles, chosen by file suffix. Every
    component (extractor, parser, validator, injector) dispatches the same
    way: the suffix is lower-cased and compared with `.sql`, `.py` and `.r`. */
module FileTypes {
  import opened Results
  import opened Text

  datatype Language = Sql | Python | R

  /** The suffix each language is recognised by, in lower case. */
  function SuffixOf(lang: Language): string {
    match lang
    case Sql => ".sql"
    case Python => ".py"
    case R => ".r"
  }

  /** The language of a file from its suffix (`Path.suffix`), ignoring case;
      `None` for every other suffix. */
  function LanguageOf(suffix: string): (r: Option<Language>)
    ensures r.Some? <==> Lower(suffix) in {".sql", ".py", ".r"}
    ensures r.Some? ==> SuffixOf(r.value) == Lower(suffix)
  {
    var s := Lower(suffix);
    if s == ".sql" then Some(Sql)
    else if s == ".py" then Some(Python)
    else if s == ".r" then Some(R)
    else None
  }

  /** Each language is recognised by its own suffix, in any letter case. */
  lemma LanguageOfSuffix(lang: Language, suffix: string)
    requires Lower(suffix) == SuffixOf(lang)
    ensures LanguageOf(suffix) == Some(lang)
  {
  }

  /** The message every component reports for a suffix it does not handle. */
  function UnsupportedMessage(suffix: string): string {
    "Unsupported file type: " + Lower(suffix)
  }
}
