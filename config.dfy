/**
 * The per-language configuration table and the choice of a language for an
 * extracted text. Each supported language has its three rubric section
 * names, in the order the parser tries them, and the title of the rendered
 * document.
 */
module Config {
  import opened Common
  import opened Text

  datatype LanguageConfig = LanguageConfig(sections: seq<string>, pdfTitle: string)

  const English := LanguageConfig(
    ["Missing Articles/Clauses", "Problem Description", "Recommendation"],
    "Contract Analysis")

  const French := LanguageConfig(
    ["Articles/Clauses Manquantes", "Description du problème", "Recommandation"],
    "Analyse du Contrat")

  const Arabic := LanguageConfig(
    ["المواد و البنود المفقودة", "وصف المشكلة", "التوصية"],
    "تحليل العقد")

  /** The table of supported languages, keyed by language code. */
  const LanguageConfigs: map<string, LanguageConfig> :=
    map["en" := English, "fr" := French, "ar" := Arabic]

  /** The code used when detection fails or finds an unsupported language. */
  const DefaultLanguage := "en"

  /** The one right-to-left language. */
  predicate IsArabic(language: string) {
    language == "ar"
  }

  /**
   * Chooses the language of an extracted text from the classifier's answer:
   * `None` when the classifier raised, otherwise the code it detected. The
   * result is always a key of the table; an unsupported code or a failure
   * falls back to English, and a supported code is kept.
   */
  function DetectLanguage(detected: Option<string>): (language: string)
    ensures language in LanguageConfigs
    ensures detected.Some? && detected.value in LanguageConfigs ==> language == detected.value
    ensures !(detected.Some? && detected.value in LanguageConfigs) ==> language == DefaultLanguage
  {
    match detected
    case None => DefaultLanguage
    case Some(code) => if code !in LanguageConfigs then DefaultLanguage else code
  }

  /** Every language has three section names, none of them blank at either
      end, and each is strictly longer than every name declared after it. */
  ghost predicate WellFormedSections(sections: seq<string>) {
    && |sections| == 3
    && (forall k :: 0 <= k < |sections| ==>
          sections[k] != [] && !IsSpace(sections[k][0]) && !IsSpace(sections[k][|sections[k]| - 1]))
    && (forall j, k :: 0 <= j < k < |sections| ==> |sections[j]| > |sections[k]| + 1)
  }

  /** The configured vocabularies are well formed: an earlier name is always
      more than one character longer than a later one. */
  lemma ConfigsWellFormed(language: string)
    requires language in LanguageConfigs
    ensures WellFormedSections(LanguageConfigs[language].sections)
  {
    if language == "en" {
      NamesWellFormed(English.sections);
    } else if language == "fr" {
      NamesWellFormed(French.sections);
    } else {
      NamesWellFormed(Arabic.sections);
    }
  }

  /** ASCII and Arabic-block letters; none of them is whitespace. */
  predicate IsLetter(c: char) {
    ('A' <= c <= 'Z') || ('a' <= c <= 'z') || ('\U{0621}' <= c <= '\U{064A}')
  }

  lemma NamesWellFormed(sections: seq<string>)
    requires |sections| == 3
    requires forall k :: 0 <= k < 3 ==> sections[k] != []
    requires forall k :: 0 <= k < 3 ==> IsLetter(sections[k][0]) && IsLetter(sections[k][|sections[k]| - 1])
    requires |sections[0]| > |sections[1]| + 1 && |sections[1]| > |sections[2]| + 1
    ensures WellFormedSections(sections)
  {
  }
}
