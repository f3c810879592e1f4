/** The exceptions the restorer raises, as values. */
module Errors {

  datatype Error =
    /** `restore_text` was asked for a language outside `SUPPORTED_LANGS`. */
    | UnsupportedLanguage(lang: string)
    /** `restore_diacritics_tokens` was asked for a language with no lexicon. */
    | LanguageNotLoaded(lang: string)
    /** `_load_language` found `MAX_CONCURRENT_LOADS` loads in progress. */
    | TooManyLoads
    /** `_load_language` found no lexicon file at `path`. */
    | ModelNotFound(path: string)
    /** A lexicon entry with an empty candidate dictionary was looked up;
        Python fails on it with IndexError (`sorted(...)[0]`) or with
        ValueError (`max` of an empty dictionary). */
    | NoCandidates
}
