/** The lexicon cache of `SmartCachingRestorer` (fast_redi.py): loading a
    language's lexicon under a cap on simultaneous loads, counting the
    requests that use it, and evicting idle languages.

    Every operation is one atomic step (the source serialises them with its
    locks). Time is the integer `now` passed in; the model directory is an
    oracle `files` mapping each existing lexicon file's path to its contents.

    Each operation is a pure transition on `CacheState`, about which the
    lemmas speak, and a method of the class `SmartCachingRestorer`, whose
    fields the method updates in place and whose contract ties the new
    state to the transition of the old one. */
module Cache {
  import opened Wrappers
  import opened Errors
  import opened Text
  import opened Conllu
  import opened Restoration

  const SUPPORTED_LANGS: seq<string> := ["hr", "sl", "sr"]
  /** Seconds of inactivity after which a language may be unloaded. */
  const UNLOAD_TIMEOUT: int := 30
  const MAX_CONCURRENT_LOADS: nat := 2

  /** The lexicon files in the model directory: path to contents. */
  type ModelFiles = map<string, Lexicon>

  /** The external tokenizer: `(text, lang)` to CoNLL-U text. */
  type Tokenizer = (string, string) -> string

  /** `os.path.join(dir, name)` for a relative `name`. */
  function JoinPath(dir: string, name: string): string {
    if dir == [] || dir[|dir| - 1] == '/' then dir + name else dir + "/" + name
  }

  /** The lexicon file of `lang`: `wikitweetweb.<lang>.tm` in the model directory. */
  function LexiconPath(modelDir: string, lang: string): string {
    JoinPath(modelDir, "wikitweetweb." + lang + ".tm")
  }

  /** Different languages never share a lexicon file. */
  lemma LexiconPathInjective(modelDir: string, a: string, b: string)
    requires LexiconPath(modelDir, a) == LexiconPath(modelDir, b)
    ensures a == b
  {
    var prefix := if modelDir == [] || modelDir[|modelDir| - 1] == '/' then modelDir else modelDir + "/";
    var pa := prefix + "wikitweetweb." + a + ".tm";
    var pb := prefix + "wikitweetweb." + b + ".tm";
    assert LexiconPath(modelDir, a) == pa && LexiconPath(modelDir, b) == pb;
    var n := |prefix| + 13;
    assert |a| == |b|;
    assert a == pa[n..n + |a|];
    assert b == pb[n..n + |b|];
  }

  /** The four fields the source updates in place. `requestCount` is a
      `defaultdict(int)`: a missing key reads as 0. */
  datatype CacheState = CacheState(
    lexicons: map<string, Lexicon>,
    lastUsed: map<string, int>,
    requestCount: map<string, nat>,
    loading: set<string>)

  /** A state change together with what the operation returned or raised. */
  datatype Transition<R> = Transition(state: CacheState, result: R)

  /** `self._request_count[lang]`. */
  function RequestCount(s: CacheState, lang: string): nat {
    if lang in s.requestCount then s.requestCount[lang] else 0
  }

  /** The cache invariant: every loaded language has a last-use time (so the
      cleanup, which walks `_last_used`, sees it), and no more loads are in
      progress than the cap allows. */
  predicate Consistent(s: CacheState) {
    s.lexicons.Keys <= s.lastUsed.Keys && |s.loading| <= MAX_CONCURRENT_LOADS
  }

  // -----------------------------------------------------------------------
  // _load_language
  // -----------------------------------------------------------------------

  /** `_load_language`: a no-op for a loaded language; fails without any
      change when the cap on simultaneous loads is reached; otherwise marks
      the language as loading, reads its file, and in every case takes it
      off the loading set again. */
  function Load(s: CacheState, modelDir: string, lang: string, files: ModelFiles, now: int): (t: Transition<Outcome<Error>>)
    ensures lang in s.lexicons ==> t == Transition(s, Pass)
    ensures lang !in s.lexicons && |s.loading| >= MAX_CONCURRENT_LOADS ==> t == Transition(s, Fail(TooManyLoads))
    ensures lang !in s.lexicons && |s.loading| < MAX_CONCURRENT_LOADS ==>
      t.state.loading == s.loading - {lang} && lang !in t.state.loading
    ensures t.result.Fail? ==> t.state.lexicons == s.lexicons && t.state.lastUsed == s.lastUsed
    ensures t.result == Fail(ModelNotFound(LexiconPath(modelDir, lang))) <==>
      lang !in s.lexicons && |s.loading| < MAX_CONCURRENT_LOADS && LexiconPath(modelDir, lang) !in files
    ensures t.result.Pass? ==> lang in t.state.lexicons
    ensures lang !in s.lexicons && t.result.Pass? ==>
      && t.state.lexicons == s.lexicons[lang := files[LexiconPath(modelDir, lang)]]
      && t.state.lastUsed == s.lastUsed[lang := now]
    ensures t.state.requestCount == s.requestCount
    ensures Consistent(s) ==> Consistent(t.state)
  {
    if lang in s.lexicons then Transition(s, Pass)
    else if |s.loading| >= MAX_CONCURRENT_LOADS then Transition(s, Fail(TooManyLoads))
    else
      var path := LexiconPath(modelDir, lang);
      var loading := s.loading - {lang};
      if path !in files then Transition(s.(loading := loading), Fail(ModelNotFound(path)))
      else
        Transition(s.(lexicons := s.lexicons[lang := files[path]], lastUsed := s.lastUsed[lang := now], loading := loading), Pass)
  }

  // -----------------------------------------------------------------------
  // _mark_language_used / _mark_language_done
  // -----------------------------------------------------------------------

  function MarkUsed(s: CacheState, lang: string, now: int): (t: CacheState)
    ensures Consistent(s) ==> Consistent(t)
  {
    s.(lastUsed := s.lastUsed[lang := now], requestCount := s.requestCount[lang := RequestCount(s, lang) + 1])
  }

  function MarkDone(s: CacheState, lang: string): (t: CacheState)
    ensures Consistent(s) ==> Consistent(t)
  {
    var c := RequestCount(s, lang);
    s.(requestCount := s.requestCount[lang := if c - 1 > 0 then c - 1 else 0])
  }

  /** `_mark_language_used` stamps the language with `now` and adds exactly
      one to its count; nothing else changes. */
  lemma MarkUsedCounts(s: CacheState, lang: string, now: int, other: string)
    ensures MarkUsed(s, lang, now).lastUsed[lang] == now
    ensures RequestCount(MarkUsed(s, lang, now), lang) == RequestCount(s, lang) + 1
    ensures other != lang ==> RequestCount(MarkUsed(s, lang, now), other) == RequestCount(s, other)
    ensures other != lang ==> (other in MarkUsed(s, lang, now).lastUsed <==> other in s.lastUsed)
    ensures other != lang && other in s.lastUsed ==> MarkUsed(s, lang, now).lastUsed[other] == s.lastUsed[other]
    ensures MarkUsed(s, lang, now).lexicons == s.lexicons && MarkUsed(s, lang, now).loading == s.loading
  {
  }

  /** `_mark_language_done` takes one off the count but never goes below 0. */
  lemma MarkDoneCounts(s: CacheState, lang: string, other: string)
    ensures RequestCount(MarkDone(s, lang), lang) == if RequestCount(s, lang) > 0 then RequestCount(s, lang) - 1 else 0
    ensures other != lang ==> RequestCount(MarkDone(s, lang), other) == RequestCount(s, other)
    ensures MarkDone(s, lang).lexicons == s.lexicons && MarkDone(s, lang).lastUsed == s.lastUsed
    ensures MarkDone(s, lang).loading == s.loading
  {
  }

  /** Marking a language used and then done leaves every count as it was. */
  lemma UsedThenDone(s: CacheState, lang: string, now: int, other: string)
    ensures RequestCount(MarkDone(MarkUsed(s, lang, now), lang), other) == RequestCount(s, other)
  {
  }

  // -----------------------------------------------------------------------
  // _cleanup_unused_languages
  // -----------------------------------------------------------------------

  /** A language the cleanup puts on its unload list: not preloaded, no
      active request, idle for more than `UNLOAD_TIMEOUT` seconds. */
  predicate Expired(s: CacheState, preload: seq<string>, now: int, lang: string)
    requires lang in s.lastUsed
  {
    lang !in preload && RequestCount(s, lang) == 0 && now - s.lastUsed[lang] > UNLOAD_TIMEOUT
  }

  /** `_cleanup_unused_languages`. Reading `_request_count[lang]` of the
      `defaultdict` for a language it has no count for stores a 0 count. */
  function Cleanup(s: CacheState, preload: seq<string>, now: int): (t: CacheState)
    ensures Consistent(s) ==> Consistent(t)
  {
    var evicted := Evicted(s, preload, now);
    CacheState(s.lexicons - evicted, s.lastUsed - evicted, CountsRead(s, preload, s.lastUsed.Keys) - evicted, s.loading)
  }

  /** The counts after the cleanup has read those of `langs`. */
  function CountsRead(s: CacheState, preload: seq<string>, langs: set<string>): map<string, nat> {
    s.requestCount + map l | l in langs && l !in preload && l !in s.requestCount :: 0
  }

  /** Reading the count of one more language. */
  lemma CountsReadAdd(s: CacheState, preload: seq<string>, langs: set<string>, lang: string)
    ensures CountsRead(s, preload, langs + {lang})
         == if lang in preload || lang in s.requestCount then CountsRead(s, preload, langs)
            else CountsRead(s, preload, langs)[lang := 0]
  {
  }

  /** The languages the cleanup unloads: the expired ones that are loaded. */
  function Evicted(s: CacheState, preload: seq<string>, now: int): set<string> {
    set l | l in s.lexicons && l in s.lastUsed && Expired(s, preload, now, l)
  }

  /** The cleanup removes a loaded language exactly when it is expired, and
      then from all three maps at once; it never removes a preloaded
      language or one with an active request, and every language it keeps
      keeps its lexicon, its last-use time and its count. */
  lemma CleanupEvictsExactlyExpired(s: CacheState, preload: seq<string>, now: int, lang: string)
    requires Consistent(s) && lang in s.lexicons
    ensures var t := Cleanup(s, preload, now);
      && (lang !in t.lexicons <==> Expired(s, preload, now, lang))
      && (lang !in t.lexicons ==> lang !in t.lastUsed && lang !in t.requestCount)
      && (lang in preload || RequestCount(s, lang) > 0 ==> lang in t.lexicons)
      && (lang in t.lexicons ==>
            t.lexicons[lang] == s.lexicons[lang] && t.lastUsed[lang] == s.lastUsed[lang]
            && RequestCount(t, lang) == RequestCount(s, lang))
  {
  }

  /** Languages that are not loaded are left as they were, apart from the
      0 count the `defaultdict` may store. */
  lemma CleanupLeavesUnloaded(s: CacheState, preload: seq<string>, now: int, lang: string)
    requires lang !in s.lexicons
    ensures var t := Cleanup(s, preload, now);
      && lang !in t.lexicons
      && (lang in t.lastUsed <==> lang in s.lastUsed)
      && (lang in s.lastUsed ==> t.lastUsed[lang] == s.lastUsed[lang])
      && RequestCount(t, lang) == RequestCount(s, lang)
      && t.loading == s.loading
  {
  }

  /** Any number of cleanup cycles, whatever their times, never unloads a
      preloaded language. */
  function CleanupCycles(s: CacheState, preload: seq<string>, nows: seq<int>): CacheState
    decreases |nows|
  {
    if nows == [] then s else CleanupCycles(Cleanup(s, preload, nows[0]), preload, nows[1..])
  }

  lemma {:induction false} PreloadSurvivesCleanups(s: CacheState, preload: seq<string>, nows: seq<int>, lang: string)
    requires lang in preload && lang in s.lexicons
    ensures lang in CleanupCycles(s, preload, nows).lexicons
    ensures CleanupCycles(s, preload, nows).lexicons[lang] == s.lexicons[lang]
    decreases |nows|
  {
    if nows != [] {
      PreloadSurvivesCleanups(Cleanup(s, preload, nows[0]), preload, nows[1..], lang);
    }
  }

  // -----------------------------------------------------------------------
  // restore_diacritics_tokens, restore_text, suggest_correction
  // -----------------------------------------------------------------------

  /** `restore_diacritics_tokens`: fails when the language has no lexicon. */
  function RestoreIn(s: CacheState, tokenList: seq<string>, lang: string, lm: Option<Scorer>): (r: Result<seq<string>, Error>)
    ensures lang !in s.lexicons <==> r == Failure(LanguageNotLoaded(lang))
    ensures lang in s.lexicons && r.Failure? ==> r.error == NoCandidates
  {
    if lang !in s.lexicons then Failure(LanguageNotLoaded(lang)) else RestoreTokens(s.lexicons[lang], tokenList, lm)
  }

  /** The tokens `restore_text` keeps from the tokenizer's answer. */
  function TextTokens(tokenize: Tokenizer, text: string, lang: string): seq<string> {
    TokensOf(Split(Strip(tokenize(text, lang)), '\n'))
  }

  /** `restore_text`: reject an unsupported language; load the language if
      needed; count the request in; tokenize, restore and join the tokens
      with single spaces (or return the text when there is no token); count
      the request out, whatever the outcome of the restoration. */
  function RestoreTextStep(s: CacheState, modelDir: string, files: ModelFiles, tokenize: Tokenizer,
                           text: string, lang: string, now: int): Transition<Result<string, Error>>
  {
    if lang !in SUPPORTED_LANGS then Transition(s, Failure(UnsupportedLanguage(lang)))
    else
      var loaded := Load(s, modelDir, lang, files, now);
      if loaded.result.Fail? then Transition(loaded.state, Failure(loaded.result.error))
      else
        var used := MarkUsed(loaded.state, lang, now);
        Transition(MarkDone(used, lang), RestoredText(used, TextTokens(tokenize, text, lang), text, lang))
  }

  /** The answer of `restore_text` once the language is in use. */
  function RestoredText(s: CacheState, tokens: seq<string>, text: string, lang: string): Result<string, Error> {
    if tokens == [] then Success(text)
    else match RestoreIn(s, tokens, lang, None)
      case Failure(e) => Failure(e)
      case Success(restored) => Success(Join(restored, " "))
  }

  /** An unsupported language is rejected before anything changes. */
  lemma RestoreTextRejectsUnsupported(s: CacheState, modelDir: string, files: ModelFiles, tokenize: Tokenizer,
                                      text: string, lang: string, now: int)
    requires lang !in SUPPORTED_LANGS
    ensures RestoreTextStep(s, modelDir, files, tokenize, text, lang, now) == Transition(s, Failure(UnsupportedLanguage(lang)))
  {
  }

  /** Every request count is back to its prior value afterwards, and the
      invariant is kept. */
  lemma RestoreTextBalancesCounts(s: CacheState, modelDir: string, files: ModelFiles, tokenize: Tokenizer,
                                  text: string, lang: string, now: int, other: string)
    requires Consistent(s)
    ensures var t := RestoreTextStep(s, modelDir, files, tokenize, text, lang, now).state;
      RequestCount(t, other) == RequestCount(s, other) && Consistent(t)
  {
  }

  /** When the language is available, the request succeeds or fails only on
      an empty lexicon entry; the language is loaded afterwards; tokenizer
      output without a token gives back the text itself. */
  lemma RestoreTextOutcome(s: CacheState, modelDir: string, files: ModelFiles, tokenize: Tokenizer,
                           text: string, lang: string, now: int)
    requires lang in SUPPORTED_LANGS
    requires lang in s.lexicons || (|s.loading| < MAX_CONCURRENT_LOADS && LexiconPath(modelDir, lang) in files)
    ensures var t := RestoreTextStep(s, modelDir, files, tokenize, text, lang, now);
      && lang in t.state.lexicons
      && (t.result.Success? || t.result == Failure(NoCandidates))
      && (TextTokens(tokenize, text, lang) == [] ==> t.result == Success(text))
  {
    var loaded := Load(s, modelDir, lang, files, now);
    assert loaded.result.Pass?;
    var used := MarkUsed(loaded.state, lang, now);
    assert lang in used.lexicons;
    RestoredTextOutcome(used, TextTokens(tokenize, text, lang), text, lang);
  }

  /** Once the language is loaded, only an empty lexicon entry fails, and no
      token at all gives back the text itself. */
  lemma RestoredTextOutcome(s: CacheState, tokens: seq<string>, text: string, lang: string)
    requires lang in s.lexicons
    ensures var r := RestoredText(s, tokens, text, lang);
      (r.Success? || r == Failure(NoCandidates)) && (tokens == [] ==> r == Success(text))
  {
    if tokens != [] {
      var r := RestoreIn(s, tokens, lang, None);
      assert r.Success? || r == Failure(NoCandidates);
    }
  }

  /** `suggest_correction`'s comparison: no suggestion exactly when the
      restored text and the name agree once spaces are removed. */
  function Suggestion(name: string, restored: string): (r: Option<string>)
    ensures r.None? <==> RemoveSpaces(restored) == RemoveSpaces(name)
    ensures r.Some? ==> r.value == restored
  {
    if RemoveSpaces(restored) != RemoveSpaces(name) then Some(restored) else None
  }

  function SuggestStep(s: CacheState, modelDir: string, files: ModelFiles, tokenize: Tokenizer,
                       name: string, lang: string, now: int): Transition<Result<Option<string>, Error>>
  {
    var step := RestoreTextStep(s, modelDir, files, tokenize, name, lang, now);
    match step.result
    case Failure(e) => Transition(step.state, Failure(e))
    case Success(restored) => Transition(step.state, Success(Suggestion(name, restored)))
  }

  function Concat(ts: seq<string>): string {
    if ts == [] then "" else ts[0] + Concat(ts[1..])
  }

  lemma {:induction false} RemoveSpacesJoin(ts: seq<string>)
    ensures RemoveSpaces(Join(ts, " ")) == RemoveSpaces(Concat(ts))
    decreases |ts|
  {
    if |ts| > 1 {
      RemoveSpacesJoin(ts[1..]);
      RemoveSpacesConcat(ts[0] + " ", Join(ts[1..], " "));
      RemoveSpacesConcat(ts[0], " ");
      RemoveSpacesConcat(ts[0], Concat(ts[1..]));
      assert RemoveSpaces(" ") == "";
    } else if |ts| == 1 {
      assert ts[1..] == [];
      assert Concat(ts) == ts[0] + "" == ts[0];
    }
  }

  /** A restoration that changes no token is not offered as a suggestion,
      provided the tokens spell the name once spaces are removed. */
  lemma NoSuggestionForUnchangedTokens(s: CacheState, modelDir: string, files: ModelFiles, tokenize: Tokenizer,
                                       name: string, lang: string, now: int)
    requires var t := RestoreTextStep(s, modelDir, files, tokenize, name, lang, now);
      t.result.Success? && lang in t.state.lexicons
    requires var tokens := TextTokens(tokenize, name, lang);
      RemoveSpaces(Concat(tokens)) == RemoveSpaces(name)
      && RestoreTokens(MarkUsed(Load(s, modelDir, lang, files, now).state, lang, now).lexicons[lang], tokens, None) == Success(tokens)
    ensures SuggestStep(s, modelDir, files, tokenize, name, lang, now).result == Success(None)
  {
    var tokens := TextTokens(tokenize, name, lang);
    RemoveSpacesJoin(tokens);
    if tokens == [] {
      assert Concat(tokens) == "";
    }
  }

  // -----------------------------------------------------------------------
  // Construction, preloading and statistics
  // -----------------------------------------------------------------------

  /** `preload_languages or ['hr']`: both `None` and an empty list give `['hr']`. */
  function PreloadDefault(preload: Option<seq<string>>): (ps: seq<string>)
    ensures ps != []
    ensures preload.Some? && preload.value != [] ==> ps == preload.value
  {
    match preload
    case Some(ls) => if ls == [] then ["hr"] else ls
    case None => ["hr"]
  }

  /** The preloading loop of the constructor: each supported language in
      turn is loaded, and the first failure ends it. */
  function PreloadAll(s: CacheState, modelDir: string, langs: seq<string>, files: ModelFiles, now: int): (t: Transition<Outcome<Error>>)
    ensures Consistent(s) ==> Consistent(t.state)
    decreases |langs|
  {
    if langs == [] then Transition(s, Pass)
    else
      var t := PreloadAll(s, modelDir, langs[..|langs| - 1], files, now);
      var lang := langs[|langs| - 1];
      if t.result.Fail? || lang !in SUPPORTED_LANGS then t
      else Load(t.state, modelDir, lang, files, now)
  }

  /** After preloading succeeds, every supported preload language is loaded. */
  lemma {:induction false} PreloadLoadsAll(s: CacheState, modelDir: string, langs: seq<string>, files: ModelFiles, now: int, lang: string)
    requires PreloadAll(s, modelDir, langs, files, now).result.Pass?
    requires lang in langs && lang in SUPPORTED_LANGS
    ensures lang in PreloadAll(s, modelDir, langs, files, now).state.lexicons
    decreases |langs|
  {
    var init := langs[..|langs| - 1];
    var t := PreloadAll(s, modelDir, init, files, now);
    if langs[|langs| - 1] != lang {
      assert lang in init;
      PreloadLoadsAll(s, modelDir, init, files, now, lang);
    }
  }

  /** Once a load has failed, the remaining languages are not tried. */
  lemma {:induction false} PreloadStopsAtFailure(s: CacheState, modelDir: string, langs: seq<string>, files: ModelFiles, now: int, k: nat)
    requires k <= |langs|
    requires PreloadAll(s, modelDir, langs[..k], files, now).result.Fail?
    ensures PreloadAll(s, modelDir, langs, files, now) == PreloadAll(s, modelDir, langs[..k], files, now)
    decreases |langs|
  {
    if k < |langs| {
      var init := langs[..|langs| - 1];
      assert init[..k] == langs[..k];
      PreloadStopsAtFailure(s, modelDir, init, files, now, k);
    } else {
      assert langs[..k] == langs;
    }
  }

  /** The `stats` property: loaded languages, request counts, and seconds
      since each language was last used. */
  datatype Stats = Stats(loaded: set<string>, requestCounts: map<string, nat>, idleSeconds: map<string, int>)

  function StatsOf(s: CacheState, now: int): (st: Stats)
    ensures st.loaded == s.lexicons.Keys && st.requestCounts == s.requestCount
    ensures st.idleSeconds.Keys == s.lastUsed.Keys
    ensures forall l :: l in s.lastUsed ==> st.idleSeconds[l] == now - s.lastUsed[l]
  {
    Stats(s.lexicons.Keys, s.requestCount, map l | l in s.lastUsed :: now - s.lastUsed[l])
  }

  /** Asking for an unsupported language puts no entry for it into the statistics. */
  lemma UnsupportedLeavesNoStats(s: CacheState, modelDir: string, files: ModelFiles, tokenize: Tokenizer,
                                 text: string, lang: string, now: int)
    requires lang !in SUPPORTED_LANGS
    requires lang !in s.lexicons && lang !in s.lastUsed && lang !in s.requestCount
    ensures var st := StatsOf(RestoreTextStep(s, modelDir, files, tokenize, text, lang, now).state, now);
      lang !in st.loaded && lang !in st.requestCounts && lang !in st.idleSeconds
  {
  }

  /** A language whose lexicon file is missing is not loaded afterwards. */
  lemma MissingModelNotLoaded(s: CacheState, modelDir: string, files: ModelFiles, tokenize: Tokenizer,
                              text: string, lang: string, now: int)
    requires lang in SUPPORTED_LANGS && lang !in s.lexicons
    requires LexiconPath(modelDir, lang) !in files && |s.loading| < MAX_CONCURRENT_LOADS
    ensures var t := RestoreTextStep(s, modelDir, files, tokenize, text, lang, now);
      t.result == Failure(ModelNotFound(LexiconPath(modelDir, lang))) && lang !in t.state.lexicons
      && lang !in StatsOf(t.state, now).loaded
  {
  }

  /** Every step ends with no load in progress, so a state that starts
      with none keeps none: `TooManyLoads` needs loads in progress on other
      threads, which the atomic steps of this model never leave behind. */
  lemma NoLoadInProgressBetweenSteps(s: CacheState, modelDir: string, files: ModelFiles, tokenize: Tokenizer,
                                     preload: seq<string>, text: string, lang: string, now: int)
    requires s.loading == {}
    ensures Load(s, modelDir, lang, files, now).state.loading == {}
    ensures Load(s, modelDir, lang, files, now).result != Fail(TooManyLoads)
    ensures MarkUsed(s, lang, now).loading == {} && MarkDone(s, lang).loading == {}
    ensures Cleanup(s, preload, now).loading == {}
    ensures RestoreTextStep(s, modelDir, files, tokenize, text, lang, now).state.loading == {}
  {
  }

  // -----------------------------------------------------------------------
  // The class
  // -----------------------------------------------------------------------

  class SmartCachingRestorer {
    const modelDir: string
    const preloadLanguages: seq<string>

    var lexicons: map<string, Lexicon>
    var lastUsed: map<string, int>
    var requestCount: map<string, nat>
    var loadingLanguages: set<string>

    function State(): CacheState
      reads this
    {
      CacheState(lexicons, lastUsed, requestCount, loadingLanguages)
    }

    ghost predicate Valid()
      reads this
    {
      Consistent(State())
    }

    /** The fields as `__init__` sets them before preloading. */
    constructor (modelDir: string, preload: Option<seq<string>>)
      ensures Valid()
      ensures this.modelDir == modelDir && preloadLanguages == PreloadDefault(preload)
      ensures State() == CacheState(map[], map[], map[], {})
    {
      this.modelDir := modelDir;
      preloadLanguages := PreloadDefault(preload);
      lexicons := map[];
      lastUsed := map[];
      requestCount := map[];
      loadingLanguages := {};
    }

    /** The preloading loop of `__init__`; a failure is the exception that
        ends construction. */
    method Preload(files: ModelFiles, now: int) returns (r: Outcome<Error>)
      requires Valid()
      modifies this
      ensures Valid()
      ensures Transition(State(), r) == PreloadAll(old(State()), modelDir, preloadLanguages, files, now)
    {
      r := Pass;
      for i := 0 to |preloadLanguages|
        invariant Valid()
        invariant Transition(State(), r) == PreloadAll(old(State()), modelDir, preloadLanguages[..i], files, now)
        invariant r.Pass?
      {
        assert preloadLanguages[..i + 1][..i] == preloadLanguages[..i];
        var lang := preloadLanguages[i];
        if lang in SUPPORTED_LANGS {
          r := LoadLanguage(lang, files, now);
          if r.Fail? {
            PreloadStopsAtFailure(old(State()), modelDir, preloadLanguages, files, now, i + 1);
            return;
          }
        }
      }
      assert preloadLanguages[..|preloadLanguages|] == preloadLanguages;
    }

    /** `_load_language` (the `persistent` flag only changes a log line). */
    method LoadLanguage(lang: string, files: ModelFiles, now: int) returns (r: Outcome<Error>)
      requires Valid()
      modifies this
      ensures Valid()
      ensures Transition(State(), r) == Load(old(State()), modelDir, lang, files, now)
    {
      if lang in lexicons {
        return Pass;
      }
      if |loadingLanguages| >= MAX_CONCURRENT_LOADS {
        return Fail(TooManyLoads);
      }
      ghost var t := Load(State(), modelDir, lang, files, now);
      loadingLanguages := loadingLanguages + {lang};
      var path := LexiconPath(modelDir, lang);
      if path !in files {
        r := Fail(ModelNotFound(path));
      } else {
        lexicons := lexicons[lang := files[path]];
        lastUsed := lastUsed[lang := now];
        r := Pass;
      }
      // The `finally` clause.
      loadingLanguages := loadingLanguages - {lang};
      assert loadingLanguages == old(loadingLanguages) - {lang};
      assert Transition(State(), r) == t;
    }

    method MarkLanguageUsed(lang: string, now: int)
      requires Valid()
      modifies this
      ensures Valid()
      ensures State() == MarkUsed(old(State()), lang, now)
    {
      lastUsed := lastUsed[lang := now];
      var c := if lang in requestCount then requestCount[lang] else 0;
      requestCount := requestCount[lang := c + 1];
    }

    method MarkLanguageDone(lang: string)
      requires Valid()
      modifies this
      ensures Valid()
      ensures State() == MarkDone(old(State()), lang)
    {
      var c: int := if lang in requestCount then requestCount[lang] else 0;
      requestCount := requestCount[lang := if c - 1 > 0 then c - 1 else 0];
    }

    /** `_cleanup_unused_languages`: collect the expired languages while
        walking `_last_used`, then unload those that are still loaded. */
    method CleanupUnusedLanguages(now: int)
      requires Valid()
      modifies this
      ensures Valid()
      ensures State() == Cleanup(old(State()), preloadLanguages, now)
    {
      var toUnload, counts := CollectExpired(now);
      var lex, used;
      lex, used, counts := Unload(lexicons, lastUsed, counts, toUnload);
      ghost var s0 := State();
      assert (set l | l in toUnload && l in s0.lexicons) == Evicted(s0, preloadLanguages, now);
      lexicons, lastUsed, requestCount := lex, used, counts;
    }

    /** The walk over `_last_used`: the expired languages, and the counts
        as the `defaultdict` reads leave them. */
    method CollectExpired(now: int) returns (toUnload: seq<string>, counts: map<string, nat>)
      ensures forall l :: l in toUnload <==> l in lastUsed && Expired(State(), preloadLanguages, now, l)
      ensures counts == CountsRead(State(), preloadLanguages, lastUsed.Keys)
    {
      counts := requestCount;
      toUnload := [];
      var pending := lastUsed.Keys;
      ghost var seen: set<string> := {};
      while pending != {}
        invariant pending + seen == lastUsed.Keys && pending !! seen
        invariant counts == CountsRead(State(), preloadLanguages, seen)
        invariant forall l :: l in toUnload <==> l in seen && Expired(State(), preloadLanguages, now, l)
        decreases pending
      {
        var lang :| lang in pending;
        CountsReadAdd(State(), preloadLanguages, seen, lang);
        pending := pending - {lang};
        seen := seen + {lang};
        if lang in preloadLanguages {
          continue;
        }
        if lang !in counts {
          counts := counts[lang := 0];
        }
        assert counts[lang] == RequestCount(State(), lang);
        if counts[lang] > 0 {
          continue;
        }
        if now - lastUsed[lang] > UNLOAD_TIMEOUT {
          toUnload := toUnload + [lang];
        }
      }
    }

    /** The deletion loop: each listed language that is loaded leaves all
        three maps. */
    static method Unload(lex0: map<string, Lexicon>, used0: map<string, int>, counts0: map<string, nat>, toUnload: seq<string>)
      returns (lex: map<string, Lexicon>, used: map<string, int>, counts: map<string, nat>)
      ensures var gone := set l | l in toUnload && l in lex0;
        lex == lex0 - gone && used == used0 - gone && counts == counts0 - gone
    {
      lex, used, counts := lex0, used0, counts0;
      ghost var removed: set<string> := {};
      for i := 0 to |toUnload|
        invariant forall l :: l in removed <==> l in toUnload[..i] && l in lex0
        invariant lex == lex0 - removed && used == used0 - removed && counts == counts0 - removed
      {
        var lang := toUnload[i];
        assert toUnload[..i + 1] == toUnload[..i] + [lang];
        if lang in lex {
          lex := lex - {lang};
          used := used - {lang};
          counts := counts - {lang};
          removed := removed + {lang};
        }
      }
      assert toUnload[..|toUnload|] == toUnload;
      assert removed == set l | l in toUnload && l in lex0;
    }

    /** `restore_diacritics_tokens`. */
    method RestoreDiacriticsTokens(tokenList: seq<string>, lang: string, lm: Option<Scorer>)
      returns (r: Result<seq<string>, Error>)
      ensures r == RestoreIn(State(), tokenList, lang, lm)
    {
      if lang !in lexicons {
        return Failure(LanguageNotLoaded(lang));
      }
      r := Restoration.RestoreDiacriticsTokens(lexicons[lang], tokenList, lm);
    }

    /** `restore_text`. */
    method RestoreText(text: string, lang: string, files: ModelFiles, tokenize: Tokenizer, now: int)
      returns (r: Result<string, Error>)
      requires Valid()
      modifies this
      ensures Valid()
      ensures Transition(State(), r) == RestoreTextStep(old(State()), modelDir, files, tokenize, text, lang, now)
    {
      if lang !in SUPPORTED_LANGS {
        return Failure(UnsupportedLanguage(lang));
      }
      ghost var loaded := Load(State(), modelDir, lang, files, now);
      if lang !in lexicons {
        var outcome := LoadLanguage(lang, files, now);
        if outcome.Fail? {
          return Failure(outcome.error);
        }
      }
      assert State() == loaded.state && loaded.result.Pass?;
      MarkLanguageUsed(lang, now);
      ghost var used := State();
      var tokens := ParseTokens(tokenize(text, lang));
      if tokens == [] {
        r := Success(text);
      } else {
        var restored := RestoreDiacriticsTokens(tokens, lang, None);
        r := match restored
          case Failure(e) => Failure(e)
          case Success(ts) => Success(Join(ts, " "));
      }
      assert r == RestoredText(used, TextTokens(tokenize, text, lang), text, lang);
      // The `finally` clause.
      MarkLanguageDone(lang);
    }

    /** `suggest_correction`. */
    method SuggestCorrection(name: string, lang: string, files: ModelFiles, tokenize: Tokenizer, now: int)
      returns (r: Result<Option<string>, Error>)
      requires Valid()
      modifies this
      ensures Valid()
      ensures Transition(State(), r) == SuggestStep(old(State()), modelDir, files, tokenize, name, lang, now)
    {
      var restored := RestoreText(name, lang, files, tokenize, now);
      r := match restored
        case Failure(e) => Failure(e)
        case Success(t) => Success(Suggestion(name, t));
    }

    /** The `loaded_languages` property. */
    function LoadedLanguages(): (langs: set<string>)
      reads this
      ensures langs == StatsOf(State(), 0).loaded
    {
      lexicons.Keys
    }

    /** The `stats` property at time `now`. What each component holds is
        stated by the contract of `StatsOf`. */
    function Stats(now: int): (st: Stats)
      reads this
      ensures st == StatsOf(State(), now)
    {
      StatsOf(State(), now)
    }
  }
}
