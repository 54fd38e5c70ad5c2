/**
 * The multilingual voice pipeline: voice cloning with language coercion, the lazy cache of
 * translation models, and the per-language audio batch.
 *
 * Speech synthesis and MarianMT are foreign libraries and appear as oracles. A synthesis call
 * returns or raises. Loading a tokenizer or a model for a model name yields it or raises.
 * Running a translation yields the decoded text or raises.
 */
module VoiceCloning {
  import opened Wrappers
  import opened Strings
  import opened Dicts
  import Paths

  /** The language codes XTTS-v2 accepts, in the cloner's order. */
  const SupportedLanguages: seq<string> :=
    ["en", "es", "fr", "de", "it", "pt", "pl", "tr", "ru", "nl", "cs", "ar", "zh-cn", "ja", "hu", "ko"]

  /** The language actually synthesised: a supported code unchanged, anything else English. */
  function CoerceLanguage(language: string): (r: string)
    ensures r in SupportedLanguages
    ensures language in SupportedLanguages ==> r == language
    ensures language !in SupportedLanguages ==> r == "en"
  {
    if language in SupportedLanguages then language else "en"
  }

  /** `tts_to_file(text, file_path, speaker_wav, language)`: true when it returns, false when it raises. */
  type Synthesizer = (string, string, string, string) -> bool

  datatype VoiceCloner = VoiceCloner(synthesize: Synthesizer) {
    /** The output path when synthesis in the coerced language succeeds, None when it raises. */
    function CloneVoice(text: string, referenceAudio: string, outputPath: string, language: string): (r: Option<string>)
      ensures r.Some? <==> synthesize(text, outputPath, referenceAudio, CoerceLanguage(language))
      ensures r.Some? ==> r.value == outputPath
    {
      if synthesize(text, outputPath, referenceAudio, CoerceLanguage(language)) then Some(outputPath) else None
    }

    /** The supported codes: exactly the codes that coercion leaves unchanged, each listed once. */
    function GetSupportedLanguages(): (r: seq<string>)
      ensures forall l :: l in r <==> CoerceLanguage(l) == l
      ensures |r| == 16 && forall i, j :: 0 <= i < j < |r| ==> r[i] != r[j]
    {
      SupportedLanguages
    }
  }

  /** The MarianMT checkpoint for each translation pair the translator knows, in declaration order. */
  const LanguagePairs: Dict<string> := Dict(
    ["en-es", "en-fr", "en-de", "en-it", "en-pt", "en-ru", "en-zh", "en-ja", "en-ar"],
    map[
      "en-es" := "Helsinki-NLP/opus-mt-en-es",
      "en-fr" := "Helsinki-NLP/opus-mt-en-fr",
      "en-de" := "Helsinki-NLP/opus-mt-en-de",
      "en-it" := "Helsinki-NLP/opus-mt-en-it",
      "en-pt" := "Helsinki-NLP/opus-mt-en-pt",
      "en-ru" := "Helsinki-NLP/opus-mt-en-ru",
      "en-zh" := "Helsinki-NLP/opus-mt-en-zh",
      "en-ja" := "Helsinki-NLP/opus-mt-en-jap",
      "en-ar" := "Helsinki-NLP/opus-mt-en-ar"])

  /** The translation table lists nine pairs, each once. */
  lemma LanguagePairsValid()
    ensures LanguagePairs.Valid() && |LanguagePairs.keys| == 9
  {
    // The keys already differ in their fourth character, the first of the target code.
    var keys, firsts := LanguagePairs.keys, "efdiprzja";
    assert forall i :: 0 <= i < 9 ==> keys[i][3] == firsts[i];
    assert forall i, j :: 0 <= i < j < 9 ==> firsts[i] != firsts[j];
  }

  /** A loaded tokenizer or model: an artifact the model does not look into. */
  datatype Tokenizer = Tokenizer(artifact: nat)
  datatype TranslationModel = TranslationModel(artifact: nat)

  /** The model hub and the inference step, as oracles; None stands for a raised exception. */
  datatype ModelHub = ModelHub(
    loadTokenizer: string -> Option<Tokenizer>,
    loadModel: string -> Option<TranslationModel>,
    generate: (Tokenizer, TranslationModel, string) -> Option<string>)

  /** The translator's two dictionaries, keyed by pair ("en-es"). */
  datatype Cache = Cache(models: map<string, TranslationModel>, tokenizers: map<string, Tokenizer>) {
    /** A model is only cached with its tokenizer, and only for a known pair. */
    predicate Valid() {
      models.Keys <= tokenizers.Keys && tokenizers.Keys <= LanguagePairs.entries.Keys
    }
  }

  /** `f"{source_lang}-{target_lang}"` */
  function PairKey(sourceLang: string, targetLang: string): string {
    sourceLang + "-" + targetLang
  }

  /**
   * `_load_model` on a cache: whether the pair is usable afterwards, and the new cache.
   * A cached pair is used as is; an unknown pair fails; otherwise the tokenizer and then the
   * model are fetched, and a tokenizer fetched before a failing model stays behind.
   */
  function LoadStep(c: Cache, pairKey: string, hub: ModelHub): (r: (bool, Cache))
    ensures r.0 <==> pairKey in r.1.models
    ensures pairKey in c.models ==> r == (true, c)
    ensures pairKey !in c.models && pairKey !in LanguagePairs.entries ==> r == (false, c)
    ensures c.models.Keys <= r.1.models.Keys && c.tokenizers.Keys <= r.1.tokenizers.Keys
    ensures forall k :: k in c.models ==> r.1.models[k] == c.models[k]
    ensures forall k :: k in r.1.models && k !in c.models ==> k == pairKey
    ensures forall k :: k in r.1.tokenizers && k != pairKey ==> k in c.tokenizers && r.1.tokenizers[k] == c.tokenizers[k]
    ensures c.Valid() ==> r.1.Valid()
  {
    if pairKey in c.models then (true, c)
    else if pairKey !in LanguagePairs.entries then (false, c)
    else
      var name := LanguagePairs.entries[pairKey];
      match hub.loadTokenizer(name)
      case None => (false, c)
      case Some(t) =>
        var withTokenizer := c.(tokenizers := c.tokenizers[pairKey := t]);
        match hub.loadModel(name)
        case None => (false, withTokenizer)
        case Some(m) => (true, withTokenizer.(models := c.models[pairKey := m]))
  }

  /** A successful load makes every later load of that pair a cache hit, whatever the hub does then. */
  lemma LoadOnce(c: Cache, pairKey: string, hub: ModelHub, later: ModelHub)
    requires LoadStep(c, pairKey, hub).0
    ensures LoadStep(LoadStep(c, pairKey, hub).1, pairKey, later) == (true, LoadStep(c, pairKey, hub).1)
  {
  }

  /**
   * `translate` on a cache: None when loading fails or inference raises, otherwise the decoded
   * oracle output; the cache is the one loading left behind.
   */
  function TranslateStep(c: Cache, text: string, sourceLang: string, targetLang: string, hub: ModelHub): (r: (Option<string>, Cache))
    requires c.Valid()
    ensures r.1 == LoadStep(c, PairKey(sourceLang, targetLang), hub).1 && r.1.Valid()
    ensures r.0.Some? ==> PairKey(sourceLang, targetLang) in r.1.models
    ensures PairKey(sourceLang, targetLang) !in LanguagePairs.entries ==> r.0.None? && r.1 == c
    ensures PairKey(sourceLang, targetLang) in c.models ==>
              r.0 == hub.generate(c.tokenizers[PairKey(sourceLang, targetLang)], c.models[PairKey(sourceLang, targetLang)], text)
              && r.1 == c
  {
    var pairKey := PairKey(sourceLang, targetLang);
    var (ok, c') := LoadStep(c, pairKey, hub);
    if !ok then (None, c')
    else (hub.generate(c'.tokenizers[pairKey], c'.models[pairKey], text), c')
  }

  class TextTranslator {
    var models: map<string, TranslationModel>
    var tokenizers: map<string, Tokenizer>

    function State(): Cache
      reads this
    {
      Cache(models, tokenizers)
    }

    predicate Valid()
      reads this
    {
      State().Valid()
    }

    constructor ()
      ensures models == map[] && tokenizers == map[]
      ensures Valid()
    {
      models := map[];
      tokenizers := map[];
    }

    /** `_load_model`: true when the pair is cached afterwards. */
    method LoadModel(sourceLang: string, targetLang: string, hub: ModelHub) returns (ok: bool)
      modifies this
      ensures (ok, State()) == LoadStep(old(State()), PairKey(sourceLang, targetLang), hub)
    {
      var pairKey := PairKey(sourceLang, targetLang);
      if pairKey in models {
        return true;
      }
      if pairKey !in LanguagePairs.entries {
        return false;
      }
      var name := LanguagePairs.entries[pairKey];
      var tokenizer := hub.loadTokenizer(name);
      if tokenizer.None? {
        return false;
      }
      tokenizers := tokenizers[pairKey := tokenizer.value];
      var model := hub.loadModel(name);
      if model.None? {
        return false;
      }
      models := models[pairKey := model.value];
      return true;
    }

    /** `translate`: load the pair if needed, then run the model on the text. */
    method Translate(text: string, sourceLang: string, targetLang: string, hub: ModelHub) returns (r: Option<string>)
      requires Valid()
      modifies this
      ensures Valid()
      ensures r == TranslateStep(old(State()), text, sourceLang, targetLang, hub).0
      ensures State() == TranslateStep(old(State()), text, sourceLang, targetLang, hub).1
    {
      var pairKey := PairKey(sourceLang, targetLang);
      var ok := LoadModel(sourceLang, targetLang, hub);
      if !ok {
        return None;
      }
      r := hub.generate(tokenizers[pairKey], models[pairKey], text);
    }

    /** `list(self.language_pairs.keys())`: every known pair once, in declaration order. */
    function GetSupportedPairs(): (r: seq<string>)
      ensures forall k :: k in r <==> k in LanguagePairs.entries
      ensures forall i, j :: 0 <= i < j < |r| ==> r[i] != r[j]
      ensures |r| == 9
    {
      LanguagePairsValid();
      LanguagePairs.keys
    }
  }

  /** `repo_name.lower().replace(" ", "-").replace("/", "-")` */
  function SafeName(repoName: string): (r: string)
    ensures |r| == |repoName|
    ensures ' ' !in r && '/' !in r
    ensures forall i :: 0 <= i < |r| ==> r[i] == if LowerChar(repoName[i]) in {' ', '/'} then '-' else LowerChar(repoName[i])
  {
    ReplaceChar(ReplaceChar(Lower(repoName), ' ', '-'), '/', '-')
  }

  /** `f"{safe_name}-{lang}.wav"` */
  function AudioFileName(safeName: string, lang: string): string {
    safeName + "-" + lang + ".wav"
  }

  /** `str(output_dir / f"{safe_name}-{lang}.wav")` */
  function AudioPath(outputDir: string, safeName: string, lang: string): string {
    Paths.JoinPath(outputDir, AudioFileName(safeName, lang))
  }

  /**
   * The audio file lies under a normal output directory, named as written, when its name is
   * plain; otherwise pathlib reads the language text's pieces as components, and a name with a
   * leading '/' replaces the directory.
   */
  lemma AudioPathJoins(outputDir: string, safeName: string, lang: string)
    ensures Paths.NormalDir(outputDir) && Paths.PlainName(AudioFileName(safeName, lang)) ==>
              AudioPath(outputDir, safeName, lang) == outputDir + "/" + AudioFileName(safeName, lang)
    ensures Paths.Parts(AudioPath(outputDir, safeName, lang)) ==
              if Paths.Absolute(AudioFileName(safeName, lang)) then Paths.Parts(AudioFileName(safeName, lang))
              else Paths.Parts(outputDir) + Paths.Parts(AudioFileName(safeName, lang))
  {
    var file := AudioFileName(safeName, lang);
    Paths.JoinParts(outputDir, file);
    if Paths.NormalDir(outputDir) && Paths.PlainName(file) {
      Paths.JoinPlain(outputDir, file);
    }
  }

  /** What stays fixed during one call of `generate_multilingual_audio`. */
  datatype Batch = Batch(
    cloner: VoiceCloner, referenceAudio: string, outputDir: string,
    script: string, safeName: string, hub: ModelHub)

  /**
   * One iteration of the language loop: the audio path stored for lang, or None when the
   * language is skipped, and the translator cache afterwards. English uses the script verbatim;
   * any other language needs a non-empty translation from English.
   */
  function AudioStep(b: Batch, c: Cache, lang: string): (r: (Option<string>, Cache))
    requires c.Valid()
    ensures r.1.Valid()
    ensures r.0.Some? ==> r.0.value == AudioPath(b.outputDir, b.safeName, lang)
    ensures r.0.Some? && lang != "en" ==> PairKey("en", lang) in LanguagePairs.entries
    ensures lang == "en" ==> r.0 == b.cloner.CloneVoice(b.script, b.referenceAudio, AudioPath(b.outputDir, b.safeName, lang), "en")
                             && r.1 == c
    ensures c.models.Keys <= r.1.models.Keys && forall k :: k in c.models ==> r.1.models[k] == c.models[k]
  {
    var path := AudioPath(b.outputDir, b.safeName, lang);
    if lang == "en" then (b.cloner.CloneVoice(b.script, b.referenceAudio, path, lang), c)
    else
      var (text, c') := TranslateStep(c, b.script, "en", lang, b.hub);
      if text.None? || text.value == "" then (None, c')
      else (b.cloner.CloneVoice(text.value, b.referenceAudio, path, lang), c')
  }
  /**
   * Any other language: the script is translated from English with the shared cache, an empty
   * or failed translation gives no file, and otherwise the translation is cloned in that language.
   */
  lemma AudioStepTranslates(b: Batch, c: Cache, lang: string)
    requires c.Valid() && lang != "en"
    ensures AudioStep(b, c, lang).1 == TranslateStep(c, b.script, "en", lang, b.hub).1
    ensures var t := TranslateStep(c, b.script, "en", lang, b.hub).0;
            AudioStep(b, c, lang).0 ==
              if t.None? || t.value == "" then None
              else b.cloner.CloneVoice(t.value, b.referenceAudio, AudioPath(b.outputDir, b.safeName, lang), lang)
  {
  }


  /**
   * The whole loop over the target languages: the results dictionary and the final cache.
   * Defined on the prefix so that it can serve as the loop invariant.
   */
  function AudioBatch(b: Batch, c0: Cache, langs: seq<string>): (r: (Dict<string>, Cache))
    requires c0.Valid()
    ensures r.0.Valid() && r.1.Valid()
    decreases |langs|
  {
    if langs == [] then (EmptyDict(), c0)
    else
      var (d, c) := AudioBatch(b, c0, langs[..|langs| - 1]);
      var lang := langs[|langs| - 1];
      var (audio, c') := AudioStep(b, c, lang);
      (if audio.Some? then d.Put(lang, audio.value) else d, c')
  }

  /**
   * Every stored code was requested, is English or has a pair from English, and maps to its own
   * `<safe_name>-<lang>.wav` path; cached models survive the whole batch.
   */
  lemma {:induction false} AudioBatchResults(b: Batch, c0: Cache, langs: seq<string>)
    requires c0.Valid()
    ensures var r := AudioBatch(b, c0, langs);
      && (forall k :: k in r.0.entries ==> k in langs && r.0.entries[k] == AudioPath(b.outputDir, b.safeName, k))
      && (forall k :: k in r.0.entries && k != "en" ==> PairKey("en", k) in LanguagePairs.entries)
      && c0.models.Keys <= r.1.models.Keys
      && (forall k :: k in c0.models ==> r.1.models[k] == c0.models[k])
    decreases |langs|
  {
    if langs != [] {
      AudioBatchResults(b, c0, langs[..|langs| - 1]);
    }
  }

  /** The cache just before the i-th language is processed. */
  function CacheBefore(b: Batch, c0: Cache, langs: seq<string>, i: nat): (r: Cache)
    requires c0.Valid() && i <= |langs|
    ensures r.Valid()
  {
    AudioBatch(b, c0, langs[..i]).1
  }

  /** Processing more languages does not change the cache seen by the earlier ones. */
  lemma CacheBeforePrefix(b: Batch, c0: Cache, langs: seq<string>, n: nat, i: nat)
    requires c0.Valid() && i <= n <= |langs|
    ensures CacheBefore(b, c0, langs[..n], i) == CacheBefore(b, c0, langs, i)
  {
    assert langs[..n][..i] == langs[..i];
  }

  /** The i-th language processed successfully. */
  predicate Succeeded(b: Batch, c0: Cache, langs: seq<string>, i: nat)
    requires c0.Valid() && i < |langs|
  {
    AudioStep(b, CacheBefore(b, c0, langs, i), langs[i]).0.Some?
  }

  /** A stored code succeeded at one of its occurrences. */
  lemma {:induction false} StoredOnlyOnSuccess(b: Batch, c0: Cache, langs: seq<string>, k: string)
    requires c0.Valid()
    requires k in AudioBatch(b, c0, langs).0.entries
    ensures exists i :: 0 <= i < |langs| && langs[i] == k && Succeeded(b, c0, langs, i)
    decreases |langs|
  {
    var n := |langs| - 1;
    var init := langs[..n];
    var d := AudioBatch(b, c0, init).0;
    var step := AudioStep(b, AudioBatch(b, c0, init).1, langs[n]).0;
    assert AudioBatch(b, c0, langs).0 == if step.Some? then d.Put(langs[n], step.value) else d;
    if k !in d.entries {
      assert CacheBefore(b, c0, langs, n) == AudioBatch(b, c0, init).1;
      assert langs[n] == k && Succeeded(b, c0, langs, n);
    } else {
      StoredOnlyOnSuccess(b, c0, init, k);
      var i :| 0 <= i < |init| && init[i] == k && Succeeded(b, c0, init, i);
      CacheBeforePrefix(b, c0, langs, n, i);
      assert langs[i] == k && Succeeded(b, c0, langs, i);
    }
  }

  /** One more language: its path is added when its step succeeded, and the cache is the one the step leaves. */
  lemma AudioBatchNext(b: Batch, c0: Cache, langs: seq<string>, i: nat)
    requires c0.Valid() && i < |langs|
    ensures var prev := AudioBatch(b, c0, langs[..i]);
            var step := AudioStep(b, prev.1, langs[i]);
            && AudioBatch(b, c0, langs[..i + 1]).0 == (if step.0.Some? then prev.0.Put(langs[i], step.0.value) else prev.0)
            && AudioBatch(b, c0, langs[..i + 1]).1 == step.1
  {
    assert langs[..i + 1][..i] == langs[..i];
    assert langs[..i + 1][i] == langs[i];
  }

  /** The results after the last language: those before it, with its path added when it succeeded. */
  lemma AudioBatchLast(b: Batch, c0: Cache, langs: seq<string>)
    requires c0.Valid() && langs != []
    ensures var n := |langs| - 1;
            var step := AudioStep(b, AudioBatch(b, c0, langs[..n]).1, langs[n]).0;
            AudioBatch(b, c0, langs).0 ==
              if step.Some? then AudioBatch(b, c0, langs[..n]).0.Put(langs[n], step.value) else AudioBatch(b, c0, langs[..n]).0
  {
  }

  /** A success is never lost: later languages, failing or not, do not remove it. */
  lemma {:induction false} SuccessIsStored(b: Batch, c0: Cache, langs: seq<string>, i: nat)
    requires c0.Valid() && i < |langs| && Succeeded(b, c0, langs, i)
    ensures langs[i] in AudioBatch(b, c0, langs).0.entries
    decreases |langs|, 2
  {
    if i == |langs| - 1 {
      LastSuccessStored(b, c0, langs);
    } else {
      EarlierSuccessStored(b, c0, langs, i);
    }
  }

  /** A success before the last language is stored before it, and stays stored. */
  lemma {:induction false} EarlierSuccessStored(b: Batch, c0: Cache, langs: seq<string>, i: nat)
    requires c0.Valid() && i < |langs| - 1 && Succeeded(b, c0, langs, i)
    ensures langs[i] in AudioBatch(b, c0, langs).0.entries
    decreases |langs|, 1
  {
    PrefixStores(b, c0, langs, i);
    StoredKept(b, c0, langs, langs[i]);
  }

  /** A success before the last language is stored by the languages up to the last. */
  lemma {:induction false} PrefixStores(b: Batch, c0: Cache, langs: seq<string>, i: nat)
    requires c0.Valid() && i < |langs| - 1 && Succeeded(b, c0, langs, i)
    ensures langs[i] in AudioBatch(b, c0, langs[..|langs| - 1]).0.entries
    decreases |langs|, 0
  {
    var init := langs[..|langs| - 1];
    assert Succeeded(b, c0, init, i) by {
      SucceededPrefix(b, c0, langs, |langs| - 1, i);
    }
    assert init[i] in AudioBatch(b, c0, init).0.entries by {
      SuccessIsStored(b, c0, init, i);
    }
    assert init[i] == langs[i];
  }

  /** Whether an attempt succeeded does not depend on the languages after it. */
  lemma SucceededPrefix(b: Batch, c0: Cache, langs: seq<string>, n: nat, i: nat)
    requires c0.Valid() && i < n <= |langs|
    ensures Succeeded(b, c0, langs[..n], i) == Succeeded(b, c0, langs, i)
  {
    CacheBeforePrefix(b, c0, langs, n, i);
    assert langs[..n][i] == langs[i];
  }

  /** The last language's success stores it. */
  lemma LastSuccessStored(b: Batch, c0: Cache, langs: seq<string>)
    requires c0.Valid() && langs != [] && Succeeded(b, c0, langs, |langs| - 1)
    ensures langs[|langs| - 1] in AudioBatch(b, c0, langs).0.entries
  {
    var n := |langs| - 1;
    assert CacheBefore(b, c0, langs, n) == AudioBatch(b, c0, langs[..n]).1;
    AudioBatchLast(b, c0, langs);
  }

  /** A code stored before the last language stays stored after it. */
  lemma StoredKept(b: Batch, c0: Cache, langs: seq<string>, k: string)
    requires c0.Valid() && langs != [] && k in AudioBatch(b, c0, langs[..|langs| - 1]).0.entries
    ensures k in AudioBatch(b, c0, langs).0.entries
  {
    AudioBatchLast(b, c0, langs);
  }

  /**
   * A failure skips only its own language: a code ends up in the results exactly when its step
   * succeeded at one of its occurrences, whatever happened to the other languages.
   */
  lemma AudioBatchSkipsOnlyFailures(b: Batch, c0: Cache, langs: seq<string>, k: string)
    requires c0.Valid()
    ensures k in AudioBatch(b, c0, langs).0.entries <==>
              exists i :: 0 <= i < |langs| && langs[i] == k && Succeeded(b, c0, langs, i)
  {
    if k in AudioBatch(b, c0, langs).0.entries {
      StoredOnlyOnSuccess(b, c0, langs, k);
    }
    if i :| 0 <= i < |langs| && langs[i] == k && Succeeded(b, c0, langs, i) {
      SuccessIsStored(b, c0, langs, i);
    }
  }

  /** The target codes that have a translation pair from English. */
  lemma TranslatableTargets(lang: string)
    ensures PairKey("en", lang) in LanguagePairs.entries <==> lang in ["es", "fr", "de", "it", "pt", "ru", "zh", "ja", "ar"]
  {
    var targets := ["es", "fr", "de", "it", "pt", "ru", "zh", "ja", "ar"];
    var pairKey := PairKey("en", lang);
    PairKeysFromEnglish(targets);
    if pairKey in LanguagePairs.entries {
      assert pairKey in LanguagePairs.keys;
      var i :| 0 <= i < 9 && LanguagePairs.keys[i] == pairKey;
      EnglishPairInjective(lang, targets[i]);
    }
    if lang in targets {
      var i :| 0 <= i < 9 && targets[i] == lang;
      assert LanguagePairs.keys[i] in LanguagePairs.entries;
    }
  }

  /** Every configured pair, in order, is English to the matching target code. */
  lemma PairKeysFromEnglish(targets: seq<string>)
    requires targets == ["es", "fr", "de", "it", "pt", "ru", "zh", "ja", "ar"]
    ensures |LanguagePairs.keys| == |targets| == 9
    ensures forall i :: 0 <= i < 9 ==> LanguagePairs.keys[i] == PairKey("en", targets[i])
  {
  }

  /** Two English pair keys are equal only for the same target. */
  lemma EnglishPairInjective(x: string, y: string)
    requires PairKey("en", x) == PairKey("en", y)
    ensures x == y
  {
    assert x == PairKey("en", x)[3..];
    assert y == PairKey("en", y)[3..];
  }

  /** So "zh-cn", "pl" and the other codes without a pair never get audio, whatever the oracles do. */
  lemma UntranslatableSkipped(b: Batch, c0: Cache, langs: seq<string>, lang: string)
    requires c0.Valid()
    requires lang != "en" && lang !in ["es", "fr", "de", "it", "pt", "ru", "zh", "ja", "ar"]
    ensures lang !in AudioBatch(b, c0, langs).0.entries
  {
    TranslatableTargets(lang);
    AudioBatchResults(b, c0, langs);
  }

  class MultilingualReelGenerator {
    const referenceAudio: string
    const outputDir: string
    const voiceCloner: VoiceCloner
    const translator: TextTranslator

    /** The generator starts with a fresh, empty translator. */
    constructor (referenceAudio: string, outputDir: string, voiceCloner: VoiceCloner)
      ensures this.referenceAudio == referenceAudio && this.outputDir == outputDir && this.voiceCloner == voiceCloner
      ensures fresh(translator) && translator.models == map[] && translator.tokenizers == map[]
    {
      this.referenceAudio := referenceAudio;
      this.outputDir := outputDir;
      this.voiceCloner := voiceCloner;
      translator := new TextTranslator();
    }

    /** One pass of the language loop: the translation when needed, then the cloned audio's path, as `AudioStep` says. */
    method ProcessLanguage(b: Batch, lang: string) returns (path: Option<string>)
      requires translator.Valid()
      requires b.cloner == voiceCloner && b.referenceAudio == referenceAudio && b.outputDir == outputDir
      modifies translator
      ensures translator.Valid()
      ensures path == AudioStep(b, old(translator.State()), lang).0
      ensures translator.State() == AudioStep(b, old(translator.State()), lang).1
    {
      var text := b.script;
      if lang != "en" {
        var translated := translator.Translate(b.script, "en", lang, b.hub);
        if translated.None? || translated.value == "" {
          return None;
        }
        text := translated.value;
      }
      var outputPath := AudioPath(outputDir, b.safeName, lang);
      path := voiceCloner.CloneVoice(text, referenceAudio, outputPath, lang);
    }

    /** `generate_multilingual_audio`: the language-to-path dictionary, filled in loop order. */
    method GenerateMultilingualAudio(script: string, repoName: string, targetLanguages: seq<string>, hub: ModelHub)
      returns (results: Dict<string>)
      requires translator.Valid()
      modifies translator
      ensures translator.Valid()
      ensures results ==
                AudioBatch(Batch(voiceCloner, referenceAudio, outputDir, script, SafeName(repoName), hub),
                           old(translator.State()), targetLanguages).0
      ensures translator.State() ==
                AudioBatch(Batch(voiceCloner, referenceAudio, outputDir, script, SafeName(repoName), hub),
                           old(translator.State()), targetLanguages).1
    {
      var safeName := SafeName(repoName);
      var b := Batch(voiceCloner, referenceAudio, outputDir, script, safeName, hub);
      ghost var c0 := translator.State();
      results := EmptyDict();
      var i := 0;
      while i < |targetLanguages|
        invariant 0 <= i <= |targetLanguages|
        invariant translator.Valid()
        invariant results == AudioBatch(b, c0, targetLanguages[..i]).0
        invariant translator.State() == AudioBatch(b, c0, targetLanguages[..i]).1
      {
        var lang := targetLanguages[i];
        AudioBatchNext(b, c0, targetLanguages, i);
        var path := ProcessLanguage(b, lang);
        if path.Some? {
          results := results.Put(lang, path.value);
        }
        i := i + 1;
      }
      assert targetLanguages[..i] == targetLanguages;
    }
  }
}
