/**
 * The Flask endpoints of the multilingual reel service: upload validation, the language
 * listing, and the fan-out from one script to an audio track and a reel per language.
 *
 * The request is the multipart form as dictionaries; json.loads, secure_filename, saving the
 * upload and the presence of the speech libraries are oracles, and the voice and reel stages
 * run the models of the voice pipeline and the reel creator.
 */
module MultilingualApi {
  import opened Wrappers
  import opened Strings
  import opened Dicts
  import opened Json
  import VC = VoiceCloning
  import RC = ReelCreator

  const UploadFolder: string := "uploads"
  const OutputFolder: string := "blog/assets/videos"
  const AudioFolder: string := "blog/assets/audio/multilingual"
  const AllowedExtensions: set<string> := {"wav", "mp3", "ogg", "flac"}

  /** `i` is the position of the last '.' in `s`. */
  predicate LastDot(s: string, i: int) {
    0 <= i < |s| && s[i] == '.' && '.' !in s[i + 1..]
  }

  lemma LastDotUnique(s: string, i: int, j: int)
    requires LastDot(s, i) && LastDot(s, j)
    ensures i == j
  {
  }

  /** `allowed_file`: a '.' is present and the text after the last one, lowercased, is an allowed extension. */
  function AllowedFile(filename: string): (r: bool)
    ensures r <==> exists i :: LastDot(filename, i) && Lower(filename[i + 1..]) in AllowedExtensions
  {
    match LastIndexOf(filename, '.')
    case None => false
    case Some(i) =>
      assert LastDot(filename, i);
      assert forall j :: LastDot(filename, j) ==> j == i by {
        forall j | LastDot(filename, j) ensures j == i { LastDotUnique(filename, i, j); }
      }
      Lower(filename[i + 1..]) in AllowedExtensions
  }

  /** The metadata the language listing attaches to a code. */
  datatype LanguageInfo = LanguageInfo(code: string, name: string, flag: string)

  const LanguageMetadata: map<string, (string, string)> := map[
    "en" := ("English", "\U{1F1FA}\U{1F1F8}"),
    "es" := ("Español", "\U{1F1EA}\U{1F1F8}"),
    "fr" := ("Français", "\U{1F1EB}\U{1F1F7}"),
    "de" := ("Deutsch", "\U{1F1E9}\U{1F1EA}"),
    "it" := ("Italiano", "\U{1F1EE}\U{1F1F9}"),
    "pt" := ("Português", "\U{1F1F5}\U{1F1F9}"),
    "ru" := ("Русский", "\U{1F1F7}\U{1F1FA}"),
    "zh-cn" := ("中文", "\U{1F1E8}\U{1F1F3}"),
    "ja" := ("日本語", "\U{1F1EF}\U{1F1F5}"),
    "ar" := ("العربية", "\U{1F1F8}\U{1F1E6}")]

  /** The entry `get_languages` appends for a code with metadata. */
  function InfoOf(code: string): LanguageInfo
    requires code in LanguageMetadata
  {
    LanguageInfo(code, LanguageMetadata[code].0, LanguageMetadata[code].1)
  }

  /** The codes that have metadata, with that metadata, in the given order; defined on the prefix. */
  function WithMetadata(langs: seq<string>): seq<LanguageInfo>
    decreases |langs|
  {
    if langs == [] then []
    else
      var init := WithMetadata(langs[..|langs| - 1]);
      var last := langs[|langs| - 1];
      if last in LanguageMetadata then init + [InfoOf(last)] else init
  }

  /** The listing holds exactly the given codes that have metadata, each with its own metadata. */
  lemma {:induction false} WithMetadataSound(langs: seq<string>)
    ensures forall e :: e in WithMetadata(langs) ==>
              e.code in langs && e.code in LanguageMetadata && (e.name, e.flag) == LanguageMetadata[e.code]
    ensures forall l :: l in langs && l in LanguageMetadata ==> exists e :: e in WithMetadata(langs) && e.code == l
    decreases |langs|
  {
    if langs != [] {
      var init := langs[..|langs| - 1];
      WithMetadataSound(init);
      assert forall l :: l in langs ==> l in init || l == langs[|langs| - 1];
      assert forall l :: l in init ==> l in langs;
      assert forall e :: e in WithMetadata(init) ==> e in WithMetadata(langs);
      if langs[|langs| - 1] in LanguageMetadata {
        assert InfoOf(langs[|langs| - 1]) in WithMetadata(langs);
      }
    }
  }

  datatype Response =
    | LanguagesResponse(languages: seq<LanguageInfo>)
    | ReelsResponse(message: string, audioFiles: Dict<string>, videoFiles: Dict<string>, reelLanguages: seq<string>)
    | ErrorResponse(status: nat, error: string)

  /** Stands for the text of an exception raised inside a handler, which the model does not track. */
  const ExceptionText: string := "internal error"

  /** What `get_languages` answers: the supported codes that have metadata, or 500 when the cloner cannot be built. */
  function LanguagesOutcome(librariesAvailable: bool): (r: Response)
    ensures !librariesAvailable ==> r.ErrorResponse? && r.status == 500
    ensures librariesAvailable ==> (r.LanguagesResponse? &&
              (forall e :: e in r.languages ==>
                 (e.code in VC.SupportedLanguages && e.code in LanguageMetadata && (e.name, e.flag) == LanguageMetadata[e.code])) &&
              forall l :: l in VC.SupportedLanguages && l in LanguageMetadata ==> exists e :: e in r.languages && e.code == l)
  {
    if !librariesAvailable then ErrorResponse(500, ExceptionText)
    else
      WithMetadataSound(VC.SupportedLanguages);
      LanguagesResponse(WithMetadata(VC.SupportedLanguages))
  }

  /** `get_languages`: walks the cloner's languages and appends the ones that have metadata. */
  method GetLanguages(librariesAvailable: bool) returns (r: Response)
    ensures r == LanguagesOutcome(librariesAvailable)
  {
    if !librariesAvailable {
      return ErrorResponse(500, ExceptionText);
    }
    var languages := VC.VoiceCloner((_, _, _, _) => false).GetSupportedLanguages();
    var result: seq<LanguageInfo> := [];
    var i := 0;
    while i < |languages|
      invariant 0 <= i <= |languages|
      invariant result == WithMetadata(languages[..i])
    {
      assert languages[..i + 1][..i] == languages[..i];
      if languages[i] in LanguageMetadata {
        result := result + [InfoOf(languages[i])];
      }
      i := i + 1;
    }
    assert languages[..i] == languages;
    return LanguagesResponse(result);
  }

  /** The listing keeps the order of the codes it is built from. */
  lemma {:induction false} WithMetadataOrder(langs: seq<string>, i: nat, j: nat)
    requires i < j < |langs| && langs[i] in LanguageMetadata && langs[j] in LanguageMetadata
    ensures exists p, q :: 0 <= p < q < |WithMetadata(langs)| &&
              WithMetadata(langs)[p].code == langs[i] && WithMetadata(langs)[q].code == langs[j]
    decreases |langs|
  {
    var n := |langs| - 1;
    var init := langs[..n];
    var rest := WithMetadata(init);
    if j == n {
      WithMetadataSound(init);
      assert langs[i] == init[i];
      var e :| e in rest && e.code == langs[i];
      var p :| 0 <= p < |rest| && rest[p] == e;
      assert WithMetadata(langs) == rest + [InfoOf(langs[n])];
      assert WithMetadata(langs)[p] == e && WithMetadata(langs)[|rest|].code == langs[j];
    } else {
      WithMetadataOrder(init, i, j);
      var p, q :| 0 <= p < q < |rest| && rest[p].code == init[i] && rest[q].code == init[j];
      if langs[n] in LanguageMetadata {
        assert WithMetadata(langs)[p] == rest[p] && WithMetadata(langs)[q] == rest[q];
      } else {
        assert WithMetadata(langs) == rest;
      }
    }
  }

  /** The listing keeps the cloner's order, so Arabic comes before Chinese although its metadata is declared after. */
  lemma ListingOrder()
    ensures var listing := WithMetadata(VC.SupportedLanguages);
            exists p, q :: 0 <= p < q < |listing| && listing[p].code == "ar" && listing[q].code == "zh-cn"
  {
    WithMetadataOrder(VC.SupportedLanguages, 11, 12);
  }

  /** An uploaded file, by the name the client gave it. */
  datatype Upload = Upload(filename: string)

  datatype Request = Request(files: map<string, Upload>, form: map<string, string>)

  datatype Server = Server(
    parseJson: JsonParser,
    secureFilename: string -> string,
    saveUpload: (Upload, string) -> bool,
    librariesAvailable: bool,
    synthesize: VC.Synthesizer,
    hub: VC.ModelHub,
    media: RC.Media)

  /** `request.form.get(key, default)` */
  function FormGet(form: map<string, string>, key: string, default: string): string {
    if key in form then form[key] else default
  }

  /** The string items of a JSON array, in order; other items can never be "en" or form a pair, so they never produce audio. */
  function StringItems(items: seq<JsonValue>): (r: seq<string>)
    ensures forall s :: s in r ==> JString(s) in items
    ensures forall s :: JString(s) in items ==> s in r
  {
    if items == [] then []
    else
      var rest := StringItems(items[1..]);
      assert forall x :: x in items && x != items[0] ==> x in items[1..];
      match items[0]
      case JString(s) => [s] + rest
      case _ => rest
  }

  /**
   * The target languages as the loop sees them: ["en"] when the text does not parse, the items
   * of a list, the characters of a string, the keys of an object; None where `len()` raises.
   */
  function TargetLanguages(parsed: Option<JsonValue>): (r: Option<seq<string>>)
    ensures parsed.None? ==> r == Some(["en"])
    ensures parsed.Some? && parsed.value.JArray? ==> r == Some(StringItems(parsed.value.items))
    ensures r.None? <==> parsed.Some? && (parsed.value.JNull? || parsed.value.JBool? || parsed.value.JNumber?)
  {
    match parsed
    case None => Some(["en"])
    case Some(JArray(items)) => Some(StringItems(items))
    case Some(JString(s)) => Some(seq(|s|, i requires 0 <= i < |s| => [s[i]]))
    case Some(JObject(members)) => Some(seq(|members|, i requires 0 <= i < |members| => members[i].0))
    case Some(_) => None
  }

  const PlaceholderImages: map<string, string> := map[
    "architecture" := "blog/assets/images/placeholder/architecture.png",
    "flow" := "blog/assets/images/placeholder/flow.png",
    "screenshot" := "blog/assets/images/placeholder/screenshot.png"]

  /** The script data every reel gets: the first 100 characters as hook, the whole script as solution. */
  function ReelScript(script: string): (r: map<string, string>)
    ensures "hook" in r && r["hook"] == Take(script, 100)
    ensures "solution" in r && r["solution"] == script
  {
    map["hook" := Take(script, 100), "solution" := script, "verdict" := "Check it out!"]
  }

  /** `reference_{secure_filename(name)}` in the upload folder. */
  function ReferencePath(srv: Server, upload: Upload): string {
    UploadFolder + "/reference_" + srv.secureFilename(upload.filename)
  }

  /** The reel for one language, made from its audio track: `create_reel` with the fixed script data and images. */
  function ReelFor(srv: Server, repoName: string, script: string): (string, string) -> Option<string> {
    (lang: string, audioPath: string) =>
      RC.ReelOutcome(OutputFolder, srv.media, repoName + "-" + lang, ReelScript(script), PlaceholderImages, Some(audioPath))
  }

  /** Every reel is written to the path `create_reel` derives from the repository name and the language. */
  lemma ReelForPath(srv: Server, repoName: string, script: string, lang: string, audioPath: string)
    ensures ReelFor(srv, repoName, script)(lang, audioPath).Some? ==>
              ReelFor(srv, repoName, script)(lang, audioPath).value == RC.ReelPath(OutputFolder, repoName + "-" + lang)
  {
    var r := RC.ReelOutcome(OutputFolder, srv.media, repoName + "-" + lang, ReelScript(script), PlaceholderImages, Some(audioPath));
    assert ReelFor(srv, repoName, script)(lang, audioPath) == r;
  }

  /** The reel loop over the audio tracks, in their order, defined on the prefix. */
  function ReelFanOut(reel: (string, string) -> Option<string>, tracks: seq<(string, string)>): (r: Dict<string>)
    ensures r.Valid()
    decreases |tracks|
  {
    if tracks == [] then EmptyDict()
    else
      var d := ReelFanOut(reel, tracks[..|tracks| - 1]);
      var (lang, audioPath) := tracks[|tracks| - 1];
      match reel(lang, audioPath)
      case Some(path) => d.Put(lang, path)
      case None => d
  }

  /** Track `t` is one for language `k` whose reel succeeded. */
  predicate Produces(reel: (string, string) -> Option<string>, t: (string, string), k: string) {
    t.0 == k && reel(t.0, t.1).Some?
  }

  /** A language gets a reel exactly when one of its tracks produced one: a failing reel omits only its own language. */
  lemma {:induction false} ReelFanOutKeys(reel: (string, string) -> Option<string>, tracks: seq<(string, string)>, k: string)
    ensures k in ReelFanOut(reel, tracks).entries <==> exists i :: 0 <= i < |tracks| && Produces(reel, tracks[i], k)
    decreases |tracks|
  {
    if tracks != [] {
      var n := |tracks| - 1;
      var init := tracks[..n];
      ReelFanOutKeys(reel, init, k);
      ReelFanOutStep(reel, tracks, k);
      ProducesSplit(reel, tracks, init, k);
    }
  }

  /** A track producing `k` is one of the earlier tracks or the last one. */
  lemma ProducesSplit(reel: (string, string) -> Option<string>, tracks: seq<(string, string)>, init: seq<(string, string)>, k: string)
    requires tracks != [] && init == tracks[..|tracks| - 1]
    ensures (exists i :: 0 <= i < |tracks| && Produces(reel, tracks[i], k)) <==>
              (exists i :: 0 <= i < |init| && Produces(reel, init[i], k)) || Produces(reel, tracks[|tracks| - 1], k)
  {
    var n := |init|;
    if exists i :: 0 <= i < n && Produces(reel, init[i], k) {
      var i :| 0 <= i < n && Produces(reel, init[i], k);
      assert tracks[i] == init[i];
    }
    if exists i :: 0 <= i < |tracks| && Produces(reel, tracks[i], k) {
      var i :| 0 <= i < |tracks| && Produces(reel, tracks[i], k);
      if i < n { assert init[i] == tracks[i]; }
    }
  }

  /** The fan-out over one more track of a sequence is the fan-out so far, with that track's reel added if it succeeded. */
  lemma ReelFanOutNext(reel: (string, string) -> Option<string>, tracks: seq<(string, string)>, i: nat)
    requires i < |tracks|
    ensures ReelFanOut(reel, tracks[..i + 1]) ==
              match reel(tracks[i].0, tracks[i].1)
              case Some(path) => ReelFanOut(reel, tracks[..i]).Put(tracks[i].0, path)
              case None => ReelFanOut(reel, tracks[..i])
  {
    assert tracks[..i + 1][..i] == tracks[..i];
    assert tracks[..i + 1][i] == tracks[i];
  }

  /** One more track: its language joins the keys exactly when its reel succeeded. */
  lemma ReelFanOutStep(reel: (string, string) -> Option<string>, tracks: seq<(string, string)>, k: string)
    requires tracks != []
    ensures k in ReelFanOut(reel, tracks).entries <==>
              k in ReelFanOut(reel, tracks[..|tracks| - 1]).entries || Produces(reel, tracks[|tracks| - 1], k)
  {
  }

  /** With one track per language, the stored path is the one that language's reel reported. */
  lemma {:induction false} ReelFanOutValue(reel: (string, string) -> Option<string>, tracks: seq<(string, string)>, i: nat)
    requires i < |tracks| && forall a, b :: 0 <= a < b < |tracks| ==> tracks[a].0 != tracks[b].0
    requires reel(tracks[i].0, tracks[i].1).Some?
    ensures tracks[i].0 in ReelFanOut(reel, tracks).entries
    ensures ReelFanOut(reel, tracks).entries[tracks[i].0] == reel(tracks[i].0, tracks[i].1).value
    decreases |tracks|
  {
    var n := |tracks| - 1;
    if i < n {
      ReelFanOutValue(reel, tracks[..n], i);
      assert tracks[..n][i] == tracks[i];
      assert tracks[n].0 != tracks[i].0;
    }
  }

  /** What the request does besides answering: where the reference upload was saved, and whether it was removed again. */
  datatype Handled = Handled(response: Response, savedReference: Option<string>, removedReference: bool)

  /** An audio upload and a script are present, and the upload's name is non-empty with an allowed extension. */
  predicate Validated(req: Request) {
    && "audio" in req.files && "script" in req.form
    && req.files["audio"].filename != "" && AllowedFile(req.files["audio"].filename)
  }

  /** The repository name of the form, "demo-project" when absent. */
  function RequestRepo(req: Request): (r: string)
    ensures "repo_name" in req.form ==> r == req.form["repo_name"]
    ensures "repo_name" !in req.form ==> r == "demo-project"
  {
    FormGet(req.form, "repo_name", "demo-project")
  }

  /** The target languages of the form's JSON list, which is "[\"en\"]" when absent. */
  function RequestLanguages(req: Request, srv: Server): (r: Option<seq<string>>)
    ensures "languages" !in req.form ==> r == TargetLanguages(srv.parseJson("[\"en\"]"))
    ensures "languages" in req.form ==> r == TargetLanguages(srv.parseJson(req.form["languages"]))
  {
    TargetLanguages(srv.parseJson(FormGet(req.form, "languages", "[\"en\"]")))
  }

  /** The audio batch for the request: the cloner over the saved reference, the script and the safe repository name. */
  function RequestAudio(req: Request, srv: Server, reference: string, langs: seq<string>): Dict<string>
    requires "script" in req.form
  {
    var batch := VC.Batch(VC.VoiceCloner(srv.synthesize), reference, AudioFolder, req.form["script"],
                          VC.SafeName(RequestRepo(req)), srv.hub);
    VC.AudioBatch(batch, VC.Cache(map[], map[]), langs).0
  }

  /** `generate_multilingual_reels`, as a function of the request and the oracles. */
  function ReelsOutcome(req: Request, srv: Server): (h: Handled)
    ensures "audio" !in req.files ==> h == Handled(ErrorResponse(400, "No audio file provided"), None, false)
    ensures "audio" in req.files && "script" !in req.form ==> h == Handled(ErrorResponse(400, "No script provided"), None, false)
    ensures "audio" in req.files && "script" in req.form && req.files["audio"].filename == "" ==>
              h == Handled(ErrorResponse(400, "No audio file selected"), None, false)
    ensures "audio" in req.files && "script" in req.form && req.files["audio"].filename != "" &&
            !AllowedFile(req.files["audio"].filename) ==>
              h == Handled(ErrorResponse(400, "Invalid audio file format"), None, false)
    ensures h.response.ErrorResponse? && h.response.status == 400 ==> h.savedReference.None?
    ensures h.savedReference.Some? <==>
              Validated(req) && srv.saveUpload(req.files["audio"], ReferencePath(srv, req.files["audio"]))
    ensures h.savedReference.Some? ==> h.savedReference.value == ReferencePath(srv, req.files["audio"])
    ensures h.savedReference.Some? && (RequestLanguages(req, srv).None? || !srv.librariesAvailable) ==>
              h.response == ErrorResponse(500, ExceptionText) && !h.removedReference
    ensures h.savedReference.Some? && RequestLanguages(req, srv).Some? && srv.librariesAvailable ==>
              (h.response == ErrorResponse(500, "Failed to generate audio") <==>
               RequestAudio(req, srv, h.savedReference.value, RequestLanguages(req, srv).value).keys == [])
    ensures h.removedReference <==> h.response.ReelsResponse?
    ensures h.response.ReelsResponse? ==>
              && Validated(req) && h.savedReference.Some?
              && RequestLanguages(req, srv).Some? && srv.librariesAvailable
              && h.response.audioFiles == RequestAudio(req, srv, h.savedReference.value, RequestLanguages(req, srv).value)
              && h.response.audioFiles.keys != []
              && h.response.videoFiles == ReelFanOut(ReelFor(srv, RequestRepo(req), req.form["script"]), h.response.audioFiles.Items())
              && h.response.reelLanguages == h.response.videoFiles.keys
              && h.response.message == "Generated " + NatToString(|h.response.videoFiles.keys|) + " reels"
              && forall k :: k in h.response.videoFiles.entries ==> k in h.response.audioFiles.entries
  {
    if "audio" !in req.files then Handled(ErrorResponse(400, "No audio file provided"), None, false)
    else if "script" !in req.form then Handled(ErrorResponse(400, "No script provided"), None, false)
    else
      var upload := req.files["audio"];
      var script := req.form["script"];
      var repoName := RequestRepo(req);
      var langs := RequestLanguages(req, srv);
      if upload.filename == "" then Handled(ErrorResponse(400, "No audio file selected"), None, false)
      else if !AllowedFile(upload.filename) then Handled(ErrorResponse(400, "Invalid audio file format"), None, false)
      else
        var reference := ReferencePath(srv, upload);
        if !srv.saveUpload(upload, reference) then Handled(ErrorResponse(500, ExceptionText), None, false)
        else if langs.None? || !srv.librariesAvailable then Handled(ErrorResponse(500, ExceptionText), Some(reference), false)
        else
          var audio := RequestAudio(req, srv, reference, langs.value);
          if audio.keys == [] then Handled(ErrorResponse(500, "Failed to generate audio"), Some(reference), false)
          else
            var video := ReelFanOut(ReelFor(srv, repoName, script), audio.Items());
            forall k | k in video.entries ensures k in audio.entries {
              ReelFanOutKeys(ReelFor(srv, repoName, script), audio.Items(), k);
            }
            Handled(ReelsResponse("Generated " + NatToString(|video.keys|) + " reels", audio, video, video.keys),
                    Some(reference), true)
  }

  /** The reel loop of `generate_multilingual_reels`: one reel per audio track, skipping the ones that fail. */
  method CreateReels(reelCreator: RC.ReelCreator, srv: Server, repoName: string, script: string, audio: Dict<string>)
      returns (video: Dict<string>)
    requires reelCreator.outputDir == OutputFolder && reelCreator.duration == RC.ReelDuration
    requires audio.Valid()
    ensures video == ReelFanOut(ReelFor(srv, repoName, script), audio.Items())
  {
    var tracks := audio.Items();
    ghost var reel := ReelFor(srv, repoName, script);
    video := EmptyDict();
    var scriptData := ReelScript(script);
    var i := 0;
    while i < |tracks|
      invariant 0 <= i <= |tracks|
      invariant video == ReelFanOut(reel, tracks[..i])
    {
      var (lang, audioPath) := tracks[i];
      ReelFanOutNext(reel, tracks, i);
      var videoPath := reelCreator.CreateReel(repoName + "-" + lang, scriptData, PlaceholderImages, Some(audioPath), srv.media);
      assert reel(lang, audioPath) == videoPath by {
        assert reel == ReelFor(srv, repoName, script);
      }
      if videoPath.Some? {
        video := video.Put(lang, videoPath.value);
      }
      i := i + 1;
    }
    assert tracks[..i] == tracks;
  }

  /** `generate_multilingual_reels`: validation, saving, the audio batch, then one reel per audio track. */
  method GenerateMultilingualReels(req: Request, srv: Server) returns (h: Handled)
    ensures h == ReelsOutcome(req, srv)
  {
    if "audio" !in req.files {
      return Handled(ErrorResponse(400, "No audio file provided"), None, false);
    }
    if "script" !in req.form {
      return Handled(ErrorResponse(400, "No script provided"), None, false);
    }
    var upload := req.files["audio"];
    var script := req.form["script"];
    var targetLanguages := RequestLanguages(req, srv);
    var repoName := RequestRepo(req);
    if upload.filename == "" {
      return Handled(ErrorResponse(400, "No audio file selected"), None, false);
    }
    if !AllowedFile(upload.filename) {
      return Handled(ErrorResponse(400, "Invalid audio file format"), None, false);
    }
    var reference := UploadFolder + "/reference_" + srv.secureFilename(upload.filename);
    if !srv.saveUpload(upload, reference) {
      return Handled(ErrorResponse(500, ExceptionText), None, false);
    }
    if targetLanguages.None? || !srv.librariesAvailable {
      return Handled(ErrorResponse(500, ExceptionText), Some(reference), false);
    }
    var generator := new VC.MultilingualReelGenerator(reference, AudioFolder, VC.VoiceCloner(srv.synthesize));
    var audio := generator.GenerateMultilingualAudio(script, repoName, targetLanguages.value, srv.hub);
    if audio.keys == [] {
      return Handled(ErrorResponse(500, "Failed to generate audio"), Some(reference), false);
    }
    var reelCreator := new RC.ReelCreator(OutputFolder);
    var video := CreateReels(reelCreator, srv, repoName, script, audio);
    return Handled(ReelsResponse("Generated " + NatToString(|video.keys|) + " reels", audio, video, video.keys),
                   Some(reference), true);
  }
}
