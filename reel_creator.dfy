/**
 * The 20-second vertical reel: a fixed five-clip timeline (intro, problem, solution,
 * architecture, outro), optional narration cut to the reel length, and the output file name.
 *
 * moviepy appears as oracles: whether a path exists, whether an image loads, whether a text
 * clip renders, the length of an audio file (None when loading it raises), and whether the
 * final encode succeeds. Durations are seconds; clip durations are whole seconds.
 */
module ReelCreator {
  import opened Wrappers
  import opened Strings
  import Paths

  /** One layer of a composited clip. A text layer records its text and font size. */
  datatype Layer = Background | Image(path: string) | Text(text: string, fontSize: nat)

  datatype Clip = Clip(layers: seq<Layer>, duration: nat)

  /** The narration attached to the reel: the part [start, end) of an audio file. */
  datatype AudioTrack = AudioTrack(source: string, start: real, end: real)

  datatype Video = Video(clips: seq<Clip>, audio: Option<AudioTrack>)

  datatype Media = Media(
    pathExists: string -> bool,
    imageLoads: string -> bool,
    renderText: (string, nat) -> bool,
    audioLength: string -> Option<real>,
    writeVideo: (Video, string) -> bool)

  const TitleFont: nat := 70
  const HeaderFont: nat := 60
  const BodyFont: nat := 40
  const OutroFont: nat := 80
  const OutroText: string := "Link in Bio\nCheck the Blog!"

  /** The body shown under a section header: at most 100 characters, marked "..." when cut. */
  function TruncateBody(body: string): (r: string)
    ensures |r| <= 100
    ensures |body| <= 100 ==> r == body
    ensures |body| > 100 ==> |r| == 100 && r[..97] == body[..97] && r[97..] == "..."
  {
    if |body| > 100 then body[..97] + "..." else body
  }

  /** A title-card clip: the background, with the text on top when it renders. */
  function CardClip(m: Media, text: string, fontSize: nat, duration: nat): (r: Clip)
    ensures r.duration == duration && |r.layers| >= 1 && r.layers[0] == Background
    ensures m.renderText(text, fontSize) ==> r.layers == [Background, Text(text, fontSize)]
    ensures !m.renderText(text, fontSize) ==> r.layers == [Background]
  {
    if m.renderText(text, fontSize) then Clip([Background, Text(text, fontSize)], duration)
    else Clip([Background], duration)
  }

  /** The image of a section is shown when a non-empty path is given and exists. */
  predicate ShowsImage(m: Media, image: Option<string>) {
    image.Some? && image.value != "" && m.pathExists(image.value)
  }

  /**
   * A section clip: background, then the image if shown, then the header and the body. A text
   * that fails to render drops itself and whatever text follows, keeping the layers before it.
   * None when an image that is shown fails to load, which aborts the whole reel.
   */
  function SectionClip(m: Media, header: string, body: string, image: Option<string>, duration: nat): (r: Option<Clip>)
    ensures r.None? <==> ShowsImage(m, image) && !m.imageLoads(image.value)
    ensures r.Some? ==> r.value.duration == duration && |r.value.layers| >= 1 && r.value.layers[0] == Background
    ensures r.Some? ==> ((image.Some? && Image(image.value) in r.value.layers) <==> ShowsImage(m, image))
    ensures r.Some? ==> (Text(header, HeaderFont) in r.value.layers <==> m.renderText(header, HeaderFont))
    ensures r.Some? ==> (Text(TruncateBody(body), BodyFont) in r.value.layers <==>
                           m.renderText(header, HeaderFont) && m.renderText(TruncateBody(body), BodyFont))
    ensures r.Some? ==> forall i :: 1 <= i < |r.value.layers| ==> r.value.layers[i] != Background
  {
    var pictures := if ShowsImage(m, image) then [Image(image.value)] else [];
    var texts :=
      if !m.renderText(header, HeaderFont) then []
      else if !m.renderText(TruncateBody(body), BodyFont) then [Text(header, HeaderFont)]
      else [Text(header, HeaderFont), Text(TruncateBody(body), BodyFont)];
    if ShowsImage(m, image) && !m.imageLoads(image.value) then None
    else Some(Clip([Background] + pictures + texts, duration))
  }

  /** `script_data.get(key, default)` and `images.get(key)` */
  function GetOr(d: map<string, string>, key: string, default: string): string {
    if key in d then d[key] else default
  }

  function Get(d: map<string, string>, key: string): Option<string> {
    if key in d then Some(d[key]) else None
  }

  /** The five clips of a reel, or None when a section image fails to load. */
  function Timeline(m: Media, repoName: string, scriptData: map<string, string>, images: map<string, string>): (r: Option<seq<Clip>>)
    ensures r.Some? ==> |r.value| == 5
    ensures r.Some? ==> [r.value[0].duration, r.value[1].duration, r.value[2].duration,
                         r.value[3].duration, r.value[4].duration] == [3, 5, 5, 4, 3]
    ensures r.Some? ==> (r.value[0] == CardClip(m, repoName, TitleFont, 3) &&
                         r.value[4] == CardClip(m, OutroText, OutroFont, 3))
    ensures r.Some? ==>
              && Some(r.value[1]) == SectionClip(m, "The Problem", GetOr(scriptData, "hook", "Problem Analysis"), Get(images, "flow"), 5)
              && Some(r.value[2]) == SectionClip(m, "The Solution", GetOr(scriptData, "solution", "The Solution"), Get(images, "screenshot"), 5)
              && Some(r.value[3]) == SectionClip(m, "Architecture", "How it Works", Get(images, "architecture"), 4)
    ensures r.None? <==>
              || SectionClip(m, "The Problem", GetOr(scriptData, "hook", "Problem Analysis"), Get(images, "flow"), 5).None?
              || SectionClip(m, "The Solution", GetOr(scriptData, "solution", "The Solution"), Get(images, "screenshot"), 5).None?
              || SectionClip(m, "Architecture", "How it Works", Get(images, "architecture"), 4).None?
  {
    var problem := SectionClip(m, "The Problem", GetOr(scriptData, "hook", "Problem Analysis"), Get(images, "flow"), 5);
    var solution := SectionClip(m, "The Solution", GetOr(scriptData, "solution", "The Solution"), Get(images, "screenshot"), 5);
    var architecture := SectionClip(m, "Architecture", "How it Works", Get(images, "architecture"), 4);
    if problem.None? || solution.None? || architecture.None? then None
    else Some([CardClip(m, repoName, TitleFont, 3), problem.value, solution.value, architecture.value,
               CardClip(m, OutroText, OutroFont, 3)])
  }

  /** Sum of the clip durations. */
  function TotalDuration(clips: seq<Clip>): nat {
    if clips == [] then 0 else TotalDuration(clips[..|clips| - 1]) + clips[|clips| - 1].duration
  }

  /** The timeline always fills exactly the reel length of 20 seconds. */
  lemma TimelineFillsReel(m: Media, repoName: string, scriptData: map<string, string>, images: map<string, string>)
    requires Timeline(m, repoName, scriptData, images).Some?
    ensures TotalDuration(Timeline(m, repoName, scriptData, images).value) == ReelDuration
  {
    var c := Timeline(m, repoName, scriptData, images).value;
    assert TotalDuration(c[..1]) == 3 by { assert c[..1][..0] == []; }
    assert TotalDuration(c[..2]) == 8 by { assert c[..2][..1] == c[..1]; }
    assert TotalDuration(c[..3]) == 13 by { assert c[..3][..2] == c[..2]; }
    assert TotalDuration(c[..4]) == 17 by { assert c[..4][..3] == c[..3]; }
    assert c[..5] == c && c[..5][..4] == c[..4];
  }

  const ReelDuration: nat := 20

  /** Narration of the given length, fitted to the reel: kept whole when shorter, else cut to [0, 20]. */
  function FitAudio(source: string, length: real): (a: AudioTrack)
    ensures a.source == source && a.start == 0.0
    ensures a.end - a.start == (if length < ReelDuration as real then length else ReelDuration as real)
    ensures length < ReelDuration as real ==> a.end == length
  {
    if length < ReelDuration as real then AudioTrack(source, 0.0, length)
    else AudioTrack(source, 0.0, ReelDuration as real)
  }

  /** Narration is attached only when a non-empty audio path is given and exists. */
  predicate AttachesAudio(m: Media, audioPath: Option<string>) {
    audioPath.Some? && audioPath.value != "" && m.pathExists(audioPath.value)
  }

  /** `f"{repo_name.lower().replace(' ', '-')}-reel.mp4"`; '/' is kept. */
  function ReelFileName(repoName: string): (r: string)
    ensures |r| == |repoName| + 9 && r[|repoName|..] == "-reel.mp4"
    ensures forall i :: 0 <= i < |repoName| ==>
              r[i] == if LowerChar(repoName[i]) == ' ' then '-' else LowerChar(repoName[i])
  {
    ReplaceChar(Lower(repoName), ' ', '-') + "-reel.mp4"
  }

  /**
   * `self.output_dir / output_filename`: the file name under a normal output directory when the
   * name is plain; a name with a leading '/' replaces the directory, and empty or "." pieces of
   * either are dropped.
   */
  function ReelPath(outputDir: string, repoName: string): string {
    Paths.JoinPath(outputDir, ReelFileName(repoName))
  }

  /** The two readings of `ReelPath`: plain names go below the directory as written; otherwise by components. */
  lemma ReelPathJoins(outputDir: string, repoName: string)
    ensures Paths.NormalDir(outputDir) && Paths.PlainName(ReelFileName(repoName)) ==>
              ReelPath(outputDir, repoName) == outputDir + "/" + ReelFileName(repoName)
    ensures Paths.Parts(ReelPath(outputDir, repoName)) ==
              if Paths.Absolute(ReelFileName(repoName)) then Paths.Parts(ReelFileName(repoName))
              else Paths.Parts(outputDir) + Paths.Parts(ReelFileName(repoName))
  {
    var file := ReelFileName(repoName);
    Paths.JoinParts(outputDir, file);
    if Paths.NormalDir(outputDir) && Paths.PlainName(file) {
      Paths.JoinPlain(outputDir, file);
    }
  }

  /**
   * The composed reel: the timeline, with the fitted narration when one is attached. None when
   * a section image or the attached audio fails to load.
   */
  function ReelVideo(m: Media, repoName: string, scriptData: map<string, string>, images: map<string, string>,
                     audioPath: Option<string>): (r: Option<Video>)
    ensures r.None? <==> Timeline(m, repoName, scriptData, images).None? ||
                         (AttachesAudio(m, audioPath) && m.audioLength(audioPath.value).None?)
    ensures r.Some? ==> Some(r.value.clips) == Timeline(m, repoName, scriptData, images)
    ensures r.Some? ==> (r.value.audio.Some? <==> AttachesAudio(m, audioPath))
    ensures r.Some? && r.value.audio.Some? ==>
              r.value.audio.value == FitAudio(audioPath.value, m.audioLength(audioPath.value).value)
              && r.value.audio.value.end - r.value.audio.value.start <= ReelDuration as real
  {
    match Timeline(m, repoName, scriptData, images)
    case None => None
    case Some(clips) =>
      if !AttachesAudio(m, audioPath) then Some(Video(clips, None))
      else match m.audioLength(audioPath.value)
        case None => None
        case Some(length) => Some(Video(clips, Some(FitAudio(audioPath.value, length))))
  }

  /** `create_reel`: the output path when the reel is composed and written, None on any failure. */
  function ReelOutcome(outputDir: string, m: Media, repoName: string, scriptData: map<string, string>,
                       images: map<string, string>, audioPath: Option<string>): (r: Option<string>)
    ensures r.Some? ==> r.value == ReelPath(outputDir, repoName)
    ensures r.Some? <==> ReelVideo(m, repoName, scriptData, images, audioPath).Some? &&
                         m.writeVideo(ReelVideo(m, repoName, scriptData, images, audioPath).value, ReelPath(outputDir, repoName))
  {
    match ReelVideo(m, repoName, scriptData, images, audioPath)
    case None => None
    case Some(video) =>
      if m.writeVideo(video, ReelPath(outputDir, repoName)) then Some(ReelPath(outputDir, repoName)) else None
  }

  class ReelCreator {
    const outputDir: string
    const width: nat
    const height: nat
    const fps: nat
    const duration: nat

    constructor (outputDir: string)
      ensures this.outputDir == outputDir
      ensures width == 1080 && height == 1920 && fps == 30 && duration == ReelDuration
    {
      this.outputDir := outputDir;
      width := 1080;
      height := 1920;
      fps := 30;
      duration := ReelDuration;
    }

    /** `_create_intro` */
    method CreateIntro(title: string, clipDuration: nat, m: Media) returns (clip: Clip)
      ensures clip == CardClip(m, title, TitleFont, clipDuration)
    {
      var layers := [Background];
      if m.renderText(title, TitleFont) {
        layers := layers + [Text(title, TitleFont)];
      }
      clip := Clip(layers, clipDuration);
    }

    /** `_create_outro` */
    method CreateOutro(clipDuration: nat, m: Media) returns (clip: Clip)
      ensures clip == CardClip(m, OutroText, OutroFont, clipDuration)
    {
      var layers := [Background];
      if m.renderText(OutroText, OutroFont) {
        layers := layers + [Text(OutroText, OutroFont)];
      }
      clip := Clip(layers, clipDuration);
    }

    /** `_create_section`: None stands for the image error that escapes to `create_reel`. */
    method CreateSection(header: string, body: string, imagePath: Option<string>, clipDuration: nat, m: Media)
      returns (clip: Option<Clip>)
      ensures clip == SectionClip(m, header, body, imagePath, clipDuration)
    {
      var layers := [Background];
      if imagePath.Some? && imagePath.value != "" && m.pathExists(imagePath.value) {
        if !m.imageLoads(imagePath.value) {
          return None;
        }
        layers := layers + [Image(imagePath.value)];
      }
      ghost var pictures := layers[1..];
      if m.renderText(header, HeaderFont) {
        layers := layers + [Text(header, HeaderFont)];
        var shown := body;
        if |shown| > 100 {
          shown := shown[..97] + "...";
        }
        assert shown == TruncateBody(body);
        if m.renderText(shown, BodyFont) {
          layers := layers + [Text(shown, BodyFont)];
        }
      }
      assert pictures == if ShowsImage(m, imagePath) then [Image(imagePath.value)] else [];
      assert layers[1 + |pictures|..] ==
        if !m.renderText(header, HeaderFont) then []
        else if !m.renderText(TruncateBody(body), BodyFont) then [Text(header, HeaderFont)]
        else [Text(header, HeaderFont), Text(TruncateBody(body), BodyFont)];
      assert layers == [Background] + pictures + layers[1 + |pictures|..];
      clip := Some(Clip(layers, clipDuration));
    }

    /** The clip-building half of `create_reel`: the five clips appended in timeline order. */
    method BuildTimeline(repoName: string, scriptData: map<string, string>, images: map<string, string>, m: Media)
      returns (clips: Option<seq<Clip>>)
      ensures clips == Timeline(m, repoName, scriptData, images)
    {
      var built: seq<Clip> := [];
      var intro := CreateIntro(repoName, 3, m);
      built := built + [intro];
      var problem := CreateSection("The Problem", GetOr(scriptData, "hook", "Problem Analysis"), Get(images, "flow"), 5, m);
      if problem.None? {
        return None;
      }
      built := built + [problem.value];
      var solution := CreateSection("The Solution", GetOr(scriptData, "solution", "The Solution"), Get(images, "screenshot"), 5, m);
      if solution.None? {
        return None;
      }
      built := built + [solution.value];
      var architecture := CreateSection("Architecture", "How it Works", Get(images, "architecture"), 4, m);
      if architecture.None? {
        return None;
      }
      built := built + [architecture.value];
      var outro := CreateOutro(3, m);
      built := built + [outro];
      assert built == [intro, problem.value, solution.value, architecture.value, outro];
      clips := Some(built);
    }

    /** `create_reel`: build the timeline, attach the fitted narration if there is one, write the file. */
    method CreateReel(repoName: string, scriptData: map<string, string>, images: map<string, string>,
                      audioPath: Option<string>, m: Media) returns (r: Option<string>)
      requires duration == ReelDuration
      ensures r == ReelOutcome(outputDir, m, repoName, scriptData, images, audioPath)
    {
      var clips := BuildTimeline(repoName, scriptData, images, m);
      if clips.None? {
        return None;
      }
      var finalVideo := Video(clips.value, None);
      if audioPath.Some? && audioPath.value != "" && m.pathExists(audioPath.value) {
        var length := m.audioLength(audioPath.value);
        if length.None? {
          return None;
        }
        var audio := AudioTrack(audioPath.value, 0.0, length.value);
        if !(length.value < duration as real) {
          audio := AudioTrack(audioPath.value, 0.0, duration as real);
        }
        finalVideo := finalVideo.(audio := Some(audio));
      }
      var outputPath := ReelPath(outputDir, repoName);
      if !m.writeVideo(finalVideo, outputPath) {
        return None;
      }
      return Some(outputPath);
    }
  }
}
