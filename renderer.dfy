/**
 * `ContentRenderer.compose_video`: the video is stretched or cut to the narration, the
 * opposite of the reel creator, where the reel length is fixed and the audio is cut.
 * Loading clips and encoding are oracles.
 */
module Renderer {
  import opened Wrappers

  /** How the video track is fitted: looped out to a duration, or cut to [start, end]. */
  datatype FittedVideo = Looped(duration: real) | Cut(start: real, end: real)

  function FittedDuration(v: FittedVideo): real {
    match v
    case Looped(d) => d
    case Cut(start, end) => end - start
  }

  /** A video strictly shorter than the audio is looped; any other is cut to [0, audio length]. */
  function FitVideo(videoLength: real, audioLength: real): (r: FittedVideo)
    ensures r.Looped? <==> videoLength < audioLength
    ensures r.Cut? ==> r.start == 0.0
    ensures FittedDuration(r) == audioLength
  {
    if videoLength < audioLength then Looped(audioLength) else Cut(0.0, audioLength)
  }

  /** What is written: the fitted video with the whole, untrimmed audio file. */
  datatype Composition = Composition(video: FittedVideo, audioPath: string, audioLength: real)

  datatype MediaIO = MediaIO(
    videoLength: string -> Option<real>,
    audioLength: string -> Option<real>,
    write: (Composition, string) -> bool)

  /**
   * `compose_video`: true when both files load and the encode succeeds, false on any failure.
   * The written composition always lasts exactly as long as the audio.
   */
  function ComposeVideo(io: MediaIO, videoPath: string, audioPath: string, outputPath: string): (ok: bool)
    ensures ok ==> io.videoLength(videoPath).Some? && io.audioLength(audioPath).Some?
    ensures ok <==> exists c :: Written(io, videoPath, audioPath, outputPath, c)
  {
    match (io.videoLength(videoPath), io.audioLength(audioPath))
    case (Some(v), Some(a)) =>
      var c := Composition(FitVideo(v, a), audioPath, a);
      assert Written(io, videoPath, audioPath, outputPath, c) ==> io.write(c, outputPath);
      io.write(c, outputPath)
    case _ => false
  }

  /** c was the composition handed to the encoder, and the encoder succeeded. */
  predicate Written(io: MediaIO, videoPath: string, audioPath: string, outputPath: string, c: Composition) {
    && io.videoLength(videoPath).Some?
    && io.audioLength(audioPath).Some?
    && c == Composition(FitVideo(io.videoLength(videoPath).value, io.audioLength(audioPath).value), audioPath,
                        io.audioLength(audioPath).value)
    && io.write(c, outputPath)
  }

  /** The audio decides the length: whatever was written lasts as long as the untrimmed audio. */
  lemma AudioDecidesLength(io: MediaIO, videoPath: string, audioPath: string, outputPath: string, c: Composition)
    requires Written(io, videoPath, audioPath, outputPath, c)
    ensures FittedDuration(c.video) == c.audioLength == io.audioLength(audioPath).value
  {
  }
}
