/**
 * The image generator's prompt and filename builders, the fallback structure of image
 * generation, and the placeholder's text centring.
 *
 * The local model manager, the OpenAI-style client with its download, and the image
 * library that draws and saves the placeholder are oracles returning whether they succeeded.
 */
module ImageGenerator {
  import opened Wrappers
  import opened Strings
  import Paths

  /** `d.get(key, default)` on the string-valued metadata dictionaries. */
  function Lookup(d: map<string, string>, key: string, default: string): (r: string)
    ensures key in d ==> r == d[key]
    ensures key !in d ==> r == default
  {
    if key in d then d[key] else default
  }

  const ArchitectureIntro: string := "\n        Create a clean, professional architecture diagram for: "
  const DescriptionLabel: string := "\n\n        Description: "
  const Indent: string := "\n        "
  const ArchitectureStyle: string :=
    "\n\n        Style: Modern tech diagram with:\n        - Clear component boxes\n        - Labeled arrows showing data flow\n        - Color-coded sections (frontend, backend, database, etc.)\n        - Minimalist, professional aesthetic\n        - Tech stack icons if applicable\n        "

  /** The opening of the architecture prompt, naming the repository and its description. */
  function ArchitectureHead(repoName: string, description: string): (r: string)
    ensures Contains(r, repoName) && Contains(r, description)
  {
    var r := ArchitectureIntro + repoName + DescriptionLabel + description + Indent;
    ContainsMiddle(ArchitectureIntro, repoName, DescriptionLabel + description + Indent);
    assert r == ArchitectureIntro + repoName + (DescriptionLabel + description + Indent);
    ContainsMiddle(ArchitectureIntro + repoName + DescriptionLabel, description, Indent);
    r
  }

  /** A dictionary is truthy when it has an entry; `None` is falsy. */
  predicate Truthy(scriptData: Option<map<string, string>>) {
    scriptData.Some? && scriptData.value != map[]
  }

  const HowItWorksLabel: string := "How it works: "

  function HowItWorks(scriptData: map<string, string>): string {
    "\n\n" + (HowItWorksLabel + Lookup(scriptData, "solution", ""))
  }

  /**
   * `_build_architecture_prompt`: the head, then the solution when there is script data, then the
   * style. The prompt always names the repository and its description, and the length shows that
   * the solution is part of it exactly when the script data is truthy.
   */
  function BuildArchitecturePrompt(repoName: string, description: string, scriptData: Option<map<string, string>>): (r: string)
    ensures StartsWith(r, ArchitectureHead(repoName, description)) && EndsWith(r, ArchitectureStyle)
    ensures Contains(r, repoName) && Contains(r, description)
    ensures Truthy(scriptData) ==> Contains(r, HowItWorksLabel + Lookup(scriptData.value, "solution", ""))
    ensures |r| == |ArchitectureHead(repoName, description)| + |ArchitectureStyle| +
                   (if Truthy(scriptData) then |HowItWorks(scriptData.value)| else 0)
  {
    var head := ArchitectureHead(repoName, description);
    var middle := if Truthy(scriptData) then HowItWorks(scriptData.value) else "";
    var r := head + middle + ArchitectureStyle;
    ConcatEnds(head, middle, ArchitectureStyle);
    ContainsInPrefix(head, middle, repoName);
    ContainsInPrefix(head + middle, ArchitectureStyle, repoName);
    ContainsInPrefix(head, middle, description);
    ContainsInPrefix(head + middle, ArchitectureStyle, description);
    assert Truthy(scriptData) ==> Contains(r, HowItWorksLabel + Lookup(scriptData.value, "solution", "")) by {
      if Truthy(scriptData) {
        var how := HowItWorksLabel + Lookup(scriptData.value, "solution", "");
        ContainsSuffix("\n\n", how);
        ContainsIn(head, middle, ArchitectureStyle, how);
      }
    }
    r
  }

  const FlowIntro: string := "\n        Create a clean, modern problem-solution flow diagram:\n\n        Problem: "
  const SolutionLabel: string := "Solution: "
  /** The arrow reads as the mis-decoded text it is in the source file. */
  const FlowStyle: string :=
    "\n\n        Style: Minimalist, professional, with clear arrows showing the transformation.\n        Use a color scheme: Problem (red/orange tones) \U{E2}\U{2020}\U{2019} Solution (green/blue tones).\n        Include icons or simple illustrations.\n        "

  /** The problem-solution prompt: the hook after the problem label, then the solution after its label. */
  function FlowPrompt(hook: string, solution: string): (r: string)
    ensures StartsWith(r, FlowIntro + hook + Indent) && EndsWith(r, FlowStyle)
    ensures Contains(r, SolutionLabel + solution)
  {
    var r := FlowIntro + hook + Indent + SolutionLabel + solution + FlowStyle;
    assert r[..|FlowIntro + hook + Indent|] == FlowIntro + hook + Indent;
    assert r[|r| - |FlowStyle|..] == FlowStyle;
    ContainsMiddle(FlowIntro + hook + Indent, SolutionLabel + solution, FlowStyle);
    assert r == FlowIntro + hook + Indent + (SolutionLabel + solution) + FlowStyle;
    r
  }

  /** The bullet list of the feature showcase: the first five features, one `- <feature>` per line. */
  function FeaturesText(features: seq<string>): string
  {
    var shown := if |features| <= 5 then features else features[..5];
    Join("\n", seq(|shown|, i requires 0 <= i < |shown| => "- " + shown[i]))
  }

  /** With features free of line breaks, the list splits back into one bullet per shown feature. */
  lemma FeaturesTextLines(features: seq<string>)
    requires features != []
    requires forall i :: 0 <= i < |features| ==> '\n' !in features[i]
    ensures var lines := Split(FeaturesText(features), '\n');
            |lines| == (if |features| <= 5 then |features| else 5) &&
            forall i :: 0 <= i < |lines| ==> lines[i] == "- " + features[i]
  {
    var shown := if |features| <= 5 then features else features[..5];
    var bullets := seq(|shown|, i requires 0 <= i < |shown| => "- " + shown[i]);
    forall i | 0 <= i < |bullets| ensures '\n' !in bullets[i] {
      assert bullets[i] == "- " + shown[i];
      assert shown[i] == features[i];
    }
    SplitJoin(bullets, '\n');
  }

  const FeatureIntro: string := "\n        Create a modern feature showcase infographic for: "
  const FeaturesLabel: string := "\n\n        Features:\n        "
  const FeatureStyle: string :=
    "\n\n        Style: Clean, modern UI design with icons for each feature.\n        Layout: Grid or card-based layout.\n        Color scheme: Professional tech colors (blues, purples, gradients).\n        "

  /** The feature showcase prompt: the repository name, then the bullet list. */
  function FeaturePrompt(repoName: string, features: seq<string>): (r: string)
    ensures StartsWith(r, FeatureIntro + repoName + FeaturesLabel) && EndsWith(r, FeatureStyle)
    ensures Contains(r, FeaturesText(features))
  {
    var head := FeatureIntro + repoName + FeaturesLabel;
    var r := head + FeaturesText(features) + FeatureStyle;
    assert r[..|head|] == head;
    assert r[|r| - |FeatureStyle|..] == FeatureStyle;
    ContainsMiddle(head, FeaturesText(features), FeatureStyle);
    r
  }

  /** The text drawn on a placeholder image. */
  function PlaceholderText(filename: string): string {
    "Placeholder\n" + filename + "\n\n(Nano Banana 2 integration pending)"
  }

  /**
   * The placeholder's text position on the 1024 by 1024 canvas, by floor division: the left and
   * top margins are each half of what is left over, rounded down, so the far margin is equal or
   * one pixel wider, also when the text is wider than the canvas.
   */
  function PlaceholderPosition(textWidth: int, textHeight: int): (r: (int, int))
    ensures 0 <= (1024 - textWidth) - 2 * r.0 <= 1
    ensures 0 <= (1024 - textHeight) - 2 * r.1 <= 1
  {
    ((1024 - textWidth) / 2, (1024 - textHeight) / 2)
  }

  /** A placeholder is drawn centred whatever the text's size: the position depends only on the gap left over. */
  lemma PlaceholderCentred(w: int, h: int, dw: int)
    ensures PlaceholderPosition(w + 2 * dw, h).0 == PlaceholderPosition(w, h).0 - dw
  {
  }

  /**
   * Whether each foreign step succeeds: the manager's model lookup, the client's generation with
   * the download and write to a path, and the placeholder's drawing and saving of a text to a path.
   */
  datatype ImageBackend = ImageBackend(
    modelInfo: string -> bool,
    generate: (string, string) -> bool,
    savePlaceholder: (string, string) -> bool)

  datatype ImageGenerator = ImageGenerator(modelName: string, outputDir: string, backend: ImageBackend) {
    /**
     * `self.output_dir / filename`: the file name under a normal output directory when it is
     * plain; a name with a leading '/' replaces the directory, and empty or "." pieces are dropped.
     */
    function OutputPath(filename: string): string {
      Paths.JoinPath(outputDir, filename)
    }

    /** The two readings of `OutputPath`: plain names go below the directory as written; otherwise by components. */
    lemma OutputPathJoins(filename: string)
      ensures Paths.NormalDir(outputDir) && Paths.PlainName(filename) ==> OutputPath(filename) == outputDir + "/" + filename
      ensures Paths.Parts(OutputPath(filename)) ==
                if Paths.Absolute(filename) then Paths.Parts(filename) else Paths.Parts(outputDir) + Paths.Parts(filename)
    {
      Paths.JoinParts(outputDir, filename);
      if Paths.NormalDir(outputDir) && Paths.PlainName(filename) {
        Paths.JoinPlain(outputDir, filename);
      }
    }

    /** `_generate_placeholder`: the saved path, or None when drawing or saving fails. */
    function GeneratePlaceholder(filename: string): (r: Option<string>)
      ensures r.Some? <==> backend.savePlaceholder(PlaceholderText(filename), OutputPath(filename))
      ensures r.Some? ==> r.value == OutputPath(filename)
    {
      if backend.savePlaceholder(PlaceholderText(filename), OutputPath(filename)) then Some(OutputPath(filename)) else None
    }

    /**
     * `_generate_image`: the model lookup failing gives None; otherwise the client's image, and when
     * the client fails the placeholder, which may itself give None. Either way the file is the
     * requested name in the output directory.
     */
    function GenerateImage(prompt: string, filename: string): (r: Option<string>)
      ensures r.Some? ==> r.value == OutputPath(filename)
      ensures r.None? <==> !backend.modelInfo(modelName) ||
                           (!backend.generate(prompt, OutputPath(filename)) &&
                            !backend.savePlaceholder(PlaceholderText(filename), OutputPath(filename)))
      ensures backend.modelInfo(modelName) && backend.generate(prompt, OutputPath(filename)) ==> r.Some?
    {
      if !backend.modelInfo(modelName) then None
      else if backend.generate(prompt, OutputPath(filename)) then Some(OutputPath(filename))
      else GeneratePlaceholder(filename)
    }

    /** `generate_architecture_diagram`: name defaults to "unknown", description to "". */
    function GenerateArchitectureDiagram(repoData: map<string, string>, scriptData: Option<map<string, string>>): (r: Option<string>)
      ensures r.Some? ==> r.value == OutputPath(Lookup(repoData, "name", "unknown") + "_architecture.png")
      ensures r == GenerateImage(BuildArchitecturePrompt(Lookup(repoData, "name", "unknown"), Lookup(repoData, "description", ""), scriptData),
                                 Lookup(repoData, "name", "unknown") + "_architecture.png")
    {
      var repoName := Lookup(repoData, "name", "unknown");
      var description := Lookup(repoData, "description", "");
      GenerateImage(BuildArchitecturePrompt(repoName, description, scriptData), repoName + "_architecture.png")
    }

    /** `generate_problem_solution_flow`: hook and solution default to "". */
    function GenerateProblemSolutionFlow(repoData: map<string, string>, scriptData: map<string, string>): (r: Option<string>)
      ensures r.Some? ==> r.value == OutputPath(Lookup(repoData, "name", "unknown") + "_flow.png")
      ensures r == GenerateImage(FlowPrompt(Lookup(scriptData, "hook", ""), Lookup(scriptData, "solution", "")),
                                 Lookup(repoData, "name", "unknown") + "_flow.png")
    {
      var repoName := Lookup(repoData, "name", "unknown");
      GenerateImage(FlowPrompt(Lookup(scriptData, "hook", ""), Lookup(scriptData, "solution", "")), repoName + "_flow.png")
    }

    /** `generate_feature_showcase`. */
    function GenerateFeatureShowcase(repoData: map<string, string>, features: seq<string>): (r: Option<string>)
      ensures r.Some? ==> r.value == OutputPath(Lookup(repoData, "name", "unknown") + "_features.png")
      ensures r == GenerateImage(FeaturePrompt(Lookup(repoData, "name", "unknown"), features),
                                 Lookup(repoData, "name", "unknown") + "_features.png")
    {
      var repoName := Lookup(repoData, "name", "unknown");
      GenerateImage(FeaturePrompt(repoName, features), repoName + "_features.png")
    }
  }

  /** The generator's defaults. */
  function DefaultGenerator(backend: ImageBackend): (g: ImageGenerator)
    ensures g.modelName == "nano-banana-2" && g.outputDir == "output/images"
  {
    ImageGenerator("nano-banana-2", "output/images", backend)
  }
}
