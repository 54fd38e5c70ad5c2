# bestof-opensorce: a Dafny model of the content pipeline's deterministic core

bestof-opensorce finds promising open-source repositories and turns each one into published content: a blog post, header images, a 20-second vertical video reel and narration in several languages. Around its machine-learning, video and HTTP calls sits a layer of plain decisions, and this project models that layer and proves properties of it:

- **Multilingual voice pipeline.** `VoiceCloner` falls back to English for unsupported languages. `TextTranslator` keeps a lazy cache of one translation model per language pair. `MultilingualReelGenerator` turns one script into one audio track per language.
- **Reel timeline.** `ReelCreator` builds a fixed five-card timeline with image and text layers that degrade gracefully, trims the narration to the reel's length and names the output file. `ContentRenderer` does the opposite reconciliation: the video follows the audio.
- **HTTP API.** The multilingual reel endpoint validates an upload, fans out one reel per language and assembles the JSON response. The languages endpoint filters languages by the metadata known for them.
- **Scanners.** `GitHubScanner.validate_repo` filters repositories. The Rust bridge finds the scanner binary and cuts the repository JSON out of its output between two markers.
- **Image prompts.** The image generator builds prompts and file names, falls back to a placeholder image, and centres the placeholder text.
- **Blog maintenance scripts.** These are the frontmatter parsers, slug derivation, page-bundle conversion, the blog index, duplicate grouping and canonical choice, migration of dated posts into bundles, the public image sync with its `screenshot:` rewrite, and the Gemini header-image batch.

Every call into a foreign library becomes a parameter of the model, usually a function returning `Option` or `bool`. These calls are ML inference, moviepy and text rendering, HTTP, `json.loads`, `secure_filename`, the clock, filesystem existence checks and deletions.

Paths that the scripts build from fixed component names are component sequences (`Paths.Path`). Where an output directory string is joined with a file name (`output_dir / filename` for the audio track, the reel and the image), `Paths.JoinPath` follows pathlib's POSIX rules. The empty and "." components are dropped, repeated slashes collapse (a root of exactly two slashes is kept), and an absolute file name replaces the directory.

The scripts walk the blog directory. Their input is the list of files found, in traversal order, each with its path relative to the blog directory and its content. Their effects are a returned list of filesystem operations (`FileOps.FsOp`: write, copy, move, unlink).

`TextTranslator` updates its `models` and `tokenizers` dictionaries in place, so it is a Dafny `class` whose methods are proved against the value-level `LoadStep` and `TranslateStep`. The loops in the scripts and in `generate_multilingual_audio` are `while` loops proved against the folds that specify them. `ReelCreator` is a class whose methods build the clip list. Python's insertion-ordered dictionaries are `Dicts.Dict`: a key sequence plus a map.

Module layout follows the source files:

- `voice_cloning.dfy`, `reel_creator.dfy`, `renderer.dfy`, `multilingual_api.dfy`;
- `github_scanner.dfy`, `rust_bridge.dfy`, `image_generator.dfy`;
- `organize_blog_posts.dfy`, `generate_blog_index.dfy`, `clean_duplicate_blogs.dfy`, `find_duplicates.dfy`;
- `migrate_blog.dfy`, `sync_images.dfy`, `generate_images_gemini.dfy`.

Shared pieces have modules of their own:

- `Frontmatter`: the `split("---", 2)` and the colon-split line loop used by three scripts;
- `FieldPatterns`: the `repo:` and `full_name:` regular expressions used by three scripts;
- `DuplicateGroups`: the walk-and-group loop of both duplicate scripts;
- `Strings`, `Paths`, `Dicts`, `Sorting`, `Json`, `FileOps`, `Wrappers`.

## Model

| member | source | states |
|---|---|---|
| VoiceCloning.CoerceLanguage | src/video_generator/voice_cloning.py:83-85 | The language used is always supported: a supported code passes unchanged and any other becomes "en". |
| VoiceCloning.VoiceCloner.CloneVoice | src/video_generator/voice_cloning.py:63-102 | Returns the output path exactly when synthesis with the coerced language succeeds, and None when it fails; the language never causes a failure. |
| VoiceCloning.VoiceCloner.GetSupportedLanguages | src/video_generator/voice_cloning.py:104-106 | The 16 distinct codes, and they are exactly the codes that coercion leaves unchanged. |
| VoiceCloning.LoadStep | src/video_generator/voice_cloning.py:138-169 | Success iff the pair ends up with a model. A cached pair is a hit that changes nothing, and an unknown pair fails with the cache unchanged. Existing entries are never evicted or replaced, and only the requested pair can be added. A tokenizer may be left behind by a failed model load. Cache consistency is preserved. |
| VoiceCloning.LoadOnce | src/video_generator/voice_cloning.py:149-152 | After a successful load, any later load of the same pair is a hit, whatever the model hub does, so each pair is loaded at most once. |
| VoiceCloning.TranslateStep | src/video_generator/voice_cloning.py:171-208 | The cache after a translation is the cache after loading the pair. An unknown pair gives None with no change. A cached pair gives the generate-and-decode oracle's output. A result implies the pair is loaded. |
| VoiceCloning.TextTranslator.constructor | src/video_generator/voice_cloning.py:115-136 | Starts with empty model and tokenizer caches. |
| VoiceCloning.TextTranslator.LoadModel | src/video_generator/voice_cloning.py:138-169 | The result and the new cache are those of LoadStep on the old cache. |
| VoiceCloning.TextTranslator.Translate | src/video_generator/voice_cloning.py:171-208 | The result and the new cache are those of TranslateStep on the old cache. |
| VoiceCloning.TextTranslator.GetSupportedPairs | src/video_generator/voice_cloning.py:210-212 | Exactly the 9 configured pairs, each listed once. |
| VoiceCloning.SafeName | src/video_generator/voice_cloning.py:255 | Same length as the repository name, lowercased, with every space and slash turned into '-'. |
| VoiceCloning.AudioStep | src/video_generator/voice_cloning.py:257-287 | One language: English is synthesised from the script verbatim. A success is stored under `<dir>/<safe>-<lang>.wav`. A non-English success needs an "en-<lang>" pair. Loaded models are kept. |
| VoiceCloning.AudioStepTranslates | src/video_generator/voice_cloning.py:257-287 | Any language but English: the cache afterwards is the translator's. An empty or failed translation of the script from English gives no file. Otherwise the translation is cloned in that language to `<dir>/<safe>-<lang>.wav`. |
| VoiceCloning.AudioBatchResults | src/video_generator/voice_cloning.py:257-287 | Every result key is a requested code mapped to its own wav path. Every non-English key has an English pair. The translator cache only grows. |
| VoiceCloning.AudioBatchSkipsOnlyFailures | src/video_generator/voice_cloning.py:257-287 | A code is in the results iff some occurrence of it in the request succeeded, so a failure skips only that language and never aborts the batch. |
| VoiceCloning.StoredOnlyOnSuccess | src/video_generator/voice_cloning.py:280-287 | A stored key comes from a successful attempt for that code. |
| VoiceCloning.SuccessIsStored | src/video_generator/voice_cloning.py:280-281 | A successful attempt leaves its code in the results. |
| VoiceCloning.AudioPathJoins | src/video_generator/voice_cloning.py:270-271 | With a normal directory and a plain file name, the wav path is `<dir>/<safe>-<lang>.wav`. In general its components are the file name's when that is absolute, and otherwise the directory's followed by the file name's. |
| Paths.PartsSplit | src/video_generator/voice_cloning.py:271 | pathlib's components of a string are its '/'-separated pieces without the empty and "." ones. |
| Paths.PartsAreComponents | src/video_generator/voice_cloning.py:271 | Every component is non-empty, not ".", and free of '/'. |
| Paths.Root | src/video_generator/voice_cloning.py:271 | "//" iff the string starts with exactly two slashes. "/" iff it starts with one slash, or with three or more. "" iff it is empty or starts with another character. |
| Paths.JoinPlain | src/video_generator/voice_cloning.py:271 | `dir / name` is `dir + "/" + name` when the directory is already in normal form and the name is a plain relative file name. |
| Paths.JoinParts | src/video_generator/voice_cloning.py:271 | The components of `dir / name` are the name's when it is absolute, and otherwise the directory's followed by the name's. |
| VoiceCloning.AudioBatchNext | src/video_generator/voice_cloning.py:257-287 | The batch over one more language adds that language's step to the batch so far. |
| VoiceCloning.SucceededPrefix | src/video_generator/voice_cloning.py:257-287 | Whether attempt i succeeds does not depend on the languages after it. |
| VoiceCloning.LastSuccessStored | src/video_generator/voice_cloning.py:280-281 | A success of the last language stores it. |
| VoiceCloning.StoredKept | src/video_generator/voice_cloning.py:280-287 | A code stored before the last language is still stored after it. |
| VoiceCloning.EarlierSuccessStored | src/video_generator/voice_cloning.py:280-287 | A success before the last language is in the results. |
| VoiceCloning.PrefixStores | src/video_generator/voice_cloning.py:280-287 | A success before the last language is in the results of the languages up to the last. |
| VoiceCloning.CacheBeforePrefix | src/video_generator/voice_cloning.py:257-287 | The cache seen by attempt i depends only on the languages before it. |
| VoiceCloning.TranslatableTargets | src/video_generator/voice_cloning.py:126-136 | "en-<lang>" is a configured pair iff lang is one of es, fr, de, it, pt, ru, zh, ja, ar. |
| VoiceCloning.UntranslatableSkipped | src/video_generator/voice_cloning.py:262-267 | Any other non-English code (zh-cn, pl, ...) never appears in the results. |
| VoiceCloning.MultilingualReelGenerator.constructor | src/video_generator/voice_cloning.py:220-235 | Keeps the reference audio, output directory and cloner, with a fresh translator whose caches are empty. |
| VoiceCloning.MultilingualReelGenerator.ProcessLanguage | src/video_generator/voice_cloning.py:257-283 | The path and the translator's new cache are those of AudioStep on the old cache. |
| VoiceCloning.MultilingualReelGenerator.GenerateMultilingualAudio | src/video_generator/voice_cloning.py:237-287 | The loop's results and the translator's new cache are those of AudioBatch over the requested languages. |
| ReelCreator.TruncateBody | src/video_generator/reel_creator.py:201-202 | At most 100 characters. A body of 100 or fewer is unchanged. A longer one keeps its first 97 characters and ends in "...". |
| ReelCreator.CardClip | src/video_generator/reel_creator.py:141-160 | Intro and outro cards: background first, then the text layer when it renders, and the background alone when rendering fails. |
| ReelCreator.SectionClip | src/video_generator/reel_creator.py:162-218 | Fails only when a given, existing image will not load. The background comes first. The image layer is present iff the path is given and exists. The header is present iff it renders, and the body iff header and body both render (a body failure keeps the header). |
| ReelCreator.Timeline | src/video_generator/reel_creator.py:66-105 | Exactly five clips of 3, 5, 5, 4 and 3 units. Intro title and outro text are fixed. The problem card uses the hook (default "Problem Analysis") with the flow image, the solution card the solution (default "The Solution") with the screenshot, and the architecture card "How it Works" with the architecture image. |
| ReelCreator.TimelineFillsReel | src/video_generator/reel_creator.py:37 | The five durations add up to the reel duration of 20. |
| ReelCreator.FitAudio | src/video_generator/reel_creator.py:111-119 | The attached track starts at 0 and lasts min(length, 20): shorter audio is kept whole, longer audio is cut to [0, 20]. |
| ReelCreator.ReelFileName | src/video_generator/reel_creator.py:122 | The name lowercased with spaces replaced by '-', slashes kept, followed by "-reel.mp4". |
| ReelCreator.ReelPathJoins | src/video_generator/reel_creator.py:122-123 | With a normal directory and a plain file name, the path is `<dir>/<file>`. In general its components are the file name's when that is absolute, and otherwise the directory's followed by the file name's. |
| ReelCreator.ReelVideo | src/video_generator/reel_creator.py:66-119 | The video holds the timeline's clips. Audio is attached iff a path is given and the file exists, and then it is FitAudio of its length, never longer than 20. |
| ReelCreator.ReelOutcome | src/video_generator/reel_creator.py:125-139 | Returns the reel path iff the video was assembled and written, and None otherwise; it never raises. |
| ReelCreator.ReelCreator.constructor | src/video_generator/reel_creator.py:22-37 | 1080x1920 at 30 fps, a 20-second reel, in the given directory. |
| ReelCreator.ReelCreator.CreateIntro | src/video_generator/reel_creator.py:141-160 | The intro card built layer by layer equals CardClip. |
| ReelCreator.ReelCreator.CreateOutro | src/video_generator/reel_creator.py:220-236 | The outro card equals CardClip for the fixed outro text. |
| ReelCreator.ReelCreator.CreateSection | src/video_generator/reel_creator.py:162-218 | The layers appended step by step equal SectionClip. |
| ReelCreator.ReelCreator.BuildTimeline | src/video_generator/reel_creator.py:66-105 | The clip list appended step by step equals Timeline. |
| ReelCreator.ReelCreator.CreateReel | src/video_generator/reel_creator.py:44-139 | The result equals ReelOutcome. |
| Renderer.FitVideo | src/engine/renderer.py:25-30 | The clip is looped iff it is strictly shorter than the audio, and otherwise cut from 0. Either way its length equals the audio's. |
| Renderer.ComposeVideo | src/engine/renderer.py:15-40 | True iff both lengths were read and the composition was written, and False on any failure; it never raises. |
| Renderer.AudioDecidesLength | src/engine/renderer.py:25-32 | In a written composition the video lasts exactly as long as the untrimmed audio. |
| GitHubScanner.CheckCiStatus | src/scanner/github_scanner.py:46-54 | True iff the status is 200, there is at least one run, and the latest run concluded "success". |
| GitHubScanner.GitHubScanner.ValidateRepo | src/scanner/github_scanner.py:28-44 | False when the CI check fails. False when the description is missing or empty. A name containing alpha, test, demo or example is rejected unless it contains beta. True in every other case. |
| GitHubScanner.SubstringRejects | src/scanner/github_scanner.py:38-42 | The keyword test matches substrings: "Latest" is rejected because it contains "test". |
| GitHubScanner.BetaAllowed | src/scanner/github_scanner.py:38-44 | "demo-beta" with a description passes once CI is green. |
| RustBridge.FindRustBinary | src/scanner/rust_bridge.py:21-34 | Returns the first existing candidate, the path without ".exe" before the one with it, and None iff neither exists. |
| RustBridge.RustScanner.constructor | src/scanner/rust_bridge.py:17-19 | The binary found is an existing candidate, and there is none iff no candidate exists. |
| RustBridge.ExtractRepoJson | src/scanner/rust_bridge.py:75-85 | Some iff both markers occur. The value is the output from the first start marker's index plus 14 up to the first end marker, stripped of whitespace. |
| RustBridge.ExtractFramed | src/scanner/rust_bridge.py:75-79 | Round trip: JSON text on its own line between the two markers is recovered exactly. This holds whenever the start marker written is the first in the text up to it and no end marker precedes the one written; the surrounding text may hold anything else, underscores included. |
| RustBridge.MarkersFound | src/scanner/rust_bridge.py:75-79 | When both first markers are the ones written, the JSON line between them is extracted. |
| RustBridge.StartMarkerFirst | src/scanner/rust_bridge.py:76 | If the start marker written is the first in the text up to it, it is the first in the whole output. |
| RustBridge.OccursInPrefix | src/scanner/rust_bridge.py:76-77 | An occurrence that ends inside a prefix is an occurrence in that prefix, both ways. |
| RustBridge.EndMarkerFirst | src/scanner/rust_bridge.py:77 | If no end marker occurs before the JSON line ends, the first end marker is the one written after it. |
| RustBridge.EndAfterLine | src/scanner/rust_bridge.py:77 | A marker written after a line break that follows marker-free text is found at the line break's next index. |
| RustBridge.NoEarlyEnd | src/scanner/rust_bridge.py:77 | A marker without line breaks cannot start in marker-free text before such a line break. |
| RustBridge.ScanOutcome | src/scanner/rust_bridge.py:49-92 | A repository iff the run completed with exit code 0, both markers are present, and the text between them parses as a JSON object. The repository is that object. |
| RustBridge.RustScanner.ScanAndFindRepo | src/scanner/rust_bridge.py:40-92 | None without a binary, and otherwise ScanOutcome of the run; a result is always a JSON object. |
| RustBridge.GetScanner | src/scanner/rust_bridge.py:95-115 | The Rust scanner iff it is preferred and available, and otherwise the Python scanner with the same token. |
| ImageGenerator.Lookup | src/image_gen/image_generator.py:66-67 | dict.get with a default. |
| ImageGenerator.ArchitectureHead | src/image_gen/image_generator.py:163-167 | The prompt head contains the repository name and description. |
| ImageGenerator.BuildArchitecturePrompt | src/image_gen/image_generator.py:146-183 | Starts with the head and ends with the style block. It contains the name and description, and "How it works: <solution>" iff script data is truthy. Its length accounts for exactly those parts. |
| ImageGenerator.FlowPrompt | src/image_gen/image_generator.py:92-105 | Embeds the hook and the solution between the fixed intro and style text. |
| ImageGenerator.FeaturesTextLines | src/image_gen/image_generator.py:128 | At most the first five features, one "- <feature>" per line, in order. |
| ImageGenerator.FeaturePrompt | src/image_gen/image_generator.py:127-141 | Embeds the repository name and the feature lines. |
| ImageGenerator.PlaceholderPosition | src/image_gen/image_generator.py:273-277 | Floor-division centring on a 1024 canvas: the two margins differ by at most one pixel, even for text wider than the canvas. |
| ImageGenerator.PlaceholderCentred | src/image_gen/image_generator.py:273-277 | Text wider by 2d pixels starts d pixels further left. |
| ImageGenerator.ImageGenerator.OutputPathJoins | src/image_gen/image_generator.py:228 | With a normal output directory and a plain file name, the path is `<dir>/<file>`. In general its components are the file name's when that is absolute, and otherwise the directory's followed by the file name's. |
| ImageGenerator.ImageGenerator.GeneratePlaceholder | src/image_gen/image_generator.py:244-289 | Returns the output path iff the placeholder is saved. |
| ImageGenerator.ImageGenerator.GenerateImage | src/image_gen/image_generator.py:185-242 | A successful generation returns the path. An inner failure falls back to the placeholder, and None comes only from an outer failure or a failed fallback. |
| ImageGenerator.ImageGenerator.GenerateArchitectureDiagram | src/image_gen/image_generator.py:51-75 | Generates the architecture prompt into "<name>_architecture.png", with name defaulting to "unknown" and description to "". |
| ImageGenerator.ImageGenerator.GenerateProblemSolutionFlow | src/image_gen/image_generator.py:77-110 | Generates the flow prompt, with hook and solution defaulting to "", into "<name>_flow.png". |
| ImageGenerator.ImageGenerator.GenerateFeatureShowcase | src/image_gen/image_generator.py:112-144 | Generates the feature prompt into "<name>_features.png". |
| ImageGenerator.DefaultGenerator | src/image_gen/image_generator.py:26 | The default model "nano-banana-2" writing to "output/images". |
| MultilingualApi.AllowedFile | api/multilingual_api.py:46-47 | True iff the name has a dot and the text after the last dot, lowercased, is wav, mp3, ogg or flac. |
| MultilingualApi.LastDotUnique | api/multilingual_api.py:47 | The last dot is well defined. |
| MultilingualApi.WithMetadataSound | api/multilingual_api.py:71-77 | Every listed language is supported and carries its own metadata, and every supported language with metadata is listed. |
| MultilingualApi.WithMetadataOrder | api/multilingual_api.py:71-77 | The listing keeps the cloner's order. |
| MultilingualApi.ListingOrder | api/multilingual_api.py:71-77 | Concretely, "ar" is listed before "zh-cn". |
| MultilingualApi.LanguagesOutcome | api/multilingual_api.py:51-83 | Without the voice libraries the answer is a 500. Otherwise it lists exactly the supported codes that have metadata, each with its own name and flag. |
| MultilingualApi.GetLanguages | api/multilingual_api.py:51-83 | The loop's response equals LanguagesOutcome. |
| MultilingualApi.StringItems | api/multilingual_api.py:111-114 | The string elements of a parsed JSON list, all of them and nothing else. |
| MultilingualApi.TargetLanguages | api/multilingual_api.py:105-128 | A parse failure gives ["en"] and a list gives its strings. null, booleans and numbers make `len()` raise, which becomes the 500 path. |
| MultilingualApi.ReelScript | api/multilingual_api.py:157-161 | The hook is the first 100 characters of the script and the solution is the whole script. |
| MultilingualApi.ReelForPath | api/multilingual_api.py:163-170 | Each language's reel is named after "<repo_name>-<lang>". |
| MultilingualApi.ReelFanOutKeys | api/multilingual_api.py:163-177 | A language has a video iff some track of it produced a reel, so a failure omits only that language. |
| MultilingualApi.ReelFanOutValue | api/multilingual_api.py:163-177 | With distinct languages, each successful reel's path is stored under its language. |
| MultilingualApi.RequestRepo | api/multilingual_api.py:108 | The form's repo_name, or "demo-project" when absent. |
| MultilingualApi.RequestLanguages | api/multilingual_api.py:107-114 | The parsed form languages, or the parse of '["en"]' when absent. |
| MultilingualApi.ReelsOutcome | api/multilingual_api.py:87-195 | The four 400s with their messages, in order: no audio, no script, empty file name, bad extension. A 400 saves nothing. The reference is saved iff validation passes and the save succeeds. If the languages make `len()` raise or the libraries are missing, the answer is a 500 with the exception text and nothing is removed. Otherwise the 500 "Failed to generate audio" comes iff the audio batch is empty. The reference is removed iff a reels response is returned. A reels response carries the batch for the request's script, languages and repository name (defaults included), a non-empty audio map, videos of the reel fan-out, video keys a subset of the audio keys, languages equal to the video keys, and a message reporting their count. |
| MultilingualApi.CreateReels | api/multilingual_api.py:163-177 | The loop's video map equals ReelFanOut over the audio entries in order. |
| MultilingualApi.GenerateMultilingualReels | api/multilingual_api.py:87-195 | The handler's response, saved reference and cleanup equal ReelsOutcome. |
| Frontmatter.SplitFrontmatter | scripts/generate_blog_index.py:8-12 | Some iff the text starts with "---" and has another "---" from index 3. The text is then exactly "---" + frontmatter + "---" + rest. |
| Frontmatter.SplitFrontmatterOf | scripts/organize_blog_posts.py:21-25 | Round trip: frontmatter without "---" is split back out. |
| Frontmatter.ColonIndex | scripts/organize_blog_posts.py:28-29 | The first colon of a line, present iff the line has one. |
| Frontmatter.Fields | scripts/generate_blog_index.py:14-22 | A key is present iff some line defines it, and its value comes from the last such line. |
| Frontmatter.LaterLineWins | scripts/generate_blog_index.py:22 | A later line with a key overwrites an earlier one. |
| Frontmatter.OtherLineKeeps | scripts/generate_blog_index.py:16-22 | A line without that key leaves the key's presence and value alone. |
| Frontmatter.CollectFields | scripts/generate_blog_index.py:14-22 | The line loop's dictionary equals Fields. |
| Frontmatter.Clean | scripts/generate_blog_index.py:17-18 | A value stripped of whitespace and then of quotes neither starts nor ends with a quote. |
| FieldPatterns.RepoField | scripts/clean_duplicate_blogs.py:34-36 | A found `repo:` value is non-empty and one line. |
| FieldPatterns.RepoMatchFrom | scripts/clean_duplicate_blogs.py:34-36 | The search from an index finds the first line start at or after it where `repo:` and its group match, and None iff there is no such line. |
| FieldPatterns.RepoFieldFrom | scripts/clean_duplicate_blogs.py:34-36 | A value comes from a line starting with `repo:` at or after the index. None iff the pattern matches at no index from there. |
| FieldPatterns.RepoFieldFirst | scripts/clean_duplicate_blogs.py:34-36 | When i is the first index at or after p where the pattern matches, the value is the group at i. |
| FieldPatterns.RepoFieldOfLeadingLine | scripts/organize_blog_posts.py:59-61 | A leading "repo: v" line yields v. |
| FieldPatterns.RepoFieldOfBlankLine | scripts/organize_blog_posts.py:59 | Because `\s*` crosses line breaks, a blank `repo:` matches only whitespace. |
| FieldPatterns.FullNameField | scripts/clean_duplicate_blogs.py:39-42 | A found `full_name:` value is non-empty, one line and free of quotes. |
| FieldPatterns.FullNameMatchFrom | scripts/clean_duplicate_blogs.py:39-42 | The search from an index finds the first occurrence of `full_name:` at or after it whose group matches, and None iff there is none. |
| FieldPatterns.FullNameFieldFrom | scripts/clean_duplicate_blogs.py:39-42 | A value comes from an occurrence of `full_name:` at or after the index. None iff the pattern matches at no index from there. |
| FieldPatterns.FullNameFieldFirst | scripts/clean_duplicate_blogs.py:39-42 | When i is the first index at or after p where the pattern matches, the value is the group at i. |
| FieldPatterns.RepoKey | scripts/clean_duplicate_blogs.py:34-42 | The repo value stripped of whitespace and quotes, when that is non-empty. Otherwise the stripped full_name value when that is present and non-empty, and otherwise None. A key is never empty. |
| OrganizeBlogPosts.ParseValue | scripts/organize_blog_posts.py:30-39 | A bracketed value is its JSON parse when that succeeds and is kept as text otherwise. A quoted value becomes its interior. Anything else stays as stripped text. |
| OrganizeBlogPosts.QuotedValue | scripts/organize_blog_posts.py:38-39 | A quoted value yields its contents. |
| OrganizeBlogPosts.Metadata | scripts/organize_blog_posts.py:19-43 | {} without a frontmatter split. Otherwise each key defined by a line, with the last line's parsed value. |
| OrganizeBlogPosts.ParseFrontmatter | scripts/organize_blog_posts.py:19-43 | The loop's dictionary equals Metadata. |
| OrganizeBlogPosts.SlugFromFilename | scripts/organize_blog_posts.py:46-53 | Never longer than the file name. |
| OrganizeBlogPosts.RemoveExtension | scripts/organize_blog_posts.py:49 | Removing ".md" from "<a>.md", where a has none, gives a. |
| OrganizeBlogPosts.CompactDatedSlug | scripts/organize_blog_posts.py:51 | "YYYYMMDD-<slug>.md" gives the slug. |
| OrganizeBlogPosts.DashedDatedSlug | scripts/organize_blog_posts.py:52 | "YYYY-MM-DD-<slug>.md" gives the slug. |
| OrganizeBlogPosts.SlugForm | scripts/organize_blog_posts.py:63 | Each character is the lowercased input character, or '-' where that is a space or a slash. |
| OrganizeBlogPosts.RepoSlug | scripts/organize_blog_posts.py:56-70 | From the `repo:` line stripped of whitespace and quotes when there is one, otherwise from `full_name:`, and None iff neither matches. |
| OrganizeBlogPosts.RepoSlugOfLeadingLine | scripts/organize_blog_posts.py:59-63 | A leading "repo: v" line gives the slug form of v. |
| OrganizeBlogPosts.SlugOf | scripts/organize_blog_posts.py:79-84 | The content's slug when it is non-empty, and otherwise the file name's slug. |
| OrganizeBlogPosts.ConvertToPageBundleAsWritten | scripts/organize_blog_posts.py:73-103 | As written: fails iff content is None or "". Otherwise it writes `<target>/<slug>/index.md` and then removes the original. |
| OrganizeBlogPosts.EmptyPostFails | scripts/organize_blog_posts.py:79-84 | With content "" or None the conversion fails. |
| OrganizeBlogPosts.ConvertToPageBundle | scripts/organize_blog_posts.py:73-103 | Corrected: always writes `<target>/<slug>/index.md`, falling back to the file-name slug and to the file's own text, then removes the original. |
| OrganizeBlogPosts.ConversionAgrees | scripts/organize_blog_posts.py:79-103 | The correction agrees with the code wherever the code succeeds, and gives empty content the file-name slug. |
| OrganizeBlogPosts.Tags | scripts/organize_blog_posts.py:135-137 | A missing or string `tags` value becomes []. |
| OrganizeBlogPosts.PrimaryCategory | scripts/organize_blog_posts.py:143 | "general" without categories. Otherwise each character is the first category's character lowercased, or '-' where that is a space. |
| OrganizeBlogPosts.Loose | scripts/organize_blog_posts.py:125-128 | Exactly the walked posts not named index.md are converted. |
| OrganizeBlogPosts.OrganizeAllEffects | scripts/organize_blog_posts.py:125-160 | The converted count is the number of loose posts, and the operations pair each bundle write with the removal of its original, in order. |
| OrganizeBlogPosts.OrganizePosts | scripts/organize_blog_posts.py:105-160 | The loop's count and operations equal the fold OrganizeAll. |
| OrganizeBlogPosts.AsWrittenSkipsEmpty | scripts/organize_blog_posts.py:125-158 | As written, the loop does exactly what the corrected loop does on the posts whose text is not empty. |
| OrganizeBlogPosts.AsWrittenEffects | scripts/organize_blog_posts.py:125-158 | As written, the count is the number of loose posts with text, and only those are moved, each write followed by its removal. |
| OrganizeBlogPosts.EmptyPostNotCounted | scripts/organize_blog_posts.py:150-158 | A lone loose post with empty text is counted by the corrected loop and neither counted nor moved as written. |
| GenerateBlogIndex.IndexValueOf | scripts/generate_blog_index.py:17-21 | A bracketed value is its comma-separated items, each cleaned. Anything else is the cleaned text. |
| GenerateBlogIndex.EmptyList | scripts/generate_blog_index.py:20-21 | "[]" yields [""]. |
| GenerateBlogIndex.ListRoundTrip | scripts/generate_blog_index.py:20-21 | Round trip: a non-empty list of clean, comma-free items written as "[a,b,...]" reads back as itself. |
| GenerateBlogIndex.Metadata | scripts/generate_blog_index.py:7-25 | {} without a frontmatter split. Otherwise each defined key with the last line's value read by IndexValueOf. |
| GenerateBlogIndex.ParseFrontmatter | scripts/generate_blog_index.py:7-25 | The loop's dictionary equals Metadata. |
| GenerateBlogIndex.Get | scripts/generate_blog_index.py:44-49 | A missing field defaults to "". |
| GenerateBlogIndex.Record | scripts/generate_blog_index.py:43-52 | The record's path never contains a backslash. |
| GenerateBlogIndex.RecordOfBundle | scripts/generate_blog_index.py:40-52 | For `<category>/<slug>/index.md`, the slug is the folder and the category its parent. The path is relative to `website`, and title and timestamp come from the metadata and the clock. |
| GenerateBlogIndex.IndexFiles | scripts/generate_blog_index.py:33 | Exactly the walked files named index.md. |
| GenerateBlogIndex.IndexedRecords | scripts/generate_blog_index.py:33-54 | One record per index.md, in walk order, each built from that file. |
| GenerateBlogIndex.GenerateBlogIndex | scripts/generate_blog_index.py:27-59 | The loop's posts equal the fold Indexed; the generation stamp is read after the posts. |
| DuplicateGroups.GroupsAreEntries | scripts/clean_duplicate_blogs.py:44-52 | A key has a group iff some keyed post has it, and the group lists exactly that key's posts in walk order. |
| DuplicateGroups.CollectGroups | scripts/find_duplicates.py:14-38 | The walk loop's dictionary equals Groups over the keyed files. |
| DuplicateGroups.GroupsTotal | scripts/find_duplicates.py:53-54 | The group sizes add up to the number of keyed posts, and no group is empty. |
| DuplicateGroups.SumOverPermutation | scripts/clean_duplicate_blogs.py:96 | Totals over the groups do not depend on the order the keys are visited in. |
| CleanDuplicateBlogs.FindDuplicates | scripts/clean_duplicate_blogs.py:18-54 | The loop's dictionary equals Repos, the grouping of keyed index.md files. |
| CleanDuplicateBlogs.DetermineCanonical | scripts/clean_duplicate_blogs.py:57-77 | None iff there are no entries. Otherwise canonical plus duplicates is a permutation of the entries, with len - 1 duplicates, sorted longest folder first, and the canonical is the first entry of greatest folder length. |
| CleanDuplicateBlogs.CanonicalStable | scripts/clean_duplicate_blogs.py:72-75 | Canonical followed by duplicates keeps entries of equal folder length in their listing order. |
| Sorting.SortDescStable | scripts/clean_duplicate_blogs.py:72 | The descending sort is stable: for every key, the entries with that key appear in their original order. |
| CleanDuplicateBlogs.CanonicalKept | scripts/clean_duplicate_blogs.py:72-77 | With distinct entries, the canonical entry is never among the duplicates deleted. |
| CleanDuplicateBlogs.LongerOfTwoKept | scripts/clean_duplicate_blogs.py:68-77 | Of two entries, the one with the longer folder name is canonical and the other is the only duplicate. |
| CleanDuplicateBlogs.DuplicateFoldersAttempted | scripts/clean_duplicate_blogs.py:104-110 | Outside a dry run, every duplicate's folder is handed to `rmtree`. |
| CleanDuplicateBlogs.NestedEntries | scripts/clean_duplicate_blogs.py:27-52 | For a bundle nested in another, the inner file's path starts with the outer folder's path and a slash. |
| CleanDuplicateBlogs.NestedCanonicalRemoved | scripts/clean_duplicate_blogs.py:27-110 | With a nested bundle whose folder name is longer, the outer folder is removed, and it contains the canonical file. |
| CleanDuplicateBlogs.Removals | scripts/clean_duplicate_blogs.py:104-113 | A dry run attempts nothing and removes 0. Otherwise every duplicate's folder is attempted in order, and only successes count. |
| CleanDuplicateBlogs.RemoveDuplicates | scripts/clean_duplicate_blogs.py:104-113 | The inner loop equals Removals. |
| CleanDuplicateBlogs.CleanDuplicates | scripts/clean_duplicate_blogs.py:80-115 | The counters and attempted folders equal the fold CleanAll over the sorted keys. |
| CleanDuplicateBlogs.CleanAllSums | scripts/clean_duplicate_blogs.py:96-113 | Found is the sum of len - 1 over groups with more than one entry. Removed is at most found, and a dry run removes and attempts nothing. |
| CleanDuplicateBlogs.CleanDuplicatesCounts | scripts/clean_duplicate_blogs.py:80-115 | Found equals keyed posts minus distinct keys, removed is at most found, and a dry run removes nothing. |
| CleanDuplicateBlogs.DryRun | scripts/clean_duplicate_blogs.py:126 | Dry run unless "--execute" is an argument. |
| FindDuplicates.DuplicatePathsMembers | scripts/find_duplicates.py:48-50 | An entry is reported iff it belongs to a group with more than one entry. |
| FindDuplicates.DuplicatePathsLength | scripts/find_duplicates.py:48-50 | The report lists every entry of every duplicated group. |
| FindDuplicates.DupBounds | scripts/find_duplicates.py:44-50 | Duplicated keys number at most half the reported paths, which are at most all entries. At most every key is duplicated. |
| FindDuplicates.NoDuplicates | scripts/find_duplicates.py:44-46 | The count is 0 iff every group has at most one entry. |
| FindDuplicates.ReportKeys | scripts/find_duplicates.py:44-50 | The report loop's counter and path list equal their specifications. |
| FindDuplicates.FindDuplicates | scripts/find_duplicates.py:9-57 | Returns the grouping, the number of duplicated keys (not extra copies), every duplicated entry, the total and the unique count. |
| FindDuplicates.FindDuplicatesCounts | scripts/find_duplicates.py:44-55 | The total is the number of keyed posts. The count does not depend on the sorted visiting order, is at most half the total, and is at most the number of keys. |
| MigrateBlog.MatchFilename | scripts/migrate_blog.py:11-22 | Matches iff the name starts with "YYYY-MM-DD-" and has ".md" after a non-empty slug on the first line. The slug then runs up to the last such ".md" (greedy). |
| MigrateBlog.GreedySlug | scripts/migrate_blog.py:17-22 | "<date>-<slug>.md<tail>" yields that slug whenever the tail holds no later ".md". |
| MigrateBlog.ImageFor | scripts/migrate_blog.py:36-44 | An image is looked up iff the `repo:` value is non-empty after stripping. It is `<images>/<stripped repo with '/' as '-'>-header.png`. |
| MigrateBlog.ImageOfLeadingRepo | scripts/migrate_blog.py:36-44 | A leading "repo: owner/name" line names `owner-name-header.png`. |
| MigrateBlog.MovedImage | scripts/migrate_blog.py:46-48 | The image is moved iff it exists and no earlier post moved it. |
| MigrateBlog.WithImages | scripts/migrate_blog.py:54-63 | Unchanged when "images:" is present or there is no "---" from index 3. Otherwise the block is inserted immediately before that marker and everything else is kept. |
| MigrateBlog.WithImagesIdempotent | scripts/migrate_blog.py:54-63 | Inserting twice is the same as inserting once. |
| MigrateBlog.WithImagesKeepsClosingMarker | scripts/migrate_blog.py:58-63 | After insertion the closing marker is found just past the block. |
| MigrateBlog.BundleOps | scripts/migrate_blog.py:46-70 | The image move comes first when there is one, then `<slug>/index.md` is written, then the original is unlinked, last. |
| MigrateBlog.MigrateFile | scripts/migrate_blog.py:14-70 | index.md and non-matching names are skipped. A match writes the bundle, with the images block only if an image was moved. |
| MigrateBlog.MigrateAllMovesOnce | scripts/migrate_blog.py:46-48 | Over the whole run each image is moved at most once, and only if it existed. |
| MigrateBlog.MigrateAllWritesFirst | scripts/migrate_blog.py:66-70 | Every unlink of an original comes right after the write of its bundle. |
| MigrateBlog.MigratePost | scripts/migrate_blog.py:14-70 | The loop body equals MigrateFile. |
| MigrateBlog.LookUpImage | scripts/migrate_blog.py:36-51 | The image lookup equals MovedImage. |
| MigrateBlog.UpdateFrontmatter | scripts/migrate_blog.py:54-63 | The frontmatter splice equals WithImages. |
| MigrateBlog.MigrateBlogStructure | scripts/migrate_blog.py:6-74 | The whole loop's operations equal the fold MigrateAll. |
| SyncImagesToPublic.FindMatch | scripts/sync_images_to_public.py:43-45 | The leftmost match of the screenshot pattern, and None iff there is no match anywhere. |
| SyncImagesToPublic.NoKeyNoField | scripts/sync_images_to_public.py:45-53 | Without "screenshot:" nothing matches and nothing changes. |
| SyncImagesToPublic.ScreenshotRewritten | scripts/sync_images_to_public.py:43-46 | A single `screenshot: <value>` line becomes `screenshot: "<public path>"`. The whitespace after the colon and the line break are kept, and the rest is untouched. |
| SyncImagesToPublic.RewriteIdempotent | scripts/sync_images_to_public.py:43-46 | Rewriting an already rewritten post changes nothing. |
| SyncImagesToPublic.PublicCopy | scripts/sync_images_to_public.py:25-26 | The public copy is `<public images>/<slug>-header.png`. |
| SyncImagesToPublic.SyncFile | scripts/sync_images_to_public.py:14-53 | Only index.md files whose folder has header.png act. They copy the header first, and write the post only when the pattern matched and the text changed. |
| SyncImagesToPublic.SyncOne | scripts/sync_images_to_public.py:16-53 | The loop body equals SyncFile. |
| SyncImagesToPublic.SyncImages | scripts/sync_images_to_public.py:6-56 | The loop's operations equal the fold SyncAll. |
| SyncImagesToPublic.SyncAllAllowed | scripts/sync_images_to_public.py:14-53 | The run only copies header images and rewrites index.md files. |
| SyncImagesToPublic.SyncBundle | scripts/sync_images_to_public.py:14-53 | For a bundle with a header and one screenshot line: one copy, plus a write of the rewritten post unless it already pointed at the public path. |
| GenerateImagesGemini.SetupGemini | image-generation/generate_images_gemini.py:12-19 | Configured iff an API key is set and non-empty. |
| GenerateImagesGemini.ExtractFrontmatter | image-generation/generate_images_gemini.py:66-81 | Some iff the text starts with "---" and splits into three parts. The text is then exactly "---" + frontmatter + "---" + content. |
| GenerateImagesGemini.ExtractRoundTrip | image-generation/generate_images_gemini.py:70-81 | Round trip: frontmatter without "---" is split back out. |
| GenerateImagesGemini.Metadata | image-generation/generate_images_gemini.py:83-90 | Each key defined by a line, with the last line's value stripped of whitespace and quotes. |
| GenerateImagesGemini.ParseMetadata | image-generation/generate_images_gemini.py:83-90 | The loop's dictionary equals Metadata. |
| GenerateImagesGemini.CreatePrompt | image-generation/generate_images_gemini.py:92-99 | Title and description inside the fixed head, join and tail; the length accounts for exactly those. |
| GenerateImagesGemini.PromptIgnoresRepoAndLanguage | image-generation/generate_images_gemini.py:92-99 | The prompt does not depend on repo or language. |
| GenerateImagesGemini.PromptDeterminesFields | image-generation/generate_images_gemini.py:92-99 | For titles without an apostrophe, the prompt determines title and description. |
| GenerateImagesGemini.PostAttempt | image-generation/generate_images_gemini.py:107-134 | A post is attempted iff it is an index.md without header.png, with frontmatter and a non-empty title. The attempt targets header.png with the prompt built from its metadata. |
| GenerateImagesGemini.ProcessOne | image-generation/generate_images_gemini.py:107-134 | The loop body equals PostAttempt. |
| GenerateImagesGemini.ProcessBlogPosts | image-generation/generate_images_gemini.py:101-134 | Nothing is attempted without configuration; otherwise the attempts are the fold ProcessAll. |
| GenerateImagesGemini.ProcessAllTargets | image-generation/generate_images_gemini.py:107-134 | Every attempt targets a missing header.png of a titled post found by the walk. |
| GenerateImagesGemini.BundleRequested | image-generation/generate_images_gemini.py:107-134 | A bundle without header.png but with a titled frontmatter is attempted, exactly with its metadata's prompt. |

## Left out

- Machine learning and media are oracles that succeed or fail: XTTS synthesis, MarianMT loading, generation and decoding, moviepy clip construction, text rendering, compositing and encoding, Pillow drawing, and the Gemini and image-model clients. Their outputs are not modelled.
- HTTP requests (the GitHub API in `_check_ci_status`), `json.loads`, `secure_filename`, `subprocess.run`, `datetime.now` and filesystem existence checks are parameters. The clock is indexed by how many posts were read when it is called.
- Deletions (`shutil.rmtree`, `unlink` of the reference audio or the original post) are recorded as operations or oracle calls, and the filesystem they change is not modelled. Directory creation (`mkdir(parents=True, exist_ok=True)`) is not recorded. `rglob`, `glob` and `iterdir` are the input file list, in the order given, which is taken as a snapshot at the start.
- `print`, logging, `time.sleep` and exit codes are left out. Exception messages in error responses are a single abstract text.
- `str.strip` and `\s` are modelled on the whitespace characters below U+0080: space, U+0009 to U+000D and U+001C to U+001F. Whitespace above U+007F, such as U+0085, U+00A0 or U+2003, is not modelled. `str.lower` maps ASCII letters only and `\d` matches ASCII digits only.
- Durations are `real`. Floating-point rounding in moviepy is not modelled.
- `VoiceCloner` holds no state that its methods change, so it is a datatype whose synthesis oracle is a field, not a class.
- Paths.JoinPath: Windows path rules (drives, backslashes) are not modelled; the join follows `PurePosixPath`.
- Concurrency: the encoder's threads and any race on the translator cache. The code is single-threaded.
- `ContentRenderer.generate_audio`, `GitHubScanner.scan_recent_repos`, the download and health-check endpoints, and the other scripts and services of the repository are outside this model.
- `MarkdownWriter._determine_categories`, called by the organize script, is an oracle. src/blog_generator/markdown_writer.py is not part of this model.
- The organize loop `OrganizeAll` uses the corrected conversion (`ConvertToPageBundle`). The loop passes every post's text, so only an empty post tells the two apart. `OrganizeAllAsWritten` is the loop with the conversion as written: an empty post raises, the loop catches it, and it is neither counted nor moved. `AsWrittenSkipsEmpty` relates the two loops (see Findings).
- OrganizeBlogPosts.OrganizeAllAsWritten: does not record the category directory that line 147 creates before a failing conversion. Directory creation is not among the recorded operations.
- CleanDuplicateBlogs.CanonicalKept: proved for groups whose entries are distinct records. Two identical records (the same file listed twice) cannot arise from one directory walk.
- CleanDuplicateBlogs.CanonicalKept: speaks of records, not of the files on disk. The model records the folders handed to `rmtree`, not the files each removal deletes. `rglob('index.md')` also finds bundles nested in other bundles, and NestedCanonicalRemoved shows that removing an outer duplicate can then delete the canonical copy inside it.
- SyncImagesToPublic.ScreenshotRewritten: proved for a post with one single-line screenshot field and a non-empty value. Other shapes are covered by the general FindMatch and SubFrom contracts, not by a closed formula.
- SyncImagesToPublic.SubFrom: backslash escapes in the replacement template are not interpreted. The public path is a plain URL without backslashes.
- Read and decode failures: a file that cannot be opened or decoded as UTF-8 makes `open(...).read()` raise. The organize loop catches this and skips the post (scripts/organize_blog_posts.py:130-158). The index, migration and Gemini scripts (scripts/generate_blog_index.py:34, scripts/migrate_blog.py:32, image-generation/generate_images_gemini.py:67) let it abort the run. The model's file contents are always readable text, so neither path is modelled.
- Creating an `ImageGenerator` value always succeeds. The source constructor raises when foundry-local-sdk is missing or the manager fails to start (src/image_gen/image_generator.py:40-49), and then no generator exists. An import failure is a property of the installation, not of the inputs.
- GenerateBlogIndex.IndexedRecords: the records are the model's output. Writing them with the generation time as JSON (scripts/generate_blog_index.py:56-57) is left out, because `json.dump` and the file write are I/O.
- ImageGenerator.ImageGenerator.GenerateImage: the fallback order is modelled; the bytes of the generated image are not.
- MultilingualApi.ReelsOutcome: the reel creator is a parameter standing for `ReelCreator.create_reel`. Its result is named by `ReelCreator.ReelPath` (ReelForPath), but its media are not recomputed inside the handler.

## Findings

| source | as written | input that shows it | evidently intended | confidence | as-written member | corrected member |
|---|---|---|---|---|---|---|
| scripts/organize_blog_posts.py:79-84 | `slug` is bound only inside `if content:`, so the filename fallback at line 83 reads an unbound name when content is empty | `convert_to_page_bundle(md, target, "")` or with `content=None`: UnboundLocalError, and the post is not converted | fall back to the slug from the file name, and read the file when no content is passed | not executed | OrganizeBlogPosts.ConvertToPageBundleAsWritten (OrganizeBlogPosts.EmptyPostFails) | OrganizeBlogPosts.ConvertToPageBundle (OrganizeBlogPosts.ConversionAgrees) |
| scripts/organize_blog_posts.py:125-158 | the loop passes each post's text to `convert_to_page_bundle`, which raises on an empty text; the exception handler at line 157 skips the post | a loose post `a.md` with empty text: reported as failed, left in place and not counted, while its category directory is created | the empty post converted with the slug from its file name | not executed | OrganizeBlogPosts.OrganizeAllAsWritten (OrganizeBlogPosts.EmptyPostNotCounted) | OrganizeBlogPosts.OrganizeAll (OrganizeBlogPosts.OrganizeAllEffects) |
