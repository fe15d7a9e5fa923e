/**
 * The image-generation script of the icon skill: `.env` loading, model
 * alias resolution, the required-argument check and the choice of the
 * output file's extension. The Gemini client, argument parsing and file
 * writing are parameters or outcomes.
 */
module GenImage {
  import opened Wrappers
  import opened Text
  import opened DotEnv
  import opened PurePath

  // ---------------------------------------------------------------------------
  // Models
  // ---------------------------------------------------------------------------

  /** `MODEL_ALIASES`: short names and the two legacy names for the image models. */
  const ModelAliases: map<string, string> := map[
    "flash" := "gemini-2.5-flash-image-preview",
    "pro" := "gemini-3-pro-image-preview",
    "imagen" := "imagen-4.0-generate-001",
    "imagen-ultra" := "imagen-4.0-ultra-generate-001",
    "imagen-fast" := "imagen-4.0-fast-generate-001",
    "nanobanana" := "gemini-2.5-flash-image-preview",
    "nanobananapro" := "gemini-3-pro-image-preview"
  ]

  const DefaultModel := "pro"
  const AllowedAspects := ["1:1", "4:3", "3:2", "16:9", "21:9", "9:16"]
  const DefaultAspect := "1:1"

  /** `resolve_model`: the model an alias (in any ASCII case) stands for; any other name as given. */
  function ResolveModel(modelArg: string): (model: string)
    ensures AsciiLower(modelArg) in ModelAliases ==> model == ModelAliases[AsciiLower(modelArg)]
    ensures AsciiLower(modelArg) !in ModelAliases ==> model == modelArg
  {
    var key := AsciiLower(modelArg);
    if key in ModelAliases then ModelAliases[key] else modelArg
  }

  /** No full model name is itself an alias, so resolving twice is resolving once. */
  lemma ResolveModelIdempotent(modelArg: string)
    ensures ResolveModel(ResolveModel(modelArg)) == ResolveModel(modelArg)
  {
    var key := AsciiLower(modelArg);
    if key in ModelAliases {
      var full := ModelAliases[key];
      assert full in ModelAliases.Values;
      FullNamesAreNotAliases(full);
      assert ResolveModel(full) == full;
    }
  }

  /** An alias target, in any case, is not an alias: every target is longer than every alias. */
  lemma FullNamesAreNotAliases(full: string)
    requires full in ModelAliases.Values
    ensures AsciiLower(full) !in ModelAliases
  {
    assert |full| >= 22;
    assert forall k :: k in ModelAliases ==> |k| <= 13;
  }

  // ---------------------------------------------------------------------------
  // Output path
  // ---------------------------------------------------------------------------

  /**
   * `determine_extension`: a path whose name has a suffix is kept;
   * otherwise the suffix is the one `mimetypes.guess_extension` (the
   * parameter `guessExtension`) gives for a non-empty MIME type, or `.png`.
   * `None` is the `ValueError` of `with_suffix` (an empty name, or a guessed
   * extension it refuses).
   */
  function DetermineExtension(outputPath: string, mime: Option<string>, guessExtension: string -> Option<string>): (r: Option<string>)
    ensures Suffix(Name(outputPath)) != "" ==> r == Some(outputPath)
    ensures Suffix(Name(outputPath)) == "" ==>
      r == WithSuffix(outputPath, ChosenExtension(mime, guessExtension))
  {
    if Suffix(Name(outputPath)) != "" then Some(outputPath)
    else if mime.Some? && mime.value != "" then
      var ext := guessExtension(mime.value).GetOr("");
      WithSuffix(outputPath, if ext != "" then ext else ".png")
    else WithSuffix(outputPath, ".png")
  }

  /** The extension given to a path without one: the guessed one when it is non-empty, `.png` otherwise. */
  function ChosenExtension(mime: Option<string>, guessExtension: string -> Option<string>): (ext: string)
    ensures ext != ""
    ensures ext != ".png" ==> mime.Some? && mime.value != "" && guessExtension(mime.value) == Some(ext)
  {
    if mime.Some? && mime.value != "" && guessExtension(mime.value).GetOr("") != "" then
      guessExtension(mime.value).value
    else ".png"
  }

  /**
   * A path with a name and no suffix ends up with the chosen extension as
   * its suffix, whenever that extension is a plain `.xyz`.
   */
  lemma ExtensionAdded(outputPath: string, mime: Option<string>, guessExtension: string -> Option<string>)
    requires Name(outputPath) != "" && Suffix(Name(outputPath)) == ""
    requires SimpleSuffix(ChosenExtension(mime, guessExtension))
    ensures var r := DetermineExtension(outputPath, mime, guessExtension);
      r.Some? && Suffix(Name(r.value)) == ChosenExtension(mime, guessExtension)
  {
    WithSuffixRoundTrip(outputPath, ChosenExtension(mime, guessExtension));
  }

  /** Without a MIME type a path with a name and no suffix gets `.png` appended. */
  lemma PngByDefault(outputPath: string, guessExtension: string -> Option<string>)
    requires Name(outputPath) != "" && Suffix(Name(outputPath)) == ""
    ensures DetermineExtension(outputPath, None, guessExtension) == Some(outputPath + ".png")
  {
    assert outputPath[..|outputPath| - |Suffix(Name(outputPath))|] == outputPath;
  }

  /** A path that already has a suffix is never changed, whatever the MIME type. */
  lemma ExistingSuffixKept(outputPath: string, mime1: Option<string>, mime2: Option<string>, guessExtension: string -> Option<string>)
    requires Suffix(Name(outputPath)) != ""
    ensures DetermineExtension(outputPath, mime1, guessExtension) == DetermineExtension(outputPath, mime2, guessExtension)
    ensures Suffix(Name(DetermineExtension(outputPath, mime1, guessExtension).value)) == Suffix(Name(outputPath))
  {
  }

  // ---------------------------------------------------------------------------
  // Environment
  // ---------------------------------------------------------------------------

  /**
   * `load_env`: the skill directory's `.env`, then the one under the home
   * directory's skill folder (`None` where the file does not exist), read
   * into the environment with `setdefault`. A line such as `=x` gives an
   * empty key, which `os.environ` refuses: on POSIX `setenv` fails and an
   * `OSError` is raised. `raised` is that error, and the process ends with it.
   */
  method LoadEnv(env: Environ, skillEnv: Option<seq<string>>, homeEnv: Option<seq<string>>) returns (raised: bool)
    modifies env
    ensures raised <==> HasEmptyKey(Entries([skillEnv, homeEnv], Reader(false)))
    ensures !raised ==> env.vars == SetDefaults(old(env.vars), Entries([skillEnv, homeEnv], Reader(false)))
  {
    env.Load([skillEnv, homeEnv], Reader(false));
    raised := HasEmptyKey(Entries([skillEnv, homeEnv], Reader(false)));
  }

  /** An existing file with a line that splits into an empty key makes `load_env` raise, whatever the other file holds. */
  lemma EmptyKeyRaises(skillEnv: Option<seq<string>>, homeEnv: Option<seq<string>>, lines: seq<string>, j: nat)
    requires skillEnv == Some(lines) || homeEnv == Some(lines)
    requires j < |lines| && ParseLine(lines[j]).Some? && ParseLine(lines[j]).value.key == ""
    ensures HasEmptyKey(Entries([skillEnv, homeEnv], Reader(false)))
  {
    assert Reader(false)(lines[j]) == ParseLine(lines[j]);
    EmptyKeyInFile(lines, j, Reader(false));
    TwoCandidates(skillEnv, homeEnv, Reader(false));
    HasEmptyKeyConcat(CandidateEntries(skillEnv, Reader(false)), CandidateEntries(homeEnv, Reader(false)));
  }

  /** `=x` is such a line. */
  lemma EmptyKeyLine()
    ensures ParseLine("=x") == Some(Entry("", "x"))
  {
    assert "=x" == "" + "=" + "x";
    assert Unpadded("x", IsPySpace) by {
      assert !IsPySpace('x');
    }
    ParseLineRoundTrip("", "x");
  }

  /**
   * What `load_env` leaves in the environment for `key`: a variable that
   * was already set keeps its value; otherwise the skill directory's file
   * wins over the home one, and within a file the first line for the key.
   */
  lemma LoadEnvLookup(vars: map<string, string>, skillEnv: Option<seq<string>>, homeEnv: Option<seq<string>>, key: string)
    ensures var loaded := SetDefaults(vars, Entries([skillEnv, homeEnv], Reader(false)));
      var fromSkill := if skillEnv.Some? then FirstValue(FileEntries(skillEnv.value, Reader(false)), key) else None;
      var fromHome := if homeEnv.Some? then FirstValue(FileEntries(homeEnv.value, Reader(false)), key) else None;
      && (key in vars ==> key in loaded && loaded[key] == vars[key])
      && (key !in vars && fromSkill.Some? ==> key in loaded && loaded[key] == fromSkill.value)
      && (key !in vars && fromSkill.None? && fromHome.Some? ==> key in loaded && loaded[key] == fromHome.value)
      && (key !in vars && fromSkill.None? && fromHome.None? ==> key !in loaded)
  {
    var entries := Entries([skillEnv, homeEnv], Reader(false));
    var a := CandidateEntries(skillEnv, Reader(false));
    var b := CandidateEntries(homeEnv, Reader(false));
    TwoCandidates(skillEnv, homeEnv, Reader(false));
    FirstValueConcat(a, b, key);
    SetDefaultsLookup(vars, entries, key);
  }

  /** The pairs of two candidate files: the first file's, then the second's. */
  lemma TwoCandidates(first: Option<seq<string>>, second: Option<seq<string>>, read: string -> Option<Entry>)
    ensures Entries([first, second], read) == CandidateEntries(first, read) + CandidateEntries(second, read)
  {
    assert [first, second] == [first] + [second];
    EntriesSnoc([first], second, read);
    assert [first] == [] + [first];
    EntriesSnoc([], first, read);
    assert [] + CandidateEntries(first, read) == CandidateEntries(first, read);
  }

  // ---------------------------------------------------------------------------
  // The script
  // ---------------------------------------------------------------------------

  /** The parsed command line; `prompt` and `output` are optional for argparse. */
  datatype Args = Args(prompt: Option<string>, output: Option<string>, model: string, aspect: string, listModels: bool)

  /** An image the model returned: its MIME type, if any, and its bytes. */
  datatype Image = Image(mime: Option<string>, data: seq<bv8>)

  datatype Outcome =
    | Exit(code: int)
    | ListedModels
    | ValueErrorRaised
    | LoadEnvRaised
    | Saved(path: string, data: seq<bv8>)

  /** A value Python treats as true: present and non-empty. */
  predicate Given(s: Option<string>) { s.Some? && s.value != "" }

  /**
   * `main` after `load_env`: argparse refuses an aspect outside the list
   * (exit 2); a missing `GEMINI_API_KEY` exits 2; `--list-models` lists;
   * a missing prompt or output exits 2; otherwise the resolved model is
   * asked for an image (the parameter `generate`), no image exits 1, and
   * the bytes are written under the output path, put into pathlib's
   * normal form by `Path(args.output)`, with its extension settled.
   */
  function Run(vars: map<string, string>, args: Args, generate: (string, string, string) -> Option<Image>,
               guessExtension: string -> Option<string>): (o: Outcome)
    ensures args.aspect !in AllowedAspects ==> o == Exit(2)
    ensures o != LoadEnvRaised
    ensures o.Saved? ==>
      Given(args.prompt) && Given(args.output) && generate(ResolveModel(args.model), args.prompt.value, args.aspect).Some?
  {
    if args.aspect !in AllowedAspects then Exit(2)
    else if "GEMINI_API_KEY" !in vars || vars["GEMINI_API_KEY"] == "" then Exit(2)
    else if args.listModels then ListedModels
    else if !Given(args.prompt) || !Given(args.output) then Exit(2)
    else
      var model := ResolveModel(args.model);
      match generate(model, args.prompt.value, args.aspect)
      case None => Exit(1)
      case Some(image) =>
        match DetermineExtension(FromString(args.output.value), image.mime, guessExtension)
        case None => ValueErrorRaised
        case Some(path) => Saved(path, image.data)
  }

  /**
   * Without a prompt or an output (and without `--list-models`) the script
   * exits with code 2 whatever the model would have answered: nothing is
   * generated.
   */
  lemma MissingArgumentExits(vars: map<string, string>, args: Args, generate1: (string, string, string) -> Option<Image>,
                             generate2: (string, string, string) -> Option<Image>, guessExtension: string -> Option<string>)
    requires !args.listModels && (!Given(args.prompt) || !Given(args.output))
    ensures Run(vars, args, generate1, guessExtension) == Exit(2)
    ensures Run(vars, args, generate2, guessExtension) == Run(vars, args, generate1, guessExtension)
  {
  }

  /**
   * An output given in directory form (`out/` or `out/.`) names the same
   * file as `out`: without a MIME type the image is saved as `out.png`.
   */
  lemma DirectoryFormSavedAsPng(vars: map<string, string>, args: Args, generate: (string, string, string) -> Option<Image>,
                                guessExtension: string -> Option<string>, name: string, data: seq<bv8>)
    requires name != "" && '/' !in name && '.' !in name
    requires args.output == Some(name + "/") || args.output == Some(name + "/.")
    requires args.aspect in AllowedAspects && "GEMINI_API_KEY" in vars && vars["GEMINI_API_KEY"] != ""
    requires !args.listModels && Given(args.prompt)
    requires generate(ResolveModel(args.model), args.prompt.value, args.aspect) == Some(Image(None, data))
    ensures Run(vars, args, generate, guessExtension) == Saved(name + ".png", data)
  {
    DirectoryFormGetsPng(name, guessExtension);
  }

  /** A plain name in directory form settles to that name with `.png` when there is no MIME type. */
  lemma DirectoryFormGetsPng(name: string, guessExtension: string -> Option<string>)
    requires name != "" && '/' !in name && '.' !in name
    ensures DetermineExtension(FromString(name + "/"), None, guessExtension) == Some(name + ".png")
    ensures DetermineExtension(FromString(name + "/."), None, guessExtension) == Some(name + ".png")
  {
    TrailingPiecesDropped(name);
    ComponentAfterSep([], name);
    assert [] + name == name;
    assert AfterLast(name, '.') == 0;
    PngByDefault(name, guessExtension);
  }

  /** The whole script: `load_env`, then `main`'s decisions on the loaded environment unless loading raised. */
  method RunScript(env: Environ, skillEnv: Option<seq<string>>, homeEnv: Option<seq<string>>, args: Args,
              generate: (string, string, string) -> Option<Image>, guessExtension: string -> Option<string>)
    returns (o: Outcome)
    modifies env
    ensures o == LoadEnvRaised <==> HasEmptyKey(Entries([skillEnv, homeEnv], Reader(false)))
    ensures o != LoadEnvRaised ==>
      && env.vars == SetDefaults(old(env.vars), Entries([skillEnv, homeEnv], Reader(false)))
      && o == Run(env.vars, args, generate, guessExtension)
  {
    var raised := LoadEnv(env, skillEnv, homeEnv);
    if raised {
      o := LoadEnvRaised;
    } else {
      o := Run(env.vars, args, generate, guessExtension);
    }
  }
}
