/**
 * The audio-transcription script: `.env` loading from four candidate
 * files (keeping only pairs with a non-empty key and value), the MIME
 * type chosen from the file's extension, the Markdown wrapping of the
 * transcript and where the result goes. The Gemini call is a parameter.
 */
module TranscribeAudio {
  import opened Wrappers
  import opened Text
  import opened DotEnv
  import opened PurePath

  const ModelName := "gemini-2.0-flash"

  /** `get_mime_type`'s table, keyed by the lower-cased suffix. */
  const MimeTypes: map<string, string> := map[
    ".m4a" := "audio/mp4",
    ".mp3" := "audio/mpeg",
    ".wav" := "audio/wav",
    ".aac" := "audio/aac",
    ".flac" := "audio/flac",
    ".ogg" := "audio/ogg",
    ".webm" := "audio/webm"
  ]

  const DefaultMimeType := "audio/mp4"

  // ---------------------------------------------------------------------------
  // MIME type
  // ---------------------------------------------------------------------------

  /** `get_mime_type`: the table's entry for the file's suffix in lower case, `audio/mp4` for any other. */
  function MimeType(filePath: string): (mime: string)
    ensures mime in MimeTypes.Values
    ensures AsciiLower(Suffix(Name(filePath))) !in MimeTypes ==> mime == DefaultMimeType
  {
    var suffix := AsciiLower(Suffix(Name(filePath)));
    if suffix in MimeTypes then MimeTypes[suffix]
    else assert MimeTypes[".m4a"] == DefaultMimeType; DefaultMimeType
  }

  /**
   * A file named with one of the table's extensions, in any ASCII case,
   * gets that extension's type.
   */
  lemma MimeTypeOfExtension(stem: string, ext: string)
    requires Component(stem) != ""
    requires SimpleSuffix(ext) && AsciiLower(ext) in MimeTypes
    ensures MimeType(stem + ext) == MimeTypes[AsciiLower(ext)]
  {
    AppendSuffix(stem, ext);
  }

  /** A file without an extension (`audio`, `.env`) is sent as `audio/mp4`. */
  lemma MimeTypeWithoutSuffix(filePath: string)
    requires Suffix(Name(filePath)) == ""
    ensures MimeType(filePath) == DefaultMimeType
  {
    assert AsciiLower("") == "";
  }

  // ---------------------------------------------------------------------------
  // Markdown
  // ---------------------------------------------------------------------------

  const Heading := "# 文字起こし: "

  /** `format_as_markdown`: a heading naming the source file, a blank line, the transcript and a final newline. */
  function FormatAsMarkdown(transcript: string, sourceFile: string): (doc: string)
    ensures StartsWith(doc, Heading)
    ensures |doc| == |Heading| + |sourceFile| + |transcript| + 3
  {
    Heading + sourceFile + "\n\n" + transcript + "\n"
  }

  /**
   * Reads a document of that shape back: the source file is the heading's
   * text up to the first newline, the transcript what lies between the
   * blank line and the final newline.
   */
  function ReadMarkdown(doc: string): (r: Option<(string, string)>)
    ensures r.Some? ==> '\n' !in r.value.1 && |r.value.0| + |r.value.1| + |Heading| + 3 == |doc|
  {
    if !StartsWith(doc, Heading) then None
    else
      var rest := doc[|Heading|..];
      var source := BeforeFirst(rest, '\n');
      var after := rest[|source|..];
      if |after| >= 3 && after[..2] == "\n\n" && after[|after| - 1] == '\n' then
        Some((after[2..|after| - 1], source))
      else None
  }

  /** The transcript and the file name are recovered from the Markdown, for any name without a newline. */
  lemma MarkdownRoundTrip(transcript: string, sourceFile: string)
    requires '\n' !in sourceFile
    ensures ReadMarkdown(FormatAsMarkdown(transcript, sourceFile)) == Some((transcript, sourceFile))
  {
    var doc := FormatAsMarkdown(transcript, sourceFile);
    var tail := "\n" + transcript + "\n";
    var rest := sourceFile + "\n" + tail;
    assert doc == Heading + rest;
    assert doc[|Heading|..] == rest;
    assert rest == sourceFile + ['\n'] + tail;
    BeforeFirstConcat(sourceFile, tail, '\n');
    assert rest[|sourceFile|..] == "\n\n" + transcript + "\n";
  }

  /** Different transcripts or file names never give the same document. */
  lemma MarkdownInjective(t1: string, s1: string, t2: string, s2: string)
    requires '\n' !in s1 && '\n' !in s2
    requires FormatAsMarkdown(t1, s1) == FormatAsMarkdown(t2, s2)
    ensures t1 == t2 && s1 == s2
  {
    MarkdownRoundTrip(t1, s1);
    MarkdownRoundTrip(t2, s2);
  }

  // ---------------------------------------------------------------------------
  // Environment
  // ---------------------------------------------------------------------------

  /**
   * `load_env_from_skill`: the `.env` beside the script, the skill's own,
   * the icon skill's next to it and the one under the home directory, in
   * that order (`None` where a file does not exist); only pairs whose key
   * and value are both non-empty are set, with `setdefault`.
   */
  method LoadEnvFromSkill(env: Environ, besideScript: Option<seq<string>>, skillDir: Option<seq<string>>,
                          sharedSkill: Option<seq<string>>, homeSkill: Option<seq<string>>)
    modifies env
    ensures env.vars == SetDefaults(old(env.vars), Entries([besideScript, skillDir, sharedSkill, homeSkill], Reader(true)))
  {
    env.Load([besideScript, skillDir, sharedSkill, homeSkill], Reader(true));
  }

  /** Every variable the load adds has a non-empty name and a non-empty value; the others are untouched. */
  lemma LoadedVariablesNonEmpty(vars: map<string, string>, files: seq<Option<seq<string>>>, key: string)
    ensures var loaded := SetDefaults(vars, Entries(files, Reader(true)));
      && (key in vars ==> key in loaded && loaded[key] == vars[key])
      && (key in loaded && key !in vars ==> key != "" && loaded[key] != "")
  {
    var entries := Entries(files, Reader(true));
    EntriesNonEmpty(files);
    SetDefaultsLookup(vars, entries, key);
    SetDefaultsNonEmpty(vars, entries);
  }

  /** All pairs read with the non-empty check have a non-empty key and value. */
  predicate AllNonEmpty(entries: seq<Entry>) {
    forall i :: 0 <= i < |entries| ==> entries[i].key != "" && entries[i].value != ""
  }

  lemma {:induction false} FileEntriesNonEmpty(lines: seq<string>)
    ensures AllNonEmpty(FileEntries(lines, Reader(true)))
    decreases |lines|
  {
    if lines != [] {
      FileEntriesNonEmpty(lines[..|lines| - 1]);
      var found := Found(Reader(true)(lines[|lines| - 1]));
      assert AllNonEmpty(found);
    }
  }

  lemma {:induction false} EntriesNonEmpty(files: seq<Option<seq<string>>>)
    ensures AllNonEmpty(Entries(files, Reader(true)))
    decreases |files|
  {
    if files != [] {
      EntriesNonEmpty(files[..|files| - 1]);
      var last := files[|files| - 1];
      if last.Some? {
        FileEntriesNonEmpty(last.value);
      }
    }
  }

  /** `setdefault` of non-empty pairs adds only non-empty names with non-empty values. */
  lemma {:induction false} SetDefaultsNonEmpty(vars: map<string, string>, entries: seq<Entry>)
    requires AllNonEmpty(entries)
    ensures forall k :: k in SetDefaults(vars, entries) && k !in vars ==> k != "" && SetDefaults(vars, entries)[k] != ""
    decreases |entries|
  {
    if entries != [] {
      var init := entries[..|entries| - 1];
      assert AllNonEmpty(init) by {
        forall i | 0 <= i < |init| ensures init[i].key != "" && init[i].value != "" {
          assert init[i] == entries[i];
        }
      }
      SetDefaultsNonEmpty(vars, init);
    }
  }

  // ---------------------------------------------------------------------------
  // The script
  // ---------------------------------------------------------------------------

  /** The parsed command line. */
  datatype Args = Args(audioFile: string, output: Option<string>, format: string)

  datatype Outcome =
    | Exit(code: int)
    | Written(path: string, text: string)
    | Printed(text: string)

  /**
   * `main` after `load_env_from_skill`: argparse refuses a format other
   * than `text` and `md` (exit 2); a missing `GEMINI_API_KEY` exits 2; the
   * argument is resolved (`Path.resolve`, the parameter `resolve`) and a
   * missing file there (`audio` is `None`) exits 1; otherwise the model
   * (the parameter `transcribe`, given the bytes and the MIME type of the
   * resolved path) answers, the answer is wrapped in Markdown under the
   * resolved path's name for `md`, and the result is written to the output
   * file or printed with a newline.
   */
  function Run(vars: map<string, string>, args: Args, resolve: string -> string, audio: Option<seq<bv8>>,
               transcribe: (seq<bv8>, string) -> string): (o: Outcome)
    ensures args.format != "text" && args.format != "md" ==> o == Exit(2)
    ensures audio.None? ==> o.Exit?
    ensures ((args.format == "text" || args.format == "md") && "GEMINI_API_KEY" in vars && vars["GEMINI_API_KEY"] != ""
             && audio.None?) ==> o == Exit(1)
    ensures o.Written? ==> args.output.Some? && args.output.value != "" && o.path == FromString(args.output.value)
  {
    if args.format != "text" && args.format != "md" then Exit(2)
    else if "GEMINI_API_KEY" !in vars || vars["GEMINI_API_KEY"] == "" then Exit(2)
    else if audio.None? then Exit(1)
    else
      var audioPath := resolve(args.audioFile);
      var transcript := transcribe(audio.value, MimeType(audioPath));
      var output := if args.format == "md" then FormatAsMarkdown(transcript, Name(audioPath)) else transcript;
      Deliver(args.output, output)
  }

  /**
   * The result is written to `Path(output)` when the output is non-empty,
   * or else printed followed by a newline.
   */
  function Deliver(output: Option<string>, text: string): (o: Outcome)
    ensures o.Written? <==> output.Some? && output.value != ""
    ensures o.Written? ==> o.path == FromString(output.value) && o.path != "" && o.text == text
    ensures o.Printed? ==> o.text == text + "\n"
  {
    if output.Some? && output.value != "" then Written(FromString(output.value), text)
    else Printed(text + "\n")
  }

  /** An output in directory form, `out/` or `out/.`, writes the file `out`. */
  lemma DirectoryFormWritten(name: string, text: string)
    requires name != "" && name != "." && '/' !in name
    ensures Deliver(Some(name + "/"), text) == Written(name, text)
    ensures Deliver(Some(name + "/."), text) == Written(name, text)
  {
    TrailingPiecesDropped(name);
  }

  /**
   * With a key and an existing file, the model is asked with the MIME type
   * of the resolved path's extension, and in `md` format the document reads
   * back as the model's transcript under the resolved path's name.
   */
  lemma RunTranscribes(vars: map<string, string>, args: Args, resolve: string -> string, audio: seq<bv8>,
                       transcribe: (seq<bv8>, string) -> string)
    requires args.format == "md"
    requires "GEMINI_API_KEY" in vars && vars["GEMINI_API_KEY"] != ""
    requires '\n' !in Name(resolve(args.audioFile))
    ensures var audioPath := resolve(args.audioFile);
      var transcript := transcribe(audio, MimeType(audioPath));
      var doc := FormatAsMarkdown(transcript, Name(audioPath));
      && Run(vars, args, resolve, Some(audio), transcribe) == Deliver(args.output, doc)
      && ReadMarkdown(doc) == Some((transcript, Name(audioPath)))
  {
    var audioPath := resolve(args.audioFile);
    var transcript := transcribe(audio, MimeType(audioPath));
    MarkdownRoundTrip(transcript, Name(audioPath));
  }

  /** The whole script: the `.env` files, then `main`'s decisions on the loaded environment. */
  method RunScript(env: Environ, besideScript: Option<seq<string>>, skillDir: Option<seq<string>>,
                   sharedSkill: Option<seq<string>>, homeSkill: Option<seq<string>>,
                   args: Args, resolve: string -> string, audio: Option<seq<bv8>>, transcribe: (seq<bv8>, string) -> string)
    returns (o: Outcome)
    modifies env
    ensures env.vars == SetDefaults(old(env.vars), Entries([besideScript, skillDir, sharedSkill, homeSkill], Reader(true)))
    ensures o == Run(env.vars, args, resolve, audio, transcribe)
  {
    LoadEnvFromSkill(env, besideScript, skillDir, sharedSkill, homeSkill);
    o := Run(env.vars, args, resolve, audio, transcribe);
  }
}
