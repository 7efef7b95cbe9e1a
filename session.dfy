/**
  The conversion session behind the window: the four form fields, the status line, the busy
  flag and the state of the convert button, with one method per event handler.  File existence
  is a set of existing paths, the close confirmation is a boolean, and what the session starts
  or writes outside itself is appended to `effects`.
 */
module Session {
  import opened Wrappers
  import opened Text
  import opened PurePath
  import opened Formats
  import opened Settings
  import opened Invocation

  const Waiting: string := "待機中"
  const Converting: string := "変換中..."
  const DonePrefix: string := "変換が完了しました: "
  const FailedPrefix: string := "変換エラー: "
  const UnknownFailure: string := "不明なエラーが発生しました"
  const ErrorPrefix: string := "エラー: "

  /** The values a conversion reads from the form. */
  datatype Form = Form(pandocPath: string, inputFilePath: string, inputFormat: string,
                       outputFormat: string)

  /** The input checks of a conversion request, each named after what it demands. */
  datatype Check =
    | PandocPathGiven
    | PandocPathExists
    | InputFileGiven
    | InputFileExists
    | InputFormatGiven
    | OutputFormatGiven

  /** The position of a check in the order the checks run. */
  function Rank(c: Check): (n: nat)
    ensures n < 6
  {
    match c
    case PandocPathGiven => 0
    case PandocPathExists => 1
    case InputFileGiven => 2
    case InputFileExists => 3
    case InputFormatGiven => 4
    case OutputFormatGiven => 5
  }

  /** Whether check `c` fails for form `f` when `existing` are the paths that exist. */
  predicate Fails(c: Check, f: Form, existing: set<string>) {
    match c
    case PandocPathGiven => f.pandocPath == ""
    case PandocPathExists => f.pandocPath !in existing
    case InputFileGiven => f.inputFilePath == ""
    case InputFileExists => f.inputFilePath !in existing
    case InputFormatGiven => f.inputFormat == ""
    case OutputFormatGiven => f.outputFormat == ""
  }

  /** The status line shown when check `c` stops a conversion. */
  function Message(c: Check): (m: string)
    ensures ErrorPrefix <= m
  {
    match c
    case PandocPathGiven => "エラー: Pandoc.exeのパスが指定されていません"
    case PandocPathExists => "エラー: 指定されたPandoc.exeが見つかりません"
    case InputFileGiven => "エラー: 入力ファイルが選択されていません"
    case InputFileExists => "エラー: 指定された入力ファイルが見つかりません"
    case InputFormatGiven => "エラー: 入力形式が選択されていません"
    case OutputFormatGiven => "エラー: 出力形式が選択されていません"
  }

  /** Each check has its own message, so the status line tells which check failed. */
  lemma MessagesDistinct(c: Check, d: Check)
    ensures Message(c) == Message(d) <==> c == d
  {
    var m, n := Message(c), Message(d);
    if m == n {
      assert m[5] == n[5] && m[7] == n[7] && m[10] == n[10];
    }
  }

  /**
    The check that stops the conversion: the earliest failing one in check order, or none when
    every check passes.
   */
  function FirstFailure(f: Form, existing: set<string>): (r: Option<Check>)
    ensures r.Some? ==> Fails(r.value, f, existing)
    ensures r.Some? ==> forall d: Check | Rank(d) < Rank(r.value) :: !Fails(d, f, existing)
    ensures r.None? ==> forall d: Check :: !Fails(d, f, existing)
  {
    if f.pandocPath == "" then Some(PandocPathGiven)
    else if f.pandocPath !in existing then Some(PandocPathExists)
    else if f.inputFilePath == "" then Some(InputFileGiven)
    else if f.inputFilePath !in existing then Some(InputFileExists)
    else if f.inputFormat == "" then Some(InputFormatGiven)
    else if f.outputFormat == "" then Some(OutputFormatGiven)
    else None
  }

  /**
    The output file for a selectable output format: the input path with the format's extension
    in place of its final suffix, or none (`with_suffix` raises) when the input path has an
    empty last component.
   */
  function OutputPath(inputFilePath: string, outputFormat: string): (r: Option<string>)
    requires outputFormat in OutputFormats
    ensures r.None? <==> Name(inputFilePath) == ""
  {
    var ext := OutputExtension(outputFormat);
    SimpleSuffixIsValid(ext);
    WithSuffix(inputFilePath, ext)
  }

  /**
    The output file lies in the input's directory, keeps the input's stem and carries exactly
    the format's extension.  These three determine it, since a path is its directory, stem and
    suffix put together.
   */
  lemma OutputPathShape(inputFilePath: string, outputFormat: string)
    requires outputFormat in OutputFormats && Name(inputFilePath) != ""
    ensures var out := OutputPath(inputFilePath, outputFormat).value;
      && Dir(out) == Dir(inputFilePath)
      && Stem(Name(out)) == Stem(Name(inputFilePath))
      && Suffix(Name(out)) == OutputExtension(outputFormat)
  {
    var ext := OutputExtension(outputFormat);
    var stem := Stem(Name(inputFilePath));
    SimpleSuffixIsValid(ext);
    WithSuffixParts(inputFilePath, ext);
    SuffixOfStemPlus(Name(inputFilePath), ext);
    assert (stem + ext)[..|stem|] == stem;
  }

  /** What a press of the convert button leads to. */
  datatype Outcome =
    | Rejected(check: Check)      // a check failed; its message is shown
    | Raised                      // `with_suffix` raised; the handler is abandoned
    | Started(outputPath: string) // the session turns busy and a conversion job starts

  /**
    The outcome of a conversion request on form `f`: rejected by the earliest failing check,
    otherwise started on the derived output path unless that path cannot be formed.
   */
  function Attempt(f: Form, existing: set<string>): (o: Outcome)
    requires Selectable(f.outputFormat, OutputFormats)
    ensures o.Rejected? <==> exists c: Check :: Fails(c, f, existing)
    ensures o.Rejected? ==>
      Fails(o.check, f, existing) && forall d: Check | Rank(d) < Rank(o.check) :: !Fails(d, f, existing)
    ensures o.Raised? ==> f.outputFormat in OutputFormats && Name(f.inputFilePath) == ""
    ensures o.Started? ==>
      f.outputFormat in OutputFormats && OutputPath(f.inputFilePath, f.outputFormat) == Some(o.outputPath)
  {
    match FirstFailure(f, existing)
    case Some(c) => Rejected(c)
    case None =>
      assert !Fails(OutputFormatGiven, f, existing);
      match OutputPath(f.inputFilePath, f.outputFormat)
      case None => Raised
      case Some(p) => Started(p)
  }

  /**
    A started conversion had every check pass: both paths given and existing, both formats
    chosen.  Its output file sits beside the input with the input's stem and the output
    format's extension.
   */
  lemma StartedShape(f: Form, existing: set<string>)
    requires Selectable(f.outputFormat, OutputFormats)
    requires Attempt(f, existing).Started?
    ensures f.pandocPath != "" && f.pandocPath in existing
    ensures f.inputFilePath != "" && f.inputFilePath in existing
    ensures f.inputFormat != "" && f.outputFormat in OutputFormats
    ensures var out := Attempt(f, existing).outputPath;
      && Dir(out) == Dir(f.inputFilePath)
      && Stem(Name(out)) == Stem(Name(f.inputFilePath))
      && Suffix(Name(out)) == OutputExtension(f.outputFormat)
  {
    assert FirstFailure(f, existing).None?;
    OutputPathShape(f.inputFilePath, f.outputFormat);
  }

  /** `report.docx` converted to markdown is written to `report.md`. */
  lemma ExampleReportToMarkdown(existing: set<string>)
    requires "/usr/bin/pandoc" in existing && "report.docx" in existing
    ensures Attempt(Form("/usr/bin/pandoc", "report.docx", "docx", "markdown"), existing)
            == Started("report.md")
  {
    assert OutputExtension("markdown") == ".md";
    ExampleReportDocxToMd();
  }

  /** Only the final suffix is replaced: `x.tar.gz` converted to html is written to `x.tar.html`. */
  lemma ExampleTarballToHtml(existing: set<string>)
    requires "/usr/bin/pandoc" in existing && "x.tar.gz" in existing
    ensures Attempt(Form("/usr/bin/pandoc", "x.tar.gz", "markdown", "html"), existing)
            == Started("x.tar.html")
  {
    assert OutputExtension("html") == ".html";
    ExampleTarGzToHtml();
  }

  /** The status line when the pandoc process has exited with `returnCode`. */
  function CompletionStatus(returnCode: int, stderr: string, outputPath: string): (status: string)
    ensures DonePrefix <= status <==> returnCode == 0
    ensures returnCode != 0 ==> FailedPrefix <= status
  {
    if returnCode == 0 then DonePrefix + outputPath
    else
      var detail := if stderr == "" then UnknownFailure else Strip(stderr);
      assert (FailedPrefix + detail)[2] != DonePrefix[2];
      FailedPrefix + detail
  }

  /** A success names the output file in full after its prefix. */
  lemma SuccessNamesOutput(stderr: string, outputPath: string)
    ensures var status := CompletionStatus(0, stderr, outputPath);
      |DonePrefix| <= |status| && status[|DonePrefix|..] == outputPath
  {
  }

  /**
    A failure's detail is the error output without surrounding whitespace, or the fixed
    unknown-error text when there is no error output.  So the detail is empty exactly when the
    error output is non-empty but all whitespace, and never starts or ends with whitespace.
   */
  lemma FailureDetail(returnCode: int, stderr: string, outputPath: string)
    requires returnCode != 0
    ensures var status := CompletionStatus(returnCode, stderr, outputPath);
      var detail := status[|FailedPrefix|..];
      && (stderr == "" ==> detail == UnknownFailure)
      && (stderr != "" ==> detail == Strip(stderr))
      && (detail == "" <==> stderr != "" && forall k | 0 <= k < |stderr| :: IsSpace(stderr[k]))
      && (detail != "" ==> !IsSpace(detail[0]) && !IsSpace(detail[|detail| - 1]))
  {
    var status := CompletionStatus(returnCode, stderr, outputPath);
    var detail := if stderr == "" then UnknownFailure else Strip(stderr);
    assert status == FailedPrefix + detail;
    assert status[|FailedPrefix|..] == detail;
  }

  /** Something the session causes outside itself, in the order it happens. */
  datatype Effect =
    | StartJob(outputPath: string) // a background pandoc run writing `outputPath`
    | WriteConfig(ini: Ini)        // the configuration file is written with `ini`
    | DestroyWindow                // the window closes and the session ends

  class PandocSession {
    var pandocPath: string
    var inputFilePath: string
    var inputFormat: string
    var outputFormat: string
    var statusText: string
    var isProcessing: bool
    var convertEnabled: bool
    var effects: seq<Effect>

    /**
      The convert button is enabled exactly when no conversion is running, and each format
      selector holds nothing or one of its values.
     */
    ghost predicate Valid()
      reads this
    {
      && convertEnabled == !isProcessing
      && Selectable(inputFormat, InputFormats)
      && Selectable(outputFormat, OutputFormats)
    }

    function CurrentForm(): Form
      reads this
    {
      Form(pandocPath, inputFilePath, inputFormat, outputFormat)
    }

    function CurrentPrefs(): Prefs
      reads this
    {
      Prefs(pandocPath, inputFormat, outputFormat)
    }

    /**
      The argument vector of the job writing `outputPath`, built from the fields as they are
      when the job reads them.  It asks pandoc for exactly this conversion unless the input
      path looks like an option.
     */
    function JobCommand(outputPath: string): (argv: seq<string>)
      reads this
      ensures Read(argv) == Some((pandocPath, Request(Some(inputFormat), Some(outputFormat),
                                                      Some(outputPath), [inputFilePath])))
              <==> !LooksLikeOption(inputFilePath)
    {
      CommandReadBack(pandocPath, inputFormat, outputFormat, outputPath, inputFilePath);
      Command(pandocPath, inputFormat, outputFormat, outputPath, inputFilePath)
    }

    /** A new session: empty form, waiting, idle, with the saved preferences loaded. */
    constructor (file: ConfigFile)
      ensures Valid()
      ensures CurrentPrefs() == Restore(Prefs("", "", ""), file)
      ensures inputFilePath == "" && statusText == Waiting
      ensures !isProcessing && effects == []
    {
      pandocPath, inputFilePath, inputFormat, outputFormat := "", "", "", "";
      statusText := Waiting;
      isProcessing := false;
      convertEnabled := true;
      effects := [];
      new;
      LoadConfig(file);
    }

    /**
      Handles the convert button.  A failed check shows its message and changes nothing else;
      a path `with_suffix` cannot form changes nothing; otherwise the session turns busy,
      disables the button, shows the converting status and starts the job.  The form itself is
      never changed.
     */
    method ConvertFile(existing: set<string>) returns (outcome: Outcome)
      requires Valid()
      modifies this
      ensures Valid()
      ensures outcome == Attempt(old(CurrentForm()), existing)
      ensures CurrentForm() == old(CurrentForm())
      ensures outcome.Rejected? ==>
        && statusText == Message(outcome.check)
        && isProcessing == old(isProcessing) && effects == old(effects)
      ensures outcome.Raised? ==>
        && statusText == old(statusText)
        && isProcessing == old(isProcessing) && effects == old(effects)
      ensures outcome.Started? ==>
        && statusText == Converting && isProcessing && !convertEnabled
        && effects == old(effects) + [StartJob(outcome.outputPath)]
    {
      ghost var expected := Attempt(CurrentForm(), existing);
      if pandocPath == "" {
        assert expected == Rejected(PandocPathGiven);
        statusText := Message(PandocPathGiven);
        return Rejected(PandocPathGiven);
      }
      if pandocPath !in existing {
        assert expected == Rejected(PandocPathExists);
        statusText := Message(PandocPathExists);
        return Rejected(PandocPathExists);
      }
      if inputFilePath == "" {
        assert expected == Rejected(InputFileGiven);
        statusText := Message(InputFileGiven);
        return Rejected(InputFileGiven);
      }
      if inputFilePath !in existing {
        assert expected == Rejected(InputFileExists);
        statusText := Message(InputFileExists);
        return Rejected(InputFileExists);
      }
      if inputFormat == "" {
        assert expected == Rejected(InputFormatGiven);
        statusText := Message(InputFormatGiven);
        return Rejected(InputFormatGiven);
      }
      if outputFormat == "" {
        assert expected == Rejected(OutputFormatGiven);
        statusText := Message(OutputFormatGiven);
        return Rejected(OutputFormatGiven);
      }
      var target := OutputPath(inputFilePath, outputFormat);
      assert FirstFailure(CurrentForm(), existing) == None;
      if target.None? {
        assert expected == Raised;
        return Raised;
      }
      assert expected == Started(target.value);
      isProcessing := true;
      convertEnabled := false;
      statusText := Converting;
      effects := effects + [StartJob(target.value)];
      return Started(target.value);
    }

    /** Handles the exit of the pandoc process: idle again, with the completion status. */
    method OnConversionComplete(returnCode: int, stderr: string, outputPath: string)
      requires Valid()
      modifies this
      ensures Valid() && !isProcessing && convertEnabled
      ensures statusText == CompletionStatus(returnCode, stderr, outputPath)
      ensures CurrentForm() == old(CurrentForm()) && effects == old(effects)
    {
      isProcessing := false;
      convertEnabled := true;
      if returnCode == 0 {
        statusText := DonePrefix + outputPath;
      } else {
        var detail := if stderr != "" then Strip(stderr) else UnknownFailure;
        statusText := FailedPrefix + detail;
      }
    }

    /** Handles a job that could not run to completion: idle again, showing `message` as is. */
    method OnConversionError(message: string)
      requires Valid()
      modifies this
      ensures Valid() && !isProcessing && convertEnabled
      ensures statusText == message
      ensures CurrentForm() == old(CurrentForm()) && effects == old(effects)
    {
      isProcessing := false;
      convertEnabled := true;
      statusText := message;
    }

    /** Loads the saved preferences from `file` over the current ones. */
    method LoadConfig(file: ConfigFile)
      requires Valid()
      modifies this
      ensures Valid()
      ensures CurrentPrefs() == Restore(old(CurrentPrefs()), file)
      ensures inputFilePath == old(inputFilePath) && statusText == old(statusText)
      ensures isProcessing == old(isProcessing) && convertEnabled == old(convertEnabled)
      ensures effects == old(effects)
    {
      if !file.Parsed? {
        return;
      }
      var ini := file.sections;
      if SettingsSection in ini {
        var settings := ini[SettingsSection];
        if PandocPathKey in settings {
          pandocPath := settings[PandocPathKey];
        }
        if InputFormatKey in settings {
          var format := settings[InputFormatKey];
          if format in InputFormats {
            inputFormat := format;
          }
        }
        if OutputFormatKey in settings {
          var format := settings[OutputFormatKey];
          if format in OutputFormats {
            outputFormat := format;
          }
        }
      }
    }

    /** Writes the current preferences to the configuration file. */
    method SaveConfig()
      modifies this
      ensures effects == old(effects) + [WriteConfig(Saved(CurrentPrefs()))]
      ensures CurrentForm() == old(CurrentForm()) && statusText == old(statusText)
      ensures isProcessing == old(isProcessing) && convertEnabled == old(convertEnabled)
    {
      effects := effects + [WriteConfig(Saved(CurrentPrefs()))];
    }

    /**
      Handles a request to close the window.  While a conversion runs and the user declines to
      quit, nothing happens; otherwise the preferences are saved and then the window is
      destroyed.  `confirmed` is the user's answer, asked only while a conversion runs.
     */
    method OnClosing(confirmed: bool)
      modifies this
      ensures old(isProcessing) && !confirmed ==> effects == old(effects)
      ensures !(old(isProcessing) && !confirmed) ==>
        effects == old(effects) + [WriteConfig(Saved(old(CurrentPrefs()))), DestroyWindow]
      ensures CurrentForm() == old(CurrentForm()) && statusText == old(statusText)
      ensures isProcessing == old(isProcessing) && convertEnabled == old(convertEnabled)
    {
      if isProcessing {
        if !confirmed {
          return;
        }
      }
      SaveConfig();
      effects := effects + [DestroyWindow];
    }
  }
}
