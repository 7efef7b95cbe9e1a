# PandocGui session model

PandocGui is a small tkinter front-end for the pandoc document converter. The window has these parts:

- an entry for the path of the pandoc executable;
- a button that picks the input file;
- two read-only selectors, one for the input format and one for the output format;
- a convert button;
- a status line.

A conversion works in four steps:

1. Six checks run in order.
2. The output path is derived from the input path and the output format's extension.
3. pandoc runs in the background.
4. The status line reports the result.

The pandoc path and the two formats are saved to `config.ini` when the window closes, and loaded again at start-up.

This project models the `PandocGUI` session in Dafny. It has these parts:

- `Session.PandocSession` is a class. Its fields are the form fields, the status text, the busy flag and the convert button's state. Each event handler is a method.
- Every external effect is appended to an `effects` sequence, in order:
  - starting a conversion job;
  - writing the configuration file;
  - destroying the window.
- The pure parts are functions in their own modules:
  - the validation chain;
  - the output path;
  - `pathlib`'s `name`, `suffix` and `with_suffix`;
  - `str.strip`;
  - the format tables;
  - the configuration content;
  - the argument vector.
- The class methods are specified against these functions.

External inputs are modelled as follows:

- File existence is a set of existing paths.
- The close confirmation is a boolean.
- The configuration file is its parsed content: sections of option names and values.
- The result of a pandoc run reaches the handlers as their parameters.

Modules:

- `Wrappers`: the `Option` type.
- `Text`: Python's `str.strip`, using the `str.isspace` characters.
- `PurePath`: `PurePath.name`, `suffix` and `with_suffix` for POSIX paths. `with_suffix`'s `ValueError` becomes `None`.
- `Formats`: the two selector value lists and the extension table.
- `Settings`: the saved preferences, with `Saved` (what `save_config` writes) and `Restore` (what `load_config` makes of a file).
- `Invocation`: the argument vector given to pandoc. It comes with an option reader in pandoc's command-line style, which states what job the vector asks for.
- `Session`: the validation chain, the output path, the status texts and the `PandocSession` class.

`ConvertFile` does not test the busy flag. The source relies only on the disabled convert button to prevent a second conversion while one runs, and the model does the same. `Valid()` keeps the button enabled exactly when no conversion runs.

## Model

| member | source | states |
|---|---|---|
| Text.Strip | pandoc_gui.py:228 | `str.strip()`: the result is the input with its leading and trailing whitespace removed. It is empty exactly when the input is all whitespace. Otherwise it neither starts nor ends with whitespace. |
| Text.StripIdempotent | pandoc_gui.py:228 | Stripping twice is the same as stripping once. |
| PurePath.DirAndName | pandoc_gui.py:183 | A path is its directory part followed by its name. The name holds no separator. |
| PurePath.Suffix | pandoc_gui.py:185 | `suffix`: a nonempty suffix is a dot and at least one non-dot that end the name after a nonempty stem. An empty suffix means no dot lies strictly inside the name before a non-dot last character. |
| PurePath.StemPlusSuffix | pandoc_gui.py:185 | A name is its stem followed by its suffix. |
| PurePath.WithSuffix | pandoc_gui.py:185 | `with_suffix` raises exactly when the suffix is invalid or the path's name is empty. The invalid suffixes are: one with a separator, a nonempty one without a leading dot, and a lone dot. |
| PurePath.WithSuffixParts | pandoc_gui.py:185 | `with_suffix` keeps the directory part, and the new name is the old stem followed by the new suffix. |
| PurePath.WithSuffixSetsSuffix | pandoc_gui.py:185 | With a simple suffix (a dot, then letters without dots), the result's suffix reads back as exactly that suffix. |
| PurePath.WithSuffixIdempotent | pandoc_gui.py:185 | Applying the same simple suffix again changes nothing. |
| PurePath.WithSuffixReplacesOrAppends | pandoc_gui.py:185 | The result is the path with its final suffix cut off, followed by the new suffix. |
| PurePath.WithSuffixReplacesExtension | pandoc_gui.py:185 | `dir/stem.ext` becomes `dir/stem` followed by the new suffix. Only the last extension goes. |
| PurePath.WithSuffixAppendsToPlainName | pandoc_gui.py:185 | A name with no dot after its first character gets the suffix appended. Dotfiles are such names. |
| PurePath.ExampleReportDocxToMd | pandoc_gui.py:185 | `report.docx` with `.md` gives `report.md`. |
| PurePath.ExampleTarGzToHtml | pandoc_gui.py:185 | `x.tar.gz` with `.html` gives `x.tar.html`. |
| Formats.OutputExtension | pandoc_gui.py:184 | For every selectable output format, the table lookup succeeds and yields a simple suffix. |
| Formats.EveryOutputFormatHasExtension | pandoc_gui.py:31-39 | The extension table covers exactly the output selector's values, and every extension is a simple suffix. |
| Formats.CsvIsInputOnly | pandoc_gui.py:83 | `csv` is an input format. It is not an output format and has no extension entry. |
| Formats.OutputFormatsAreInputFormats | pandoc_gui.py:105 | Every output format is also an input format. |
| Settings.Saved | pandoc_gui.py:272-276 | The saved content is one `Settings` section with exactly the keys `pandoc_path`, `input_format` and `output_format`. |
| Settings.Restore | pandoc_gui.py:239-263 | A missing file, an unreadable file or a file without a `Settings` section changes nothing. Otherwise, a present `pandoc_path` is taken as stored and an absent one keeps the current path. A stored format its selector offers becomes the selection. A format changes only to the stored value, so an absent or unoffered one keeps the current selection. |
| Settings.RestorePreservesValid | pandoc_gui.py:250-263 | Loading never makes a selector hold a value it does not offer. |
| Settings.RestoreSaved | pandoc_gui.py:250-263 | Loading saved content restores the pandoc path. It restores each format exactly when that format is offered, and otherwise keeps the current one. |
| Settings.RoundTrip | pandoc_gui.py:272-276 | With both formats chosen, loading what was saved gives back exactly the saved preferences, whatever came before. |
| Settings.RestoreOwnSaveIsNoOp | pandoc_gui.py:237-282 | Loading into a session the file that session just saved changes nothing. |
| Settings.RestoreIdempotent | pandoc_gui.py:237-266 | Loading the same file twice is the same as loading it once. |
| Settings.StartupRestore | pandoc_gui.py:24-48 | After the start-up load, both selectors are valid. A nonempty pandoc path came from the file's `Settings` section. |
| Invocation.Command | pandoc_gui.py:201-207 | The argument vector has eight elements. It starts with the pandoc path and ends with the input path. |
| Invocation.CommandReadBack | pandoc_gui.py:201-207 | Read as pandoc's options, the vector requests exactly one conversion: the input file from the input format to the output format, written to the output path. This holds if and only if the input path does not look like an option. |
| Session.Message | pandoc_gui.py:157-177 | Every rejection message starts with `エラー: `. |
| Session.MessagesDistinct | pandoc_gui.py:156-178 | The six checks have six different messages. |
| Session.FirstFailure | pandoc_gui.py:156-178 | A reported check fails, and every check before it in the order passes. The checks run in this order: pandoc path given, pandoc path exists, input file given, input file exists, input format chosen, output format chosen. No report means every check passes. |
| Session.OutputPath | pandoc_gui.py:182-185 | The output path is missing, because `with_suffix` raises, exactly when the input path's name is empty. |
| Session.OutputPathShape | pandoc_gui.py:182-185 | The output path has the input's directory and stem, and the output format's extension as its suffix. |
| Session.Attempt | pandoc_gui.py:152-195 | A conversion is rejected exactly when some check fails, and it is rejected by the earliest failing check. Otherwise it raises when the input name is empty, and starts on the derived output path when it is not. |
| Session.StartedShape | pandoc_gui.py:152-190 | A started conversion had both paths given and existing and both formats chosen. Its output sits beside the input with the same stem and the output format's extension. |
| Session.ExampleReportToMarkdown | pandoc_gui.py:182-185 | `report.docx` converted to markdown starts with output `report.md`. |
| Session.ExampleTarballToHtml | pandoc_gui.py:182-185 | `x.tar.gz` converted to html starts with output `x.tar.html`. |
| Session.CompletionStatus | pandoc_gui.py:224-229 | The status starts with the success prefix exactly when the return code is 0. Otherwise it starts with the failure prefix. |
| Session.SuccessNamesOutput | pandoc_gui.py:224-225 | After the success prefix, the status holds the whole output path. |
| Session.FailureDetail | pandoc_gui.py:226-229 | The failure detail is the stripped stderr, or the unknown-error text when stderr is empty. It is empty exactly when stderr is nonempty but all whitespace, and it never starts or ends with whitespace. |
| Session.PandocSession.JobCommand | pandoc_gui.py:197-207 | The job's argument vector, built from the current fields, requests exactly this conversion unless the input path looks like an option. |
| Session.PandocSession.constructor | pandoc_gui.py:15-48 | A new session has an empty input file, status `待機中` and no job running, and its preferences are loaded from the file over empty ones. |
| Session.PandocSession.ConvertFile | pandoc_gui.py:152-195 | The outcome is `Attempt` of the form. A rejection shows its check's message and changes nothing else. When `with_suffix` raises, nothing changes. A start sets the busy flag, disables the button, shows `変換中...` and appends one `StartJob` effect. The form never changes. |
| Session.PandocSession.OnConversionComplete | pandoc_gui.py:220-229 | The session becomes idle, the button is enabled again and the status is `CompletionStatus`. Nothing else changes. |
| Session.PandocSession.OnConversionError | pandoc_gui.py:231-235 | The session becomes idle, the button is enabled again and the status is exactly the given message. Nothing else changes. |
| Session.PandocSession.LoadConfig | pandoc_gui.py:237-266 | The preferences become `Restore` of the old ones and the file. The input file, status, busy flag, button and effects do not change. |
| Session.PandocSession.SaveConfig | pandoc_gui.py:268-282 | One `WriteConfig` of the current preferences is appended. Nothing else changes. |
| Session.PandocSession.OnClosing | pandoc_gui.py:284-295 | If a job runs and the user declines, nothing happens. Otherwise the preferences are written, and then the window is destroyed. |

## Left out

- Widget construction and layout are not modelled, and neither are the two browse dialogs (`create_widgets`, `browse_pandoc`, `browse_input_file`). They are user interface only. Every method is specified for every valid state of the fields, whatever set them.
- `subprocess.run` and its 300-second timeout are not modelled, and neither is the routing of `TimeoutExpired` and other exceptions to the error handler. These are external process I/O. The handlers take the return code, the stderr text or the error message as parameters.
- The background thread and the `root.after` hand-off are not modelled. Starting a job is a `StartJob` effect, and its end is a later call to a handler. `JobCommand` builds the vector from the fields as they are when it is called. The model does not order a form edit made between the start and the job's reading of the fields.
- The configparser text format is not modelled. This covers parsing, `%` interpolation, the `DEFAULT` section, lower-casing of option names and whitespace around values. A parsed file is given directly as sections.
- The model does not capture a partial load. In the source, a stored value with a bad `%` interpolation can raise after `pandoc_path` has already been set.
- A file that cannot be read or parsed is modelled as `Unreadable`, which changes nothing. The printed error message is left out.
- SaveConfig records the write whether or not the file system accepts it. The source catches and prints a failed write, and the model does not say whether the write succeeded.
- `os.path.exists` is a set of existing paths, and `messagebox.askokcancel` is a boolean parameter. Both are foreign calls.
- An exception from `with_suffix` becomes the outcome `Raised`, with no state change. In the source, tkinter reports the exception, and the handler has not yet touched any state when it raises.
- PurePath models POSIX paths taken as written. Python also collapses repeated separators, drops `.` components and a trailing separator, and on Windows accepts `\` and drive letters. None of these are modelled. For a path ending in `/`, the model raises where Python would use the last component. On Windows, `str(output_path)` renders each separator as a backslash: `C:/u/report.docx` converted to markdown is written and reported as `C:\u\report.md` in the `-o` argument and the success status. The model keeps the path as written, with `/`.
