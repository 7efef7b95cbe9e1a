/**
  The persisted preferences: the pandoc executable path and the two selected formats, kept in
  the `Settings` section of an INI file that is written on shutdown and read on start-up.
 */
module Settings {
  import opened Formats

  /** One INI section: option name to value. */
  type Section = map<string, string>

  /** A parsed INI file: section name to section. */
  type Ini = map<string, Section>

  /**
    What reading the configuration file yields: there is no file, the file exists but cannot be
    read or parsed, or it parsed into sections.
   */
  datatype ConfigFile = Absent | Unreadable | Parsed(sections: Ini)

  /** The three values that are saved and restored. */
  datatype Prefs = Prefs(pandocPath: string, inputFormat: string, outputFormat: string)

  const SettingsSection: string := "Settings"
  const PandocPathKey: string := "pandoc_path"
  const InputFormatKey: string := "input_format"
  const OutputFormatKey: string := "output_format"

  /** Both formats are ones their selectors can show. */
  predicate ValidPrefs(p: Prefs) {
    Selectable(p.inputFormat, InputFormats) && Selectable(p.outputFormat, OutputFormats)
  }

  /** The INI content written on save: one `Settings` section holding the three values. */
  function Saved(p: Prefs): (ini: Ini)
    ensures ini.Keys == {SettingsSection}
    ensures ini[SettingsSection].Keys == {PandocPathKey, InputFormatKey, OutputFormatKey}
  {
    map[SettingsSection := map[
      PandocPathKey := p.pandocPath,
      InputFormatKey := p.inputFormat,
      OutputFormatKey := p.outputFormat]]
  }

  /**
    The preferences after loading `file` over `current`.  A missing or unreadable file, or one
    without a `Settings` section, changes nothing.  A stored pandoc path is taken as it is; a
    stored format only when its selector offers it.
   */
  function Restore(current: Prefs, file: ConfigFile): (p: Prefs)
    ensures !file.Parsed? || SettingsSection !in file.sections ==> p == current
    ensures p.inputFormat == current.inputFormat || p.inputFormat in InputFormats
    ensures p.outputFormat == current.outputFormat || p.outputFormat in OutputFormats
    ensures file.Parsed? && SettingsSection in file.sections ==>
      var s := file.sections[SettingsSection];
      && (PandocPathKey in s ==> p.pandocPath == s[PandocPathKey])
      && (PandocPathKey !in s ==> p.pandocPath == current.pandocPath)
      && (InputFormatKey in s && s[InputFormatKey] in InputFormats ==> p.inputFormat == s[InputFormatKey])
      && (p.inputFormat != current.inputFormat ==> InputFormatKey in s && p.inputFormat == s[InputFormatKey])
      && (OutputFormatKey in s && s[OutputFormatKey] in OutputFormats ==> p.outputFormat == s[OutputFormatKey])
      && (p.outputFormat != current.outputFormat ==> OutputFormatKey in s && p.outputFormat == s[OutputFormatKey])
  {
    match file
    case Absent => current
    case Unreadable => current
    case Parsed(ini) =>
      if SettingsSection !in ini then current
      else
        var s := ini[SettingsSection];
        var path := if PandocPathKey in s then s[PandocPathKey] else current.pandocPath;
        var inFormat :=
          if InputFormatKey in s && s[InputFormatKey] in InputFormats then s[InputFormatKey]
          else current.inputFormat;
        var outFormat :=
          if OutputFormatKey in s && s[OutputFormatKey] in OutputFormats then s[OutputFormatKey]
          else current.outputFormat;
        Prefs(path, inFormat, outFormat)
  }

  /** Loading never makes a selector hold a value it does not offer. */
  lemma RestorePreservesValid(current: Prefs, file: ConfigFile)
    requires ValidPrefs(current)
    ensures ValidPrefs(Restore(current, file))
  {
  }

  /**
    Loading what was saved restores the pandoc path exactly, and each format exactly when the
    saved one is offered; a saved format that is not offered (the empty one) leaves the current
    selection in place.
   */
  lemma RestoreSaved(current: Prefs, p: Prefs)
    ensures Restore(current, Parsed(Saved(p))) ==
      Prefs(p.pandocPath,
            if p.inputFormat in InputFormats then p.inputFormat else current.inputFormat,
            if p.outputFormat in OutputFormats then p.outputFormat else current.outputFormat)
  {
  }

  /** With both formats chosen, a save followed by a load round-trips over any prior state. */
  lemma RoundTrip(current: Prefs, p: Prefs)
    requires p.inputFormat in InputFormats && p.outputFormat in OutputFormats
    ensures Restore(current, Parsed(Saved(p))) == p
  {
    RestoreSaved(current, p);
  }

  /** Loading the file a session has just saved into that same session changes nothing. */
  lemma RestoreOwnSaveIsNoOp(p: Prefs)
    ensures Restore(p, Parsed(Saved(p))) == p
  {
    RestoreSaved(p, p);
  }

  /** Loading the same file twice is the same as loading it once. */
  lemma RestoreIdempotent(current: Prefs, file: ConfigFile)
    ensures Restore(Restore(current, file), file) == Restore(current, file)
  {
  }

  /**
    On start-up nothing is selected yet, so whatever is loaded leaves the preferences valid and
    a field the file does not supply stays empty.
   */
  lemma StartupRestore(file: ConfigFile)
    ensures var p := Restore(Prefs("", "", ""), file);
      && ValidPrefs(p)
      && (p.pandocPath != "" ==>
            file.Parsed? && SettingsSection in file.sections &&
            file.sections[SettingsSection][PandocPathKey] == p.pandocPath)
  {
  }
}
