/**
  The fixed format tables of the front-end: the values offered by the two read-only format
  selectors and the output-format to file-extension table used to name the output file.
 */
module Formats {
  import opened PurePath

  /** The values of the input-format selector. */
  const InputFormats: seq<string> :=
    ["csv", "docx", "odt", "html", "commonmark", "markdown", "mediawiki", "latex"]

  /** The values of the output-format selector: the input formats without `csv`. */
  const OutputFormats: seq<string> :=
    ["docx", "odt", "html", "commonmark", "markdown", "mediawiki", "latex"]

  /** Output format to the extension given to the output file. */
  const FormatExtensions: map<string, string> :=
    map[
      "docx" := ".docx",
      "odt" := ".odt",
      "html" := ".html",
      "commonmark" := ".md",
      "markdown" := ".md",
      "mediawiki" := ".wiki",
      "latex" := ".tex"
    ]

  /**
    A selector's value is either still unset (the empty string it starts with) or one of the
    values it offers: a read-only combobox cannot hold anything else.
   */
  predicate Selectable(value: string, offered: seq<string>) {
    value == "" || value in offered
  }

  /**
    The extension looked up for a selectable output format.  Every such format has an entry, so
    the lookup cannot raise `KeyError`, and every entry is a dot followed by letters, a suffix
    `with_suffix` accepts and `suffix` reads back whole.
   */
  function OutputExtension(format: string): (ext: string)
    requires format in OutputFormats
    ensures format in FormatExtensions && ext == FormatExtensions[format]
    ensures SimpleSuffix(ext)
  {
    EveryOutputFormatHasExtension();
    FormatExtensions[format]
  }

  /** The table covers exactly the output formats, with simple suffixes only. */
  lemma EveryOutputFormatHasExtension()
    ensures forall f | f in OutputFormats :: f in FormatExtensions && SimpleSuffix(FormatExtensions[f])
    ensures forall f | f in FormatExtensions :: f in OutputFormats
  {
  }

  /** `csv` can be read but never chosen as an output, and it has no extension entry. */
  lemma CsvIsInputOnly()
    ensures "csv" in InputFormats && "csv" !in OutputFormats && "csv" !in FormatExtensions
  {
  }

  /** Every output format can also be chosen as an input format. */
  lemma OutputFormatsAreInputFormats()
    ensures forall f | f in OutputFormats :: f in InputFormats
  {
  }
}
