/**
  The part of Python's `pathlib.PurePath` the converter front-end uses to name its output file:
  `name`, `suffix` and `with_suffix`, over POSIX paths written with `/` separators.
 */
module PurePath {
  import opened Wrappers

  const Sep: char := '/'

  /** The index of the last occurrence of `c` in `s[..n]`, or -1 when there is none. */
  function LastIndexBelow(s: string, c: char, n: nat): (i: int)
    requires n <= |s|
    ensures -1 <= i < n
    ensures 0 <= i ==> s[i] == c
    ensures forall j | i < j < n :: s[j] != c
  {
    if n == 0 then -1
    else if s[n - 1] == c then n - 1
    else LastIndexBelow(s, c, n - 1)
  }

  /** `s.rfind(c)`: the index of the last occurrence of `c` in `s`, or -1 when there is none. */
  function LastIndex(s: string, c: char): (i: int)
    ensures -1 <= i < |s|
    ensures 0 <= i ==> s[i] == c
    ensures forall j | i < j < |s| :: s[j] != c
  {
    LastIndexBelow(s, c, |s|)
  }

  /** Everything up to and including the last separator: the directory part. */
  function Dir(path: string): string {
    path[..LastIndex(path, Sep) + 1]
  }

  /** `PurePath.name`: everything after the last separator. */
  function Name(path: string): string {
    path[LastIndex(path, Sep) + 1..]
  }

  /** A path is its directory part followed by its name, which holds no separator. */
  lemma DirAndName(path: string)
    ensures Dir(path) + Name(path) == path
    ensures forall k | 0 <= k < |Name(path)| :: Name(path)[k] != Sep
    ensures Dir(path) == [] || Dir(path)[|Dir(path)| - 1] == Sep
  {
  }

  /**
    `PurePath.suffix`: the text from the last dot of the name, provided that dot is neither the
    first nor the last character; otherwise empty.  A nonempty suffix is a dot followed by at
    least one character and no further dot, and it ends the name after a nonempty stem; an empty
    suffix means every dot strictly inside the name is followed, at the very end, by a dot.
   */
  function Suffix(name: string): (suf: string)
    ensures suf != "" ==>
      && 2 <= |suf| < |name| && suf[0] == '.' && name[|name| - |suf|..] == suf
      && forall j | 1 <= j < |suf| :: suf[j] != '.'
    ensures suf == "" ==> forall k | 0 < k < |name| - 1 :: name[k] == '.' ==> name[|name| - 1] == '.'
  {
    var i := LastIndex(name, '.');
    if 0 < i < |name| - 1 then name[i..] else ""
  }

  /** The name without its suffix. */
  function Stem(name: string): string {
    name[..|name| - |Suffix(name)|]
  }

  /** A name is its stem followed by its suffix. */
  lemma StemPlusSuffix(name: string)
    ensures Stem(name) + Suffix(name) == name
  {
  }

  /**
    The suffixes `with_suffix` accepts: no separator, and either empty or a dot followed by
    something.
   */
  predicate ValidSuffix(suffix: string) {
    && (forall k | 0 <= k < |suffix| :: suffix[k] != Sep)
    && (suffix == "" || (suffix[0] == '.' && suffix != "."))
  }

  /** A suffix that `PurePath.suffix` reads back whole: a dot, then at least one non-dot, non-separator. */
  predicate SimpleSuffix(suffix: string) {
    && |suffix| >= 2 && suffix[0] == '.'
    && forall k | 1 <= k < |suffix| :: suffix[k] != '.' && suffix[k] != Sep
  }

  /** A simple suffix is one `with_suffix` accepts. */
  lemma SimpleSuffixIsValid(suffix: string)
    requires SimpleSuffix(suffix)
    ensures ValidSuffix(suffix)
  {
    assert suffix[0] != Sep;
  }

  /**
    `PurePath.with_suffix(suffix)`: the path whose last component has its suffix replaced by
    `suffix`, or `suffix` appended when it has none.  `None` stands for the `ValueError` the
    method raises for an invalid suffix or a path with an empty name.
   */
  function WithSuffix(path: string, suffix: string): (r: Option<string>)
    ensures r.None? <==> !ValidSuffix(suffix) || Name(path) == ""
  {
    if !ValidSuffix(suffix) then None
    else
      var name := Name(path);
      if name == "" then None
      else Some(Dir(path) + (Stem(name) + suffix))
  }

  /** Appending a separator-free component to a directory part gives a path with that name. */
  lemma NameOfDirPlus(dir: string, name: string)
    requires dir == [] || dir[|dir| - 1] == Sep
    requires forall k | 0 <= k < |name| :: name[k] != Sep
    ensures Dir(dir + name) == dir && Name(dir + name) == name
  {
    var p := dir + name;
    assert forall k | |dir| <= k < |p| :: p[k] == name[k - |dir|];
    if dir != [] {
      assert p[|dir| - 1] == Sep;
    }
    assert LastIndex(p, Sep) == |dir| - 1;
  }

  /** `with_suffix` leaves the directory part alone and changes only the suffix of the name. */
  lemma WithSuffixParts(path: string, suffix: string)
    requires ValidSuffix(suffix) && Name(path) != ""
    ensures var r := WithSuffix(path, suffix).value;
      Dir(r) == Dir(path) && Name(r) == Stem(Name(path)) + suffix
  {
    WithSuffixValue(path, suffix);
    DirAndName(path);
    var stem := Stem(Name(path));
    NoSepInStem(Name(path));
    NoSepInConcat(stem, suffix);
    NameOfDirPlus(Dir(path), stem + suffix);
  }

  /** The stem of a separator-free name is separator-free. */
  lemma NoSepInStem(name: string)
    requires forall k | 0 <= k < |name| :: name[k] != Sep
    ensures forall k | 0 <= k < |Stem(name)| :: Stem(name)[k] != Sep
  {
  }

  /** Two separator-free strings concatenate to a separator-free one. */
  lemma NoSepInConcat(a: string, b: string)
    requires forall k | 0 <= k < |a| :: a[k] != Sep
    requires forall k | 0 <= k < |b| :: b[k] != Sep
    ensures forall k | 0 <= k < |a + b| :: (a + b)[k] != Sep
  {
  }

  /** The suffix of a nonempty stem followed by a simple suffix is that suffix. */
  lemma SuffixOfStemPlus(name: string, suffix: string)
    requires name != ""
    requires SimpleSuffix(suffix)
    ensures Suffix(Stem(name) + suffix) == suffix
  {
    var stem := Stem(name);
    assert stem != "";
    var n := stem + suffix;
    assert n[|stem|] == '.';
    assert forall k | |stem| < k < |n| :: n[k] == suffix[k - |stem|];
    assert LastIndex(n, '.') == |stem|;
  }

  /** With a simple suffix the output's final suffix is exactly the one asked for. */
  lemma WithSuffixSetsSuffix(path: string, suffix: string)
    requires SimpleSuffix(suffix) && Name(path) != ""
    ensures WithSuffix(path, suffix).Some?
    ensures Suffix(Name(WithSuffix(path, suffix).value)) == suffix
  {
    SimpleSuffixIsValid(suffix);
    WithSuffixParts(path, suffix);
    SuffixOfStemPlus(Name(path), suffix);
  }

  /** Replacing a simple suffix by itself again changes nothing: `with_suffix` is idempotent. */
  lemma WithSuffixIdempotent(path: string, suffix: string)
    requires SimpleSuffix(suffix) && Name(path) != ""
    ensures var r := WithSuffix(path, suffix).value; WithSuffix(r, suffix) == Some(r)
  {
    var r := WithSuffix(path, suffix).value;
    SimpleSuffixIsValid(suffix);
    WithSuffixSetsSuffix(path, suffix);
    WithSuffixParts(path, suffix);
    StemPlusSuffix(Name(r));
    DirAndName(r);
    WithSuffixValue(r, suffix);
    Associative(Dir(r), Stem(Name(r)), suffix);
  }

  /** A name with a suffix keeps everything before its last dot; one without gets the suffix appended. */
  lemma WithSuffixReplacesOrAppends(path: string, suffix: string)
    requires ValidSuffix(suffix) && Name(path) != ""
    ensures WithSuffix(path, suffix) == Some(path[..|path| - |Suffix(Name(path))|] + suffix)
  {
    WithSuffixValue(path, suffix);
    PrefixBeforeSuffix(path);
    Associative(Dir(path), Stem(Name(path)), suffix);
  }

  /** The value `with_suffix` returns for an accepted suffix and a nonempty name. */
  lemma WithSuffixValue(path: string, suffix: string)
    requires ValidSuffix(suffix) && Name(path) != ""
    ensures WithSuffix(path, suffix) == Some(Dir(path) + (Stem(Name(path)) + suffix))
  {
  }

  /** Concatenation regroups freely. */
  lemma Associative(a: string, b: string, c: string)
    ensures a + (b + c) == (a + b) + c
  {
  }

  /** Cutting the suffix off a path leaves its directory part followed by the stem of its name. */
  lemma PrefixBeforeSuffix(path: string)
    ensures path[..|path| - |Suffix(Name(path))|] == Dir(path) + Stem(Name(path))
  {
    DirAndName(path);
    StemPlusSuffix(Name(path));
    Associative(Dir(path), Stem(Name(path)), Suffix(Name(path)));
  }

  /** The suffix starts at the last dot when that dot is strictly inside the name. */
  lemma SuffixFromLastDot(name: string, i: nat)
    requires 0 < i < |name| - 1 && name[i] == '.'
    requires forall j | i < j < |name| :: name[j] != '.'
    ensures Suffix(name) == name[i..]
  {
    assert LastIndex(name, '.') == i;
  }

  /**
    A name `stem.ext` loses `.ext` and gets the new suffix: `report.docx` becomes `report.md`,
    and `x.tar.gz` (stem `x.tar`, extension `gz`) becomes `x.tar.html`.
   */
  lemma WithSuffixReplacesExtension(dir: string, stem: string, ext: string, suffix: string)
    requires dir == [] || dir[|dir| - 1] == Sep
    requires stem != [] && forall k | 0 <= k < |stem| :: stem[k] != Sep
    requires ext != [] && forall k | 0 <= k < |ext| :: ext[k] != Sep && ext[k] != '.'
    requires ValidSuffix(suffix)
    ensures WithSuffix(dir + stem + "." + ext, suffix) == Some(dir + stem + suffix)
  {
    var name := stem + ("." + ext);
    StemDotExt(stem, ext);
    NameOfDirPlus(dir, name);
    Associative(stem, ".", ext);
    Associative(dir, stem + ".", ext);
    Associative(dir, stem, ".");
    WithSuffixValue(dir + name, suffix);
    Associative(dir, stem, suffix);
  }

  /** The name `stem.ext` has no separator and its suffix is `.ext`, leaving `stem` as its stem. */
  lemma StemDotExt(stem: string, ext: string)
    requires stem != [] && forall k | 0 <= k < |stem| :: stem[k] != Sep
    requires ext != [] && forall k | 0 <= k < |ext| :: ext[k] != Sep && ext[k] != '.'
    ensures var name := stem + ("." + ext);
      && (forall k | 0 <= k < |name| :: name[k] != Sep)
      && Suffix(name) == "." + ext && Stem(name) == stem
  {
    var name := stem + ("." + ext);
    assert name[|stem|] == '.';
    assert forall j | |stem| < j < |name| :: name[j] == ext[j - |stem| - 1];
    SuffixFromLastDot(name, |stem|);
    assert name[..|stem|] == stem;
  }

  /**
    A name with no dot after its first character has no suffix, so the new one is appended:
    `/home/u/.notes` becomes `/home/u/.notes.md`, `README` becomes `README.md`.
   */
  lemma WithSuffixAppendsToPlainName(dir: string, name: string, suffix: string)
    requires dir == [] || dir[|dir| - 1] == Sep
    requires name != [] && forall k | 0 <= k < |name| :: name[k] != Sep
    requires forall k | 0 < k < |name| :: name[k] != '.'
    requires ValidSuffix(suffix)
    ensures WithSuffix(dir + name, suffix) == Some(dir + name + suffix)
  {
    NameOfDirPlus(dir, name);
    StemOfPlainName(name);
    WithSuffixValue(dir + name, suffix);
    Associative(dir, name, suffix);
  }

  /** A name with no dot after its first character is its own stem. */
  lemma StemOfPlainName(name: string)
    requires forall k | 0 < k < |name| :: name[k] != '.'
    ensures Suffix(name) == "" && Stem(name) == name
  {
    var i := LastIndex(name, '.');
    assert !(0 < i < |name| - 1);
  }

  /** `PurePath("report.docx").with_suffix(".md")` is `report.md`. */
  lemma ExampleReportDocxToMd()
    ensures WithSuffix("report.docx", ".md") == Some("report.md")
  {
    assert "" + "report" + "." + "docx" == "report.docx";
    assert "" + "report" + ".md" == "report.md";
    assert ValidSuffix(".md");
    WithSuffixReplacesExtension("", "report", "docx", ".md");
  }

  /** `PurePath("x.tar.gz").with_suffix(".html")` is `x.tar.html`: only the last suffix goes. */
  lemma ExampleTarGzToHtml()
    ensures WithSuffix("x.tar.gz", ".html") == Some("x.tar.html")
  {
    assert "" + "x.tar" + "." + "gz" == "x.tar.gz";
    assert "" + "x.tar" + ".html" == "x.tar.html";
    assert ValidSuffix(".html");
    WithSuffixReplacesExtension("", "x.tar", "gz", ".html");
  }
}
