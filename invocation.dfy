/**
  The argument vector handed to the pandoc process, and an option reader in the style of
  pandoc's own command line (`-f FORMAT`, `-t FORMAT`, `-o FILE`, then input files) that says
  what job that vector asks for.  The vector is passed as a list, not through a shell, so each
  element reaches the program unchanged.
 */
module Invocation {
  import opened Wrappers

  /** Program, `-f` input format, `-t` output format, `-o` output path, then the input file. */
  function Command(pandocPath: string, inputFormat: string, outputFormat: string,
                   outputPath: string, inputPath: string): (argv: seq<string>)
    ensures |argv| == 8 && argv[0] == pandocPath && argv[7] == inputPath
  {
    [pandocPath, "-f", inputFormat, "-t", outputFormat, "-o", outputPath, inputPath]
  }

  /** The job an argument vector requests, as an option reader sees it. */
  datatype Request = Request(from: Option<string>, to: Option<string>, output: Option<string>,
                             inputs: seq<string>)

  /** The options of the command that take a value. */
  predicate TakesValue(arg: string) {
    arg == "-f" || arg == "-t" || arg == "-o"
  }

  /** An argument an option reader takes for an option rather than a file (`-` alone is a file). */
  predicate LooksLikeOption(arg: string) {
    |arg| >= 2 && arg[0] == '-'
  }

  /**
    Reads `args` from index `i` on: a value-taking option consumes the next argument whatever
    its shape, a later occurrence replacing an earlier one; an option with no value left, or any
    other option, makes the vector unreadable; every other argument is an input file.
   */
  function ReadFrom(args: seq<string>, i: nat, acc: Request): (r: Option<Request>)
    requires i <= |args|
    ensures r.Some? ==> acc.inputs <= r.value.inputs
    ensures r.Some? ==>
      forall k | |acc.inputs| <= k < |r.value.inputs| :: !LooksLikeOption(r.value.inputs[k])
    decreases |args| - i
  {
    if i == |args| then Some(acc)
    else
      var a := args[i];
      if TakesValue(a) then
        if i + 1 == |args| then None
        else
          var v := args[i + 1];
          var next :=
            if a == "-f" then acc.(from := Some(v))
            else if a == "-t" then acc.(to := Some(v))
            else acc.(output := Some(v));
          ReadFrom(args, i + 2, next)
      else if LooksLikeOption(a) then None
      else ReadFrom(args, i + 1, acc.(inputs := acc.inputs + [a]))
  }

  /** The program name and the request of a whole argument vector. */
  function Read(argv: seq<string>): (r: Option<(string, Request)>)
    ensures argv == [] ==> r.None?
    ensures r.Some? ==> r.value.0 == argv[0]
  {
    if argv == [] then None
    else
      match ReadFrom(argv, 1, Request(None, None, None, []))
      case None => None
      case Some(req) => Some((argv[0], req))
  }

  /**
    The vector reads back as exactly the job it was built from (the pandoc program, both
    formats, the output path and the one input file) if and only if the input path does not
    look like an option.
   */
  lemma {:induction false} CommandReadBack(pandocPath: string, inputFormat: string,
                                           outputFormat: string, outputPath: string,
                                           inputPath: string)
    ensures var argv := Command(pandocPath, inputFormat, outputFormat, outputPath, inputPath);
      Read(argv) == Some((pandocPath, Request(Some(inputFormat), Some(outputFormat),
                                              Some(outputPath), [inputPath])))
      <==> !LooksLikeOption(inputPath)
  {
    var argv := Command(pandocPath, inputFormat, outputFormat, outputPath, inputPath);
    var r1 := Request(Some(inputFormat), None, None, []);
    var r2 := r1.(to := Some(outputFormat));
    var r3 := r2.(output := Some(outputPath));
    assert ReadFrom(argv, 1, Request(None, None, None, [])) == ReadFrom(argv, 3, r1);
    assert ReadFrom(argv, 3, r1) == ReadFrom(argv, 5, r2);
    assert ReadFrom(argv, 5, r2) == ReadFrom(argv, 7, r3);
    if !LooksLikeOption(inputPath) {
      assert argv[7] == inputPath && r3.inputs + [inputPath] == [inputPath];
      assert ReadFrom(argv, 7, r3) == ReadFrom(argv, 8, r3.(inputs := [inputPath]));
    }
  }
}
