/** The command line checks of config.go: the choice between the default
    (old file) mode and newfile mode, the clash of the two mode flags, and
    the validation of newfile mode's list of file name pairs. Every check
    runs and every problem is reported: errors are gathered in order, as
    multierr.Append gathers them, and never cut the parse short. */
module Config {

  /** Mode, a uint8; its zero value is the default mode, which converts
      each file in place. */
  newtype Mode = x: int | 0 <= x < 256

  const ModeDefault: Mode := 0
  const ModeNewfile: Mode := 1

  /** What pflag's GetBool returns for one flag: its value, or an error
      (the flag is not defined as a boolean), in which case the value used
      is false. */
  datatype Lookup = Got(value: bool) | Missing

  /** The parsed command line: the four flags config.go reads, and the
      positional arguments. */
  datatype Flags = Flags(quiet: Lookup, keepdate: Lookup, newfile: Lookup, oldfile: Lookup, args: seq<string>)

  /** The errors config.go reports. */
  datatype Problem =
    | LookupFailed(flag: string)  // the error GetBool returned for flag
    | BothModes                   // "cannot specify oldfile and newfile simultaneously"
    | GlobInNewfile(file: string) // "Cannot use globs in newfile mode: " + file
    | OddNewfile                  // "newfile mode requires pairs of filenames"
    | NoNewfilePair               // "newfile mode requires at least one pair of filenames"
    | BadGlob(pattern: string)    // filepath.Glob's error for a malformed pattern

  /** What expandFilesDefault returns: the names the patterns matched, and
      the patterns filepath.Glob rejected as malformed. */
  datatype Expansion = Expansion(files: seq<string>, badPatterns: seq<string>)

  /** One problem per rejected pattern, in order. */
  function BadGlobs(patterns: seq<string>): (r: seq<Problem>)
    ensures |r| == |patterns| && forall i :: 0 <= i < |r| ==> r[i] == BadGlob(patterns[i])
  {
    seq(|patterns|, i requires 0 <= i < |patterns| => BadGlob(patterns[i]))
  }

  datatype Config = Config(quiet: bool, keepdate: bool, mode: Mode, files: seq<string>)

  // ---------------------------------------------------------------------
  // Newfile mode's file list

  /** strings.Contains(name, "*"). */
  predicate HasGlob(name: string) {
    '*' in name
  }

  /** One glob problem for each name containing '*', in the order of the
      names. */
  function GlobProblems(files: seq<string>): (errs: seq<Problem>)
    ensures |errs| <= |files|
  {
    if files == [] then []
    else
      var last := files[|files| - 1];
      GlobProblems(files[..|files| - 1]) + (if HasGlob(last) then [GlobInNewfile(last)] else [])
  }

  /** The glob problems name exactly the names that contain '*'. */
  lemma {:induction false} GlobProblemsExact(files: seq<string>)
    ensures forall p :: p in GlobProblems(files) <==> p.GlobInNewfile? && p.file in files && HasGlob(p.file)
    ensures GlobProblems(files) == [] <==> forall i :: 0 <= i < |files| ==> !HasGlob(files[i])
  {
    if files != [] {
      var init := files[..|files| - 1];
      GlobProblemsExact(init);
      assert files == init + [files[|files| - 1]];
      forall p ensures p in GlobProblems(files) <==> p.GlobInNewfile? && p.file in files && HasGlob(p.file) {
        if p.GlobInNewfile? && p.file in files && HasGlob(p.file) {
          var i :| 0 <= i < |files| && files[i] == p.file;
          if i < |files| - 1 {
            assert p.file in init;
          }
        }
      }
      if forall i :: 0 <= i < |files| ==> !HasGlob(files[i]) {
        forall i | 0 <= i < |init| ensures !HasGlob(init[i]) {
          assert init[i] == files[i];
        }
      }
      if GlobProblems(files) == [] {
        forall i | 0 <= i < |files| ensures !HasGlob(files[i]) {
          assert files[i] in files;
          assert !(GlobInNewfile(files[i]) in GlobProblems(files));
        }
      }
    }
  }

  /** The problems of a newfile mode list: its glob problems, then one for
      an odd count. */
  function NewfileProblems(files: seq<string>): (errs: seq<Problem>)
    ensures |errs| <= |files| + 1
  {
    GlobProblems(files) + (if |files| % 2 == 1 then [OddNewfile] else [])
  }

  /** Lines 100-124: the list comes back unchanged and in order, whatever
      is wrong with it; each name containing '*' and an odd count are
      reported, and nothing else. A list is accepted exactly when it is
      empty or a whole number of pairs without '*'. The check for an
      empty list at lines 120-122 can never fire: an empty list has
      already returned at line 102. */
  method ExpandFilesNewfile(files: seq<string>) returns (names: seq<string>, errs: seq<Problem>)
    ensures names == files
    ensures errs == NewfileProblems(files)
    ensures errs == [] <==> |files| % 2 == 0 && forall i :: 0 <= i < |files| ==> !HasGlob(files[i])
    ensures NoNewfilePair !in errs
  {
    if |files| == 0 {
      return [], [];
    }
    names, errs := [], [];
    var i := 0;
    while i < |files|
      invariant 0 <= i <= |files|
      invariant names == files[..i]
      invariant errs == GlobProblems(files[..i])
    {
      var fn := files[i];
      assert files[..i + 1][..i] == files[..i];
      if HasGlob(fn) {
        errs := errs + [GlobInNewfile(fn)];
      }
      names := names + [fn];
      i := i + 1;
    }
    assert files[..i] == files;
    if |names| % 2 == 1 {
      errs := errs + [OddNewfile];
    }
    if |names| == 0 {
      errs := errs + [NoNewfilePair];
    }
    GlobProblemsExact(files);
  }

  // ---------------------------------------------------------------------
  // ParseFlags

  /** The error of one flag lookup, if any. */
  function LookupProblem(l: Lookup, flag: string): (errs: seq<Problem>)
    ensures errs == [] <==> l.Got?
  {
    if l.Missing? then [LookupFailed(flag)] else []
  }

  /** pflag's GetBool: the flag's value and no error, or false and the
      lookup's error. */
  method GetBool(l: Lookup, flag: string) returns (value: bool, errs: seq<Problem>)
    ensures value <==> l == Got(true)
    ensures errs == [] <==> l.Got?
    ensures errs != [] ==> errs == [LookupFailed(flag)]
  {
    match l {
      case Got(b) => value, errs := b, [];
      case Missing => value, errs := false, [LookupFailed(flag)];
    }
  }

  /** Every problem a parse reports, in the order config.go appends them:
      the three flag lookups, then in newfile mode the oldfile lookup, the
      clash of the modes and the problems of the file list, and otherwise
      the default expansion's. */
  function Problems(flags: Flags, globbed: Expansion): (errs: seq<Problem>) {
    Lookups(flags) + ModeProblems(flags, globbed)
  }

  /** The errors of the three lookups made in every mode. */
  function Lookups(flags: Flags): (errs: seq<Problem>)
    ensures |errs| <= 3
  {
    LookupProblem(flags.quiet, "quiet") + LookupProblem(flags.keepdate, "keepdate")
    + LookupProblem(flags.newfile, "newfile")
  }

  /** The errors of lines 61-75, which depend on the mode. */
  function ModeProblems(flags: Flags, globbed: Expansion): (errs: seq<Problem>) {
    if flags.newfile == Got(true) then OldfileProblems(flags.oldfile) + NewfileProblems(flags.args)
    else BadGlobs(globbed.badPatterns)
  }

  /** Lines 62-66: the oldfile lookup's error, or the clash of the modes. */
  function OldfileProblems(oldfile: Lookup): (errs: seq<Problem>)
    ensures |errs| <= 1
  {
    LookupProblem(oldfile, "oldfile") + (if oldfile == Got(true) then [BothModes] else [])
  }

  /** The clash of the modes is reported exactly when both flags read true,
      the oldfile lookup's error exactly when oldfile is consulted, and a
      parse is free of problems exactly when every lookup succeeds, the
      modes do not clash and the file list passes its mode's check. */
  lemma ProblemsMeaning(flags: Flags, globbed: Expansion)
    ensures var errs := Problems(flags, globbed);
      && (BothModes in errs <==> flags.newfile == Got(true) && flags.oldfile == Got(true))
      && (LookupFailed("oldfile") in errs <==> flags.newfile == Got(true) && flags.oldfile.Missing?)
      && (errs == [] <==>
           && flags.quiet.Got? && flags.keepdate.Got? && flags.newfile.Got?
           && (flags.newfile == Got(true) ==>
                 && flags.oldfile == Got(false)
                 && |flags.args| % 2 == 0
                 && forall i :: 0 <= i < |flags.args| ==> !HasGlob(flags.args[i]))
           && (flags.newfile != Got(true) ==> globbed.badPatterns == []))
  {
    LookupsMeaning(flags);
    ModeProblemsMeaning(flags, globbed);
    var a, b := Lookups(flags), ModeProblems(flags, globbed);
    assert forall p :: p in a + b <==> p in a || p in b;
    assert a + b == [] <==> a == [] && b == [];
  }

  /** The three lookups report only their own failures. */
  lemma LookupsMeaning(flags: Flags)
    ensures Lookups(flags) == [] <==> flags.quiet.Got? && flags.keepdate.Got? && flags.newfile.Got?
    ensures BothModes !in Lookups(flags) && LookupFailed("oldfile") !in Lookups(flags)
  {
    assert "oldfile" != "quiet" && "oldfile" != "keepdate" && "oldfile" != "newfile";
  }

  /** Lines 61-75 report the clash exactly when both flags read true, and
      nothing exactly when oldfile is false and the list passes its mode's
      check. */
  lemma ModeProblemsMeaning(flags: Flags, globbed: Expansion)
    ensures var errs := ModeProblems(flags, globbed);
      && (BothModes in errs <==> flags.newfile == Got(true) && flags.oldfile == Got(true))
      && (LookupFailed("oldfile") in errs <==> flags.newfile == Got(true) && flags.oldfile.Missing?)
      && (errs == [] <==>
           && (flags.newfile == Got(true) ==>
                 && flags.oldfile == Got(false)
                 && |flags.args| % 2 == 0
                 && forall i :: 0 <= i < |flags.args| ==> !HasGlob(flags.args[i]))
           && (flags.newfile != Got(true) ==> globbed.badPatterns == []))
  {
    if flags.newfile == Got(true) {
      NewfileModeMeaning(flags.oldfile, flags.args);
    } else {
      DefaultModeMeaning(globbed.badPatterns);
    }
  }

  /** Lines 62-66 and 68: in newfile mode the clash is reported exactly when
      oldfile reads true, its lookup error exactly when it is missing, and
      nothing exactly when it reads false and the arguments form pairs
      without '*'. */
  lemma NewfileModeMeaning(oldfile: Lookup, args: seq<string>)
    ensures var errs := OldfileProblems(oldfile) + NewfileProblems(args);
      && (BothModes in errs <==> oldfile == Got(true))
      && (LookupFailed("oldfile") in errs <==> oldfile.Missing?)
      && (errs == [] <==>
           && oldfile == Got(false)
           && |args| % 2 == 0
           && forall i :: 0 <= i < |args| ==> !HasGlob(args[i]))
  {
    GlobProblemsExact(args);
    var a, b := OldfileProblems(oldfile), NewfileProblems(args);
    assert BothModes !in b && LookupFailed("oldfile") !in b;
    assert forall p :: p in a + b <==> p in a || p in b;
  }

  /** Lines 70-75: in the default mode the only problems are the patterns
      that failed to glob, and never the clash or an oldfile error. */
  lemma DefaultModeMeaning(badPatterns: seq<string>)
    ensures var errs := BadGlobs(badPatterns);
      && BothModes !in errs
      && LookupFailed("oldfile") !in errs
      && (errs == [] <==> badPatterns == [])
  {
  }

  /** Lines 61-75: in newfile mode, the oldfile check and the validation
      of the arguments as pairs; otherwise the default expansion. */
  method ExpandFor(mode: Mode, flags: Flags, globbed: Expansion) returns (files: seq<string>, errs: seq<Problem>)
    requires mode == ModeNewfile <==> flags.newfile == Got(true)
    ensures files == if mode == ModeNewfile then flags.args else globbed.files
    ensures errs == ModeProblems(flags, globbed)
  {
    errs := [];
    if mode == ModeNewfile {
      var oldfile, e := GetBool(flags.oldfile, "oldfile");
      errs := errs + e;
      if oldfile {
        errs := errs + [BothModes];
      }
    }
    var more;
    if mode == ModeNewfile {
      files, more := ExpandFilesNewfile(flags.args);
    } else {
      files := globbed.files;
      more := BadGlobs(globbed.badPatterns);
    }
    errs := errs + more;
  }

  /** Lines 42-77. The mode is newfile exactly when the newfile flag reads
      true; only then is oldfile read. The file list is computed whatever
      went wrong before: in newfile mode it is the arguments, validated as
      pairs; otherwise it is the default expansion, which globs each
      argument against the file system and is passed in as globbed. The
      modes clash exactly when both flags read true, and the parse is free
      of problems exactly when every lookup succeeds, the modes do not
      clash and the file list passes its mode's check. */
  method ParseFlags(flags: Flags, globbed: Expansion) returns (cfg: Config, errs: seq<Problem>)
    ensures cfg.quiet <==> flags.quiet == Got(true)
    ensures cfg.keepdate <==> flags.keepdate == Got(true)
    ensures cfg.mode == ModeNewfile <==> flags.newfile == Got(true)
    ensures cfg.mode != ModeNewfile ==> cfg.mode == ModeDefault
    ensures cfg.files == if flags.newfile == Got(true) then flags.args else globbed.files
    ensures errs == Problems(flags, globbed)
    ensures BothModes in errs <==> flags.newfile == Got(true) && flags.oldfile == Got(true)
    ensures errs == [] <==>
      && flags.quiet.Got? && flags.keepdate.Got? && flags.newfile.Got?
      && (flags.newfile == Got(true) ==>
            && flags.oldfile == Got(false)
            && |flags.args| % 2 == 0
            && forall i :: 0 <= i < |flags.args| ==> !HasGlob(flags.args[i]))
      && (flags.newfile != Got(true) ==> globbed.badPatterns == [])
  {
    var quiet, e1 := GetBool(flags.quiet, "quiet");
    var keepdate, e2 := GetBool(flags.keepdate, "keepdate");
    var isNewfile, e3 := GetBool(flags.newfile, "newfile");
    var mode := if isNewfile then ModeNewfile else ModeDefault;
    var files, e4 := ExpandFor(mode, flags, globbed);
    cfg, errs := Config(quiet, keepdate, mode, files), e1 + e2 + e3 + e4;
    ProblemsMeaning(flags, globbed);
  }
}
