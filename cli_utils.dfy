/**
 * The `check_license` and `check_json` commands around the license checker:
 * the extension map built from the `file_extensions` setting, the
 * extension of a found file, `test_file`, the per-file error tallies and
 * the exit status they end with.
 *
 * Reading the configuration, finding files, reading and re-indenting JSON
 * and printing are inputs here: a file is its name and its raw lines, and a
 * JSON file is the outcome of parsing and re-indenting it.
 */
module CliUtils {
  import opened Wrappers
  import opened PyStr
  import opened LicenseCheck

  // ---------------------------------------------------------------------
  // The extension map
  // ---------------------------------------------------------------------

  /** The `file_extensions` setting: groups such as `"py, cfg"` with their settings, in file order. */
  type Groups = seq<(string, Settings)>

  /** The keys a group names: its comma-separated pieces, each stripped. */
  function Keys(group: string): (keys: seq<string>)
    ensures |keys| == |Split(group, ',')|
    ensures forall i :: 0 <= i < |keys| ==> keys[i] == Strip(Split(group, ',')[i])
  {
    var parts := Split(group, ',');
    seq(|parts|, i requires 0 <= i < |parts| => Strip(parts[i]))
  }

  /** The settings of the first group that names `key`, if any. */
  function Lookup(groups: Groups, key: string): Option<Settings> {
    if groups == [] then None
    else if key in Keys(groups[0].0) then Some(groups[0].1)
    else Lookup(groups[1..], key)
  }

  /** Looking up in one more group only matters for keys the earlier groups do not name. */
  lemma {:induction false} LookupExtend(groups: Groups, g: (string, Settings), key: string)
    ensures Lookup(groups + [g], key) ==
      if Lookup(groups, key).Some? then Lookup(groups, key)
      else if key in Keys(g.0) then Some(g.1) else None
    decreases |groups|
  {
    if groups == [] {
      assert [g][1..] == [];
    } else {
      assert (groups + [g])[1..] == groups[1..] + [g];
      LookupExtend(groups[1..], g, key);
    }
  }

  /** The first group naming a key decides its settings; later groups naming it are ignored. */
  lemma {:induction false} LookupFirstGroupWins(groups: Groups, key: string, i: nat)
    requires i < |groups| && key in Keys(groups[i].0)
    requires forall j :: 0 <= j < i ==> key !in Keys(groups[j].0)
    ensures Lookup(groups, key) == Some(groups[i].1)
    decreases i
  {
    if i > 0 {
      assert key !in Keys(groups[0].0);
      forall j | 0 <= j < i - 1
        ensures key !in Keys(groups[1..][j].0)
      {
        assert groups[1..][j] == groups[j + 1];
      }
      LookupFirstGroupWins(groups[1..], key, i - 1);
    }
  }

  /** A key no group names has no settings. */
  lemma {:induction false} LookupMissing(groups: Groups, key: string)
    ensures Lookup(groups, key).None? <==> forall j :: 0 <= j < |groups| ==> key !in Keys(groups[j].0)
    decreases |groups|
  {
    if groups != [] {
      LookupMissing(groups[1..], key);
      if key !in Keys(groups[0].0) {
        forall j | 0 <= j < |groups| && j > 0
          ensures (key !in Keys(groups[j].0)) == (key !in Keys(groups[1..][j - 1].0))
        {
        }
      }
    }
  }

  /**
   * The extension map as a value: each group's keys laid over the map of
   * the groups after it, so that an earlier group wins.
   */
  function ExtensionMap(groups: Groups): map<string, Settings> {
    if groups == [] then map[]
    else ExtensionMap(groups[1..]) + map key | key in Keys(groups[0].0) :: groups[0].1
  }

  /** The extension map gives each key exactly the settings `Lookup` finds. */
  lemma {:induction false} ExtensionMapLookup(groups: Groups, key: string)
    ensures key in ExtensionMap(groups) <==> Lookup(groups, key).Some?
    ensures key in ExtensionMap(groups) ==> ExtensionMap(groups)[key] == Lookup(groups, key).value
    decreases |groups|
  {
    if groups != [] {
      ExtensionMapLookup(groups[1..], key);
    }
  }

  /**
   * The loop that fills `extensions` with `setdefault`: every stripped
   * comma-separated piece of every group is a key, mapped to the settings
   * of the first group naming it.
   */
  method BuildExtensions(groups: Groups) returns (extensions: map<string, Settings>)
    ensures extensions == ExtensionMap(groups)
  {
    extensions := map[];
    for g := 0 to |groups|
      invariant forall key :: key in extensions <==> Lookup(groups[..g], key).Some?
      invariant forall key :: key in extensions ==> extensions[key] == Lookup(groups[..g], key).value
    {
      var keys := Keys(groups[g].0);
      ghost var before := extensions;
      for j := 0 to |keys|
        invariant forall key :: key in extensions <==> key in before || key in keys[..j]
        invariant forall key :: key in extensions ==>
                    extensions[key] == if key in before then before[key] else groups[g].1
      {
        if keys[j] !in extensions {
          extensions := extensions[keys[j] := groups[g].1];
        }
      }
      assert keys[..|keys|] == keys;
      assert groups[..g + 1] == groups[..g] + [groups[g]];
      forall key
        ensures Lookup(groups[..g + 1], key) ==
          if Lookup(groups[..g], key).Some? then Lookup(groups[..g], key)
          else if key in keys then Some(groups[g].1) else None
      {
        LookupExtend(groups[..g], groups[g], key);
      }
    }
    assert groups[..|groups|] == groups;
    forall key
      ensures key in extensions <==> key in ExtensionMap(groups)
      ensures key in extensions ==> extensions[key] == ExtensionMap(groups)[key]
    {
      ExtensionMapLookup(groups, key);
    }
  }

  /** A group of two comma-separated names, such as `"py, cfg"`, names both, stripped. */
  lemma KeysOfPair(a: string, b: string)
    requires ',' !in a && ',' !in b
    ensures Keys(a + [','] + b) == [Strip(a), Strip(b)]
  {
    SplitAtSep(a, ',', b);
    SplitWithoutSep(b, ',');
  }

  // ---------------------------------------------------------------------
  // The extension of a found file
  // ---------------------------------------------------------------------

  /**
   * `os.path.splitext(name)[1][1:]` on POSIX paths: the text after the last
   * dot of the last path component, or nothing when that component has no
   * dot or only leading dots before it.
   */
  function FileExtension(name: string): string {
    var parts := Split(LastPart(name, '/'), '.');
    if exists i :: 0 <= i < |parts| - 1 && parts[i] != [] then parts[|parts| - 1] else []
  }

  /** The extension is the dot-free, slash-free text that ends the name, right after a dot. */
  lemma FileExtensionIsSuffix(name: string)
    ensures var ext := FileExtension(name);
      ext == [] || (|ext| < |name| && name[|name| - |ext| - 1..] == "." + ext && '.' !in ext && '/' !in ext)
  {
    var base := LastPart(name, '/');
    var ext := FileExtension(name);
    if ext != [] {
      LastPartIsSuffix(name, '/');
      LastPartIsSuffix(base, '.');
      LastPartShorter(base, '.');
      assert ext == LastPart(base, '.');
      var k := |base| - |ext| - 1;
      assert base[k] == '.' && base[k + 1..] == ext;
      assert base[k..] == [base[k]] + base[k + 1..];
      assert name[|name| - |ext| - 1..] == base[k..];
    }
  }

  /** A name such as `utils.py` in any directory has the text after its one dot as extension. */
  lemma FileExtensionOfName(dir: string, stem: string, ext: string)
    requires stem != [] && '.' !in stem && '/' !in stem && '.' !in ext && '/' !in ext
    ensures FileExtension(dir + ['/'] + stem + ['.'] + ext) == ext
  {
    var base := stem + ['.'] + ext;
    assert dir + ['/'] + stem + ['.'] + ext == dir + ['/'] + base;
    LastPartAfterSep(dir, '/', base);
    SplitAtSep(stem, '.', ext);
    SplitWithoutSep(ext, '.');
    assert Split(base, '.') == [stem, ext];
    assert Split(base, '.')[0] != [];
  }

  /** A dot file such as `.flake8` has no extension: its leading dot does not count. */
  lemma DotFileHasNoExtension(dir: string, name: string)
    requires '.' !in name && '/' !in name
    ensures FileExtension(dir + ['/', '.'] + name) == []
  {
    var base := ['.'] + name;
    assert dir + ['/', '.'] + name == dir + ['/'] + base;
    LastPartAfterSep(dir, '/', base);
    SplitAtSep([], '.', name);
    SplitWithoutSep(name, '.');
    assert Split(base, '.') == [[], name];
  }

  // ---------------------------------------------------------------------
  // test_file and the tally of check_license
  // ---------------------------------------------------------------------

  /** A file to check: its name, the extension it is checked as, and its raw lines. */
  datatype FileJob = FileJob(name: string, ext: string, raw: seq<string>)

  /**
   * The files of `check_license` in the order it checks them: the found
   * files under the extension of their name, then the files the `files`
   * setting lists under the extension they are listed under.
   */
  function Jobs(found: seq<(string, seq<string>)>, listed: seq<(string, string, seq<string>)>): (jobs: seq<FileJob>)
    ensures |jobs| == |found| + |listed|
    ensures forall i :: 0 <= i < |found| ==>
              jobs[i] == FileJob(found[i].0, FileExtension(found[i].0), found[i].1)
    ensures forall i :: 0 <= i < |listed| ==>
              jobs[|found| + i] == FileJob(listed[i].1, listed[i].0, listed[i].2)
  {
    seq(|found|, i requires 0 <= i < |found| => FileJob(found[i].0, FileExtension(found[i].0), found[i].1)) +
    seq(|listed|, i requires 0 <= i < |listed| => FileJob(listed[i].1, listed[i].0, listed[i].2))
  }

  /**
   * `test_file`: 1 when the license check of the file reports any line, 0
   * otherwise; an extension without settings raises KeyError, and the
   * checker's own exceptions pass through.
   */
  function FileOutcome(extensions: map<string, Settings>, job: FileJob, license: seq<string>): Result<nat, Crash> {
    if job.ext !in extensions then Err(KeyError)
    else
      match LicenseErrors(job.name, job.raw, extensions[job.ext], license)
      case Err(e) => Err(e)
      case Ok(errs) => Ok(if errs != [] then 1 else 0)
  }

  /** `test_file`, running `test_license` on the file. */
  method TestFile(extensions: map<string, Settings>, job: FileJob, license: seq<string>) returns (r: Result<nat, Crash>)
    ensures r == FileOutcome(extensions, job, license)
    ensures r.Ok? ==> r.value <= 1
  {
    if job.ext !in extensions {
      return Err(KeyError);
    }
    var result := TestLicense(job.name, job.raw, extensions[job.ext], license);
    if result.Err? {
      return Err(result.error);
    }
    if result.value != [] {
      return Ok(1);
    }
    return Ok(0);
  }

  /**
   * `tot_error_cnt += ...` over the files in order: the sum of the per-file
   * counts; the first exception ends the command.
   */
  function Tally(outcomes: seq<Result<nat, Crash>>): Result<nat, Crash> {
    if outcomes == [] then Ok(0)
    else
      match Tally(outcomes[..|outcomes| - 1])
      case Err(e) => Err(e)
      case Ok(n) =>
        match outcomes[|outcomes| - 1]
        case Err(e) => Err(e)
        case Ok(k) => Ok(n + k)
  }

  /** Per-file counts of 0 or 1 add up to at most the number of files. */
  lemma {:induction false} TallyBound(outcomes: seq<Result<nat, Crash>>)
    requires forall i :: 0 <= i < |outcomes| && outcomes[i].Ok? ==> outcomes[i].value <= 1
    ensures Tally(outcomes).Ok? ==> Tally(outcomes).value <= |outcomes|
    decreases |outcomes|
  {
    if outcomes != [] {
      TallyBound(outcomes[..|outcomes| - 1]);
    }
  }

  /** The total is zero exactly when every file counts zero. */
  lemma {:induction false} TallyZero(outcomes: seq<Result<nat, Crash>>)
    ensures Tally(outcomes) == Ok(0) <==> forall i :: 0 <= i < |outcomes| ==> outcomes[i] == Ok(0)
    decreases |outcomes|
  {
    if outcomes != [] {
      var init := outcomes[..|outcomes| - 1];
      TallyZero(init);
      assert forall i :: 0 <= i < |init| ==> init[i] == outcomes[i];
    }
  }

  /** The positions of the files that count an error. */
  function FailingFiles(outcomes: seq<Result<nat, Crash>>): set<int> {
    set i | 0 <= i < |outcomes| && outcomes[i] == Ok(1)
  }

  /** With per-file counts of 0 or 1, a total that does not fail is the number of files counting an error. */
  lemma {:induction false} TallyCounts(outcomes: seq<Result<nat, Crash>>)
    requires forall i :: 0 <= i < |outcomes| && outcomes[i].Ok? ==> outcomes[i].value <= 1
    ensures Tally(outcomes).Ok? ==> Tally(outcomes).value == |FailingFiles(outcomes)|
    decreases |outcomes|
  {
    if outcomes != [] {
      var n := |outcomes| - 1;
      var init := outcomes[..n];
      assert forall i :: 0 <= i < n ==> init[i] == outcomes[i];
      TallyCounts(init);
      if outcomes[n] == Ok(1) {
        assert FailingFiles(outcomes) == FailingFiles(init) + {n};
      } else {
        assert FailingFiles(outcomes) == FailingFiles(init);
      }
    }
  }

  /** The total fails exactly when some file's check raises, and then with the first such exception. */
  lemma {:induction false} TallyErr(outcomes: seq<Result<nat, Crash>>)
    ensures Tally(outcomes).Err? <==> exists i :: 0 <= i < |outcomes| && outcomes[i].Err?
    ensures Tally(outcomes).Err? ==>
      exists i :: 0 <= i < |outcomes| && outcomes[i] == Tally(outcomes) &&
        forall j :: 0 <= j < i ==> outcomes[j].Ok?
    decreases |outcomes|
  {
    if outcomes != [] {
      var init := outcomes[..|outcomes| - 1];
      TallyErr(init);
      assert forall i :: 0 <= i < |init| ==> init[i] == outcomes[i];
    }
  }

  /** One more file that passes through adds its count. */
  lemma TallyNext(outcomes: seq<Result<nat, Crash>>, i: nat)
    requires i < |outcomes| && Tally(outcomes[..i]).Ok?
    ensures Tally(outcomes[..i + 1]) ==
      if outcomes[i].Err? then Err(outcomes[i].error) else Ok(Tally(outcomes[..i]).value + outcomes[i].value)
  {
    assert outcomes[..i + 1][..i] == outcomes[..i];
  }

  /** Once a prefix of the files fails, the whole total is that failure. */
  lemma {:induction false} TallyErrSticks(outcomes: seq<Result<nat, Crash>>, n: nat)
    requires n <= |outcomes| && (n == |outcomes| || Tally(outcomes[..n]).Err?)
    ensures Tally(outcomes) == Tally(outcomes[..n])
    decreases |outcomes|
  {
    if n == |outcomes| {
      assert outcomes[..n] == outcomes;
    } else {
      var init := outcomes[..|outcomes| - 1];
      assert init[..n] == outcomes[..n];
      TallyErrSticks(init, n);
    }
  }

  /** `test_file` as written, on top of `test_license` as written. */
  function FileOutcomeAsWritten(extensions: map<string, Settings>, job: FileJob, license: seq<string>)
    : (r: Result<nat, Crash>)
    ensures IsJs(job.name) ==> r.Err?
  {
    if job.ext !in extensions then Err(KeyError)
    else
      match LicenseErrorsAsWritten(job.name, job.raw, extensions[job.ext], license)
      case Err(e) => Err(e)
      case Ok(errs) => Ok(if errs != [] then 1 else 0)
  }

  /**
   * As written, `test_file` gives the intended outcome for every file that
   * is not JavaScript, and an exception for every JavaScript file, which
   * ends `check_license`.
   */
  lemma FileOutcomeAsWrittenMeaning(extensions: map<string, Settings>, job: FileJob, license: seq<string>)
    ensures !IsJs(job.name) ==> FileOutcomeAsWritten(extensions, job, license) == FileOutcome(extensions, job, license)
    ensures IsJs(job.name) && job.ext in extensions ==>
      FileOutcomeAsWritten(extensions, job, license) ==
        (if exists k :: 0 <= k < |job.raw| && !StartsWith(RStrip(job.raw[k]), Shebang) then Err(NameError)
         else Err(IndexError))
  {
    if job.ext in extensions {
      LicenseErrorsAsWrittenMeaning(job.name, job.raw, extensions[job.ext], license);
    }
  }

  /** What `test_file` gives for each file, in order. */
  function Outcomes(extensions: map<string, Settings>, jobs: seq<FileJob>, license: seq<string>)
    : (outcomes: seq<Result<nat, Crash>>)
    ensures |outcomes| == |jobs|
    ensures forall i :: 0 <= i < |jobs| ==> outcomes[i] == FileOutcome(extensions, jobs[i], license)
  {
    seq(|jobs|, i requires 0 <= i < |jobs| => FileOutcome(extensions, jobs[i], license))
  }

  /** The loop of `check_license` over the files: `tot_error_cnt` as it stands at the end. */
  method CheckLicenseFiles(extensions: map<string, Settings>, jobs: seq<FileJob>, license: seq<string>)
    returns (r: Result<nat, Crash>)
    ensures r == Tally(Outcomes(extensions, jobs, license))
  {
    ghost var outcomes := Outcomes(extensions, jobs, license);
    r := Ok(0);
    var i := 0;
    while i < |jobs| && r.Ok?
      invariant i <= |jobs|
      invariant r == Tally(outcomes[..i])
    {
      var outcome := TestFile(extensions, jobs[i], license);
      TallyNext(outcomes, i);
      if outcome.Err? {
        r := Err(outcome.error);
      } else {
        r := Ok(r.value + outcome.value);
      }
      i := i + 1;
    }
    TallyErrSticks(outcomes, i);
  }

  /**
   * `tot_error_cnt` is the number of files whose license check found an
   * error, at most the number of files checked, and 0 exactly when every
   * file passes.
   */
  lemma CheckLicenseCountsFiles(extensions: map<string, Settings>, jobs: seq<FileJob>, license: seq<string>)
    ensures var r := Tally(Outcomes(extensions, jobs, license));
      r.Ok? ==> r.value == |FailingFiles(Outcomes(extensions, jobs, license))| && r.value <= |jobs|
    ensures Tally(Outcomes(extensions, jobs, license)) == Ok(0) <==>
              forall i :: 0 <= i < |jobs| ==> FileOutcome(extensions, jobs[i], license) == Ok(0)
  {
    var outcomes := Outcomes(extensions, jobs, license);
    forall i | 0 <= i < |outcomes| && outcomes[i].Ok?
      ensures outcomes[i].value <= 1
    {
    }
    TallyBound(outcomes);
    TallyCounts(outcomes);
    TallyZero(outcomes);
  }

  // ---------------------------------------------------------------------
  // Exit status
  // ---------------------------------------------------------------------

  /**
   * `sys.exit(tot_error_cnt)` as written: the operating system keeps only
   * the low eight bits of the status; an exception that escapes ends the
   * command with status 1.
   */
  function ExitStatusAsWritten(r: Result<nat, Crash>): (status: nat)
    ensures status < 256
  {
    match r
    case Err(_) => 1
    case Ok(n) => n % 256
  }

  /** As written, 256 failing files end with status 0, the status of success. */
  lemma ExitStatusAsWrittenWraps()
    ensures ExitStatusAsWritten(Ok(256)) == 0
    ensures ExitStatusAsWritten(Ok(256)) == ExitStatusAsWritten(Ok(0))
  {
  }

  /** The status evidently intended: the count of failing files, capped at 255 so that it stays non-zero. */
  function ExitStatus(r: Result<nat, Crash>): (status: nat)
    ensures status < 256
  {
    match r
    case Err(_) => 1
    case Ok(n) => if n < 256 then n else 255
  }

  /** The corrected status is 0 exactly when no file failed, and agrees with the written one below 256. */
  lemma ExitStatusMeaning(r: Result<nat, Crash>)
    ensures ExitStatus(r) == 0 <==> r == Ok(0)
    ensures r.Ok? && r.value < 256 ==> ExitStatus(r) == ExitStatusAsWritten(r)
  {
  }

  /**
   * `check_license` from the `file_extensions` groups, the license text and
   * the files to check, to the exit status.
   */
  method CheckLicense(groups: Groups, licenseText: string, jobs: seq<FileJob>) returns (status: nat)
    ensures status == ExitStatus(Tally(Outcomes(ExtensionMap(groups), jobs, Split(licenseText, '\n'))))
  {
    var extensions := BuildExtensions(groups);
    var license := Split(licenseText, '\n');
    var failures := CheckLicenseFiles(extensions, jobs, license);
    status := ExitStatus(failures);
  }

  // ---------------------------------------------------------------------
  // check_json
  // ---------------------------------------------------------------------

  /**
   * What reading a JSON file shows: it parses and its re-indented dump
   * equals its text, it parses but differs, or it does not parse
   * (`json.load` raises ValueError).
   */
  datatype JsonState = Indented | NotIndented | Unparsable

  /** The status line printed after a file's name. */
  datatype JsonReport = FileReplaced | WellIndented | BadIndentation | InvalidJson

  /** `error_cnt` for one file: 0 exactly when it parses and is indented as dumped. */
  function JsonErrorCount(state: JsonState): (n: nat)
    ensures n <= 1
    ensures n == 0 <==> state == Indented
  {
    if state == Indented then 0 else 1
  }

  /**
   * The report as written: `--replace` reports every parsed file as
   * replaced, `--verbose` reports a good file as well indented, and every
   * other parsed file, good ones included, is reported as badly indented.
   */
  function JsonReportAsWritten(state: JsonState, replace: bool, verbose: bool): JsonReport {
    if state == Unparsable then InvalidJson
    else if replace then FileReplaced
    else if JsonErrorCount(state) == 0 && verbose then WellIndented
    else BadIndentation
  }

  /** As written, a well-indented file checked without `--verbose` is reported as badly indented, yet counts no error. */
  lemma JsonReportAsWrittenMisreports()
    ensures JsonReportAsWritten(Indented, false, false) == BadIndentation
    ensures JsonErrorCount(Indented) == 0
  {
  }

  /** The report evidently intended: nothing for a good file unless `--verbose` asks for it. */
  function JsonReportFor(state: JsonState, replace: bool, verbose: bool): Option<JsonReport> {
    if state == Indented && !replace && !verbose then None
    else Some(JsonReportAsWritten(state, replace, verbose))
  }

  /**
   * The corrected report calls a file badly indented exactly when it
   * counts an error and was not rewritten, and stays silent only about a
   * good file; it differs from the written one only by that silence.
   */
  lemma JsonReportMeaning(state: JsonState, replace: bool, verbose: bool)
    ensures JsonReportFor(state, replace, verbose) == Some(BadIndentation) <==> state == NotIndented && !replace
    ensures JsonReportFor(state, replace, verbose) == Some(InvalidJson) <==> state == Unparsable
    ensures JsonReportFor(state, replace, verbose) == Some(WellIndented) <==> state == Indented && !replace && verbose
    ensures JsonReportFor(state, replace, verbose).None? <==> state == Indented && !replace && !verbose
    ensures JsonReportFor(state, replace, verbose).Some? ==>
              JsonReportFor(state, replace, verbose).value == JsonReportAsWritten(state, replace, verbose)
  {
  }

  /** The reports of a run as written, in file order: one for every file. */
  function JsonReportsAsWritten(files: seq<(string, JsonState)>, replace: bool, verbose: bool)
    : (reports: seq<(string, JsonReport)>)
    ensures |reports| == |files|
    decreases |files|
  {
    if files == [] then []
    else
      var last := files[|files| - 1];
      JsonReportsAsWritten(files[..|files| - 1], replace, verbose) + [(last.0, JsonReportAsWritten(last.1, replace, verbose))]
  }

  /** As written, the k-th report is about the k-th file, whatever its state and the flags. */
  lemma {:induction false} JsonReportsAsWrittenOnePerFile(files: seq<(string, JsonState)>, replace: bool, verbose: bool)
    ensures forall k :: 0 <= k < |files| ==>
      JsonReportsAsWritten(files, replace, verbose)[k] == (files[k].0, JsonReportAsWritten(files[k].1, replace, verbose))
    decreases |files|
  {
    if files != [] {
      var init := files[..|files| - 1];
      JsonReportsAsWrittenOnePerFile(init, replace, verbose);
      assert forall k :: 0 <= k < |init| ==> init[k] == files[k];
    }
  }

  /** The reports of a run, in file order, each after the file's name. */
  function JsonReports(files: seq<(string, JsonState)>, replace: bool, verbose: bool): seq<(string, JsonReport)>
  {
    if files == [] then []
    else
      var last := files[|files| - 1];
      JsonReports(files[..|files| - 1], replace, verbose) +
        match JsonReportFor(last.1, replace, verbose)
        case None => []
        case Some(report) => [(last.0, report)]
  }

  /** Every report belongs to a checked file, and a run reports each file at most once. */
  lemma {:induction false} JsonReportsBound(files: seq<(string, JsonState)>, replace: bool, verbose: bool)
    ensures |JsonReports(files, replace, verbose)| <= |files|
    ensures replace || verbose ==> |JsonReports(files, replace, verbose)| == |files|
    ensures forall k :: 0 <= k < |JsonReports(files, replace, verbose)| ==>
              exists i :: 0 <= i < |files| && JsonReports(files, replace, verbose)[k].0 == files[i].0
    decreases |files|
  {
    if files != [] {
      var init := files[..|files| - 1];
      JsonReportsBound(init, replace, verbose);
      var reports := JsonReports(files, replace, verbose);
      var before := JsonReports(init, replace, verbose);
      assert reports[..|before|] == before;
      forall k | 0 <= k < |reports|
        ensures exists i :: 0 <= i < |files| && reports[k].0 == files[i].0
      {
        if k < |before| {
          assert reports[k] == before[k];
          var i :| 0 <= i < |init| && before[k].0 == init[i].0;
          assert files[i] == init[i];
        } else {
          assert reports[k].0 == files[|files| - 1].0;
        }
      }
    }
  }

  /** Each file counts its `error_cnt`; nothing escapes, so the tally never fails. */
  function JsonOutcomes(files: seq<(string, JsonState)>): (outcomes: seq<Result<nat, Crash>>)
    ensures |outcomes| == |files|
    ensures forall i :: 0 <= i < |files| ==> outcomes[i] == Ok(JsonErrorCount(files[i].1))
  {
    seq(|files|, i requires 0 <= i < |files| => Ok(JsonErrorCount(files[i].1)))
  }

  /**
   * `check_json` over the files in order: the exit status from
   * `tot_error_cnt` and the reports printed.
   */
  method CheckJson(files: seq<(string, JsonState)>, replace: bool, verbose: bool)
    returns (status: nat, reports: seq<(string, JsonReport)>)
    ensures status == ExitStatus(Tally(JsonOutcomes(files)))
    ensures reports == JsonReports(files, replace, verbose)
  {
    ghost var outcomes := JsonOutcomes(files);
    var total := 0;
    reports := [];
    for i := 0 to |files|
      invariant Tally(outcomes[..i]) == Ok(total)
      invariant reports == JsonReports(files[..i], replace, verbose)
    {
      var (name, state) := files[i];
      TallyNext(outcomes, i);
      total := total + JsonErrorCount(state);
      assert files[..i + 1][..i] == files[..i];
      var report := JsonReportFor(state, replace, verbose);
      if report.Some? {
        reports := reports + [(name, report.value)];
      }
    }
    assert outcomes[..|files|] == outcomes;
    assert files[..|files|] == files;
    status := ExitStatus(Ok(total));
  }

  /**
   * With the corrected status, `check_json` ends with 0 exactly when every
   * file parses and is indented as dumped.
   */
  lemma CheckJsonStatusCorrected(files: seq<(string, JsonState)>)
    ensures ExitStatus(Tally(JsonOutcomes(files))) == 0 <==> forall i :: 0 <= i < |files| ==> files[i].1 == Indented
  {
    var outcomes := JsonOutcomes(files);
    TallyZero(outcomes);
    ExitStatusMeaning(Tally(outcomes));
    assert (forall i :: 0 <= i < |outcomes| ==> outcomes[i] == Ok(0)) <==>
      (forall i :: 0 <= i < |files| ==> files[i].1 == Indented);
  }

  /** The files that do not parse or are not indented as dumped. */
  function BadJsonFiles(files: seq<(string, JsonState)>): set<int> {
    set i | 0 <= i < |files| && files[i].1 != Indented
  }

  /**
   * As written, `check_json` ends with the number of bad files modulo 256,
   * so it ends with 0, the status of success, whenever that number is a
   * multiple of 256.
   */
  lemma CheckJsonStatusAsWritten(files: seq<(string, JsonState)>)
    ensures ExitStatusAsWritten(Tally(JsonOutcomes(files))) == |BadJsonFiles(files)| % 256
  {
    var outcomes := JsonOutcomes(files);
    TallyCounts(outcomes);
    TallyErr(outcomes);
    assert FailingFiles(outcomes) == BadJsonFiles(files);
  }

  /** One well-indented file ends with status 0; one badly indented or unparsable file with 1. */
  lemma CheckJsonOneFile(name: string, state: JsonState)
    ensures ExitStatus(Tally(JsonOutcomes([(name, state)]))) == if state == Indented then 0 else 1
  {
    var outcomes := JsonOutcomes([(name, state)]);
    assert outcomes[..0] == [];
  }
}
