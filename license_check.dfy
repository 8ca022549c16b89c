/**
 * The license-header checker behind the `check_license` command: the
 * helpers `delete_prefix`, `is_copyright`, `get_line` and
 * `is_slash_directive`, and `test_license`, which walks a cursor through a
 * file's lines and collects the numbers of the lines that differ from the
 * license text.
 *
 * `test_license` is the method `TestLicense`; it is proved equal to the
 * function `LicenseErrors`, which is built from one step per license line
 * (`Step`, folded by `Compare`). The lemmas at the end state what the
 * checker promises in terms of `LicenseErrors`.
 */
module LicenseCheck {
  import opened Wrappers
  import opened PyStr

  /** The settings of one file extension: the comment `prefix` and the allowed first lines `top`. */
  datatype Settings = Settings(prefix: Option<string>, top: Option<seq<string>>)

  /** Exceptions that escape the checker and end the command. */
  datatype Crash = IndexError | KeyError | NameError

  const CopyrightMark: string := "Copyright (C)"
  const Shebang: string := "#!"

  // ---------------------------------------------------------------------
  // Line helpers
  // ---------------------------------------------------------------------

  /**
   * `delete_prefix`: a non-empty prefix is cut out wherever it occurs in the
   * line, then surrounding whitespace is stripped; an absent or empty
   * prefix only strips.
   */
  function DeletePrefix(prefix: Option<string>, line: string): string {
    if prefix.Some? && prefix.value != [] then Strip(RemoveAll(line, prefix.value)) else Strip(line)
  }

  /** A line without the prefix is only stripped. */
  lemma DeletePrefixWithoutOccurrence(prefix: string, line: string)
    requires prefix != []
    requires forall i :: 0 <= i < |line| ==> !OccursAt(line, prefix, i)
    ensures DeletePrefix(Some(prefix), line) == Strip(line)
  {
    RemoveAllWithoutOccurrence(line, prefix);
  }

  /** The prefix is removed in the middle of a line too, not only at its start. */
  lemma DeletePrefixInside(before: string, prefix: string, after: string)
    requires prefix != []
    requires forall i :: 0 <= i < |before| ==> !OccursAt(before + prefix + after, prefix, i)
    ensures DeletePrefix(Some(prefix), before + prefix + after) == Strip(before + RemoveAll(after, prefix))
  {
    RemoveAllAtFirstOccurrence(before, prefix, after);
  }

  /** `is_copyright`. */
  predicate IsCopyright(line: string) {
    StartsWith(line, CopyrightMark)
  }

  /**
   * `get_line`: the prefix-stripped line at `index`, and the cursor moved on
   * by exactly one; an index past the end raises IndexError.
   */
  function GetLine(lines: seq<string>, index: nat, prefix: Option<string>): (r: Result<(string, nat), Crash>)
    ensures r.Ok? <==> index < |lines|
    ensures r.Ok? ==> r.value.0 == DeletePrefix(prefix, lines[index]) && r.value.1 == index + 1
    ensures r.Err? ==> r.error == IndexError
  {
    if index < |lines| then Ok((DeletePrefix(prefix, lines[index]), index + 1)) else Err(IndexError)
  }

  /** The prefix-stripped text of line `i`. */
  function Stripped(lines: seq<string>, prefix: Option<string>, i: nat): string
    requires i < |lines|
  {
    DeletePrefix(prefix, lines[i])
  }

  // ---------------------------------------------------------------------
  // Triple-slash directives of JavaScript files
  // ---------------------------------------------------------------------

  /** `file.name.split('.')[-1] == 'js'`. */
  predicate IsJs(name: string) {
    LastPart(name, '.') == "js"
  }

  /** A file counts as JavaScript exactly when its name is `js` or ends in `.js`. */
  lemma IsJsIffSuffix(name: string)
    ensures IsJs(name) <==> name == "js" || (|name| >= 3 && name[|name| - 3..] == ".js")
  {
    LastPartIsSuffix(name, '.');
    var r := LastPart(name, '.');
    if |name| >= 3 && name[|name| - 3..] == ".js" {
      assert name[|name| - 3] == '.' && name[|name| - 2] == 'j' && name[|name| - 1] == 's';
      assert |r| == 2;
      assert r == name[|name| - 2..] == "js";
    }
  }

  /** `\w` of the directive pattern, read as ASCII. */
  predicate IsWordChar(c: char) {
    ('a' <= c <= 'z') || ('A' <= c <= 'Z') || ('0' <= c <= '9') || c == '_'
  }

  predicate AllWord(s: string) {
    forall i :: 0 <= i < |s| ==> IsWordChar(s[i])
  }

  /** Length of the longest run of word characters at the start of `s` (what `\w*` matches). */
  function WordRun(s: string): (n: nat)
    ensures n <= |s|
    decreases |s|
  {
    if s != [] && IsWordChar(s[0]) then 1 + WordRun(s[1..]) else 0
  }

  /** `\w*` is greedy: the run is all word characters and stops before a non-word character. */
  lemma {:induction false} WordRunMaximal(s: string)
    ensures AllWord(s[..WordRun(s)])
    ensures WordRun(s) == |s| || !IsWordChar(s[WordRun(s)])
    decreases |s|
  {
    if s != [] && IsWordChar(s[0]) {
      WordRunMaximal(s[1..]);
      assert s[..WordRun(s)] == [s[0]] + s[1..][..WordRun(s[1..])];
    }
  }

  /** A word followed by a non-word character: the run stops exactly at its end. */
  lemma {:induction false} WordRunOfWord(w: string, rest: string)
    requires AllWord(w)
    requires rest == [] || !IsWordChar(rest[0])
    ensures WordRun(w + rest) == |w|
    decreases |w|
  {
    if w != [] {
      assert (w + rest)[1..] == w[1..] + rest;
      WordRunOfWord(w[1..], rest);
    }
  }

  const ReferenceOpen: string := "/// <reference "
  const ReferenceClose: string := "\" />"

  /**
   * `re.search(r'^/// <reference \w*=\"\w*\" />$', line)`: `$` also
   * matches before one final newline. The lines handed to the test are
   * right-stripped, so there only the first alternative of the tail ever
   * matches; the second keeps the predicate true to the pattern itself.
   */
  predicate IsTripleSlash(line: string) {
    StartsWith(line, ReferenceOpen) &&
    var a := line[|ReferenceOpen|..];
    var b := a[WordRun(a)..];
    StartsWith(b, "=\"") &&
    var c := b[2..];
    var tail := c[WordRun(c)..];
    tail == ReferenceClose || tail == ReferenceClose + "\n"
  }

  /** The pattern's tail: the closing `" />`, optionally followed by one newline. */
  predicate IsReferenceTail(tail: string) {
    tail == ReferenceClose || tail == ReferenceClose + "\n"
  }

  /** Every line of the pattern's shape passes the directive test. */
  lemma TripleSlashOfShape(key: string, value: string, tail: string)
    requires AllWord(key) && AllWord(value) && IsReferenceTail(tail)
    ensures IsTripleSlash(ReferenceOpen + key + "=\"" + value + tail)
  {
    var line := ReferenceOpen + key + "=\"" + value + tail;
    var a := key + ("=\"" + (value + tail));
    assert line == ReferenceOpen + a;
    assert line[|ReferenceOpen|..] == a;
    WordRunOfWord(key, "=\"" + (value + tail));
    var b := a[WordRun(a)..];
    assert b == "=\"" + (value + tail);
    var c := b[2..];
    assert c == value + tail;
    WordRunOfWord(value, tail);
    assert c[WordRun(c)..] == tail;
  }

  /** The key, value and tail the directive test reads off an accepted line. */
  lemma ReferenceParts(line: string) returns (key: string, value: string, tail: string)
    requires IsTripleSlash(line)
    ensures AllWord(key) && AllWord(value) && IsReferenceTail(tail)
    ensures line == ReferenceOpen + (key + ("=\"" + (value + tail)))
  {
    var a := line[|ReferenceOpen|..];
    WordRunMaximal(a);
    var b := a[WordRun(a)..];
    var c := b[2..];
    WordRunMaximal(c);
    key, value, tail := a[..WordRun(a)], c[..WordRun(c)], c[WordRun(c)..];
    PrefixThenRest(line, |ReferenceOpen|);
    PrefixThenRest(a, WordRun(a));
    PrefixThenRest(b, 2);
    PrefixThenRest(c, WordRun(c));
  }

  /** A string is its first `k` characters followed by the rest. */
  lemma PrefixThenRest(s: string, k: nat)
    requires k <= |s|
    ensures s == s[..k] + s[k..]
  {
  }

  /** Five strings joined from the right read the same as joined from the left. */
  lemma RegroupFiveParts(a: string, b: string, c: string, d: string, e: string)
    ensures a + (b + (c + (d + e))) == a + b + c + d + e
  {
  }

  /** Every line that passes the directive test has the pattern's shape. */
  lemma TripleSlashHasShape(line: string)
    requires IsTripleSlash(line)
    ensures exists key, value, tail :: AllWord(key) && AllWord(value) && IsReferenceTail(tail) &&
              line == ReferenceOpen + key + "=\"" + value + tail
  {
    var key, value, tail := ReferenceParts(line);
    RegroupFiveParts(ReferenceOpen, key, "=\"", value, tail);
  }

  /**
   * `is_slash_directive` as the code evidently intends it: a JavaScript
   * file's line of the triple-slash reference shape.
   */
  predicate IsSlashDirective(name: string, line: string) {
    IsJs(name) && IsTripleSlash(line)
  }

  /**
   * `is_slash_directive` as written: the module never imports `re`, so for a
   * JavaScript file the call `re.search` raises NameError; for any other
   * file the `and` stops before it.
   */
  function IsSlashDirectiveAsWritten(name: string, line: string): (r: Result<bool, Crash>)
    ensures r.Err? <==> IsJs(name)
    ensures r.Ok? ==> !r.value
  {
    if IsJs(name) then Err(NameError) else Ok(false)
  }

  /**
   * A concrete file that shows it: `app.js` whose first line is the
   * directive `/// <reference types="node" />`.
   */
  lemma JsDirectiveExample()
    ensures var line := ReferenceOpen + "types" + "=\"" + "node" + ReferenceClose;
      IsSlashDirectiveAsWritten("app.js", line) == Err(NameError) && IsSlashDirective("app.js", line)
  {
    IsJsIffSuffix("app.js");
    assert AllWord("types") && AllWord("node");
    TripleSlashOfShape("types", "node", ReferenceClose);
  }

  /** The shebang loop's condition: a shebang line, or (intended) a directive. */
  predicate Skippable(name: string, line: string) {
    StartsWith(line, Shebang) || IsSlashDirective(name, line)
  }

  // ---------------------------------------------------------------------
  // The specification of `test_license`
  // ---------------------------------------------------------------------

  /** `[line.rstrip() for line in file]`. */
  function FileLines(raw: seq<string>): (lines: seq<string>)
    ensures |lines| == |raw|
    ensures forall i :: 0 <= i < |raw| ==> lines[i] == RStrip(raw[i])
  {
    seq(|raw|, i requires 0 <= i < |raw| => RStrip(raw[i]))
  }

  /** The first line at or after `from` that the shebang loop stops on. */
  function FirstUnskipped(name: string, lines: seq<string>, from: nat): (r: Option<nat>)
    requires from <= |lines|
    ensures r.Some? ==> from <= r.value < |lines| && !Skippable(name, lines[r.value]) &&
                        forall k :: from <= k < r.value ==> Skippable(name, lines[k])
    ensures r.None? ==> forall k :: from <= k < |lines| ==> Skippable(name, lines[k])
    decreases |lines| - from
  {
    if from == |lines| then None
    else if Skippable(name, lines[from]) then FirstUnskipped(name, lines, from + 1)
    else Some(from)
  }

  /** When every line from `from` on is skippable, the shebang loop finds no header. */
  lemma {:induction false} FirstUnskippedNone(name: string, lines: seq<string>, from: nat)
    requires from <= |lines|
    requires forall k :: from <= k < |lines| ==> Skippable(name, lines[k])
    ensures FirstUnskipped(name, lines, from) == None
    decreases |lines| - from
  {
    if from < |lines| {
      FirstUnskippedNone(name, lines, from + 1);
    }
  }

  /** The first line at or after `from` whose stripped text is not a copyright line. */
  function CopyrightRunEnd(lines: seq<string>, prefix: Option<string>, from: nat): (r: Option<nat>)
    requires from <= |lines|
    ensures r.Some? ==> from <= r.value < |lines| && !IsCopyright(Stripped(lines, prefix, r.value)) &&
                        forall k :: from <= k < r.value ==> IsCopyright(Stripped(lines, prefix, k))
    ensures r.None? ==> forall k :: from <= k < |lines| ==> IsCopyright(Stripped(lines, prefix, k))
    decreases |lines| - from
  {
    if from == |lines| then None
    else if IsCopyright(Stripped(lines, prefix, from)) then CopyrightRunEnd(lines, prefix, from + 1)
    else Some(from)
  }

  /** `top` is configured (present and non-empty) and does not list the header. */
  predicate TopRejects(top: Option<seq<string>>, header: string) {
    top.Some? && top.value != [] && header !in top.value
  }

  /**
   * One license line compared with the file, the cursor `c` having read
   * line `c - 1`. Returns the error line number it records, if any, and the
   * new cursor.
   */
  function Step(lines: seq<string>, prefix: Option<string>, licenseLine: string, c: nat)
    : (r: Result<(Option<nat>, nat), Crash>)
    requires 1 <= c <= |lines|
    ensures r.Ok? ==> c <= r.value.1 <= |lines|
    ensures r.Ok? && r.value.0.Some? ==> c - 1 <= r.value.0.value <= |lines|
  {
    if IsCopyright(licenseLine) then
      match CopyrightRunEnd(lines, prefix, c - 1)
      case None => Err(IndexError)
      case Some(j) => Ok((if licenseLine != CopyrightMark then Some(j) else None, j + 1))
    else
      Ok((if licenseLine != Stripped(lines, prefix, c - 1) then Some(c) else None,
          if c < |lines| then c + 1 else c))
  }

  function OptionToSeq(o: Option<nat>): seq<nat> {
    if o.Some? then [o.value] else []
  }

  /** Puts `errs` in front of the numbers of a successful comparison. */
  function Prepend(errs: seq<nat>, r: Result<seq<nat>, Crash>): Result<seq<nat>, Crash> {
    match r
    case Ok(rest) => Ok(errs + rest)
    case Err(e) => Err(e)
  }

  /** The license lines compared one after the other from cursor `c`. */
  function Compare(lines: seq<string>, prefix: Option<string>, license: seq<string>, c: nat)
    : Result<seq<nat>, Crash>
    requires 1 <= c <= |lines|
    decreases |license|
  {
    if license == [] then Ok([])
    else
      match Step(lines, prefix, license[0], c)
      case Err(e) => Err(e)
      case Ok((found, next)) => Prepend(OptionToSeq(found), Compare(lines, prefix, license[1..], next))
  }

  /**
   * `test_license` on the file `name` with raw lines `raw`: skip leading
   * shebang lines, check the header against `top` (an error numbered two
   * past the header's index), read the next line, then compare the license
   * lines from there.
   */
  function LicenseErrors(name: string, raw: seq<string>, settings: Settings, license: seq<string>)
    : Result<seq<nat>, Crash>
  {
    var lines := FileLines(raw);
    match FirstUnskipped(name, lines, 0)
    case None => Err(IndexError)
    case Some(h) => FromHeader(lines, settings, license, h)
  }

  /**
   * `test_license` from the header at index `h` on: the `top` check, the
   * line after the header read (IndexError when there is none), then the
   * license compared from there.
   */
  function FromHeader(lines: seq<string>, settings: Settings, license: seq<string>, h: nat): Result<seq<nat>, Crash>
    requires h < |lines|
  {
    if h + 1 == |lines| then Err(IndexError)
    else
      var headerErrs := if TopRejects(settings.top, Stripped(lines, settings.prefix, h)) then [h + 2] else [];
      Prepend(headerErrs, Compare(lines, settings.prefix, license, h + 2))
  }

  // ---------------------------------------------------------------------
  // `test_license` as written
  // ---------------------------------------------------------------------

  /**
   * The shebang loop as written: shebang lines are passed over (the `or`
   * stops before `is_slash_directive`); on any other line the directive
   * test runs, which raises NameError for a JavaScript file; reading past
   * the last line raises IndexError.
   */
  function FirstUnskippedAsWritten(name: string, lines: seq<string>, from: nat): (r: Result<nat, Crash>)
    requires from <= |lines|
    ensures r.Ok? ==> from <= r.value < |lines| && !StartsWith(lines[r.value], Shebang) && !IsJs(name)
    ensures r.Err? ==> r.error == IndexError || r.error == NameError
    decreases |lines| - from
  {
    if from == |lines| then Err(IndexError)
    else if StartsWith(lines[from], Shebang) then FirstUnskippedAsWritten(name, lines, from + 1)
    else
      // The directive test as written never holds, so the loop stops here unless it raises.
      match IsSlashDirectiveAsWritten(name, lines[from])
      case Err(e) => Err(e)
      case Ok(_) => Ok(from)
  }

  /** Some line at or after `from` is not a shebang line. */
  predicate HasNonShebang(lines: seq<string>, from: nat) {
    exists k :: from <= k < |lines| && !StartsWith(lines[k], Shebang)
  }

  /**
   * The shebang loop as written agrees with the intended one for a file
   * that is not JavaScript; for a JavaScript file it raises NameError as
   * soon as it reaches a line that is not a shebang, and IndexError when
   * there is none.
   */
  lemma {:induction false} FirstUnskippedAsWrittenMeaning(name: string, lines: seq<string>, from: nat)
    requires from <= |lines|
    ensures !IsJs(name) ==>
      FirstUnskippedAsWritten(name, lines, from) ==
        if FirstUnskipped(name, lines, from).Some? then Ok(FirstUnskipped(name, lines, from).value) else Err(IndexError)
    ensures IsJs(name) ==>
      FirstUnskippedAsWritten(name, lines, from) == if HasNonShebang(lines, from) then Err(NameError) else Err(IndexError)
    decreases |lines| - from
  {
    if from < |lines| {
      if StartsWith(lines[from], Shebang) {
        FirstUnskippedAsWrittenMeaning(name, lines, from + 1);
        if HasNonShebang(lines, from) {
          var k :| from <= k < |lines| && !StartsWith(lines[k], Shebang);
          assert from + 1 <= k;
        }
      } else {
        assert !StartsWith(lines[from], Shebang);
      }
    }
  }

  /**
   * `test_license` as written: the shebang loop as written, then the same
   * steps from the header on.
   */
  function LicenseErrorsAsWritten(name: string, raw: seq<string>, settings: Settings, license: seq<string>)
    : (r: Result<seq<nat>, Crash>)
    ensures IsJs(name) ==> r.Err?
  {
    var lines := FileLines(raw);
    match FirstUnskippedAsWritten(name, lines, 0)
    case Err(e) => Err(e)
    case Ok(h) => FromHeader(lines, settings, license, h)
  }

  /**
   * As written, `test_license` is the intended checker on every file that
   * is not JavaScript, and never checks a JavaScript file: it raises
   * NameError when the file has a line that is not a shebang, and
   * IndexError otherwise.
   */
  lemma LicenseErrorsAsWrittenMeaning(name: string, raw: seq<string>, settings: Settings, license: seq<string>)
    ensures !IsJs(name) ==> LicenseErrorsAsWritten(name, raw, settings, license) == LicenseErrors(name, raw, settings, license)
    ensures IsJs(name) ==>
      LicenseErrorsAsWritten(name, raw, settings, license) ==
        (if exists k :: 0 <= k < |raw| && !StartsWith(RStrip(raw[k]), Shebang) then Err(NameError) else Err(IndexError))
  {
    var lines := FileLines(raw);
    FirstUnskippedAsWrittenMeaning(name, lines, 0);
    assert HasNonShebang(lines, 0) <==> exists k :: 0 <= k < |raw| && !StartsWith(RStrip(raw[k]), Shebang);
  }

  /**
   * A concrete file that shows it: `app.js` holding the lines `x` and `y`
   * passes the intended check against the license `y`, and as written
   * raises NameError.
   */
  lemma JsFileAsWrittenRaises()
    ensures LicenseErrorsAsWritten("app.js", ["x", "y"], Settings(None, None), ["y"]) == Err(NameError)
    ensures LicenseErrors("app.js", ["x", "y"], Settings(None, None), ["y"]) == Ok([])
  {
    IsJsIffSuffix("app.js");
    var raw := ["x", "y"];
    var lines := FileLines(raw);
    assert RStrip("x") == "x" && RStrip("y") == "y";
    assert lines == raw;
    assert !StartsWith(lines[0], Shebang);
    LicenseErrorsAsWrittenMeaning("app.js", raw, Settings(None, None), ["y"]);
    assert !IsTripleSlash("x");
    assert FirstUnskipped("app.js", lines, 0) == Some(0);
    assert Stripped(lines, None, 1) == "y";
    assert Step(lines, None, "y", 2) == Ok((None, 2));
    var license := ["y"];
    assert license[0] == "y" && license[1..] == [];
    assert Compare(lines, None, license, 2) == Prepend([], Ok([]));
    assert FromHeader(lines, Settings(None, None), license, 0) == Prepend([], Compare(lines, None, license, 2));
    PrependNothing(Compare(lines, None, license, 2));
  }

  // ---------------------------------------------------------------------
  // test_license
  // ---------------------------------------------------------------------

  /** Unfolds `LicenseErrors` once the header `h` is known and is not the last line. */
  lemma LicenseErrorsAtHeader(name: string, raw: seq<string>, settings: Settings, license: seq<string>, h: nat)
    requires FirstUnskipped(name, FileLines(raw), 0) == Some(h) && h + 1 < |raw|
    ensures LicenseErrors(name, raw, settings, license) ==
      Prepend(if TopRejects(settings.top, Stripped(FileLines(raw), settings.prefix, h)) then [h + 2] else [],
              Compare(FileLines(raw), settings.prefix, license, h + 2))
  {
  }

  /** Unfolds `Compare` at position `i` of the license. */
  lemma CompareAt(lines: seq<string>, prefix: Option<string>, license: seq<string>, i: nat, c: nat)
    requires 1 <= c <= |lines| && i < |license|
    ensures Step(lines, prefix, license[i], c).Err? ==>
      Compare(lines, prefix, license[i..], c) == Err(Step(lines, prefix, license[i], c).error)
    ensures Step(lines, prefix, license[i], c).Ok? ==>
      var (found, next) := Step(lines, prefix, license[i], c).value;
      Compare(lines, prefix, license[i..], c) ==
        Prepend(OptionToSeq(found), Compare(lines, prefix, license[i + 1..], next))
  {
    assert license[i..][0] == license[i] && license[i..][1..] == license[i + 1..];
  }

  lemma PrependNothing(r: Result<seq<nat>, Crash>)
    ensures Prepend([], r) == r
  {
    if r.Ok? {
      assert [] + r.value == r.value;
    }
  }

  lemma PrependTwice(a: seq<nat>, b: seq<nat>, r: Result<seq<nat>, Crash>)
    ensures Prepend(a, Prepend(b, r)) == Prepend(a + b, r)
  {
    if r.Ok? {
      assert a + (b + r.value) == (a + b) + r.value;
    }
  }

  /**
   * The shebang loop of `test_license`: reads the first line, then moves on
   * while the line just read is a shebang or a directive. Gives the header
   * line (stripped) and the cursor just past it.
   */
  method SkipLeading(name: string, lines: seq<string>, prefix: Option<string>)
    returns (r: Result<(string, nat), Crash>)
    ensures r.Err? <==> FirstUnskipped(name, lines, 0).None?
    ensures r.Err? ==> r.error == IndexError
    ensures r.Ok? ==> 1 <= r.value.1 <= |lines| && FirstUnskipped(name, lines, 0) == Some(r.value.1 - 1) &&
                      r.value.0 == Stripped(lines, prefix, r.value.1 - 1)
  {
    var got := GetLine(lines, 0, prefix);
    if got.Err? {
      return Err(got.error);
    }
    var line, linenbr := got.value.0, got.value.1;
    while Skippable(name, lines[linenbr - 1])
      invariant 1 <= linenbr <= |lines|
      invariant line == Stripped(lines, prefix, linenbr - 1)
      invariant FirstUnskipped(name, lines, linenbr - 1) == FirstUnskipped(name, lines, 0)
      decreases |lines| - linenbr
    {
      got := GetLine(lines, linenbr, prefix);
      if got.Err? {
        return Err(got.error);
      }
      line, linenbr := got.value.0, got.value.1;
    }
    return Ok((line, linenbr));
  }

  /**
   * The inner loop of `test_license` for a copyright license line: reads on
   * while the current line is a copyright line, then steps back so that the
   * cursor names the first line after the run.
   */
  method SkipCopyright(lines: seq<string>, prefix: Option<string>, line: string, linenbr: nat)
    returns (r: Result<nat, Crash>)
    requires 1 <= linenbr <= |lines| && line == Stripped(lines, prefix, linenbr - 1)
    ensures r.Err? <==> CopyrightRunEnd(lines, prefix, linenbr - 1).None?
    ensures r.Err? ==> r.error == IndexError
    ensures r.Ok? ==> CopyrightRunEnd(lines, prefix, linenbr - 1) == Some(r.value)
  {
    var cur, nbr := line, linenbr;
    while IsCopyright(cur)
      invariant linenbr <= nbr <= |lines|
      invariant cur == Stripped(lines, prefix, nbr - 1)
      invariant CopyrightRunEnd(lines, prefix, nbr - 1) == CopyrightRunEnd(lines, prefix, linenbr - 1)
      decreases |lines| - nbr
    {
      var got := GetLine(lines, nbr, prefix);
      if got.Err? {
        return Err(got.error);
      }
      cur, nbr := got.value.0, got.value.1;
    }
    return Ok(nbr - 1);
  }

  /**
   * One pass of the license loop of `test_license` for `licenseLine`, with
   * `line` the stripped text of line `linenbr - 1`: the error it records and
   * the line and cursor it leaves, as `Step` says.
   */
  method CompareLine(lines: seq<string>, prefix: Option<string>, licenseLine: string, line: string, linenbr: nat)
    returns (r: Result<(Option<nat>, string, nat), Crash>)
    requires 1 <= linenbr <= |lines| && line == Stripped(lines, prefix, linenbr - 1)
    ensures r.Err? <==> Step(lines, prefix, licenseLine, linenbr).Err?
    ensures r.Err? ==> r.error == Step(lines, prefix, licenseLine, linenbr).error
    ensures r.Ok? ==> Step(lines, prefix, licenseLine, linenbr) == Ok((r.value.0, r.value.2)) &&
                      r.value.1 == Stripped(lines, prefix, r.value.2 - 1)
  {
    var cur, nbr := line, linenbr;
    if IsCopyright(licenseLine) {
      var run := SkipCopyright(lines, prefix, line, linenbr);
      if run.Err? {
        return Err(run.error);
      }
      nbr := run.value;
      cur := CopyrightMark;
    }
    var found: Option<nat> := if licenseLine != cur then Some(nbr) else None;
    // The cursor stays on the last line once the file is exhausted.
    if nbr >= |lines| {
      return Ok((found, cur, nbr));
    }
    var next := GetLine(lines, nbr, prefix).value;
    return Ok((found, next.0, next.1));
  }

  /**
   * The license loop of `test_license`, from the cursor `linenbr` with `line`
   * the stripped text of line `linenbr - 1`.
   */
  method CompareAll(lines: seq<string>, prefix: Option<string>, license: seq<string>, line: string, linenbr: nat)
    returns (r: Result<seq<nat>, Crash>)
    requires 1 <= linenbr <= |lines| && line == Stripped(lines, prefix, linenbr - 1)
    ensures r == Compare(lines, prefix, license, linenbr)
  {
    var errors: seq<nat> := [];
    var cur, nbr := line, linenbr;
    ghost var total := Compare(lines, prefix, license, linenbr);
    assert license[0..] == license;
    PrependNothing(total);
    for i := 0 to |license|
      invariant 1 <= nbr <= |lines|
      invariant cur == Stripped(lines, prefix, nbr - 1)
      invariant total == Prepend(errors, Compare(lines, prefix, license[i..], nbr))
    {
      var next := CompareNext(lines, prefix, license, i, cur, nbr, errors);
      if next.Err? {
        return Err(next.error);
      }
      errors, cur, nbr := next.value.0, next.value.1, next.value.2;
    }
    assert license[|license|..] == [];
    assert errors + [] == errors;
    return Ok(errors);
  }

  /** One pass of the license loop, carrying the errors recorded so far. */
  method CompareNext(lines: seq<string>, prefix: Option<string>, license: seq<string>, i: nat, line: string, linenbr: nat,
                     errors: seq<nat>)
    returns (r: Result<(seq<nat>, string, nat), Crash>)
    requires 1 <= linenbr <= |lines| && i < |license| && line == Stripped(lines, prefix, linenbr - 1)
    ensures r.Err? ==> Prepend(errors, Compare(lines, prefix, license[i..], linenbr)) == Err(r.error)
    ensures r.Ok? ==>
      1 <= r.value.2 <= |lines| && r.value.1 == Stripped(lines, prefix, r.value.2 - 1) &&
      Prepend(errors, Compare(lines, prefix, license[i..], linenbr)) ==
        Prepend(r.value.0, Compare(lines, prefix, license[i + 1..], r.value.2))
  {
    var step := CompareLine(lines, prefix, license[i], line, linenbr);
    CompareAdvance(lines, prefix, license, i, linenbr, errors);
    if step.Err? {
      return Err(step.error);
    }
    return Ok((errors + OptionToSeq(step.value.0), step.value.1, step.value.2));
  }

  /** One license line compared: its error joins those before it, or its exception ends the comparison. */
  lemma CompareAdvance(lines: seq<string>, prefix: Option<string>, license: seq<string>, i: nat, c: nat, errors: seq<nat>)
    requires 1 <= c <= |lines| && i < |license|
    ensures Step(lines, prefix, license[i], c).Err? ==>
      Prepend(errors, Compare(lines, prefix, license[i..], c)) == Err(Step(lines, prefix, license[i], c).error)
    ensures Step(lines, prefix, license[i], c).Ok? ==>
      var (found, next) := Step(lines, prefix, license[i], c).value;
      c <= next <= |lines| &&
      Prepend(errors, Compare(lines, prefix, license[i..], c)) ==
        Prepend(errors + OptionToSeq(found), Compare(lines, prefix, license[i + 1..], next))
  {
    CompareAt(lines, prefix, license, i, c);
    var step := Step(lines, prefix, license[i], c);
    if step.Ok? {
      PrependTwice(errors, OptionToSeq(step.value.0), Compare(lines, prefix, license[i + 1..], step.value.1));
    }
  }

  /** `test_license`: the list of line numbers where the file departs from the license. */
  method TestLicense(name: string, raw: seq<string>, settings: Settings, license: seq<string>)
    returns (r: Result<seq<nat>, Crash>)
    ensures r == LicenseErrors(name, raw, settings, license)
  {
    var errors: seq<nat> := [];
    var lines := FileLines(raw);
    var prefix := settings.prefix;
    var skipped := SkipLeading(name, lines, prefix);
    if skipped.Err? {
      assert LicenseErrors(name, raw, settings, license) == Err(IndexError);
      return Err(skipped.error);
    }
    var line, linenbr := skipped.value.0, skipped.value.1;
    ghost var h := linenbr - 1;
    if TopRejects(settings.top, line) {
      errors := errors + [linenbr + 1];
    }
    assert errors == if TopRejects(settings.top, Stripped(lines, prefix, h)) then [h + 2] else [];
    var got := GetLine(lines, linenbr, prefix);
    if got.Err? {
      assert h + 1 == |lines|;
      assert LicenseErrors(name, raw, settings, license) == Err(IndexError);
      return Err(got.error);
    }
    line, linenbr := got.value.0, got.value.1;
    LicenseErrorsAtHeader(name, raw, settings, license, h);
    var compared := CompareAll(lines, prefix, license, line, linenbr);
    if compared.Err? {
      assert LicenseErrors(name, raw, settings, license) == Err(compared.error);
      return Err(compared.error);
    }
    assert LicenseErrors(name, raw, settings, license) == Ok(errors + compared.value);
    return Ok(errors + compared.value);
  }

  // ---------------------------------------------------------------------
  // What the checker promises
  // ---------------------------------------------------------------------

  /** Every line of output is stripped: no whitespace at either end. */
  lemma DeletePrefixTrimmed(prefix: Option<string>, line: string)
    ensures var r := DeletePrefix(prefix, line);
      r == [] || (!IsSpace(r[0]) && !IsSpace(r[|r| - 1]))
    ensures prefix.None? || prefix.value == [] ==> DeletePrefix(prefix, line) == Strip(line)
  {
    if prefix.Some? && prefix.value != [] {
      StripIsSlice(RemoveAll(line, prefix.value));
    } else {
      StripIsSlice(line);
    }
  }

  /**
   * A copyright license line swallows the whole run of copyright lines from
   * the cursor: it fails with IndexError when the run reaches the end of the
   * file, and otherwise resumes just past the first non-copyright line `j`,
   * recording `j` exactly when the license line is not the bare mark.
   */
  lemma CopyrightRunCollapses(lines: seq<string>, prefix: Option<string>, licenseLine: string, c: nat)
    requires 1 <= c <= |lines| && IsCopyright(licenseLine)
    ensures Step(lines, prefix, licenseLine, c).Err? <==>
              forall k :: c - 1 <= k < |lines| ==> IsCopyright(Stripped(lines, prefix, k))
    ensures Step(lines, prefix, licenseLine, c).Ok? ==>
              var (found, next) := Step(lines, prefix, licenseLine, c).value;
              c <= next <= |lines| && !IsCopyright(Stripped(lines, prefix, next - 1)) &&
              (forall k :: c - 1 <= k < next - 1 ==> IsCopyright(Stripped(lines, prefix, k))) &&
              found == (if licenseLine == CopyrightMark then None else Some(next - 1))
  {
    var run := CopyrightRunEnd(lines, prefix, c - 1);
    if run.Some? {
      assert !IsCopyright(Stripped(lines, prefix, run.value));
    }
  }

  /**
   * A license line that starts with the mark but carries more text (a year,
   * a holder) is compared with the bare mark, so it is always reported.
   */
  lemma LongCopyrightLineAlwaysReported(lines: seq<string>, prefix: Option<string>, licenseLine: string, c: nat)
    requires 1 <= c <= |lines| && IsCopyright(licenseLine) && licenseLine != CopyrightMark
    requires Step(lines, prefix, licenseLine, c).Ok?
    ensures Step(lines, prefix, licenseLine, c).value.0.Some?
  {
  }

  /** Each license line records at most one error, all within `c - 1 ..= |lines|`. */
  lemma {:induction false} CompareBounds(lines: seq<string>, prefix: Option<string>, license: seq<string>, c: nat)
    requires 1 <= c <= |lines|
    ensures var r := Compare(lines, prefix, license, c);
      r.Ok? ==> |r.value| <= |license| && forall k :: 0 <= k < |r.value| ==> c - 1 <= r.value[k] <= |lines|
    decreases |license|
  {
    if license != [] {
      var step := Step(lines, prefix, license[0], c);
      if step.Ok? {
        CompareBounds(lines, prefix, license[1..], step.value.1);
      }
    }
  }

  /**
   * Once the cursor is on the last line it stays there: every later plain
   * license line is compared with that line and, when it differs, reported
   * under the same number `|lines|`.
   */
  lemma {:induction false} CompareAtEnd(lines: seq<string>, prefix: Option<string>, license: seq<string>)
    requires |lines| >= 1
    requires forall i :: 0 <= i < |license| ==> !IsCopyright(license[i])
    ensures Compare(lines, prefix, license, |lines|).Ok?
    ensures var errs := Compare(lines, prefix, license, |lines|).value;
      (forall k :: 0 <= k < |errs| ==> errs[k] == |lines|) &&
      (errs == [] <==> forall i :: 0 <= i < |license| ==> license[i] == Stripped(lines, prefix, |lines| - 1))
    decreases |license|
  {
    if license != [] {
      CompareAtEnd(lines, prefix, license[1..]);
      var rest := Compare(lines, prefix, license[1..], |lines|).value;
      if license[0] == Stripped(lines, prefix, |lines| - 1) {
        assert Step(lines, prefix, license[0], |lines|) == Ok((None, |lines|));
        assert [] + rest == rest;
        assert Compare(lines, prefix, license, |lines|) == Ok(rest);
        if rest == [] {
          forall i | 0 <= i < |license|
            ensures license[i] == Stripped(lines, prefix, |lines| - 1)
          {
            if i > 0 {
              assert license[i] == license[1..][i - 1];
            }
          }
        } else {
          var i :| 0 <= i < |license[1..]| && license[1..][i] != Stripped(lines, prefix, |lines| - 1);
          assert license[i + 1] != Stripped(lines, prefix, |lines| - 1);
        }
      } else {
        assert Step(lines, prefix, license[0], |lines|) == Ok((Some(|lines|), |lines|));
        assert Compare(lines, prefix, license, |lines|) == Ok([|lines|] + rest);
      }
    }
  }

  /** License lines that match the file line for line, none of them a copyright line, give no error. */
  lemma {:induction false} CompareExactMatch(lines: seq<string>, prefix: Option<string>, license: seq<string>, c: nat)
    requires 1 <= c <= |lines| && c - 1 + |license| <= |lines|
    requires forall i :: 0 <= i < |license| ==>
               !IsCopyright(license[i]) && license[i] == Stripped(lines, prefix, c - 1 + i)
    ensures Compare(lines, prefix, license, c) == Ok([])
    decreases |license|
  {
    if license != [] {
      var next := if c < |lines| then c + 1 else c;
      assert Step(lines, prefix, license[0], c) == Ok((None, next));
      if |license| == 1 {
        assert license[1..] == [];
      } else {
        forall i | 0 <= i < |license[1..]|
          ensures !IsCopyright(license[1..][i]) && license[1..][i] == Stripped(lines, prefix, c + i)
        {
          assert license[1..][i] == license[i + 1];
        }
        CompareExactMatch(lines, prefix, license[1..], c + 1);
      }
      PrependNothing(Compare(lines, prefix, license[1..], next));
    }
  }

  /**
   * At most one error per license line plus one for the header, and no
   * error is numbered before the header line `h + 1` or after the end of
   * the file.
   */
  lemma LicenseErrorsBounds(name: string, raw: seq<string>, settings: Settings, license: seq<string>)
    ensures var r := LicenseErrors(name, raw, settings, license);
      r.Ok? ==> (|r.value| <= |license| + 1 && FirstUnskipped(name, FileLines(raw), 0).Some? &&
                 forall k :: 0 <= k < |r.value| ==>
                   FirstUnskipped(name, FileLines(raw), 0).value + 1 <= r.value[k] <= |raw|)
  {
    var lines := FileLines(raw);
    var first := FirstUnskipped(name, lines, 0);
    if first.Some? && first.value + 1 < |lines| {
      CompareBounds(lines, settings.prefix, license, first.value + 2);
    }
  }

  /**
   * The inputs that make `test_license` raise IndexError before any license
   * line is compared: an empty file, a file of skippable lines only, and a
   * header on the last line.
   */
  lemma LicenseErrorsCrashes(name: string, raw: seq<string>, settings: Settings, license: seq<string>)
    ensures raw == [] ==> LicenseErrors(name, raw, settings, license) == Err(IndexError)
    ensures (forall k :: 0 <= k < |raw| ==> Skippable(name, RStrip(raw[k]))) ==>
              LicenseErrors(name, raw, settings, license) == Err(IndexError)
    ensures FirstUnskipped(name, FileLines(raw), 0) == Some(|raw| - 1) ==>
              LicenseErrors(name, raw, settings, license) == Err(IndexError)
  {
    var lines := FileLines(raw);
    if forall k :: 0 <= k < |raw| ==> Skippable(name, RStrip(raw[k])) {
      FirstUnskippedNone(name, lines, 0);
    }
  }

  /**
   * The `top` check only adds its one error in front: the line after the
   * header is consumed and the license compared from the same place
   * whether or not `top` is configured.
   */
  lemma TopOnlyAddsHeaderError(name: string, raw: seq<string>, prefix: Option<string>, top: Option<seq<string>>,
                               license: seq<string>, h: nat)
    requires FirstUnskipped(name, FileLines(raw), 0) == Some(h)
    ensures LicenseErrors(name, raw, Settings(prefix, top), license) ==
      Prepend(if TopRejects(top, Stripped(FileLines(raw), prefix, h)) then [h + 2] else [],
              LicenseErrors(name, raw, Settings(prefix, None), license))
  {
    if h + 1 < |raw| {
      PrependNothing(Compare(FileLines(raw), prefix, license, h + 2));
    }
  }

  /**
   * A file whose header is accepted and whose next lines are the (plain)
   * license lines passes with no error.
   */
  lemma MatchingFilePasses(name: string, raw: seq<string>, settings: Settings, license: seq<string>, h: nat)
    requires FirstUnskipped(name, FileLines(raw), 0) == Some(h) && h + 1 + |license| <= |raw| && h + 1 < |raw|
    requires !TopRejects(settings.top, Stripped(FileLines(raw), settings.prefix, h))
    requires forall i :: 0 <= i < |license| ==>
               !IsCopyright(license[i]) && license[i] == Stripped(FileLines(raw), settings.prefix, h + 1 + i)
    ensures LicenseErrors(name, raw, settings, license) == Ok([])
  {
    CompareExactMatch(FileLines(raw), settings.prefix, license, h + 2);
    LicenseErrorsAtHeader(name, raw, settings, license, h);
    PrependNothing(Ok([]));
  }
}
