/**
 * The bookkeeping of the "Decrypt files with PGP" job entry: the error and
 * success counters, the sticky "success condition broken" flag that makes
 * `execute` give up early, the final success predicate chosen by one of
 * three condition strings, and the composition of destination file names.
 *
 * The file work itself (`ProcessFileFolder` and what it calls) is not part
 * of this model: for every argument row it processes, the caller supplies an
 * `Outcome` that lists the counter updates it made, in order, and the
 * boolean it returned. The formatted date and time texts are parameters.
 */
module PgpDecryptFiles {
  import opened JavaLang

  const SuccessIfAtLeast: string := "success_when_at_least"
  const SuccessIfErrorsLess: string := "success_if_errors_less"
  const SuccessIfNoErrors: string := "success_if_no_errors"

  /**
   * `getSuccessStatus`: is the job entry successful with these counts? Each
   * condition string selects one test; any other string never succeeds.
   */
  function SuccessStatus(condition: string, errors: int, successes: int, limit: int): (ok: bool)
    ensures condition == SuccessIfNoErrors ==> (ok <==> errors == 0)
    ensures condition == SuccessIfAtLeast ==> (ok <==> successes >= limit)
    ensures condition == SuccessIfErrorsLess ==> (ok <==> errors <= limit)
    ensures condition !in {SuccessIfNoErrors, SuccessIfAtLeast, SuccessIfErrorsLess} ==> !ok
  {
    (errors == 0 && condition == SuccessIfNoErrors) ||
    (successes >= limit && condition == SuccessIfAtLeast) ||
    (errors <= limit && condition == SuccessIfErrorsLess)
  }

  /**
   * `checkIfSuccessConditionBroken`: can no further work make the entry
   * succeed? Only the two error-counting conditions can break; the
   * "at least n successes" condition and unknown strings never do.
   */
  function ConditionBroken(condition: string, errors: int, limit: int): (broken: bool)
    ensures condition == SuccessIfNoErrors ==> (broken <==> errors > 0)
    ensures condition == SuccessIfErrorsLess ==> (broken <==> errors >= limit)
    ensures condition != SuccessIfNoErrors && condition != SuccessIfErrorsLess ==> !broken
  {
    (errors > 0 && condition == SuccessIfNoErrors) ||
    (errors >= limit && condition == SuccessIfErrorsLess)
  }

  /**
   * Under "success if no errors" the condition is broken exactly when the
   * entry can no longer succeed.
   */
  lemma NoErrorsBrokenIffFailing(errors: nat, successes: int, limit: int)
    ensures ConditionBroken(SuccessIfNoErrors, errors, limit) <==> !SuccessStatus(SuccessIfNoErrors, errors, successes, limit)
  {
    assert SuccessIfNoErrors != SuccessIfAtLeast && SuccessIfNoErrors != SuccessIfErrorsLess by {
      assert SuccessIfNoErrors[8] != SuccessIfAtLeast[8];
      assert SuccessIfNoErrors[11] != SuccessIfErrorsLess[11];
    }
  }

  /**
   * Under "success if errors less" the two tests overlap at one count: with
   * exactly `limit` errors the condition counts as broken (`>=`) and yet the
   * final status is successful (`<=`). Below the limit neither holds against
   * the entry, above it both do.
   */
  lemma ErrorsLessBoundary(errors: int, successes: int, limit: int)
    ensures errors < limit ==> !ConditionBroken(SuccessIfErrorsLess, errors, limit) && SuccessStatus(SuccessIfErrorsLess, errors, successes, limit)
    ensures errors == limit ==> ConditionBroken(SuccessIfErrorsLess, errors, limit) && SuccessStatus(SuccessIfErrorsLess, errors, successes, limit)
    ensures errors > limit ==> ConditionBroken(SuccessIfErrorsLess, errors, limit) && !SuccessStatus(SuccessIfErrorsLess, errors, successes, limit)
  {
    assert SuccessIfErrorsLess != SuccessIfNoErrors && SuccessIfErrorsLess != SuccessIfAtLeast by {
      assert SuccessIfErrorsLess[11] != SuccessIfNoErrors[11];
      assert SuccessIfErrorsLess[8] != SuccessIfAtLeast[8];
    }
  }

  /** Under "success when at least" the condition is never broken, whatever the counts. */
  lemma AtLeastNeverBroken(errors: int, limit: int)
    ensures !ConditionBroken(SuccessIfAtLeast, errors, limit)
  {
    assert SuccessIfAtLeast[8] != SuccessIfNoErrors[8];
    assert SuccessIfAtLeast[8] != SuccessIfErrorsLess[8];
  }

  // ---------------------------------------------------------------------
  // The counters as values: the specification of the `execute` skeleton.
  // ---------------------------------------------------------------------

  /** One call of `updateSuccess` or `updateErrors` made while processing a row. */
  datatype Event = Succeeded | Failed

  /** What `ProcessFileFolder` did for one argument row: its counter updates and its return value. */
  datatype Outcome = Outcome(events: seq<Event>, status: bool)

  /** An argument row: source file or folder and destination, either possibly null. */
  datatype ArgRow = ArgRow(source: Option<string>, destination: Option<string>)

  /** `NrErrors`, `NrSuccess` and `successConditionBroken`. */
  datatype Counters = Counters(errors: int, successes: int, broken: bool)

  /** How an argument loop of `execute` ended: on a broken condition, or by running out of rows. */
  datatype LoopEnd = Broke(c: Counters) | Completed(c: Counters)

  /** The part of the job `Result` that `execute` sets. */
  datatype JobResult = JobResult(nrErrors: int, result: bool, linesWritten: int)

  /** The effect of one `updateSuccess` / `updateErrors` call. */
  function Apply(condition: string, limit: int, c: Counters, e: Event): (r: Counters)
    ensures e == Succeeded ==> r == c.(successes := c.successes + 1)
    ensures e == Failed ==> r.errors == c.errors + 1 && r.successes == c.successes
    ensures e == Failed ==> (r.broken <==> c.broken || ConditionBroken(condition, c.errors + 1, limit))
  {
    match e
    case Succeeded => c.(successes := c.successes + 1)
    case Failed => Counters(c.errors + 1, c.successes, c.broken || ConditionBroken(condition, c.errors + 1, limit))
  }

  /** The effect of a sequence of counter updates, in order. */
  function ApplyAll(condition: string, limit: int, c: Counters, events: seq<Event>): (r: Counters)
    decreases |events|
  {
    if events == [] then c
    else Apply(condition, limit, ApplyAll(condition, limit, c, events[..|events| - 1]), events[|events| - 1])
  }

  function CountOf(events: seq<Event>, e: Event): (n: nat)
    ensures n <= |events|
  {
    if events == [] then 0
    else CountOf(events[..|events| - 1], e) + (if events[|events| - 1] == e then 1 else 0)
  }

  /**
   * The counters only move up: each failure adds one error, each success
   * one success, and a broken condition stays broken.
   */
  lemma {:induction false} ApplyAllCounts(condition: string, limit: int, c: Counters, events: seq<Event>)
    ensures ApplyAll(condition, limit, c, events).errors == c.errors + CountOf(events, Failed)
    ensures ApplyAll(condition, limit, c, events).successes == c.successes + CountOf(events, Succeeded)
    ensures c.broken ==> ApplyAll(condition, limit, c, events).broken
    decreases |events|
  {
    if events != [] {
      ApplyAllCounts(condition, limit, c, events[..|events| - 1]);
    }
  }

  /**
   * One iteration of an argument loop that found the condition intact: a row
   * with an empty source or destination is skipped; any other row is
   * processed, and counts one more error when processing returned false.
   */
  function RowStep(condition: string, limit: int, c: Counters, row: ArgRow, o: Outcome): (r: Counters)
    ensures !IsEmpty(row.source) && !IsEmpty(row.destination) ==>
              r.errors == c.errors + CountOf(o.events, Failed) + (if o.status then 0 else 1) &&
              r.successes == c.successes + CountOf(o.events, Succeeded)
    ensures c.broken ==> r.broken
  {
    if IsEmpty(row.source) || IsEmpty(row.destination) then c
    else
      ApplyAllCounts(condition, limit, c, o.events);
      var after := ApplyAll(condition, limit, c, o.events);
      if o.status then after else Apply(condition, limit, after, Failed)
  }

  /** Skipped rows change neither counter nor the flag. */
  lemma SkippedRow(condition: string, limit: int, c: Counters, row: ArgRow, o: Outcome)
    requires IsEmpty(row.source) || IsEmpty(row.destination)
    ensures RowStep(condition, limit, c, row, o) == c
  {
  }

  /**
   * An argument loop from iteration `i` on: it stops after `bound` rows (the
   * end of the rows, or the iteration at which the parent job is stopped),
   * and before processing a row it gives up if the condition is broken.
   */
  function RunFrom(condition: string, limit: int, c: Counters, rows: seq<ArgRow>, outcomes: seq<Outcome>,
                   bound: nat, i: nat): (r: LoopEnd)
    requires i <= bound <= |rows| <= |outcomes|
    ensures r.Broke? ==> r.c.broken
    decreases bound - i
  {
    if i == bound then Completed(c)
    else if c.broken then Broke(c)
    else RunFrom(condition, limit, RowStep(condition, limit, c, rows[i], outcomes[i]), rows, outcomes, bound, i + 1)
  }

  /** The pairs (source, destination) of the two configured arrays. */
  function Zip(sources: seq<Option<string>>, destinations: seq<Option<string>>): (rows: seq<ArgRow>)
    requires |sources| <= |destinations|
    ensures |rows| == |sources|
    ensures forall i :: 0 <= i < |rows| ==> rows[i] == ArgRow(sources[i], destinations[i])
  {
    seq(|sources|, i requires 0 <= i < |sources| => ArgRow(sources[i], destinations[i]))
  }

  function Min(a: nat, b: nat): nat {
    if a <= b then a else b
  }

  /** The inputs `execute` reads besides the entry's settings. */
  datatype Environment = Environment(
    previous: JobResult,          // the incoming result, updated in place
    rows: Option<seq<ArgRow>>,    // the result rows of the previous entry
    outcomes: seq<Outcome>,       // what processing the i-th argument did
    moveFolderUsable: bool,       // the move-to folder exists or was created, and is a folder
    stopAt: nat)                  // the parent job reports "stopped" from this iteration on

  /** The entry's settings that `execute` reads. */
  datatype EntrySettings = EntrySettings(
    condition: string, nrErrorsLessThan: Option<string>, ifFileExists: string,
    destinationFolder: Option<string>, argFromPrevious: bool,
    sources: Option<seq<Option<string>>>, destinations: Option<seq<Option<string>>>)

  /**
   * When `execute` walks the configured arrays, the loop runs over the
   * source array and indexes the destination array at the same positions:
   * a shorter destination array throws ArrayIndexOutOfBoundsException.
   */
  predicate ArraysFit(s: EntrySettings, env: Environment) {
    !(s.argFromPrevious && env.rows.Some?) && s.sources.Some? && s.destinations.Some? ==>
      |s.sources.value| <= |s.destinations.value|
  }

  /**
   * The argument rows and loop bound `execute` uses: the previous result's
   * rows when arguments come from there and it has rows; otherwise one row
   * per source entry, stopped early when the parent job stops; None when
   * either array is null and there is no loop to run.
   */
  function Arguments(s: EntrySettings, env: Environment): (r: Option<(seq<ArgRow>, nat)>)
    requires ArraysFit(s, env)
    ensures r.Some? ==> r.value.1 <= |r.value.0|
    ensures r.None? <==> !(s.argFromPrevious && env.rows.Some?) && (s.sources.None? || s.destinations.None?)
    ensures s.argFromPrevious && env.rows.Some? ==> r == Some((env.rows.value, |env.rows.value|))
    ensures !(s.argFromPrevious && env.rows.Some?) && r.Some? ==>
              |r.value.0| == |s.sources.value| && r.value.1 == Min(|s.sources.value|, env.stopAt)
  {
    if s.argFromPrevious && env.rows.Some? then Some((env.rows.value, |env.rows.value|))
    else if s.sources.Some? && s.destinations.Some? then
      Some((Zip(s.sources.value, s.destinations.value), Min(|s.sources.value|, env.stopAt)))
    else None
  }

  /**
   * The result of `execute`: errors 1 and false when the move-to folder is
   * required but unusable; errors = the error count and false when the
   * condition broke; otherwise errors and lines written from the counters,
   * and true exactly when the success predicate holds.
   */
  function ExecuteResult(s: EntrySettings, env: Environment): (r: JobResult)
    requires ArraysFit(s, env) && (Arguments(s, env).Some? ==> |Arguments(s, env).value.0| <= |env.outcomes|)
    ensures s.ifFileExists == "move_file" && (IsEmpty(s.destinationFolder) || !env.moveFolderUsable) ==>
              r == env.previous.(nrErrors := 1, result := false)
    ensures r.result ==> SuccessStatus(s.condition, r.nrErrors, r.linesWritten, ToInt(s.nrErrorsLessThan, 10))
    ensures Arguments(s, env).None? && !(s.ifFileExists == "move_file" && (IsEmpty(s.destinationFolder) || !env.moveFolderUsable)) ==>
              r.nrErrors == 0 && r.linesWritten == 0 && (r.result <==> SuccessStatus(s.condition, 0, 0, ToInt(s.nrErrorsLessThan, 10)))
  {
    var failed := env.previous.(nrErrors := 1, result := false);
    var limit := ToInt(s.nrErrorsLessThan, 10);
    if s.ifFileExists == "move_file" && (IsEmpty(s.destinationFolder) || !env.moveFolderUsable) then failed
    else
      var end := match Arguments(s, env)
        case None => Completed(Counters(0, 0, false))
        case Some(a) => RunFrom(s.condition, limit, Counters(0, 0, false), a.0, env.outcomes, a.1, 0);
      match end
      case Broke(c) => failed.(nrErrors := c.errors)
      case Completed(c) =>
        failed.(nrErrors := c.errors, linesWritten := c.successes, result := SuccessStatus(s.condition, c.errors, c.successes, limit))
  }

  /** Under "success if no errors" the loops keep `broken` equal to "some error was counted". */
  lemma {:induction false} NoErrorsLoop(limit: int, c: Counters, rows: seq<ArgRow>, outcomes: seq<Outcome>, bound: nat, i: nat)
    requires i <= bound <= |rows| <= |outcomes|
    requires c.errors >= 0 && (c.broken <==> c.errors > 0)
    ensures var r := RunFrom(SuccessIfNoErrors, limit, c, rows, outcomes, bound, i);
            r.c.errors >= 0 && (r.c.broken <==> r.c.errors > 0)
    decreases bound - i
  {
    if i < bound && !c.broken {
      var o := outcomes[i];
      var after := ApplyAll(SuccessIfNoErrors, limit, c, o.events);
      ApplyAllCounts(SuccessIfNoErrors, limit, c, o.events);
      NoErrorsEvents(limit, c, o.events);
      NoErrorsLoop(limit, RowStep(SuccessIfNoErrors, limit, c, rows[i], o), rows, outcomes, bound, i + 1);
    }
  }

  lemma {:induction false} NoErrorsEvents(limit: int, c: Counters, events: seq<Event>)
    requires c.errors >= 0 && (c.broken <==> c.errors > 0)
    ensures var r := ApplyAll(SuccessIfNoErrors, limit, c, events);
            r.errors >= 0 && (r.broken <==> r.errors > 0)
    decreases |events|
  {
    if events != [] {
      NoErrorsEvents(limit, c, events[..|events| - 1]);
    }
  }

  /**
   * Under "success if no errors", `execute` reports success exactly when it
   * reports no errors, on every path.
   */
  lemma NoErrorsExecute(s: EntrySettings, env: Environment)
    requires ArraysFit(s, env) && (Arguments(s, env).Some? ==> |Arguments(s, env).value.0| <= |env.outcomes|)
    requires s.condition == SuccessIfNoErrors
    ensures ExecuteResult(s, env).result <==> ExecuteResult(s, env).nrErrors == 0
  {
    var limit := ToInt(s.nrErrorsLessThan, 10);
    NoErrorsBrokenIffFailing(0, 0, limit);
    if Arguments(s, env).Some? {
      var a := Arguments(s, env).value;
      NoErrorsLoop(limit, Counters(0, 0, false), a.0, env.outcomes, a.1, 0);
      var end := RunFrom(s.condition, limit, Counters(0, 0, false), a.0, env.outcomes, a.1, 0);
      NoErrorsBrokenIffFailing(end.c.errors, end.c.successes, limit);
    }
  }

  /** A loop that gives up on a broken condition makes `execute` fail, whatever the condition string. */
  lemma BrokenFails(s: EntrySettings, env: Environment)
    requires ArraysFit(s, env) && (Arguments(s, env).Some? ==> |Arguments(s, env).value.0| <= |env.outcomes|)
    requires !(s.ifFileExists == "move_file" && (IsEmpty(s.destinationFolder) || !env.moveFolderUsable))
    requires Arguments(s, env).Some?
    requires RunFrom(s.condition, ToInt(s.nrErrorsLessThan, 10), Counters(0, 0, false),
                     Arguments(s, env).value.0, env.outcomes, Arguments(s, env).value.1, 0).Broke?
    ensures !ExecuteResult(s, env).result
    ensures ExecuteResult(s, env).linesWritten == env.previous.linesWritten
  {
  }

  // ---------------------------------------------------------------------
  // Destination file names.
  // ---------------------------------------------------------------------

  /** `String.lastIndexOf(char)`: the last position of `c`, or -1. */
  function LastIndexOf(s: string, c: char): (r: int)
    ensures -1 <= r < |s|
    ensures r == -1 <==> c !in s
    ensures r >= 0 ==> s[r] == c && c !in s[r + 1..]
  {
    if s == [] then -1
    else if s[|s| - 1] == c then |s| - 1
    else
      var r := LastIndexOf(s[..|s| - 1], c);
      assert s[..|s| - 1] + [s[|s| - 1]] == s;
      if r >= 0 then assert s[r + 1..] == s[..|s| - 1][r + 1..] + [s[|s| - 1]]; r else r
  }

  /** Where the extension starts: the last '.', or the end of the name when there is none. */
  function ExtensionStart(name: string): (k: nat)
    ensures k <= |name|
    ensures '.' !in name[k..] || name[k] == '.'
  {
    var dot := LastIndexOf(name, '.');
    if dot == -1 then |name| else dot
  }

  /** The formatted text of "now" under the three patterns the entry uses. */
  datatype Stamp = Stamp(custom: string, date: string, time: string)

  /**
   * One set of naming settings: a custom date/time format (used when
   * `specifyFormat` is set and the format is not empty), else "_" + date
   * and/or "_" + time; placed before the extension or at the end.
   */
  datatype DateNaming = DateNaming(specifyFormat: bool, format: Option<string>, addDate: bool, addTime: bool,
                                   beforeExtension: bool)

  /** The date/time suffix the settings ask for. */
  function Suffix(n: DateNaming, now: Stamp): string {
    if n.specifyFormat && !IsEmpty(n.format) then now.custom
    else (if n.addDate then "_" + now.date else "") + (if n.addTime then "_" + now.time else "")
  }

  /** The name with a suffix inserted: before the extension, or at the very end. */
  function Stamped(name: string, beforeExtension: bool, suffix: string): (r: string)
    ensures beforeExtension ==> r == name[..ExtensionStart(name)] + suffix + name[ExtensionStart(name)..]
    ensures !beforeExtension ==> r == name + suffix
  {
    var k := ExtensionStart(name);
    if beforeExtension then name[..k] + suffix + name[k..] else name + suffix
  }

  /**
   * `getDestinationFilename`, given the formatted texts of the current time:
   * the name, with the date/time suffix placed before the extension (the text
   * from the last '.' on) or appended.
   */
  function DestinationFilename(name: string, n: DateNaming, now: Stamp): (r: string)
    ensures !(n.specifyFormat && !IsEmpty(n.format)) && !n.addDate && !n.addTime ==> r == name
  {
    assert name[..ExtensionStart(name)] + name[ExtensionStart(name)..] == name;
    Stamped(name, n.beforeExtension, Suffix(n, now))
  }

  /**
   * `getMoveDestinationFilename`: as above with the "moved" settings, except
   * that an explicit date format given by the caller takes precedence.
   */
  function MoveDestinationFilename(name: string, dateFormat: Option<string>, n: DateNaming, now: Stamp): (r: string)
    ensures dateFormat.Some? ==> r == Stamped(name, n.beforeExtension, now.custom)
    ensures dateFormat.None? ==> r == DestinationFilename(name, n, now)
  {
    Stamped(name, n.beforeExtension, if dateFormat.Some? then now.custom else Suffix(n, now))
  }

  /**
   * Inserting before the extension keeps the extension: the result starts
   * with the name up to its last '.', ends with the text from that '.' on,
   * and a name without a '.' keeps all of itself in front and gets an empty
   * extension.
   */
  lemma ExtensionKept(name: string, suffix: string)
    ensures var k := ExtensionStart(name);
            var r := Stamped(name, true, suffix);
            r[..k] == name[..k] && r[|r| - (|name| - k)..] == name[k..] && |r| == |name| + |suffix|
    ensures '.' !in name ==> Stamped(name, true, suffix) == name + suffix
    ensures '.' in name ==> name[ExtensionStart(name)] == '.' && '.' !in name[ExtensionStart(name) + 1..]
  {
    var k := ExtensionStart(name);
    var r := Stamped(name, true, suffix);
    assert r == name[..k] + (suffix + name[k..]);
    assert r[|r| - (|name| - k)..] == name[k..];
    if '.' !in name {
      assert name[..k] == name;
    }
  }

  // ---------------------------------------------------------------------
  // The job entry object.
  // ---------------------------------------------------------------------

  class DecryptFilesEntry {
    var successCondition: string
    var nrErrorsLessThan: Option<string>
    var ifFileExists: string
    var destinationFolder: Option<string>
    var argFromPrevious: bool
    var sourceFileFolder: array?<Option<string>>
    var passphrase: array?<Option<string>>
    var destinationFileFolder: array?<Option<string>>
    var wildcard: array?<Option<string>>
    var naming: DateNaming       // add_date, add_time, SpecifyFormat, date_time_format, AddDateBeforeExtension
    var moveNaming: DateNaming   // the same five settings for moved files
    var nrErrors: int
    var nrSuccess: int
    var successConditionBroken: bool
    var limitFiles: int

    /** The settings `execute` reads, as a value. */
    function Settings(): EntrySettings
      reads this, sourceFileFolder, destinationFileFolder
    {
      EntrySettings(successCondition, nrErrorsLessThan, ifFileExists, destinationFolder, argFromPrevious,
        if sourceFileFolder == null then None else Some(sourceFileFolder[..]),
        if destinationFileFolder == null then None else Some(destinationFileFolder[..]))
    }

    function Counts(): Counters
      reads this
    {
      Counters(nrErrors, nrSuccess, successConditionBroken)
    }

    /** The defaults of a new entry. */
    constructor ()
      ensures successCondition == SuccessIfNoErrors && nrErrorsLessThan == Some("10")
      ensures ifFileExists == "do_nothing" && destinationFolder.None? && !argFromPrevious
      ensures sourceFileFolder == null && passphrase == null && destinationFileFolder == null && wildcard == null
      ensures naming == moveNaming == DateNaming(false, None, false, false, false)
      ensures nrErrors == 0 && nrSuccess == 0 && !successConditionBroken && limitFiles == 0
    {
      successCondition := SuccessIfNoErrors;
      nrErrorsLessThan := Some("10");
      ifFileExists := "do_nothing";
      destinationFolder := None;
      argFromPrevious := false;
      sourceFileFolder := null;
      passphrase := null;
      destinationFileFolder := null;
      wildcard := null;
      naming := DateNaming(false, None, false, false, false);
      moveNaming := DateNaming(false, None, false, false, false);
      nrErrors := 0;
      nrSuccess := 0;
      successConditionBroken := false;
      limitFiles := 0;
    }

    /** `allocate`: four fresh arrays of `nrFields` nulls. */
    method Allocate(nrFields: nat)
      modifies this`sourceFileFolder, this`passphrase, this`destinationFileFolder, this`wildcard
      ensures sourceFileFolder != null && passphrase != null && destinationFileFolder != null && wildcard != null
      ensures fresh(sourceFileFolder) && fresh(passphrase) && fresh(destinationFileFolder) && fresh(wildcard)
      ensures sourceFileFolder[..] == passphrase[..] == destinationFileFolder[..] == wildcard[..] == seq(nrFields, _ => None)
    {
      sourceFileFolder := new Option<string>[nrFields](_ => None);
      passphrase := new Option<string>[nrFields](_ => None);
      destinationFileFolder := new Option<string>[nrFields](_ => None);
      wildcard := new Option<string>[nrFields](_ => None);
    }

    /** A fresh array holding the first `n` entries of `src`: `allocate` followed by `System.arraycopy`. */
    static method CopyOf(src: array<Option<string>>, n: nat) returns (dst: array<Option<string>>)
      requires n <= src.Length
      ensures fresh(dst) && dst[..] == src[..n]
    {
      dst := new Option<string>[n](_ => None);
      var i := 0;
      while i < n
        invariant i <= n && dst[..i] == src[..i]
      {
        dst[i] := src[i];
        i := i + 1;
      }
    }

    /** The field-by-field copy `super.clone()` makes, with the four argument arrays given. */
    constructor Copy(e: DecryptFilesEntry, sources: array?<Option<string>>, passphrases: array?<Option<string>>,
                     destinations: array?<Option<string>>, wildcards: array?<Option<string>>)
      ensures successCondition == e.successCondition && nrErrorsLessThan == e.nrErrorsLessThan
      ensures ifFileExists == e.ifFileExists && destinationFolder == e.destinationFolder
      ensures argFromPrevious == e.argFromPrevious && naming == e.naming && moveNaming == e.moveNaming
      ensures nrErrors == e.nrErrors && nrSuccess == e.nrSuccess
      ensures successConditionBroken == e.successConditionBroken && limitFiles == e.limitFiles
      ensures sourceFileFolder == sources && passphrase == passphrases
      ensures destinationFileFolder == destinations && wildcard == wildcards
    {
      successCondition, nrErrorsLessThan := e.successCondition, e.nrErrorsLessThan;
      ifFileExists, destinationFolder, argFromPrevious := e.ifFileExists, e.destinationFolder, e.argFromPrevious;
      naming, moveNaming := e.naming, e.moveNaming;
      nrErrors, nrSuccess, successConditionBroken, limitFiles := e.nrErrors, e.nrSuccess, e.successConditionBroken, e.limitFiles;
      sourceFileFolder, passphrase, destinationFileFolder, wildcard := sources, passphrases, destinations, wildcards;
    }

    /**
     * `clone`: a field-by-field copy; when there is a source array, each of
     * the four argument arrays is reallocated with its length and copied, so
     * the copy shares none of them. Without one, the copy shares the arrays.
     */
    method Clone() returns (je: DecryptFilesEntry)
      requires sourceFileFolder != null ==>
        passphrase != null && destinationFileFolder != null && wildcard != null &&
        sourceFileFolder.Length <= passphrase.Length && sourceFileFolder.Length <= destinationFileFolder.Length &&
        sourceFileFolder.Length <= wildcard.Length
      ensures fresh(je)
      ensures je.successCondition == successCondition && je.nrErrorsLessThan == nrErrorsLessThan
      ensures je.ifFileExists == ifFileExists && je.destinationFolder == destinationFolder
      ensures je.argFromPrevious == argFromPrevious && je.naming == naming && je.moveNaming == moveNaming
      ensures je.nrErrors == nrErrors && je.nrSuccess == nrSuccess
      ensures je.successConditionBroken == successConditionBroken && je.limitFiles == limitFiles
      ensures sourceFileFolder == null ==>
        je.sourceFileFolder == null && je.passphrase == passphrase &&
        je.destinationFileFolder == destinationFileFolder && je.wildcard == wildcard
      ensures sourceFileFolder != null ==>
        je.sourceFileFolder != null && je.passphrase != null && je.destinationFileFolder != null && je.wildcard != null &&
        fresh(je.sourceFileFolder) && fresh(je.passphrase) && fresh(je.destinationFileFolder) && fresh(je.wildcard) &&
        je.sourceFileFolder[..] == sourceFileFolder[..] &&
        je.passphrase[..] == passphrase[..sourceFileFolder.Length] &&
        je.destinationFileFolder[..] == destinationFileFolder[..sourceFileFolder.Length] &&
        je.wildcard[..] == wildcard[..sourceFileFolder.Length]
    {
      if sourceFileFolder == null {
        je := new DecryptFilesEntry.Copy(this, null, passphrase, destinationFileFolder, wildcard);
      } else {
        var n := sourceFileFolder.Length;
        var sources := CopyOf(sourceFileFolder, n);
        var destinations := CopyOf(destinationFileFolder, n);
        var wildcards := CopyOf(wildcard, n);
        var passphrases := CopyOf(passphrase, n);
        je := new DecryptFilesEntry.Copy(this, sources, passphrases, destinations, wildcards);
      }
    }

    /** `updateErrors`: one more error; the flag is set when the condition is now broken, and never cleared here. */
    method UpdateErrors()
      modifies this`nrErrors, this`successConditionBroken
      ensures Counts() == Apply(successCondition, limitFiles, old(Counts()), Failed)
    {
      nrErrors := nrErrors + 1;
      if ConditionBroken(successCondition, nrErrors, limitFiles) {
        successConditionBroken := true;
      }
    }

    /** `updateSuccess`: one more success. */
    method UpdateSuccess()
      modifies this`nrSuccess
      ensures Counts() == Apply(successCondition, limitFiles, old(Counts()), Succeeded)
    {
      nrSuccess := nrSuccess + 1;
    }

    /** The counter updates one call of `ProcessFileFolder` made, in order. */
    method ApplyEvents(events: seq<Event>)
      modifies this`nrErrors, this`nrSuccess, this`successConditionBroken
      ensures Counts() == ApplyAll(successCondition, limitFiles, old(Counts()), events)
    {
      var j := 0;
      while j < |events|
        invariant j <= |events|
        invariant Counts() == ApplyAll(successCondition, limitFiles, old(Counts()), events[..j])
      {
        assert events[..j + 1][..j] == events[..j];
        if events[j] == Succeeded {
          UpdateSuccess();
        } else {
          UpdateErrors();
        }
        j := j + 1;
      }
      assert events[..j] == events;
    }

    /**
     * The argument loop of `execute` (over the previous result's rows, or
     * over the configured arrays): give up on a broken condition, skip rows
     * without source or destination, count an error when processing fails.
     */
    method RunArguments(rows: seq<ArgRow>, outcomes: seq<Outcome>, bound: nat) returns (broke: bool)
      requires bound <= |rows| <= |outcomes|
      modifies this`nrErrors, this`nrSuccess, this`successConditionBroken
      ensures (if broke then Broke(Counts()) else Completed(Counts())) ==
              RunFrom(successCondition, limitFiles, old(Counts()), rows, outcomes, bound, 0)
    {
      var i := 0;
      while i < bound
        invariant i <= bound
        invariant RunFrom(successCondition, limitFiles, Counts(), rows, outcomes, bound, i) ==
                  RunFrom(successCondition, limitFiles, old(Counts()), rows, outcomes, bound, 0)
      {
        if successConditionBroken {
          return true;
        }
        var row := rows[i];
        if !IsEmpty(row.source) && !IsEmpty(row.destination) {
          ApplyEvents(outcomes[i].events);
          if !outcomes[i].status {
            UpdateErrors();
          }
        }
        i := i + 1;
      }
      return false;
    }

    /**
     * `execute`: reset the counters, read the limit (10 when
     * the setting does not parse), give up when the move-to folder is
     * required but unusable, run the argument loop, and set the result.
     * Whatever happens, the source and destination arrays are cleared.
     */
    method Execute(env: Environment) returns (result: JobResult)
      requires ArraysFit(Settings(), env)
      requires Arguments(Settings(), env).Some? ==> |Arguments(Settings(), env).value.0| <= |env.outcomes|
      modifies this`nrErrors, this`nrSuccess, this`successConditionBroken, this`limitFiles
      modifies this`sourceFileFolder, this`destinationFileFolder
      ensures result == ExecuteResult(old(Settings()), env)
      ensures sourceFileFolder == null && destinationFileFolder == null
      ensures limitFiles == ToInt(nrErrorsLessThan, 10)
    {
      result := env.previous.(nrErrors := 1, result := false);
      nrErrors, nrSuccess, successConditionBroken := 0, 0, false;
      limitFiles := ToInt(nrErrorsLessThan, 10);
      if ifFileExists == "move_file" && (IsEmpty(destinationFolder) || !env.moveFolderUsable) {
        sourceFileFolder, destinationFileFolder := null, null;
        return;
      }
      var broke := false;
      if argFromPrevious && env.rows.Some? {
        broke := RunArguments(env.rows.value, env.outcomes, |env.rows.value|);
      } else if sourceFileFolder != null && destinationFileFolder != null {
        var rows := Zip(sourceFileFolder[..], destinationFileFolder[..]);
        broke := RunArguments(rows, env.outcomes, Min(sourceFileFolder.Length, env.stopAt));
      }
      if broke {
        result := result.(nrErrors := nrErrors);
      } else {
        result := result.(nrErrors := nrErrors, linesWritten := nrSuccess,
                          result := SuccessStatus(successCondition, nrErrors, nrSuccess, limitFiles));
      }
      sourceFileFolder, destinationFileFolder := null, null;
    }
  }
}
