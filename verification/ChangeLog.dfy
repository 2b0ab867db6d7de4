/** The buffered CSV journal of a one-shot run (change-log.ts). */
module ChangeLog {
  import opened Prelude
  import opened Csv

  const FLUSH_AT := 200

  const HEADER: seq<Option<string>> := [
    Some("run_id"), Some("syncer"), Some("mode"), Some("at"), Some("action"), Some("reason"), Some("legacy_id"),
    Some("member_legacy_id"), Some("member_email"), Some("member_phone"), Some("course_legacy_id"),
    Some("pg_enrollment_id"), Some("before"), Some("after"), Some("detail")]

  /** One decision; numbers and snapshots are already text. */
  datatype ChangeEntry = ChangeEntry(
    action: string,
    reason: Option<string>,
    legacyId: Option<string>,
    memberLegacyId: Option<string>,
    memberEmail: Option<string>,
    memberPhone: Option<string>,
    courseLegacyId: Option<string>,
    pgEnrollmentId: Option<string>,
    before: Option<string>,
    after: Option<string>,
    detail: Option<string>)

  function Cells(runId: string, syncer: string, mode: string, at: string, e: ChangeEntry): seq<Option<string>> {
    [Some(runId), Some(syncer), Some(mode), Some(at), Some(e.action), e.reason, e.legacyId, e.memberLegacyId,
     e.memberEmail, e.memberPhone, e.courseLegacyId, e.pgEnrollmentId, e.before, e.after, e.detail]
  }

  /** The header is written iff the file does not exist at the first record. */
  function Seed(header: seq<Option<string>>, file: Option<string>): seq<seq<Option<string>>> {
    if file.None? then [header] else []
  }

  /** `buffer.join('\n')` */
  function Joined(lines: seq<string>): string {
    if lines == [] then "" else if |lines| == 1 then lines[0] else lines[0] + ['\n'] + Joined(lines[1..])
  }

  lemma {:induction false} JoinedIsLines(lines: seq<string>)
    requires lines != []
    ensures Joined(lines) + ['\n'] == Lines(lines)
  {
    if |lines| > 1 {
      JoinedIsLines(lines[1..]);
      assert Joined(lines) + ['\n'] == lines[0] + ['\n'] + (Joined(lines[1..]) + ['\n']);
    } else {
      assert Lines(lines[1..]) == "";
    }
  }

  lemma {:induction false} LinesAppend(a: seq<string>, b: seq<string>)
    ensures Lines(a + b) == Lines(a) + Lines(b)
  {
    if a == [] {
      assert a + b == b;
    } else {
      assert (a + b)[1..] == a[1..] + b;
      LinesAppend(a[1..], b);
    }
  }

  lemma {:induction false} TextAppend(a: seq<seq<Option<string>>>, b: seq<seq<Option<string>>>)
    ensures TextOf(a + b) == TextOf(a) + TextOf(b)
  {
    if a == [] {
      assert a + b == b;
    } else {
      assert (a + b)[1..] == a[1..] + b;
      TextAppend(a[1..], b);
    }
  }

  /** File and buffer together are the original file followed by one line per journaled row. */
  ghost predicate InStep(file: Option<string>, buffer: seq<string>, original: Option<string>,
      journal: seq<seq<Option<string>>>) {
    Shown(file) + Lines(buffer) == Shown(original) + TextOf(journal)
  }

  lemma PushKeepsStep(file: Option<string>, buffer: seq<string>, original: Option<string>,
                      journal: seq<seq<Option<string>>>, cells: seq<Option<string>>)
    requires InStep(file, buffer, original, journal)
    ensures InStep(file, buffer + [CsvLine(cells)], original, journal + [cells])
  {
    var line := CsvLine(cells) + ['\n'];
    OneLine(cells);
    LinesAppend(buffer, [CsvLine(cells)]);
    TextAppend(journal, [cells]);
    Assoc(Shown(file), Lines(buffer), line);
    Assoc(Shown(original), TextOf(journal), line);
  }

  lemma OneLine(cells: seq<Option<string>>)
    ensures Lines([CsvLine(cells)]) == CsvLine(cells) + ['\n'] == TextOf([cells])
  {
    assert Lines([]) == "" == TextOf([]);
  }

  lemma FlushKeepsStep(file: Option<string>, buffer: seq<string>, original: Option<string>,
      journal: seq<seq<Option<string>>>)
    requires InStep(file, buffer, original, journal) && buffer != []
    ensures InStep(Some(Shown(file) + (Joined(buffer) + ['\n'])), [], original, journal)
  {
    JoinedIsLines(buffer);
    assert Shown(file) + Lines(buffer) + Lines([]) == Shown(file) + Lines(buffer);
  }

  class ChangeLog {
    var file: Option<string>     // contents at `path`, None while it does not exist
    var buffer: seq<string>
    var seeded: bool
    var rows: nat
    const syncer: string
    const runId: string
    const mode: string
    const header: seq<Option<string>>

    ghost const original: Option<string>
    /** everything journaled so far: the header, if this log wrote one, and the recorded entries */
    ghost var journal: seq<seq<Option<string>>>
    ghost var recorded: seq<seq<Option<string>>>

    ghost predicate Valid()
      reads this
    {
      InStep(file, buffer, original, journal) &&
      |buffer| < FLUSH_AT &&
      (!seeded ==> recorded == [] && journal == [] && buffer == [] && file == original) &&
      (seeded ==> journal == Seed(header, original) + recorded) &&
      (file.None? ==> original.None?) && header != [] &&
      (forall r :: r in recorded ==> r != []) &&
      rows == |recorded|
    }

    constructor (header: seq<Option<string>>, file: Option<string>, syncer: string, runId: string, dryRun: bool)
      requires header != []
      ensures this.header == header && Valid() && recorded == [] && this.original == file && this.file == file
      ensures this.syncer == syncer && this.runId == runId && this.mode == if dryRun then "dry-run" else "apply"
    {
      this.file, this.buffer, this.seeded, this.rows := file, [], false, 0;
      this.header, this.syncer, this.runId, this.mode := header, syncer, runId, if dryRun then "dry-run" else "apply";
      this.original, this.journal, this.recorded := file, [], [];
    }

    method Record(e: ChangeEntry, at: string)
      requires Valid()
      modifies this
      ensures Valid() && seeded
      ensures recorded == old(recorded) + [Cells(runId, syncer, mode, at, e)]
      ensures var lines := |old(buffer)| + if !old(seeded) && old(file) == None then 2 else 1;
        if lines < 200 then file == old(file) && |buffer| == lines else file.Some? && buffer == []
    {
      SeedOnce();
      Append(Cells(runId, syncer, mode, at, e));
    }

    method SeedOnce()
      requires Valid()
      modifies this`buffer, this`journal, this`seeded
      ensures Valid() && seeded
      ensures |buffer| == |old(buffer)| + if !old(seeded) && file == None then 1 else 0
    {
      if seeded { return; }
      if file.None? {
        Push(header);
      }
      seeded := true;
    }

    method Append(cells: seq<Option<string>>)
      requires Valid() && seeded && cells != []
      modifies this
      ensures Valid() && seeded
      ensures recorded == old(recorded) + [cells]
      ensures var lines := |old(buffer)| + 1;
        if lines < 200 then file == old(file) && |buffer| == lines else file.Some? && buffer == []
    {
      Push(cells);
      recorded := recorded + [cells];
      rows := rows + 1;
      if |buffer| >= FLUSH_AT {
        Flush();
      }
    }

    /** Buffers one line; file and text stay in step. */
    method Push(cells: seq<Option<string>>)
      requires InStep(file, buffer, original, journal)
      modifies this`buffer, this`journal
      ensures InStep(file, buffer, original, journal)
      ensures buffer == old(buffer) + [CsvLine(cells)] && journal == old(journal) + [cells]
    {
      PushKeepsStep(file, buffer, original, journal, cells);
      buffer := buffer + [CsvLine(cells)];
      journal := journal + [cells];
    }

    method Flush()
      requires InStep(file, buffer, original, journal)
      modifies this`file, this`buffer
      ensures InStep(file, buffer, original, journal) && buffer == []
      ensures if old(buffer) == [] then file == old(file) else file.Some?
    {
      if buffer == [] { return; }
      FlushKeepsStep(file, buffer, original, journal);
      file := Some(Shown(file) + (Joined(buffer) + ['\n']));
      buffer := [];
    }

    /** Nothing is pending: the file is the original followed by everything journaled. */
    method Close()
      requires Valid()
      modifies this`file, this`buffer
      ensures Valid() && buffer == []
      ensures Shown(file) == Shown(original) + TextOf(journal)
      ensures !seeded ==> file == original
    {
      Flush();
      Flushed(file, original, journal);
    }
  }

  lemma Flushed(file: Option<string>, original: Option<string>, journal: seq<seq<Option<string>>>)
    requires InStep(file, [], original, journal)
    ensures Shown(file) == Shown(original) + TextOf(journal)
  {
    assert Shown(file) + Lines([]) == Shown(file);
  }

  /**
   * Reading a closed journal gives back exactly the recorded cells, after the rows that were there, and
   * the next run may append to it again.
   */
  lemma ClosedJournalReadsBack(header: seq<Option<string>>, file: Option<string>, original: Option<string>,
                               recorded: seq<seq<Option<string>>>)
    requires InStep(file, [], original, Seed(header, original) + recorded)
    requires Finished(Shown(original)) && header != [] && forall r :: r in recorded ==> r != []
    ensures Parse(Shown(file)) ==
      if original == None then [ShownRow(header)] + ShownRows(recorded)
      else Parse(original.value) + ShownRows(recorded)
    ensures Finished(Shown(file))
  {
    var seed := Seed(header, original);
    Flushed(file, original, seed + recorded);
    AppendedRows(Shown(original), seed + recorded);
    WrittenIsFinished(Shown(original), seed + recorded);
    ShownAppend(seed, recorded);
    SeedShown(header, original, ShownRows(recorded));
  }

  /** A file that was there keeps its rows, a new one begins with the header. */
  lemma SeedShown(header: seq<Option<string>>, original: Option<string>, rest: seq<seq<string>>)
    ensures Parse(Shown(original)) + (ShownRows(Seed(header, original)) + rest)
         == if original == None then [ShownRow(header)] + rest else Parse(original.value) + rest
  {
    if original == None {
      assert ShownRows([header]) == [ShownRow(header)] && Parse("") == [];
    } else {
      assert ShownRows([]) == [];
    }
  }

  /** What `Record` journals for a list of decisions and the moments they were recorded at. */
  function Recorded(runId: string, syncer: string, mode: string, ats: seq<string>, entries: seq<ChangeEntry>):
      (rows: seq<seq<Option<string>>>)
    requires |ats| == |entries|
    ensures |rows| == |entries|
  {
    seq(|entries|, i requires 0 <= i < |entries| => Cells(runId, syncer, mode, ats[i], entries[i]))
  }

  lemma EntriesFitHeader(runId: string, syncer: string, mode: string, at: string, e: ChangeEntry)
    ensures |Cells(runId, syncer, mode, at, e)| == |HEADER|
  {
  }

  // ---- what stands where ----

  /** In a table whose first row names the columns, row `k` below it shows `value` under `name`. */
  ghost predicate Under(parsed: seq<seq<string>>, k: nat, name: string, value: string) {
    k + 1 < |parsed| && |parsed[k + 1]| == |parsed[0]| &&
    exists c :: 0 <= c < |parsed[0]| && parsed[0][c] == name && parsed[k + 1][c] == value
  }

  // every column of a decision's row, found by its name

  ghost predicate ShowsRun(parsed: seq<seq<string>>, k: nat, runId: string, syncer: string, mode: string, at: string) {
    Under(parsed, k, "run_id", runId) && Under(parsed, k, "syncer", syncer) && Under(parsed, k, "mode", mode) &&
    Under(parsed, k, "at", at)
  }

  ghost predicate ShowsIds(parsed: seq<seq<string>>, k: nat, e: ChangeEntry) {
    Under(parsed, k, "legacy_id", Shown(e.legacyId)) &&
    Under(parsed, k, "member_legacy_id", Shown(e.memberLegacyId)) &&
    Under(parsed, k, "member_email", Shown(e.memberEmail)) &&
    Under(parsed, k, "member_phone", Shown(e.memberPhone))
  }

  ghost predicate ShowsPair(parsed: seq<seq<string>>, k: nat, e: ChangeEntry) {
    Under(parsed, k, "course_legacy_id", Shown(e.courseLegacyId)) &&
    Under(parsed, k, "pg_enrollment_id", Shown(e.pgEnrollmentId))
  }

  ghost predicate ShowsChange(parsed: seq<seq<string>>, k: nat, e: ChangeEntry) {
    Under(parsed, k, "action", e.action) && Under(parsed, k, "reason", Shown(e.reason)) &&
    Under(parsed, k, "before", Shown(e.before)) && Under(parsed, k, "after", Shown(e.after)) &&
    Under(parsed, k, "detail", Shown(e.detail))
  }

  /** Where a column stands, told from the length and a letter or two of its name. */
  function ColumnOf(name: string): nat {
    if |name| == 6 then
      if name[0] == 's' then 1 else if name[0] == 'a' then 4 else if name[0] == 'b' then 12
      else if name[0] == 'd' then 14 else if name[1] == 'u' then 0 else 5
    else if |name| == 16 then (if name[0] == 'm' then 7 else if name[0] == 'c' then 10 else 11)
    else if |name| == 12 then (if name[7] == 'e' then 8 else 9)
    else if |name| == 2 then 3 else if |name| == 4 then 2 else if |name| == 5 then 13 else 6
  }

  lemma HeaderColumns()
    ensures |HEADER| == 15
    ensures forall i :: 0 <= i < |HEADER| ==> HEADER[i].Some? && ColumnOf(HEADER[i].value) == i
  {
  }

  lemma HeaderNames()
    ensures ShownRow(HEADER) == ["run_id", "syncer", "mode", "at", "action", "reason", "legacy_id", "member_legacy_id",
      "member_email", "member_phone", "course_legacy_id", "pg_enrollment_id", "before", "after", "detail"]
  {
  }

  /** No two columns have one name. */
  lemma HeaderDistinct()
    ensures Distinct(ShownRow(HEADER))
  {
    HeaderColumns();
    NamedDistinct(HEADER);
  }

  lemma NamedDistinct(header: seq<Option<string>>)
    requires forall i :: 0 <= i < |header| ==> header[i].Some? && ColumnOf(header[i].value) == i
    ensures Distinct(ShownRow(header))
  {
    var names := ShownRow(header);
    forall i, j | 0 <= i < j < |names|
      ensures names[i] != names[j]
    {
      assert ColumnOf(names[i]) == i && ColumnOf(names[j]) == j;
    }
  }

  lemma ColumnAt(parsed: seq<seq<string>>, k: nat, cells: seq<Option<string>>, c: nat, name: string, value: string)
    requires k + 1 < |parsed| && parsed[0] == ShownRow(HEADER) && parsed[k + 1] == ShownRow(cells)
    requires |cells| == |HEADER| && c < |HEADER| && HEADER[c] == Some(name) && Shown(cells[c]) == value
    ensures Under(parsed, k, name, value)
  {
    assert parsed[0][c] == name && parsed[k + 1][c] == value;
  }

  lemma RunShown(parsed: seq<seq<string>>, k: nat, runId: string, syncer: string, mode: string, at: string,
                 e: ChangeEntry)
    requires k + 1 < |parsed| && parsed[0] == ShownRow(HEADER)
    requires parsed[k + 1] == ShownRow(Cells(runId, syncer, mode, at, e))
    ensures ShowsRun(parsed, k, runId, syncer, mode, at)
  {
    var cells := Cells(runId, syncer, mode, at, e);
    ColumnAt(parsed, k, cells, 0, "run_id", runId);
    ColumnAt(parsed, k, cells, 1, "syncer", syncer);
    ColumnAt(parsed, k, cells, 2, "mode", mode);
    ColumnAt(parsed, k, cells, 3, "at", at);
  }

  lemma IdsShown(parsed: seq<seq<string>>, k: nat, runId: string, syncer: string, mode: string, at: string,
                 e: ChangeEntry)
    requires k + 1 < |parsed| && parsed[0] == ShownRow(HEADER)
    requires parsed[k + 1] == ShownRow(Cells(runId, syncer, mode, at, e))
    ensures ShowsIds(parsed, k, e)
  {
    var cells := Cells(runId, syncer, mode, at, e);
    ColumnAt(parsed, k, cells, 6, "legacy_id", Shown(e.legacyId));
    ColumnAt(parsed, k, cells, 7, "member_legacy_id", Shown(e.memberLegacyId));
    ColumnAt(parsed, k, cells, 8, "member_email", Shown(e.memberEmail));
    ColumnAt(parsed, k, cells, 9, "member_phone", Shown(e.memberPhone));
  }

  lemma PairShown(parsed: seq<seq<string>>, k: nat, runId: string, syncer: string, mode: string, at: string,
                 e: ChangeEntry)
    requires k + 1 < |parsed| && parsed[0] == ShownRow(HEADER)
    requires parsed[k + 1] == ShownRow(Cells(runId, syncer, mode, at, e))
    ensures ShowsPair(parsed, k, e)
  {
    var cells := Cells(runId, syncer, mode, at, e);
    ColumnAt(parsed, k, cells, 10, "course_legacy_id", Shown(e.courseLegacyId));
    ColumnAt(parsed, k, cells, 11, "pg_enrollment_id", Shown(e.pgEnrollmentId));
  }

  lemma ChangeShown(parsed: seq<seq<string>>, k: nat, runId: string, syncer: string, mode: string, at: string,
                 e: ChangeEntry)
    requires k + 1 < |parsed| && parsed[0] == ShownRow(HEADER)
    requires parsed[k + 1] == ShownRow(Cells(runId, syncer, mode, at, e))
    ensures ShowsChange(parsed, k, e)
  {
    var cells := Cells(runId, syncer, mode, at, e);
    ColumnAt(parsed, k, cells, 4, "action", e.action);
    ColumnAt(parsed, k, cells, 5, "reason", Shown(e.reason));
    ColumnAt(parsed, k, cells, 12, "before", Shown(e.before));
    ColumnAt(parsed, k, cells, 13, "after", Shown(e.after));
    ColumnAt(parsed, k, cells, 14, "detail", Shown(e.detail));
  }

  /** The row below the header shows the decision. */
  ghost predicate ShowsDecision(parsed: seq<seq<string>>, k: nat, runId: string, syncer: string, mode: string,
      at: string, e: ChangeEntry) {
    ShowsRun(parsed, k, runId, syncer, mode, at) && ShowsIds(parsed, k, e) && ShowsPair(parsed, k, e) &&
    ShowsChange(parsed, k, e)
  }

  /** A table that names its columns and shows under them what each decision says. */
  ghost predicate ReadsAs(parsed: seq<seq<string>>, runId: string, syncer: string, mode: string, ats: seq<string>,
      entries: seq<ChangeEntry>)
    requires |ats| == |entries|
  {
    |parsed| == |entries| + 1 && Distinct(parsed[0]) && (forall row :: row in parsed ==> |row| == 15) &&
    forall k :: 0 <= k < |entries| ==> ShowsDecision(parsed, k, runId, syncer, mode, ats[k], entries[k])
  }

  lemma RowRead(parsed: seq<seq<string>>, runId: string, syncer: string, mode: string, ats: seq<string>,
                entries: seq<ChangeEntry>, k: nat)
    requires |ats| == |entries| && k < |entries|
    requires parsed == [ShownRow(HEADER)] + ShownRows(Recorded(runId, syncer, mode, ats, entries))
    ensures ShowsDecision(parsed, k, runId, syncer, mode, ats[k], entries[k])
  {
    var rows := Recorded(runId, syncer, mode, ats, entries);
    assert parsed[0] == ShownRow(HEADER) && parsed[k + 1] == ShownRows(rows)[k] == ShownRow(rows[k]);
    RunShown(parsed, k, runId, syncer, mode, ats[k], entries[k]);
    IdsShown(parsed, k, runId, syncer, mode, ats[k], entries[k]);
    PairShown(parsed, k, runId, syncer, mode, ats[k], entries[k]);
    ChangeShown(parsed, k, runId, syncer, mode, ats[k], entries[k]);
  }

  lemma RowsRead(parsed: seq<seq<string>>, runId: string, syncer: string, mode: string, ats: seq<string>,
                 entries: seq<ChangeEntry>)
    requires |ats| == |entries|
    requires parsed == [ShownRow(HEADER)] + ShownRows(Recorded(runId, syncer, mode, ats, entries))
    requires forall row :: row in parsed ==> |row| == 15
    ensures ReadsAs(parsed, runId, syncer, mode, ats, entries)
  {
    HeaderDistinct();
    assert parsed[0] == ShownRow(HEADER);
    forall k | 0 <= k < |entries|
      ensures ShowsDecision(parsed, k, runId, syncer, mode, ats[k], entries[k])
    {
      RowRead(parsed, runId, syncer, mode, ats, entries, k);
    }
  }

  /**
   * A journal that created its file: the header row, then one row per decision, all of one width. Each
   * column has a name of its own, and under it stands what the decision says there.
   */
  lemma FreshJournalReadsBack(file: Option<string>, runId: string, syncer: string, mode: string, ats: seq<string>,
                              entries: seq<ChangeEntry>)
    requires |ats| == |entries|
    requires InStep(file, [], None, Seed(HEADER, None) + Recorded(runId, syncer, mode, ats, entries))
    ensures ReadsAs(Parse(Shown(file)), runId, syncer, mode, ats, entries)
  {
    var recorded := Recorded(runId, syncer, mode, ats, entries);
    forall r | r in recorded
      ensures |r| == |HEADER|
    {
      var i :| 0 <= i < |recorded| && recorded[i] == r;
      EntriesFitHeader(runId, syncer, mode, ats[i], entries[i]);
    }
    JournalOfOneWidth(HEADER, file, recorded);
    RowsRead(Parse(Shown(file)), runId, syncer, mode, ats, entries);
  }

  lemma JournalOfOneWidth(header: seq<Option<string>>, file: Option<string>, recorded: seq<seq<Option<string>>>)
    requires InStep(file, [], None, Seed(header, None) + recorded)
    requires header != [] && forall r :: r in recorded ==> |r| == |header|
    ensures Parse(Shown(file)) == [ShownRow(header)] + ShownRows(recorded)
    ensures forall row :: row in Parse(Shown(file)) ==> |row| == |header|
  {
    ClosedJournalReadsBack(header, file, None, recorded);
  }
}
