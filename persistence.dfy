/**
 * The prompt file on disk and its backup: loading with the back-fill of time
 * stamps that older files lack, and saving with a best-effort copy of the
 * previous file. The file is modelled as the records it holds, not as JSON text.
 */
module Persistence {
  import opened Wrappers
  import opened Prompts

  /** One object of the file's JSON array as read back; files written by older versions lack the time stamps. */
  datatype StoredRecord = StoredRecord(
    title: string,
    content: string,
    createdAt: Option<Timestamp>,
    modifiedAt: Option<Timestamp>)

  /** The prompt file: absent, not valid JSON, or a JSON array of records. */
  datatype StoreFile = Missing | Corrupt | Records(entries: seq<StoredRecord>)

  /** Both time stamps are present. */
  predicate Complete(r: StoredRecord) {
    r.createdAt.Some? && r.modifiedAt.Some?
  }

  /** The load-time repair of one record: a missing creation time becomes `now`, a missing modification time the creation time. */
  function Backfill(r: StoredRecord, now: Timestamp): StoredRecord {
    var created := if r.createdAt.None? then Some(now) else r.createdAt;
    var modified := if r.modifiedAt.None? then created else r.modifiedAt;
    r.(createdAt := created, modifiedAt := modified)
  }

  /**
   * Back-fill completes every record, keeps its title, content and whichever
   * time stamps it had, sets a missing creation time to `now` and a missing
   * modification time to the (possibly just filled) creation time; on a
   * complete record it changes nothing.
   */
  lemma BackfillFillsGaps(r: StoredRecord, now: Timestamp)
    ensures var b := Backfill(r, now);
      && Complete(b)
      && b.title == r.title && b.content == r.content
      && b.createdAt == (if r.createdAt.Some? then r.createdAt else Some(now))
      && b.modifiedAt == (if r.modifiedAt.Some? then r.modifiedAt else b.createdAt)
    ensures Complete(r) ==> Backfill(r, now) == r
  {
  }

  /** A complete stored record as a prompt. */
  function ToPrompt(r: StoredRecord): Prompt
    requires Complete(r)
  {
    Prompt(r.title, r.content, r.createdAt.value, r.modifiedAt.value)
  }

  /** A prompt as `json.dump` writes it: all four fields present. */
  function ToStored(p: Prompt): StoredRecord {
    StoredRecord(p.title, p.content, Some(p.createdAt), Some(p.modifiedAt))
  }

  /** The prompts a load yields: none for a missing or corrupt file, otherwise every record back-filled. */
  function Loaded(f: StoreFile, now: Timestamp): seq<Prompt> {
    match f
    case Missing => []
    case Corrupt => []
    case Records(rs) => seq(|rs|, i requires 0 <= i < |rs| => ToPrompt(Backfill(rs[i], now)))
  }

  /** The records `json.dump` writes for a list of prompts. */
  function Encode(ps: seq<Prompt>): seq<StoredRecord> {
    seq(|ps|, i requires 0 <= i < |ps| => ToStored(ps[i]))
  }

  /** The loop of the loader: every freshly parsed record is back-filled in place. */
  method BackfillTimestamps(data: array<StoredRecord>, now: Timestamp)
    modifies data
    ensures forall i :: 0 <= i < data.Length ==> data[i] == Backfill(old(data[i]), now)
  {
    var i := 0;
    while i < data.Length
      invariant 0 <= i <= data.Length
      invariant forall j :: 0 <= j < i ==> data[j] == Backfill(old(data[j]), now)
      invariant forall j :: i <= j < data.Length ==> data[j] == old(data[j])
    {
      if data[i].createdAt.None? {
        data[i] := data[i].(createdAt := Some(now));
      }
      if data[i].modifiedAt.None? {
        data[i] := data[i].(modifiedAt := data[i].createdAt);
      }
      i := i + 1;
    }
  }

  /** Loading the prompt file: an empty list for a missing or corrupt file, otherwise the parsed records back-filled. */
  method LoadPrompts(f: StoreFile, now: Timestamp) returns (ps: seq<Prompt>)
    ensures ps == Loaded(f, now)
  {
    match f
    case Missing =>
      ps := [];
    case Corrupt =>
      ps := [];
    case Records(rs) =>
      var data := new StoredRecord[|rs|](i requires 0 <= i < |rs| => rs[i]);
      BackfillTimestamps(data, now);
      ps := seq(data.Length, i requires 0 <= i < data.Length && Complete(data[i]) reads data => ToPrompt(data[i]));
  }

  /** The prompt file and its one-generation backup. */
  datatype Disk = Disk(primary: StoreFile, backup: StoreFile)

  /** What a save did: the disk afterwards, and whether the backup copy or the write failed. */
  datatype SaveReport = SaveReport(disk: Disk, backupFailed: bool, writeFailed: bool)

  /**
   * Saving the prompts: an existing prompt file is first copied to the backup
   * (when the copy fails the save only warns and goes on), then the file is
   * overwritten with the prompts (when the write fails an error is reported).
   * `backupOk` and `writeOk` stand for whether the two file operations succeed.
   */
  function SavePrompts(d: Disk, ps: seq<Prompt>, backupOk: bool, writeOk: bool): SaveReport {
    var present := d.primary != Missing;
    var backup := if present && backupOk then d.primary else d.backup;
    var primary := if writeOk then Records(Encode(ps)) else d.primary;
    SaveReport(Disk(primary, backup), present && !backupOk, !writeOk)
  }

  /** Saving and then loading gives back the prompts that were saved, whatever the clock says at load time. */
  lemma SaveThenLoad(d: Disk, ps: seq<Prompt>, backupOk: bool, now: Timestamp)
    ensures Loaded(SavePrompts(d, ps, backupOk, true).disk.primary, now) == ps
  {
  }

  /**
   * The backup holds the previous file after a save whose copy succeeded and
   * is untouched otherwise; a failed copy is only a warning (the write still
   * happens), and a failed write leaves the previous file in place.
   */
  lemma SaveKeepsPreviousGeneration(d: Disk, ps: seq<Prompt>, backupOk: bool, writeOk: bool)
    ensures var r := SavePrompts(d, ps, backupOk, writeOk);
      && (d.primary != Missing && backupOk ==> r.disk.backup == d.primary)
      && (d.primary == Missing || !backupOk ==> r.disk.backup == d.backup)
      && (r.backupFailed <==> d.primary != Missing && !backupOk)
      && (r.writeFailed <==> !writeOk)
      && (writeOk ==> r.disk.primary.Records? && |r.disk.primary.entries| == |ps|)
      && (!writeOk ==> r.disk.primary == d.primary)
  {
  }
}
