/**
 * The prompt store as the main window holds it: the list of prompts in
 * memory and the prompt file with its backup. Saving and deleting change the
 * list, write it out and read it back, as the window's handlers do.
 */
module Store {
  import opened Text
  import opened Prompts
  import opened Persistence

  class PromptStore {
    /** The prompts in memory, in file order. */
    var prompts: seq<Prompt>
    /** The prompt file and its backup. */
    var disk: Disk

    /** Start-up: the prompts are whatever the prompt file yields. */
    constructor Open(disk: Disk, now: Timestamp)
      ensures this.disk == disk
      ensures prompts == Loaded(disk.primary, now)
    {
      var loaded := LoadPrompts(disk.primary, now);
      this.disk := disk;
      prompts := loaded;
    }

    /** Writes the prompts to the file after a best-effort backup of the previous file. */
    method Persist(backupOk: bool, writeOk: bool) returns (report: SaveReport)
      modifies this
      ensures report == SavePrompts(old(disk), prompts, backupOk, writeOk)
      ensures disk == report.disk && prompts == old(prompts)
    {
      var backupFailed := false;
      if disk.primary != Missing {
        if backupOk {
          disk := disk.(backup := disk.primary);
        } else {
          backupFailed := true;
        }
      }
      var writeFailed := false;
      if writeOk {
        disk := disk.(primary := Records(Encode(prompts)));
      } else {
        writeFailed := true;
      }
      report := SaveReport(disk, backupFailed, writeFailed);
    }

    /** Replaces the prompts in memory with what the prompt file yields now. */
    method Reload(now: Timestamp)
      modifies this
      ensures prompts == Loaded(disk.primary, now) && disk == old(disk)
    {
      prompts := LoadPrompts(disk.primary, now);
    }

    /**
     * The save button: a refused save changes nothing; an accepted one applies
     * the upsert, writes the file and reloads it. After a successful write the
     * prompts are exactly the upserted list; after a failed write the reload
     * brings back the file as it was, so the edit is lost.
     */
    method SavePrompt(titleInput: string, contentInput: string, now: Timestamp, backupOk: bool, writeOk: bool)
      returns (outcome: SaveOutcome)
      modifies this
      ensures outcome == Upsert(old(prompts), titleInput, contentInput, now).outcome
      ensures !outcome.Accepted() ==> prompts == old(prompts) && disk == old(disk)
      ensures outcome.Accepted() ==>
        && disk == SavePrompts(old(disk), Upsert(old(prompts), titleInput, contentInput, now).prompts, backupOk, writeOk).disk
        && prompts == Loaded(disk.primary, now)
      ensures outcome.Accepted() && writeOk ==> prompts == Upsert(old(prompts), titleInput, contentInput, now).prompts
      ensures outcome.Accepted() && !writeOk ==> prompts == Loaded(old(disk).primary, now)
    {
      var title := Strip(titleInput);
      var content := Strip(contentInput);
      if title == [] {
        return EmptyTitle;
      }
      if content == [] {
        return EmptyContent;
      }
      var found := false;
      var i := 0;
      while i < |prompts|
        invariant 0 <= i <= |prompts|
        invariant prompts == old(prompts)
        invariant forall j :: 0 <= j < i ==> prompts[j].title != title
      {
        if prompts[i].title == title {
          FindTitleAt(prompts, title, i);
          prompts := prompts[i := prompts[i].(content := content, modifiedAt := now)];
          found := true;
          break;
        }
        i := i + 1;
      }
      if !found {
        prompts := prompts + [Prompt(title, content, now, now)];
      }
      outcome := if found then Modified else Created;
      var upserted := prompts;
      assert upserted == Upsert(old(prompts), titleInput, contentInput, now).prompts;
      var _ := Persist(backupOk, writeOk);
      Reload(now);
      if writeOk {
        SaveThenLoad(old(disk), upserted, backupOk, now);
      }
    }

    /**
     * The confirmed delete: every prompt with the title is dropped; when none
     * had it the delete reports "not found" and nothing is written. Otherwise
     * the file is written and reloaded, and after a successful write the
     * prompts are the survivors in their original order.
     */
    method DeletePrompt(title: string, now: Timestamp, backupOk: bool, writeOk: bool) returns (deleted: bool)
      modifies this
      ensures deleted <==> HasTitle(old(prompts), title)
      ensures !deleted ==> prompts == old(prompts) && disk == old(disk)
      ensures deleted ==>
        && disk == SavePrompts(old(disk), WithoutTitle(old(prompts), title), backupOk, writeOk).disk
        && prompts == Loaded(disk.primary, now)
      ensures deleted && writeOk ==> prompts == WithoutTitle(old(prompts), title)
    {
      DeleteFindsTitle(prompts, title);
      var initialLen := |prompts|;
      prompts := WithoutTitle(prompts, title);
      deleted := |prompts| < initialLen;
      if deleted {
        var survivors := prompts;
        var _ := Persist(backupOk, writeOk);
        Reload(now);
        if writeOk {
          SaveThenLoad(old(disk), survivors, backupOk, now);
        }
      }
    }
  }
}
