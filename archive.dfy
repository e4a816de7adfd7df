/**
 * Retention of the per-day archive folders: a top-level directory named
 * by a date in `%Y%m%d` form is deleted once the time since that date's
 * midnight is more than 7 whole days; every other name is skipped.
 */
module Archive {
  import opened Wrappers
  import opened Text
  import opened Dates

  /** An entry of the working directory: its name and whether it is a directory. */
  datatype DirEntry = DirEntry(name: string, isDir: bool)

  /** Folders are deleted when strictly more whole days than this have passed. */
  const RetentionDays := 7

  /** The name test before parsing: eight characters, all digits. */
  predicate LooksLikeDate(name: string)
  {
    |name| == 8 && AllDigits(name)
  }

  /** Whether `delete_old_folders` removes this entry at time `now`. */
  predicate ShouldDelete(e: DirEntry, now: DateTime)
    requires IsValidDateTime(now)
  {
    e.isDir && LooksLikeDate(e.name) &&
    match ParseCompact(e.name)
    case Some(d) => ElapsedDays(now, d) > RetentionDays
    case None => false
  }

  /**
   * In day numbers the rule is "the folder's date is at least 8 days before
   * today": only directories whose name parses as a date can go.
   */
  lemma ShouldDeleteByDays(e: DirEntry, now: DateTime)
    requires IsValidDateTime(now)
    ensures ShouldDelete(e, now) <==>
      e.isDir && ParseCompact(e.name).Some?
      && DayNumber(ParseCompact(e.name).value) <= DayNumber(now.date) - (RetentionDays + 1)
  {
    if ParseCompact(e.name).Some? {
      ElapsedWholeDays(now, ParseCompact(e.name).value);
    }
  }

  /**
   * The folder written `n` days before today is deleted exactly when
   * `n >= 8`: one exactly 7 days old, or newer, is kept.
   */
  lemma FolderOfDaysAgo(now: DateTime, n: nat)
    requires IsValidDateTime(now) && DayNumber(now.date) >= n
    ensures ShouldDelete(DirEntry(FormatCompact(DaysEarlier(now.date, n)), true), now) <==> n > RetentionDays
  {
    var d := DaysEarlier(now.date, n);
    ParseFormatCompact(d);
    ShouldDeleteByDays(DirEntry(FormatCompact(d), true), now);
  }

  /** A name that does not parse as a `%Y%m%d` date, or a plain file, is never deleted. */
  lemma NonDateKept(e: DirEntry, now: DateTime)
    requires IsValidDateTime(now)
    requires !e.isDir || ParseCompact(e.name).None?
    ensures !ShouldDelete(e, now)
  {
  }

  /** The names deleted by one sweep, in listing order. */
  function OldFolders(entries: seq<DirEntry>, now: DateTime): (r: seq<string>)
    requires IsValidDateTime(now)
    ensures |r| <= |entries|
    ensures forall name :: name in r ==> exists i :: 0 <= i < |entries| && entries[i].name == name && ShouldDelete(entries[i], now)
    ensures forall i :: 0 <= i < |entries| && ShouldDelete(entries[i], now) ==> entries[i].name in r
  {
    if entries == [] then []
    else
      var rest := OldFolders(entries[1..], now);
      assert forall i :: 1 <= i < |entries| ==> entries[i] == entries[1..][i - 1];
      if ShouldDelete(entries[0], now) then [entries[0].name] + rest else rest
  }

  /** Listing one more entry adds its name at the end exactly when it is selected. */
  lemma {:induction false} OldFoldersAppend(entries: seq<DirEntry>, e: DirEntry, now: DateTime)
    requires IsValidDateTime(now)
    ensures OldFolders(entries + [e], now)
         == OldFolders(entries, now) + (if ShouldDelete(e, now) then [e.name] else [])
  {
    if entries != [] {
      assert (entries + [e])[1..] == entries[1..] + [e];
      OldFoldersAppend(entries[1..], e, now);
    }
  }

  /** The sweep of `delete_old_folders` and the time it last removed something. */
  class Archivist {
    var lastCleanupTime: Option<DateTime>

    constructor ()
      ensures lastCleanupTime == None
    {
      lastCleanupTime := None;
    }

    /**
     * Walk the listing, delete every folder `ShouldDelete` selects, and set
     * `lastCleanupTime` to `now` only if something was deleted.
     */
    method DeleteOldFolders(entries: seq<DirEntry>, now: DateTime) returns (deleted: seq<string>)
      requires IsValidDateTime(now)
      modifies this
      ensures deleted == OldFolders(entries, now)
      ensures lastCleanupTime == if deleted != [] then Some(now) else old(lastCleanupTime)
    {
      deleted := [];
      var i := 0;
      while i < |entries|
        invariant 0 <= i <= |entries|
        invariant deleted == OldFolders(entries[..i], now)
        invariant lastCleanupTime == if deleted != [] then Some(now) else old(lastCleanupTime)
      {
        OldFoldersAppend(entries[..i], entries[i], now);
        assert entries[..i + 1] == entries[..i] + [entries[i]];
        if ShouldDelete(entries[i], now) {
          deleted := deleted + [entries[i].name];
          lastCleanupTime := Some(now);
        }
        i := i + 1;
      }
      assert entries[..i] == entries;
    }
  }
}
