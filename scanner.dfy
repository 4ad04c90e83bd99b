/**
 * What one run of `organize_files` does, over a snapshot of the source
 * directory: the per-file outcome of each entry in listing order, the
 * summary that follows them, and the effect on the folders of the source
 * directory.
 */
module Scanner {
  import opened Wrappers
  import opened Classification
  import opened Collision

  /** One entry of the directory listing. */
  datatype Entry = Entry(name: string, isDir: bool)

  /** What listing the source directory gave: no such path, a failure, or the entries. */
  datatype Listing = Missing | Unreadable | Listed(entries: seq<Entry>)

  /** The messages `organize_files` reports, without their text. */
  datatype Event =
    | Moved(name: string, folder: string)
    | FileError(name: string)
    | NoMatches
    | Success(count: nat)
    | PathNotFound
    | SystemError

  /** The sub-folders of the source directory and the names each holds. */
  type Folders = map<string, set<string>>

  /** The events and the folders after (part of) a run. */
  datatype Outcome = Outcome(events: seq<Event>, folders: Folders)

  /** The names a folder holds; a folder that does not exist holds none. */
  function Present(folders: Folders, t: string): set<string> {
    if t in folders then folders[t] else {}
  }

  /**
   * The event one entry produces: none for a directory or an unclassified
   * file, one event reporting on it for a classified file.
   */
  function EntryEvents(rs: RuleSet, failing: set<string>, e: Entry): (r: seq<Event>)
    ensures |r| == if Classified(rs, e) then 1 else 0
    ensures r != [] ==> Reports(rs, failing, e, r[0])
  {
    if e.isDir then []
    else match Classify(e.name, rs)
      case None => []
      case Some(t) => if e.name in failing then [FileError(e.name)] else [Moved(e.name, t)]
  }

  /**
   * The folders after one entry: a classified file's target folder is
   * created if missing, and unless the move fails it receives the file
   * under the first name not already present.
   */
  function EntryFolders(rs: RuleSet, failing: set<string>, folders: Folders, e: Entry): (r: Folders)
    ensures !Classified(rs, e) ==> r == folders
    ensures Classified(rs, e) ==>
      var t := Classify(e.name, rs).value;
      && t in r && r == folders[t := r[t]]
      && Present(folders, t) <= r[t]
      && |r[t]| == |Present(folders, t)| + (if e.name in failing then 0 else 1)
  {
    if e.isDir then folders
    else match Classify(e.name, rs)
      case None => folders
      case Some(t) =>
        var present := Present(folders, t);
        if e.name in failing then folders[t := present]
        else folders[t := present + {FreeName(e.name, present)}]
  }

  /** The events the files of `entries` report, in listing order. */
  function Reported(rs: RuleSet, failing: set<string>, entries: seq<Entry>): seq<Event>
    decreases |entries|
  {
    if entries == [] then []
    else Reported(rs, failing, entries[..|entries| - 1]) + EntryEvents(rs, failing, entries[|entries| - 1])
  }

  /**
   * There is one event per classified file of the listing, and one `Moved`
   * per file moved; directories and unclassified files produce nothing.
   */
  lemma {:induction false} ReportedCounts(rs: RuleSet, failing: set<string>, entries: seq<Entry>)
    ensures |Reported(rs, failing, entries)| == ClassifiedCount(rs, entries)
    ensures MovedCount(Reported(rs, failing, entries)) == MovableCount(rs, failing, entries)
    decreases |entries|
  {
    if entries != [] {
      var init := entries[..|entries| - 1];
      var extra := EntryEvents(rs, failing, entries[|entries| - 1]);
      assert extra != [] ==> extra[..0] == [];
      ReportedCounts(rs, failing, init);
      MovedCountAppend(Reported(rs, failing, init), extra);
    }
  }

  /** The folders once every entry of `entries` has been processed, in order. */
  function FoldersAfter(rs: RuleSet, failing: set<string>, folders: Folders, entries: seq<Entry>): Folders
    decreases |entries|
  {
    if entries == [] then folders
    else EntryFolders(rs, failing, FoldersAfter(rs, failing, folders, entries[..|entries| - 1]), entries[|entries| - 1])
  }

  /**
   * The per-file part of the scan over `entries`: one event per classified
   * file and one `Moved` per file whose move succeeds.
   */
  function Scan(rs: RuleSet, failing: set<string>, folders: Folders, entries: seq<Entry>): (r: Outcome)
    ensures |r.events| == ClassifiedCount(rs, entries)
    ensures MovedCount(r.events) == MovableCount(rs, failing, entries)
  {
    ReportedCounts(rs, failing, entries);
    Outcome(Reported(rs, failing, entries), FoldersAfter(rs, failing, folders, entries))
  }

  /** The number of `Moved` events. */
  function MovedCount(events: seq<Event>): nat {
    if events == [] then 0
    else MovedCount(events[..|events| - 1]) + (if events[|events| - 1].Moved? then 1 else 0)
  }

  /** The number of `Moved` events into folder `t`. */
  function MovesInto(events: seq<Event>, t: string): nat {
    if events == [] then 0
    else
      var ev := events[|events| - 1];
      MovesInto(events[..|events| - 1], t) + (if ev.Moved? && ev.folder == t then 1 else 0)
  }

  /** The summary message once the listing has been processed. */
  function Summary(events: seq<Event>): (r: Event)
    ensures r.NoMatches? || r.Success?
    ensures r.NoMatches? <==> MovedCount(events) == 0
    ensures r.Success? ==> r.count == MovedCount(events)
  {
    var n := MovedCount(events);
    if n == 0 then NoMatches else Success(n)
  }

  /**
   * The events and folders of one run of `organize_files`: a missing or
   * unreadable path reports one error and changes nothing; a listing reports
   * one event per classified file and then the summary of those events.
   */
  function Organized(rs: RuleSet, listing: Listing, folders: Folders, failing: set<string>): (r: Outcome)
    ensures listing.Missing? ==> r == Outcome([PathNotFound], folders)
    ensures listing.Unreadable? ==> r == Outcome([SystemError], folders)
    ensures listing.Listed? ==>
      && |r.events| == ClassifiedCount(rs, listing.entries) + 1
      && r.events[|r.events| - 1] == Summary(r.events[..|r.events| - 1])
  {
    match listing
    case Missing => Outcome([PathNotFound], folders)
    case Unreadable => Outcome([SystemError], folders)
    case Listed(entries) =>
      var o := Scan(rs, failing, folders, entries);
      Outcome(o.events + [Summary(o.events)], o.folders)
  }

  /** A file (not a directory) that the rules send somewhere. */
  predicate Classified(rs: RuleSet, e: Entry) {
    !e.isDir && Classify(e.name, rs).Some?
  }

  /** How many entries are classified files. */
  function ClassifiedCount(rs: RuleSet, entries: seq<Entry>): nat {
    if entries == [] then 0
    else ClassifiedCount(rs, entries[..|entries| - 1]) + (if Classified(rs, entries[|entries| - 1]) then 1 else 0)
  }

  /** How many entries are classified files whose move succeeds. */
  function MovableCount(rs: RuleSet, failing: set<string>, entries: seq<Entry>): nat {
    if entries == [] then 0
    else
      var e := entries[|entries| - 1];
      MovableCount(rs, failing, entries[..|entries| - 1]) + (if Classified(rs, e) && e.name !in failing then 1 else 0)
  }

  lemma {:induction false} MovedCountAppend(a: seq<Event>, b: seq<Event>)
    ensures MovedCount(a + b) == MovedCount(a) + MovedCount(b)
    decreases |b|
  {
    if b != [] {
      assert (a + b)[..|a + b| - 1] == a + b[..|b| - 1];
      MovedCountAppend(a, b[..|b| - 1]);
    } else {
      assert a + b == a;
    }
  }

  /** One more entry at the end of the listing. */
  lemma ScanSnoc(rs: RuleSet, failing: set<string>, folders: Folders, entries: seq<Entry>, e: Entry)
    ensures var o := Scan(rs, failing, folders, entries);
      Scan(rs, failing, folders, entries + [e]) ==
        Outcome(o.events + EntryEvents(rs, failing, e), EntryFolders(rs, failing, o.folders, e))
  {
    assert (entries + [e])[..|entries|] == entries;
  }

  lemma {:induction false} ReportedAppend(rs: RuleSet, failing: set<string>, a: seq<Entry>, b: seq<Entry>)
    ensures Reported(rs, failing, a + b) == Reported(rs, failing, a) + Reported(rs, failing, b)
    decreases |b|
  {
    if b == [] {
      assert a + b == a;
    } else {
      var init, x := b[..|b| - 1], b[|b| - 1];
      assert (a + b)[..|a + b| - 1] == a + init && (a + b)[|a + b| - 1] == x;
      ReportedAppend(rs, failing, a, init);
      var ra, ri := Reported(rs, failing, a), Reported(rs, failing, init);
      assert ra + ri + EntryEvents(rs, failing, x) == ra + (ri + EntryEvents(rs, failing, x));
    }
  }

  lemma {:induction false} FoldersAppend(rs: RuleSet, failing: set<string>, folders: Folders, a: seq<Entry>, b: seq<Entry>)
    ensures FoldersAfter(rs, failing, folders, a + b) == FoldersAfter(rs, failing, FoldersAfter(rs, failing, folders, a), b)
    decreases |b|
  {
    if b == [] {
      assert a + b == a;
    } else {
      assert (a + b)[..|a + b| - 1] == a + b[..|b| - 1] && (a + b)[|a + b| - 1] == b[|b| - 1];
      FoldersAppend(rs, failing, folders, a, b[..|b| - 1]);
    }
  }

  /**
   * The scan is a fold over the listing: scanning `a + b` is scanning `a` and
   * then scanning `b` from the folders `a` left.  So the events keep the
   * listing order, and whatever happened to one file (a failure included)
   * the scan goes on with the next.
   */
  lemma ScanAppend(rs: RuleSet, failing: set<string>, folders: Folders, a: seq<Entry>, b: seq<Entry>)
    ensures var oa := Scan(rs, failing, folders, a);
      var ob := Scan(rs, failing, oa.folders, b);
      Scan(rs, failing, folders, a + b) == Outcome(oa.events + ob.events, ob.folders)
  {
    ReportedAppend(rs, failing, a, b);
    FoldersAppend(rs, failing, folders, a, b);
  }

  /**
   * A classified file whose move fails reports `FileError`, leaves its
   * folder's names as they were, and the scan carries on with the rest.
   */
  lemma FailedMoveContinues(rs: RuleSet, failing: set<string>, folders: Folders, e: Entry, rest: seq<Entry>)
    requires Classified(rs, e) && e.name in failing
    ensures var t := Classify(e.name, rs).value;
      var after := folders[t := Present(folders, t)];
      Scan(rs, failing, folders, [e] + rest) ==
        Outcome([FileError(e.name)] + Scan(rs, failing, after, rest).events, Scan(rs, failing, after, rest).folders)
  {
    var t := Classify(e.name, rs).value;
    assert [e][..0] == [] && [e][0] == e;
    assert Reported(rs, failing, [e]) == [FileError(e.name)];
    assert FoldersAfter(rs, failing, folders, [e]) == folders[t := Present(folders, t)];
    ScanAppend(rs, failing, folders, [e], rest);
  }

  /**
   * `ev` is what `organize_files` reports for entry `e`: a classified file,
   * `Moved` to the folder the rules chose when its move succeeds and
   * `FileError` when it fails.
   */
  predicate Reports(rs: RuleSet, failing: set<string>, e: Entry, ev: Event) {
    && Classified(rs, e)
    && (ev.Moved? || ev.FileError?)
    && ev.name == e.name
    && (ev.Moved? <==> e.name !in failing)
    && (ev.Moved? ==> Classify(e.name, rs) == Some(ev.folder))
  }

  /** `x` reports on some entry of `entries`. */
  predicate ReportedBy(rs: RuleSet, failing: set<string>, entries: seq<Entry>, x: Event) {
    exists i :: 0 <= i < |entries| && Reports(rs, failing, entries[i], x)
  }

  /** Every event of `ev` reports on one entry of `entries`. */
  predicate AllReport(rs: RuleSet, failing: set<string>, entries: seq<Entry>, ev: seq<Event>) {
    forall k :: 0 <= k < |ev| ==> ReportedBy(rs, failing, entries, ev[k])
  }

  lemma AllReportSnoc(rs: RuleSet, failing: set<string>, entries: seq<Entry>, ev: seq<Event>, e: Entry)
    requires AllReport(rs, failing, entries, ev)
    ensures AllReport(rs, failing, entries + [e], ev + EntryEvents(rs, failing, e))
  {
    var entries', extra := entries + [e], EntryEvents(rs, failing, e);
    var ev' := ev + extra;
    forall k | 0 <= k < |ev'|
      ensures ReportedBy(rs, failing, entries', ev'[k])
    {
      if k < |ev| {
        var i :| 0 <= i < |entries| && Reports(rs, failing, entries[i], ev[k]);
        assert entries'[i] == entries[i] && ev'[k] == ev[k];
      } else {
        assert ev'[k] == extra[0];
        assert entries'[|entries|] == e;
      }
    }
  }

  /** Every event of the scan reports on one file of the listing. */
  lemma {:induction false} ScanEvents(rs: RuleSet, failing: set<string>, folders: Folders, entries: seq<Entry>)
    ensures AllReport(rs, failing, entries, Scan(rs, failing, folders, entries).events)
    decreases |entries|
  {
    if entries != [] {
      var init := entries[..|entries| - 1];
      var e := entries[|entries| - 1];
      assert entries == init + [e];
      ScanSnoc(rs, failing, folders, init, e);
      ScanEvents(rs, failing, folders, init);
      AllReportSnoc(rs, failing, init, Scan(rs, failing, folders, init).events, e);
    }
  }

  lemma {:induction false} MovesIntoAppend(a: seq<Event>, b: seq<Event>, t: string)
    ensures MovesInto(a + b, t) == MovesInto(a, t) + MovesInto(b, t)
    decreases |b|
  {
    if b != [] {
      assert (a + b)[..|a + b| - 1] == a + b[..|b| - 1];
      MovesIntoAppend(a, b[..|b| - 1], t);
    } else {
      assert a + b == a;
    }
  }

  /** One entry keeps every name of folder `t` and adds one per file moved into it. */
  lemma EntryGrows(rs: RuleSet, failing: set<string>, folders: Folders, e: Entry, t: string)
    ensures var after := EntryFolders(rs, failing, folders, e);
      && Present(folders, t) <= Present(after, t)
      && |Present(after, t)| == |Present(folders, t)| + MovesInto(EntryEvents(rs, failing, e), t)
  {
    var extra := EntryEvents(rs, failing, e);
    if extra != [] {
      assert extra[..0] == [];
      var u := Classify(e.name, rs).value;
      if u == t && e.name !in failing {
        var present := Present(folders, t);
        assert FreeName(e.name, present) !in present;
      }
    }
  }

  /**
   * The scan never overwrites: every name a folder held is still there, and
   * each folder grows by exactly one new name per file moved into it.
   */
  lemma {:induction false} NeverOverwrites(rs: RuleSet, failing: set<string>, folders: Folders, entries: seq<Entry>, t: string)
    ensures var o := Scan(rs, failing, folders, entries);
      && Present(folders, t) <= Present(o.folders, t)
      && |Present(o.folders, t)| == |Present(folders, t)| + MovesInto(o.events, t)
    decreases |entries|
  {
    if entries != [] {
      var init := entries[..|entries| - 1];
      var e := entries[|entries| - 1];
      assert entries == init + [e];
      ScanSnoc(rs, failing, folders, init, e);
      NeverOverwrites(rs, failing, folders, init, t);
      var o := Scan(rs, failing, folders, init);
      EntryGrows(rs, failing, o.folders, e, t);
      MovesIntoAppend(o.events, EntryEvents(rs, failing, e), t);
    }
  }

  /** A listing of directories only leaves everything in place and reports no matches. */
  lemma {:induction false} OnlyDirectories(rs: RuleSet, failing: set<string>, folders: Folders, entries: seq<Entry>)
    requires forall i :: 0 <= i < |entries| ==> entries[i].isDir
    ensures Scan(rs, failing, folders, entries) == Outcome([], folders)
    ensures Organized(rs, Listed(entries), folders, failing) == Outcome([NoMatches], folders)
    decreases |entries|
  {
    if entries != [] {
      OnlyDirectories(rs, failing, folders, entries[..|entries| - 1]);
    }
  }

  /**
   * The shape of a run: a missing path reports `PathNotFound` alone and a
   * listing failure `SystemError` alone, touching nothing.  Otherwise the
   * per-file events come first and exactly one summary follows them:
   * `NoMatches` when no file was moved, else `Success` with the number of
   * files moved.
   */
  lemma RunShape(rs: RuleSet, listing: Listing, folders: Folders, failing: set<string>)
    ensures listing.Missing? ==> Organized(rs, listing, folders, failing) == Outcome([PathNotFound], folders)
    ensures listing.Unreadable? ==> Organized(rs, listing, folders, failing) == Outcome([SystemError], folders)
    ensures listing.Listed? ==>
      var ev := Organized(rs, listing, folders, failing).events;
      var n := MovableCount(rs, failing, listing.entries);
      && |ev| == ClassifiedCount(rs, listing.entries) + 1
      && (forall k :: 0 <= k < |ev| - 1 ==> ev[k].Moved? || ev[k].FileError?)
      && ev[|ev| - 1] == (if n == 0 then NoMatches else Success(n))
  {
    if listing.Listed? {
      ScanEvents(rs, failing, folders, listing.entries);
    }
  }
}
