/** One import job from archive to terminal row: the bounded archive walk and the status decision of
    internal/service/import_worker.go, feeding the ingest core of internal/service/import.go. Zip entries are
    given with what reading them yields; the outcome of storing the document of entry i is stored(i), and
    blank says which contents trim to nothing. */
module ImportWorker {
  import opened Wrappers
  import opened ImportQueue
  import Paths

  const MAX_DECOMPRESSED_BYTES := 16 * 32 * 1048576
  const MAX_IMPORT_ENTRIES := 10000

  type Bytes = seq<bv8>

  /** intact is false when reading past the end of data reports an error, such as a checksum mismatch. */
  datatype File = File(name: string, isDir: bool, opens: bool, data: Bytes, intact: bool)

  predicate HasSuffix(s: string, suffix: string) {
    |suffix| <= |s| && s[|s| - |suffix|..] == suffix
  }

  predicate Contains(s: string, sub: string) {
    exists i :: 0 <= i <= |s| && sub <= s[i..]
  }

  predicate Wanted(f: File) {
    !f.isDir && HasSuffix(f.name, ".md") && !Contains(f.name, "CLAUDE.md")
  }

  function Markdown(files: seq<File>): seq<File> {
    if files == [] then [] else Markdown(files[..|files| - 1]) + if Wanted(files[|files| - 1]) then [files[|files| - 1]] else []
  }

  lemma {:induction false} ContainsIff(s: string, sub: string)
    ensures Contains(s, sub) <==> exists a, b :: s == a + sub + b
  {
    if Contains(s, sub) {
      var i :| 0 <= i <= |s| && sub <= s[i..];
      assert s == s[..i] + sub + s[i..][|sub|..];
    }
    if a, b :| s == a + sub + b {
      assert s[|a|..] == sub + b;
    }
  }

  /** Only files whose name ends in ".md" and does not mention "CLAUDE.md" are imported. */
  lemma {:induction false} WantedIff(f: File)
    ensures Wanted(f) <==>
            && !f.isDir && |f.name| >= 3 && f.name[|f.name| - 3..] == ".md"
            && !exists a, b :: f.name == a + "CLAUDE.md" + b
  {
    ContainsIff(f.name, "CLAUDE.md");
  }

  /** ts are the positions of the wanted files among the first n, and picked those files. */
  ghost predicate Picks(files: seq<File>, n: nat, ts: seq<int>, picked: seq<File>) {
    && n <= |files| && |ts| == |picked|
    && (forall i, j :: 0 <= i < j < |ts| ==> ts[i] < ts[j])
    && (forall j :: 0 <= j < |ts| ==> 0 <= ts[j] < n && picked[j] == files[ts[j]] && Wanted(files[ts[j]]))
    && (forall t :: 0 <= t < n && Wanted(files[t]) ==> t in ts)
  }

  lemma {:induction false} PicksStep(files: seq<File>, n: nat, ts: seq<int>, picked: seq<File>)
    requires Picks(files, n, ts, picked) && n < |files|
    ensures if Wanted(files[n]) then Picks(files, n + 1, ts + [n], picked + [files[n]]) else Picks(files, n + 1, ts, picked)
  {
  }

  /** All of those are, in the order of the archive. */
  lemma {:induction false} MarkdownIs(files: seq<File>, n: nat) returns (ts: seq<int>)
    requires n <= |files|
    ensures Picks(files, n, ts, Markdown(files[..n]))
  {
    if n == 0 {
      ts := [];
    } else {
      var init := MarkdownIs(files, n - 1);
      assert files[..n][..n - 1] == files[..n - 1];
      PicksStep(files, n - 1, init, Markdown(files[..n - 1]));
      if Wanted(files[n - 1]) {
        ts := init + [n - 1];
      } else {
        ts := init;
      }
    }
  }

  // ----- the ingest core

  datatype Fate = Imported | Skipped | NotStored

  function ParseImportPath(path: string): Paths.DocPath {
    Paths.ParsePath(if HasSuffix(path, ".md") then path[..|path| - 3] else path)
  }

  function FateOf(path: string, stored: bool): Fate {
    var d := ParseImportPath(path);
    if d.category == "" || d.slug == "" || !Paths.ValidPath(d) then Skipped
    else if stored then Imported
    else NotStored
  }

  /** A document is skipped exactly when its path, less the suffix, is not one the write contract accepts. */
  lemma {:induction false} SkippedIff(path: string, stored: bool)
    ensures var d := Paths.ParsePath(if |path| >= 3 && path[|path| - 3..] == ".md" then path[..|path| - 3] else path);
            && (FateOf(path, stored) == Skipped <==> !Paths.ValidPath(d))
            && (FateOf(path, stored) == Imported ==> stored) && (FateOf(path, stored) == NotStored ==> !stored)
  {
  }

  /** So every path the store itself prints gets in. */
  lemma {:induction false} PrintedGetsIn(d: Paths.DocPath, stored: bool)
    requires Paths.ValidPath(d)
    ensures FateOf(Paths.BuildPath(d) + ".md", stored) == if stored then Imported else NotStored
  {
    var path := Paths.BuildPath(d) + ".md";
    Paths.ValidRoundTrips(d, d);
    assert path[|path| - 3..] == ".md" && path[..|path| - 3] == Paths.BuildPath(d);
  }

  /** Entries among the first n whose document met the given fate. */
  ghost function Tally(files: seq<File>, blank: Bytes -> bool, stored: nat -> bool, fate: Fate, n: nat): nat
    requires n <= |files|
  {
    if n == 0 then 0
    else Tally(files, blank, stored, fate, n - 1) +
         if !blank(files[n - 1].data) && FateOf(files[n - 1].name, stored(n - 1)) == fate then 1 else 0
  }

  ghost function Blanks(files: seq<File>, blank: Bytes -> bool, n: nat): nat
    requires n <= |files|
  {
    if n == 0 then 0 else Blanks(files, blank, n - 1) + if blank(files[n - 1].data) then 1 else 0
  }

  /** Every walked entry is counted exactly once or is blank. */
  lemma {:induction false} EveryEntryAccounted(files: seq<File>, blank: Bytes -> bool, stored: nat -> bool, n: nat)
    requires n <= |files|
    ensures Tally(files, blank, stored, Imported, n) + Tally(files, blank, stored, Skipped, n) +
            Tally(files, blank, stored, NotStored, n) + Blanks(files, blank, n) == n
  {
    if n > 0 {
      EveryEntryAccounted(files, blank, stored, n - 1);
    }
  }

  // ----- the walk

  /** Decompressed size of the first n entries. */
  ghost function Size(files: seq<File>, n: nat): nat
    requires n <= |files|
  {
    if n == 0 then 0 else Size(files, n - 1) + |files[n - 1].data|
  }

  /** The walk cannot get past entry k: it does not open, takes the archive over the budget, or ends in a
      read error. */
  ghost predicate Stops(files: seq<File>, max: nat, k: nat)
    requires k < |files|
  {
    !files[k].opens || Size(files, k) + |files[k].data| > max || !files[k].intact
  }

  /** What stops the walk at entry k, in the order in which the causes show. */
  ghost predicate IsStop(files: seq<File>, max: nat, k: nat, error: JobError) {
    && k < |files|
    && (if !files[k].opens then error == OpenEntry(files[k].name)
        else if Size(files, k + 1) > max then error == ArchiveTooBig(files[k].name)
        else !files[k].intact && error == ReadEntry(files[k].name))
  }

  /** What a reader limited to limit bytes returns; None on a read error, which only shows once the data
      has run out below the limit. */
  function ReadLimited(f: File, limit: nat): Option<Bytes> {
    if |f.data| >= limit then Some(f.data[..limit])
    else if f.intact then Some(f.data)
    else None
  }

  method ZipEntries(files: seq<File>) returns (entries: seq<File>)
    ensures entries == Markdown(files)
  {
    entries := [];
    for i := 0 to |files|
      invariant entries == Markdown(files[..i])
    {
      assert files[..i + 1][..i] == files[..i];
      if files[i].isDir || !HasSuffix(files[i].name, ".md") {
        continue;
      }
      if Contains(files[i].name, "CLAUDE.md") {
        continue;
      }
      entries := entries + [files[i]];
    }
    assert files[..|files|] == files;
  }

  class ImportResult {
    var imported: nat
    var skipped: nat
    var failed: nat

    constructor ()
      ensures imported == skipped == failed == 0
    {
      imported, skipped, failed := 0, 0, 0;
    }

    /** The callback that ImportDocuments hands to the walk. */
    method Emit(path: string, stored: bool)
      modifies this
      ensures imported == old(imported) + if FateOf(path, stored) == Imported then 1 else 0
      ensures skipped == old(skipped) + if FateOf(path, stored) == Skipped then 1 else 0
      ensures failed == old(failed) + if FateOf(path, stored) == NotStored then 1 else 0
    {
      var d := ParseImportPath(path);
      if d.category == "" || d.slug == "" {
        skipped := skipped + 1;
        return;
      }
      var err := Paths.ValidateDocumentPath(d);
      if err.Some? {
        skipped := skipped + 1;
        return;
      }
      if !stored {
        failed := failed + 1;
        return;
      }
      imported := imported + 1;
    }

    ghost predicate Counts(files: seq<File>, blank: Bytes -> bool, stored: nat -> bool, n: nat)
      requires n <= |files|
      reads this
    {
      && imported == Tally(files, blank, stored, Imported, n)
      && skipped == Tally(files, blank, stored, Skipped, n)
      && failed == Tally(files, blank, stored, NotStored, n)
    }

    /** Emits every entry that is not blank, up to the first one the walk cannot get past; buffers at most
        one byte more than the budget. */
    method Walk(entries: seq<File>, max: nat, blank: Bytes -> bool, stored: nat -> bool)
      returns (err: Option<JobError>, read: nat, ghost n: nat)
      requires imported == skipped == failed == 0
      modifies this
      ensures n <= |entries| && Counts(entries, blank, stored, n)
      ensures forall k :: 0 <= k < n ==> !Stops(entries, max, k)
      ensures err.None? <==> n == |entries|
      ensures err.Some? ==> IsStop(entries, max, n, err.value)
      ensures read <= max + 1
      ensures err.None? ==> read == Size(entries, n)
    {
      read, n := 0, 0;
      err := None;
      for i := 0 to |entries|
        invariant n == i && read == Size(entries, i) && read <= max && err == None
        invariant Counts(entries, blank, stored, i)
        invariant forall k :: 0 <= k < i ==> !Stops(entries, max, k)
      {
        var f := entries[i];
        if !f.opens {
          return Some(OpenEntry(f.name)), read, n;
        }
        var remaining := max - read;
        var content := ReadLimited(f, remaining + 1);
        if content.None? {
          return Some(ReadEntry(f.name)), read, n;
        }
        read := read + |content.value|;
        if read > max {
          return Some(ArchiveTooBig(f.name)), read, n;
        }
        n := n + 1;
        if blank(content.value) {
          continue;
        }
        Emit(f.name, stored(i));
      }
    }
  }

  // ----- the job

  datatype Verdict = Verdict(status: Status, error: JobError, counts: Counts)

  /** The walk gets past every entry. */
  ghost predicate Complete(entries: seq<File>, max: nat) {
    forall k :: 0 <= k < |entries| ==> !Stops(entries, max, k)
  }

  /** The outcome of a job whose archive opens: the walk gets as far as its first stop, or to the end, and what it met up
      to there is counted. */
  ghost predicate IsOutcome(entries: seq<File>, max: nat, blank: Bytes -> bool, stored: nat -> bool, v: Verdict) {
    exists n: nat :: StopsAfter(entries, max, blank, stored, v, n)
  }

  ghost predicate StopsAfter(entries: seq<File>, max: nat, blank: Bytes -> bool, stored: nat -> bool, v: Verdict, n: nat) {
    && n <= |entries| && (forall k :: 0 <= k < n ==> !Stops(entries, max, k))
    && v.counts == Counts(|entries|, Tally(entries, blank, stored, Imported, n), Tally(entries, blank, stored, Skipped, n),
                          Tally(entries, blank, stored, NotStored, n))
    && (if n < |entries| then v.status == Failed && IsStop(entries, max, n, v.error)
        else if v.counts.imported == 0 && v.counts.failed > 0 then v.status == Failed && v.error == AllFailed(v.counts.failed)
        else v.status == Succeeded && v.error == NoError)
  }

  /** The counters fit the total, a complete walk leaves exactly the blank entries uncounted, and the job succeeds exactly
      when the walk completes and it is not the case that documents failed and none was stored. */
  lemma {:induction false} OutcomeMeans(entries: seq<File>, max: nat, blank: Bytes -> bool, stored: nat -> bool, v: Verdict)
    requires IsOutcome(entries, max, blank, stored, v)
    ensures v.counts.total == |entries| && v.counts.imported + v.counts.skipped + v.counts.failed <= v.counts.total
    ensures v.status == Succeeded <==> Complete(entries, max) && (v.counts.imported > 0 || v.counts.failed == 0)
    ensures Complete(entries, max) ==>
              v.counts.total - v.counts.imported - v.counts.skipped - v.counts.failed == Blanks(entries, blank, |entries|)
  {
    var n: nat :| StopsAfter(entries, max, blank, stored, v, n);
    EveryEntryAccounted(entries, blank, stored, n);
    if n < |entries| {
      assert Stops(entries, max, n);
    }
  }

  lemma {:induction false} SizeGrows(entries: seq<File>, m: nat, n: nat)
    requires m <= n <= |entries|
    ensures Size(entries, m) <= Size(entries, n)
  {
    if m < n {
      SizeGrows(entries, m, n - 1);
    }
  }

  /** The incremental budget check amounts to one check of the whole archive. */
  lemma {:induction false} CompleteIff(entries: seq<File>, max: nat)
    ensures Complete(entries, max) <==>
            (forall k :: 0 <= k < |entries| ==> entries[k].opens && entries[k].intact) && Size(entries, |entries|) <= max
  {
    if Complete(entries, max) && entries != [] {
      assert !Stops(entries, max, |entries| - 1);
    }
    forall k | 0 <= k < |entries|
      ensures Size(entries, k) + |entries[k].data| <= Size(entries, |entries|)
    {
      SizeGrows(entries, k + 1, |entries|);
    }
    if Complete(entries, max) {
      forall k | 0 <= k < |entries|
        ensures entries[k].opens && entries[k].intact
      {
        assert !Stops(entries, max, k);
      }
    }
  }

  /** Runs one claimed job. An archive that does not open or has too many entries fails at once; any other is walked, and
      the verdict, the outcome of that walk, is written to the row if it is still running. */
  method Process(jobs: ImportJobs, j: JobId, archive: Option<seq<File>>, blank: Bytes -> bool, stored: nat -> bool,
                 now: int, later: int)
    returns (v: Option<Verdict>)
    modifies jobs
    ensures v.None? <==> archive.Some? && |Markdown(archive.value)| <= 10000 && !IsRunning(old(jobs.rows), j)
    ensures v.None? ==> jobs.rows == old(jobs.rows)
    ensures archive.None? ==>
              && v == Some(Verdict(Failed, OpenArchive, Counts(0, 0, 0, 0)))
              && jobs.rows == Ended(old(jobs.rows), j, Failed, OpenArchive, Counts(0, 0, 0, 0), later)
    ensures archive.Some? && |Markdown(archive.value)| > 10000 ==>
              var error := TooManyEntries(|Markdown(archive.value)|);
              && v == Some(Verdict(Failed, error, Counts(0, 0, 0, 0)))
              && jobs.rows == Ended(old(jobs.rows), j, Failed, error, Counts(0, 0, 0, 0), later)
    ensures v.Some? && archive.Some? && |Markdown(archive.value)| <= 10000 ==>
              && IsOutcome(Markdown(archive.value), 536870912, blank, stored, v.value)
              && var seeded := Progressed(old(jobs.rows), j, Counts(|Markdown(archive.value)|, 0, 0, 0), now);
                 jobs.rows == Ended(seeded, j, v.value.status, v.value.error, v.value.counts, later)
  {
    if archive.None? {
      v := Some(Verdict(Failed, OpenArchive, Counts(0, 0, 0, 0)));
      var _ := jobs.Finish(j, v.value.status, v.value.error, v.value.counts, later);
      return;
    }
    var entries := ZipEntries(archive.value);
    if |entries| > MAX_IMPORT_ENTRIES {
      v := Some(Verdict(Failed, TooManyEntries(|entries|), Counts(0, 0, 0, 0)));
      var _ := jobs.Finish(j, v.value.status, v.value.error, v.value.counts, later);
      return;
    }
    var seeded := jobs.UpdateProgress(j, Counts(|entries|, 0, 0, 0), now);
    if seeded.Some? {
      return None;
    }
    var res := new ImportResult();
    var err, _, n := res.Walk(entries, MAX_DECOMPRESSED_BYTES, blank, stored);
    var counts := Counts(|entries|, res.imported, res.skipped, res.failed);
    if err.Some? {
      v := Some(Verdict(Failed, err.value, counts));
    } else if res.imported == 0 && res.failed > 0 {
      v := Some(Verdict(Failed, AllFailed(res.failed), counts));
    } else {
      v := Some(Verdict(Succeeded, NoError, counts));
    }
    assert StopsAfter(entries, MAX_DECOMPRESSED_BYTES, blank, stored, v.value, n);
    var _ := jobs.Finish(j, v.value.status, v.value.error, v.value.counts, later);
  }
}
