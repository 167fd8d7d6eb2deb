/** `extract_zip_safely` of `backend/services/_zip_safety.py` on a tree-shaped file system.
    A location is the sequence of components of an absolute path; symbolic links are not
    modelled.  An archive is its name list and the bytes behind each name. */
module ZipExtract {
  import opened Text
  import opened PosixPath
  import opened ZipNames

  type Bytes = seq<bv8>
  type Location = seq<string>

  const STREAM_CHUNK_BYTES := 64 * 1024

  datatype Disk = Disk(files: map<Location, Bytes>, dirs: set<Location>) {
    /** A tree: every parent is a directory, and nothing is both a file and a directory. */
    ghost predicate Valid()
    {
      && [] in dirs && files.Keys !! dirs
      && (forall l :: l in files || l in dirs ==> Parent(l) in dirs)
    }
  }

  function Parent(l: Location): Location { if l == [] then [] else l[..|l| - 1] }

  /** All ancestors of a location, itself included. */
  function Ancestors(l: Location): set<Location> { set k: nat | k <= |l| :: l[..k] }

  /** `os.makedirs(l, exist_ok=True)` succeeds unless a file is in the way. */
  predicate CanMakeDirs(disk: Disk, l: Location) { Ancestors(l) !! disk.files.Keys }

  function WithDirs(disk: Disk, l: Location): Disk { disk.(dirs := disk.dirs + Ancestors(l)) }

  // ── what one entry asks for ────────────────────────────────────────────────

  datatype Job = Job(root: string, prefix: string, contents: map<string, Bytes>, isAlpha: char -> bool)

  datatype Refusal = UnsafeName(reason: Reason) | UnsafeSuffix(reason: Reason) | Escapes

  datatype Action = Skip | Refuse(refusal: Refusal) | MakeDir(l: Location) | WriteFile(l: Location)

  /** The decisions taken for one entry name before anything is touched on disk. */
  function Plan(job: Job, name: string): Action
  {
    if !(job.prefix <= name) then Skip
    else match NameVerdict(name, job.isAlpha)
      case Refused(reason) => Refuse(UnsafeName(reason))
      case Safe =>
        var suffix := name[|job.prefix|..];
        if suffix == "" then Skip
        else match NameVerdict(suffix, job.isAlpha)
          case Refused(reason) => Refuse(UnsafeSuffix(reason))
          case Safe =>
            var target := Target(job.root, suffix);
            if !InsideRoot(job.root, target) then Refuse(Escapes)
            else if name[|name| - 1] == '/' then MakeDir(Parts(target))
            else WriteFile(Parts(target))
  }

  /** An entry with the decision taken for it. */
  datatype Planned = Planned(name: string, action: Action)

  function PlanAll(job: Job, entries: seq<string>): seq<Planned>
  {
    seq(|entries|, i requires 0 <= i < |entries| => Planned(entries[i], Plan(job, entries[i])))
  }

  // ── whole runs, as a value ─────────────────────────────────────────────────

  datatype Stop = Going | UnsafeZipMember(refusal: Refusal) | MissingMember | OsError

  /** State of a run: the disk, files written, entries completely processed, why it stopped. */
  datatype Run = Run(disk: Disk, written: nat, processed: nat, stop: Stop)

  function Step(contents: map<string, Bytes>, r: Run, p: Planned): Run
  {
    if r.stop != Going then r
    else match p.action
      case Skip => r.(processed := r.processed + 1)
      case Refuse(refusal) => r.(stop := UnsafeZipMember(refusal))
      case MakeDir(l) =>
        if CanMakeDirs(r.disk, l) then r.(disk := WithDirs(r.disk, l), processed := r.processed + 1)
        else r.(stop := OsError)
      case WriteFile(l) =>
        if !CanMakeDirs(r.disk, Parent(l)) then r.(stop := OsError)
        else
          var made := WithDirs(r.disk, Parent(l));
          if p.name !in contents then r.(disk := made, stop := MissingMember)
          else if l in made.dirs then r.(disk := made, stop := OsError)
          else Run(made.(files := made.files[l := contents[p.name]]), r.written + 1, r.processed + 1, Going)
  }

  /** The run after a list of planned entries, starting from `disk`. */
  function After(contents: map<string, Bytes>, disk: Disk, plan: seq<Planned>): Run
  {
    if plan == [] then Run(disk, 0, 0, Going)
    else Step(contents, After(contents, disk, plan[..|plan| - 1]), plan[|plan| - 1])
  }

  /** Once stopped, later entries change nothing. */
  lemma {:induction false} StoppedStays(contents: map<string, Bytes>, disk: Disk, plan: seq<Planned>, k: nat)
    requires k <= |plan| && After(contents, disk, plan[..k]).stop != Going
    ensures After(contents, disk, plan) == After(contents, disk, plan[..k])
  {
    if k < |plan| {
      assert plan[..|plan| - 1][..k] == plan[..k];
      StoppedStays(contents, disk, plan[..|plan| - 1], k);
    } else {
      assert plan[..k] == plan;
    }
  }

  // ── containment, over every run ────────────────────────────────────────────

  predicate Below(root: string, l: Location) { Parts(root) <= l }

  /** Every location an entry may touch lies below the root. */
  lemma PlannedBelowRoot(job: Job, name: string)
    requires NormalRoot(job.root)
    ensures var a := Plan(job, name); (a.MakeDir? || a.WriteFile?) ==> Below(job.root, a.l)
  {
    if job.prefix <= name {
      var suffix := name[|job.prefix|..];
      if NameVerdict(suffix, job.isAlpha) == Safe { AcceptedTargetIsBelowRoot(job.root, suffix, job.isAlpha); }
    }
  }

  /** The second check on an accepted suffix, and where the entry goes. */
  lemma SuffixInside(job: Job, suffix: string)
    requires NormalRoot(job.root)
    ensures NameVerdict(suffix, job.isAlpha) == Safe ==>
              && (InsideRoot(job.root, Target(job.root, suffix)) <==> InitialSlashes(job.root) == 1)
              && Parts(Target(job.root, suffix)) == Parts(job.root) + Parts(suffix)
  {
    if NameVerdict(suffix, job.isAlpha) == Safe { AcceptedTargetIsBelowRoot(job.root, suffix, job.isAlpha); }
  }

  /** Under an ordinary root, an entry writes a file exactly when it is under the prefix, its full name
      and its suffix are safe text, and it does not end in a slash; the file stands at the root's
      components followed by the suffix's.  An unsafe name under the prefix is refused, and so is an
      unsafe suffix; the second check never refuses. */
  lemma PlanIff(job: Job, name: string)
    requires NormalRoot(job.root) && InitialSlashes(job.root) == 1
    ensures var suffix := if job.prefix <= name then name[|job.prefix|..] else "";
            var accepted := job.prefix <= name && SafeText(name, job.isAlpha) && SafeText(suffix, job.isAlpha);
            var l := Parts(job.root) + Parts(suffix);
            && (Plan(job, name).WriteFile? <==> accepted && name[|name| - 1] != '/')
            && (Plan(job, name).MakeDir? <==> accepted && name[|name| - 1] == '/')
            && (accepted ==> Plan(job, name).l == l)
            && (Plan(job, name).Skip? <==> !(job.prefix <= name) || (name == job.prefix && SafeText(name, job.isAlpha)))
            && (Plan(job, name).Refuse? && Plan(job, name).refusal.UnsafeName? <==> job.prefix <= name && !SafeText(name, job.isAlpha))
            && Plan(job, name) != Refuse(Escapes)
  {
    VerdictByPosition(name, job.isAlpha);
    if job.prefix <= name {
      var suffix := name[|job.prefix|..];
      assert name == job.prefix + suffix;
      VerdictByPosition(suffix, job.isAlpha);
      SuffixInside(job, suffix);
    }
  }

  /** Under a root with two leading slashes nothing is ever created: every entry the lexical check
      accepts is refused by the second one. */
  lemma DoubleSlashRootRefusesEverything(job: Job, name: string)
    requires NormalRoot(job.root) && InitialSlashes(job.root) == 2
    ensures Plan(job, name).Skip? || Plan(job, name).Refuse?
    ensures (job.prefix <= name && NameVerdict(name, job.isAlpha) == Safe && NameVerdict(name[|job.prefix|..], job.isAlpha) == Safe)
              ==> Plan(job, name) == Refuse(Escapes)
  {
    if job.prefix <= name {
      var suffix := name[|job.prefix|..];
      SuffixInside(job, suffix);
    }
  }

  lemma {:induction false} AncestorsAreDirs(dirs: set<Location>, l: Location, k: nat)
    requires (forall d :: d in dirs ==> Parent(d) in dirs) && l in dirs && k <= |l|
    ensures l[..k] in dirs
    decreases |l|
  {
    if k < |l| {
      AncestorsAreDirs(dirs, Parent(l), k);
      assert Parent(l)[..k] == l[..k];
    } else {
      assert l[..k] == l;
    }
  }

  /** A new directory is below the root, or an ancestor of a root that did not exist. */
  ghost predicate MayAppear(root: string, disk: Disk, l: Location)
  {
    Below(root, l) || (Parts(root) !in disk.dirs && l in Ancestors(Parts(root)))
  }

  lemma NewDirsBelow(root: string, disk: Disk, l: Location)
    requires disk.Valid() && Below(root, l)
    ensures forall d :: d in Ancestors(l) && d !in disk.dirs ==> MayAppear(root, disk, d)
    ensures Ancestors(Parent(l)) <= Ancestors(l)
  {
    var r := Parts(root);
    forall d | d in Ancestors(l) && d !in disk.dirs ensures MayAppear(root, disk, d) {
      var k: nat :| k <= |l| && d == l[..k];
      if k < |r| {
        assert d == r[..k];
        if r in disk.dirs { AncestorsAreDirs(disk.dirs, r, k); }
      }
    }
    forall d | d in Ancestors(Parent(l)) ensures d in Ancestors(l) {
      var k: nat :| k <= |Parent(l)| && d == Parent(l)[..k];
      assert d == l[..k];
    }
  }

  lemma WithDirsValid(disk: Disk, l: Location)
    requires disk.Valid() && CanMakeDirs(disk, l)
    ensures WithDirs(disk, l).Valid() && l in WithDirs(disk, l).dirs
  {
    assert l == l[..|l|];
    forall d | d in Ancestors(l) ensures Parent(d) in Ancestors(l) {
      var k: nat :| k <= |l| && d == l[..k];
      assert Parent(d) == l[..if k == 0 then 0 else k - 1];
    }
  }

  ghost predicate SameFile(a: Disk, b: Disk, l: Location)
  {
    (l in a.files <==> l in b.files) && (l in a.files ==> a.files[l] == b.files[l])
  }

  /** What every run keeps: the disk stays a tree, no directory vanishes, and outside the root
      no file changes and no directory appears (but for missing ancestors of the root). */
  ghost predicate Contained(root: string, before: Disk, after: Disk)
  {
    && after.Valid() && before.dirs <= after.dirs
    && (forall d :: d in after.dirs && d !in before.dirs ==> MayAppear(root, before, d))
    && (forall l :: !Below(root, l) ==> SameFile(before, after, l))
  }

  lemma WithDirsContained(root: string, before: Disk, after: Disk, l: Location, below: Location)
    requires Contained(root, before, after) && Below(root, below) && (l == below || l == Parent(below))
    requires CanMakeDirs(after, l)
    ensures Contained(root, before, WithDirs(after, l))
  {
    WithDirsValid(after, l);
    NewDirsBelow(root, after, below);
  }

  ghost predicate ActsBelow(root: string, a: Action)
  {
    (a.MakeDir? || a.WriteFile?) ==> Below(root, a.l)
  }

  lemma FileContained(root: string, before: Disk, after: Disk, l: Location, bytes: Bytes)
    requires Contained(root, before, after) && Below(root, l) && Parent(l) in after.dirs && l !in after.dirs
    ensures Contained(root, before, after.(files := after.files[l := bytes]))
  {
  }

  lemma StepContained(root: string, contents: map<string, Bytes>, before: Disk, r: Run, p: Planned)
    requires Contained(root, before, r.disk) && ActsBelow(root, p.action)
    ensures Contained(root, before, Step(contents, r, p).disk)
  {
    if r.stop == Going {
      match p.action {
        case Skip =>
        case Refuse(_) =>
        case MakeDir(l) =>
          if CanMakeDirs(r.disk, l) { WithDirsContained(root, before, r.disk, l, l); }
        case WriteFile(l) =>
          if CanMakeDirs(r.disk, Parent(l)) {
            WithDirsContained(root, before, r.disk, Parent(l), l);
            WithDirsValid(r.disk, Parent(l));
            var made := WithDirs(r.disk, Parent(l));
            if p.name in contents && l !in made.dirs { FileContained(root, before, made, l, contents[p.name]); }
          }
      }
    }
  }

  lemma {:induction false} PlannedRunContained(root: string, contents: map<string, Bytes>, disk: Disk, plan: seq<Planned>)
    requires disk.Valid() && forall i :: 0 <= i < |plan| ==> ActsBelow(root, plan[i].action)
    ensures Contained(root, disk, After(contents, disk, plan).disk)
  {
    if plan != [] {
      var init := plan[..|plan| - 1];
      PlannedRunContained(root, contents, disk, init);
      StepContained(root, contents, disk, After(contents, disk, init), plan[|plan| - 1]);
    }
  }

  /** Safety over whole runs, completed or stopped at any entry, for every archive, filter,
      prefix and starting disk. */
  lemma RunContained(job: Job, disk: Disk, entries: seq<string>)
    requires NormalRoot(job.root) && disk.Valid()
    ensures Contained(job.root, disk, After(job.contents, disk, PlanAll(job, entries)).disk)
  {
    forall i | 0 <= i < |entries| ensures ActsBelow(job.root, PlanAll(job, entries)[i].action) {
      PlannedBelowRoot(job, entries[i]);
    }
    PlannedRunContained(job.root, job.contents, disk, PlanAll(job, entries));
  }

  /** With an existing root nothing at all appears or changes outside it. */
  lemma NothingOutsideExistingRoot(job: Job, disk: Disk, entries: seq<string>, l: Location)
    requires NormalRoot(job.root) && disk.Valid() && Parts(job.root) in disk.dirs && !Below(job.root, l)
    ensures var after := After(job.contents, disk, PlanAll(job, entries)).disk;
            SameFile(disk, after, l) && (l in disk.dirs <==> l in after.dirs)
  {
    RunContained(job, disk, entries);
  }

  // ── contents, over every run ───────────────────────────────────────────────

  /** Entry `i` is the last of the first `n` entries that writes to `l`. */
  ghost predicate LastWriter(plan: seq<Planned>, n: nat, l: Location, i: nat)
  {
    && i < n <= |plan| && plan[i].action == WriteFile(l)
    && (forall j :: i < j < n ==> plan[j].action != WriteFile(l))
  }

  ghost predicate Unwritten(plan: seq<Planned>, n: nat, l: Location)
  {
    n <= |plan| && forall i :: 0 <= i < n ==> plan[i].action != WriteFile(l)
  }

  function CountWrites(plan: seq<Planned>): nat
  {
    if plan == [] then 0
    else CountWrites(plan[..|plan| - 1]) + if plan[|plan| - 1].action.WriteFile? then 1 else 0
  }

  /** How a run stands: it completed every entry or stopped at the first one it could not process; an
      entry it refused is the first refused one, and the count is that of the files written. */
  ghost predicate Progress(plan: seq<Planned>, r: Run)
  {
    && r.processed <= |plan|
    && (r.stop == Going <==> r.processed == |plan|)
    && (forall i :: 0 <= i < r.processed ==> !plan[i].action.Refuse?)
    && (r.stop != Going && plan[r.processed].action.Refuse? ==>
          r.stop == UnsafeZipMember(plan[r.processed].action.refusal))
    && (r.stop.UnsafeZipMember? ==> plan[r.processed].action == Refuse(r.stop.refusal))
    && r.written == CountWrites(plan[..r.processed])
  }

  lemma StepProgress(contents: map<string, Bytes>, init: seq<Planned>, last: Planned, r: Run)
    requires Progress(init, r)
    ensures Progress(init + [last], Step(contents, r, last))
  {
    var plan := init + [last];
    assert plan[..r.processed] == init[..r.processed];
    if r.stop == Going {
      assert init[..r.processed] == init;
      assert plan[..r.processed + 1] == plan && plan[..|plan| - 1] == init;
    }
  }

  lemma {:induction false} RunProgress(contents: map<string, Bytes>, disk: Disk, plan: seq<Planned>)
    ensures Progress(plan, After(contents, disk, plan))
  {
    if plan != [] {
      var init := plan[..|plan| - 1];
      RunProgress(contents, disk, init);
      StepProgress(contents, init, plan[|plan| - 1], After(contents, disk, init));
      assert plan == init + [plan[|plan| - 1]];
    }
  }

  /** The effect of one entry on one location. */
  lemma StepFile(contents: map<string, Bytes>, r: Run, p: Planned, l: Location)
    ensures var r' := Step(contents, r, p);
            if r'.stop == Going && p.action == WriteFile(l)
            then p.name in contents && l in r'.disk.files && r'.disk.files[l] == contents[p.name]
            else SameFile(r.disk, r'.disk, l)
    ensures var r' := Step(contents, r, p);
            r'.processed == if r.stop == Going && r'.stop == Going then r.processed + 1 else r.processed
    ensures Step(contents, r, p).stop == Going ==> r.stop == Going
  {
  }

  lemma WritersOfInit(plan: seq<Planned>, n: nat, n': nat, l: Location)
    requires n < |plan| && (n' == n || (n' == n + 1 == |plan| && plan[n].action != WriteFile(l)))
    ensures forall i: nat :: LastWriter(plan, n', l, i) ==> LastWriter(plan[..|plan| - 1], n, l, i)
    ensures Unwritten(plan, n', l) ==> Unwritten(plan[..|plan| - 1], n, l)
  {
  }

  /** Exactness: before the abort point the last entry for a location decides its bytes, and every
      location no processed entry writes keeps what it had. */
  ghost predicate FileExact(contents: map<string, Bytes>, before: Disk, plan: seq<Planned>, r: Run, l: Location)
  {
    && (forall i: nat :: LastWriter(plan, r.processed, l, i) ==>
          plan[i].name in contents && l in r.disk.files && r.disk.files[l] == contents[plan[i].name])
    && (Unwritten(plan, r.processed, l) ==> SameFile(before, r.disk, l))
  }

  /** One more entry, given what it did to the location. */
  lemma ExactCarries(contents: map<string, Bytes>, before: Disk, plan: seq<Planned>, r: Run, r': Run, l: Location)
    requires plan != [] && r.processed < |plan| && (r'.stop == Going ==> r.processed == |plan| - 1)
    requires FileExact(contents, before, plan[..|plan| - 1], r, l)
    requires r'.processed == if r'.stop == Going then r.processed + 1 else r.processed
    requires var last := plan[|plan| - 1];
             if r'.stop == Going && last.action == WriteFile(l)
             then last.name in contents && l in r'.disk.files && r'.disk.files[l] == contents[last.name]
             else SameFile(r.disk, r'.disk, l)
    ensures FileExact(contents, before, plan, r', l)
  {
    if r'.stop != Going || plan[|plan| - 1].action != WriteFile(l) {
      WritersOfInit(plan, r.processed, r'.processed, l);
    }
  }

  lemma {:induction false} RunFiles(contents: map<string, Bytes>, disk: Disk, plan: seq<Planned>, l: Location)
    ensures FileExact(contents, disk, plan, After(contents, disk, plan), l)
  {
    if plan != [] {
      var init := plan[..|plan| - 1];
      RunProgress(contents, disk, init);
      RunFiles(contents, disk, init, l);
      StepFile(contents, After(contents, disk, init), plan[|plan| - 1], l);
      ExactCarries(contents, disk, plan, After(contents, disk, init), After(contents, disk, plan), l);
    }
  }

  // ── the extraction itself, on a mutable file system ────────────────────────

  class FileSystem {
    var disk: Disk

    /** `os.makedirs(..., exist_ok=True)`; false where it raises. */
    method MakeDirs(l: Location) returns (ok: bool)
      modifies this
      ensures ok == CanMakeDirs(old(disk), l)
      ensures disk == if ok then WithDirs(old(disk), l) else old(disk)
    {
      ok := CanMakeDirs(disk, l);
      if ok { disk := WithDirs(disk, l); }
    }

    /** The streaming copy: open (truncating) for writing, then append chunks until a read gives none. */
    method CopyStream(l: Location, src: Bytes)
      requires l !in disk.dirs
      modifies this
      ensures disk == old(disk).(files := old(disk).files[l := src])
    {
      disk := disk.(files := disk.files[l := []]);
      var position := 0;
      while true
        invariant 0 <= position <= |src|
        invariant disk == old(disk).(files := old(disk).files[l := src[..position]])
        decreases |src| - position
      {
        var end := if position + STREAM_CHUNK_BYTES <= |src| then position + STREAM_CHUNK_BYTES else |src|;
        var chunk := src[position..end];
        if chunk == [] { break; }
        assert src[..position] + chunk == src[..end];
        disk := disk.(files := disk.files[l := disk.files[l] + chunk]);
        position := end;
      }
      assert src[..position] == src;
    }
  }

  datatype Result = Written(count: nat) | Raised(stop: Stop)

  /** Carries out the decision for one entry. */
  method ProcessEntry(fs: FileSystem, contents: map<string, Bytes>, p: Planned, ghost r: Run) returns (wrote: nat, stop: Stop)
    requires r.stop == Going && r.disk == fs.disk
    modifies fs
    ensures Step(contents, r, p) ==
            Run(fs.disk, r.written + wrote, if stop == Going then r.processed + 1 else r.processed, stop)
  {
    wrote, stop := 0, Going;
    match p.action {
      case Skip =>
      case Refuse(refusal) => stop := UnsafeZipMember(refusal);
      case MakeDir(l) =>
        var ok := fs.MakeDirs(l);
        if !ok { stop := OsError; }
      case WriteFile(l) =>
        var ok := fs.MakeDirs(Parent(l));
        if !ok { stop := OsError; }
        else if p.name !in contents { stop := MissingMember; }
        else if l in fs.disk.dirs { stop := OsError; }
        else {
          fs.CopyStream(l, contents[p.name]);
          wrote := 1;
        }
    }
  }

  lemma AfterOneMore(contents: map<string, Bytes>, disk: Disk, plan: seq<Planned>, i: nat)
    requires i < |plan|
    ensures After(contents, disk, plan[..i + 1]) == Step(contents, After(contents, disk, plan[..i]), plan[i])
  {
    assert plan[..i + 1][..i] == plan[..i];
  }

  /** The loop over the entries. */
  method ProcessEntries(fs: FileSystem, job: Job, entries: seq<string>) returns (filesWritten: nat, stop: Stop)
    modifies fs
    ensures var run := After(job.contents, old(fs.disk), PlanAll(job, entries));
            fs.disk == run.disk && filesWritten == run.written && stop == run.stop
  {
    ghost var plan := PlanAll(job, entries);
    ghost var start := fs.disk;
    filesWritten, stop := 0, Going;
    for i := 0 to |entries|
      invariant stop == Going && After(job.contents, start, plan[..i]) == Run(fs.disk, filesWritten, i, Going)
    {
      ghost var r := After(job.contents, start, plan[..i]);
      var wrote;
      wrote, stop := ProcessEntry(fs, job.contents, Planned(entries[i], Plan(job, entries[i])), r);
      AfterOneMore(job.contents, start, plan, i);
      filesWritten := filesWritten + wrote;
      if stop != Going {
        StoppedStays(job.contents, start, plan, i + 1);
        return;
      }
    }
    assert plan[..|entries|] == plan;
  }

  /** `extract_zip_safely`.  The contract ties the disk and the result to `After`, and states what
      the lemmas above prove of it: containment, exact contents, and the count. */
  method ExtractZipSafely(fs: FileSystem, job: Job, namelist: seq<string>, nameFilter: Option<seq<string>>)
    returns (result: Result)
    requires NormalRoot(job.root) && fs.disk.Valid()
    modifies fs
    ensures var plan := PlanAll(job, if nameFilter.Some? then nameFilter.value else namelist);
            var run := After(job.contents, old(fs.disk), plan);
            && fs.disk == run.disk
            && result == (if run.stop == Going then Written(CountWrites(plan)) else Raised(run.stop))
            && (forall l: Location :: FileExact(job.contents, old(fs.disk), plan, run, l))
    ensures Contained(job.root, old(fs.disk), fs.disk)
  {
    var entries := if nameFilter.Some? then nameFilter.value else namelist;
    ghost var plan := PlanAll(job, entries);
    RunContained(job, fs.disk, entries);
    RunProgress(job.contents, fs.disk, plan);
    forall l: Location ensures FileExact(job.contents, fs.disk, plan, After(job.contents, fs.disk, plan), l) {
      RunFiles(job.contents, fs.disk, plan, l);
    }
    var filesWritten, stop := ProcessEntries(fs, job, entries);
    assert plan[..|plan|] == plan;
    result := if stop == Going then Written(filesWritten) else Raised(stop);
  }
}
