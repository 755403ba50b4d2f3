/**
  The image optimizer (internal/infrastructure/imageopt/optimizer.go): one pass over the image files
  of a tree, with a manifest of fingerprints that lets the next pass skip what has not changed.
 */
module ImageOptimizer {
  import opened Wrappers

  type Path = string
  newtype byte = b: int | 0 <= b < 256
  type Bytes = seq<byte>
  type Disk = map<Path, Bytes>

  datatype Fingerprint = Fingerprint(size: nat, sha256: string)
  type Manifest = map<Path, Fingerprint>

  datatype Mode = Off | Changed | All

  /**
    The surroundings of a pass.  `encode` decodes an image and encodes it again, or fails; `hasInfo`,
    `readable` and `writable` say for which files the operating system plays along.
   */
  datatype Env = Env(
    sha: Bytes -> string, encode: (Path, Bytes) -> Option<Bytes>,
    hasInfo: Path -> bool, readable: Path -> bool, writable: Path -> bool)

  datatype Status = Optimized | Skipped | Failed

  datatype FileResult = FileResult(path: Path, status: Status, bytesBefore: nat, bytesAfter: nat)

  datatype Totals = Totals(
    scanned: nat, optimized: nat, skipped: nat, failed: nat, bytesBefore: nat, bytesAfter: nat,
    files: seq<FileResult>)

  const NOTHING := Totals(0, 0, 0, 0, 0, 0, [])

  /** The state of a pass: the disk, the new manifest entries, the totals, and the images written. */
  datatype Pass = Pass(disk: Disk, entries: Manifest, totals: Totals, written: seq<Path>)

  function FingerprintOf(env: Env, content: Bytes): Fingerprint {
    Fingerprint(|content|, env.sha(content))
  }

  predicate CanRead(env: Env, disk: Disk, p: Path) {
    env.hasInfo(p) && env.readable(p) && p in disk
  }

  function Add(t: Totals, r: FileResult): Totals {
    var t := t.(bytesBefore := t.bytesBefore + r.bytesBefore, bytesAfter := t.bytesAfter + r.bytesAfter,
                files := t.files + [r]);
    match r.status
    case Optimized => t.(optimized := t.optimized + 1)
    case Skipped => t.(skipped := t.skipped + 1)
    case Failed => t.(failed := t.failed + 1)
  }

  function Scan(t: Totals): Totals {
    t.(scanned := t.scanned + 1)
  }

  /** What a pass does with one image file. */
  function Visit(env: Env, mode: Mode, manifest: Manifest, st: Pass, p: Path): Pass {
    if !env.hasInfo(p) then st.(totals := Add(st.totals, FileResult(p, Failed, 0, 0)))
    else if !CanRead(env, st.disk, p) then st.(totals := Add(Scan(st.totals), FileResult(p, Failed, 0, 0)))
    else
      var original := st.disk[p];
      var n, fp, totals := |original|, FingerprintOf(env, original), Scan(st.totals);
      if mode == Changed && p in manifest && manifest[p] == fp then
        st.(totals := Add(totals, FileResult(p, Skipped, n, n)), entries := st.entries[p := fp])
      else
        match env.encode(p, original)
        case None => st.(totals := Add(totals, FileResult(p, Failed, n, n)), entries := st.entries[p := fp])
        case Some(image) =>
          if |image| >= n then
            st.(totals := Add(totals, FileResult(p, Skipped, n, n)), entries := st.entries[p := fp])
          else if !env.writable(p) then
            st.(totals := Add(totals, FileResult(p, Failed, n, n)), entries := st.entries[p := fp])
          else
            Pass(st.disk[p := image], st.entries[p := FingerprintOf(env, image)],
                 Add(totals, FileResult(p, Optimized, n, |image|)), st.written + [p])
  }

  function Visits(env: Env, mode: Mode, manifest: Manifest, disk: Disk, files: seq<Path>): Pass {
    if files == [] then Pass(disk, map[], NOTHING, [])
    else Visit(env, mode, manifest, Visits(env, mode, manifest, disk, files[..|files| - 1]), files[|files| - 1])
  }

  /** How a pass ends: `manifest` is what is stored afterwards. */
  datatype Outcome = TurnedOff | ManifestUnreadable | Interrupted(totals: Totals) | Done(totals: Totals)

  /** The tree of files, its manifest (None if it cannot be read) and the log of images written. */
  class FileTree {
    var disk: Disk
    var manifest: Option<Manifest>
    var written: seq<Path>

    constructor (disk: Disk, manifest: Option<Manifest>)
      ensures this.disk == disk && this.manifest == manifest && written == []
    {
      this.disk, this.manifest, this.written := disk, manifest, [];
    }

    /** The body of the walk: what happens to one image file. */
    method VisitFile(env: Env, mode: Mode, previous: Manifest, p: Path, entries: Manifest, totals: Totals)
      returns (entries': Manifest, totals': Totals)
      modifies `disk, `written
      ensures Pass(disk, entries', totals', written)
           == Visit(env, mode, previous, Pass(old(disk), entries, totals, old(written)), p)
    {
      entries', totals' := entries, totals;
      if !env.hasInfo(p) {
        totals' := Add(totals', FileResult(p, Failed, 0, 0));
        return;
      }
      totals' := Scan(totals');
      if !env.readable(p) || p !in disk {
        totals' := Add(totals', FileResult(p, Failed, 0, 0));
        return;
      }
      var originalBytes := disk[p];
      var fingerprint := FingerprintOf(env, originalBytes);
      if mode == Changed {
        if p in previous && previous[p].size == fingerprint.size && previous[p].sha256 == fingerprint.sha256 {
          totals' := Add(totals', FileResult(p, Skipped, |originalBytes|, |originalBytes|));
          entries' := entries'[p := fingerprint];
          return;
        }
      }
      var optimizedBytes := env.encode(p, originalBytes);
      if optimizedBytes.None? {
        totals' := Add(totals', FileResult(p, Failed, |originalBytes|, |originalBytes|));
        entries' := entries'[p := fingerprint];
        return;
      }
      if |optimizedBytes.value| < |originalBytes| {
        if !env.writable(p) {
          totals' := Add(totals', FileResult(p, Failed, |originalBytes|, |originalBytes|));
          entries' := entries'[p := fingerprint];
          return;
        }
        disk := disk[p := optimizedBytes.value];
        written := written + [p];
        totals' := Add(totals', FileResult(p, Optimized, |originalBytes|, |optimizedBytes.value|));
        entries' := entries'[p := FingerprintOf(env, optimizedBytes.value)];
        return;
      }
      totals' := Add(totals', FileResult(p, Skipped, |originalBytes|, |originalBytes|));
      entries' := entries'[p := fingerprint];
    }

    /** `files` are the image files in the order of the walk, which stops after `stopAt` of them if it is cancelled. */
    method Optimize(env: Env, mode: Mode, files: seq<Path>, stopAt: Option<nat>) returns (r: Outcome)
      requires stopAt.Some? ==> stopAt.value < |files|
      modifies this
      ensures r.TurnedOff? <==> mode == Off
      ensures r.ManifestUnreadable? <==> mode == Changed && old(manifest).None?
      ensures r.Interrupted? <==> mode != Off && !(mode == Changed && old(manifest).None?) && stopAt.Some?
      ensures r.TurnedOff? || r.ManifestUnreadable? ==>
                disk == old(disk) && written == old(written) && manifest == old(manifest)
      ensures r.Interrupted? || r.Done? ==>
                var seen := if stopAt.Some? then files[..stopAt.value] else files;
                var pass := Visits(env, mode, if mode == Changed then old(manifest).value else map[], old(disk), seen);
                && disk == pass.disk && written == old(written) + pass.written && r.totals == pass.totals
                && manifest == if mode == Changed && r.Done? then Some(pass.entries) else old(manifest)
    {
      if mode == Off {
        return TurnedOff;
      }
      var known: Manifest := map[];
      if mode == Changed {
        if manifest.None? {
          return ManifestUnreadable;
        }
        known := manifest.value;
      }
      var newEntries, totals := Walk(env, mode, known, files, stopAt);
      if stopAt.Some? {
        return Interrupted(totals);
      }
      if mode == Changed {
        manifest := Some(newEntries);
      }
      return Done(totals);
    }

    /** The walk over the files, up to where it is cancelled. */
    method Walk(env: Env, mode: Mode, known: Manifest, files: seq<Path>, stopAt: Option<nat>)
      returns (newEntries: Manifest, totals: Totals)
      requires stopAt.Some? ==> stopAt.value < |files|
      modifies `disk, `written
      ensures var seen := if stopAt.Some? then files[..stopAt.value] else files;
              var pass := Visits(env, mode, known, old(disk), seen);
              Pass(disk, newEntries, totals, written) == pass.(written := old(written) + pass.written)
    {
      newEntries, totals := map[], NOTHING;
      for i := 0 to |files|
        invariant stopAt.Some? ==> i <= stopAt.value
        invariant var pass := Visits(env, mode, known, old(disk), files[..i]);
                  Pass(disk, newEntries, totals, written) == pass.(written := old(written) + pass.written)
      {
        if stopAt == Some(i) {
          return newEntries, totals;
        }
        VisitNext(env, mode, known, old(disk), files, i, old(written));
        newEntries, totals := VisitFile(env, mode, known, files[i], newEntries, totals);
      }
      assert files[..|files|] == files;
    }
  }

  lemma VisitNext(env: Env, mode: Mode, known: Manifest, disk: Disk, files: seq<Path>, i: nat, earlier: seq<Path>)
    requires i < |files|
    ensures var before := Visits(env, mode, known, disk, files[..i]);
            var after := Visits(env, mode, known, disk, files[..i + 1]);
            Visit(env, mode, known, before.(written := earlier + before.written), files[i])
            == after.(written := earlier + after.written)
  {
    assert files[..i + 1][..i] == files[..i];
    VisitLog(env, mode, known, Visits(env, mode, known, disk, files[..i]), files[i], earlier);
  }

  /** The log only grows at its end. */
  lemma VisitLog(env: Env, mode: Mode, manifest: Manifest, st: Pass, p: Path, earlier: seq<Path>)
    ensures Visit(env, mode, manifest, st.(written := earlier + st.written), p) ==
              var r := Visit(env, mode, manifest, st, p); r.(written := earlier + r.written)
  {
    assert (earlier + st.written) + [p] == earlier + (st.written + [p]);
  }

  // ---- Accounting ----

  predicate NoDuplicates(files: seq<Path>) {
    forall i, j :: 0 <= i < j < |files| ==> files[i] != files[j]
  }

  function CountOf(rs: seq<FileResult>, s: Status): nat {
    if rs == [] then 0
    else CountOf(rs[..|rs| - 1], s) + if rs[|rs| - 1].status == s then 1 else 0
  }

  /** The bytes on disk of those of the files that the pass can read. */
  function SizeOf(env: Env, disk: Disk, files: seq<Path>): nat {
    if files == [] then 0
    else
      var p := files[|files| - 1];
      SizeOf(env, disk, files[..|files| - 1]) + if CanRead(env, disk, p) then |disk[p]| else 0
  }

  lemma {:induction false} SizeFrame(env: Env, disk: Disk, disk': Disk, files: seq<Path>)
    requires forall p :: p in files ==> (p in disk <==> p in disk') && (p in disk ==> disk[p] == disk'[p])
    ensures SizeOf(env, disk, files) == SizeOf(env, disk', files)
  {
    if files != [] {
      SizeFrame(env, disk, disk', files[..|files| - 1]);
    }
  }

  lemma VisitTouches(env: Env, mode: Mode, manifest: Manifest, st: Pass, p: Path)
    ensures var r := Visit(env, mode, manifest, st, p);
            && (forall q :: q in r.disk <==> q in st.disk)
            && (forall q :: q in st.disk && q != p ==> r.disk[q] == st.disk[q])
            && (p in st.disk ==> |r.disk[p]| <= |st.disk[p]|)
            && (forall q :: q != p ==> (q in r.entries <==> q in st.entries))
            && (forall q :: q != p && q in st.entries ==> r.entries[q] == st.entries[q])
  {
  }

  /** A pass touches no file but those it is given, and makes none longer. */
  lemma {:induction false} PassTouches(env: Env, mode: Mode, manifest: Manifest, disk: Disk, files: seq<Path>, q: Path)
    ensures var r := Visits(env, mode, manifest, disk, files);
            && (q in r.disk <==> q in disk)
            && (q in disk ==> |r.disk[q]| <= |disk[q]|)
            && (q in disk && q !in files ==> r.disk[q] == disk[q])
            && (q !in files ==> q !in r.entries)
  {
    if files != [] {
      var before := files[..|files| - 1];
      PassTouches(env, mode, manifest, disk, before, q);
      VisitTouches(env, mode, manifest, Visits(env, mode, manifest, disk, before), files[|files| - 1]);
      assert files == before + [files[|files| - 1]];
    }
  }

  /** A visit adds one result, and counts it. */
  predicate AddsOne(t: Totals, t': Totals, s: Status) {
    && |t'.files| == |t.files| + 1 && t'.files[..|t.files|] == t.files && t'.files[|t.files|].status == s
    && t'.optimized == t.optimized + (if s.Optimized? then 1 else 0)
    && t'.skipped == t.skipped + (if s.Skipped? then 1 else 0)
    && t'.failed == t.failed + (if s.Failed? then 1 else 0)
  }

  lemma AddAddsOne(t: Totals, r: FileResult)
    ensures AddsOne(t, Add(t, r), r.status) && AddsOne(t, Add(Scan(t), r), r.status)
  {
  }

  lemma VisitCounts(env: Env, mode: Mode, manifest: Manifest, st: Pass, p: Path) returns (r: FileResult)
    ensures var st' := Visit(env, mode, manifest, st, p);
            && (st'.totals == Add(st.totals, r) || st'.totals == Add(Scan(st.totals), r))
            && |st'.written| == |st.written| + if r.status.Optimized? then 1 else 0
  {
    var files := Visit(env, mode, manifest, st, p).totals.files;
    r := files[|files| - 1];
  }

  lemma VisitBytes(env: Env, mode: Mode, manifest: Manifest, st: Pass, p: Path)
    ensures var r := Visit(env, mode, manifest, st, p);
            && r.totals.bytesBefore == st.totals.bytesBefore + (if CanRead(env, st.disk, p) then |st.disk[p]| else 0)
            && r.totals.bytesAfter == st.totals.bytesAfter + (if CanRead(env, r.disk, p) then |r.disk[p]| else 0)
            && r.totals.bytesAfter - st.totals.bytesAfter <= r.totals.bytesBefore - st.totals.bytesBefore
  {
  }

  predicate Counted(r: Pass) {
    && |r.totals.files| == r.totals.optimized + r.totals.skipped + r.totals.failed
    && r.totals.optimized == CountOf(r.totals.files, Optimized) == |r.written|
    && r.totals.skipped == CountOf(r.totals.files, Skipped)
    && r.totals.failed == CountOf(r.totals.files, Failed)
  }

  lemma OneMoreCounted(env: Env, mode: Mode, manifest: Manifest, st: Pass, p: Path)
    requires Counted(st)
    ensures var r := Visit(env, mode, manifest, st, p); Counted(r) && |r.totals.files| == |st.totals.files| + 1
  {
    var added := VisitCounts(env, mode, manifest, st, p);
    AddAddsOne(st.totals, added);
    CountOneMore(st.totals, Visit(env, mode, manifest, st, p).totals, added.status);
  }

  lemma CountOneMore(t: Totals, t': Totals, s: Status)
    requires AddsOne(t, t', s)
    ensures forall x :: CountOf(t'.files, x) == CountOf(t.files, x) + if s == x then 1 else 0
  {
  }

  /** The totals of a pass: every file has one result, and the counters count the results. */
  lemma {:induction false} CountsAddUp(env: Env, mode: Mode, manifest: Manifest, disk: Disk, files: seq<Path>)
    ensures var r := Visits(env, mode, manifest, disk, files);
            |r.totals.files| == |files| && Counted(r)
  {
    if files != [] {
      var before, p := files[..|files| - 1], files[|files| - 1];
      CountsAddUp(env, mode, manifest, disk, before);
      OneMoreCounted(env, mode, manifest, Visits(env, mode, manifest, disk, before), p);
    }
  }

  /**
    The bytes before and after are the sizes on disk, before and after the pass, of the files that could
    be read; so the pass never makes the tree larger.
   */
  lemma {:induction false} BytesAddUp(env: Env, mode: Mode, manifest: Manifest, disk: Disk, files: seq<Path>)
    requires NoDuplicates(files)
    ensures var r := Visits(env, mode, manifest, disk, files);
            && r.totals.bytesBefore == SizeOf(env, disk, files)
            && r.totals.bytesAfter == SizeOf(env, r.disk, files)
            && r.totals.bytesAfter <= r.totals.bytesBefore
  {
    if files != [] {
      var before, p := files[..|files| - 1], files[|files| - 1];
      BytesAddUp(env, mode, manifest, disk, before);
      var st, r := Visits(env, mode, manifest, disk, before), Visits(env, mode, manifest, disk, files);
      assert p !in before;
      PassTouches(env, mode, manifest, disk, before, p);
      VisitTouches(env, mode, manifest, st, p);
      SizeFrame(env, st.disk, r.disk, before);
      VisitBytes(env, mode, manifest, st, p);
    }
  }

  // ---- What becomes of each file ----

  /** The manifest has the file as it is, and a pass over changed files leaves it out. */
  predicate IsKnown(env: Env, mode: Mode, manifest: Manifest, p: Path, content: Bytes) {
    mode == Changed && p in manifest && manifest[p].size == |content| && manifest[p].sha256 == env.sha(content)
  }

  /** The file has a shorter encoding that may be written. */
  predicate Shrinks(env: Env, mode: Mode, manifest: Manifest, disk: Disk, p: Path) {
    && env.hasInfo(p) && env.readable(p) && p in disk && !IsKnown(env, mode, manifest, p, disk[p])
    && env.encode(p, disk[p]).Some? && |env.encode(p, disk[p]).value| < |disk[p]| && env.writable(p)
  }

  /** The result of a file that is left as it is: it cannot be read, need not be encoded, or cannot be shortened. */
  function ResultLeft(env: Env, mode: Mode, manifest: Manifest, disk: Disk, p: Path): FileResult {
    if !env.hasInfo(p) || !env.readable(p) || p !in disk then FileResult(p, Failed, 0, 0)
    else
      var n := |disk[p]|;
      if IsKnown(env, mode, manifest, p, disk[p]) then FileResult(p, Skipped, n, n)
      else if env.encode(p, disk[p]).None? then FileResult(p, Failed, n, n)
      else if |env.encode(p, disk[p]).value| < n then FileResult(p, Failed, n, n)
      else FileResult(p, Skipped, n, n)
  }

  /** What has become of the file: the shorter encoding is on disk, or the file is as it was. */
  predicate HasBecome(env: Env, mode: Mode, manifest: Manifest, disk: Disk, p: Path, res: FileResult, r: Pass) {
    if Shrinks(env, mode, manifest, disk, p) then
      var image := env.encode(p, disk[p]).value;
      && res == FileResult(p, Optimized, |disk[p]|, |image|)
      && p in r.disk && r.disk[p] == image && p in r.written
    else
      && res == ResultLeft(env, mode, manifest, disk, p)
      && (p in disk ==> p in r.disk && r.disk[p] == disk[p]) && p !in r.written
  }

  lemma VisitLogs(env: Env, mode: Mode, manifest: Manifest, st: Pass, p: Path)
    ensures var r := Visit(env, mode, manifest, st, p);
            && |r.totals.files| == |st.totals.files| + 1 && r.totals.files[..|st.totals.files|] == st.totals.files
            && (r.written == st.written || r.written == st.written + [p])
  {
  }

  lemma VisitBecomes(env: Env, mode: Mode, manifest: Manifest, disk: Disk, st: Pass, p: Path)
    requires (p in st.disk <==> p in disk) && (p in disk ==> st.disk[p] == disk[p]) && p !in st.written
    ensures var r := Visit(env, mode, manifest, st, p);
            r.totals.files != [] && HasBecome(env, mode, manifest, disk, p, r.totals.files[|r.totals.files| - 1], r)
  {
    if Shrinks(env, mode, manifest, disk, p) {
      VisitShrinks(env, mode, manifest, st, p);
    } else {
      VisitLeaves(env, mode, manifest, st, p);
    }
  }

  lemma VisitShrinks(env: Env, mode: Mode, manifest: Manifest, st: Pass, p: Path)
    requires Shrinks(env, mode, manifest, st.disk, p)
    ensures var r, image := Visit(env, mode, manifest, st, p), env.encode(p, st.disk[p]).value;
            && r.disk == st.disk[p := image] && r.written == st.written + [p]
            && r.totals.files == st.totals.files + [FileResult(p, Optimized, |st.disk[p]|, |image|)]
  {
  }

  lemma VisitLeaves(env: Env, mode: Mode, manifest: Manifest, st: Pass, p: Path)
    requires !Shrinks(env, mode, manifest, st.disk, p)
    ensures var r := Visit(env, mode, manifest, st, p);
            && r.disk == st.disk && r.written == st.written
            && r.totals.files == st.totals.files + [ResultLeft(env, mode, manifest, st.disk, p)]
  {
  }

  lemma {:induction false} WrittenAreFiles(env: Env, mode: Mode, manifest: Manifest, disk: Disk, files: seq<Path>,
                                           q: Path)
    ensures q in Visits(env, mode, manifest, disk, files).written ==> q in files
  {
    if files != [] {
      var before, p := files[..|files| - 1], files[|files| - 1];
      WrittenAreFiles(env, mode, manifest, disk, before, q);
      VisitLogs(env, mode, manifest, Visits(env, mode, manifest, disk, before), p);
      assert files == before + [p];
    }
  }

  /** Over a whole pass: each file, by its own content, encoding and manifest entry alone. */
  lemma {:induction false} FileOutcome(env: Env, mode: Mode, manifest: Manifest, disk: Disk, files: seq<Path>, i: nat)
    requires NoDuplicates(files) && i < |files|
    ensures var r := Visits(env, mode, manifest, disk, files);
            |r.totals.files| == |files| && HasBecome(env, mode, manifest, disk, files[i], r.totals.files[i], r)
  {
    var before, p := files[..|files| - 1], files[|files| - 1];
    var st := Visits(env, mode, manifest, disk, before);
    CountsAddUp(env, mode, manifest, disk, before);
    VisitLogs(env, mode, manifest, st, p);
    if i == |files| - 1 {
      assert p !in before;
      PassTouches(env, mode, manifest, disk, before, p);
      WrittenAreFiles(env, mode, manifest, disk, before, p);
      VisitBecomes(env, mode, manifest, disk, st, p);
    } else {
      FileOutcome(env, mode, manifest, disk, before, i);
      VisitTouches(env, mode, manifest, st, p);
      BecomesStays(env, mode, manifest, disk, files[i], st.totals.files[i], st, p);
    }
  }

  lemma BecomesStays(env: Env, mode: Mode, manifest: Manifest, disk: Disk, q: Path, res: FileResult, st: Pass, p: Path)
    requires HasBecome(env, mode, manifest, disk, q, res, st) && q != p
    ensures HasBecome(env, mode, manifest, disk, q, res, Visit(env, mode, manifest, st, p))
  {
    VisitLogs(env, mode, manifest, st, p);
    VisitTouches(env, mode, manifest, st, p);
  }

  /** A pass writes exactly the files with a shorter encoding, and counts one as optimized if there is one. */
  lemma WritesExactly(env: Env, mode: Mode, manifest: Manifest, disk: Disk, files: seq<Path>, p: Path)
    requires NoDuplicates(files)
    ensures var r := Visits(env, mode, manifest, disk, files);
            && (p in r.written <==> p in files && Shrinks(env, mode, manifest, disk, p))
            && (r.totals.optimized > 0 <==> exists q :: q in files && Shrinks(env, mode, manifest, disk, q))
  {
    var r := Visits(env, mode, manifest, disk, files);
    CountsAddUp(env, mode, manifest, disk, files);
    forall q ensures q in r.written <==> q in files && Shrinks(env, mode, manifest, disk, q) {
      WrittenAreFiles(env, mode, manifest, disk, files, q);
      if q in files {
        var i :| 0 <= i < |files| && files[i] == q;
        FileOutcome(env, mode, manifest, disk, files, i);
      }
    }
    if r.totals.optimized > 0 {
      assert r.written[0] in r.written;
    }
  }

  /** A file is counted as scanned exactly when there is information about it. */
  lemma {:induction false} ScannedExactly(env: Env, mode: Mode, manifest: Manifest, disk: Disk, files: seq<Path>)
    ensures Visits(env, mode, manifest, disk, files).totals.scanned ==
              |files| - |WithoutInfo(env, files)|
  {
    if files != [] {
      var before, p := files[..|files| - 1], files[|files| - 1];
      ScannedExactly(env, mode, manifest, disk, before);
      VisitScans(env, mode, manifest, Visits(env, mode, manifest, disk, before), p);
    }
  }

  lemma VisitScans(env: Env, mode: Mode, manifest: Manifest, st: Pass, p: Path)
    ensures Visit(env, mode, manifest, st, p).totals.scanned == st.totals.scanned + if env.hasInfo(p) then 1 else 0
  {
  }

  function WithoutInfo(env: Env, files: seq<Path>): seq<Path> {
    if files == [] then []
    else
      WithoutInfo(env, files[..|files| - 1]) + if env.hasInfo(files[|files| - 1]) then [] else [files[|files| - 1]]
  }

  // ---- The second pass ----

  /** Every file could be read. */
  predicate AllRead(env: Env, disk: Disk, files: seq<Path>) {
    forall i :: 0 <= i < |files| ==> CanRead(env, disk, files[i])
  }

  lemma VisitRecords(env: Env, mode: Mode, manifest: Manifest, st: Pass, p: Path)
    ensures var r := Visit(env, mode, manifest, st, p);
            if CanRead(env, st.disk, p) then
              p in r.disk && p in r.entries && r.entries[p] == Fingerprint(|r.disk[p]|, env.sha(r.disk[p]))
            else r.entries == st.entries
  {
  }

  /** After a pass there is an entry for every file that was read, and it is the fingerprint of what is now on disk. */
  lemma {:induction false} EntriesMatchDisk(env: Env, mode: Mode, manifest: Manifest, disk: Disk, files: seq<Path>,
                                            q: Path)
    requires NoDuplicates(files)
    ensures var r := Visits(env, mode, manifest, disk, files);
            && (q in r.entries <==> q in files && env.hasInfo(q) && env.readable(q) && q in disk)
            && (q in r.entries ==> q in r.disk && r.entries[q] == Fingerprint(|r.disk[q]|, env.sha(r.disk[q])))
  {
    if files != [] {
      var before, p := files[..|files| - 1], files[|files| - 1];
      assert files == before + [p];
      assert NoDuplicates(before) && p !in before;
      var st := Visits(env, mode, manifest, disk, before);
      VisitTouches(env, mode, manifest, st, p);
      if q == p {
        PassTouches(env, mode, manifest, disk, before, p);
        VisitRecords(env, mode, manifest, st, p);
      } else {
        EntriesMatchDisk(env, mode, manifest, disk, before, q);
      }
    }
  }

  lemma {:induction false} AllSkipped(env: Env, manifest: Manifest, disk: Disk, files: seq<Path>)
    requires AllRead(env, disk, files)
    requires forall q :: q in files ==> q in manifest && q in disk && manifest[q] == FingerprintOf(env, disk[q])
    ensures var r := Visits(env, Changed, manifest, disk, files);
            && r.disk == disk && r.written == []
            && r.totals.skipped == r.totals.scanned == |files| && r.totals.optimized == r.totals.failed == 0
            && forall q :: (q in r.entries <==> q in files) && (q in files ==> r.entries[q] == manifest[q])
  {
    if files != [] {
      var before, p := files[..|files| - 1], files[|files| - 1];
      assert files == before + [p];
      forall i | 0 <= i < |before| ensures CanRead(env, disk, before[i]) {
        assert CanRead(env, disk, files[i]);
      }
      AllSkipped(env, manifest, disk, before);
      assert CanRead(env, disk, files[|files| - 1]);
    }
  }

  /**
    A pass over changed files is a fixpoint: after one that could read every image, another one over
    the untouched tree writes no image, fails on none, skips every file and leaves the manifest as it
    is, whatever the encoder does and whatever may be written now.
   */
  lemma {:induction false} SecondPassRests(env: Env, again: Env, manifest: Manifest, disk: Disk, files: seq<Path>)
    requires NoDuplicates(files) && AllRead(env, disk, files) && again.sha == env.sha
    requires AllRead(again, disk, files)
    ensures var first := Visits(env, Changed, manifest, disk, files);
            var second := Visits(again, Changed, first.entries, first.disk, files);
            && second.disk == first.disk && second.written == [] && second.entries == first.entries
            && second.totals.failed == second.totals.optimized == 0
            && second.totals.skipped == second.totals.scanned == |files|
  {
    var first := Visits(env, Changed, manifest, disk, files);
    forall q | q in files
      ensures q in first.entries && q in first.disk && first.entries[q] == FingerprintOf(again, first.disk[q])
    {
      EntriesMatchDisk(env, Changed, manifest, disk, files, q);
      var i :| 0 <= i < |files| && files[i] == q;
      assert CanRead(env, disk, files[i]);
    }
    forall i | 0 <= i < |files| ensures CanRead(again, first.disk, files[i]) {
      assert CanRead(again, disk, files[i]);
      PassTouches(env, Changed, manifest, disk, files, files[i]);
    }
    AllSkipped(again, first.entries, first.disk, files);
    var second := Visits(again, Changed, first.entries, first.disk, files);
    forall q ensures q in second.entries <==> q in first.entries {
      PassTouches(env, Changed, manifest, disk, files, q);
    }
    assert second.entries == first.entries;
  }
}
