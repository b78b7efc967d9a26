/**
  Archiving a rotated log file: by time stamp, and by number when the stamped name is taken.
  The most recent numbered archive has number zero, so every older one moves up by one.
 */
module ArchiveStrategy {
  import Sets

  type Files = map<string, string>

  // ----- numbered names -----

  function Digit(d: nat): char
    requires d < 10
  {
    ['0', '1', '2', '3', '4', '5', '6', '7', '8', '9'][d]
  }

  /** `NumberFormatter::append`. */
  function Decimal(n: nat): (s: string)
    ensures s != []
  {
    if n < 10 then [Digit(n)] else Decimal(n / 10) + [Digit(n % 10)]
  }

  /** The number that a string of digits is read as. */
  function Reading(s: string): int {
    if s == [] then 0 else 10 * Reading(s[..|s| - 1]) + (s[|s| - 1] as int - '0' as int)
  }

  /** The decimal representation: digits only, no leading zero, and read back as the number. */
  lemma {:induction false} DecimalReads(n: nat)
    ensures Reading(Decimal(n)) == n
    ensures forall i | 0 <= i < |Decimal(n)| :: '0' <= Decimal(n)[i] <= '9'
    ensures Decimal(n)[0] == '0' ==> n == 0 && |Decimal(n)| == 1
  {
    var s := Decimal(n);
    DigitReads(n % 10);
    if n < 10 {
      assert s[..0] == [];
    } else {
      DecimalReads(n / 10);
      assert s[..|s| - 1] == Decimal(n / 10);
    }
  }

  lemma DigitReads(d: nat)
    requires d < 10
    ensures Digit(d) as int - '0' as int == d
  {
  }

  function Numbered(base: string, n: nat): string {
    base + "." + Decimal(n)
  }

  lemma {:induction false} DecimalInjective(a: nat, b: nat)
    requires Decimal(a) == Decimal(b)
    ensures a == b
  {
    var s := Decimal(a);
    assert s[|s| - 1] == Digit(a % 10) && s[|s| - 1] == Digit(b % 10);
    assert a % 10 == b % 10;
    assert |s| == 1 <==> a < 10;
    assert |s| == 1 <==> b < 10;
    if a >= 10 {
      assert s[..|s| - 1] == Decimal(a / 10) && s[..|s| - 1] == Decimal(b / 10);
      DecimalInjective(a / 10, b / 10);
    }
  }

  /** Distinct numbers give distinct names, none of them the base name. */
  lemma NumberedInjective(base: string, a: nat, b: nat)
    ensures Numbered(base, a) == Numbered(base, b) ==> a == b
    ensures Numbered(base, a) != base
  {
    if Numbered(base, a) == Numbered(base, b) {
      assert Numbered(base, a)[|base| + 1..] == Decimal(a);
      assert Numbered(base, b)[|base| + 1..] == Decimal(b);
      DecimalInjective(a, b);
    }
  }

  function NumberedUpTo(base: string, n: nat): set<string> {
    set i | 0 <= i < n :: Numbered(base, i)
  }

  lemma {:induction false} NumberedCount(base: string, n: nat)
    ensures |NumberedUpTo(base, n)| == n
  {
    hide Numbered;
    if n > 0 {
      NumberedCount(base, n - 1);
      forall i | 0 <= i < n - 1
        ensures Numbered(base, i) != Numbered(base, n - 1)
      {
        NumberedInjective(base, i, n - 1);
      }
      assert NumberedUpTo(base, n) == NumberedUpTo(base, n - 1) + {Numbered(base, n - 1)};
    }
  }

  /** A finite file system cannot hold more numbered files than files. */
  lemma NumberedFit(files: Files, base: string, n: nat)
    requires forall i | 0 <= i < n :: Numbered(base, i) in files
    ensures n <= |files|
  {
    NumberedCount(base, n);
    Sets.SubsetSize(NumberedUpTo(base, n), files.Keys);
  }

  // ----- what archiving does to the files -----

  ghost predicate FirstFree(files: Files, base: string, n: nat) {
    Numbered(base, n) !in files && forall i | 0 <= i < n :: Numbered(base, i) in files
  }

  ghost predicate Outside(base: string, lo: nat, hi: nat, p: string) {
    forall j: nat | lo <= j <= hi :: p != Numbered(base, j)
  }

  ghost predicate SameAt(a: Files, b: Files, p: string) {
    (p in a <==> p in b) && (p in a ==> a[p] == b[p])
  }

  /** Number j has become number j + 1. */
  ghost predicate MovedUp(before: Files, after: Files, base: string, j: nat) {
    && Numbered(base, j) in before && Numbered(base, j + 1) in after
    && after[Numbered(base, j + 1)] == before[Numbered(base, j)]
  }

  /** Numbers above `free` have moved up by one, `free` is free, nothing else has changed. */
  ghost predicate Shifted(before: Files, after: Files, base: string, free: nat, n: nat) {
    && free <= n
    && Numbered(base, free) !in after
    && (forall j: nat | free <= j < n :: MovedUp(before, after, base, j))
    && (forall p | Outside(base, free, n, p) :: SameAt(before, after, p))
  }

  /** The base file has become number zero and number i number i + 1; nothing else has changed. */
  ghost predicate Rotation(before: Files, after: Files, base: string, n: nat) {
    && base in before && base !in after
    && Numbered(base, 0) in after && after[Numbered(base, 0)] == before[base]
    && (forall j: nat | 0 <= j < n :: MovedUp(before, after, base, j))
    && (forall p | p != base && Outside(base, 0, n, p) :: SameAt(before, after, p))
  }

  datatype Rename = Rename(from: string, to: string, clean: bool)

  function Renamed(files: Files, from: string, to: string): Files
    requires from in files
  {
    (files - {from})[to := files[from]]
  }

  lemma ShiftOne(before: Files, after: Files, base: string, free: nat, n: nat)
    requires FirstFree(before, base, n) && base in before
    requires Shifted(before, after, base, free, n) && free > 0
    ensures Numbered(base, free - 1) in after && Numbered(base, free) !in after
    ensures Shifted(before, Renamed(after, Numbered(base, free - 1), Numbered(base, free)), base, free - 1, n)
  {
    hide Numbered;
    var src, dst := Numbered(base, free - 1), Numbered(base, free);
    assert Outside(base, free, n, src) by {
      forall j: nat | free <= j <= n
        ensures src != Numbered(base, j)
      {
        NumberedInjective(base, free - 1, j);
      }
    }
    assert SameAt(before, after, src);
    var next := Renamed(after, src, dst);
    NumberedInjective(base, free - 1, free);
    assert MovedUp(before, next, base, free - 1);
    forall j: nat | free <= j < n
      ensures MovedUp(before, next, base, j)
    {
      assert MovedUp(before, after, base, j);
      NumberedInjective(base, j + 1, free);
      NumberedInjective(base, j + 1, free - 1);
    }
    forall p | Outside(base, free - 1, n, p)
      ensures SameAt(before, next, p)
    {
      assert Outside(base, free, n, p);
      assert p != src && p != dst;
      assert SameAt(before, after, p);
    }
  }

  lemma ShiftLast(before: Files, after: Files, base: string, n: nat)
    requires base in before && Shifted(before, after, base, 0, n)
    ensures base in after && Numbered(base, 0) !in after
    ensures Rotation(before, Renamed(after, base, Numbered(base, 0)), base, n)
  {
    hide Numbered;
    var dst := Numbered(base, 0);
    assert Outside(base, 0, n, base) by {
      forall j: nat | 0 <= j <= n
        ensures base != Numbered(base, j)
      {
        NumberedInjective(base, j, j);
      }
    }
    assert SameAt(before, after, base);
    var next := Renamed(after, base, dst);
    NumberedInjective(base, 0, 0);
    forall j: nat | 0 <= j < n
      ensures MovedUp(before, next, base, j)
    {
      assert MovedUp(before, after, base, j);
      NumberedInjective(base, j + 1, 0);
    }
    forall p | p != base && Outside(base, 0, n, p)
      ensures SameAt(before, next, p)
    {
      assert SameAt(before, after, p);
      assert p != dst;
    }
  }

  /** Where a rotation puts the file at `p`. */
  ghost function Place(base: string, n: nat, p: string): string {
    if p == base then Numbered(base, 0)
    else if j: nat :| j < n && p == Numbered(base, j) then Numbered(base, j + 1)
    else p
  }

  lemma PlaceOf(base: string, n: nat, p: string)
    ensures Place(base, n, base) == Numbered(base, 0)
    ensures forall j: nat | j < n :: Place(base, n, Numbered(base, j)) == Numbered(base, j + 1)
    ensures p != base && (forall j: nat | j < n :: p != Numbered(base, j)) ==> Place(base, n, p) == p
  {
    forall j: nat | j < n
      ensures Place(base, n, Numbered(base, j)) == Numbered(base, j + 1)
    {
      NumberedInjective(base, j, j);
      forall i: nat | Numbered(base, j) == Numbered(base, i)
        ensures i == j
      {
        NumberedInjective(base, i, j);
      }
    }
  }

  /** A rotation loses no file and overwrites none: every content is found at the file's new place. */
  lemma RotationLosesNothing(before: Files, after: Files, base: string, n: nat, p: string)
    requires FirstFree(before, base, n) && Rotation(before, after, base, n) && p in before
    ensures Place(base, n, p) in after && after[Place(base, n, p)] == before[p]
  {
    PlaceOf(base, n, p);
    hide Numbered;
    hide Place;
    if j: nat :| j < n && p == Numbered(base, j) {
      assert MovedUp(before, after, base, j);
    } else if p != base {
      assert Outside(base, 0, n, p);
      assert SameAt(before, after, p);
    }
  }

  /** The number a file moves to, or -1 if it stays. */
  ghost function Target(base: string, n: nat, p: string): int {
    if p == base then 0 else if j: nat :| j < n && p == Numbered(base, j) then j + 1 else -1
  }

  lemma PlaceIsTarget(before: Files, base: string, n: nat, p: string)
    requires FirstFree(before, base, n) && p in before
    ensures var t := Target(base, n, p);
            if t >= 0 then t <= n && Place(base, n, p) == Numbered(base, t) && (t == 0 <==> p == base) &&
                           (t > 0 ==> p == Numbered(base, t - 1))
            else Place(base, n, p) == p && forall j: nat | j <= n :: p != Numbered(base, j)
  {
    PlaceOf(base, n, p);
    hide Numbered;
    hide Place;
  }

  /** Distinct files stay distinct. */
  lemma PlacesDiffer(before: Files, base: string, n: nat, p: string, q: string)
    requires FirstFree(before, base, n) && p in before && q in before
    ensures Place(base, n, p) == Place(base, n, q) ==> p == q
  {
    PlaceIsTarget(before, base, n, p);
    PlaceIsTarget(before, base, n, q);
    var t, u := Target(base, n, p), Target(base, n, q);
    hide Numbered;
    hide Place;
    hide Target;
    if t >= 0 && u >= 0 { NumberedInjective(base, t, u); }
  }

  /** And no file appears from nowhere. */
  lemma RotationCreatesNothing(before: Files, after: Files, base: string, n: nat, q: string)
    requires FirstFree(before, base, n) && Rotation(before, after, base, n) && q in after
    ensures exists p :: p in before && Place(base, n, p) == q
  {
    PlaceOf(base, n, q);
    hide Numbered;
    hide Place;
    if q == Numbered(base, 0) {
      assert Place(base, n, base) == q;
    } else if j: nat :| 1 <= j <= n && q == Numbered(base, j) {
      assert MovedUp(before, after, base, j - 1);
      assert Place(base, n, Numbered(base, j - 1)) == q;
    } else {
      assert Outside(base, 0, n, q);
      assert SameAt(before, after, q);
      assert Place(base, n, q) == q;
    }
  }

  // ----- archiving by time stamp -----

  function Stamped(path: string, stamp: string): string {
    path + "." + stamp
  }

  /** The files after `archive`, the log file having been there. */
  ghost predicate ArchiveResult(before: Files, after: Files, path: string, stamp: string)
    requires path in before
  {
    var arch := Stamped(path, stamp);
    if arch in before then exists n: nat :: FirstFree(before, arch, n) && Rotation(before, after, arch, n)
    else after == Renamed(before, path, arch)[path := ""]
  }

  lemma LogIsOutside(path: string, stamp: string, n: nat)
    ensures path != Stamped(path, stamp) && Outside(Stamped(path, stamp), 0, n, path)
  {
    var arch := Stamped(path, stamp);
    assert |arch| > |path|;
    forall j: nat
      ensures path != Numbered(arch, j)
    {
      assert |Numbered(arch, j)| > |path|;
    }
  }

  /**
    Archiving is meant to move the log file away and start an empty one. It does so exactly when
    no file has the stamped name yet: otherwise the archives are renumbered and the log stays.
   */
  lemma LogMovesExactlyWhenStampIsFree(before: Files, after: Files, path: string, stamp: string)
    requires path in before && ArchiveResult(before, after, path, stamp)
    ensures var arch := Stamped(path, stamp);
            path in after &&
            (after[path] == "" && arch in after && after[arch] == before[path] <==> arch !in before)
    ensures Stamped(path, stamp) in before ==> after[path] == before[path]
  {
    var arch := Stamped(path, stamp);
    LogIsOutside(path, stamp, 0);
    if arch in before {
      var n: nat :| FirstFree(before, arch, n) && Rotation(before, after, arch, n);
      LogIsOutside(path, stamp, n);
      assert SameAt(before, after, path);
    }
  }

  /** The failing case at its smallest: the log keeps its content and only the old archive is renamed. */
  lemma CollisionLeavesLog()
    ensures ArchiveResult(map["log" := "new", "log.T" := "old"], map["log" := "new", "log.T.0" := "old"], "log", "T")
  {
    var before, after := map["log" := "new", "log.T" := "old"], map["log" := "new", "log.T.0" := "old"];
    assert Stamped("log", "T") == "log.T" && Numbered("log.T", 0) == "log.T.0";
    assert FirstFree(before, "log.T", 0);
    assert Rotation(before, after, "log.T", 0) by {
      forall p | p != "log.T" && Outside("log.T", 0, 0, p)
        ensures SameAt(before, after, p)
      {
        assert p != Numbered("log.T", 0);
      }
    }
  }

  class FileSystem {
    var files: Files
    ghost var renames: seq<Rename>

    constructor (files: Files)
      ensures this.files == files && renames == []
    {
      this.files := files;
      renames := [];
    }

    /** `moveFile`: fails on a missing source, replaces an existing target. */
    method MoveFile(from: string, to: string) returns (ok: bool)
      modifies this
      ensures ok == (from in old(files))
      ensures ok ==> files == Renamed(old(files), from, to)
      ensures !ok ==> files == old(files)
      ensures renames == old(renames) + [Rename(from, to, from in old(files) && to !in old(files))]
    {
      renames := renames + [Rename(from, to, from in files && to !in files)];
      ok := from in files;
      if ok { files := Renamed(files, from, to); }
    }

    ghost predicate CleanSince(k: nat)
      reads this
    {
      k <= |renames| && forall i | k <= i < |renames| :: renames[i].clean
    }

    /**
      Finds the first free number, then renames from the highest number down. No rename meets a
      missing source or an existing target.
     */
    method ArchiveByNumber(base: string) returns (ghost free: nat)
      requires base in files
      modifies this
      ensures FirstFree(old(files), base, free) && Rotation(old(files), files, base, free)
      ensures |renames| == |old(renames)| + free + 1 && CleanSince(|old(renames)|)
      ensures forall i | |old(renames)| <= i < |renames| ::
                renames[i].from == base || exists j: nat :: renames[i].from == Numbered(base, j)
    {
      hide Numbered;
      ghost var before, k := files, |renames|;
      var n: int := -1;
      var path;
      while true
        invariant files == before && |renames| == k
        invariant -1 <= n && forall i | 0 <= i <= n :: Numbered(base, i) in files
        decreases |before| - n
      {
        NumberedFit(files, base, n + 1);
        n := n + 1;
        path := Numbered(base, n);
        if path !in files { break; }
      }
      free := n;
      assert forall p | Outside(base, free, free, p) :: SameAt(before, files, p);
      while n > 0
        invariant 0 <= n <= free && Shifted(before, files, base, n, free)
        invariant |renames| == k + free - n && CleanSince(k)
        invariant forall i | k <= i < |renames| :: exists j: nat :: renames[i].from == Numbered(base, j)
      {
        ShiftOne(before, files, base, n, free);
        var ok := MoveFile(Numbered(base, n - 1), Numbered(base, n));
        n := n - 1;
      }
      ShiftLast(before, files, base, free);
      var ok := MoveFile(base, Numbered(base, 0));
    }

    /** `archive` for an existing log file: move or renumber, then reopen the log. */
    method Archive(path: string, stamp: string)
      requires path in files
      modifies this
      ensures ArchiveResult(old(files), files, path, stamp)
      ensures |old(renames)| < |renames| && CleanSince(|old(renames)|)
    {
      var archPath := path + ".";
      archPath := archPath + stamp;
      ghost var before := files;
      assert archPath == Stamped(path, stamp);
      if archPath in files {
        ghost var n := ArchiveByNumber(archPath);
        LogIsOutside(path, stamp, n);
        assert SameAt(before, files, path);
      } else {
        LogIsOutside(path, stamp, 0);
        var ok := MoveFile(path, archPath);
      }
      if path !in files { files := files[path := ""]; }
    }
  }

  // ----- a log over its whole life -----

  /** Every file but the log: where it is now, and what it holds. */
  ghost predicate Keeping(files: Files, path: string, places: seq<string>, contents: seq<string>) {
    && |places| == |contents|
    && (forall i, j | 0 <= i < j < |places| :: places[i] != places[j])
    && (forall i | 0 <= i < |places| :: places[i] != path && places[i] in files && files[places[i]] == contents[i])
    && (forall p | p in files && p != path :: p in places)
  }

  /** A place that a rotation of the stamped archive gives to a file other than the log is not the log's. */
  lemma PlaceIsNotLog(path: string, stamp: string, n: nat, p: string)
    ensures Place(Stamped(path, stamp), n, p) == path <==> p == path
  {
    var arch := Stamped(path, stamp);
    LogIsOutside(path, stamp, n + 1);
    PlaceOf(arch, n, p);
    hide Place;
    if j: nat :| j < n && p == Numbered(arch, j) {
      assert Place(arch, n, p) == Numbered(arch, j + 1);
    }
  }

  lemma RotationKeeps(before: Files, after: Files, path: string, stamp: string, n: nat,
                      places: seq<string>, contents: seq<string>) returns (now: seq<string>)
    requires Keeping(before, path, places, contents)
    requires FirstFree(before, Stamped(path, stamp), n) && Rotation(before, after, Stamped(path, stamp), n)
    ensures Keeping(after, path, now, contents)
  {
    var arch := Stamped(path, stamp);
    hide Place, FirstFree, Rotation;
    now := seq(|places|, i requires 0 <= i < |places| => Place(arch, n, places[i]));
    forall i | 0 <= i < |now|
      ensures now[i] != path && now[i] in after && after[now[i]] == contents[i]
    {
      PlaceIsNotLog(path, stamp, n, places[i]);
      RotationLosesNothing(before, after, arch, n, places[i]);
    }
    forall i, j | 0 <= i < j < |now|
      ensures now[i] != now[j]
    {
      PlacesDiffer(before, arch, n, places[i], places[j]);
    }
    forall q | q in after && q != path
      ensures q in now
    {
      RotationCreatesNothing(before, after, arch, n, q);
      var p :| p in before && Place(arch, n, p) == q;
      PlaceIsNotLog(path, stamp, n, p);
      var i :| 0 <= i < |places| && places[i] == p;
      assert now[i] == q;
    }
  }

  /** What an archive call adds to the archived contents. */
  ghost function Added(before: Files, path: string, stamp: string): seq<string>
    requires path in before
  {
    if Stamped(path, stamp) in before then [] else [before[path]]
  }

  lemma ArchiveKeeps(before: Files, after: Files, path: string, stamp: string,
                     places: seq<string>, contents: seq<string>) returns (now: seq<string>)
    requires path in before && ArchiveResult(before, after, path, stamp)
    requires Keeping(before, path, places, contents)
    ensures Keeping(after, path, now, contents + Added(before, path, stamp))
    ensures path in after && after[path] == if Stamped(path, stamp) in before then before[path] else ""
  {
    var arch := Stamped(path, stamp);
    LogMovesExactlyWhenStampIsFree(before, after, path, stamp);
    if arch in before {
      var n: nat :| FirstFree(before, arch, n) && Rotation(before, after, arch, n);
      now := RotationKeeps(before, after, path, stamp, n, places, contents);
      assert contents + [] == contents;
    } else {
      LogIsOutside(path, stamp, 0);
      now := places + [arch];
    }
  }

  datatype Act = Write(text: string) | ArchiveAt(stamp: string)

  /** Everything written to the log. */
  function Texts(acts: seq<Act>): string {
    if acts == [] then ""
    else Texts(acts[..|acts| - 1]) + (if acts[|acts| - 1].Write? then acts[|acts| - 1].text else "")
  }

  function Joined(contents: seq<string>): string {
    if contents == [] then "" else Joined(contents[..|contents| - 1]) + contents[|contents| - 1]
  }

  lemma JoinedOneMore(contents: seq<string>, c: string)
    ensures Joined(contents + [c]) == Joined(contents) + c
  {
    assert (contents + [c])[..|contents|] == contents;
  }

  lemma {:induction false} JoinedTwo(a: seq<string>, b: seq<string>)
    ensures Joined(a + b) == Joined(a) + Joined(b)
    decreases |b|
  {
    if b == [] {
      assert a + b == a;
    } else {
      var n := |b| - 1;
      JoinedTwo(a, b[..n]);
      JoinedOneMore(a + b[..n], b[n]);
      assert a + b == a + b[..n] + [b[n]];
    }
  }

  lemma Conserved(ja: string, jd: string, now: string, log: string, text: string, log0: string, t: string)
    requires jd + now == log + text && ja + log == log0 + t
    ensures (ja + jd) + now == log0 + (t + text)
  {
    calc {
      (ja + jd) + now;
      ja + (jd + now);
      ja + (log + text);
      (ja + log) + text;
      log0 + t + text;
      log0 + (t + text);
    }
  }

  lemma TextsOneMore(acts: seq<Act>, k: nat)
    requires k < |acts|
    ensures Texts(acts[..k + 1]) == Texts(acts[..k]) + if acts[k].Write? then acts[k].text else ""
  {
    assert acts[..k + 1][..k] == acts[..k];
  }

  method Do(fs: FileSystem, path: string, act: Act, ghost places: seq<string>, ghost contents: seq<string>)
      returns (ghost now: seq<string>, ghost added: seq<string>)
    requires path in fs.files && Keeping(fs.files, path, places, contents)
    modifies fs
    ensures path in fs.files && Keeping(fs.files, path, now, contents + added)
    ensures Joined(added) + fs.files[path] == old(fs.files[path]) + if act.Write? then act.text else ""
    ensures |added| <= 1
  {
    if act.Write? {
      WriteKeeps(fs.files, path, fs.files[path] + act.text, places, contents);
      now, added := places, [];
      fs.files := fs.files[path := fs.files[path] + act.text];
    } else {
      ghost var before := fs.files;
      fs.Archive(path, act.stamp);
      hide Keeping, ArchiveResult;
      added := Added(before, path, act.stamp);
      now := ArchiveKeeps(before, fs.files, path, act.stamp, places, contents);
      JoinedOneMore([], before[path]);
      assert [] + [before[path]] == [before[path]];
    }
  }

  lemma WriteKeeps(files: Files, path: string, text: string, places: seq<string>, contents: seq<string>)
    requires Keeping(files, path, places, contents)
    ensures Keeping(files[path := text], path, places, contents + [])
  {
    assert contents + [] == contents;
  }

  /**
    Over any sequence of writes and archive calls, also with stamps that collide: every file there
    was is still there with its content, the only new ones are logs moved away, and these, one
    after the other and then the log, are what the log was and all that has been written to it.
   */
  method KeepLog(fs: FileSystem, path: string, acts: seq<Act>)
      returns (ghost places: seq<string>, ghost contents: seq<string>, ghost now: seq<string>,
               ghost archived: seq<string>)
    requires path in fs.files
    modifies fs
    ensures Keeping(old(fs.files), path, places, contents)
    ensures path in fs.files && Keeping(fs.files, path, now, contents + archived)
    ensures Joined(archived) + fs.files[path] == old(fs.files[path]) + Texts(acts)
  {
    hide Keeping, Joined, Texts;
    places, contents := Listing(fs.files, path);
    now, archived := places, [];
    assert contents + [] == contents;
    NothingYet(acts);
    for k := 0 to |acts|
      invariant path in fs.files && Keeping(fs.files, path, now, contents + archived)
      invariant Joined(archived) + fs.files[path] == old(fs.files[path]) + Texts(acts[..k])
    {
      ghost var log, text := fs.files[path], if acts[k].Write? then acts[k].text else "";
      ghost var added;
      now, added := Do(fs, path, acts[k], now, contents + archived);
      TextsOneMore(acts, k);
      JoinedTwo(archived, added);
      assert contents + archived + added == contents + (archived + added);
      Conserved(Joined(archived), Joined(added), fs.files[path], log, text, old(fs.files[path]), Texts(acts[..k]));
      archived := archived + added;
    }
    assert acts[..|acts|] == acts;
  }

  /** The files of any file system can be listed. */
  lemma {:induction false} Listing(files: Files, path: string) returns (places: seq<string>, contents: seq<string>)
    ensures Keeping(files, path, places, contents)
    decreases |files|
  {
    if p :| p in files && p != path {
      var rest := files - {p};
      places, contents := Listing(rest, path);
      places, contents := places + [p], contents + [files[p]];
    } else {
      places, contents := [], [];
    }
  }

  lemma NothingYet(acts: seq<Act>)
    ensures Joined([]) == "" && Texts(acts[..0]) == ""
  {
  }
}
