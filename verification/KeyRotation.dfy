/**
 Signing-key rotation: the metadata deque, the archived key files with their
 cleanup, and which keys verification still accepts.  A key pair is a number and
 its fingerprint is itself.
 */
module KeyRotation {
  import opened Wrappers

  type Key = nat

  const MAX_PREVIOUS := 2
  const KEEP_BACKUPS := 4

  datatype KeyMetadata = KeyMetadata(fingerprint: Key, isCurrent: bool)

  class KeyRotationManager {
    var current: KeyMetadata
    var previous: seq<KeyMetadata>

    constructor (fingerprint: Key)
      ensures current == KeyMetadata(fingerprint, true) && previous == []
    {
      current := KeyMetadata(fingerprint, true);
      previous := [];
    }

    method Rotate(fingerprint: Key)
      modifies this
      ensures current == KeyMetadata(fingerprint, true)
      ensures previous != [] && previous[0] == KeyMetadata(old(current).fingerprint, false)
      ensures |previous| == if |old(previous)| < 2 then |old(previous)| + 1 else |old(previous)|
      ensures forall k | 1 <= k < |previous| :: previous[k] == old(previous)[k - 1]
      ensures previous == RotatedPrevious(old(current), old(previous))
    {
      previous := [current.(isCurrent := false)] + previous;
      if |previous| > MAX_PREVIOUS {
        previous := previous[..|previous| - 1];
      }
      current := KeyMetadata(fingerprint, true);
    }

    method AllFingerprints() returns (fps: seq<Key>)
      ensures |fps| == |previous| + 1 && fps[0] == current.fingerprint
      ensures forall k | 0 <= k < |previous| :: fps[k + 1] == previous[k].fingerprint
      ensures fps == Fingerprints(current, previous)
    {
      fps := [current.fingerprint];
      for i := 0 to |previous|
        invariant |fps| == i + 1 && fps[0] == current.fingerprint
        invariant forall k | 0 <= k < i :: fps[k + 1] == previous[k].fingerprint
      {
        fps := fps + [previous[i].fingerprint];
      }
    }
  }

  function RotatedPrevious(current: KeyMetadata, previous: seq<KeyMetadata>): seq<KeyMetadata> {
    var pushed := [current.(isCurrent := false)] + previous;
    if |pushed| > MAX_PREVIOUS then pushed[..|pushed| - 1] else pushed
  }

  function Fingerprints(current: KeyMetadata, previous: seq<KeyMetadata>): (fps: seq<Key>)
    ensures |fps| == |previous| + 1 && fps[0] == current.fingerprint
    ensures forall k | 0 <= k < |previous| :: fps[k + 1] == previous[k].fingerprint
  {
    [current.fingerprint] + seq(|previous|, k requires 0 <= k < |previous| => previous[k].fingerprint)
  }

  // ----- the backup files -----

  /** `jwt_private_<stamp>.pem.bak` or `jwt_public_<stamp>.pem.bak`; the stamp counts whole seconds. */
  datatype FileName = Bak(isPrivate: bool, stamp: int)

  datatype File = File(key: Key, mtime: int)

  type Files = map<FileName, File>

  predicate NewestFirst(files: Files, names: seq<FileName>) {
    && (forall i | 0 <= i < |names| :: names[i] in files)
    && (forall i, j | 0 <= i < j < |names| :: files[names[i]].mtime >= files[names[j]].mtime)
  }

  ghost predicate Distinct<T>(s: seq<T>) {
    forall i, j | 0 <= i < j < |s| :: s[i] != s[j]
  }

  function Elements<T>(s: seq<T>): set<T> {
    set x | x in s
  }

  /** The directory listing sorted by modification time, newest first; files of equal age come in any order. */
  ghost predicate SortedListing(files: Files, names: seq<FileName>) {
    NewestFirst(files, names) && Distinct(names) && Elements(names) == files.Keys
  }

  /** Every directory has such a listing, whatever ages its files share. */
  lemma {:induction false} HasListing(files: Files) returns (names: seq<FileName>)
    ensures SortedListing(files, names)
    decreases files.Keys
  {
    if files == map[] {
      names := [];
    } else {
      var x := Youngest(files, files.Keys);
      var rest := HasListing(files - {x});
      names := [x] + rest;
      ListingGrows(files, x, rest);
    }
  }

  lemma ListingGrows(files: Files, x: FileName, rest: seq<FileName>)
    requires x in files && SortedListing(files - {x}, rest) && forall y | y in files :: files[y].mtime <= files[x].mtime
    ensures SortedListing(files, [x] + rest)
  {
    var names := [x] + rest;
    assert forall i | 0 <= i < |rest| :: rest[i] in Elements(rest);
    assert Elements(names) == Elements(rest) + {x};
  }

  lemma {:induction false} Youngest(files: Files, names: set<FileName>) returns (x: FileName)
    requires names <= files.Keys && names != {}
    ensures x in names && forall y | y in names :: files[y].mtime <= files[x].mtime
    decreases names
  {
    var first :| first in names;
    var rest := names - {first};
    assert names == rest + {first};
    x := first;
    if rest != {} {
      var y := Youngest(files, rest);
      if files[first].mtime < files[y].mtime { x := y; }
    }
  }

  function KeepFirst(files: Files, backups: seq<FileName>, keep: nat): Files {
    map x | x in files && x in (if keep <= |backups| then backups[..keep] else backups) :: files[x]
  }

  /**
   `cleanup_old_backups`: delete everything after the first `keep` of the sorted
   listing, one file after the other; the deletion number `failing` returns an error.
   */
  method CleanupOldBackups(files: Files, backups: seq<FileName>, keep: nat, failing: Option<nat>) returns (kept: Files, ok: bool)
    requires SortedListing(files, backups)
    ensures ok <==> failing.None? || |backups| <= keep + failing.value
    ensures ok ==> forall k | 0 <= k < |backups| :: backups[k] in kept <==> k < keep
    ensures ok ==> kept == KeepFirst(files, backups, keep)
    ensures kept.Keys <= files.Keys && forall x | x in kept :: kept[x] == files[x]
    ensures !ok ==> forall k | 0 <= k < |backups| :: backups[k] in kept <==> !(keep <= k < keep + failing.value)
  {
    kept := files;
    var i := keep;
    while i < |backups|
      invariant keep <= i && (i > keep ==> i <= |backups|)
      invariant failing.Some? ==> i <= keep + failing.value
      invariant kept.Keys <= files.Keys && forall x | x in kept :: kept[x] == files[x]
      invariant forall k | 0 <= k < |backups| :: backups[k] in kept <==> !(keep <= k < i)
      decreases |backups| - i
    {
      if failing == Some(i - keep) { return kept, false; }
      kept := kept - {backups[i]};
      i := i + 1;
    }
    DeletedTheRest(files, backups, keep, kept);
    ok := true;
  }

  lemma DeletedTheRest(files: Files, backups: seq<FileName>, keep: nat, kept: Files)
    requires SortedListing(files, backups)
    requires kept.Keys <= files.Keys && forall x | x in kept :: kept[x] == files[x]
    requires forall k | 0 <= k < |backups| :: backups[k] in kept <==> k < keep
    ensures kept == KeepFirst(files, backups, keep)
  {
    var n := Min(keep, |backups|);
    var first := backups[..n];
    assert (if keep <= |backups| then backups[..keep] else backups) == first;
    forall x | x in files
      ensures x in kept <==> x in first
    {
      var k :| 0 <= k < |backups| && backups[k] == x;
      InPrefix(backups, k, n);
    }
  }

  lemma InPrefix<T>(s: seq<T>, k: nat, n: nat)
    requires Distinct(s) && k < |s| && n <= |s|
    ensures s[k] in s[..n] <==> k < n
  {
    if k < n { assert s[..n][k] == s[k]; }
  }

  /** The names in `newest` are all younger than the others, so they come first. */
  lemma NewestComeFirst(files: Files, sorted: seq<FileName>, newest: set<FileName>)
    requires SortedListing(files, sorted) && newest <= files.Keys
    requires forall x, y | x in newest && y in files && y !in newest :: files[x].mtime > files[y].mtime
    ensures |newest| <= |sorted| && Elements(sorted[..|newest|]) == newest
  {
    DistinctSize(sorted);
    assert Elements(sorted) == newest + (Elements(sorted) - newest);
    var k := |newest|;
    forall i | 0 <= i < k
      ensures sorted[i] in newest
    {
      InNewest(files, sorted, newest, i);
    }
    DistinctSize(sorted[..k]);
    var top := Elements(sorted[..k]);
    assert newest == top + (newest - top);
  }

  lemma InNewest(files: Files, sorted: seq<FileName>, newest: set<FileName>, i: nat)
    requires SortedListing(files, sorted) && newest <= files.Keys && i < |newest| <= |sorted|
    requires forall x, y | x in newest && y in files && y !in newest :: files[x].mtime > files[y].mtime
    ensures sorted[i] in newest
  {
    // the i names before position i cannot be all of newest, so some name of it stands at i or later
    var before := Elements(sorted[..i]);
    DistinctSize(sorted[..i]);
    var y := NotCovered(before, newest);
    var p :| 0 <= p < |sorted| && sorted[p] == y;
    InPrefix(sorted, p, i);
    assert files[sorted[i]].mtime >= files[y].mtime;
  }

  lemma NotCovered<T>(a: set<T>, b: set<T>) returns (y: T)
    requires |a| < |b|
    ensures y in b && y !in a
  {
    if b <= a { SubsetSize(b, a); }
    y :| y in b && y !in a;
  }

  lemma SubsetSize<T>(a: set<T>, b: set<T>)
    requires a <= b
    ensures |a| <= |b|
  {
    assert b == a + (b - a);
  }

  lemma {:induction false} DistinctSize<T>(s: seq<T>)
    requires Distinct(s)
    ensures |Elements(s)| == |s|
  {
    if s != [] {
      DistinctSize(s[1..]);
      assert Elements(s) == {s[0]} + Elements(s[1..]);
      assert s[0] !in s[1..];
    }
  }

  // ----- rotate_keys -----

  /** The key directory: the active pair, the saved metadata if any, and the `.bak` files. */
  datatype Dir = Dir(active: Key, meta: Option<(KeyMetadata, seq<KeyMetadata>)>, files: Files)

  /** One rotation: the new key, the second it runs in, the times of the two copies, and the listing its cleanup sorts. */
  datatype Rotation = Rotation(newKey: Key, stamp: int, privateTime: int, publicTime: int, listing: seq<FileName>)

  function Pair(key: Key, r: Rotation): Files {
    map[Bak(true, r.stamp) := File(key, r.privateTime), Bak(false, r.stamp) := File(key, r.publicTime)]
  }

  /** Copying the active pair; a file of the same name is overwritten. */
  function Archived(files: Files, key: Key, r: Rotation): Files {
    files + Pair(key, r)
  }

  ghost predicate Enabled(d: Dir, r: Rotation) {
    SortedListing(Archived(d.files, d.active, r), r.listing)
  }

  function Apply(d: Dir, r: Rotation): Dir {
    var m := if d.meta.Some? then d.meta.value else (KeyMetadata(d.active, true), []);
    Dir(r.newKey, Some((KeyMetadata(r.newKey, true), RotatedPrevious(m.0, m.1))),
        KeepFirst(Archived(d.files, d.active, r), r.listing, KEEP_BACKUPS))
  }

  /** The operation with which a rotation fails; the deletion is counted from 0. */
  datatype Stop = Loading | CopyingPrivate | CopyingPublic | MakingPrivate | MakingPublic | Saving | Deleting(index: nat)

  /**
   Any directory a rotation may find or leave: either active file may be missing,
   and the two may belong to different keys after a failed rotation.
   */
  datatype Disk = Disk(
    privateKey: Option<Key>,
    publicKey: Option<Key>,
    meta: Option<(KeyMetadata, seq<KeyMetadata>)>,
    files: Files)

  function DiskOf(d: Dir): Disk { Disk(Some(d.active), Some(d.active), d.meta, d.files) }

  predicate HasPair(d: Disk) { d.privateKey.Some? && d.publicKey.Some? }

  /** The files after the copies: an incomplete pair is not archived. */
  function Copied(d: Disk, r: Rotation): Files {
    if HasPair(d)
    then d.files[Bak(true, r.stamp) := File(d.privateKey.value, r.privateTime)][Bak(false, r.stamp) := File(d.publicKey.value, r.publicTime)]
    else d.files
  }

  /** Without metadata the current public key is read for its fingerprint. */
  predicate Loads(d: Disk) { d.meta.Some? || d.publicKey.Some? }

  /** The operation is reached: a directory that cannot be loaded stops there, and an incomplete pair is not copied. */
  predicate Reached(d: Disk, stop: Stop) {
    stop.Loading? || (Loads(d) && (stop.CopyingPrivate? || stop.CopyingPublic? ==> HasPair(d)))
  }

  function RotatedMeta(d: Disk, r: Rotation): (KeyMetadata, seq<KeyMetadata>)
    requires Loads(d)
  {
    var m := if d.meta.Some? then d.meta.value else (KeyMetadata(d.publicKey.value, true), []);
    (KeyMetadata(r.newKey, true), RotatedPrevious(m.0, m.1))
  }

  /** What a failure before the cleanup leaves behind. */
  function Stopped(d: Disk, r: Rotation, stop: Stop): Disk
    requires !stop.Deleting? && Reached(d, stop)
  {
    match stop
    case Loading | CopyingPrivate => d
    case CopyingPublic => d.(files := d.files[Bak(true, r.stamp) := File(d.privateKey.value, r.privateTime)])
    case MakingPrivate => d.(files := Copied(d, r))
    case MakingPublic => d.(files := Copied(d, r), privateKey := Some(r.newKey))
    case Saving => d.(files := Copied(d, r), privateKey := Some(r.newKey), publicKey := Some(r.newKey))
  }

  /** What success leaves behind. */
  function Rotated(d: Disk, r: Rotation): Disk
    requires Loads(d)
  {
    Disk(Some(r.newKey), Some(r.newKey), Some(RotatedMeta(d, r)), KeepFirst(Copied(d, r), r.listing, KEEP_BACKUPS))
  }

  /** In a directory with an intact pair that is the rotation of `Apply`. */
  lemma RotatedIsApply(d: Dir, r: Rotation)
    ensures Copied(DiskOf(d), r) == Archived(d.files, d.active, r)
    ensures Rotated(DiskOf(d), r) == DiskOf(Apply(d, r))
  {
    assert Copied(DiskOf(d), r) == Archived(d.files, d.active, r);
  }

  /** A key pair is at hand when it is the active one or both its files are among the backups of `stamp`. */
  predicate AtHand(disk: Disk, privateKey: Key, publicKey: Key, stamp: int) {
    || (disk.privateKey == Some(privateKey) && disk.publicKey == Some(publicKey))
    || (&& Bak(true, stamp) in disk.files && disk.files[Bak(true, stamp)].key == privateKey
        && Bak(false, stamp) in disk.files && disk.files[Bak(false, stamp)].key == publicKey)
  }

  /** The files while deletions are under way: some of the copied ones, at least those the full cleanup keeps. */
  ghost predicate PartlyCleaned(d: Disk, r: Rotation, files: Files) {
    && (forall x | x in files :: x in Copied(d, r) && files[x] == Copied(d, r)[x])
    && (forall k | 0 <= k < |r.listing| && k < KEEP_BACKUPS :: r.listing[k] in files)
  }

  /** The rotation gets through: it loads, and the failing operation, if any, is never reached. */
  predicate Succeeds(d: Disk, r: Rotation, stop: Option<Stop>) {
    Loads(d) && (stop.None? || !Reached(d, stop.value) || (stop.value.Deleting? && |r.listing| <= KEEP_BACKUPS + stop.value.index))
  }

  /** How a rotation that fails at `stop`, if at all, ends. */
  ghost predicate Outcome(d: Disk, r: Rotation, stop: Option<Stop>, disk: Disk, ok: bool) {
    && (ok <==> Succeeds(d, r, stop))
    && (ok ==> disk == Rotated(d, r))
    && (!Loads(d) ==> disk == d)
    && (!ok && Loads(d) && !stop.value.Deleting? ==> disk == Stopped(d, r, stop.value))
    && (!ok && Loads(d) && stop.value.Deleting? ==>
          disk == Rotated(d, r).(files := disk.files) && PartlyCleaned(d, r, disk.files))
  }

  /** Copies the active pair, if complete, and generates a new one in its place. */
  method ArchiveAndReplace(d: Disk, r: Rotation, stop: Option<Stop>) returns (disk: Disk, ok: bool)
    requires Loads(d) && stop != Some(Loading)
    ensures ok <==> stop.None? || stop.value.Saving? || stop.value.Deleting? || !Reached(d, stop.value)
    ensures disk == Stopped(d, r, if ok then Saving else stop.value)
  {
    disk, ok := d, false;
    if disk.privateKey.Some? && disk.publicKey.Some? {
      if stop == Some(CopyingPrivate) { return; }
      disk := disk.(files := disk.files[Bak(true, r.stamp) := File(d.privateKey.value, r.privateTime)]);
      if stop == Some(CopyingPublic) { return; }
      disk := disk.(files := disk.files[Bak(false, r.stamp) := File(d.publicKey.value, r.publicTime)]);
    }
    if stop == Some(MakingPrivate) { return; }
    disk := disk.(privateKey := Some(r.newKey));
    if stop == Some(MakingPublic) { return; }
    disk, ok := disk.(publicKey := Some(r.newKey)), true;
  }

  /** `rotate_keys`, with the metadata object loaded or created and the files changed in place. */
  method RotateKeys(d: Disk, r: Rotation, stop: Option<Stop>) returns (disk: Disk, ok: bool)
    requires SortedListing(Copied(d, r), r.listing)
    ensures Outcome(d, r, stop, disk, ok)
  {
    if stop == Some(Loading) || (d.meta.None? && d.publicKey.None?) { return d, false; }
    var first := if d.meta.Some? then d.meta.value.0.fingerprint else d.publicKey.value;
    var manager := new KeyRotationManager(first);
    if d.meta.Some? {
      manager.current, manager.previous := d.meta.value.0, d.meta.value.1;
    }
    disk, ok := ArchiveAndReplace(d, r, stop);
    if !ok { return; }
    manager.Rotate(r.newKey);
    if stop == Some(Saving) { return disk, false; }
    var files;
    files, ok := CleanupOldBackups(disk.files, r.listing, KEEP_BACKUPS,
                                   if stop.Some? && stop.value.Deleting? then Some(stop.value.index) else None);
    disk := disk.(meta := Some((manager.current, manager.previous)), files := files);
  }

  /** A successful rotation, file by file: the new pair, its metadata, and the four youngest backups. */
  lemma SuccessLeaves(d: Disk, r: Rotation, stop: Option<Stop>, disk: Disk)
    requires SortedListing(Copied(d, r), r.listing) && Outcome(d, r, stop, disk, true)
    ensures disk.privateKey == Some(r.newKey) && disk.publicKey == Some(r.newKey) && disk.meta.Some?
    ensures disk.meta.value.0 == KeyMetadata(r.newKey, true)
    ensures disk.meta.value.1 != [] && (d.meta.None? ==> d.publicKey.Some?)
    ensures disk.meta.value.1[0] == KeyMetadata(if d.meta.Some? then d.meta.value.0.fingerprint else d.publicKey.value, false)
    ensures d.meta.Some? ==>
              && |disk.meta.value.1| == (if |d.meta.value.1| < 2 then |d.meta.value.1| + 1 else |d.meta.value.1|)
              && forall k | 1 <= k < |disk.meta.value.1| :: disk.meta.value.1[k] == d.meta.value.1[k - 1]
    ensures d.meta.None? ==> |disk.meta.value.1| == 1
    ensures forall k | 0 <= k < |r.listing| :: r.listing[k] in disk.files <==> k < 4
    ensures forall x | x in disk.files :: FromBefore(d, r, x, disk.files[x])
  {
    forall k | 0 <= k < |r.listing|
      ensures r.listing[k] in disk.files <==> k < 4
    {
      InPrefix(r.listing, k, Min(4, |r.listing|));
      assert r.listing[..|r.listing|] == r.listing;
      assert r.listing[k] in Elements(r.listing);
    }
  }

  /** A backup was there before, or is the copy of an active file of a complete pair. */
  ghost predicate FromBefore(d: Disk, r: Rotation, x: FileName, f: File) {
    || (x in d.files && f == d.files[x])
    || (x == Bak(true, r.stamp) && f.mtime == r.privateTime && d.privateKey == Some(f.key) && d.publicKey.Some?)
    || (x == Bak(false, r.stamp) && f.mtime == r.publicTime && d.publicKey == Some(f.key) && d.privateKey.Some?)
  }

  /** A failed one: the metadata is old until it is saved, each active file until it is made, and backups come from before. */
  lemma FailureLeaves(d: Disk, r: Rotation, stop: Stop, disk: Disk)
    requires Outcome(d, r, Some(stop), disk, false) && (d.meta.Some? || d.publicKey.Some?)
    ensures !stop.Deleting? ==> disk.meta == d.meta
    ensures disk.privateKey == if stop.MakingPublic? || stop.Saving? || stop.Deleting? then Some(r.newKey) else d.privateKey
    ensures disk.publicKey == if stop.Saving? || stop.Deleting? then Some(r.newKey) else d.publicKey
    ensures forall x | x in disk.files :: FromBefore(d, r, x, disk.files[x])
    ensures forall x | x in d.files && x.stamp != r.stamp && !stop.Deleting? :: x in disk.files
    ensures stop.Loading? || stop.CopyingPrivate? ==> disk == d
  {
  }

  /** However a rotation ends, the pair that was active before is still active or completely backed up. */
  lemma OldPairAtHand(d: Disk, r: Rotation, stop: Option<Stop>, disk: Disk, ok: bool)
    requires HasPair(d) && SortedListing(Copied(d, r), r.listing) && YoungerThan(d.files, r) && Outcome(d, r, stop, disk, ok)
    ensures AtHand(disk, d.privateKey.value, d.publicKey.value, r.stamp)
  {
    if ok || stop.value.Deleting? {
      CopySurvives(d, r, true);
      CopySurvives(d, r, false);
      if !ok {
        StillThere(d, r, disk.files, Bak(true, r.stamp));
        StillThere(d, r, disk.files, Bak(false, r.stamp));
      }
    }
  }

  /** Both copies of an active pair survive the cleanup that follows them. */
  lemma CopySurvives(d: Disk, r: Rotation, isPrivate: bool)
    requires HasPair(d) && SortedListing(Copied(d, r), r.listing) && YoungerThan(d.files, r)
    ensures Bak(isPrivate, r.stamp) in Rotated(d, r).files
    ensures Rotated(d, r).files[Bak(isPrivate, r.stamp)].key == if isPrivate then d.privateKey.value else d.publicKey.value
  {
    CopiedIsUnion(d, r);
    TwoNewFiles(d.files, Copies(d, r), r);
    NewestSurvive(d.files, Copies(d, r), r.listing, Bak(isPrivate, r.stamp));
  }

  function Copies(d: Disk, r: Rotation): Files
    requires HasPair(d)
  {
    map[Bak(true, r.stamp) := File(d.privateKey.value, r.privateTime), Bak(false, r.stamp) := File(d.publicKey.value, r.publicTime)]
  }

  lemma CopiedIsUnion(d: Disk, r: Rotation)
    requires HasPair(d)
    ensures Copied(d, r) == d.files + Copies(d, r) && Copies(d, r).Keys == {Bak(true, r.stamp), Bak(false, r.stamp)}
  {
  }

  lemma TwoNewFiles(files: Files, newer: Files, r: Rotation)
    requires YoungerThan(files, r) && newer.Keys == {Bak(true, r.stamp), Bak(false, r.stamp)}
    requires forall x | x in newer :: Min(r.privateTime, r.publicTime) <= newer[x].mtime
    ensures |newer.Keys| <= KEEP_BACKUPS && AllYounger(newer, files)
  {
  }

  lemma StillThere(d: Disk, r: Rotation, files: Files, x: FileName)
    requires PartlyCleaned(d, r, files) && Loads(d) && x in Rotated(d, r).files
    ensures x in files
  {
    var n := Min(KEEP_BACKUPS, |r.listing|);
    assert x in r.listing[..n];
    var k :| 0 <= k < n && r.listing[..n][k] == x;
  }

  /** The directory after the first `n` rotations. */
  ghost function After(first: Key, rs: seq<Rotation>, n: nat): Dir
    requires n <= |rs|
  {
    if n == 0 then Dir(first, None, map[]) else Apply(After(first, rs, n - 1), rs[n - 1])
  }

  /** The second rotation runs in another second than the first, and its copies are younger. */
  predicate Follows(r: Rotation, r': Rotation) {
    r.stamp != r'.stamp && Max(r.privateTime, r.publicTime) < Min(r'.privateTime, r'.publicTime)
  }

  ghost predicate Spread(rs: seq<Rotation>) {
    forall i, j | 0 <= i < j < |rs| :: Follows(rs[i], rs[j])
  }

  ghost predicate Proper(first: Key, rs: seq<Rotation>) {
    Spread(rs) && forall i | 0 <= i < |rs| :: EnabledAt(first, rs, i)
  }

  ghost predicate EnabledAt(first: Key, rs: seq<Rotation>, i: nat)
    requires i < |rs|
  {
    Enabled(After(first, rs, i), rs[i])
  }

  /** The i-th key ever active. */
  function KeyAt(first: Key, rs: seq<Rotation>, i: nat): Key
    requires i <= |rs|
  {
    if i == 0 then first else rs[i - 1].newKey
  }

  function Retired(key: Key): KeyMetadata { KeyMetadata(key, false) }

  /** The last min(n, 2) retired keys, newest first. */
  function LastRetired(first: Key, rs: seq<Rotation>, n: nat): seq<KeyMetadata>
    requires n <= |rs|
  {
    if n == 0 then []
    else if n == 1 then [Retired(KeyAt(first, rs, 0))]
    else [Retired(KeyAt(first, rs, n - 1)), Retired(KeyAt(first, rs, n - 2))]
  }

  /** The archived pairs of exactly those keys. */
  function LastPairs(first: Key, rs: seq<Rotation>, n: nat): Files
    requires n <= |rs|
  {
    if n == 0 then map[]
    else if n == 1 then Pair(KeyAt(first, rs, 0), rs[0])
    else Pair(KeyAt(first, rs, n - 2), rs[n - 2]) + Pair(KeyAt(first, rs, n - 1), rs[n - 1])
  }

  /** When four files are younger than all others, the cleanup keeps exactly those four. */
  lemma CleanupKeepsNewest(older: Files, newer: Files, listing: seq<FileName>)
    requires older.Keys !! newer.Keys && |newer.Keys| == KEEP_BACKUPS
    requires forall x, y | x in newer && y in older :: newer[x].mtime > older[y].mtime
    requires SortedListing(older + newer, listing)
    ensures KeepFirst(older + newer, listing, KEEP_BACKUPS) == newer
  {
    NewestComeFirst(older + newer, listing, newer.Keys);
    KeepsTop(older, newer, listing);
  }

  lemma KeepsTop(older: Files, newer: Files, listing: seq<FileName>)
    requires KEEP_BACKUPS <= |listing| && Elements(listing[..KEEP_BACKUPS]) == newer.Keys
    ensures KeepFirst(older + newer, listing, KEEP_BACKUPS) == newer
  {
    assert forall x :: x in listing[..KEEP_BACKUPS] <==> x in Elements(listing[..KEEP_BACKUPS]);
  }

  lemma TwoPairs(k1: Key, k2: Key, r1: Rotation, r2: Rotation)
    requires r1.stamp != r2.stamp
    ensures |(Pair(k1, r1) + Pair(k2, r2)).Keys| == KEEP_BACKUPS
  {
    assert (Pair(k1, r1) + Pair(k2, r2)).Keys
        == {Bak(true, r1.stamp), Bak(false, r1.stamp), Bak(true, r2.stamp), Bak(false, r2.stamp)};
  }

  /** With at most two pairs nothing is deleted. */
  lemma CleanupKeepsFew(files: Files, listing: seq<FileName>)
    requires SortedListing(files, listing) && |files.Keys| <= KEEP_BACKUPS
    ensures KeepFirst(files, listing, KEEP_BACKUPS) == files
  {
    DistinctSize(listing);
    assert KEEP_BACKUPS <= |listing| ==> listing[..KEEP_BACKUPS] == listing;
  }

  /** Archiving a third pair and cleaning up leaves the two newest. */
  lemma ThirdPair(k0: Key, k1: Key, k2: Key, r0: Rotation, r1: Rotation, r2: Rotation)
    requires Follows(r0, r1) && Follows(r1, r2) && Follows(r0, r2)
    requires SortedListing(Pair(k0, r0) + Pair(k1, r1) + Pair(k2, r2), r2.listing)
    ensures KeepFirst(Pair(k0, r0) + Pair(k1, r1) + Pair(k2, r2), r2.listing, KEEP_BACKUPS) == Pair(k1, r1) + Pair(k2, r2)
  {
    ThreePairs(k0, k1, k2, r0, r1, r2);
    CleanupKeepsNewest(Pair(k0, r0), Pair(k1, r1) + Pair(k2, r2), r2.listing);
  }

  lemma ThreePairs(k0: Key, k1: Key, k2: Key, r0: Rotation, r1: Rotation, r2: Rotation)
    requires Follows(r0, r1) && Follows(r1, r2) && Follows(r0, r2)
    ensures Pair(k0, r0) + Pair(k1, r1) + Pair(k2, r2) == Pair(k0, r0) + (Pair(k1, r1) + Pair(k2, r2))
    ensures Pair(k0, r0).Keys !! (Pair(k1, r1) + Pair(k2, r2)).Keys
    ensures |(Pair(k1, r1) + Pair(k2, r2)).Keys| == KEEP_BACKUPS
    ensures forall x, y | x in Pair(k1, r1) + Pair(k2, r2) && y in Pair(k0, r0) ::
              (Pair(k1, r1) + Pair(k2, r2))[x].mtime > Pair(k0, r0)[y].mtime
  {
    UnionAssociates(Pair(k0, r0), Pair(k1, r1), Pair(k2, r2));
    TwoPairs(k1, k2, r1, r2);
    Younger(k0, k1, r0, r1);
    Younger(k0, k2, r0, r2);
  }

  lemma UnionAssociates(a: Files, b: Files, c: Files)
    ensures a + b + c == a + (b + c)
  {
  }

  lemma Younger(k: Key, k': Key, r: Rotation, r': Rotation)
    requires Follows(r, r')
    ensures Pair(k, r).Keys !! Pair(k', r').Keys
    ensures forall x, y | x in Pair(k', r') && y in Pair(k, r) :: Pair(k', r')[x].mtime > Pair(k, r)[y].mtime
  {
  }

  /** The files after one more rotation. */
  lemma FilesStep(first: Key, rs: seq<Rotation>, n: nat)
    requires Spread(rs) && n < |rs|
    requires SortedListing(Archived(LastPairs(first, rs, n), KeyAt(first, rs, n), rs[n]), rs[n].listing)
    ensures KeepFirst(Archived(LastPairs(first, rs, n), KeyAt(first, rs, n), rs[n]), rs[n].listing, KEEP_BACKUPS)
            == LastPairs(first, rs, n + 1)
  {
    var files := Archived(LastPairs(first, rs, n), KeyAt(first, rs, n), rs[n]);
    if n == 0 {
      assert files == Pair(first, rs[0]);
      assert files.Keys == {Bak(true, rs[0].stamp), Bak(false, rs[0].stamp)};
      CleanupKeepsFew(files, rs[n].listing);
    } else if n == 1 {
      TwoPairs(KeyAt(first, rs, 0), KeyAt(first, rs, 1), rs[0], rs[1]);
      CleanupKeepsFew(files, rs[n].listing);
    } else {
      ThirdPair(KeyAt(first, rs, n - 2), KeyAt(first, rs, n - 1), KeyAt(first, rs, n), rs[n - 2], rs[n - 1], rs[n]);
    }
  }

  /** The metadata after one more rotation. */
  lemma PreviousStep(first: Key, rs: seq<Rotation>, n: nat)
    requires n < |rs|
    ensures RotatedPrevious(KeyMetadata(KeyAt(first, rs, n), true), LastRetired(first, rs, n)) == LastRetired(first, rs, n + 1)
  {
  }

  /** The directory the rotations are meant to leave behind. */
  function Expected(first: Key, rs: seq<Rotation>, n: nat): Dir
    requires n <= |rs|
  {
    Dir(KeyAt(first, rs, n),
        if n == 0 then None else Some((KeyMetadata(KeyAt(first, rs, n), true), LastRetired(first, rs, n))),
        LastPairs(first, rs, n))
  }

  lemma ExpectedStep(first: Key, rs: seq<Rotation>, n: nat)
    requires Spread(rs) && n < |rs| && Enabled(Expected(first, rs, n), rs[n])
    ensures Apply(Expected(first, rs, n), rs[n]) == Expected(first, rs, n + 1)
  {
    FilesStep(first, rs, n);
    PreviousStep(first, rs, n);
  }

  lemma {:induction false} AfterRotations(first: Key, rs: seq<Rotation>, n: nat)
    requires Proper(first, rs) && n <= |rs|
    ensures After(first, rs, n) == Expected(first, rs, n)
  {
    if n > 0 {
      AfterRotations(first, rs, n - 1);
      StepReached(first, rs, n - 1);
    }
  }

  lemma StepReached(first: Key, rs: seq<Rotation>, n: nat)
    requires Spread(rs) && n < |rs| && EnabledAt(first, rs, n) && After(first, rs, n) == Expected(first, rs, n)
    ensures After(first, rs, n + 1) == Expected(first, rs, n + 1)
  {
    ExpectedStep(first, rs, n);
  }

  // ----- what the metadata and verification say -----

  /** `verify_token`: the current key, then only the first of the previous ones. */
  predicate Accepts(current: Key, previous: seq<Key>, signer: Key) {
    signer == current || (previous != [] && signer == previous[0])
  }

  /** The backups are the private and the public file of each recorded previous key, and nothing else. */
  ghost predicate BacksUp(files: Files, previous: seq<KeyMetadata>, stamps: seq<int>) {
    && |stamps| == |previous|
    && (forall k, isPrivate | 0 <= k < |previous| ::
          Bak(isPrivate, stamps[k]) in files && files[Bak(isPrivate, stamps[k])].key == previous[k].fingerprint)
    && (forall x | x in files :: x.stamp in stamps)
  }

  /**
   After n >= 1 rotations exactly one key is marked current, and the fingerprints
   are the last min(n + 1, 3) keys, newest first.
   */
  lemma FingerprintsAfter(first: Key, rs: seq<Rotation>, n: nat)
    requires Proper(first, rs) && 0 < n <= |rs|
    ensures After(first, rs, n).meta.Some?
    ensures var (current, previous) := After(first, rs, n).meta.value; var fps := Fingerprints(current, previous);
            && current.isCurrent && (forall k | 0 <= k < |previous| :: !previous[k].isCurrent)
            && |fps| == Min(n + 1, 3) && (forall k | 0 <= k < |fps| :: fps[k] == KeyAt(first, rs, n - k))
  {
    AfterRotations(first, rs, n);
    ExpectedFingerprints(first, rs, n);
  }

  lemma ExpectedFingerprints(first: Key, rs: seq<Rotation>, n: nat)
    requires 0 < n <= |rs|
    ensures var previous := LastRetired(first, rs, n); var fps := Fingerprints(KeyMetadata(KeyAt(first, rs, n), true), previous);
            && (forall k | 0 <= k < |previous| :: !previous[k].isCurrent)
            && |fps| == Min(n + 1, 3) && (forall k | 0 <= k < |fps| :: fps[k] == KeyAt(first, rs, n - k))
  {
  }

  /** The backups are the key pairs of exactly the recorded previous keys. */
  lemma BackupsAfter(first: Key, rs: seq<Rotation>, n: nat)
    requires Proper(first, rs) && 0 < n <= |rs|
    ensures After(first, rs, n).meta.Some?
    ensures BacksUp(After(first, rs, n).files, After(first, rs, n).meta.value.1,
                    if n == 1 then [rs[0].stamp] else [rs[n - 1].stamp, rs[n - 2].stamp])
  {
    AfterRotations(first, rs, n);
    if n == 1 {
      OnePairBacksUp(KeyAt(first, rs, 0), rs[0]);
    } else {
      assert Follows(rs[n - 2], rs[n - 1]);
      TwoPairsBackUp(KeyAt(first, rs, n - 2), KeyAt(first, rs, n - 1), rs[n - 2], rs[n - 1]);
    }
  }

  lemma OnePairBacksUp(k: Key, r: Rotation)
    ensures BacksUp(Pair(k, r), [Retired(k)], [r.stamp])
  {
  }

  lemma TwoPairsBackUp(k0: Key, k1: Key, r0: Rotation, r1: Rotation)
    requires r0.stamp != r1.stamp
    ensures BacksUp(Pair(k0, r0) + Pair(k1, r1), [Retired(k1), Retired(k0)], [r1.stamp, r0.stamp])
  {
    var files := Pair(k0, r0) + Pair(k1, r1);
    forall x | x in files
      ensures x.stamp in [r1.stamp, r0.stamp]
    {
      assert x in Pair(k0, r0) || x in Pair(k1, r1);
    }
  }

  /** A key set loaded in the order of the fingerprints verifies tokens of the current and the last retired key only. */
  lemma VerificationAfter(first: Key, rs: seq<Rotation>, n: nat, signer: Key)
    requires Proper(first, rs) && 0 < n <= |rs|
    ensures After(first, rs, n).meta.Some?
    ensures var fps := Fingerprints(After(first, rs, n).meta.value.0, After(first, rs, n).meta.value.1);
            Accepts(fps[0], fps[1..], signer) <==> signer == KeyAt(first, rs, n) || signer == KeyAt(first, rs, n - 1)
  {
    FingerprintsAfter(first, rs, n);
  }

  // ----- two rotations in one second -----

  ghost predicate HasBackup(files: Files, key: Key) {
    exists x | x in files :: files[x].key == key
  }

  /** The active key is the one the metadata calls current, and no backup holds it yet. */
  ghost predicate Consistent(d: Dir) {
    && (d.meta.Some? ==> d.meta.value.0.fingerprint == d.active && |d.meta.value.1| <= MAX_PREVIOUS)
    && !HasBackup(d.files, d.active)
  }

  /** After two rotations the metadata lists the key that was active before them second. */
  lemma ListedSecond(d: Dir, r0: Rotation, r1: Rotation)
    requires Consistent(d)
    ensures Apply(Apply(d, r0), r1).meta.Some?
    ensures |Apply(Apply(d, r0), r1).meta.value.1| == 2 && Apply(Apply(d, r0), r1).meta.value.1[1] == Retired(d.active)
  {
  }

  /** A second rotation in the same second overwrites the only copies of the key it still lists as previous. */
  lemma SameSecondLosesBackup(d: Dir, r0: Rotation, r1: Rotation)
    requires Consistent(d) && r0.newKey != d.active && r0.stamp == r1.stamp
    ensures Apply(Apply(d, r0), r1).meta.Some?
    ensures |Apply(Apply(d, r0), r1).meta.value.1| == 2 && Apply(Apply(d, r0), r1).meta.value.1[1] == Retired(d.active)
    ensures !HasBackup(Apply(Apply(d, r0), r1).files, d.active)
  {
    ListedSecond(d, r0, r1);
    var d1 := Apply(d, r0);
    forall x | x in Apply(d1, r1).files ensures Apply(d1, r1).files[x].key != d.active {
      assert x.stamp != r0.stamp ==> x in d1.files && x in d.files && d1.files[x] == d.files[x];
    }
  }

  /** The copies of the second rotation are not older than those of the first. */
  predicate Later(r: Rotation, r': Rotation) {
    Max(r.privateTime, r.publicTime) <= Min(r'.privateTime, r'.publicTime)
  }

  predicate YoungerThan(files: Files, r: Rotation) {
    forall x | x in files :: files[x].mtime < Min(r.privateTime, r.publicTime)
  }

  ghost predicate AllYounger(newer: Files, older: Files) {
    forall x, y | x in newer && y in older && y !in newer :: newer[x].mtime > older[y].mtime
  }

  /** Up to four files that are younger than the rest survive the cleanup. */
  lemma NewestSurvive(older: Files, newer: Files, listing: seq<FileName>, x: FileName)
    requires |newer.Keys| <= KEEP_BACKUPS && AllYounger(newer, older) && SortedListing(older + newer, listing) && x in newer
    ensures x in KeepFirst(older + newer, listing, KEEP_BACKUPS)
  {
    NewestComeFirst(older + newer, listing, newer.Keys);
    FrontStays(older + newer, listing, |newer.Keys|, x);
  }

  lemma FrontStays(files: Files, listing: seq<FileName>, n: nat, x: FileName)
    requires n <= KEEP_BACKUPS && n <= |listing| && x in Elements(listing[..n]) && x in files
    ensures x in KeepFirst(files, listing, KEEP_BACKUPS)
  {
    var k :| 0 <= k < n && listing[..n][k] == x;
    if KEEP_BACKUPS <= |listing| { assert listing[..KEEP_BACKUPS][k] == x; } else { assert listing[k] == x; }
  }

  /** The pair a rotation archives survives its own cleanup. */
  lemma PairSurvives(files: Files, key: Key, r: Rotation, x: FileName)
    requires YoungerThan(files, r) && SortedListing(Archived(files, key, r), r.listing) && x in Pair(key, r)
    ensures x in KeepFirst(Archived(files, key, r), r.listing, KEEP_BACKUPS)
  {
    PairIsYounger(files, key, r);
    NewestSurvive(files, Pair(key, r), r.listing, x);
  }

  lemma PairIsYounger(files: Files, key: Key, r: Rotation)
    requires YoungerThan(files, r)
    ensures |Pair(key, r).Keys| <= KEEP_BACKUPS && AllYounger(Pair(key, r), files)
  {
    assert Pair(key, r).Keys == {Bak(true, r.stamp), Bak(false, r.stamp)};
  }

  /** The pair of the rotation before, archived under another stamp, survives as well. */
  lemma PreviousPairSurvives(older: Files, files: Files, k0: Key, k1: Key, r0: Rotation, r1: Rotation, x: FileName)
    requires r0.stamp != r1.stamp && Later(r0, r1) && YoungerThan(older, r0) && x in Pair(k0, r0)
    requires files.Keys <= Archived(older, k0, r0).Keys && forall y | y in files :: files[y] == Archived(older, k0, r0)[y]
    requires forall y | y in Pair(k0, r0) :: y in files
    requires SortedListing(Archived(files, k1, r1), r1.listing)
    ensures x in KeepFirst(Archived(files, k1, r1), r1.listing, KEEP_BACKUPS)
  {
    TwoPairs(k0, k1, r0, r1);
    TwoPairsYounger(older, files, k0, k1, r0, r1);
    PairAlreadyThere(files, Pair(k0, r0), Pair(k1, r1));
    NewestSurvive(files, Pair(k0, r0) + Pair(k1, r1), r1.listing, x);
  }

  lemma PairAlreadyThere(files: Files, p: Files, q: Files)
    requires forall y | y in p :: y in files && files[y] == p[y]
    ensures files + (p + q) == files + q
  {
  }

  lemma TwoPairsYounger(older: Files, files: Files, k0: Key, k1: Key, r0: Rotation, r1: Rotation)
    requires Later(r0, r1) && YoungerThan(older, r0)
    requires files.Keys <= Archived(older, k0, r0).Keys && forall y | y in files :: files[y] == Archived(older, k0, r0)[y]
    ensures AllYounger(Pair(k0, r0) + Pair(k1, r1), files)
  {
    forall x, y | x in Pair(k0, r0) + Pair(k1, r1) && y in files && y !in Pair(k0, r0) + Pair(k1, r1)
      ensures (Pair(k0, r0) + Pair(k1, r1))[x].mtime > files[y].mtime
    {
      assert files[y] == older[y];
    }
  }

  /** Files archived by two rotations in different seconds: the first pair outlives both cleanups. */
  lemma FirstPairStays(older: Files, files: Files, k0: Key, k1: Key, r0: Rotation, r1: Rotation)
    requires r0.stamp != r1.stamp && Later(r0, r1) && YoungerThan(older, r0)
    requires SortedListing(Archived(older, k0, r0), r0.listing) && files == KeepFirst(Archived(older, k0, r0), r0.listing, KEEP_BACKUPS)
    requires SortedListing(Archived(files, k1, r1), r1.listing)
    ensures HasBackup(KeepFirst(Archived(files, k1, r1), r1.listing, KEEP_BACKUPS), k0)
  {
    forall y | y in Pair(k0, r0) ensures y in files {
      PairSurvives(older, k0, r0, y);
    }
    var x := Bak(true, r0.stamp);
    PreviousPairSurvives(older, files, k0, k1, r0, r1, x);
    assert KeepFirst(Archived(files, k1, r1), r1.listing, KEEP_BACKUPS)[x].key == k0;
  }

  /** The key listed second still has a backup exactly when the two rotations ran in different seconds. */
  lemma BackupKeptIffSecondsDiffer(d: Dir, r0: Rotation, r1: Rotation)
    requires Consistent(d) && r0.newKey != d.active
    requires Enabled(d, r0) && Enabled(Apply(d, r0), r1) && YoungerThan(d.files, r0) && Later(r0, r1)
    ensures HasBackup(Apply(Apply(d, r0), r1).files, d.active) <==> r0.stamp != r1.stamp
  {
    if r0.stamp == r1.stamp {
      SameSecondLosesBackup(d, r0, r1);
    } else {
      FirstPairStays(d.files, Apply(d, r0).files, d.active, r0.newKey, r0, r1);
    }
  }
}
