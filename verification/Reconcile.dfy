/** The three-way merge decision for one path, and what it may conclude about content. */
module Reconcile {
  import opened Collections
  import opened Types

  /** Parked: the engine does not act on the path this cycle. */
  predicate IsActionBlocking(state: FileSyncState)
  {
    state == InFlight || state == PendingConflict
  }

  function ReconcileKind(entry: Option<FileEntry>, remote: Option<RemoteItem>): DecisionKind
  {
    match (entry, remote)
    case (None, None) => NoOp
    case (None, Some(r)) => if r.folder then LocalMkdir else Download
    case (Some(_), None) => LocalDelete
    case (Some(e), Some(r)) => ReconcileBoth(e, r)
  }

  function ReconcileBoth(entry: FileEntry, remote: RemoteItem): DecisionKind
  {
    if IsActionBlocking(entry.state) then NoOp
    else
      match (LocalDiffersFromSynced(entry.local, entry.synced), RemoteDiffersFromSynced(remote, entry.synced))
      case (false, false) => NoOp
      case (false, true) => if remote.folder then LocalMkdir else Download
      case (true, false) => if entry.kind == Directory then RemoteMkdir else Upload
      case (true, true) =>
        if entry.local.Some? && LocalEqualsRemote(entry.local.value, remote) then NoOp else ConflictDetected
  }

  predicate LocalEqualsRemote(local: FileSide, remote: RemoteItem)
  {
    if local.kind.Directory? != remote.folder then false
    else if local.kind.Directory? then true
    else if local.size != remote.size then false
    else if local.size == 0 then true
    else local.etag.Some? && remote.eTag.Some? && local.etag == remote.eTag
  }

  predicate RemoteDiffersFromSynced(remote: RemoteItem, synced: Option<FileSide>)
  {
    if synced.None? then true
    else if synced.value.kind.Directory? != remote.folder then true
    else if synced.value.etag.Some? && remote.eTag.Some? then synced.value.etag != remote.eTag
    else if synced.value.size != remote.size then true
    else synced.value.size != 0
  }

  predicate LocalDiffersFromSynced(local: Option<FileSide>, synced: Option<FileSide>)
  {
    match (local, synced)
    case (None, None) => false
    case (Some(l), Some(s)) => !IdentifiesSameContentAs(l, s)
    case _ => true
  }

  predicate IdentifiesSameContentAs(a: FileSide, b: FileSide)
  {
    a.kind == b.kind && a.size == b.size && a.hash == b.hash
  }

  // ---------------------------------------------------------------- what the metadata means

  /** An item that is listed again unchanged is no news, unless it lacks an etag and is not empty. */
  lemma SameItemIsNews(item: RemoteItem, at: Timestamp)
    ensures RemoteDiffersFromSynced(item, Some(RemoteSideOf(item, at))) <==> item.eTag.None? && item.size > 0
    ensures LocalEqualsRemote(RemoteSideOf(item, at), item) <==> item.folder || item.size == 0 || item.eTag.Some?
  {
  }

  /** A file scanned without a hash passes for a downloaded one of its length, whatever it holds. */
  lemma ScannedPassesForDownloaded(side: FileSide, item: RemoteItem, at: Timestamp)
    requires side.hash.None?
    ensures LocalDiffersFromSynced(Some(side), Some(RemoteSideOf(item, at)))
            <==> side.kind.Directory? != item.folder || side.size != item.size
  {
  }

  /** Two items at one path: the second is news if it is of another kind or has another etag. */
  lemma ChangedItemIsNews(item: RemoteItem, at: Timestamp, next: RemoteItem)
    ensures RemoteDiffersFromSynced(next, Some(RemoteSideOf(item, at))) <==>
            || next.folder != item.folder
            || (if next.eTag.Some? && item.eTag.Some? then next.eTag != item.eTag else next.size > 0 || item.size > 0)
  {
  }

  /** An assignment of contents to the two kinds of metadata record. */
  datatype Contents = Contents(side: FileSide -> int, item: RemoteItem -> int)

  /**
   * The assignments in which the evidence the engine relies on is good for the records at hand:
   * directories have no content to differ in, nor have empty files; equal hashes of equally long
   * files mean equal content; equal etags mean equal content.
   */
  ghost predicate Plausible(c: Contents, sides: set<FileSide>, items: set<RemoteItem>)
  {
    && (forall a, b :: a in sides && b in sides && a.kind == b.kind && SameEvidence(a, b) ==> c.side(a) == c.side(b))
    && (forall a, r :: a in sides && r in items && a.kind == ItemKind(r) && SameRemoteEvidence(a, r) ==>
          c.side(a) == c.item(r))
  }

  /** The records of one merge: both stored sides, next to the remote item. */
  function SidesOf(entry: FileEntry): set<FileSide>
  {
    (if entry.local.Some? then {entry.local.value} else {})
    + (if entry.synced.Some? then {entry.synced.value} else {})
  }

  predicate SameEvidence(a: FileSide, b: FileSide)
  {
    || a.kind.Directory?
    || (a.size == 0 && b.size == 0)
    || (a.size == b.size && a.hash.Some? && a.hash == b.hash)
    || (a.etag.Some? && a.etag == b.etag)
  }

  predicate SameRemoteEvidence(a: FileSide, r: RemoteItem)
  {
    || a.kind.Directory?
    || (a.size == 0 && r.size == 0)
    || (a.etag.Some? && a.etag == r.eTag)
  }

  /** Absent sides have equal (no) content; otherwise contents are compared. */
  predicate SameSide(c: Contents, a: Option<FileSide>, b: Option<FileSide>)
  {
    match (a, b)
    case (None, None) => true
    case (Some(x), Some(y)) => c.side(x) == c.side(y)
    case _ => false
  }

  /** The local side does not pass for the base: one of them is missing, or kind, size or hash differ. */
  predicate HasEdit(entry: FileEntry)
  {
    match (entry.local, entry.synced)
    case (None, None) => false
    case (Some(l), Some(s)) => l.kind != s.kind || l.size != s.size || l.hash != s.hash
    case _ => true
  }

  /**
   * The item does not pass for the base: there is none, or the kinds differ, or the etags do, or
   * one lacks an etag and not both are empty.
   */
  predicate HasNews(entry: FileEntry, remote: RemoteItem)
  {
    entry.synced.Some? ==>
      var s := entry.synced.value;
      || s.kind != ItemKind(remote)
      || (if s.etag.Some? && remote.eTag.Some? then s.etag != remote.eTag else s.size > 0 || remote.size > 0)
  }

  /** Both are directories, or empty files, or files of one size with one etag. */
  predicate AreAlike(side: FileSide, remote: RemoteItem)
  {
    && side.kind == ItemKind(remote)
    && (|| remote.folder || (side.size == 0 && remote.size == 0)
        || (side.size == remote.size && side.etag.Some? && side.etag == remote.eTag))
  }

  /** A row whose operation is under way, or that is parked, is left alone. */
  lemma BlockedIsLeftAlone(entry: FileEntry, remote: RemoteItem)
    requires entry.state == InFlight || entry.state == PendingConflict
    ensures ReconcileBoth(entry, remote) == NoOp
  {
  }

  /** What a merge decision says about the contents, for the assignment `c`. */
  predicate IsRight(c: Contents, entry: FileEntry, remote: RemoteItem)
  {
    match ReconcileBoth(entry, remote)
    case NoOp => entry.local.Some? && c.side(entry.local.value) == c.item(remote)
    case Download => SameSide(c, entry.local, entry.synced) && HasNews(entry, remote) && !remote.folder
    case LocalMkdir => SameSide(c, entry.local, entry.synced) && HasNews(entry, remote) && remote.folder
    case Upload =>
      HasEdit(entry) && entry.synced.Some? && c.side(entry.synced.value) == c.item(remote) && entry.kind.File?
    case RemoteMkdir =>
      HasEdit(entry) && entry.synced.Some? && c.side(entry.synced.value) == c.item(remote) && entry.kind.Directory?
    case ConflictDetected =>
      HasEdit(entry) && HasNews(entry, remote) && !(entry.local.Some? && AreAlike(entry.local.value, remote))
    case _ => false
  }

  /** If the local side passes for the base, it is the base, or there is evidence that it equals it. */
  predicate IsTrusted(entry: FileEntry)
  {
    entry.local.Some? && entry.synced.Some? && IdentifiesSameContentAs(entry.local.value, entry.synced.value) ==>
      entry.local == entry.synced || SameEvidence(entry.local.value, entry.synced.value)
  }

  /**
   * For every row that is not blocked: the merge is right in every plausible assignment, that is,
   * nothing is transferred over a side that moved away from the base, nothing is transferred or
   * called a conflict that passes for the base, and doing nothing means that both sides agree,
   * exactly if the row is trusted.
   */
  lemma MergeIsSound(entry: FileEntry, remote: RemoteItem)
    requires entry.state != InFlight && entry.state != PendingConflict
    ensures
      (forall c: Contents :: Plausible(c, SidesOf(entry), {remote}) ==> IsRight(c, entry, remote)) <==> IsTrusted(entry)
  {
    if IsTrusted(entry) {
      forall c: Contents | Plausible(c, SidesOf(entry), {remote}) ensures IsRight(c, entry, remote) {
        TrustedIsRight(c, entry, remote);
      }
    } else {
      var c := UntrustedIsWrong(entry, remote);
      assert Plausible(c, SidesOf(entry), {remote}) && !IsRight(c, entry, remote);
    }
  }

  lemma TrustedIsRight(c: Contents, entry: FileEntry, remote: RemoteItem)
    requires Plausible(c, SidesOf(entry), {remote}) && IsTrusted(entry)
    requires entry.state != InFlight && entry.state != PendingConflict
    ensures IsRight(c, entry, remote)
  {
    if entry.synced.Some? {
      var s := entry.synced.value;
      if !RemoteDiffersFromSynced(remote, entry.synced) {
        assert s.kind == ItemKind(remote) && SameRemoteEvidence(s, remote);
      }
    }
    if entry.local.Some? && LocalEqualsRemote(entry.local.value, remote) {
      assert SameRemoteEvidence(entry.local.value, remote);
    }
  }

  /** An untrusted row hides a local edit in some plausible assignment. */
  lemma UntrustedIsWrong(entry: FileEntry, remote: RemoteItem) returns (c: Contents)
    requires entry.state != InFlight && entry.state != PendingConflict && !IsTrusted(entry)
    ensures Plausible(c, SidesOf(entry), {remote}) && !IsRight(c, entry, remote)
  {
    var l, s := entry.local.value, entry.synced.value;
    // The remote item goes with the side that there is evidence for; it cannot be both.
    var withLocal := l.kind == ItemKind(remote) && SameRemoteEvidence(l, remote);
    c := Contents((x: FileSide) => if x == l then 1 else 0, (r: RemoteItem) => if withLocal then 1 else 0);
    assert SidesOf(entry) == {l, s};
    assert !SameSide(c, entry.local, entry.synced);
    assert !LocalDiffersFromSynced(entry.local, entry.synced);
    if !RemoteDiffersFromSynced(remote, entry.synced) {
      assert s.kind == ItemKind(remote) && SameRemoteEvidence(s, remote);
    }
  }

  /**
   * The comparison by itself: two different records it calls the same have the same content in
   * every plausible assignment exactly when there is evidence.
   */
  lemma SameContentIffEvidence(a: FileSide, b: FileSide)
    requires IdentifiesSameContentAs(a, b) && a != b
    ensures (forall c: Contents :: Plausible(c, {a, b}, {}) ==> c.side(a) == c.side(b)) <==> SameEvidence(a, b)
  {
    if !SameEvidence(a, b) {
      var c := Contents((x: FileSide) => if x == a then 1 else 0, (r: RemoteItem) => 0);
      assert Plausible(c, {a, b}, {}) && c.side(a) != c.side(b);
    }
  }

  /**
   * The concrete case of an untrusted row: a hashless base, an edit of equal length, and the
   * decision to download over it. The cycle still promotes that to a conflict if it scans the file.
   */
  lemma HashlessEditIsDownloadedOver(path: string, oldTime: Timestamp, newTime: Timestamp, remote: RemoteItem)
    requires oldTime != newTime && !remote.folder && remote.eTag == Some("v2")
    ensures
      var base := FileSide(File, 7, None, oldTime, Some("v1"), None);
      var edited := FileSide(File, 7, None, newTime, None, None);
      var entry := FileEntry(path, File, Clean, Some(edited), None, Some(base), None, newTime);
      && ReconcileBoth(entry, remote) == Download && !IsTrusted(entry)
      && exists c: Contents :: Plausible(c, SidesOf(entry), {remote}) && c.side(edited) != c.side(base)
  {
    var base := FileSide(File, 7, None, oldTime, Some("v1"), None);
    var edited := FileSide(File, 7, None, newTime, None, None);
    var entry := FileEntry(path, File, Clean, Some(edited), None, Some(base), None, newTime);
    var c := Contents((x: FileSide) => if x == edited then 1 else 0, (r: RemoteItem) => 2);
    assert SidesOf(entry) == {edited, base};
    assert "v1" != "v2";
    assert Plausible(c, SidesOf(entry), {remote}) && c.side(edited) != c.side(base);
  }
}
