/** The engine's values, for one sync pair. Timestamps are nanoseconds. */
module Types {
  import opened Collections
  import opened Paths

  type Timestamp = int

  datatype FileKind = File | Directory

  datatype FileSyncState = Clean | Dirty | PendingUpload | PendingDownload | PendingConflict | InFlight

  datatype ConflictSide = LocalSide | RemoteSide

  /** One side's view of a file or directory. */
  datatype FileSide = FileSide(
    kind: FileKind,
    size: nat,
    hash: Option<string>,
    mtime: Timestamp,
    etag: Option<string>,
    remoteId: Option<string>)

  /** The stored row of one path: both sides and the last synced base. */
  datatype FileEntry = FileEntry(
    path: RelPath,
    kind: FileKind,
    state: FileSyncState,
    local: Option<FileSide>,
    remote: Option<FileSide>,
    synced: Option<FileSide>,
    pendingOp: Option<nat>,
    updatedAt: Timestamp)

  /** One item of a delta page. */
  datatype RemoteItem = RemoteItem(
    id: string,
    name: string,
    size: nat,
    eTag: Option<string>,
    folder: bool,
    deleted: bool,
    parentPath: Option<string>)

  datatype DecisionKind =
    | Upload
    | Download
    | LocalDelete
    | RemoteDelete
    | LocalMkdir
    | RemoteMkdir
    | LocalRename(newPath: RelPath)
    | RemoteRename(newPath: RelPath)
    | ConflictDetected
    | Conflict(winner: ConflictSide, loserPath: RelPath)
    | NoOp
  {
    predicate IsConflict()
    {
      ConflictDetected? || Conflict?
    }

    function ToOpKind(): Option<OpKind>
    {
      match this
      case Upload => Some(OpUpload)
      case Download => Some(OpDownload)
      case LocalDelete => Some(OpLocalDelete)
      case RemoteDelete => Some(OpRemoteDelete)
      case LocalMkdir => Some(OpLocalMkdir)
      case RemoteMkdir => Some(OpRemoteMkdir)
      case LocalRename(_) => Some(OpLocalRename)
      case RemoteRename(_) => Some(OpRemoteRename)
      case _ => None
    }
  }

  datatype OpKind =
    | OpUpload | OpDownload | OpLocalDelete | OpRemoteDelete
    | OpLocalMkdir | OpRemoteMkdir | OpLocalRename | OpRemoteRename

  datatype Decision = Decision(path: RelPath, kind: DecisionKind)

  /** The metadata keys an operation can carry. */
  datatype OpMeta = OpMeta(
    remoteItemId: Option<string>,
    parentRemoteId: Option<string>,
    newPath: Option<RelPath>,
    newName: Option<string>,
    fromConflict: bool)

  const NO_META := OpMeta(None, None, None, None, false)

  datatype FileOp = FileOp(path: RelPath, kind: OpKind, meta: OpMeta, enqueuedAt: Timestamp)

  /** A `Conflict` row. */
  datatype ConflictRow = ConflictRow(
    path: RelPath,
    winner: ConflictSide,
    loserPath: RelPath,
    local: FileSide,
    remote: FileSide,
    detectedAt: Timestamp)

  /** What the engine takes from its surroundings as pure text functions. */
  datatype Env = Env(
    root: string,
    host: string,
    fold: string -> string,
    shortHash: string -> string,
    stampText: Timestamp -> string)

  /** The path of a delta item below the pair root, if it is a valid one. */
  function ItemPath(item: RemoteItem): Option<RelPath>
  {
    var parentDir := match item.parentPath
      case None => ""
      case Some(p) => TrimSlashes(AfterColon(p));
    ParseRel(if parentDir == "" then item.name else parentDir + "/" + item.name)
  }

  lemma {:induction false} FirstColon(prefix: string, rest: string)
    requires ':' !in prefix
    ensures AfterColon(prefix + ":" + rest) == rest
  {
    var s := prefix + ":" + rest;
    assert s[|prefix|] == ':';
    if prefix != "" {
      FirstColon(prefix[1..], rest);
      assert s[1..] == prefix[1..] + ":" + rest;
      assert s[0] == prefix[0] && prefix[0] in prefix;
    }
  }

  /** An item in folder `dir` of the drive, or in its root, lies at `dir/name`, or at `name`. */
  lemma ItemPathNests(item: RemoteItem, prefix: string, dir: string)
    requires item.parentPath == Some(prefix + ":" + (if dir == "" then "" else "/" + dir))
    requires ':' !in prefix && (dir != "" ==> dir[0] != '/')
    ensures ItemPath(item) == ParseRel(if dir == "" then item.name else dir + "/" + item.name)
  {
    hide AfterColon, TrimSlashes, ParseRel;
    FirstColon(prefix, if dir == "" then "" else "/" + dir);
    if dir == "" {
      assert TrimSlashes("") == "" by { TrimNothing(); }
    } else {
      TrimOne(dir);
    }
  }

  /** An item without a parent path lies in the root; a parent path without a colon is the folder itself. */
  lemma ItemPathElse(item: RemoteItem)
    ensures item.parentPath.None? ==> ItemPath(item) == ParseRel(item.name)
    ensures
      item.parentPath.Some? && ':' !in item.parentPath.value ==>
        var dir := TrimSlashes(item.parentPath.value);
        ItemPath(item) == ParseRel(if dir == "" then item.name else dir + "/" + item.name)
  {
    hide ParseRel, TrimSlashes;
  }

  function ItemKind(item: RemoteItem): FileKind
  {
    if item.folder then Directory else File
  }

  function RemoteSideOf(item: RemoteItem, now: Timestamp): FileSide
  {
    FileSide(ItemKind(item), item.size, None, now, item.eTag, Some(item.id))
  }
}
