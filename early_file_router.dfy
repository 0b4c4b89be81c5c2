/**
 * The file endpoints of the earlier server where they differ from the
 * current ones: the upload writes the bytes uncompressed, the download
 * hands out the stored path, revoking a grant the target does not hold is
 * a silent success, and a failed removal of the bytes is not caught.
 * Its `rename_file`, `change_access` and `file_access_info` behave as
 * `FileRouter.RenameFile`, `FileRouter.ChangeAccess` and
 * `FileRouter.FileAccessInfo`.
 */
module EarlyFileRouter {
  import opened Common
  import opened Storage
  import opened FileService
  import opened UserService
  import opened FileRouter

  /**
   * `create_upload_file`: a new record owned by the caller and the bytes
   * copied line by line, uncompressed. The size is the object's length,
   * and an empty upload has size 0, which is falsy, so no size is
   * recorded for it.
   */
  method CreateUploadFile(ledger: Ledger, disk: Disk, actor: UserId, filename: seq<byte>,
                          lines: seq<seq<byte>>, base: string) returns (id: FileId, rec: FileRecord)
    requires ledger.Valid()
    modifies ledger, disk
    ensures ledger.Valid()
    ensures id !in old(ledger.files)
    ensures rec.name == filename && rec.path == Some(StoragePath(base, id))
    ensures |Concat(lines)| == 0 ==> rec.size.None?
    ensures |Concat(lines)| > 0 ==> rec.size == Some(|Concat(lines)|)
    ensures ledger.files == old(ledger.files)[id := rec]
    ensures ledger.grants == old(ledger.grants)[GrantKey(actor, id) := Owner]
    ensures disk.objects == old(disk.objects)[StoragePath(base, id) := Concat(lines)]
  {
    var created;
    id, created := ledger.CreateUserFile(actor, filename);
    var p := StoragePath(base, id);
    disk.WriteLines(p, lines);
    rec := ledger.EditUserFile(id, Some(|disk.objects[p]|), None, Some(p));
  }

  /** `download_file`: NotFound without a grant; otherwise the stored path, sent under the record's name. */
  function DownloadFile(ledger: Ledger, actor: UserId, f: FileId, base: string): (r: Result<(Path, seq<byte>)>)
    reads ledger
    requires ledger.Valid()
    ensures r.Err? <==> GrantKey(actor, f) !in ledger.grants
    ensures r.Err? ==> r.error == NotFound
    ensures r.Ok? ==> f in ledger.files && r.value == (StoragePath(base, f), ledger.files[f].name)
  {
    if GrantKey(actor, f) !in ledger.grants then Err(NotFound)
    else Ok((StoragePath(base, f), ledger.files[f].name))
  }

  /**
   * `remove_access`: the same guard chain as the current server, but a
   * target without a grant is answered with `None` and nothing changes.
   */
  method RemoveAccess(ledger: Ledger, rows: seq<User>, actor: UserId, target: UserId, f: FileId)
    returns (r: Result<Option<Permission>>)
    requires ledger.Valid()
    modifies ledger
    ensures ledger.Valid()
    ensures ledger.files == old(ledger.files)
    ensures var guard := AccessGuard(old(ledger.grants), rows, actor, target, f);
            && (guard.Err? ==> r == Err(guard.error) && ledger.grants == old(ledger.grants))
            && (guard.Ok? && GrantKey(target, f) !in old(ledger.grants) ==>
                  r == Ok(None) && ledger.grants == old(ledger.grants))
            && (guard.Ok? && GrantKey(target, f) in old(ledger.grants) ==>
                  && r == Ok(Some(old(ledger.grants)[GrantKey(target, f)]))
                  && ledger.grants == old(ledger.grants) - {GrantKey(target, f)})
  {
    var guard := AccessGuard(ledger.grants, rows, actor, target, f);
    if guard.Err? {
      return Err(guard.error);
    }
    var existing := ledger.GetUserFile(target, f);
    if existing.None? {
      return Ok(None);
    }
    TargetNotOwner(ledger.files, ledger.grants, rows, actor, target, f);
    RevokeKeepsInvariant(ledger.files, ledger.grants, target, f);
    var removed := ledger.RemoveFileAccess(target, f);
    r := Ok(Some(removed));
  }

  /**
   * `delete_file`: owner only; grants and record are deleted, then the
   * bytes. Nothing catches a failed removal, so a record without a path
   * and a missing object both end in a server error, with the metadata
   * already gone.
   */
  method DeleteFile(ledger: Ledger, disk: Disk, actor: UserId, f: FileId) returns (r: Result<FileRecord>)
    requires ledger.Valid()
    modifies ledger, disk
    ensures ledger.Valid()
    ensures var guard := DeleteGuard(old(ledger.grants), actor, f);
            && (guard.Err? ==> r == Err(guard.error) && ledger.files == old(ledger.files)
                               && ledger.grants == old(ledger.grants) && disk.objects == old(disk.objects))
            && (guard.Ok? ==>
                  var rec := old(ledger.files)[f];
                  && ledger.files == old(ledger.files) - {f}
                  && ledger.grants == WithoutFile(old(ledger.grants), f)
                  && (rec.path.None? ==> r == Err(ServerError) && disk.objects == old(disk.objects))
                  && (rec.path.Some? ==> disk.objects == old(disk.objects) - {rec.path.value})
                  && (rec.path.Some? && rec.path.value !in old(disk.objects) ==> r == Err(ServerError))
                  && (rec.path.Some? && rec.path.value in old(disk.objects) ==> r == Ok(rec)))
  {
    var guard := DeleteGuard(ledger.grants, actor, f);
    if guard.Err? {
      return Err(guard.error);
    }
    assert f in ledger.files;
    var rec := ledger.DeleteUserFile(f);
    if rec.path.None? {
      return Err(ServerError);
    }
    var removed := disk.Remove(rec.path.value);
    if !removed {
      return Err(ServerError);
    }
    r := Ok(rec);
  }
}
