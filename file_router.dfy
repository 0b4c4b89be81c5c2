/**
 * The file endpoints of the current server: upload (whole and streamed),
 * download with its Content-Disposition header and chunked body, access
 * information, rename, edit (whole and streamed), grant and revoke
 * access, and delete. Each endpoint is a guard chain over the ledger
 * followed by a few ledger and disk operations. The caller is the user
 * the access-token check returned; `rows` are the user rows that
 * `get_user` consults; `base` is `FILE_BASE_PATH`.
 */
module FileRouter {
  import opened Common
  import opened Storage
  import opened FileService
  import opened UserService
  import ContentDisposition

  // ---------------------------------------------------------------------
  // Guards
  // ---------------------------------------------------------------------

  /**
   * The guard chain of `change_access` and `remove_access`: targeting
   * oneself is Forbidden; then the caller needs a grant (NotFound) that is
   * the owner tier (Unauthorized); then the target user must exist
   * (NotFound).
   */
  function AccessGuard(grants: Grants, rows: seq<User>, actor: UserId, target: UserId, f: FileId): (r: Result<()>)
    ensures target == actor ==> r == Err(Forbidden)
    ensures r.Ok? <==> target != actor && IsOwner(grants, actor, f) && FindById(rows, target).Some?
    ensures r == Err(Unauthorized) <==> target != actor && GrantKey(actor, f) in grants && !IsOwner(grants, actor, f)
    ensures r.Err? ==> r.error in {Forbidden, NotFound, Unauthorized}
  {
    if target == actor then Err(Forbidden)
    else if GrantKey(actor, f) !in grants then Err(NotFound)
    else if grants[GrantKey(actor, f)] != Owner then Err(Unauthorized)
    else if FindById(rows, target).None? then Err(NotFound)
    else Ok(())
  }

  /** The guard of `rename_file`, `edit_file` and `stream_edit_file`: a grant, and not the read tier. */
  function EditGuard(grants: Grants, actor: UserId, f: FileId): (r: Result<()>)
    ensures r == Err(NotFound) <==> GrantKey(actor, f) !in grants
    ensures r == Err(Unauthorized) <==> GrantKey(actor, f) in grants && grants[GrantKey(actor, f)] == Read
    ensures r.Ok? <==> GrantKey(actor, f) in grants && (grants[GrantKey(actor, f)] == Owner || grants[GrantKey(actor, f)] == Edit)
  {
    if GrantKey(actor, f) !in grants then Err(NotFound)
    else match grants[GrantKey(actor, f)]
      case Read => Err(Unauthorized)
      case Owner => Ok(())
      case Edit => Ok(())
  }

  /** The guard of `delete_file`: a grant (NotFound), of the owner tier (Unauthorized). */
  function DeleteGuard(grants: Grants, actor: UserId, f: FileId): (r: Result<()>)
    ensures r == Err(NotFound) <==> GrantKey(actor, f) !in grants
    ensures r.Ok? <==> IsOwner(grants, actor, f)
    ensures r.Err? ==> r.error in {NotFound, Unauthorized}
  {
    if GrantKey(actor, f) !in grants then Err(NotFound)
    else if grants[GrantKey(actor, f)] != Owner then Err(Unauthorized)
    else Ok(())
  }

  // ---------------------------------------------------------------------
  // Grant changes and the single-owner rule
  // ---------------------------------------------------------------------

  /**
   * The grants after a successful `change_access`: for the owner tier the
   * caller is first demoted to edit; then the target's grant is created or
   * overwritten with the requested tier.
   */
  function WithGrant(grants: Grants, actor: UserId, target: UserId, f: FileId, tier: Permission): (g: Grants)
    requires target != actor
    ensures g.Keys == grants.Keys + {GrantKey(target, f)} + (if tier == Owner then {GrantKey(actor, f)} else {})
    ensures g[GrantKey(target, f)] == tier
    ensures tier == Owner ==> g[GrantKey(actor, f)] == Edit
    ensures forall k :: k in grants && k != GrantKey(target, f) && (tier != Owner || k != GrantKey(actor, f))
                        ==> g[k] == grants[k]
  {
    var demoted := if tier == Owner then grants[GrantKey(actor, f) := Edit] else grants;
    demoted[GrantKey(target, f) := tier]
  }

  /**
   * Granting keeps the ledger invariant: a transfer moves the single
   * owner grant from the caller to the target, and any other tier leaves
   * the caller as the single owner (the target is never the owner, being
   * distinct from the caller).
   */
  lemma {:induction false} GrantKeepsInvariant(files: map<FileId, FileRecord>, grants: Grants, actor: UserId,
                                               target: UserId, f: FileId, tier: Permission)
    requires LedgerInvariant(files, grants) && IsOwner(grants, actor, f) && target != actor
    ensures LedgerInvariant(files, WithGrant(grants, actor, target, f, tier))
    ensures tier == Owner ==> IsOwner(WithGrant(grants, actor, target, f, tier), target, f)
    ensures tier != Owner ==> IsOwner(WithGrant(grants, actor, target, f, tier), actor, f)
  {
    var g := WithGrant(grants, actor, target, f, tier);
    assert f in files;
    assert OneOwner(grants, f);
    forall h | h in files ensures OneOwner(g, h) {
      if h != f {
        assert forall u :: IsOwner(g, u, h) <==> IsOwner(grants, u, h);
      } else if tier == Owner {
        assert IsOwner(g, target, f);
        forall u | IsOwner(g, u, f) ensures u == target {
          assert u != target && u != actor ==> IsOwner(grants, u, f);
        }
      } else {
        assert IsOwner(g, actor, f);
        assert forall u :: IsOwner(g, u, f) ==> IsOwner(grants, u, f);
      }
    }
  }

  /** Revoking a grant that is not the owner grant keeps the ledger invariant. */
  lemma {:induction false} RevokeKeepsInvariant(files: map<FileId, FileRecord>, grants: Grants, target: UserId, f: FileId)
    requires LedgerInvariant(files, grants) && !IsOwner(grants, target, f)
    ensures LedgerInvariant(files, grants - {GrantKey(target, f)})
  {
    var g := grants - {GrantKey(target, f)};
    forall h | h in files ensures OneOwner(g, h) {
      assert forall u :: IsOwner(g, u, h) <==> IsOwner(grants, u, h);
    }
  }

  /** A caller that passed the access guard is the owner, so the target never holds the owner grant. */
  lemma TargetNotOwner(files: map<FileId, FileRecord>, grants: Grants, rows: seq<User>, actor: UserId, target: UserId, f: FileId)
    requires LedgerInvariant(files, grants) && AccessGuard(grants, rows, actor, target, f).Ok?
    ensures !IsOwner(grants, target, f)
  {
    assert f in files;
    assert OneOwner(grants, f);
  }

  /** `change_access`: the guard chain, then demote-then-promote. */
  method ChangeAccess(ledger: Ledger, rows: seq<User>, actor: UserId, target: UserId, f: FileId, tier: Permission)
    returns (r: Result<Permission>)
    requires ledger.Valid()
    modifies ledger
    ensures ledger.Valid()
    ensures ledger.files == old(ledger.files)
    ensures var guard := AccessGuard(old(ledger.grants), rows, actor, target, f);
            && (guard.Err? ==> r == Err(guard.error) && ledger.grants == old(ledger.grants))
            && (guard.Ok? ==> r == Ok(tier) && ledger.grants == WithGrant(old(ledger.grants), actor, target, f, tier))
  {
    var guard := AccessGuard(ledger.grants, rows, actor, target, f);
    if guard.Err? {
      return Err(guard.error);
    }
    GrantKeepsInvariant(ledger.files, ledger.grants, actor, target, f, tier);
    assert f in ledger.files;
    if tier == Owner {
      ledger.ChangeFileAccess(actor, f, Edit);
    }
    var existing := ledger.GetUserFile(target, f);
    if existing.None? {
      ledger.AddFileAccess(target, f, tier);
    } else {
      ledger.ChangeFileAccess(target, f, tier);
    }
    r := Ok(tier);
  }

  /**
   * `remove_access`: the guard chain, then NotFound when the target holds
   * no grant, else exactly the target's grant is deleted.
   */
  method RemoveAccess(ledger: Ledger, rows: seq<User>, actor: UserId, target: UserId, f: FileId)
    returns (r: Result<Permission>)
    requires ledger.Valid()
    modifies ledger
    ensures ledger.Valid()
    ensures ledger.files == old(ledger.files)
    ensures var guard := AccessGuard(old(ledger.grants), rows, actor, target, f);
            && (guard.Err? ==> r == Err(guard.error) && ledger.grants == old(ledger.grants))
            && (guard.Ok? && GrantKey(target, f) !in old(ledger.grants) ==>
                  r == Err(NotFound) && ledger.grants == old(ledger.grants))
            && (guard.Ok? && GrantKey(target, f) in old(ledger.grants) ==>
                  && r == Ok(old(ledger.grants)[GrantKey(target, f)]) && r.value != Owner
                  && ledger.grants == old(ledger.grants) - {GrantKey(target, f)})
  {
    var guard := AccessGuard(ledger.grants, rows, actor, target, f);
    if guard.Err? {
      return Err(guard.error);
    }
    var existing := ledger.GetUserFile(target, f);
    if existing.None? {
      return Err(NotFound);
    }
    TargetNotOwner(ledger.files, ledger.grants, rows, actor, target, f);
    RevokeKeepsInvariant(ledger.files, ledger.grants, target, f);
    var removed := ledger.RemoveFileAccess(target, f);
    r := Ok(removed);
  }

  // ---------------------------------------------------------------------
  // Rename and edit
  // ---------------------------------------------------------------------

  /** The keyword parameters `edit_user_file` declares after `db` and `file_id`. */
  const EDIT_PARAMETERS: set<string> := {"file_size", "file_name", "file_path"}

  /**
   * Binding a call of `edit_user_file` by keyword: a keyword the function
   * does not declare makes the call itself raise `TypeError`, which no
   * handler catches, so the request ends in a server error.
   */
  function BindEditCall(keywords: set<string>): (r: Result<()>)
    ensures r.Ok? <==> keywords <= EDIT_PARAMETERS
    ensures r.Err? ==> r.error == ServerError
  {
    if keywords <= EDIT_PARAMETERS then Ok(()) else Err(ServerError)
  }

  /**
   * The calls the three handlers make as written all carry `updated_at`,
   * so none of them binds; the calls without it do.
   */
  lemma HandlerEditCallsUnbound()
    ensures BindEditCall({"file_name", "updated_at"}) == Err(ServerError)
    ensures BindEditCall({"file_name", "file_size", "file_path", "updated_at"}) == Err(ServerError)
    ensures BindEditCall({"file_name"}).Ok? && BindEditCall({"file_name", "file_size", "file_path"}).Ok?
  {
    assert "updated_at" !in EDIT_PARAMETERS;
  }

  /**
   * `rename_file` as written: past the guard the service call does not
   * bind, so every permitted rename fails with a server error and the
   * record keeps its name.
   */
  method RenameFileAsWritten(ledger: Ledger, actor: UserId, f: FileId, name: seq<byte>) returns (r: Result<FileRecord>)
    ensures var guard := EditGuard(ledger.grants, actor, f);
            && (guard.Err? ==> r == Err(guard.error))
            && (guard.Ok? ==> r == Err(ServerError))
  {
    var guard := EditGuard(ledger.grants, actor, f);
    if guard.Err? {
      return Err(guard.error);
    }
    var call := BindEditCall({"file_name", "updated_at"});
    HandlerEditCallsUnbound();
    r := Err(call.error);
  }

  /**
   * `rename_file` as intended (and as the earlier server has it): owner
   * and edit grants rename the file; an empty name keeps the old one.
   */
  method RenameFile(ledger: Ledger, actor: UserId, f: FileId, name: seq<byte>) returns (r: Result<FileRecord>)
    requires ledger.Valid()
    modifies ledger
    ensures ledger.Valid()
    ensures ledger.grants == old(ledger.grants)
    ensures var guard := EditGuard(old(ledger.grants), actor, f);
            && (guard.Err? ==> r == Err(guard.error) && ledger.files == old(ledger.files))
            && (guard.Ok? ==> f in old(ledger.files)
                              && r == Ok(Edited(old(ledger.files)[f], None, Some(name), None))
                              && ledger.files == old(ledger.files)[f := r.value])
  {
    var guard := EditGuard(ledger.grants, actor, f);
    if guard.Err? {
      return Err(guard.error);
    }
    var rec := ledger.EditUserFile(f, None, Some(name), None);
    r := Ok(rec);
  }

  /**
   * `edit_file` as written: past the guard the new bytes replace the
   * object, and then the service call fails to bind, so the record keeps
   * its old name and size while the bytes have already changed.
   */
  method EditFileAsWritten(ledger: Ledger, disk: Disk, actor: UserId, f: FileId, filename: seq<byte>,
                           data: seq<byte>, base: string) returns (r: Result<FileRecord>)
    modifies disk
    ensures var guard := EditGuard(ledger.grants, actor, f);
            && (guard.Err? ==> r == Err(guard.error) && disk.objects == old(disk.objects))
            && (guard.Ok? ==> r == Err(ServerError)
                              && disk.objects == old(disk.objects)[StoragePath(base, f) := Compress(data)])
  {
    var guard := EditGuard(ledger.grants, actor, f);
    if guard.Err? {
      return Err(guard.error);
    }
    disk.WriteCompressed(StoragePath(base, f), data);
    var call := BindEditCall({"file_name", "file_size", "file_path", "updated_at"});
    HandlerEditCallsUnbound();
    r := Err(call.error);
  }

  /**
   * `edit_file` as intended: the bytes are replaced and the record takes
   * the upload's file name, the stored (compressed) size and the path.
   */
  method EditFile(ledger: Ledger, disk: Disk, actor: UserId, f: FileId, filename: seq<byte>,
                  data: seq<byte>, base: string) returns (r: Result<FileRecord>)
    requires ledger.Valid()
    modifies ledger, disk
    ensures ledger.Valid()
    ensures ledger.grants == old(ledger.grants)
    ensures var guard := EditGuard(old(ledger.grants), actor, f);
            var p := StoragePath(base, f);
            && (guard.Err? ==> r == Err(guard.error) && ledger.files == old(ledger.files)
                               && disk.objects == old(disk.objects))
            && (guard.Ok? ==> f in old(ledger.files)
                              && disk.objects == old(disk.objects)[p := Compress(data)]
                              && r == Ok(Edited(old(ledger.files)[f], Some(|Compress(data)|), Some(filename), Some(p)))
                              && ledger.files == old(ledger.files)[f := r.value])
  {
    var guard := EditGuard(ledger.grants, actor, f);
    if guard.Err? {
      return Err(guard.error);
    }
    var p := StoragePath(base, f);
    disk.WriteCompressed(p, data);
    var rec := ledger.EditUserFile(f, Some(|Compress(data)|), Some(filename), Some(p));
    r := Ok(rec);
  }

  /** `stream_edit_file` as written: the chunks are written, then the service call fails to bind. */
  method StreamEditFileAsWritten(ledger: Ledger, disk: Disk, actor: UserId, f: FileId, name: seq<byte>,
                                 chunks: seq<seq<byte>>, base: string) returns (r: Result<FileRecord>)
    modifies disk
    ensures var guard := EditGuard(ledger.grants, actor, f);
            && (guard.Err? ==> r == Err(guard.error) && disk.objects == old(disk.objects))
            && (guard.Ok? ==> r == Err(ServerError)
                              && disk.objects == old(disk.objects)[StoragePath(base, f) := Compress(Concat(chunks))])
  {
    var guard := EditGuard(ledger.grants, actor, f);
    if guard.Err? {
      return Err(guard.error);
    }
    disk.WriteCompressedChunks(StoragePath(base, f), chunks);
    var call := BindEditCall({"file_name", "file_size", "file_path", "updated_at"});
    HandlerEditCallsUnbound();
    r := Err(call.error);
  }

  /** `stream_edit_file` as intended: the chunks, in order, become the new content. */
  method StreamEditFile(ledger: Ledger, disk: Disk, actor: UserId, f: FileId, name: seq<byte>,
                        chunks: seq<seq<byte>>, base: string) returns (r: Result<FileRecord>)
    requires ledger.Valid()
    modifies ledger, disk
    ensures ledger.Valid()
    ensures ledger.grants == old(ledger.grants)
    ensures var guard := EditGuard(old(ledger.grants), actor, f);
            var p := StoragePath(base, f);
            var stored := Compress(Concat(chunks));
            && (guard.Err? ==> r == Err(guard.error) && ledger.files == old(ledger.files)
                               && disk.objects == old(disk.objects))
            && (guard.Ok? ==> f in old(ledger.files)
                              && disk.objects == old(disk.objects)[p := stored]
                              && r == Ok(Edited(old(ledger.files)[f], Some(|stored|), Some(name), Some(p)))
                              && ledger.files == old(ledger.files)[f := r.value])
  {
    var guard := EditGuard(ledger.grants, actor, f);
    if guard.Err? {
      return Err(guard.error);
    }
    var p := StoragePath(base, f);
    disk.WriteCompressedChunks(p, chunks);
    var rec := ledger.EditUserFile(f, Some(|Compress(Concat(chunks))|), Some(name), Some(p));
    r := Ok(rec);
  }

  // ---------------------------------------------------------------------
  // Upload and delete
  // ---------------------------------------------------------------------

  /**
   * `upload_file`: a new record owned by the caller, the compressed bytes
   * at the file's path, and the record's size and path filled in. A gzip
   * object is never empty, so the size is always recorded.
   */
  method UploadFile(ledger: Ledger, disk: Disk, actor: UserId, filename: seq<byte>, data: seq<byte>, base: string)
    returns (id: FileId, rec: FileRecord)
    requires ledger.Valid()
    modifies ledger, disk
    ensures ledger.Valid()
    ensures id !in old(ledger.files)
    ensures rec == FileRecord(filename, Some(|Compress(data)|), Some(StoragePath(base, id)))
    ensures ledger.files == old(ledger.files)[id := rec]
    ensures ledger.grants == old(ledger.grants)[GrantKey(actor, id) := Owner]
    ensures disk.objects == old(disk.objects)[StoragePath(base, id) := Compress(data)]
  {
    var created;
    id, created := ledger.CreateUserFile(actor, filename);
    var p := StoragePath(base, id);
    disk.WriteCompressed(p, data);
    rec := ledger.EditUserFile(id, Some(|Compress(data)|), None, Some(p));
  }

  /** `stream_upload_file`: as `upload_file`, with the request chunks written in arrival order. */
  method StreamUploadFile(ledger: Ledger, disk: Disk, actor: UserId, name: seq<byte>, chunks: seq<seq<byte>>, base: string)
    returns (id: FileId, rec: FileRecord)
    requires ledger.Valid()
    modifies ledger, disk
    ensures ledger.Valid()
    ensures id !in old(ledger.files)
    ensures rec == FileRecord(name, Some(|Compress(Concat(chunks))|), Some(StoragePath(base, id)))
    ensures ledger.files == old(ledger.files)[id := rec]
    ensures ledger.grants == old(ledger.grants)[GrantKey(actor, id) := Owner]
    ensures disk.objects == old(disk.objects)[StoragePath(base, id) := Compress(Concat(chunks))]
  {
    var created;
    id, created := ledger.CreateUserFile(actor, name);
    var p := StoragePath(base, id);
    disk.WriteCompressedChunks(p, chunks);
    rec := ledger.EditUserFile(id, Some(|Compress(Concat(chunks))|), None, Some(p));
  }

  /**
   * `delete_file`: owner only. The grants and the record are deleted
   * first; then the bytes. A record without a path makes the removal
   * raise `TypeError` (a server error), a missing object is NotFound, and
   * in both cases the metadata is already gone.
   */
  method DeleteFile(ledger: Ledger, disk: Disk, actor: UserId, f: FileId) returns (r: Result<FileRecord>)
    requires ledger.Valid()
    modifies ledger, disk
    ensures ledger.Valid()
    ensures var guard := DeleteGuard(old(ledger.grants), actor, f);
            && (guard.Err? ==> r == Err(guard.error) && ledger.files == old(ledger.files)
                               && ledger.grants == old(ledger.grants) && disk.objects == old(disk.objects))
            && (guard.Ok? ==>
                  var rec := old(ledger.files)[f];
                  && ledger.files == old(ledger.files) - {f}
                  && ledger.grants == WithoutFile(old(ledger.grants), f)
                  && (rec.path.None? ==> r == Err(ServerError) && disk.objects == old(disk.objects))
                  && (rec.path.Some? ==> disk.objects == old(disk.objects) - {rec.path.value})
                  && (rec.path.Some? && rec.path.value !in old(disk.objects) ==> r == Err(NotFound))
                  && (rec.path.Some? && rec.path.value in old(disk.objects) ==> r == Ok(rec)))
  {
    var guard := DeleteGuard(ledger.grants, actor, f);
    if guard.Err? {
      return Err(guard.error);
    }
    assert f in ledger.files;
    var rec := ledger.DeleteUserFile(f);
    if rec.path.None? {
      return Err(ServerError);
    }
    var removed := disk.Remove(rec.path.value);
    if !removed {
      return Err(NotFound);
    }
    r := Ok(rec);
  }

  // ---------------------------------------------------------------------
  // Queries and download
  // ---------------------------------------------------------------------

  /** `file_access_info`: NotFound without a grant; otherwise the record with all its grants. */
  function FileAccessInfo(ledger: Ledger, actor: UserId, f: FileId): (r: Result<(FileRecord, map<UserId, Permission>)>)
    reads ledger
    requires ledger.Valid()
    ensures r.Err? <==> GrantKey(actor, f) !in ledger.grants
    ensures r.Err? ==> r.error == NotFound
    ensures r.Ok? ==> f in ledger.files && r.value.0 == ledger.files[f]
                      && actor in r.value.1 && r.value.1 == GrantsOnFile(ledger.grants, f)
  {
    if GrantKey(actor, f) !in ledger.grants then Err(NotFound)
    else Ok((ledger.files[f], GrantsOnFile(ledger.grants, f)))
  }

  /** The body of a streamed response: the chunks sent, or a stream the generator aborted. */
  datatype Body = Stream(chunks: seq<seq<byte>>) | Aborted

  datatype Response = Response(header: seq<byte>, body: Body)

  /**
   * `download_file` as written: the `try` around the response only covers
   * building it, and the object is opened lazily inside the generator, so
   * a missing or unreadable object does not produce NotFound: the
   * response starts and its body aborts.
   */
  method DownloadFileAsWritten(ledger: Ledger, disk: Disk, actor: UserId, f: FileId, base: string)
    returns (r: Result<Response>)
    ensures GrantKey(actor, f) !in ledger.grants ==> r == Err(NotFound)
    ensures GrantKey(actor, f) in ledger.grants ==> r.Ok?
    ensures GrantKey(actor, f) in ledger.grants && f in ledger.files ==>
              r.value.header == ContentDisposition.Header(ledger.files[f].name)
    ensures r.Ok? && (StoragePath(base, f) !in disk.objects || Decompress(disk.objects[StoragePath(base, f)]).None?) ==>
              r.value.body == Aborted
    ensures r.Ok? && StoragePath(base, f) in disk.objects && Decompress(disk.objects[StoragePath(base, f)]).Some? ==>
              && r.value.body.Stream?
              && Some(Concat(r.value.body.chunks)) == Decompress(disk.objects[StoragePath(base, f)])
              && (forall i :: 0 <= i < |r.value.body.chunks| ==> 0 < |r.value.body.chunks[i]| <= CHUNK_SIZE)
  {
    if GrantKey(actor, f) !in ledger.grants {
      return Err(NotFound);
    }
    var name := if f in ledger.files then ledger.files[f].name else [];
    var header := ContentDisposition.Header(name);
    var p := StoragePath(base, f);
    if p !in disk.objects || Decompress(disk.objects[p]).None? {
      return Ok(Response(header, Aborted));
    }
    var chunks := IterFile(Decompress(disk.objects[p]).value);
    r := Ok(Response(header, Stream(chunks)));
  }

  /**
   * `download_file` as intended: NotFound without a grant or without a
   * readable object; otherwise the header for the stored name and the
   * decompressed content in pieces of at most 4096 bytes.
   */
  method DownloadFile(ledger: Ledger, disk: Disk, actor: UserId, f: FileId, base: string)
    returns (r: Result<Response>)
    requires ledger.Valid()
    ensures var p := StoragePath(base, f);
            r.Ok? <==> GrantKey(actor, f) in ledger.grants && p in disk.objects && Decompress(disk.objects[p]).Some?
    ensures r.Err? ==> r.error == NotFound
    ensures r.Ok? ==>
              && f in ledger.files
              && r.value.header == ContentDisposition.Header(ledger.files[f].name)
              && r.value.body.Stream?
              && Some(Concat(r.value.body.chunks)) == Decompress(disk.objects[StoragePath(base, f)])
              && (forall i :: 0 <= i < |r.value.body.chunks| ==> 0 < |r.value.body.chunks[i]| <= CHUNK_SIZE)
  {
    if GrantKey(actor, f) !in ledger.grants {
      return Err(NotFound);
    }
    var p := StoragePath(base, f);
    if p !in disk.objects || Decompress(disk.objects[p]).None? {
      return Err(NotFound);
    }
    var header := ContentDisposition.Header(ledger.files[f].name);
    var chunks := IterFile(Decompress(disk.objects[p]).value);
    r := Ok(Response(header, Stream(chunks)));
  }

  /**
   * A file uploaded and then downloaded by its owner comes back byte for
   * byte, under the header for its name.
   */
  method UploadDownloadRoundTrip(ledger: Ledger, disk: Disk, actor: UserId, filename: seq<byte>, data: seq<byte>,
                                 base: string) returns (id: FileId, r: Result<Response>)
    requires ledger.Valid()
    modifies ledger, disk
    ensures r.Ok? && r.value.body.Stream? && Concat(r.value.body.chunks) == data
    ensures r.value.header == ContentDisposition.Header(filename)
  {
    var rec;
    id, rec := UploadFile(ledger, disk, actor, filename, data, base);
    DecompressCompress(data);
    r := DownloadFile(ledger, disk, actor, id, base);
  }
}
