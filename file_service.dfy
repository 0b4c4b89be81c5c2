/**
 * The file records and the access ledger of the relational store, and the
 * record operations of the file service: create a file with its owner
 * grant, edit file fields, query, change, add and remove a grant, and
 * delete a file with all its grants.
 *
 * The object invariant of the ledger is the ownership rule: every grant
 * names an existing file, and every file has exactly one owner grant.
 * Single service operations do not all keep it (a transfer of ownership
 * goes through a state with no owner); the handlers that combine them do.
 */
module FileService {
  import opened Common
  import opened Storage

  /** A row of the `files` table: name, stored size and storage path. */
  datatype FileRecord = FileRecord(name: seq<byte>, size: Option<nat>, path: Option<Path>)

  /** The primary key of a row of the `userfile` table. */
  datatype GrantKey = GrantKey(user: UserId, file: FileId)

  type Grants = map<GrantKey, Permission>

  predicate IsOwner(grants: Grants, u: UserId, f: FileId)
  {
    GrantKey(u, f) in grants && grants[GrantKey(u, f)] == Owner
  }

  /** File `f` has exactly one owner grant. */
  ghost predicate OneOwner(grants: Grants, f: FileId)
  {
    && (exists u :: IsOwner(grants, u, f))
    && (forall u, v :: IsOwner(grants, u, f) && IsOwner(grants, v, f) ==> u == v)
  }

  /** Every grant names an existing file, and every file has exactly one owner. */
  ghost predicate LedgerInvariant(files: map<FileId, FileRecord>, grants: Grants)
  {
    && (forall k :: k in grants ==> k.file in files)
    && (forall f :: f in files ==> OneOwner(grants, f))
  }

  /**
   * The record after `edit_user_file`: a field is replaced only when the
   * value passed for it is truthy, so an omitted field, a size of 0 and an
   * empty name all keep the old value.
   */
  function Edited(rec: FileRecord, size: Option<nat>, name: Option<seq<byte>>, path: Option<Path>): (r: FileRecord)
    ensures size.None? || size == Some(0) ==> r.size == rec.size
    ensures size.Some? && size.value != 0 ==> r.size == size
    ensures name.None? || name == Some([]) ==> r.name == rec.name
    ensures name.Some? && name.value != [] ==> r.name == name.value
    ensures path.None? ==> r.path == rec.path
    ensures path.Some? ==> r.path == path
  {
    FileRecord(
      if name.Some? && name.value != [] then name.value else rec.name,
      if size.Some? && size.value != 0 then size else rec.size,
      if path.Some? then path else rec.path)
  }

  /** The grants of one user, by file: the rows `get_user_files` returns. */
  function GrantsOfUser(grants: Grants, u: UserId): (r: map<FileId, Permission>)
    ensures forall f :: f in r <==> GrantKey(u, f) in grants
    ensures forall f :: f in r ==> r[f] == grants[GrantKey(u, f)]
  {
    map k | k in grants && k.user == u :: k.file := grants[k]
  }

  /** The grants on one file, by user: the `users` of `get_file_info`'s record. */
  function GrantsOnFile(grants: Grants, f: FileId): (r: map<UserId, Permission>)
    ensures forall u :: u in r <==> GrantKey(u, f) in grants
    ensures forall u :: u in r ==> r[u] == grants[GrantKey(u, f)]
  {
    map k | k in grants && k.file == f :: k.user := grants[k]
  }

  /** The ledger without any grant on file `f`. */
  function WithoutFile(grants: Grants, f: FileId): (r: Grants)
    ensures forall k :: k in r <==> k in grants && k.file != f
    ensures forall k :: k in r ==> r[k] == grants[k]
  {
    map k | k in grants && k.file != f :: grants[k]
  }

  /** Deleting a file with all its grants keeps the ledger invariant. */
  lemma WithoutFileKeepsInvariant(files: map<FileId, FileRecord>, grants: Grants, f: FileId)
    requires LedgerInvariant(files, grants)
    ensures LedgerInvariant(files - {f}, WithoutFile(grants, f))
  {
    var g := WithoutFile(grants, f);
    forall h | h in files - {f} ensures OneOwner(g, h) {
      assert forall u :: IsOwner(g, u, h) <==> IsOwner(grants, u, h);
    }
  }

  /** A new file with one owner grant keeps the ledger invariant. */
  lemma CreateKeepsInvariant(files: map<FileId, FileRecord>, grants: Grants, u: UserId, f: FileId, rec: FileRecord)
    requires LedgerInvariant(files, grants)
    requires f !in files
    ensures LedgerInvariant(files[f := rec], grants[GrantKey(u, f) := Owner])
  {
    var g := grants[GrantKey(u, f) := Owner];
    assert IsOwner(g, u, f);
    forall h | h in files ensures OneOwner(g, h) {
      assert forall v :: IsOwner(g, v, h) <==> IsOwner(grants, v, h);
    }
  }

  class Ledger {
    var files: map<FileId, FileRecord>
    var grants: Grants
    /** Stands in for the uuid default of the `id` column: ids are never reused. */
    var nextId: FileId

    ghost predicate Valid()
      reads this
    {
      && LedgerInvariant(files, grants)
      && (forall f :: f in files ==> f < nextId)
    }

    constructor ()
      ensures Valid() && files == map[] && grants == map[]
    {
      files, grants, nextId := map[], map[], 0;
    }

    /** `create_user_file`: one new file record and its owner grant, nothing else. */
    method CreateUserFile(user: UserId, name: seq<byte>) returns (id: FileId, rec: FileRecord)
      requires Valid()
      modifies this
      ensures Valid()
      ensures id !in old(files) && rec == FileRecord(name, None, None)
      ensures files == old(files)[id := rec]
      ensures grants == old(grants)[GrantKey(user, id) := Owner]
    {
      id := nextId;
      rec := FileRecord(name, None, None);
      CreateKeepsInvariant(files, grants, user, id, rec);
      files := files[id := rec];
      grants := grants[GrantKey(user, id) := Owner];
      nextId := nextId + 1;
    }

    /** `edit_user_file`: the truthy fields replace the stored ones. */
    method EditUserFile(id: FileId, size: Option<nat>, name: Option<seq<byte>>, path: Option<Path>)
      returns (rec: FileRecord)
      requires Valid() && id in files
      modifies this
      ensures Valid()
      ensures rec == Edited(old(files)[id], size, name, path)
      ensures files == old(files)[id := rec]
      ensures grants == old(grants)
    {
      rec := Edited(files[id], size, name, path);
      files := files[id := rec];
    }

    /** `get_file_info`: the record with its grants, or `None`. */
    function GetFileInfo(id: FileId): (r: Option<(FileRecord, map<UserId, Permission>)>)
      reads this
      ensures r.Some? <==> id in files
      ensures r.Some? ==> r.value.0 == files[id] && r.value.1 == GrantsOnFile(grants, id)
    {
      if id in files then Some((files[id], GrantsOnFile(grants, id))) else None
    }

    /** `get_user_files`: exactly the grants of that user. */
    function GetUserFiles(user: UserId): (r: map<FileId, Permission>)
      reads this
      ensures forall f :: f in r <==> GrantKey(user, f) in grants
      ensures forall f :: f in r ==> r[f] == grants[GrantKey(user, f)]
    {
      GrantsOfUser(grants, user)
    }

    /** `get_user_file`: the grant of that pair, or `None`. */
    function GetUserFile(user: UserId, id: FileId): (r: Option<Permission>)
      reads this
      ensures r.Some? <==> GrantKey(user, id) in grants
      ensures r.Some? ==> r.value == grants[GrantKey(user, id)]
    {
      var k := GrantKey(user, id);
      if k in grants then Some(grants[k]) else None
    }

    /** `change_file_access`: only the tier of that grant changes. */
    method ChangeFileAccess(user: UserId, id: FileId, tier: Permission)
      requires GrantKey(user, id) in grants
      modifies this
      ensures grants == old(grants)[GrantKey(user, id) := tier]
      ensures files == old(files) && nextId == old(nextId)
    {
      grants := grants[GrantKey(user, id) := tier];
    }

    /** `add_file_access`: inserts one grant (the pair is the primary key, the file a foreign key). */
    method AddFileAccess(user: UserId, id: FileId, tier: Permission)
      requires GrantKey(user, id) !in grants && id in files
      modifies this
      ensures grants == old(grants)[GrantKey(user, id) := tier]
      ensures files == old(files) && nextId == old(nextId)
    {
      grants := grants[GrantKey(user, id) := tier];
    }

    /** `remove_file_access`: deletes exactly that grant. */
    method RemoveFileAccess(user: UserId, id: FileId) returns (removed: Permission)
      requires GrantKey(user, id) in grants
      modifies this
      ensures removed == old(grants)[GrantKey(user, id)]
      ensures grants == old(grants) - {GrantKey(user, id)}
      ensures files == old(files) && nextId == old(nextId)
    {
      removed := grants[GrantKey(user, id)];
      grants := grants - {GrantKey(user, id)};
    }

    /**
     * `delete_user_file`: deletes the grants on the file one by one, then
     * the file record, and returns the deleted record.
     */
    method DeleteUserFile(id: FileId) returns (rec: FileRecord)
      requires Valid() && id in files
      modifies this
      ensures Valid()
      ensures rec == old(files)[id]
      ensures grants == WithoutFile(old(grants), id)
      ensures files == old(files) - {id}
    {
      var pending := set k | k in grants && k.file == id;
      while pending != {}
        invariant pending <= grants.Keys
        invariant forall k :: k in pending ==> k.file == id
        invariant forall k :: k in grants <==> k in old(grants) && (k.file != id || k in pending)
        invariant forall k :: k in grants ==> grants[k] == old(grants)[k]
        invariant files == old(files) && nextId == old(nextId)
        decreases pending
      {
        var k :| k in pending;
        grants := grants - {k};
        pending := pending - {k};
      }
      assert grants == WithoutFile(old(grants), id);
      rec := files[id];
      WithoutFileKeepsInvariant(files, old(grants), id);
      files := files - {id};
    }
  }
}
