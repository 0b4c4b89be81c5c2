/**
 * The first file endpoints: a flat directory of files keyed by name, with
 * no users, records or grants. Upload writes under the upload's name,
 * listing returns the names, and download, rename and delete answer 404
 * for a name that is not there.
 */
module FlatFileRouter {
  import opened Common

  /** A directory entry's name. */
  type Name = seq<byte>

  class FlatStore {
    /** The files under the directory, by name. */
    var files: map<Name, seq<byte>>

    constructor ()
      ensures files == map[]
    {
      files := map[];
    }

    /** `create_upload_file`: the lines, in order, become the content under the name; an old entry is overwritten. */
    method CreateUploadFile(name: Name, lines: seq<seq<byte>>) returns (stored: Name)
      modifies this
      ensures stored == name
      ensures files == old(files)[name := Concat(lines)]
    {
      files := files[name := []];
      var i := 0;
      while i < |lines|
        invariant i <= |lines|
        invariant files == old(files)[name := Concat(lines[..i])]
      {
        ConcatAppend(lines[..i], lines[i]);
        assert lines[..i + 1] == lines[..i] + [lines[i]];
        files := files[name := files[name] + lines[i]];
        i := i + 1;
      }
      assert lines[..i] == lines;
      stored := name;
    }

    /** `get_files`: exactly the stored names. */
    function GetFiles(): (names: set<Name>)
      reads this
      ensures forall n :: n in names <==> n in files
    {
      files.Keys
    }

    /** `download_file`: 404 for an absent name, otherwise the content stored under it. */
    function DownloadFile(name: Name): (r: Result<seq<byte>>)
      reads this
      ensures r.Ok? <==> name in files
      ensures r.Ok? ==> r.value == files[name]
      ensures r.Err? ==> r.error == NotFound
    {
      if name !in files then Err(NotFound) else Ok(files[name])
    }

    /**
     * `rename_file`: 404 for an absent source; otherwise the content moves
     * to the target name, replacing any entry there, and the source name
     * is gone (renaming a name to itself changes nothing).
     */
    method RenameFile(target: Name, source: Name) returns (r: Result<()>)
      modifies this
      ensures source !in old(files) ==> r == Err(NotFound) && files == old(files)
      ensures source in old(files) ==> r == Ok(()) && files == (old(files) - {source})[target := old(files)[source]]
    {
      if source !in files {
        return Err(NotFound);
      }
      files := (files - {source})[target := files[source]];
      r := Ok(());
    }

    /** `delete_file`: 404 for an absent name; otherwise only that name is removed. */
    method DeleteFile(name: Name) returns (r: Result<()>)
      modifies this
      ensures name !in old(files) ==> r == Err(NotFound) && files == old(files)
      ensures name in old(files) ==> r == Ok(()) && files == old(files) - {name}
    {
      if name !in files {
        return Err(NotFound);
      }
      files := files - {name};
      r := Ok(());
    }
  }

  /** After a rename the content is under the target, the source is gone, and other names keep theirs. */
  lemma RenameMoves(files: map<Name, seq<byte>>, source: Name, target: Name)
    requires source in files && source != target
    ensures var after := (files - {source})[target := files[source]];
            && source !in after && after[target] == files[source]
            && forall n :: n != source && n != target ==> (n in after <==> n in files) && (n in after ==> after[n] == files[n])
  {
  }
}
