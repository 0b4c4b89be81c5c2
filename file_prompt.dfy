/**
 * The client's file chooser: it lists the caller's grants, collects the
 * 1-based indices the optional tier filter lets through, reads an index
 * and returns the chosen grant's file id. An index is collected as
 * `files.index(entry) + 1`, the position of the first equal entry.
 */
module FileChooser {
  import opened Common

  /** One grant as listed for the caller: the file id, the tier and the file's name. */
  datatype Entry = Entry(fileId: FileId, access: Permission, fileName: seq<byte>)

  /** Which tiers a listing loop lets through. */
  datatype Filter = Only(tier: Permission) | Except(tier: Permission) | Any

  predicate Selects(filter: Filter, p: Permission)
  {
    match filter
    case Only(t) => p == t
    case Except(t) => p != t
    case Any => true
  }

  /** `access_type` takes precedence over `not_access_type`; with neither, every entry is listed. */
  function EffectiveFilter(accessType: Option<Permission>, notAccessType: Option<Permission>): (f: Filter)
    ensures accessType.Some? ==> f == Only(accessType.value)
    ensures accessType.None? && notAccessType.Some? ==> f == Except(notAccessType.value)
    ensures accessType.None? && notAccessType.None? ==> f == Any
  {
    if accessType.Some? then Only(accessType.value)
    else if notAccessType.Some? then Except(notAccessType.value)
    else Any
  }

  /** `files.index(e)`: the position of the first entry equal to `e`. */
  function IndexOf(files: seq<Entry>, e: Entry): (i: nat)
    requires e in files
    ensures i < |files| && files[i] == e
    ensures forall j :: 0 <= j < i ==> files[j] != e
  {
    if files[0] == e then 0 else 1 + IndexOf(files[1..], e)
  }

  /** No entry is listed twice (the grant rows have a primary key). */
  ghost predicate Distinct(files: seq<Entry>)
  {
    forall i, j :: 0 <= i < j < |files| ==> files[i] != files[j]
  }

  /** The indices a listing loop over the first `n` entries appends, in order. */
  function Listed(files: seq<Entry>, n: nat, filter: Filter): (r: seq<int>)
    requires n <= |files|
    ensures forall k :: k in r ==> 1 <= k <= n
  {
    if n == 0 then []
    else Listed(files, n - 1, filter)
         + (if Selects(filter, files[n - 1].access) then [IndexOf(files, files[n - 1]) + 1] else [])
  }

  /**
   * An index is listed exactly when it is the 1-based position of an
   * entry the filter lets through and no earlier entry is equal to it.
   */
  lemma {:induction false} ListedMeaning(files: seq<Entry>, n: nat, filter: Filter, k: int)
    requires n <= |files|
    ensures k in Listed(files, n, filter) <==>
              1 <= k <= n && Selects(filter, files[k - 1].access) && IndexOf(files, files[k - 1]) == k - 1
  {
    if n > 0 {
      ListedMeaning(files, n - 1, filter, k);
      var m := IndexOf(files, files[n - 1]);
      if k == m + 1 && Selects(filter, files[n - 1].access) {
        assert files[m] == files[n - 1];
        assert IndexOf(files, files[k - 1]) == k - 1;
      }
      if k == n && Selects(filter, files[n - 1].access) && IndexOf(files, files[k - 1]) == k - 1 {
        assert k in Listed(files, n, filter);
      }
    }
  }

  /** With distinct entries the listed indices are exactly the positions the filter lets through. */
  lemma DistinctListed(files: seq<Entry>, filter: Filter, k: int)
    requires Distinct(files)
    ensures k in Listed(files, |files|, filter) <==> 1 <= k <= |files| && Selects(filter, files[k - 1].access)
  {
    ListedMeaning(files, |files|, filter, k);
  }

  /**
   * One listing loop: walks the entries in order and appends
   * `files.index(entry) + 1` for every entry the filter lets through.
   */
  method Collect(files: seq<Entry>, filter: Filter) returns (indices: seq<int>)
    ensures indices == Listed(files, |files|, filter)
  {
    indices := [];
    for i := 0 to |files|
      invariant indices == Listed(files, i, filter)
    {
      if Selects(filter, files[i].access) {
        indices := indices + [IndexOf(files, files[i]) + 1];
      }
    }
  }

  /** The outcome of the chooser: a file id, FileNotFoundException, or IndexException. */
  datatype Choice = Chosen(fileId: FileId) | NoFiles | InvalidIndex

  /**
   * `file_prompt`: an empty listing is FileNotFoundException; otherwise
   * the indices are collected by the one listing loop the filters select,
   * the answer is read (`None` when it is not an integer), and an answer
   * outside the collected indices is IndexException.
   */
  method FilePrompt(files: seq<Entry>, answer: Option<int>, accessType: Option<Permission>,
                    notAccessType: Option<Permission>) returns (r: Choice)
    ensures files == [] <==> r == NoFiles
    ensures files != [] && answer.None? ==> r == InvalidIndex
    ensures files != [] && answer.Some? ==>
              var filter := EffectiveFilter(accessType, notAccessType);
              r == if answer.value in Listed(files, |files|, filter)
                   then Chosen(files[answer.value - 1].fileId) else InvalidIndex
    ensures r.Chosen? ==> answer.Some? && 1 <= answer.value <= |files|
                          && Selects(EffectiveFilter(accessType, notAccessType), files[answer.value - 1].access)
                          && r.fileId == files[answer.value - 1].fileId
  {
    if |files| == 0 {
      return NoFiles;
    }
    var filter := EffectiveFilter(accessType, notAccessType);
    var indices := Collect(files, filter);
    if answer.None? {
      return InvalidIndex;
    }
    var index := answer.value;
    if index !in indices {
      return InvalidIndex;
    }
    ListedMeaning(files, |files|, filter, index);
    r := Chosen(files[index - 1].fileId);
  }
}
