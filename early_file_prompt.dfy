/**
 * The earlier client's file chooser. It does not stop on an empty
 * listing, and its filter loops are followed by a loop that appends every
 * entry's index whatever the filter, so the filters do not restrict the
 * choice.
 */
module EarlyFileChooser {
  import opened Common
  import opened FileChooser

  /** The indices the three loops append, in order: the filter loops run only when their tier is given. */
  function EarlyListed(files: seq<Entry>, accessType: Option<Permission>, notAccessType: Option<Permission>): (r: seq<int>)
    ensures forall k :: k in r ==> 1 <= k <= |files|
  {
    (if accessType.Some? then Listed(files, |files|, Only(accessType.value)) else [])
    + (if notAccessType.Some? then Listed(files, |files|, Except(notAccessType.value)) else [])
    + Listed(files, |files|, Any)
  }

  /**
   * `file_prompt` of the earlier client: the same reading and checking of
   * the answer, over the indices of all three loops.
   */
  method FilePrompt(files: seq<Entry>, answer: Option<int>, accessType: Option<Permission>,
                    notAccessType: Option<Permission>) returns (r: Choice)
    ensures r != NoFiles
    ensures answer.None? ==> r == InvalidIndex
    ensures answer.Some? ==>
              r == if answer.value in EarlyListed(files, accessType, notAccessType)
                   then Chosen(files[answer.value - 1].fileId) else InvalidIndex
  {
    var indices: seq<int> := [];
    if accessType.Some? {
      indices := Collect(files, Only(accessType.value));
    }
    if notAccessType.Some? {
      var excepted := Collect(files, Except(notAccessType.value));
      indices := indices + excepted;
    }
    var all := Collect(files, Any);
    indices := indices + all;
    if answer.None? {
      return InvalidIndex;
    }
    var index := answer.value;
    if index !in indices {
      return InvalidIndex;
    }
    r := Chosen(files[index - 1].fileId);
  }

  /**
   * The filter loops only repeat indices the unconditional loop also
   * appends, so the accepted indices are those of the unfiltered listing.
   */
  lemma EarlyAcceptsAll(files: seq<Entry>, accessType: Option<Permission>, notAccessType: Option<Permission>, k: int)
    ensures k in EarlyListed(files, accessType, notAccessType) <==> k in Listed(files, |files|, Any)
  {
    if accessType.Some? {
      ListedMeaning(files, |files|, Only(accessType.value), k);
    }
    if notAccessType.Some? {
      ListedMeaning(files, |files|, Except(notAccessType.value), k);
    }
    ListedMeaning(files, |files|, Any, k);
  }

  /**
   * With distinct entries every index from 1 to the length is accepted,
   * whatever the filters; with no entries none is.
   */
  lemma EarlyAcceptance(files: seq<Entry>, accessType: Option<Permission>, notAccessType: Option<Permission>, k: int)
    requires Distinct(files)
    ensures k in EarlyListed(files, accessType, notAccessType) <==> 1 <= k <= |files|
    ensures files == [] ==> k !in EarlyListed(files, accessType, notAccessType)
  {
    EarlyAcceptsAll(files, accessType, notAccessType, k);
    DistinctListed(files, Any, k);
  }

  /**
   * The filters are ineffective: asked for an owner-tier file, the earlier
   * chooser accepts the index of a read-tier entry, which the current
   * chooser rejects.
   */
  lemma FiltersIneffective()
    ensures var files := [Entry(0, Read, [])];
            && 1 in EarlyListed(files, Some(Owner), None)
            && 1 !in Listed(files, |files|, EffectiveFilter(Some(Owner), None))
  {
    var files := [Entry(0, Read, [])];
    ListedMeaning(files, 1, Any, 1);
    ListedMeaning(files, 1, Only(Owner), 1);
    EarlyAcceptsAll(files, Some(Owner), None, 1);
  }
}
