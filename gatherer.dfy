/**
 * `lcats/lcats/gatherers/mass_quantities/gatherer.py`: running the single
 * story gatherer over a list of Gutenberg ids and sorting the outcomes into
 * gathered files and failures.  Gathering one story (download, metadata,
 * saving) is a parameter.
 */
module Gatherer {
  import opened Wrappers

  /** What gathering one story gives: the story id, the saved file name, the error message. */
  datatype Outcome = Outcome(story: int, filename: Option<string>, error: Option<string>)

  /** Truthiness of an optional string: present and not empty. */
  predicate Given(s: Option<string>)
  {
    s.Some? && s.value != ""
  }

  function FilenameOf(o: Outcome): Option<string> { o.filename }
  function ErrorOf(o: Outcome): Option<string> { o.error }

  /**
   * One dictionary after the outcomes, in order: `field` picks what it
   * records, and a later outcome for the same story overwrites.
   */
  function Recorded(outcomes: seq<Outcome>, field: Outcome -> Option<string>): map<int, string>
  {
    if |outcomes| == 0 then map[]
    else
      var prev := Recorded(outcomes[..|outcomes| - 1], field);
      var o := outcomes[|outcomes| - 1];
      if Given(field(o)) then prev[o.story := field(o).value] else prev
  }

  /** The gathered and the failed dictionaries. */
  function Partition(outcomes: seq<Outcome>): (map<int, string>, map<int, string>)
  {
    (Recorded(outcomes, FilenameOf), Recorded(outcomes, ErrorOf))
  }

  /** The outcomes of gathering each story, in the order of the list. */
  function Outcomes(stories: seq<int>, gatherStory: int -> Outcome): (r: seq<Outcome>)
    ensures |r| == |stories| && forall i :: 0 <= i < |stories| ==> r[i] == gatherStory(stories[i])
  {
    seq(|stories|, i requires 0 <= i < |stories| => gatherStory(stories[i]))
  }

  /** `gather_stories(stories)`: the gathered and failed dictionaries. */
  method GatherStories(stories: seq<int>, gatherStory: int -> Outcome)
    returns (gathered: map<int, string>, failed: map<int, string>)
    ensures (gathered, failed) == Partition(Outcomes(stories, gatherStory))
  {
    ghost var outcomes := Outcomes(stories, gatherStory);
    gathered, failed := map[], map[];
    for i := 0 to |stories|
      invariant (gathered, failed) == Partition(outcomes[..i])
    {
      assert outcomes[..i + 1][..i] == outcomes[..i];
      var o := gatherStory(stories[i]);
      if Given(o.filename) {
        gathered := gathered[o.story := o.filename.value];
      }
      if Given(o.error) {
        failed := failed[o.story := o.error.value];
      }
    }
    assert outcomes[..|stories|] == outcomes;
  }

  /** The last outcome before `n` for `story` whose `field` is given is the one at `i`. */
  ghost predicate LastWith(outcomes: seq<Outcome>, n: nat, story: int, i: nat, field: Outcome -> Option<string>)
    requires n <= |outcomes|
  {
    i < n && outcomes[i].story == story && Given(field(outcomes[i]))
      && forall j :: i < j < n ==> !(outcomes[j].story == story && Given(field(outcomes[j])))
  }

  /**
   * A story is in the dictionary exactly when some outcome for it gives the
   * field, and it maps to the field of the last such outcome.
   */
  lemma {:induction false} RecordedMeaning(outcomes: seq<Outcome>, field: Outcome -> Option<string>, story: int)
    ensures story in Recorded(outcomes, field) <==>
      exists i :: 0 <= i < |outcomes| && outcomes[i].story == story && Given(field(outcomes[i]))
    ensures story in Recorded(outcomes, field) ==>
      exists i: nat :: LastWith(outcomes, |outcomes|, story, i, field) && Recorded(outcomes, field)[story] == field(outcomes[i]).value
  {
    if |outcomes| > 0 {
      var n := |outcomes| - 1;
      var init := outcomes[..n];
      RecordedMeaning(init, field, story);
      assert forall i :: 0 <= i < n ==> init[i] == outcomes[i];
      var o := outcomes[n];
      if o.story == story && Given(field(o)) {
        assert LastWith(outcomes, |outcomes|, story, n, field);
      } else if story in Recorded(init, field) {
        var i: nat :| LastWith(init, n, story, i, field) && Recorded(init, field)[story] == field(init[i]).value;
        assert LastWith(outcomes, |outcomes|, story, i, field);
      }
    }
  }

  /** No stories give two empty dictionaries. */
  lemma NoStories(gatherStory: int -> Outcome)
    ensures Partition(Outcomes([], gatherStory)) == (map[], map[])
  {
  }

  /**
   * When every outcome has a file name or an error but not both, and the
   * ids are distinct, no story is both gathered and failed.
   */
  lemma PartitionDisjoint(outcomes: seq<Outcome>)
    requires forall i :: 0 <= i < |outcomes| ==> !(Given(outcomes[i].filename) && Given(outcomes[i].error))
    requires forall i, j :: 0 <= i < j < |outcomes| ==> outcomes[i].story != outcomes[j].story
    ensures Partition(outcomes).0.Keys !! Partition(outcomes).1.Keys
  {
    forall story | story in Partition(outcomes).0
      ensures story !in Partition(outcomes).1
    {
      RecordedMeaning(outcomes, FilenameOf, story);
      RecordedMeaning(outcomes, ErrorOf, story);
      var i :| 0 <= i < |outcomes| && outcomes[i].story == story && Given(FilenameOf(outcomes[i]));
      forall j | 0 <= j < |outcomes| && outcomes[j].story == story
        ensures !Given(ErrorOf(outcomes[j]))
      {
      }
    }
  }
}
