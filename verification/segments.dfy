/** The retention rule for HLS segments: of the `.ts` files in the output
    directory, ordered by modification time, all but the 30 newest are
    deleted, oldest first, until a deletion fails. The directory is a list of
    entries in listing order. */
module Segments {
  import opened Text

  /** A directory entry: its name, its modification time, and whether
      deleting it succeeds. */
  datatype Entry = Entry(name: string, mtime: int, removable: bool)

  /** How many of the newest segments are kept. */
  const Keep: nat := 30

  /** The entry matches the glob `*.ts`. */
  predicate IsSegment(e: Entry) {
    EndsWith(e.name, ".ts")
  }

  /** `glob('*.ts')`: the segments, in listing order. */
  function SegmentsOf(dir: seq<Entry>): (r: seq<Entry>)
    ensures |r| <= |dir|
    ensures forall e :: e in r ==> IsSegment(e)
    ensures multiset(r) <= multiset(dir)
    ensures forall e :: e in dir && IsSegment(e) ==> e in r
  {
    if |dir| == 0 then []
    else
      var rest := SegmentsOf(dir[1..]);
      assert dir == [dir[0]] + dir[1..];
      if IsSegment(dir[0]) then [dir[0]] + rest else rest
  }

  /** Ordered by modification time, oldest first. */
  predicate SortedByMtime(s: seq<Entry>) {
    forall i, j :: 0 <= i < j < |s| ==> s[i].mtime <= s[j].mtime
  }

  /** Inserts `x` into `s` before the first entry strictly newer than it, so
      entries with equal times keep their order. */
  function Insert(s: seq<Entry>, x: Entry): (r: seq<Entry>)
    ensures |r| == |s| + 1
    ensures multiset(r) == multiset(s) + multiset{x}
    ensures r[0] == x || (|s| > 0 && r[0] == s[0])
    ensures SortedByMtime(s) ==> SortedByMtime(r)
  {
    if |s| == 0 then [x]
    else if x.mtime < s[0].mtime then [x] + s
    else
      var rest := Insert(s[1..], x);
      assert s == [s[0]] + s[1..];
      InsertSorted(s, x, rest);
      [s[0]] + rest
  }

  /** Putting the first entry back in front of the insertion into the rest
      keeps the order. */
  lemma InsertSorted(s: seq<Entry>, x: Entry, rest: seq<Entry>)
    requires |s| > 0 && s[0].mtime <= x.mtime
    requires |rest| > 0 && (rest[0] == x || (|s| > 1 && rest[0] == s[1]))
    requires SortedByMtime(s) ==> SortedByMtime(rest)
    ensures SortedByMtime(s) ==> SortedByMtime([s[0]] + rest)
  {
    if SortedByMtime(s) {
      var r := [s[0]] + rest;
      forall i, j | 0 <= i < j < |r|
        ensures r[i].mtime <= r[j].mtime
      {
        if i > 0 {
          assert r[i] == rest[i - 1] && r[j] == rest[j - 1];
        } else if j > 1 {
          assert rest[0].mtime <= rest[j - 1].mtime;
        }
      }
    }
  }

  /** `sorted(..., key=mtime)`: the same entries, oldest first; a stable
      insertion sort, like Python's. */
  function SortByMtime(s: seq<Entry>): (r: seq<Entry>)
    ensures |r| == |s|
    ensures SortedByMtime(r)
    ensures multiset(r) == multiset(s)
  {
    if |s| == 0 then []
    else
      assert s == s[..|s| - 1] + [s[|s| - 1]];
      Insert(SortByMtime(s[..|s| - 1]), s[|s| - 1])
  }

  /** The deletion loop: deletes `victims` in order and gives up at the
      first entry that cannot be deleted. */
  function DeleteInOrder(victims: seq<Entry>): (deleted: seq<Entry>)
    ensures deleted <= victims
    ensures forall i :: 0 <= i < |deleted| ==> deleted[i].removable
    ensures |deleted| < |victims| ==> !victims[|deleted|].removable
  {
    if |victims| == 0 || !victims[0].removable then []
    else [victims[0]] + DeleteInOrder(victims[1..])
  }

  /** `segments[:-30]`: all but the last 30, or none when there are no more
      than 30. */
  function AllButNewest(sorted: seq<Entry>): (r: seq<Entry>)
    ensures r <= sorted
    ensures |r| == if |sorted| > Keep then |sorted| - Keep else 0
  {
    if |sorted| > Keep then sorted[..|sorted| - Keep] else []
  }

  /** `_cleanup_segments`: the entries it deletes, in deletion order. */
  function Cleanup(dir: seq<Entry>): (deleted: seq<Entry>)
    ensures |deleted| <= |dir|
    ensures forall i :: 0 <= i < |deleted| ==> IsSegment(deleted[i]) && deleted[i].removable
    ensures |SegmentsOf(dir)| <= Keep ==> deleted == []
  {
    var segments := SortByMtime(SegmentsOf(dir));
    var victims := AllButNewest(segments);
    var deleted := DeleteInOrder(victims);
    forall i | 0 <= i < |deleted|
      ensures IsSegment(deleted[i])
    {
      assert deleted[i] == segments[i];
      assert segments[i] in multiset(SegmentsOf(dir));
    }
    deleted
  }

  /** The deletions are the oldest segments, in order: a prefix of the
      segments sorted by time, no newer than any segment kept, at most all
      but 30 of them, and exactly that many when every deletion succeeds;
      short of that, deletion stopped at an entry that could not be
      deleted. */
  lemma CleanupDeletesOldest(dir: seq<Entry>)
    ensures var sorted := SortByMtime(SegmentsOf(dir));
      var deleted := Cleanup(dir);
      && deleted <= sorted
      && (forall i, j :: 0 <= i < |deleted| <= j < |sorted| ==> sorted[i].mtime <= sorted[j].mtime)
      && |sorted| - |deleted| >= (if |sorted| < Keep then |sorted| else Keep)
      && ((forall e :: e in sorted ==> e.removable) ==>
            |deleted| == (if |sorted| > Keep then |sorted| - Keep else 0))
      && (|deleted| < |AllButNewest(sorted)| ==> !sorted[|deleted|].removable)
  {
    var sorted := SortByMtime(SegmentsOf(dir));
    var victims := AllButNewest(sorted);
    var deleted := DeleteInOrder(victims);
    if |deleted| < |victims| {
      assert victims[|deleted|] == sorted[|deleted|];
    }
  }
}
