/**
 Inserting a polygon into the mission sequence, as the state update of
 `handleImportPoints` does it with `Array.prototype.slice` and spreading.
 */
module MissionSequence {
  import opened Geometry

  /** The side of the chosen row the polygon goes to. The source keeps a string: 'before', 'after', or the initial ''. */
  datatype Position = Before | After | Unset

  /** The `insertPosition` record `{index, position}`. */
  datatype InsertPosition = InsertPosition(index: int, position: Position)

  /** The initial `{ index: -1, position: '' }`. */
  const NoInsertPosition := InsertPosition(-1, Unset)

  /**
   Where `s.slice(k)` and `s.slice(0, k)` cut a sequence of length `len`:
   a negative `k` counts from the end, and the cut is clamped to `[0, len]`.
   */
  function SliceIndex(len: nat, k: int): (j: nat)
    ensures j <= len
    ensures 0 <= k <= len ==> j == k
    ensures k > len ==> j == len
    ensures k < 0 ==> j == if len + k < 0 then 0 else len + k
  {
    if k < 0 then (if len + k < 0 then 0 else len + k)
    else if k > len then len
    else k
  }

  /** The slot at which the polygon lands: the cut of `slice(0, index)` or of `slice(0, index + 1)`. */
  function InsertedAt(len: nat, at: InsertPosition): (j: nat)
    requires at.position != Unset
    ensures j <= len
  {
    SliceIndex(len, if at.position == Before then at.index else at.index + 1)
  }

  /** The sequence with the entry at `j` taken out: the inverse of an insertion. */
  function RemoveAt(s: seq<Slot>, j: nat): (r: seq<Slot>)
    requires j < |s|
    ensures |r| == |s| - 1
    ensures forall k :: 0 <= k < j ==> r[k] == s[k]
    ensures forall k :: j <= k < |r| ==> r[k] == s[k + 1]
  {
    s[..j] + s[j + 1..]
  }

  /** The sequence with `poly` placed at slot `j` and the entries from `j` on shifted by one. */
  function InsertAt(prev: seq<Slot>, j: nat, poly: Slot): (r: seq<Slot>)
    requires j <= |prev|
    ensures |r| == |prev| + 1 && r[j] == poly
    ensures forall k :: 0 <= k < j ==> r[k] == prev[k]
    ensures forall k :: j <= k < |prev| ==> r[k + 1] == prev[k]
    ensures multiset(r) == multiset(prev) + multiset{poly}
  {
    assert prev == prev[..j] + prev[j..];
    prev[..j] + [poly] + prev[j..]
  }

  /**
   The new `coordinates` computed from `prev` by `handleImportPoints`:
   'before' puts the polygon at `index`, 'after' at `index + 1`, anything
   else leaves the sequence as it was.
   */
  function Splice(prev: seq<Slot>, at: InsertPosition, poly: Slot): (r: seq<Slot>)
    ensures at.position == Unset ==> r == prev
    ensures at.position != Unset ==> |r| == |prev| + 1 && multiset(r) == multiset(prev) + multiset{poly}
    ensures at.position == Before && 0 <= at.index <= |prev| ==>
      && r[at.index] == poly
      && (forall k :: 0 <= k < at.index ==> r[k] == prev[k])
      && (forall k :: at.index <= k < |prev| ==> r[k + 1] == prev[k])
    ensures at.position == After && -1 <= at.index < |prev| ==>
      && r[at.index + 1] == poly
      && (forall k :: 0 <= k <= at.index ==> r[k] == prev[k])
      && (forall k :: at.index < k < |prev| ==> r[k + 1] == prev[k])
  {
    match at.position
    case Before => InsertAt(prev, SliceIndex(|prev|, at.index), poly)
    case After => InsertAt(prev, SliceIndex(|prev|, at.index + 1), poly)
    case Unset => prev
  }

  /** Whatever the index, even one the slice clamps, removing the inserted polygon gives the old sequence back. */
  lemma SpliceRoundTrip(prev: seq<Slot>, at: InsertPosition, poly: Slot)
    requires at.position != Unset
    ensures InsertedAt(|prev|, at) < |Splice(prev, at, poly)|
    ensures Splice(prev, at, poly)[InsertedAt(|prev|, at)] == poly
    ensures RemoveAt(Splice(prev, at, poly), InsertedAt(|prev|, at)) == prev
  {
    var j := InsertedAt(|prev|, at);
    var r := Splice(prev, at, poly);
    assert r == prev[..j] + [poly] + prev[j..];
    assert r[..j] == prev[..j];
    assert r[j + 1..] == prev[j..];
  }

  /** An index at or past the end of the sequence appends the polygon; the slice clamps it. */
  lemma SpliceAtEnd(prev: seq<Slot>, at: InsertPosition, poly: Slot)
    requires at.position == Before ==> at.index >= |prev|
    requires at.position == After ==> at.index >= |prev| - 1
    requires at.position != Unset
    ensures Splice(prev, at, poly) == prev + [poly]
  {
  }

  /** A polygon with at least one vertex keeps every polygon entry readable as a polygon. */
  lemma SpliceWellFormed(prev: seq<Slot>, at: InsertPosition, ring: seq<Point>)
    requires WellFormed(prev) && |ring| > 0
    ensures WellFormed(Splice(prev, at, Poly(ring)))
  {
    var r := Splice(prev, at, Poly(ring));
    if at.position != Unset {
      var j := InsertedAt(|prev|, at);
      assert r == prev[..j] + [Poly(ring)] + prev[j..];
      forall i | 0 <= i < |r| && r[i].Poly?
        ensures |r[i].ring| > 0
      {
        if i < j {
          assert r[i] == prev[i];
        } else if i > j {
          assert r[i] == prev[i - 1];
        }
      }
    }
  }
}
