/**
  The track-list entry records both revisions of the player keep beside
  `songs_list`: one `{"selected", "index"}` dictionary per song (the
  widget handles are left out), and the list operations both revisions
  perform on them.
 */
module Tracklist {

  /** One row of the track list: its highlight flag and its stored position. */
  datatype Entry = Entry(selected: bool, index: int)

  /** Every entry stores its own position in the list. */
  ghost predicate Aligned(es: seq<Entry>) {
    forall j :: 0 <= j < |es| ==> es[j].index == j
  }

  /** No two entries are highlighted at once. */
  ghost predicate AtMostOneSelected(es: seq<Entry>) {
    forall i, j :: 0 <= i < |es| && 0 <= j < |es| && es[i].selected && es[j].selected ==> i == j
  }

  /** No path occurs twice. */
  ghost predicate NoDup<T>(s: seq<T>) {
    forall i, j :: 0 <= i < j < |s| ==> s[i] != s[j]
  }

  /** The position of the first highlighted entry, or -1 when there is none. */
  function FirstSelected(es: seq<Entry>): (r: int)
    ensures -1 <= r < |es|
    ensures r >= 0 ==> es[r].selected && forall j :: 0 <= j < r ==> !es[j].selected
    ensures r == -1 <==> forall j :: 0 <= j < |es| ==> !es[j].selected
  {
    if |es| == 0 then -1
    else if es[0].selected then 0
    else
      var t := FirstSelected(es[1..]);
      if t == -1 then -1 else t + 1
  }

  /** Highlights exactly the entry at `i` (none at all when `i` is out of range),
      keeping every stored index. */
  function SelectOnly(es: seq<Entry>, i: int): (r: seq<Entry>)
    ensures |r| == |es|
    ensures forall j :: 0 <= j < |r| ==> (r[j].selected <==> j == i) && r[j].index == es[j].index
  {
    seq(|es|, j requires 0 <= j < |es| => es[j].(selected := j == i))
  }

  /** Highlighting one entry keeps a list aligned and leaves at most one highlight. */
  lemma SelectOnlyKeepsShape(es: seq<Entry>, i: int)
    requires Aligned(es)
    ensures Aligned(SelectOnly(es, i)) && AtMostOneSelected(SelectOnly(es, i))
  {
  }

  /** `list.pop(k)`: the list without its k-th element. */
  function RemoveAt<T>(s: seq<T>, k: nat): (r: seq<T>)
    requires k < |s|
    ensures |r| == |s| - 1
    ensures forall j :: 0 <= j < k ==> r[j] == s[j]
    ensures forall j :: k <= j < |r| ==> r[j] == s[j + 1]
  {
    s[..k] + s[k + 1..]
  }

  /** The re-indexing after a removal: every entry from position k on stores
      its new position. */
  function ReindexFrom(es: seq<Entry>, k: nat): (r: seq<Entry>)
    ensures |r| == |es|
    ensures forall j :: 0 <= j < |r| ==> r[j].selected == es[j].selected
    ensures forall j :: 0 <= j < |r| ==> r[j].index == (if j < k then es[j].index else j)
  {
    seq(|es|, j requires 0 <= j < |es| => if j < k then es[j] else es[j].(index := j))
  }

  /** Popping position k and re-indexing from k keeps a list aligned, and the
      survivors keep their highlight flags in order. */
  lemma RemoveReindexAligned(es: seq<Entry>, k: nat)
    requires k < |es|
    requires Aligned(es)
    ensures Aligned(ReindexFrom(RemoveAt(es, k), k))
    ensures AtMostOneSelected(es) ==> AtMostOneSelected(ReindexFrom(RemoveAt(es, k), k))
  {
    var r := ReindexFrom(RemoveAt(es, k), k);
    if AtMostOneSelected(es) {
      forall i, j | 0 <= i < |r| && 0 <= j < |r| && r[i].selected && r[j].selected
        ensures i == j
      {
        var i' := if i < k then i else i + 1;
        var j' := if j < k then j else j + 1;
        assert es[i'].selected && es[j'].selected;
      }
    }
  }

  /** Removing one element of a duplicate-free list leaves it duplicate-free. */
  lemma RemoveAtNoDup<T>(s: seq<T>, k: nat)
    requires k < |s| && NoDup(s)
    ensures NoDup(RemoveAt(s, k))
  {
    var r := RemoveAt(s, k);
    forall i, j | 0 <= i < j < |r|
      ensures r[i] != r[j]
    {
      var i' := if i < k then i else i + 1;
      var j' := if j < k then j else j + 1;
      assert r[i] == s[i'] && r[j] == s[j'];
    }
  }
}
