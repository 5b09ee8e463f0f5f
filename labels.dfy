/**
 * Post-processing of a DBSCAN label vector. The clustering itself is a
 * library call outside this model: its output arrives as one integer label
 * per report row, `Noise` (-1) for a row in no cluster.
 */
module Labels {
  import opened Geometry

  const Noise: int := -1

  /** A `folium.Circle` drawn for one cluster: its label, its centre and its radius in metres. */
  datatype Hotspot = Hotspot(clusterLabel: int, center: Coord, radiusM: real)

  /** The labels of a list of drawn hotspots. */
  function LabelsOf(hs: seq<Hotspot>): set<int>
  {
    set h | h in hs :: h.clusterLabel
  }

  /** No two drawn hotspots share a label. */
  predicate DistinctLabels(hs: seq<Hotspot>)
  {
    forall i, j :: 0 <= i < j < |hs| ==> hs[i].clusterLabel != hs[j].clusterLabel
  }

  /** Drawing one more hotspot adds its label. */
  lemma LabelsOfAppend(hs: seq<Hotspot>, h: Hotspot)
    ensures LabelsOf(hs + [h]) == LabelsOf(hs) + {h.clusterLabel}
  {
    assert forall g :: g in hs + [h] <==> g in hs || g == h;
  }

  /** Distinct labels make the number of hotspots the number of labels. */
  lemma {:induction false} DistinctLabelsCount(hs: seq<Hotspot>)
    requires DistinctLabels(hs)
    ensures |hs| == |LabelsOf(hs)|
  {
    if hs != [] {
      var n := |hs| - 1;
      var t, h := hs[..n], hs[n];
      assert hs == t + [h];
      assert forall k :: 0 <= k < |t| ==> t[k] == hs[k];
      assert DistinctLabels(t);
      DistinctLabelsCount(t);
      LabelsOfAppend(t, h);
      assert h.clusterLabel !in LabelsOf(t) by {
        forall g | g in t ensures g.clusterLabel != h.clusterLabel {
          var k :| 0 <= k < |t| && t[k] == g;
        }
      }
    }
  }

  /** A hotspot with a new label keeps the labels distinct. */
  lemma DistinctLabelsAppend(hs: seq<Hotspot>, h: Hotspot)
    requires DistinctLabels(hs) && h.clusterLabel !in LabelsOf(hs)
    ensures DistinctLabels(hs + [h])
  {
    var t := hs + [h];
    forall i, j | 0 <= i < j < |t| ensures t[i].clusterLabel != t[j].clusterLabel {
      if j == |hs| {
        assert t[i] == hs[i] && hs[i] in hs;
      } else {
        assert t[i] == hs[i] && t[j] == hs[j];
      }
    }
  }

  /** The hotspots drawn so far are one per non-noise label among the labels handled so far. */
  ghost predicate Covers(hs: seq<Hotspot>, done: set<int>)
  {
    LabelsOf(hs) == done - {Noise} && DistinctLabels(hs)
  }

  /** Handling a new non-noise label by drawing its hotspot keeps `Covers`. */
  lemma CoversAppend(hs: seq<Hotspot>, done: set<int>, h: Hotspot)
    requires Covers(hs, done) && h.clusterLabel !in done && h.clusterLabel != Noise
    ensures Covers(hs + [h], done + {h.clusterLabel})
  {
    LabelsOfAppend(hs, h);
    DistinctLabelsAppend(hs, h);
  }

  /** `set(dbscan.labels_)`: the distinct labels. */
  function LabelSet(labels: seq<int>): (r: set<int>)
    ensures forall i :: 0 <= i < |labels| ==> labels[i] in r
    ensures forall l :: l in r ==> l in labels
  {
    set l | l in labels
  }

  /** A non-empty set of labels has an element to yield next. */
  lemma NonEmptySet(s: set<int>)
    requires s != {}
    ensures exists x :: x in s
  {
    if forall x :: x !in s {
      assert false;
    }
  }

  /** `set(dbscan.labels_)` without the noise label: the labels that get a hotspot. */
  function HotspotLabels(labels: seq<int>): (r: set<int>)
    ensures Noise !in r
    ensures forall l :: l in r <==> l in labels && l != Noise
  {
    LabelSet(labels) - {Noise}
  }

  /** The row positions carrying label `l`, in row order (`dbscan.labels_ == label` as a mask). */
  function MemberIndices(labels: seq<int>, l: int): (r: seq<nat>)
    ensures forall k :: 0 <= k < |r| ==> r[k] < |labels| && labels[r[k]] == l
    ensures forall i :: 0 <= i < |labels| && labels[i] == l ==> i in r
    ensures |r| == multiset(labels)[l]
  {
    if labels == [] then []
    else
      var n := |labels| - 1;
      var init := labels[..n];
      var prev := MemberIndices(init, l);
      assert labels == init + [labels[n]];
      assert multiset(labels) == multiset(init) + multiset{labels[n]};
      assert forall i :: 0 <= i < n ==> labels[i] == init[i];
      prev + (if labels[n] == l then [n] else [])
  }

  /** The mask keeps the row order: the selected positions are strictly increasing. */
  lemma {:induction false} MemberIndicesIncreasing(labels: seq<int>, l: int)
    ensures forall a, b :: 0 <= a < b < |MemberIndices(labels, l)| ==>
      MemberIndices(labels, l)[a] < MemberIndices(labels, l)[b]
  {
    if labels != [] {
      var n := |labels| - 1;
      var prev := MemberIndices(labels[..n], l);
      MemberIndicesIncreasing(labels[..n], l);
      var r := MemberIndices(labels, l);
      assert r == prev + (if labels[n] == l then [n] else []);
      forall a, b | 0 <= a < b < |r| ensures r[a] < r[b] {
        assert r[a] == prev[a] < n;
        if b < |prev| {
          assert r[b] == prev[b];
        } else {
          assert r[b] == n;
        }
      }
    }
  }

  /** `df.loc[dbscan.labels_ == label, ["lat", "lon"]]`: the coordinates of the rows carrying `l`. */
  function Members(pts: seq<Coord>, labels: seq<int>, l: int): (r: seq<Coord>)
    requires |pts| == |labels|
    ensures var idx := MemberIndices(labels, l);
      |r| == |idx| && forall k :: 0 <= k < |idx| ==> r[k] == pts[idx[k]]
  {
    var idx := MemberIndices(labels, l);
    seq(|idx|, k requires 0 <= k < |idx| => pts[idx[k]])
  }

  /** A label that occurs has at least one member. */
  lemma MembersOfOccurringLabel(pts: seq<Coord>, labels: seq<int>, l: int)
    requires |pts| == |labels| && l in labels
    ensures |Members(pts, labels, l)| > 0
  {
    var i :| 0 <= i < |labels| && labels[i] == l;
    assert i in MemberIndices(labels, l);
  }

  /** `df[df['cluster'] != -1]['cluster']`: the labels of the rows that are in some cluster. */
  function Clustered(labels: seq<int>): (r: seq<int>)
    ensures forall l :: l in r <==> l in labels && l != Noise
    ensures forall l :: l != Noise ==> multiset(r)[l] == multiset(labels)[l]
    ensures Noise !in r
  {
    if labels == [] then []
    else
      var n := |labels| - 1;
      assert labels == labels[..n] + [labels[n]];
      Clustered(labels[..n]) + (if labels[n] == Noise then [] else [labels[n]])
  }

  /**
   * `value_counts().idxmax()` over the candidate labels: one whose count is
   * largest. Which of several equally large labels pandas returns is not
   * promised, so nothing is said about ties.
   */
  function MostFrequent(labels: seq<int>, cands: seq<int>): (r: int)
    requires cands != []
    ensures r in cands
    ensures forall c :: c in cands ==> multiset(labels)[c] <= multiset(labels)[r]
  {
    if |cands| == 1 then cands[0]
    else
      var rest := MostFrequent(labels, cands[1..]);
      assert forall c :: c in cands ==> c == cands[0] || c in cands[1..];
      if multiset(labels)[rest] <= multiset(labels)[cands[0]] then cands[0] else rest
  }
}
