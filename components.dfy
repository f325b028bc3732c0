/** `threshold_connect_components`: connected components of a map that hold
    fewer voxels than a threshold are set to zero. The map is flattened to
    one dimension; the component labels that `ndimage.label` computes are an
    input, one label per voxel, 0 for the background. */
module Components {

  /** The number of voxels carrying label l: `ndimage.sum` of ones over the
      voxels labelled l. */
  function Count(labels: seq<nat>, l: nat): (n: nat)
    ensures n <= |labels|
  {
    if labels == [] then 0
    else (if labels[0] == l then 1 else 0) + Count(labels[1..], l)
  }

  /** Count is the multiplicity of the label in the multiset of labels. */
  lemma {:induction false} CountMultiplicity(labels: seq<nat>, l: nat)
    ensures Count(labels, l) == multiset(labels)[l]
  {
    if labels != [] {
      CountMultiplicity(labels[1..], l);
      assert labels == [labels[0]] + labels[1..];
    }
  }

  /** Every label that occurs is counted at least once. */
  lemma CountPositive(labels: seq<nat>, i: int)
    requires 0 <= i < |labels|
    ensures Count(labels, labels[i]) >= 1
  {
    CountMultiplicity(labels, labels[i]);
    assert labels[i] in multiset(labels);
  }

  /** Label l names a component the loop visits, 1 <= l < top, and that
      component holds fewer voxels than the threshold. */
  predicate Dropped(labels: seq<nat>, top: nat, threshold: real, l: nat) {
    1 <= l < top && (Count(labels, l) as real) < threshold
  }

  /** The map once the components labelled 1 .. top - 1 have been examined:
      each voxel of a dropped component reads 0, every other voxel keeps its
      value. */
  function Thresholded(d: seq<real>, labels: seq<nat>, top: nat, threshold: real): (r: seq<real>)
    requires |d| == |labels|
    ensures |r| == |d|
  {
    seq(|d|, i requires 0 <= i < |d| => if Dropped(labels, top, threshold, labels[i]) then 0.0 else d[i])
  }

  /** What thresholding does to each voxel: values only ever change to 0;
      the background (label 0) and labels from top on are left alone; a
      component with fewer voxels than the threshold is zeroed and one with at
      least as many is kept. */
  lemma ThresholdedVoxels(d: seq<real>, labels: seq<nat>, top: nat, threshold: real)
    requires |d| == |labels|
    ensures var r := Thresholded(d, labels, top, threshold);
      forall i :: 0 <= i < |d| ==>
        (r[i] == d[i] || r[i] == 0.0) &&
        (labels[i] == 0 ==> r[i] == d[i]) &&
        (labels[i] >= top ==> r[i] == d[i]) &&
        ((Count(labels, labels[i]) as real) >= threshold ==> r[i] == d[i]) &&
        (1 <= labels[i] < top && (Count(labels, labels[i]) as real) < threshold ==> r[i] == 0.0)
  {
  }

  /** Thresholding a thresholded map changes nothing more. */
  lemma ThresholdedIdempotent(d: seq<real>, labels: seq<nat>, top: nat, threshold: real)
    requires |d| == |labels|
    ensures var r := Thresholded(d, labels, top, threshold);
      Thresholded(r, labels, top, threshold) == r
  {
  }

  /** With a threshold of at most one voxel, no component is small enough to
      drop and the map comes back unchanged. */
  lemma ThresholdAtMostOneKeepsAll(d: seq<real>, labels: seq<nat>, top: nat, threshold: real)
    requires |d| == |labels| && threshold <= 1.0
    ensures Thresholded(d, labels, top, threshold) == d
  {
    forall i | 0 <= i < |d| ensures Thresholded(d, labels, top, threshold)[i] == d[i] {
      CountPositive(labels, i);
    }
  }

  /** With a threshold above the number of voxels, every visited component is dropped. */
  lemma ThresholdAboveSizeDropsAll(d: seq<real>, labels: seq<nat>, top: nat, threshold: real)
    requires |d| == |labels| && threshold > |labels| as real
    ensures var r := Thresholded(d, labels, top, threshold);
      forall i :: 0 <= i < |d| && 1 <= labels[i] < top ==> r[i] == 0.0
  {
  }

  /** Examining one more label zeroes exactly the voxels of that label, when
      its weight is below the threshold. */
  lemma ThresholdedStep(d: seq<real>, labels: seq<nat>, index: nat, threshold: real)
    requires |d| == |labels| && 1 <= index
    ensures var before := Thresholded(d, labels, index, threshold);
      var after := Thresholded(d, labels, index + 1, threshold);
      forall i :: 0 <= i < |d| ==>
        after[i] == (if labels[i] == index && (Count(labels, index) as real) < threshold then 0.0 else before[i])
  {
  }

  /** The loop of `threshold_connect_components` over the weights: the
      background weight (index 0) is skipped and every label whose weight is
      below the threshold has its voxels set to 0 in `a`. */
  method ZeroSmallComponents(a: array<real>, labels: seq<nat>, weights: seq<real>, threshold: real)
    requires a.Length == |labels|
    requires forall index :: 0 <= index < |weights| ==> weights[index] == Count(labels, index) as real
    modifies a
    ensures a[..] == Thresholded(old(a[..]), labels, |weights|, threshold)
  {
    ghost var d := a[..];
    var index := 0;
    while index < |weights|
      invariant 0 <= index <= |weights|
      invariant a[..] == Thresholded(d, labels, if index == 0 then 1 else index, threshold)
    {
      if index == 0 {
        index := index + 1;
        continue;
      }
      if weights[index] < threshold {
        forall i | 0 <= i < a.Length && labels[i] == index {
          a[i] := 0.0;
        }
      }
      ThresholdedStep(d, labels, index, threshold);
      index := index + 1;
    }
    assert Thresholded(d, labels, 0, threshold) == Thresholded(d, labels, 1, threshold);
  }

  /** `threshold_connect_components(map, threshold, copy)`: the weights are
      the voxel counts of labels 0 .. nLabels - 1; with `copy` the work is
      done on a fresh array and the input is untouched, otherwise the input
      array itself is changed and returned. */
  method ThresholdConnectComponents(data: array<real>, labels: seq<nat>, nLabels: nat,
                                    threshold: real, copy: bool)
    returns (result: array<real>)
    requires data.Length == |labels|
    modifies if copy then {} else {data}
    ensures copy ==> fresh(result) && data[..] == old(data[..])
    ensures !copy ==> result == data
    ensures result[..] == Thresholded(old(data[..]), labels, nLabels, threshold)
  {
    var weights := seq(nLabels, index requires 0 <= index => Count(labels, index) as real);
    if copy {
      result := new real[data.Length];
      forall i | 0 <= i < data.Length {
        result[i] := data[i];
      }
    } else {
      result := data;
    }
    ZeroSmallComponents(result, labels, weights, threshold);
  }

  /** The last label, nLabels, is never examined: its component keeps its
      values whatever its size. */
  lemma LastLabelKept(d: seq<real>, labels: seq<nat>, nLabels: nat, threshold: real)
    requires |d| == |labels|
    ensures var r := Thresholded(d, labels, nLabels, threshold);
      forall i :: 0 <= i < |d| && labels[i] == nLabels ==> r[i] == d[i]
  {
  }

  /** One voxel forming the only component, below a threshold of two voxels:
      as written it survives, while examining every label zeroes it. */
  lemma LastLabelCounterexample()
    ensures Thresholded([5.0], [1], 1, 2.0) == [5.0]
    ensures Thresholded([5.0], [1], 1 + 1, 2.0) == [0.0]
  {
    assert Count([1], 1) == 1 by {
      assert [1][1..] == [];
    }
  }

  /** The weights over every label 0 .. nLabels, so that the last component is
      examined like the others. */
  method ThresholdConnectComponentsFixed(data: array<real>, labels: seq<nat>, nLabels: nat,
                                         threshold: real, copy: bool)
    returns (result: array<real>)
    requires data.Length == |labels|
    modifies if copy then {} else {data}
    ensures copy ==> fresh(result) && data[..] == old(data[..])
    ensures !copy ==> result == data
    ensures result[..] == Thresholded(old(data[..]), labels, nLabels + 1, threshold)
  {
    var weights := seq(nLabels + 1, index requires 0 <= index => Count(labels, index) as real);
    if copy {
      result := new real[data.Length];
      forall i | 0 <= i < data.Length {
        result[i] := data[i];
      }
    } else {
      result := data;
    }
    ZeroSmallComponents(result, labels, weights, threshold);
  }

  /** With every label 1 .. nLabels examined, as `ndimage.label` numbers the
      components, every component below the threshold is zeroed and every
      other voxel keeps its value. */
  lemma FixedDropsEverySmall(d: seq<real>, labels: seq<nat>, nLabels: nat, threshold: real)
    requires |d| == |labels|
    requires forall i :: 0 <= i < |labels| ==> labels[i] <= nLabels
    ensures var r := Thresholded(d, labels, nLabels + 1, threshold);
      forall i :: 0 <= i < |d| ==>
        (labels[i] != 0 && (Count(labels, labels[i]) as real) < threshold ==> r[i] == 0.0) &&
        (labels[i] == 0 || (Count(labels, labels[i]) as real) >= threshold ==> r[i] == d[i])
  {
  }
}
