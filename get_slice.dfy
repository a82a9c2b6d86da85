/**
 * `get_slice(data, slice_axes)` (get_slice.py): the index expression that
 * picks positions along some axes of an array and keeps the others whole.
 * A position strictly between 0 and 1 is a fraction of the axis, turned
 * into the index int(position·(length - 1)); any other position is an index
 * already. The model produces the index expression, one slot per axis; the
 * final `data[tuple(slc)]` is not modelled, since array contents are not.
 */
module Slicing {

  import opened Common

  /** The first argument: a numpy array, of which only the shape matters here, or anything else. */
  datatype Data = Array(shape: seq<nat>) | NotArray

  /** One entry of the index tuple: `slice(None)`, or a position on that axis. */
  datatype Slot = Full | At(position: real)

  /**
   * The index a requested position stands for on an axis of the given
   * length: a fraction strictly between 0 and 1 is scaled to the axis and
   * truncated, giving the largest whole index at or below value·(length-1);
   * anything else is kept as it is.
   */
  function Resolve(value: real, length: nat): (index: real)
    ensures !(0.0 < value < 1.0) ==> index == value
    ensures 0.0 < value < 1.0 && length >= 1 ==>
      index == index.Floor as real && 0.0 <= index <= (length - 1) as real
    ensures 0.0 < value < 1.0 && length >= 1 ==>
      index <= value * (length as real - 1.0) < index + 1.0
    ensures 0.0 < value < 1.0 && length == 0 ==> index == 0.0
  {
    if 0.0 < value && value < 1.0 then
      FractionInAxis(value, length);
      Trunc(value * (length as real - 1.0)) as real
    else value
  }

  /** The truncated fraction of an axis is a whole index on that axis (0 on an empty axis). */
  lemma FractionInAxis(value: real, length: nat)
    requires 0.0 < value < 1.0
    ensures length >= 1 ==> 0 <= Trunc(value * (length as real - 1.0)) <= length - 1
    ensures length == 0 ==> Trunc(value * (length as real - 1.0)) == 0
  {
    var span := length as real - 1.0;
    if length >= 1 {
      assert 0.0 <= value * span <= span by {
        assert (1.0 - value) * span >= 0.0;
      }
    } else {
      assert -1.0 < value * span < 0.0;
    }
  }

  /**
   * An entry of `slice_axes` acts on the index tuple: a position (not None)
   * on an axis, counted from the end when negative.
   */
  predicate Acts(entry: (int, Option<real>), ndim: nat, a: nat)
  {
    entry.1.Some? && NumpyIndex(entry.0, ndim) == Some(a)
  }

  /** An entry with a position on an axis the array does not have: `slc[ax]` raises IndexError. */
  predicate OffAxis(entry: (int, Option<real>), ndim: nat)
  {
    entry.1.Some? && NumpyIndex(entry.0, ndim).None?
  }

  /** Slot a of the index tuple once the given entries have been applied in order. */
  function SlotAfter(entries: seq<(int, Option<real>)>, shape: seq<nat>, a: nat): Slot
    requires a < |shape|
  {
    if |entries| == 0 then Full
    else
      var last := entries[|entries| - 1];
      if Acts(last, |shape|, a) then At(Resolve(last.1.value, shape[a]))
      else SlotAfter(entries[..|entries| - 1], shape, a)
  }

  /**
   * `get_slice`: the index tuple for `data`, or the error raised.
   * `sliceAxes` is the dict's items in insertion order, so its keys are
   * distinct; two distinct keys can still name the same axis (-1 and
   * ndim-1), and then the later entry decides (LastEntryDecides). The loop
   * overwrites the slot of every axis that is given a position, in that
   * order; None is skipped without looking at its axis.
   */
  method GetSlice(data: Data, sliceAxes: seq<(int, Option<real>)>) returns (r: Result<seq<Slot>>)
    ensures data.NotArray? ==> r == Err(NotAnArray)
    ensures data.Array? ==> (r.Err? <==> exists k :: 0 <= k < |sliceAxes| && OffAxis(sliceAxes[k], |data.shape|))
    ensures data.Array? && r.Err? ==> r.error == IndexOutOfRange
    ensures r.Ok? ==> data.Array? && |r.value| == |data.shape|
    ensures r.Ok? ==> forall a :: 0 <= a < |data.shape| ==> r.value[a] == SlotAfter(sliceAxes, data.shape, a)
  {
    if data.NotArray? {
      return Err(NotAnArray);
    }
    var shape := data.shape;
    var ndim := |shape|;
    var slc := new Slot[ndim](_ => Full);
    for k := 0 to |sliceAxes|
      invariant forall j :: 0 <= j < k ==> !OffAxis(sliceAxes[j], ndim)
      invariant forall a :: 0 <= a < ndim ==> slc[a] == SlotAfter(sliceAxes[..k], shape, a)
    {
      var (ax, value) := sliceAxes[k];
      assert sliceAxes[..k + 1][..k] == sliceAxes[..k];
      if value.None? {
        continue;
      }
      var a := NumpyIndex(ax, ndim);
      if a.None? {
        return Err(IndexOutOfRange);
      }
      slc[a.value] := At(Resolve(value.value, shape[a.value]));
    }
    assert sliceAxes[..|sliceAxes|] == sliceAxes;
    return Ok(slc[..]);
  }

  /** An axis that no entry gives a position (unnamed, or named with None) keeps the whole axis. */
  lemma {:induction false} UntouchedAxisIsFull(entries: seq<(int, Option<real>)>, shape: seq<nat>, a: nat)
    requires a < |shape|
    requires forall k :: 0 <= k < |entries| ==> !Acts(entries[k], |shape|, a)
    ensures SlotAfter(entries, shape, a) == Full
    decreases |entries|
  {
    if |entries| > 0 {
      UntouchedAxisIsFull(entries[..|entries| - 1], shape, a);
    }
  }

  /** The last entry that gives axis a a position decides its slot. */
  lemma {:induction false} LastEntryDecides(entries: seq<(int, Option<real>)>, shape: seq<nat>, a: nat, k: nat)
    requires a < |shape| && k < |entries| && Acts(entries[k], |shape|, a)
    requires forall j :: k < j < |entries| ==> !Acts(entries[j], |shape|, a)
    ensures SlotAfter(entries, shape, a) == At(Resolve(entries[k].1.value, shape[a]))
    decreases |entries|
  {
    if k < |entries| - 1 {
      LastEntryDecides(entries[..|entries| - 1], shape, a, k);
    }
  }

  /** Every slot is the whole axis or a position some entry gave that axis, resolved on it. */
  lemma {:induction false} SlotComesFromEntry(entries: seq<(int, Option<real>)>, shape: seq<nat>, a: nat)
    requires a < |shape|
    ensures SlotAfter(entries, shape, a).Full? ||
      exists k :: 0 <= k < |entries| && Acts(entries[k], |shape|, a) &&
        SlotAfter(entries, shape, a) == At(Resolve(entries[k].1.value, shape[a]))
    decreases |entries|
  {
    if |entries| > 0 && !Acts(entries[|entries| - 1], |shape|, a) {
      var front := entries[..|entries| - 1];
      SlotComesFromEntry(front, shape, a);
      if SlotAfter(front, shape, a).At? {
        var k :| 0 <= k < |front| && Acts(front[k], |shape|, a) &&
          SlotAfter(front, shape, a) == At(Resolve(front[k].1.value, shape[a]));
        assert entries[k] == front[k];
      }
    }
  }
}
