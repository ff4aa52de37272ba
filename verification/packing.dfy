/** Record packing of include/lith/zip.h (include/lith/bytes.h carries an identical copy):
    the byte images of several values laid end to end in one fixed-size record, and the
    interleaving of several arrays into one array of such records.  A value is its byte
    image; the variadic argument packs are sequences. */
module Packing {
  import opened Bytes

  /** `getFirst`: the first argument of a non-empty pack. */
  function GetFirst<T>(args: seq<T>): (first: T)
    requires |args| >= 1
    ensures first == args[0] && first in args
  {
    args[0]
  }

  /** `packSingle`: copies the value's bytes to `offset` and advances the offset past them;
      every other byte of the buffer is left alone. */
  method PackSingle(buffer: array<byte>, offset: int, value: seq<byte>) returns (next: int)
    requires 0 <= offset && offset + |value| <= buffer.Length
    modifies buffer
    ensures next == offset + |value|
    ensures buffer[..] == old(buffer[..offset]) + value + old(buffer[offset + |value|..])
  {
    forall i | 0 <= i < |value| {
      buffer[offset + i] := value[i];
    }
    next := offset + |value|;
    assert buffer[..] == old(buffer[..offset]) + value + old(buffer[offset + |value|..]);
  }

  /** `packMany`: one record holding the values' bytes in argument order, exactly as long as
      their sizes together. */
  method PackMany(values: seq<seq<byte>>) returns (record: seq<byte>)
    ensures record == Concat(values) && |record| == TotalSize(values)
  {
    ConcatSize(values);
    var buffer := new byte[TotalSize(values)](_ => 0);
    var offset := 0;
    var k := 0;
    while k < |values|
      invariant 0 <= k <= |values|
      invariant offset == |Concat(values[..k])| && offset <= buffer.Length
      invariant buffer[..offset] == Concat(values[..k])
    {
      PackStep(values, k);
      ghost var before := buffer[..offset];
      offset := PackSingle(buffer, offset, values[k]);
      assert buffer[..offset] == before + values[k];
      k := k + 1;
    }
    assert values[..k] == values;
    record := buffer[..];
  }

  /** One more value extends the packed prefix by its bytes, within the record. */
  lemma PackStep(values: seq<seq<byte>>, k: int)
    requires 0 <= k < |values|
    ensures Concat(values[..k + 1]) == Concat(values[..k]) + values[k]
    ensures |Concat(values[..k])| + |values[k]| <= TotalSize(values)
  {
    assert values[..k + 1][..k] == values[..k];
    assert values == values[..k + 1] + values[k + 1..];
    ConcatAppend(values[..k + 1], values[k + 1..]);
    ConcatSize(values);
  }

  /** Where value `k` starts in the packed record: the sizes of the values before it. */
  function FieldOffset(values: seq<seq<byte>>, k: int): (offset: nat)
    requires 0 <= k <= |values|
  {
    TotalSize(values[..k])
  }

  /** Unpacking: value `k` reads back from the record at its offset. */
  lemma FieldReadBack(values: seq<seq<byte>>, k: int)
    requires 0 <= k < |values|
    ensures FieldOffset(values, k) + |values[k]| <= |Concat(values)|
    ensures Concat(values)[FieldOffset(values, k)..FieldOffset(values, k) + |values[k]|] == values[k]
  {
    PackStep(values, k);
    ConcatSize(values[..k]);
    ConcatSize(values);
    assert values == values[..k + 1] + values[k + 1..];
    ConcatAppend(values[..k + 1], values[k + 1..]);
  }

  /** Element `i` of every array, in argument order. */
  function Column(arrays: seq<seq<seq<byte>>>, i: int): (c: seq<seq<byte>>)
    requires 0 <= i && forall k :: 0 <= k < |arrays| ==> i < |arrays[k]|
    ensures |c| == |arrays| && forall k :: 0 <= k < |arrays| ==> c[k] == arrays[k][i]
  {
    seq(|arrays|, k requires 0 <= k < |arrays| => arrays[k][i])
  }

  /** `pack`: as many records as the first array has elements (the others are assumed to be
      at least as long), record `i` packing element `i` of every array. */
  method Pack(arrays: seq<seq<seq<byte>>>) returns (records: seq<seq<byte>>)
    requires |arrays| >= 1 && forall k :: 0 <= k < |arrays| ==> |arrays[0]| <= |arrays[k]|
    ensures |records| == |GetFirst(arrays)|
    ensures forall i :: 0 <= i < |records| ==> records[i] == Concat(Column(arrays, i))
  {
    var itemCount := |GetFirst(arrays)|;
    records := [];
    var i := 0;
    while i < itemCount
      invariant 0 <= i <= itemCount && |records| == i
      invariant forall j :: 0 <= j < i ==> records[j] == Concat(Column(arrays, j))
    {
      var record := PackMany(Column(arrays, i));
      records := records + [record];
      i := i + 1;
    }
  }

  /** Unpacking a packed array: field `k` of record `i` is element `i` of array `k`. */
  lemma PackReadBack(arrays: seq<seq<seq<byte>>>, records: seq<seq<byte>>, i: int, k: int)
    requires |arrays| >= 1 && forall k :: 0 <= k < |arrays| ==> |arrays[0]| <= |arrays[k]|
    requires |records| == |arrays[0]|
    requires forall j :: 0 <= j < |records| ==> records[j] == Concat(Column(arrays, j))
    requires 0 <= i < |records| && 0 <= k < |arrays|
    ensures var at := FieldOffset(Column(arrays, i), k);
            at + |arrays[k][i]| <= |records[i]| && records[i][at..at + |arrays[k][i]|] == arrays[k][i]
  {
    FieldReadBack(Column(arrays, i), k);
  }
}
