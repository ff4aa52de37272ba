/** `ByteVector` of include/lith/bytes.h and framework/src/bytes.cpp: a vector of raw bytes
    holding items of one fixed size.  A C++ value of type `_t` is modelled by its byte image,
    a sequence of `sizeof(_t)` bytes. */
module Bytes {
  import opened Arith

  type byte = b: int | 0 <= b < 256

  /** The images of `vs` one after the other. */
  function Concat<T>(vs: seq<seq<T>>): (r: seq<T>)
  {
    if vs == [] then [] else Concat(vs[..|vs| - 1]) + vs[|vs| - 1]
  }

  /** The total number of elements in `vs`. */
  function TotalSize<T>(vs: seq<seq<T>>): (n: nat)
  {
    if vs == [] then 0 else TotalSize(vs[..|vs| - 1]) + |vs[|vs| - 1]|
  }

  lemma {:induction false} ConcatSize<T>(vs: seq<seq<T>>)
    ensures |Concat(vs)| == TotalSize(vs)
  {
    if vs != [] {
      ConcatSize(vs[..|vs| - 1]);
    }
  }

  function Zeros(n: nat): (z: seq<byte>)
    ensures |z| == n && forall i :: 0 <= i < n ==> z[i] == 0
  {
    seq(n, _ => 0)
  }

  /** What `add` stores for a value: its image followed by the zero bytes that fill the rest
      of the item. */
  function Padded(item: seq<byte>, itemSize: int): (p: seq<byte>)
    requires |item| <= itemSize
    ensures |p| == itemSize && p[..|item|] == item
    ensures forall i :: |item| <= i < itemSize ==> p[i] == 0
  {
    item + Zeros(itemSize - |item|)
  }

  /** `Concat` distributes over appending lists. */
  lemma {:induction false} ConcatAppend<T>(a: seq<seq<T>>, b: seq<seq<T>>)
    ensures Concat(a + b) == Concat(a) + Concat(b)
  {
    if b != [] {
      assert (a + b)[..|a + b| - 1] == a + b[..|b| - 1];
      ConcatAppend(a, b[..|b| - 1]);
    } else {
      assert a + b == a;
    }
  }

  /** The first `i` items of size `s` take `i * s` bytes. */
  lemma {:induction false} ConcatUniformSize(items: seq<seq<byte>>, s: int)
    requires forall k :: 0 <= k < |items| ==> |items[k]| == s
    ensures |Concat(items)| == |items| * s
  {
    if items != [] {
      ConcatUniformSize(items[..|items| - 1], s);
      MulSucc(|items| - 1, s);
    }
  }

  /** Item `i` of a buffer made of items of size `s` is bytes `[i*s, (i+1)*s)`. */
  lemma ConcatItem(items: seq<seq<byte>>, s: int, i: int)
    requires 0 <= s && forall k :: 0 <= k < |items| ==> |items[k]| == s
    requires 0 <= i < |items|
    ensures |Concat(items)| == |items| * s
    ensures (i + 1) * s <= |Concat(items)| && Concat(items)[i * s..(i + 1) * s] == items[i]
  {
    ConcatUniformSize(items, s);
    var front := items[..i];
    ConcatUniformSize(front, s);
    assert items == front + ([items[i]] + items[i + 1..]);
    ConcatAppend(front, [items[i]] + items[i + 1..]);
    ConcatAppend([items[i]], items[i + 1..]);
    var one: seq<seq<byte>> := [items[i]];
    assert Concat(one) == items[i] by { assert one[..0] == []; }
    MulSucc(i, s);
  }

  /** `count()` of a vector holding `size` bytes of items of `itemSize` bytes: 0 for item
      size 0, otherwise the byte count divided by the item size, truncating like C++. */
  function ItemCount(size: nat, itemSize: int): (n: int)
    ensures itemSize == 0 ==> n == 0
    ensures itemSize > 0 ==> 0 <= n
  {
    if itemSize == 0 then 0
    else if itemSize > 0 then size / itemSize
    else -(size / -itemSize)
  }

  /** `ByteVector`. `raw` is the byte buffer and `itemSize` the size of one item (the
      stride). */
  class ByteVector {
    var raw: seq<byte>
    var itemSize: int

    /** `ByteVector()`: no bytes and item size 0, so no item can be added. */
    constructor ()
      ensures raw == [] && itemSize == 0 && Count() == 0
    {
      raw, itemSize := [], 0;
    }

    /** `ByteVector(int itemSize)`. */
    constructor WithItemSize(itemSize: int)
      ensures raw == [] && this.itemSize == itemSize && Count() == 0
    {
      raw, this.itemSize := [], itemSize;
    }

    /** `ByteVector(list)`: the item size of the element type, then every element in order. */
    constructor FromList(size: int, items: seq<seq<byte>>)
      requires 0 < size && forall k :: 0 <= k < |items| ==> |items[k]| == size
      ensures itemSize == size && raw == Concat(items)
      ensures Count() == |items| && forall i :: 0 <= i < |items| ==> At(i) == items[i]
    {
      raw, itemSize := [], size;
      new;
      ListUnpadded(items, size);
      var ok := AddMany(items);
      assert raw == Concat(items);
      ListCount(items, size);
      ListItems(items, size);
    }

    /** `size()`: the number of stored bytes. */
    function Size(): (n: int)
      reads this
      ensures n == |raw|
    {
      |raw|
    }

    /** `stride()`: the item size. */
    function Stride(): (n: int)
      reads this
      ensures n == itemSize
    {
      itemSize
    }

    /** `count()`: 0 for item size 0, otherwise the byte count divided by the item size,
        truncating like C++. */
    function Count(): (n: int)
      reads this
      ensures itemSize == 0 ==> n == 0
      ensures itemSize > 0 ==> 0 <= n
    {
      ItemCount(|raw|, itemSize)
    }

    /** With a positive item size the count is the number of whole items in the bytes. */
    lemma CountBrackets()
      requires itemSize > 0
      ensures Count() * itemSize <= |raw| < (Count() + 1) * itemSize
    {
      DivBounds(|raw|, itemSize);
    }

    /** `setRaw`: the item size, and exactly the first `byteCount` bytes of `bytes`. */
    method SetRaw(itemSize: int, byteCount: int, bytes: seq<byte>)
      requires 0 <= byteCount <= |bytes|
      modifies this
      ensures this.itemSize == itemSize && raw == bytes[..byteCount] && Size() == byteCount
    {
      this.itemSize, raw := itemSize, bytes[..byteCount];
    }

    /** `clear`: the bytes go, the item size stays. */
    method Clear()
      modifies this
      ensures raw == [] && itemSize == old(itemSize)
    {
      raw := [];
    }

    /** `at<_t>(index)`: the bytes of item `index`. */
    function At(index: int): (item: seq<byte>)
      reads this
      requires 0 < itemSize && 0 <= index < Count()
      ensures |item| == itemSize
    {
      CountBrackets();
      MulLe(index + 1, Count(), itemSize);
      MulLe(0, index, itemSize);
      MulSucc(index, itemSize);
      raw[index * itemSize..(index + 1) * itemSize]
    }

    /** `back<_t>()`: the bytes of the last item. */
    function Back(): (item: seq<byte>)
      reads this
      requires 0 <= itemSize <= |raw|
      ensures |item| == itemSize && raw == raw[..|raw| - itemSize] + item
    {
      raw[|raw| - itemSize..]
    }

    /** `add<_t>(item)`: throws (`ok` false) with item size 0 and leaves the bytes alone; a
        negative item size throws too, since `insert` gets it as a count beyond any vector's
        `max_size()`; otherwise appends one item of zeros and writes the value over its
        front. */
    method Add(item: seq<byte>) returns (ok: bool)
      requires itemSize > 0 ==> |item| <= itemSize
      modifies this
      ensures itemSize == old(itemSize)
      ensures ok <==> itemSize > 0
      ensures !ok ==> raw == old(raw)
      ensures ok ==> raw == old(raw) + Padded(item, itemSize)
      ensures ok ==> Count() == old(Count()) + 1
    {
      if itemSize <= 0 {
        return false;
      }
      AddedIsLast(raw, itemSize, item);
      var grown := raw + Zeros(itemSize);
      raw := grown[..|grown| - itemSize] + item + grown[|grown| - itemSize + |item|..];
      return true;
    }

    /** `addMany`: `add` for each element in order; the first `add` throws when the item
        size is not positive, so only an empty list succeeds then. */
    method AddMany(items: seq<seq<byte>>) returns (ok: bool)
      requires itemSize > 0 ==> forall k :: 0 <= k < |items| ==> |items[k]| <= itemSize
      modifies this
      ensures itemSize == old(itemSize)
      ensures ok <==> itemSize > 0 || items == []
      ensures !ok ==> raw == old(raw)
      ensures ok ==> raw == old(raw) + Concat(PaddedAll(items, itemSize))
    {
      var i := 0;
      while i < |items|
        invariant 0 <= i <= |items| && itemSize == old(itemSize)
        invariant itemSize <= 0 ==> i == 0
        invariant raw == old(raw) + Concat(PaddedAll(items[..i], itemSize))
      {
        ok := Add(items[i]);
        if !ok {
          return;
        }
        AddManyStep(items, i, itemSize);
        i := i + 1;
      }
      assert items[..i] == items;
      return itemSize > 0 || items == [];
    }
  }

  /** Items of exactly the item size are stored unpadded. */
  lemma ListUnpadded(items: seq<seq<byte>>, size: int)
    requires 0 < size && forall k :: 0 <= k < |items| ==> |items[k]| == size
    ensures PaddedAll(items, size) == items
  {
    forall k | 0 <= k < |items| ensures Padded(items[k], size) == items[k] {
      assert Zeros(0) == [];
    }
  }

  /** A list of `n` items of the item size makes a buffer that counts `n` items. */
  lemma ListCount(items: seq<seq<byte>>, size: int)
    requires 0 < size && forall k :: 0 <= k < |items| ==> |items[k]| == size
    ensures |Concat(items)| / size == |items|
  {
    ConcatUniformSize(items, size);
    DivUnique(|Concat(items)|, size, |items|, 0);
  }

  /** Item `i` of such a buffer reads back as element `i`. */
  lemma ListItems(items: seq<seq<byte>>, size: int)
    requires 0 < size && forall k :: 0 <= k < |items| ==> |items[k]| == size
    ensures forall i :: 0 <= i < |items| ==>
              (i + 1) * size <= |Concat(items)| && Concat(items)[i * size..(i + 1) * size] == items[i]
  {
    forall i | 0 <= i < |items|
      ensures (i + 1) * size <= |Concat(items)| && Concat(items)[i * size..(i + 1) * size] == items[i]
    {
      ConcatItem(items, size, i);
    }
  }

  /** One more element added to the buffer of the elements before it. */
  lemma AddManyStep(items: seq<seq<byte>>, i: int, itemSize: int)
    requires 0 <= i < |items| && forall k :: 0 <= k < |items| ==> |items[k]| <= itemSize
    ensures Concat(PaddedAll(items[..i], itemSize)) + Padded(items[i], itemSize) ==
            Concat(PaddedAll(items[..i + 1], itemSize))
  {
    assert items[..i + 1] == items[..i] + [items[i]];
    assert PaddedAll(items[..i + 1], itemSize)[..i] == PaddedAll(items[..i], itemSize);
  }

  /** Every element padded to the item size. */
  function PaddedAll(items: seq<seq<byte>>, itemSize: int): (ps: seq<seq<byte>>)
    requires forall k :: 0 <= k < |items| ==> |items[k]| <= itemSize
    ensures |ps| == |items| && forall k :: 0 <= k < |items| ==> ps[k] == Padded(items[k], itemSize)
  {
    seq(|items|, k requires 0 <= k < |items| => Padded(items[k], itemSize))
  }

  /** One `add` makes the item count one larger and the added value is then the last item,
      whatever was stored before. */
  lemma AddedIsLast(raw: seq<byte>, itemSize: int, item: seq<byte>)
    requires 0 < itemSize && |item| <= itemSize
    ensures var raw' := raw + Padded(item, itemSize);
            |raw'| / itemSize == |raw| / itemSize + 1 &&
            raw'[|raw'| - itemSize..][..|item|] == item &&
            raw'[..|raw|] == raw
  {
    var raw' := raw + Padded(item, itemSize);
    assert raw'[|raw'| - itemSize..] == Padded(item, itemSize);
    var q, r := |raw| / itemSize, |raw| % itemSize;
    MulSucc(q, itemSize);
    DivUnique(|raw| + itemSize, itemSize, q + 1, r);
  }
}
