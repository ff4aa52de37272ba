/** Render targets of framework/src/target.cpp and include/lith/target.h: a list of
    attachments, each linking a texture to a colour or depth slot, the textures the target
    owns and deletes, and the draw-buffer list `upload` hands to the GL.  A texture is known
    by its identity: one the caller supplied, or one the builder created at a format and
    size.  The textures a target deletes are recorded, in order, in `deleted`. */
module Target {
  import opened Wrappers

  const GlColorAttachment0: int := 0x8CE0
  const GlDepthAttachment: int := 0x8D00

  datatype AttachmentType = Color0 | Color1 | Color2 | Color3 | Depth

  /** A texture a target links to. `Created` ones come from `attach(type, format)`; `serial`
      tells apart textures created with the same format and size. */
  datatype TextureRef =
    | Supplied(name: int)
    | Created(serial: nat, format: int, width: int, height: int)

  /** `TargetAttachment`. */
  datatype TargetAttachment = TargetAttachment(attachment: AttachmentType, texture: TextureRef,
                                               isOwnedByTarget: bool, isColorAttachment: bool)

  /** `TargetData`. */
  datatype TargetData = TargetData(attachments: seq<TargetAttachment>, width: int, height: int)

  /** `isColorAttachment`: every slot but the depth slot is a colour slot. */
  function IsColorAttachment(t: AttachmentType): (b: bool)
    ensures b <==> t != Depth
  {
    if t == Depth then false else true
  }

  /** `getAttachmentType`: the GL attachment point of a slot. */
  function GlAttachment(t: AttachmentType): (e: int)
    ensures t != Depth ==> GlColorAttachment0 <= e <= GlColorAttachment0 + 3
    ensures e == GlDepthAttachment <==> t == Depth
  {
    match t
    case Color0 => GlColorAttachment0
    case Color1 => GlColorAttachment0 + 1
    case Color2 => GlColorAttachment0 + 2
    case Color3 => GlColorAttachment0 + 3
    case Depth => GlDepthAttachment
  }

  /** Distinct slots have distinct GL attachment points. */
  lemma GlAttachmentInjective(s: AttachmentType, t: AttachmentType)
    requires GlAttachment(s) == GlAttachment(t)
    ensures s == t
  {
  }

  /** `getAttachment`: the position of the first attachment in slot `t`, or -1. */
  function GetAttachment(attachments: seq<TargetAttachment>, t: AttachmentType): (r: int)
    ensures -1 <= r < |attachments|
    ensures r == -1 <==> forall i :: 0 <= i < |attachments| ==> attachments[i].attachment != t
    ensures r != -1 ==>
      attachments[r].attachment == t && (forall i :: 0 <= i < r ==> attachments[i].attachment != t)
  {
    if attachments == [] then -1
    else if attachments[0].attachment == t then 0
    else
      var r := GetAttachment(attachments[1..], t);
      assert forall i :: 1 <= i < |attachments| ==> attachments[i] == attachments[1..][i - 1];
      if r == -1 then -1 else r + 1
  }

  /** Attachment lists with the same slot position by position are searched alike. */
  lemma GetAttachmentSlots(a: seq<TargetAttachment>, b: seq<TargetAttachment>, t: AttachmentType)
    requires |a| == |b| && forall i :: 0 <= i < |a| ==> a[i].attachment == b[i].attachment
    ensures GetAttachment(a, t) == GetAttachment(b, t)
  {
  }

  /** The colour flag of every attachment agrees with its slot. */
  predicate FlagsAgree(attachments: seq<TargetAttachment>)
  {
    forall i :: 0 <= i < |attachments| ==>
      attachments[i].isColorAttachment == IsColorAttachment(attachments[i].attachment)
  }

  /** A target owns only textures it created. */
  predicate OwnsOnlyCreated(attachments: seq<TargetAttachment>)
  {
    forall i :: 0 <= i < |attachments| && attachments[i].isOwnedByTarget ==>
      attachments[i].texture.Created?
  }

  /** The attachments after linking slot `t` to `texture`: the first attachment in that slot,
      if any, gets the texture; its ownership flag is kept when `keepOwned` and cleared
      otherwise. */
  function Swapped(attachments: seq<TargetAttachment>, t: AttachmentType, texture: TextureRef,
                   keepOwned: bool): (r: seq<TargetAttachment>)
    ensures |r| == |attachments|
  {
    var k := GetAttachment(attachments, t);
    if k == -1 then attachments
    else
      var owned := keepOwned && attachments[k].isOwnedByTarget;
      attachments[k := attachments[k].(texture := texture, isOwnedByTarget := owned)]
  }

  /** The texture a swap deletes: the one it replaces, when the target owned it. */
  function Released(attachments: seq<TargetAttachment>, t: AttachmentType): (r: seq<TextureRef>)
    ensures |r| <= 1
  {
    var k := GetAttachment(attachments, t);
    if k != -1 && attachments[k].isOwnedByTarget then [attachments[k].texture] else []
  }

  /** The textures of the owned attachments, in attachment order: what `free` deletes. */
  function Owned(attachments: seq<TargetAttachment>): (r: seq<TextureRef>)
  {
    if attachments == [] then []
    else
      var a := attachments[|attachments| - 1];
      Owned(attachments[..|attachments| - 1]) + (if a.isOwnedByTarget then [a.texture] else [])
  }

  /** `free` deletes a texture exactly when some owned attachment links it. */
  lemma {:induction false} OwnedExactly(attachments: seq<TargetAttachment>, x: TextureRef)
    ensures x in Owned(attachments) <==>
      exists i :: 0 <= i < |attachments| && attachments[i].isOwnedByTarget && attachments[i].texture == x
  {
    if attachments != [] {
      var n := |attachments| - 1;
      OwnedExactly(attachments[..n], x);
      if x in Owned(attachments[..n]) {
        var i :| 0 <= i < n && attachments[..n][i].isOwnedByTarget && attachments[..n][i].texture == x;
        assert attachments[i] == attachments[..n][i];
      }
      if exists i :: 0 <= i < |attachments| && attachments[i].isOwnedByTarget && attachments[i].texture == x {
        var i :| 0 <= i < |attachments| && attachments[i].isOwnedByTarget && attachments[i].texture == x;
        if i < n { assert attachments[..n][i] == attachments[i]; }
      }
    }
  }

  /** A target that owns only textures it created never deletes one its caller supplied. */
  lemma OwnedAreCreated(attachments: seq<TargetAttachment>, name: int)
    requires OwnsOnlyCreated(attachments)
    ensures Supplied(name) !in Owned(attachments)
    ensures forall t :: Supplied(name) !in Released(attachments, t)
  {
    OwnedExactly(attachments, Supplied(name));
  }

  /** Linking a supplied texture with the ownership flag cleared keeps the target owning only
      textures it created; the flags stay in agreement with the slots either way. */
  lemma SwapClearedKeepsOwnership(attachments: seq<TargetAttachment>, t: AttachmentType,
                                  texture: TextureRef, keepOwned: bool)
    requires OwnsOnlyCreated(attachments) && FlagsAgree(attachments)
    ensures FlagsAgree(Swapped(attachments, t, texture, keepOwned))
    ensures !keepOwned ==> OwnsOnlyCreated(Swapped(attachments, t, texture, keepOwned))
  {
  }

  /** The swap as written keeps the ownership flag, so a target whose colour slot held a
      texture it created takes ownership of the caller's texture swapped in, and `free` later
      deletes the caller's texture. */
  lemma SwapTakesOwnership(serial: nat, format: int, width: int, height: int, name: int)
    ensures var before := [TargetAttachment(Color0, Created(serial, format, width, height), true, true)];
      OwnsOnlyCreated(before) &&
      Released(before, Color0) == [Created(serial, format, width, height)] &&
      Owned(Swapped(before, Color0, Supplied(name), true)) == [Supplied(name)]
  {
    var before := [TargetAttachment(Color0, Created(serial, format, width, height), true, true)];
    var after := Swapped(before, Color0, Supplied(name), true);
    assert after[..0] == [];
  }

  /** The colour slots' GL attachment points, in attachment order: the draw-buffer list of
      `upload`. */
  function ColourTargets(attachments: seq<TargetAttachment>): seq<int>
  {
    if attachments == [] then []
    else
      var a := attachments[|attachments| - 1];
      ColourTargets(attachments[..|attachments| - 1]) +
        (if a.isColorAttachment then [GlAttachment(a.attachment)] else [])
  }

  /** Every colour attachment has its GL point among the draw buffers, the depth point never
      is one, and there is one draw buffer per colour attachment. */
  lemma {:induction false} ColourTargetsExactly(attachments: seq<TargetAttachment>)
    requires FlagsAgree(attachments)
    ensures GlDepthAttachment !in ColourTargets(attachments)
    ensures forall i :: 0 <= i < |attachments| && attachments[i].attachment != Depth ==>
      GlAttachment(attachments[i].attachment) in ColourTargets(attachments)
    ensures |ColourTargets(attachments)| == |ColourSlots(attachments)|
  {
    if attachments != [] {
      var n := |attachments| - 1;
      var init := attachments[..n];
      assert FlagsAgree(init) by {
        assert forall i :: 0 <= i < n ==> init[i] == attachments[i];
      }
      ColourTargetsExactly(init);
      ColourSlotsSnoc(attachments);
      forall i | 0 <= i < |attachments| && attachments[i].attachment != Depth
        ensures GlAttachment(attachments[i].attachment) in ColourTargets(attachments)
      {
        if i < n { assert init[i] == attachments[i]; }
      }
    }
  }

  /** The colour slots of a longer list: those of the shorter one, and the last position
      when it is a colour attachment. */
  lemma ColourSlotsSnoc(attachments: seq<TargetAttachment>)
    requires attachments != []
    ensures var n := |attachments| - 1;
      |ColourSlots(attachments)| ==
        |ColourSlots(attachments[..n])| + (if attachments[n].attachment != Depth then 1 else 0)
  {
    var n := |attachments| - 1;
    var init := attachments[..n];
    assert n !in ColourSlots(init);
    assert ColourSlots(attachments) ==
      ColourSlots(init) + (if attachments[n].attachment != Depth then {n} else {});
  }

  /** The positions of the colour attachments. */
  function ColourSlots(attachments: seq<TargetAttachment>): set<int>
  {
    set i | 0 <= i < |attachments| && attachments[i].attachment != Depth
  }

  /** The draw-buffer loop of `upload`. */
  method DrawBuffers(attachments: seq<TargetAttachment>) returns (r: seq<int>)
    ensures r == ColourTargets(attachments)
  {
    r := [];
    var i := 0;
    while i < |attachments|
      invariant 0 <= i <= |attachments|
      invariant r == ColourTargets(attachments[..i])
    {
      assert attachments[..i + 1][..i] == attachments[..i];
      if attachments[i].isColorAttachment {
        r := r + [GlAttachment(attachments[i].attachment)];
      }
      i := i + 1;
    }
    assert attachments[..i] == attachments;
  }

  /** The delete loop of `free`. */
  method OwnedTextures(attachments: seq<TargetAttachment>) returns (r: seq<TextureRef>)
    ensures r == Owned(attachments)
  {
    r := [];
    var i := 0;
    while i < |attachments|
      invariant 0 <= i <= |attachments|
      invariant r == Owned(attachments[..i])
    {
      assert attachments[..i + 1][..i] == attachments[..i];
      if attachments[i].isOwnedByTarget {
        r := r + [attachments[i].texture];
      }
      i := i + 1;
    }
    assert attachments[..i] == attachments;
  }

  /** `Target`: its own copy of the target data, the framebuffer handle, and the textures it
      has deleted. */
  class Target {
    var data: TargetData
    var handle: int
    var deleted: seq<TextureRef>

    /** The flags agree with the slots and the target owns only textures it created. */
    predicate Valid()
      reads this
    {
      FlagsAgree(data.attachments) && OwnsOnlyCreated(data.attachments)
    }

    /** `Target(data)`. */
    constructor (d: TargetData)
      ensures data == d && handle == 0 && deleted == []
    {
      data, handle, deleted := d, 0, [];
    }

    /** `get`: the texture linked in slot `t`, from the first attachment in that slot. */
    function Get(t: AttachmentType): (r: Option<TextureRef>)
      reads this
      ensures r.None? <==> forall i :: 0 <= i < |data.attachments| ==> data.attachments[i].attachment != t
      ensures r.Some? ==>
        exists i :: (0 <= i < |data.attachments| && data.attachments[i].attachment == t &&
                     data.attachments[i].texture == r.value)
    {
      var k := GetAttachment(data.attachments, t);
      if k == -1 then None else Some(data.attachments[k].texture)
    }

    /** `swapAttachment` as written: when slot `t` is linked, its texture is deleted if the
        target owned it and `texture` takes its place, the ownership flag staying as it was. */
    method SwapAttachment(t: AttachmentType, texture: TextureRef)
      requires FlagsAgree(data.attachments)
      modifies this
      ensures FlagsAgree(data.attachments)
      ensures data == old(data).(attachments := Swapped(old(data.attachments), t, texture, true))
      ensures deleted == old(deleted) + Released(old(data.attachments), t)
      ensures handle == old(handle)
      ensures Get(t) == if old(Get(t)).None? then None else Some(texture)
    {
      var k := GetAttachment(data.attachments, t);
      if k != -1 {
        var current := data.attachments[k];
        if current.isOwnedByTarget {
          deleted := deleted + [current.texture];
        }
        var before := data.attachments;
        data := data.(attachments := data.attachments[k := current.(texture := texture)]);
        GetAttachmentSlots(before, data.attachments, t);
      }
    }

    /** `swapAttachment` as evidently intended: the texture swapped in comes from the caller,
        as one linked by `attach(type, texture)` does, so the target no longer owns that
        slot's texture. */
    method SwapAttachmentFixed(t: AttachmentType, texture: TextureRef)
      requires Valid()
      modifies this
      ensures Valid()
      ensures data == old(data).(attachments := Swapped(old(data.attachments), t, texture, false))
      ensures deleted == old(deleted) + Released(old(data.attachments), t)
      ensures handle == old(handle)
      ensures Get(t) == if old(Get(t)).None? then None else Some(texture)
    {
      var k := GetAttachment(data.attachments, t);
      if k != -1 {
        var current := data.attachments[k];
        if current.isOwnedByTarget {
          deleted := deleted + [current.texture];
        }
        var before := data.attachments;
        data := data.(attachments := data.attachments[k := current.(texture := texture, isOwnedByTarget := false)]);
        GetAttachmentSlots(before, data.attachments, t);
      }
    }

    /** The draw-buffer part of `upload`: the framebuffer gets `name` unless it has a handle,
        and the draw buffers are the colour attachment points in attachment order. */
    method Upload(name: int) returns (drawBuffers: seq<int>)
      modifies this
      ensures handle == if old(handle) == 0 then name else old(handle)
      ensures data == old(data) && deleted == old(deleted)
      ensures drawBuffers == ColourTargets(data.attachments)
    {
      if handle == 0 {
        handle := name;
      }
      drawBuffers := DrawBuffers(data.attachments);
    }

    /** `free`: the owned textures are deleted in attachment order, the attachment list is
        emptied and the handle reset. */
    method Free()
      modifies this
      ensures handle == 0 && data == old(data).(attachments := [])
      ensures deleted == old(deleted) + Owned(old(data.attachments))
      ensures old(Valid()) ==> forall x :: x in deleted && x !in old(deleted) ==> x.Created?
    {
      var owned := OwnedTextures(data.attachments);
      if Valid() {
        forall x | x in owned ensures x.Created?
        {
          if x.Supplied? { OwnedAreCreated(data.attachments, x.name); }
        }
      }
      handle, deleted := 0, deleted + owned;
      data := data.(attachments := []);
    }
  }

  /** `TargetBuilder`. */
  class TargetBuilder {
    var building: TargetData

    /** The builder's flags agree with the slots and it owns only textures it created. */
    predicate Valid()
      reads this
    {
      FlagsAgree(building.attachments) && OwnsOnlyCreated(building.attachments)
    }

    constructor ()
      ensures building == TargetData([], 0, 0) && Valid()
    {
      building := TargetData([], 0, 0);
    }

    /** `size(width, height)`: the size later created textures get. */
    method Size(width: int, height: int)
      requires Valid()
      modifies this
      ensures Valid()
      ensures building == old(building).(width := width, height := height)
    {
      building := building.(width := width, height := height);
    }

    /** `attach(type, texture)`: links the caller's texture, not owned by the target. */
    method AttachTexture(t: AttachmentType, name: int)
      requires Valid()
      modifies this
      ensures Valid()
      ensures building == old(building).(attachments := old(building.attachments) +
        [TargetAttachment(t, Supplied(name), false, IsColorAttachment(t))])
    {
      var a := TargetAttachment(t, Supplied(name), false, IsColorAttachment(t));
      building := building.(attachments := building.attachments + [a]);
    }

    /** `attach(type, format)`: creates a texture of that format at the builder's current size
        and links it, owned by the target. */
    method AttachFormat(t: AttachmentType, format: int)
      requires Valid()
      modifies this
      ensures Valid()
      ensures building == old(building).(attachments := old(building.attachments) +
        [TargetAttachment(t, Created(|old(building.attachments)|, format, old(building.width),
                                     old(building.height)), true, IsColorAttachment(t))])
    {
      var tex := Created(|building.attachments|, format, building.width, building.height);
      var a := TargetAttachment(t, tex, true, IsColorAttachment(t));
      building := building.(attachments := building.attachments + [a]);
    }

    /** `build()`. */
    method Build() returns (target: Target)
      requires Valid()
      ensures target.Valid()
      ensures fresh(target) && target.data == building && target.handle == 0
      ensures target.deleted == []
    {
      target := new Target(building);
    }
  }
}
