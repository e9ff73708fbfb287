/** IMFAssetMap: the registry of asset locators that the Asset Map walk
    fills, with its allocation, append and release. The C array of pointers
    is a sequence; `assetCount` is kept as the separate field it is in the
    source, so that its agreement with the sequence is something to prove. */
module AssetRegistry {
  import opened Results

  newtype Byte = x: int | 0 <= x < 256

  /** A decoded asset identifier: 16 raw bytes. */
  type Uuid = s: seq<Byte> | |s| == 16 witness [0, 0, 0, 0, 0, 0, 0, 0, 0, 0, 0, 0, 0, 0, 0, 0]

  /** IMFAssetLocator: an asset's identifier and where its file lives. */
  datatype AssetLocator = AssetLocator(uuid: Uuid, absoluteUri: string)

  /** IMFAssetMap. `assetCount` never goes below zero: it starts at 0 and is
      only ever incremented. */
  datatype AssetMap = AssetMap(assets: seq<AssetLocator>, assetCount: nat)
  {
    /** The registry invariant: the count is the number of stored entries. */
    predicate Valid()
    {
      assetCount == |assets|
    }
  }

  /** imf_asset_map_alloc; `available` stands for whether av_malloc found
      memory, a NULL result being `None`. */
  function Alloc(available: bool): (r: Option<AssetMap>)
    ensures r.Some? <==> available
    ensures r.Some? ==> r.value.Valid() && r.value.assetCount == 0 && r.value.assets == []
  {
    if available then Some(AssetMap([], 0)) else None
  }

  /** `assets[asset_count++] = asset`: the locator lands at index
      `assetCount`, after every earlier entry, and the count moves with it. */
  function Append(m: AssetMap, a: AssetLocator): (r: AssetMap)
    ensures |r.assets| == |m.assets| + 1
    ensures r.assets[..|m.assets|] == m.assets && r.assets[|m.assets|] == a
    ensures r.assetCount == m.assetCount + 1
    ensures m.Valid() ==> r.Valid() && r.assets[m.assetCount] == a
  {
    AssetMap(m.assets + [a], m.assetCount + 1)
  }

  /** One av_free performed by imf_asset_map_free. */
  datatype Release =
    | EntryBlock(index: nat, locator: AssetLocator)  // assets[index]
    | EntryArray                                      // the assets array
    | RegistryBlock                                   // the IMFAssetMap itself

  /** imf_asset_map_free, returning the blocks it releases in order. A NULL
      registry releases nothing; otherwise entries 0 .. assetCount-1 are
      released once each, in index order, then the array, then the registry. */
  method Free(p: Option<AssetMap>) returns (released: seq<Release>)
    requires p.Some? ==> p.value.assetCount <= |p.value.assets|
    ensures p.None? ==> released == []
    ensures p.Some? ==> |released| == p.value.assetCount + 2
    ensures p.Some? ==> forall i :: 0 <= i < p.value.assetCount ==>
      released[i] == EntryBlock(i, p.value.assets[i])
    ensures p.Some? ==> released[p.value.assetCount] == EntryArray
    ensures p.Some? ==> released[p.value.assetCount + 1] == RegistryBlock
  {
    if p.None? {
      return [];
    }
    var m := p.value;
    released := [];
    var i := 0;
    while i < m.assetCount
      invariant 0 <= i <= m.assetCount
      invariant |released| == i
      invariant forall j :: 0 <= j < i ==> released[j] == EntryBlock(j, m.assets[j])
    {
      released := released + [EntryBlock(i, m.assets[i])];
      i := i + 1;
    }
    released := released + [EntryArray, RegistryBlock];
  }

  /** Releasing a valid registry frees every stored locator exactly once. */
  lemma FreeReleasesEachEntryOnce(m: AssetMap, released: seq<Release>, i: nat)
    requires m.Valid() && i < |m.assets|
    requires |released| == m.assetCount + 2
    requires forall j :: 0 <= j < m.assetCount ==> released[j] == EntryBlock(j, m.assets[j])
    requires released[m.assetCount] == EntryArray && released[m.assetCount + 1] == RegistryBlock
    ensures EntryBlock(i, m.assets[i]) in released
    ensures forall j :: 0 <= j < |released| && released[j].EntryBlock? && released[j].index == i ==> j == i
  {
  }

  // Growth of the `assets` array (imfdec.c line 126), on an LP64 target:
  // a pointer takes 8 bytes and an IMFAssetLocator (16-byte UUID plus a
  // pointer) takes 24.
  const PointerSize: nat := 8
  const LocatorSize: nat := 24

  /** Bytes needed to hold the pointer slots 0 .. count, i.e. to store the
      entry at index `count`. */
  function SlotBytes(count: nat): nat
  {
    (count + 1) * PointerSize
  }

  /** The size passed to av_realloc as written:
      `asset_count + 1 * sizeof(IMFAssetLocator)`. */
  function ReallocBytesAsWritten(count: nat): (r: nat)
    ensures count >= 3 ==> r < SlotBytes(count)
  {
    count + 1 * LocatorSize
  }

  /** As written, the array is large enough for the new slot only while at
      most two entries are already stored: storing the fourth asset writes
      past the end of the allocation. */
  lemma ReallocAsWrittenFitsOnlyThree(count: nat)
    ensures ReallocBytesAsWritten(count) >= SlotBytes(count) <==> count <= 2
  {
  }

  /** The evidently intended growth: `(asset_count + 1) * sizeof(IMFAssetLocator *)`.
      This is exactly SlotBytes, so the ensures only record that it holds the
      slot; CorrectedGrowthStoresAll states what it means for the registry. */
  function ReallocBytes(count: nat): (r: nat)
    ensures r >= SlotBytes(count)
    ensures r - SlotBytes(count) < PointerSize
  {
    (count + 1) * PointerSize
  }

  /** Lines 126-127 applied to each of `locs` in turn: before each store the
      array is resized to `grow(assetCount)` bytes. The result is the registry
      after every store, or the index of the first store that would write past
      the end of the array. */
  function AppendAll(grow: nat -> nat, m: AssetMap, locs: seq<AssetLocator>): (r: Result<AssetMap, nat>)
    ensures r.Err? ==> m.assetCount <= r.error < m.assetCount + |locs| && grow(r.error) < SlotBytes(r.error)
    decreases |locs|
  {
    if locs == [] then Ok(m)
    else if grow(m.assetCount) < SlotBytes(m.assetCount) then Err(m.assetCount)
    else AppendAll(grow, Append(m, locs[0]), locs[1..])
  }

  /** With the corrected size every store stays inside the array: all the
      locators are appended, in order, and the count invariant is kept. */
  lemma {:induction false} CorrectedGrowthStoresAll(m: AssetMap, locs: seq<AssetLocator>)
    ensures AppendAll(ReallocBytes, m, locs) == Ok(AssetMap(m.assets + locs, m.assetCount + |locs|))
    ensures m.Valid() ==> AppendAll(ReallocBytes, m, locs).value.Valid()
    decreases |locs|
  {
    if locs != [] {
      var g: nat -> nat := ReallocBytes;
      assert g(m.assetCount) >= SlotBytes(m.assetCount);
      assert AppendAll(g, m, locs) == AppendAll(g, Append(m, locs[0]), locs[1..]);
      CorrectedGrowthStoresAll(Append(m, locs[0]), locs[1..]);
      assert m.assets + [locs[0]] + locs[1..] == m.assets + locs;
    } else {
      assert m.assets + locs == m.assets;
    }
  }

  /** As written, a fresh registry takes three locators, and the store of a
      fourth is the first to write past the end of the array. */
  lemma {:induction false} AsWrittenGrowthOverflowsAtFourth(locs: seq<AssetLocator>)
    ensures |locs| <= 3 ==> AppendAll(ReallocBytesAsWritten, AssetMap([], 0), locs) == Ok(AssetMap(locs, |locs|))
    ensures |locs| >= 4 ==> AppendAll(ReallocBytesAsWritten, AssetMap([], 0), locs) == Err(3)
  {
    var g := ReallocBytesAsWritten;
    var m0 := AssetMap([], 0);
    if locs == [] {
    } else {
      var m1 := Append(m0, locs[0]);
      assert m1 == AssetMap(locs[..1], 1);
      if |locs| == 1 {
        assert AppendAll(g, m1, locs[1..]) == Ok(m1);
        assert locs[..1] == locs;
      } else {
        var m2 := Append(m1, locs[1]);
        assert m2 == AssetMap(locs[..2], 2);
        if |locs| == 2 {
          assert AppendAll(g, m2, locs[2..]) == Ok(m2);
          assert AppendAll(g, m1, locs[1..]) == AppendAll(g, m2, locs[2..]);
          assert locs[..2] == locs;
        } else {
          var m3 := Append(m2, locs[2]);
          assert m3 == AssetMap(locs[..3], 3);
          assert AppendAll(g, m1, locs[1..]) == AppendAll(g, m2, locs[2..]);
          assert AppendAll(g, m2, locs[2..]) == AppendAll(g, m3, locs[3..]);
          if |locs| == 3 {
            assert locs[..3] == locs;
          } else {
            assert g(3) < SlotBytes(3);
          }
        }
      }
    }
  }
}
