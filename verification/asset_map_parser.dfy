/** parse_imf_asset_map_from_xml_dom: walks an Asset Map document tree
    (SMPTE ST 429-9:2007, AssetMap / AssetList / Asset / Id / ChunkList /
    Chunk / Path) and appends one locator per Asset to the registry.

    The C function mutates the registry it is handed and returns an int; here
    it takes the incoming registry and returns the outcome together with the
    registry as it stands when the function returns, so that what an early
    exit leaves behind can be stated. */
module AssetMapParser {
  import opened Results
  import opened XmlTree
  import opened AssetRegistry

  /** Helpers defined outside imfdec.c, given only as function values:
      `readUuid` is xml_read_UUID applied to the text of an `Id` element (it may
      fail); `appendPath` is av_append_path_component, which receives the
      `Path` content, NULL (`None`) when the `Chunk` has no `Path`. */
  datatype Collaborators = Collaborators(
    readUuid: string -> Option<Uuid>,
    appendPath: (string, Option<string>) -> string)

  /** Why the walk stopped early. */
  datatype ParseError =
    | MissingRoot        // no root element
    | WrongRoot          // root is not an element named AssetMap
    | MissingAssetList
    | BadUuid            // Id missing or not decodable
    | MissingChunkList
    | MissingChunk

  datatype Status = Done | Failed(error: ParseError)

  datatype Parsed = Parsed(status: Status, assetMap: AssetMap)

  /** AVERROR_INVALIDDATA, i.e. -MKTAG('I','N','D','A'). */
  const InvalidData: int := -0x41444E49

  /** The tag test applied to each child of AssetList (case-insensitive). */
  predicate IsAsset(n: Node)
  {
    SameIgnoringCase(n.name, "Asset")
  }

  /** The Asset-named members of a sibling sequence, in document order. */
  function AssetElements(sibs: seq<Node>): (r: seq<Node>)
    ensures |r| <= |sibs|
    ensures forall n :: n in r <==> n in sibs && IsAsset(n)
  {
    if sibs == [] then []
    else (if IsAsset(sibs[0]) then [sibs[0]] else []) + AssetElements(sibs[1..])
  }

  /** Filtering two runs of siblings one after the other gives the Assets of
      the first run, then those of the second: the filter keeps document
      order and every occurrence. */
  lemma {:induction false} AssetElementsAppend(a: seq<Node>, b: seq<Node>)
    ensures AssetElements(a + b) == AssetElements(a) + AssetElements(b)
    decreases |a|
  {
    if a == [] {
      assert a + b == b;
    } else {
      assert (a + b)[0] == a[0];
      assert (a + b)[1..] == a[1..] + b;
      AssetElementsAppend(a[1..], b);
    }
  }

  /** The root checks and the AssetList lookup. */
  function FindAssetList(root: Option<Node>): (r: Result<Node, ParseError>)
    ensures r == Err(MissingRoot) <==> root.None?
    ensures r == Err(WrongRoot) <==>
      root.Some? && (root.value.kind != Element || !SameIgnoringCase(root.value.name, "AssetMap"))
    ensures r == Err(MissingAssetList) <==>
      root.Some? && root.value.kind == Element && SameIgnoringCase(root.value.name, "AssetMap")
      && forall j :: 0 <= j < |root.value.children| ==> !IsElementNamed(root.value.children[j], "AssetList")
    ensures r.Err? ==> r.error in {MissingRoot, WrongRoot, MissingAssetList}
    ensures r.Ok? ==>
      && root.Some?
      && IsElementNamed(r.value, "AssetList")
      && IsFirstNamed(root.value.children, "AssetList", r.value)
  {
    if root.None? then Err(MissingRoot)
    else if root.value.kind != Element || !SameIgnoringCase(root.value.name, "AssetMap") then Err(WrongRoot)
    else match ChildElementByName(root.value, "AssetList")
      case None => Err(MissingAssetList)
      case Some(list) => Ok(list)
  }

  /** The identifier of an Asset: the text of its first `Id` child, decoded.
      A missing `Id` counts as a failed decode. */
  function AssetUuid(c: Collaborators, asset: Node): (r: Option<Uuid>)
    ensures (forall j :: 0 <= j < |asset.children| ==> !IsElementNamed(asset.children[j], "Id")) ==> r.None?
    ensures r.Some? ==> exists id :: IsFirstNamed(asset.children, "Id", id) && c.readUuid(TextContent(id)) == r
    ensures forall id :: IsFirstNamed(asset.children, "Id", id) ==> r == c.readUuid(TextContent(id))
  {
    match ChildElementByName(asset, "Id")
    case None => None
    case Some(id) => c.readUuid(TextContent(id))
  }

  /** The text of the `Path` child of the first `Chunk` of a ChunkList
      (`None` when that Chunk has no Path); later Chunks are never looked at. */
  function ChunkPath(chunkList: Node): (r: Result<Option<string>, ParseError>)
    ensures r.Err? <==> forall j :: 0 <= j < |chunkList.children| ==> !IsElementNamed(chunkList.children[j], "Chunk")
    ensures r.Err? ==> r.error == MissingChunk
    ensures forall chunk :: IsFirstNamed(chunkList.children, "Chunk", chunk) ==>
      r == Ok(match ChildElementByName(chunk, "Path")
              case None => None
              case Some(p) => Some(TextContent(p)))
  {
    match ChildElementByName(chunkList, "Chunk")
    case None => Err(MissingChunk)
    case Some(chunk) =>
      Ok(match ChildElementByName(chunk, "Path")
         case None => None
         case Some(path) => Some(TextContent(path)))
  }

  /** Children after the first `Id` never change the identifier read. */
  lemma AssetUuidIgnoresLaterChildren(c: Collaborators, asset: Node, extra: seq<Node>)
    requires ChildElementByName(asset, "Id").Some?
    ensures AssetUuid(c, asset.(children := asset.children + extra)) == AssetUuid(c, asset)
  {
    FindNamedIgnoresLaterNodes(asset.children, extra, "Id");
  }

  /** Additional Chunk elements (a fragmented asset) never change the path
      that is read: only the first Chunk is consulted. */
  lemma ChunkPathIgnoresLaterChunks(chunkList: Node, extra: seq<Node>)
    requires ChunkPath(chunkList).Ok?
    ensures ChunkPath(chunkList.(children := chunkList.children + extra)) == ChunkPath(chunkList)
  {
    FindNamedIgnoresLaterNodes(chunkList.children, extra, "Chunk");
  }

  /** One pass of the loop body on an Asset element: decode the Id, find
      ChunkList and its first Chunk, join the base URL with that Chunk's Path. */
  function ProcessAsset(c: Collaborators, asset: Node, base: string): (r: Result<AssetLocator, ParseError>)
    ensures r == Err(BadUuid) <==> AssetUuid(c, asset).None?
    ensures r == Err(MissingChunkList) <==>
      AssetUuid(c, asset).Some? && ChildElementByName(asset, "ChunkList").None?
    ensures r == Err(MissingChunk) <==>
      AssetUuid(c, asset).Some? && ChildElementByName(asset, "ChunkList").Some?
      && ChunkPath(ChildElementByName(asset, "ChunkList").value).Err?
    ensures r.Ok? <==>
      && AssetUuid(c, asset).Some?
      && ChildElementByName(asset, "ChunkList").Some?
      && ChunkPath(ChildElementByName(asset, "ChunkList").value).Ok?
    ensures r.Ok? ==>
      && AssetUuid(c, asset) == Some(r.value.uuid)
      && ChildElementByName(asset, "ChunkList").Some?
      && ChunkPath(ChildElementByName(asset, "ChunkList").value).Ok?
      && r.value.absoluteUri == c.appendPath(base, ChunkPath(ChildElementByName(asset, "ChunkList").value).value)
  {
    match AssetUuid(c, asset)
    case None => Err(BadUuid)
    case Some(uuid) =>
      match ChildElementByName(asset, "ChunkList")
      case None => Err(MissingChunkList)
      case Some(chunkList) =>
        match ChunkPath(chunkList)
        case Err(e) => Err(e)
        case Ok(path) => Ok(AssetLocator(uuid, c.appendPath(base, path)))
  }

  /** The loop body applied to one Asset element. */
  type Step = Node -> Result<AssetLocator, ParseError>

  /** The loop over the element children of AssetList, advancing past every
      child (Asset or not) to its next element sibling; `step` is the loop
      body run on each Asset. The count moves with every entry appended;
      WalkStoresLeadingAssets states which entries those are. */
  function Walk(step: Step, sibs: seq<Node>, m: AssetMap): (r: Parsed)
    ensures r.assetMap.assetCount - m.assetCount == |r.assetMap.assets| - |m.assets|
    decreases |sibs|
  {
    if sibs == [] then Parsed(Done, m)
    else if !IsAsset(sibs[0]) then Walk(step, sibs[1..], m)
    else match step(sibs[0])
      case Err(e) => Parsed(Failed(e), m)
      case Ok(loc) => Walk(step, sibs[1..], Append(m, loc))
  }

  /** `after` is `before` followed by the locators `step` yields for the
      first few elements of `assets`, in order. */
  ghost predicate StoredInOrder(step: Step, assets: seq<Node>, before: seq<AssetLocator>, after: seq<AssetLocator>)
  {
    && |before| <= |after| <= |before| + |assets|
    && after[..|before|] == before
    && forall i :: 0 <= i < |after| - |before| ==> step(assets[i]) == Ok(after[|before| + i])
  }

  /** Storing `loc` for the Asset `a` and then the locators of the Assets
      after it is storing the locators of all of them. */
  lemma StoredInOrderCons(step: Step, a: Node, rest: seq<Node>, before: seq<AssetLocator>, loc: AssetLocator, after: seq<AssetLocator>)
    requires step(a) == Ok(loc)
    requires StoredInOrder(step, rest, before + [loc], after)
    ensures StoredInOrder(step, [a] + rest, before, after)
  {
  }

  /** What the walk does, in terms of the Asset elements alone: the first k
      Assets, for some k, are appended in document order, each as the locator
      `step` yields for it. On `Done` every Asset was appended; on `Failed(e)`
      the Asset at position k is the first one that fails, with error e, and
      it is not appended. */
  ghost predicate WalkOutcome(step: Step, assets: seq<Node>, m: AssetMap, r: Parsed)
  {
    && StoredInOrder(step, assets, m.assets, r.assetMap.assets)
    && (r.status.Done? ==> |r.assetMap.assets| == |m.assets| + |assets|)
    && (r.status.Failed? ==>
          && |r.assetMap.assets| < |m.assets| + |assets|
          && step(assets[|r.assetMap.assets| - |m.assets|]) == Err(r.status.error))
  }

  /** One Asset stored ahead of a walk that keeps going preserves WalkOutcome. */
  lemma WalkOutcomeCons(step: Step, a: Node, rest: seq<Node>, m: AssetMap, loc: AssetLocator, r: Parsed)
    requires step(a) == Ok(loc)
    requires WalkOutcome(step, rest, Append(m, loc), r)
    ensures WalkOutcome(step, [a] + rest, m, r)
  {
  }

  /** The walk satisfies WalkOutcome over the Asset elements among its siblings. */
  lemma {:induction false} WalkStoresLeadingAssets(step: Step, sibs: seq<Node>, m: AssetMap)
    ensures WalkOutcome(step, AssetElements(sibs), m, Walk(step, sibs, m))
    decreases |sibs|
  {
    if sibs == [] {
    } else if !IsAsset(sibs[0]) {
      assert AssetElements(sibs) == AssetElements(sibs[1..]);
      WalkStoresLeadingAssets(step, sibs[1..], m);
    } else {
      var rest := AssetElements(sibs[1..]);
      assert AssetElements(sibs) == [sibs[0]] + rest;
      match step(sibs[0])
      case Err(e) =>
      case Ok(loc) =>
        var m' := Append(m, loc);
        assert Walk(step, sibs, m) == Walk(step, sibs[1..], m');
        WalkStoresLeadingAssets(step, sibs[1..], m');
        WalkOutcomeCons(step, sibs[0], rest, m, loc, Walk(step, sibs, m));
    }
  }

  /** The loop body of parse_imf_asset_map_from_xml_dom for a given base URL. */
  function AssetStep(c: Collaborators, base: string): Step
  {
    a => ProcessAsset(c, a, base)
  }

  /** parse_imf_asset_map_from_xml_dom, with the skip-and-advance loop. */
  function Parse(c: Collaborators, root: Option<Node>, base: string, m: AssetMap): (r: Parsed)
    ensures FindAssetList(root).Err? ==> r == Parsed(Failed(FindAssetList(root).error), m)
    ensures m.Valid() ==> r.assetMap.Valid()
  {
    match FindAssetList(root)
    case Err(e) => Parsed(Failed(e), m)
    case Ok(list) => Walk(AssetStep(c, base), ElementChildren(list.children), m)
  }

  /** The Asset elements Parse visits: those among AssetList's element children. */
  function AssetsOf(list: Node): seq<Node>
  {
    AssetElements(ElementChildren(list.children))
  }

  /** The int parse_imf_asset_map_from_xml_dom returns, as written: 0 on
      success, 1 when an Id cannot be decoded, AVERROR_INVALIDDATA otherwise. */
  function ReturnCode(p: Parsed): (code: int)
    ensures code == 0 <==> p.status.Done?
    ensures code == 1 <==> p.status == Failed(BadUuid)
    ensures code < 0 <==> p.status.Failed? && p.status.error != BadUuid
    ensures code < 0 ==> code == InvalidData
  {
    match p.status
    case Done => 0
    case Failed(BadUuid) => 1
    case Failed(_) => InvalidData
  }

  /** The evidently intended return code: every failure is AVERROR_INVALIDDATA. */
  function IntendedReturnCode(p: Parsed): (code: int)
    ensures code == 0 <==> p.status.Done?
    ensures code < 0 <==> p.status.Failed?
    ensures code != 0 ==> code == InvalidData
  {
    if p.status.Done? then 0 else InvalidData
  }

  // ---------------------------------------------------------------------
  // Properties of the walk

  /** Root checks: a missing root, a non-element root, or a root not named
      AssetMap (in any letter case) fails with AVERROR_INVALIDDATA and leaves
      the registry untouched. */
  lemma RootChecks(c: Collaborators, root: Option<Node>, base: string, m: AssetMap)
    requires root.None? || root.value.kind != Element || !SameIgnoringCase(root.value.name, "AssetMap")
    ensures Parse(c, root, base, m).assetMap == m
    ensures ReturnCode(Parse(c, root, base, m)) == InvalidData
  {
  }

  /** Parsing a document that has an AssetList stores, after the incoming
      entries, the locators of its leading Assets in document order, and
      stops at the first Asset that fails. */
  lemma ParseStoresLeadingAssets(c: Collaborators, root: Option<Node>, base: string, m: AssetMap)
    requires FindAssetList(root).Ok?
    ensures WalkOutcome(AssetStep(c, base), AssetsOf(FindAssetList(root).value), m, Parse(c, root, base, m))
  {
    WalkStoresLeadingAssets(AssetStep(c, base), ElementChildren(FindAssetList(root).value.children), m);
  }

  /** When the step succeeds on every Asset, the walk finishes and stores one
      locator per Asset. */
  lemma WalkCompletes(step: Step, sibs: seq<Node>, m: AssetMap)
    requires forall i :: 0 <= i < |AssetElements(sibs)| ==> step(AssetElements(sibs)[i]).Ok?
    ensures Walk(step, sibs, m).status == Done
    ensures |Walk(step, sibs, m).assetMap.assets| == |m.assets| + |AssetElements(sibs)|
    ensures StoredInOrder(step, AssetElements(sibs), m.assets, Walk(step, sibs, m).assetMap.assets)
  {
    WalkStoresLeadingAssets(step, sibs, m);
  }

  /** Over a well-formed Asset Map, i.e. one whose every Asset yields a
      locator, parsing into a fresh registry succeeds and stores exactly one
      entry per Asset, in document order, keeping the count equal to the
      number of entries. */
  lemma WellFormedMapFillsRegistry(c: Collaborators, root: Option<Node>, base: string)
    requires FindAssetList(root).Ok?
    requires forall a :: a in AssetsOf(FindAssetList(root).value) ==> ProcessAsset(c, a, base).Ok?
    ensures var r := Parse(c, root, base, AssetMap([], 0));
      && r.status == Done
      && r.assetMap.Valid()
      && r.assetMap.assetCount == |AssetsOf(FindAssetList(root).value)|
      && forall i :: 0 <= i < r.assetMap.assetCount ==>
           ProcessAsset(c, AssetsOf(FindAssetList(root).value)[i], base) == Ok(r.assetMap.assets[i])
  {
    var list := FindAssetList(root).value;
    var step := AssetStep(c, base);
    var sibs := ElementChildren(list.children);
    var A := AssetElements(sibs);
    forall i | 0 <= i < |A|
      ensures step(A[i]).Ok?
    {
      assert A[i] in A;
    }
    WalkCompletes(step, sibs, AssetMap([], 0));
    var r := Parse(c, root, base, AssetMap([], 0));
    assert r == Walk(step, sibs, AssetMap([], 0));
    forall i | 0 <= i < |A|
      ensures ProcessAsset(c, A[i], base) == Ok(r.assetMap.assets[i])
    {
      assert step(A[i]) == Ok(r.assetMap.assets[0 + i]);
    }
  }

  /** The walk stops at the first Asset that fails, in whichever of the three
      ways it fails, and nothing of that Asset is stored: exactly the
      locators of the Assets before it are. */
  lemma FirstFailingAssetStops(step: Step, sibs: seq<Node>, m: AssetMap, k: nat)
    requires k < |AssetElements(sibs)|
    requires forall i :: 0 <= i < k ==> step(AssetElements(sibs)[i]).Ok?
    requires step(AssetElements(sibs)[k]).Err?
    ensures var r := Walk(step, sibs, m);
      && r.status == Failed(step(AssetElements(sibs)[k]).error)
      && |r.assetMap.assets| == |m.assets| + k
      && StoredInOrder(step, AssetElements(sibs), m.assets, r.assetMap.assets)
  {
    WalkStoresLeadingAssets(step, sibs, m);
  }

  /** The walk depends only on the Asset elements among the siblings:
      non-Asset children, wherever they sit, change nothing. */
  lemma {:induction false} WalkDependsOnlyOnAssets(step: Step, s1: seq<Node>, s2: seq<Node>, m: AssetMap)
    requires AssetElements(s1) == AssetElements(s2)
    ensures Walk(step, s1, m) == Walk(step, s2, m)
  {
    WalkStoresLeadingAssets(step, s1, m);
    WalkStoresLeadingAssets(step, s2, m);
    var r1 := Walk(step, s1, m);
    var r2 := Walk(step, s2, m);
    var A := AssetElements(s1);
    var n := |m.assets|;
    var k1 := |r1.assetMap.assets| - n;
    var k2 := |r2.assetMap.assets| - n;
    assert r1.status == r2.status;
    assert r1.assetMap.assets == r2.assetMap.assets by {
      forall i | 0 <= i < |r1.assetMap.assets|
        ensures r1.assetMap.assets[i] == r2.assetMap.assets[i]
      {
        if i < n {
          assert r1.assetMap.assets[..n][i] == r2.assetMap.assets[..n][i];
        } else {
          assert step(A[i - n]) == Ok(r1.assetMap.assets[n + (i - n)]);
        }
      }
    }
  }

  // ---------------------------------------------------------------------
  // The loop exactly as written

  /** What the loop at imfdec.c lines 92-128 does: it either leaves through
      an exit, or it spins forever with the registry as it stands. */
  datatype LoopOutcome = Exits(parsed: Parsed) | Spins(assetMap: AssetMap)

  /** The loop as written: the `continue` taken for a child whose tag is not
      Asset leaves `node` and every other variable unchanged, so the same test
      is taken again for ever. */
  function WalkAsWritten(step: Step, sibs: seq<Node>, m: AssetMap): (r: LoopOutcome)
    ensures r.Spins? ==> exists i :: 0 <= i < |sibs| && !IsAsset(sibs[i])
    decreases |sibs|
  {
    if sibs == [] then Exits(Parsed(Done, m))
    else if !IsAsset(sibs[0]) then Spins(m)
    else match step(sibs[0])
      case Err(e) => Exits(Parsed(Failed(e), m))
      case Ok(loc) => WalkAsWritten(step, sibs[1..], Append(m, loc))
  }

  /** parse_imf_asset_map_from_xml_dom exactly as written: the root checks,
      then the literal loop over AssetList's element children. */
  function ParseAsWritten(c: Collaborators, root: Option<Node>, base: string, m: AssetMap): (r: LoopOutcome)
    ensures FindAssetList(root).Err? ==> r == Exits(Parsed(Failed(FindAssetList(root).error), m))
    ensures r.Spins? ==>
      && FindAssetList(root).Ok?
      && exists n :: n in FindAssetList(root).value.children && n.kind == Element && !IsAsset(n)
  {
    match FindAssetList(root)
    case Err(e) => Exits(Parsed(Failed(e), m))
    case Ok(list) => WalkAsWritten(AssetStep(c, base), ElementChildren(list.children), m)
  }

  /** The literal loop spins on any non-Asset element it reaches: one that
      comes after only Assets that the loop body accepts. */
  lemma {:induction false} SpinsWhenStrayBeforeFailure(step: Step, sibs: seq<Node>, m: AssetMap, i: nat)
    requires i < |sibs| && !IsAsset(sibs[i])
    requires forall j :: 0 <= j < i ==> IsAsset(sibs[j]) && step(sibs[j]).Ok?
    ensures WalkAsWritten(step, sibs, m).Spins?
    decreases i
  {
    if i > 0 {
      assert forall j :: 0 <= j < i - 1 ==> sibs[1..][j] == sibs[j + 1];
      SpinsWhenStrayBeforeFailure(step, sibs[1..], Append(m, step(sibs[0]).value), i - 1);
    }
  }

  /** Whenever the literal loop terminates it agrees with the corrected walk;
      when every element child of AssetList is an Asset it always terminates. */
  lemma {:induction false} AsWrittenAgreesOrSpins(step: Step, sibs: seq<Node>, m: AssetMap)
    ensures WalkAsWritten(step, sibs, m).Exits? ==> WalkAsWritten(step, sibs, m).parsed == Walk(step, sibs, m)
    ensures (forall i :: 0 <= i < |sibs| ==> IsAsset(sibs[i])) ==> WalkAsWritten(step, sibs, m).Exits?
    decreases |sibs|
  {
    if sibs != [] && IsAsset(sibs[0]) {
      match step(sibs[0])
      case Err(e) =>
      case Ok(loc) =>
        AsWrittenAgreesOrSpins(step, sibs[1..], Append(m, loc));
        assert forall i :: 1 <= i < |sibs| ==> sibs[1..][i - 1] == sibs[i];
    }
  }

  /** Every element child of `list` is named Asset (in any letter case). */
  predicate OnlyAssets(list: Node)
  {
    forall i :: 0 <= i < |ElementChildren(list.children)| ==> IsAsset(ElementChildren(list.children)[i])
  }

  /** The literal parser agrees with Parse whenever it returns, and returns
      whenever every element child of AssetList is an Asset. */
  lemma ParseAsWrittenAgreesOrSpins(c: Collaborators, root: Option<Node>, base: string, m: AssetMap)
    ensures ParseAsWritten(c, root, base, m).Exits? ==> ParseAsWritten(c, root, base, m).parsed == Parse(c, root, base, m)
    ensures FindAssetList(root).Ok? && OnlyAssets(FindAssetList(root).value) ==> ParseAsWritten(c, root, base, m).Exits?
  {
    if FindAssetList(root).Ok? {
      AsWrittenAgreesOrSpins(AssetStep(c, base), ElementChildren(FindAssetList(root).value.children), m);
    }
  }
}
