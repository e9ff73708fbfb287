/** The parts of imf_read_header that decide what happens with the Asset Map:
    where it is looked for, and which return codes abort opening the package. */
module ImfDemuxer {
  import opened Results
  import opened AssetRegistry
  import opened XmlTree
  import opened AssetMapParser

  /** `Opened`: imf_read_header returns 0. `Closed(code)`: it ran imf_close
      (releasing the registry) and returns `code`. */
  datatype HeaderResult = Opened | Closed(code: int)

  /** imf_read_header after the two parsers have reported: only a negative
      code counts as failure, and the CPL's failure is reported first. */
  function ReadHeader(cplRet: int, assetMapRet: int): (r: HeaderResult)
    ensures r.Opened? <==> cplRet >= 0 && assetMapRet >= 0
    ensures r.Closed? ==> r.code < 0
    ensures cplRet < 0 ==> r == Closed(cplRet)
    ensures cplRet >= 0 && assetMapRet < 0 ==> r == Closed(assetMapRet)
  {
    if cplRet < 0 then Closed(cplRet)
    else if assetMapRet < 0 then Closed(assetMapRet)
    else Opened
  }

  /** The Asset Map location: the `assetmap` option when it is set, otherwise
      `ASSETMAP.xml` in the directory of the CPL. `dirname` is av_dirname.
      The ensures only spell out the two cases; what they mean for callers is
      stated by AssetMapLocationDependsOnlyOnDirectory. */
  function AssetMapLocation(c: Collaborators, dirname: string -> string, option: Option<string>, cplUrl: string): (r: string)
    ensures option.Some? ==> r == option.value
    ensures option.None? ==> r == c.appendPath(dirname(cplUrl), Some("ASSETMAP.xml"))
  {
    match option
    case Some(path) => path
    case None => c.appendPath(dirname(cplUrl), Some("ASSETMAP.xml"))
  }

  /** A set `assetmap` option fixes the location whatever the CPL's URL or
      the directory function; otherwise the location depends on the CPL's URL
      only through its directory, so two CPLs in one directory share their
      Asset Map. */
  lemma AssetMapLocationDependsOnlyOnDirectory(c: Collaborators, d1: string -> string, d2: string -> string,
                                               option: Option<string>, url1: string, url2: string)
    ensures option.Some? ==> AssetMapLocation(c, d1, option, url1) == AssetMapLocation(c, d2, option, url2)
    ensures d1(url1) == d2(url2) ==> AssetMapLocation(c, d1, option, url1) == AssetMapLocation(c, d2, option, url2)
  {
  }

  /** As written, an Asset whose Id is missing or does not decode makes the
      parser return 1, which imf_read_header does not treat as a failure: the
      package opens with a registry that lacks that Asset and every one after
      it. */
  lemma UuidFailureOpensPackage(c: Collaborators, root: Option<Node>, base: string, m: AssetMap, cplRet: int)
    requires Parse(c, root, base, m).status == Failed(BadUuid)
    requires cplRet >= 0
    ensures ReadHeader(cplRet, ReturnCode(Parse(c, root, base, m))) == Opened
    ensures FindAssetList(root).Ok?
    ensures var A := AssetsOf(FindAssetList(root).value);
      var r := Parse(c, root, base, m);
      var k := |r.assetMap.assets| - |m.assets|;
      && 0 <= k < |A|
      && ProcessAsset(c, A[k], base) == Err(BadUuid)
      && StoredInOrder(AssetStep(c, base), A, m.assets, r.assetMap.assets)
  {
    ParseStoresLeadingAssets(c, root, base, m);
  }

  /** With the intended return code, opening succeeds exactly when the Asset
      Map parsed completely. */
  lemma IntendedCodeRejectsEveryFailure(cplRet: int, p: Parsed)
    requires cplRet >= 0
    ensures ReadHeader(cplRet, IntendedReturnCode(p)).Opened? <==> p.status.Done?
    ensures p.status.Failed? ==> ReadHeader(cplRet, IntendedReturnCode(p)) == Closed(InvalidData)
  {
  }
}
