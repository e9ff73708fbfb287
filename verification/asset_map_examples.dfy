/** Concrete Asset Map documents and what the walk makes of them. */
module AssetMapExamples {
  import opened Results
  import opened XmlTree
  import opened AssetRegistry
  import opened AssetMapParser

  function Elem(name: string, children: seq<Node>): Node
  {
    Node(Element, name, "", children)
  }

  function Txt(text: string): Node
  {
    Node(Text, "", text, [])
  }

  /** `<Asset><Id>id</Id><ChunkList><Chunk><Path>path</Path></Chunk></ChunkList></Asset>` */
  function AssetElement(id: string, path: string): Node
  {
    Elem("Asset", [Elem("Id", [Txt(id)]), Elem("ChunkList", [Elem("Chunk", [Elem("Path", [Txt(path)])])])])
  }

  function Document(assetList: seq<Node>): Option<Node>
  {
    Some(Elem("AssetMap", [Elem("AssetList", assetList)]))
  }

  const ExampleId := "8e2c1a4e-7b3d-4f1a-9c2e-1234567890ab"

  /** The example Asset yields the locator built from its decoded Id and its
      joined Path. */
  lemma ExampleAssetStep(c: Collaborators, u: Uuid, base: string)
    requires c.readUuid(ExampleId) == Some(u)
    ensures ProcessAsset(c, AssetElement(ExampleId, "video.mxf"), base)
         == Ok(AssetLocator(u, c.appendPath(base, Some("video.mxf"))))
  {
    var asset := AssetElement(ExampleId, "video.mxf");
    var id := Elem("Id", [Txt(ExampleId)]);
    var chunkList := Elem("ChunkList", [Elem("Chunk", [Elem("Path", [Txt("video.mxf")])])]);
    SingleTextContent("Id", ExampleId);
    SingleTextContent("Path", "video.mxf");
    assert ChildElementByName(asset, "Id") == Some(id);
    assert AssetUuid(c, asset) == Some(u);
    assert ChildElementByName(asset, "ChunkList") == Some(chunkList);
    assert ChunkPath(chunkList) == Ok(Some("video.mxf"));
  }

  /** The text content of an element holding a single text node is that text. */
  lemma SingleTextContent(name: string, text: string)
    ensures TextContent(Elem(name, [Txt(text)])) == text
  {
    var n := Elem(name, [Txt(text)]);
    assert ChildrenText(n, 1) == "";
    assert TextContent(n.children[0]) == text;
  }

  /** One Asset with a relative Path: a single entry joining the base
      directory with that path. */
  lemma SingleAssetExample(c: Collaborators, u: Uuid)
    requires c.readUuid(ExampleId) == Some(u)
    requires c.appendPath("/mnt/imf/pkg", Some("video.mxf")) == "/mnt/imf/pkg/video.mxf"
    ensures Parse(c, Document([AssetElement(ExampleId, "video.mxf")]), "/mnt/imf/pkg", AssetMap([], 0))
         == Parsed(Done, AssetMap([AssetLocator(u, "/mnt/imf/pkg/video.mxf")], 1))
  {
    var asset := AssetElement(ExampleId, "video.mxf");
    var list := Elem("AssetList", [asset]);
    var m := AssetMap([], 0);
    var loc := AssetLocator(u, "/mnt/imf/pkg/video.mxf");
    assert FindAssetList(Document([asset])) == Ok(list);
    assert ElementChildren(list.children) == [asset] by {
      assert list.children[1..] == [];
    }
    ExampleAssetStep(c, u, "/mnt/imf/pkg");
    assert IsAsset(asset);
    assert [asset][1..] == [];
    assert Walk(AssetStep(c, "/mnt/imf/pkg"), [asset], m) == Walk(AssetStep(c, "/mnt/imf/pkg"), [], Append(m, loc));
  }

  /** An AssetList without Asset children yields an empty registry and no error. */
  lemma EmptyAssetListExample(c: Collaborators, base: string)
    ensures Parse(c, Document([]), base, AssetMap([], 0)) == Parsed(Done, AssetMap([], 0))
  {
  }

  /** An AssetList holding a `Description` element ahead of the example Asset. */
  function StrayChildDocument(): Option<Node>
  {
    Document([Elem("Description", []), AssetElement(ExampleId, "video.mxf")])
  }

  lemma StrayChildSiblings()
    ensures FindAssetList(StrayChildDocument()).Ok?
    ensures ElementChildren(FindAssetList(StrayChildDocument()).value.children)
         == [Elem("Description", []), AssetElement(ExampleId, "video.mxf")]
    ensures !IsAsset(Elem("Description", [])) && IsAsset(AssetElement(ExampleId, "video.mxf"))
  {
    var desc := Elem("Description", []);
    var asset := AssetElement(ExampleId, "video.mxf");
    assert [desc, asset][1..] == [asset];
  }

  /** The loop as written spins for ever on the stray `Description` child. */
  lemma StrayChildSpinsAsWritten(c: Collaborators, base: string)
    ensures ParseAsWritten(c, StrayChildDocument(), base, AssetMap([], 0)) == Spins(AssetMap([], 0))
  {
    StrayChildSiblings();
  }

  /** The skip-and-advance walk passes over the stray child and stores the
      Asset after it. */
  lemma StrayChildSkipped(c: Collaborators, u: Uuid, base: string)
    requires c.readUuid(ExampleId) == Some(u)
    ensures Parse(c, StrayChildDocument(), base, AssetMap([], 0))
         == Parsed(Done, AssetMap([AssetLocator(u, c.appendPath(base, Some("video.mxf")))], 1))
  {
    StrayChildSiblings();
    ExampleAssetStep(c, u, base);
    var asset := AssetElement(ExampleId, "video.mxf");
    assert [Elem("Description", []), asset][1..] == [asset];
  }
}
