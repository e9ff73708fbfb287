# IMF Asset Map walker — Dafny model

This project models the Asset Map walker of FFmpeg's IMF demuxer
(`libavformat/imfdec.c`). The walker takes an XML document tree that has
already been parsed. It checks that the tree has the Asset Map shape of
SMPTE ST 429-9:2007: `AssetMap` / `AssetList` / `Asset` / `Id` /
`ChunkList` / `Chunk` / `Path`. For each `Asset` it appends an asset
locator to an `IMFAssetMap` registry. A locator is a 16-byte UUID plus an
absolute URI. The model also covers how the registry is allocated and
released, and the two decisions in `imf_read_header` that concern the Asset
Map: where the file is looked for, and which return codes abort opening.

Modules, one per concern:

- `Results` (`results.dfy`): `Option` (a C pointer that may be NULL) and `Result`.
- `XmlTree` (`xml_tree.dfy`): an immutable DOM node `Node(kind, name, text, children)`. It also holds the ASCII case folding used by `av_strcasecmp`, the first-child-by-name lookup, element-child enumeration and text content.
- `AssetRegistry` (`asset_registry.dfy`): `AssetLocator`, and `AssetMap(assets, assetCount)` with the invariant `assetCount == |assets|`. It defines alloc, append and free, plus the array-growth size computation.
- `AssetMapParser` (`asset_map_parser.dfy`): the root checks, the per-Asset loop body, the loop, the return codes, and the loop exactly as written.
- `ImfDemuxer` (`imf_demuxer.dfy`): the `imf_read_header` decisions.
- `AssetMapExamples` (`asset_map_examples.dfy`): concrete documents.

The C function changes the registry it is handed and returns an `int`. `Parse`
instead takes the incoming registry and returns `Parsed(status, assetMap)`.
`assetMap` is the registry as it stands when the C function returns. This
lets the model state what each early exit leaves behind. `ReturnCode` maps
the status to the C return value.

`Parse` runs the corrected, skip-and-advance loop (`Walk`): an element
child of `AssetList` whose tag is not `Asset` is passed over. In the C loop,
such an element, reached before any Asset fails, makes the loop spin instead
(see Findings). That literal loop is `WalkAsWritten`, and the
literal function is `ParseAsWritten`; `AsWrittenAgreesOrSpins` and
`ParseAsWrittenAgreesOrSpins` prove that the two agree whenever the literal
one returns. Every property stated about `Parse` below is a property of the
skip-and-advance walk.

Helpers defined outside `imfdec.c` are handled as follows:

- `xml_read_UUID` and `av_append_path_component` are parameters: the function values of `Collaborators`. Any decoder and any join are allowed. `appendPath` receives the `Path` content as `None` when the first `Chunk` has no `Path`, just as the C passes the NULL from `xmlNodeGetContent` through.
- `xml_get_child_element_by_name` is given a concrete definition: the first direct element child whose tag equals the name exactly.
- `xmlNodeGetContent` is given a concrete definition: the text and CDATA descendants, concatenated.
- A missing `Id` element is modelled as a failed decode.

## Model

| member | source | states |
|---|---|---|
| `XmlTree.SameIgnoringCaseLetterwise` | libavformat/imfdec.c:79 | A tag matches a name ignoring case exactly when both have the same length and agree letter by letter after ASCII lower-casing. |
| `XmlTree.SameIgnoringCaseIsEquivalence` | libavformat/imfdec.c:79 | `av_strcasecmp(a, b) == 0` is reflexive, symmetric and transitive. |
| `XmlTree.FindNamed` | libavformat/imfdec.c:86 | The index found holds an element with that tag, and no earlier child does. None is returned exactly when no child is such an element. |
| `XmlTree.ChildElementByName` | libavformat/imfdec.c:107 | The node found is the first direct child element with that tag. NULL is returned exactly when no direct child is such an element. |
| `XmlTree.FindNamedIgnoresLaterNodes` | libavformat/imfdec.c:112 | Nodes added after the first match never change which child is found. |
| `XmlTree.AppendedChildExtendsText` | libavformat/imfdec.c:117 | The content of an element grows by exactly the content of a child appended to it; a comment child adds nothing. |
| `XmlTree.ElementChildren` | libavformat/imfdec.c:91 | The enumerated siblings are exactly the element children, and no more of them than there are children. |
| `XmlTree.ElementChildrenAppend` | libavformat/imfdec.c:91 | Enumerating two runs of siblings one after the other gives the element children of the first run, then those of the second, so document order and multiplicity are kept. |
| `AssetRegistry.Alloc` | libavformat/imfdec.c:133-143 | The registry is NULL exactly when memory is unavailable. Otherwise it is empty with `asset_count == 0`, so the count invariant holds. |
| `AssetRegistry.Append` | libavformat/imfdec.c:126-127 | Earlier entries are unchanged. The new locator is stored at index `asset_count`, the count goes up by one, and the count invariant is preserved. |
| `AssetRegistry.Free` | libavformat/imfdec.c:145-156 | A NULL registry releases nothing. Otherwise the locator structs at entries 0..asset_count-1 are released in index order, each once, then the array, then the registry. |
| `AssetRegistry.FreeReleasesEachEntryOnce` | libavformat/imfdec.c:150-152 | Releasing a valid registry frees every stored locator struct, and frees none of them twice. |
| `AssetRegistry.ReallocAsWrittenFitsOnlyThree` | libavformat/imfdec.c:126 | The size given to `av_realloc` as written can hold the new slot exactly when at most two entries are already stored. |
| `AssetRegistry.ReallocBytesAsWritten` | libavformat/imfdec.c:126 | The size passed to `av_realloc` as written is too small for the slot at index `asset_count` once three entries are stored. |
| `AssetRegistry.AppendAll` | libavformat/imfdec.c:126-127 | When a store would write past the end of the array, the failing index lies among the new entries, and the array size chosen for it does not hold that slot. |
| `AssetRegistry.CorrectedGrowthStoresAll` | libavformat/imfdec.c:126-127 | With `(asset_count + 1)` pointer-sized slots, every store stays in bounds. All locators are appended in order, and the count invariant is kept. |
| `AssetRegistry.AsWrittenGrowthOverflowsAtFourth` | libavformat/imfdec.c:126-127 | With the size as written, a fresh registry stores up to three locators in bounds. The store of the fourth is the first to write past the end. |
| `AssetMapParser.AssetElements` | libavformat/imfdec.c:93 | The Assets visited are exactly the siblings whose tag is `Asset` in any letter case. |
| `AssetMapParser.AssetElementsAppend` | libavformat/imfdec.c:92-95 | Filtering two runs of siblings one after the other gives the Assets of the first run, then those of the second, so document order and every occurrence are kept. |
| `AssetMapParser.FindAssetList` | libavformat/imfdec.c:72-89 | A missing root, a non-element root, a root not named AssetMap (ignoring case), and a missing AssetList each give their own error, in that order of precedence. These are the only errors. Otherwise the result is the first AssetList child of the root. |
| `AssetMapParser.AssetUuid` | libavformat/imfdec.c:99 | A missing `Id` gives no UUID. When there is an `Id` child, the result is the decode of the first one's text. |
| `AssetMapParser.AssetUuidIgnoresLaterChildren` | libavformat/imfdec.c:99 | Children after the first `Id` never change the UUID read. |
| `AssetMapParser.ChunkPath` | libavformat/imfdec.c:112-117 | The result is MissingChunk exactly when the ChunkList has no Chunk element. Otherwise it is the text of the first Chunk's first `Path` child, or NULL when that Chunk has no `Path`. |
| `AssetMapParser.ChunkPathIgnoresLaterChunks` | libavformat/imfdec.c:112 | Extra Chunk elements after the first never change the path that is read. Only the first Chunk is consulted. |
| `AssetMapParser.ProcessAsset` | libavformat/imfdec.c:97-119 | The errors, in precedence order: an undecodable or missing Id gives BadUuid, then a missing ChunkList, then a missing Chunk. It succeeds exactly when none of these occurs. On success the locator carries the decoded Id and `join(base_url, Path of the first Chunk)`. |
| `AssetMapParser.Walk` | libavformat/imfdec.c:124-127 | `asset_count` moves by exactly the number of entries appended, so the count invariant is kept. |
| `AssetMapParser.WalkStoresLeadingAssets` | libavformat/imfdec.c:91-128 | Incoming entries are kept. The first k Asset siblings are appended in document order, each as the locator the loop body yields for it. On success every Asset was appended. On failure the Asset at position k is the first one to fail, with the reported error, and it is not appended. |
| `AssetMapParser.ParseStoresLeadingAssets` | libavformat/imfdec.c:86-130 | Once an AssetList is found, the same holds for the Assets among its element children (skip-and-advance walk). |
| `AssetMapParser.WalkCompletes` | libavformat/imfdec.c:128-130 | When the loop body succeeds on every Asset, the loop ends with 0 after storing one locator per Asset, in order. |
| `AssetMapParser.Parse` | libavformat/imfdec.c:65-131 | A root or AssetList error returns at once with the registry unchanged. A registry whose count matched its entries still does afterwards (skip-and-advance walk). |
| `AssetMapParser.ReturnCode` | libavformat/imfdec.c:74-130 | Returns 0 exactly on success and 1 exactly on a UUID failure. Every other failure returns AVERROR_INVALIDDATA, and these are the only negative results. |
| `AssetMapParser.IntendedReturnCode` | libavformat/imfdec.c:99-103 | The result is negative exactly on failure, and every failure is AVERROR_INVALIDDATA. |
| `AssetMapParser.RootChecks` | libavformat/imfdec.c:72-82 | A missing, non-element or wrongly named root returns AVERROR_INVALIDDATA with the registry untouched. |
| `AssetMapParser.WellFormedMapFillsRegistry` | libavformat/imfdec.c:91-130 | If every Asset is well formed, parsing into a fresh registry returns 0. It stores exactly one locator per Asset, in document order, and `asset_count` equals the number of Assets (skip-and-advance walk). |
| `AssetMapParser.FirstFailingAssetStops` | libavformat/imfdec.c:99-115 | The walk fails with the error of the first failing Asset. Exactly the Assets before it are stored. |
| `AssetMapParser.WalkDependsOnlyOnAssets` | libavformat/imfdec.c:92-95 | Two sibling lists with the same Asset elements give the same outcome and the same registry. Non-Asset children change nothing. |
| `AssetMapParser.WalkAsWritten` | libavformat/imfdec.c:92-128 | The literal loop can spin only when the siblings include a non-Asset element. |
| `AssetMapParser.SpinsWhenStrayBeforeFailure` | libavformat/imfdec.c:91-95 | The literal loop spins whenever it reaches a non-Asset element, that is, one preceded only by Assets that the loop body accepts. |
| `AssetMapParser.AsWrittenAgreesOrSpins` | libavformat/imfdec.c:92-128 | Whenever the literal loop terminates, its outcome is the corrected walk's. When every element child is an Asset, it always terminates. |
| `AssetMapParser.ParseAsWritten` | libavformat/imfdec.c:65-131 | The function as written returns the root or AssetList error with the registry unchanged. It can spin only when AssetList has an element child not named `Asset`. |
| `AssetMapParser.ParseAsWrittenAgreesOrSpins` | libavformat/imfdec.c:65-131 | Whenever the function as written returns, it returns what `Parse` does. When every element child of AssetList is an Asset, it always returns. |
| `ImfDemuxer.ReadHeader` | libavformat/imfdec.c:225-246 | The package opens exactly when neither parser returned a negative code. Otherwise the CPL's error, or else the Asset Map's error, is returned after closing. |
| `ImfDemuxer.AssetMapLocationDependsOnlyOnDirectory` | libavformat/imfdec.c:230-232 | A set `assetmap` option fixes the location whatever the CPL's URL. Otherwise the location depends on the CPL's URL only through its directory. |
| `ImfDemuxer.UuidFailureOpensPackage` | libavformat/imfdec.c:236-246 | As written, a UUID failure opens the package whenever the CPL parsed. The registry then holds the incoming entries followed by the locators of exactly the Assets before the failing one, in order. The failing Asset is the one whose Id did not decode (skip-and-advance walk). |
| `ImfDemuxer.IntendedCodeRejectsEveryFailure` | libavformat/imfdec.c:236-237 | With the intended return code, the package opens exactly when the Asset Map parsed completely. |
| `AssetMapExamples.ExampleAssetStep` | libavformat/imfdec.c:99-119 | One concrete Asset yields the locator of its decoded Id and its joined Path. |
| `AssetMapExamples.SingleAssetExample` | libavformat/imfdec.c:117-127 | Given a join that maps (`/mnt/imf/pkg`, `video.mxf`) to `/mnt/imf/pkg/video.mxf`, a document with one Asset whose Path is `video.mxf` gives the single entry `{uuid, /mnt/imf/pkg/video.mxf}` and returns 0. |
| `AssetMapExamples.EmptyAssetListExample` | libavformat/imfdec.c:91-130 | An AssetList with no children gives an empty registry and returns 0. |
| `AssetMapExamples.StrayChildSiblings` | libavformat/imfdec.c:91 | In the stray-child document, the enumerated siblings are the Description element, then the Asset. |
| `AssetMapExamples.StrayChildSpinsAsWritten` | libavformat/imfdec.c:93-95 | A `Description` element ahead of an Asset makes the literal loop spin for ever. |
| `AssetMapExamples.StrayChildSkipped` | libavformat/imfdec.c:91-128 | The skip-and-advance walk passes over the `Description` element and stores the Asset after it. |

## Findings

| source | as written | input that shows it | evidently intended | confidence | as-written member | corrected member |
|---|---|---|---|---|---|---|
| libavformat/imfdec.c:93-95 | The `continue` for a non-Asset child never moves `node`, so the loop repeats the same test for ever. | An AssetList whose first element child is `<Description/>`, followed by an Asset. | Skip to the next element sibling and keep walking. | not executed; high | `AssetMapParser.WalkAsWritten`, shown by `AssetMapExamples.StrayChildSpinsAsWritten` | `AssetMapParser.Walk` (used by `Parse`), shown by `AssetMapExamples.StrayChildSkipped` and `AssetMapParser.WalkDependsOnlyOnAssets` |
| libavformat/imfdec.c:102 | An undecodable `Id` returns `1`. The caller at line 236 treats only negative values as failure. | An Asset whose `Id` text does not decode. | Return AVERROR_INVALIDDATA like every other schema error. | not executed; high | `AssetMapParser.ReturnCode`, shown by `ImfDemuxer.UuidFailureOpensPackage` | `AssetMapParser.IntendedReturnCode`, shown by `ImfDemuxer.IntendedCodeRejectsEveryFailure` |
| libavformat/imfdec.c:126 | `av_realloc(assets, asset_count + 1 * sizeof(IMFAssetLocator))`. With 24-byte locators and 8-byte pointers, the array is too small from the fourth entry on. | An Asset Map with four well-formed Assets. | `(asset_count + 1) * sizeof(IMFAssetLocator *)` bytes. | not executed; medium (assumes an LP64 layout) | `AssetRegistry.ReallocBytesAsWritten`, shown by `AssetRegistry.ReallocAsWrittenFitsOnlyThree` and `AssetRegistry.AsWrittenGrowthOverflowsAtFourth` | `AssetRegistry.ReallocBytes`, shown by `AssetRegistry.CorrectedGrowthStoresAll` |

## Left out

Where the model departs from the code:

- An element child of `AssetList` whose tag is not `Asset`, reached before any Asset fails, makes the C loop spin. Text and comment children are never visited, because the loop steps with `xmlFirstElementChild` and `xmlNextElementSibling`. `Parse` skips it instead; the literal behaviour is `ParseAsWritten` (see Findings).

Behaviour of the code that the model keeps as it is:

- The code does not check for a missing or empty `Path`. It passes the NULL or empty content to `av_append_path_component`, and so does the model.
- The code does not trim `Id` or `Path` text, so whitespace-only text is handed on as it is. The model does the same.
- Only the root tag and the `Asset` tags are compared ignoring case. Child lookups go through `xml_get_child_element_by_name`, which the model takes to be an exact match.
- On a failed parse, the partly filled registry stays in the context until `imf_close`, which runs at once on a negative return (line 245) and otherwise when the demuxer is closed (`read_close`, line 281). `Parsed.assetMap` is that partly filled registry.
- Duplicate UUIDs are neither detected nor rejected. Every Asset is appended in document order, duplicates included.

Not modelled:

- Byte-stream loading in `parse_assetmap` (imfdec.c:158-215) is left out because it is I/O and an external XML library: `avio_open2`, `avio_size`, `avio_read_to_bprint`, the EOF and zero-length checks, `xmlReadMemory`, and deriving `base_url` with `av_dirname`. The base URL is a parameter, and the document arrives as its root node.
- The bodies of `xml_read_UUID`, `av_append_path_component`, `av_dirname`, `xml_get_child_element_by_name` and `xmlNodeGetContent` are left out because they are not in `imfdec.c`. The first three are function parameters, so every contract holds for any decoder, join and dirname. What the real helpers do with a NULL argument (the missing `Id` case) is not part of this model.
- The unchecked `av_malloc` at line 97 is left out because memory exhaustion inside the loop is not modelled. If it returned NULL, the next line would dereference it.
- Leaked strings and structs are left out because only the registry's own blocks are modelled:
  - The locator is leaked on a missing ChunkList or Chunk (lines 107-115).
  - The string returned by `xmlNodeGetContent` at line 117 is leaked on every pass, because line 118 overwrites `uri` before it is freed.
  - `imf_asset_map_free` (lines 145-156) frees each locator struct but never its `absolute_uri`, which was `strdup`'d at line 119. Every release leaks one string per entry. `Free` models only the frees the code performs.
- The `av_realloc` result is left out: it is used without a NULL check. Array growth is modelled only for its size (see Findings).
- `AssetRegistry.AssetMap`: `asset_count` is a C `int`, modelled as an unbounded `nat`. Overflow after 2^31 entries is not modelled.
- CPL parsing (`parse_imf_cpl`) is left out because it is an external collaborator. Only its return code enters `ReadHeader`.
- `av_log` output is left out.
- Demuxer plumbing is left out: the option and class tables, `ff_imf_read_packet`, and the stream and dictionary teardown in `imf_close`. The registry release in `imf_close` is `Free`.
