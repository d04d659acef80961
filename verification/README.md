# Verification of the catalogue service

This project models the stateful core of the service in Dafny and proves what it keeps, over every input,
run and interleaving. `dafny verify dfyconfig.toml` checks all of it.

What is modelled:

- **Product import** (`Text`, `CsvSheet`, `Batching`, `Tables`, `BatchUpsert`, `ImportEav`, `EavDeterminism`, `ImportStock`,
  `ImportStockJson`, `ImportPrice`, `ImportGallery`, `ImportService`, `ImportFlush`, `ImportProducts`, `ImportedValues`,
  `Reimport`, `ReimportTables`). A CSV sheet is resolved
  against the product table, new entities are created, four collectors buffer rows, and goroutines flush them in chunks. The
  iteration order of Go maps is a free choice (`:|`) reported as a ghost sequence; the goroutines are a state machine in which
  any worker with a pending chunk may go next, or fail.
- **Category tree and caches** (`CategoryTree`, `CategoryBuild`, `CategoryGraphQL`, `CategoryRepository`). Nodes are linked in
  place on the heap, proved to represent an abstract tree, and cached per store next to the category map.
- **TTL and tag cache** (`TtlCache`, `CacheHistory`).
- **Product repository** (`RepoSingleton`, `FlatProducts`, `FlatCacheSteps`): double-checked locking as steps, batched fetches,
  the flat cache, as whole requests and as steps.
- **Registry** (`Registry`, `ModuleRegistration`), **UIDs** (`Uid`), the **JSON index command** (`ProductJsonIndex`) and
  **page arithmetic** (`Paging`), with Go's integers in `MachineInts`.

A database table is a map from the conflict columns of its upsert to the stored columns, and a statement is one atomic step. An
upsert overwrites the columns it lists and keeps the others. CSV tokenising and the number and date parsers are parameters; the
bit pattern of a float64 stands for the float. Clock readings and the rows a query would find are arguments of the calls.

Where the code departs from what it seems meant to do, the model follows the code and states the exact condition:
`FlatProducts.ByIDsExact` (cache hits lost in a mixed request), `ImportService.ExistingSkuDuplicated` (lookup untrimmed, use
trimmed), `ImportService.CreatedOncePerRow` (a new SKU on two rows), `ImportGallery.OneRowPerPair` (colliding gallery keys),
`ReimportTables.ReimportConverges` and `Reimport.SameSkuMapIff` (a sheet imported again), `ModuleRegistration.ApplyCallsAllIff`
(modules registered while others are applied), `FlatCacheSteps.FrozenIff` (overlapping full requests),
`CategoryRepository.GetOnePanics` (a missing category), `TtlCache.DeadlineExact` and `Paging.HtmlPageCountExact` (overflow). For
eviction and `DeleteByTag`, `TtlCache.DeleteByTagUnseenIff` is exact for one call, `TtlCache.TaggedEvictionInvisible` gives a
condition on whole runs, and `TtlCache.ReadDecidesDeleteByTag` and `TtlCache.ReadDecidesAfterTagKey` show that no write and no
tagging can be let off it.

## Model

| member | source | states |
|---|---|---|
| `ImportFlush.EveryInterleaving` | `service/product/import_service.go:155-172` | Whatever the batch size and the schedule of the flush goroutines, a flush that finishes without an error leaves the database that upserting every table row by row would leave. |
| `ImportFlush.InterruptedImportConverges` | `service/product/import_eav.go:214-218` | After a run stopped or failing anywhere, a complete second run (other batch size, schedule and row order, covering the same keys) leaves the EAV, stock and price tables of one uninterrupted run; the gallery comes out right if and only if the first run had inserted nothing into it. |
| `ImportFlush.StepSettles` | `service/product/import_service.go:161-164` | A statement of any goroutine changes the database but not the database that the pending statements lead to. |
| `ImportFlush.StepRecovers` | `service/product/import_eav.go:246-274` | No executed or failed statement of an interrupted run can be felt after a complete flush of rows that cover its keys. |
| `ImportFlush.FlushAll` | `service/product/import_service.go:155-172` | With the scheduler left to chance and any statement free to fail, waiting for all goroutines ends; a worker fails if and only if one of its statements does, an error comes back if and only if some worker fails, and without one the database is the row-by-row database. |
| `ImportFlush.EachTable` | `service/product/import_eav.go:276-316` | What a run, finished or not, leaves in the table of any worker: the chunks of its executed statements, in order, or the table as it was if the worker failed and its batches form a transaction. |
| `ImportFlush.AllOrNothing` | `service/product/import_stock.go:117-126` | Where the ORM wraps the batches of a call in a transaction, the table ends up as the row-by-row reference or exactly as it was, the latter when one of its statements failed, whatever happens to the other tables. |
| `BatchUpsert.RawBatchUpsert` | `service/product/import_eav.go:276-316` | One upsert per chunk until the first error: without one all rows are in the table, with one exactly the chunks before it. |
| `BatchUpsert.CreateInBatches` | `service/product/import_stock.go:223-229` | The batches of the ORM: on an error the table is as it was if they run in a transaction, otherwise exactly the batches before the failing one are in it. |
| `BatchUpsert.TableStore.Exec` | `service/product/import_eav.go:301-313` | A multi-row upsert takes effect as a whole or not at all; its rows count in order. |
| `Batching.ChunksPartition` | `service/product/import_eav.go:277-282` | Chunking loses, repeats and moves no row; chunks are non-empty, at most the batch size, and full but for the last. |
| `Tables.UpsertAllAt` | `service/product/import_stock.go:121-125` | Key by key, an upserted table holds the last row written; columns outside the update list keep their stored value, or the insert default. |
| `Tables.Absorb` | `service/product/import_price.go:113-117` | Writing rows whose keys all occur in a later full write makes no difference to its result. |
| `ImportProducts.ImportProducts` | `service/product/import_service.go:72-188` | The whole import: the missing-SKU error, the SKU lookup, the created entities, the flush and its error (reported if and only if a statement fails; the inserted products stay, and of the tables what the flush left), and on success the final tables as the row-by-row reference, the four counters (total = created + updated + skipped, updated = rows found by the lookup), the counts per type and the warnings in order. |
| `ImportProducts.ImportIsDeterministic` | `service/product/import_service.go:145-166` | Two flushes of one sheet that differ in column order, batch size and schedule end in the same database. |
| `ImportProducts.StoppedFlushConverges` | `service/product/import_service.go:145-172` | Two flushes with the same SKU map, the first stopped anywhere, leave the EAV, stock and price tables of one flush, whatever the column orders; the gallery only if nothing had been inserted into it. |
| `Reimport.SameLinkIff` | `service/product/import_service.go:131-143` | When a sheet is imported twice, a row works with the same product both times if and only if its SKU is among the untrimmed cells that the lookup asks for; otherwise the second import creates the product again. |
| `Reimport.SameSkuMapIff` | `service/product/import_service.go:131-143` | The second import gets the SKU map of the first if and only if every SKU of the sheet is spelled without surrounding white space by some row. |
| `Reimport.CreatesNothingIff` | `service/product/import_service.go:236-265` | The second import creates no product if and only if every SKU of the sheet is spelled exactly by some row. |
| `ReimportTables.ReimportConverges` | `service/product/import_service.go:131-172` | Lookup, insert and flush, the flush stopped or failing anywhere, and then all of it again on what that left: the EAV, stock and price tables are those of one import, each if and only if every row that has something for it names a SKU that some row spells exactly; the gallery if and only if nothing had been inserted into it. |
| `ReimportTables.StockConvergesIff` | `service/product/import_stock.go:26-126` | The condition for the stock table: every row with usable stock values. |
| `ReimportTables.PriceConvergesIff` | `service/product/import_price.go:25-118` | The condition for the price table: every row with a usable price. |
| `ReimportTables.EavConvergesIff` | `service/product/import_eav.go:82-218` | The condition for one EAV table, for any two column orders: every row with a valid non-blank cell of its type. |
| `ReimportTables.SpelledExactlyConverges` | `service/product/import_service.go:131-143` | A sheet that spells every SKU exactly somewhere meets all three conditions, and its second import creates nothing. |
| `ReimportTables.ImportTwice` | `service/product/import_service.go:72-188` | The same for two calls of the modelled import, the second on the catalogue and database that the first left behind, whether it failed or not. |
| `Reimport.PaddedSkuImportedTwice` | `service/product/import_service.go:135-239` | One row with the SKU cell " A" and an empty catalogue: both imports insert A, and map it to different products. |
| `ImportProducts.CollectAndFlush` | `service/product/import_service.go:145-166` | The four collectors feed the flush with exactly the rows of the reference. |
| `ImportedValues.ImportedCell` | `service/product/import_eav.go:82-168` | A valid non-blank cell that no later row of its product replaces is in the table of its backend type after the import, under the product, the attribute of its header and the store of the import, as text in raw mode and parsed otherwise. |
| `ImportedValues.OtherCells` | `service/product/import_eav.go:82-168` | Keys of another store, of an attribute that is not mapped or of a product that the sheet does not name keep what they held. |
| `ImportedValues.ParseRules` | `service/product/import_eav.go:104-168` | Which cells each of the five backend types accepts, and the value it makes of them; a date without a time is the second choice. |
| `ImportedValues.EavWarned` | `service/product/import_eav.go:104-168` | A cell is reported, with its SKU and attribute code, if and only if it is non-blank, mapped to one of the five types and rejected by it. |
| `ImportedValues.CellText` | `service/product/import_eav.go:94-102` | A cell is the text of its column without the white space around it, and empty if the column or the cell is missing. |
| `ImportedValues.LinkText` | `service/product/import_eav.go:82-92` | A row belongs to the product that the SKU map has for its trimmed SKU cell; a blank one belongs to none. |
| `ImportedValues.ImportedStock` | `service/product/import_stock.go:26-126` | After the import a product has, in each stock column, what its last usable row says; unlisted columns stay. |
| `ImportedValues.StockColumns` | `service/product/import_stock.go:52-106` | Each stock column is the number in the cell under its own header, or its default (0, 1, 1, 0, 0, 0) for a blank cell. |
| `ImportedValues.StockRowIs` | `service/product/import_stock.go:52-112` | A row is written if and only if a quantity or a stock flag is there and neither is malformed; otherwise the first malformed one of the two is reported. |
| `ImportedValues.ImportedPrice` | `service/product/import_price.go:26-118` | After the import a product has the prices of its last usable row; unlisted columns stay. |
| `ImportedValues.PriceColumns` | `service/product/import_price.go:50-96` | Each price is the number in the cell under its own header; a blank one means the base price, and 0 for the tier price. |
| `ImportedValues.ImagesNamed` | `service/product/import_gallery.go:23-75` | An image is collected for a SKU if and only if it is a non-blank part, between bars, of one of the four image columns in a row with that SKU and a known product. |
| `ImportedValues.ImportedGallery` | `service/product/import_gallery.go:23-90` | The import appends to the gallery one row per SKU-and-image key of the sheet, in order of first appearance, each with the image of that first appearance. |
| `ImportedValues.CreatedFromRow` | `service/product/import_service.go:236-260` | A created product has the SKU of its row, the type in its cell or `simple`, and the attribute set in its cell if that is a positive number, or else the one of the request. |
| `ImportedValues.UnknownReported` | `service/product/import_service.go:116-122` | A header is reported if and only if no part of the import reads it. |
| `ImportedValues.ReadColumns` | `service/product/import_service.go:49-69` | The columns that some part of the import reads, written out. |
| `ImportProducts.TrimHeaders` | `service/product/import_service.go:88-99` | Every header is trimmed, the index knows exactly the trimmed headers, and leads each to the last column that carries it. |
| `ImportEav.CollectEAV` | `service/product/import_eav.go:62-172` | In every iteration order, the collected rows and warnings are those of the valid and invalid non-blank cells of rows whose SKU is known, in raw or in parsed form. |
| `ImportEav.BuildMappings` | `service/product/import_eav.go:63-71` | Mapped columns are the headers with a non-static attribute. |
| `ImportEav.PrimaryKeyGivesDistinctAttributes` | `service/product/import_service.go:109-112` | With attribute_id a primary key, no two mapped columns write the same attribute. |
| `EavDeterminism.OrdersDoNotMatter` | `service/product/import_eav.go:94-169` | The flushed EAV table does not depend on the order in which the column map was iterated for each row. |
| `EavDeterminism.TableHoldsLastCells` | `service/product/import_eav.go:82-170` | Each (link, attribute, store) key holds the last valid non-blank cell of the sheet, or what the table held before. |
| `EavDeterminism.OrderIrrelevantIff` | `service/product/import_eav.go:94-108` | For a row and a key the column order is irrelevant if and only if all columns writing the key write the same text. |
| `EavDeterminism.ModesAgree` | `service/product/import_eav.go:104-168` | Raw and ORM mode write the same table up to value parsing, and the same number of rows, even with different column orders. |
| `EavDeterminism.CountsAgree` | `service/product/import_eav.go:51-59` | counts() is the number of valid non-blank cells per type, in either mode and any order. |
| `EavDeterminism.BucketDecides` | `service/product/import_eav.go:108-110` | The last collected row of a key is decided by the sheet alone. |
| `ImportService.LookupSKUs` | `service/product/import_service.go:192-219` | The lookup finds exactly the asked SKUs that exist, each with its last product, for every batch size. |
| `ImportService.InsertNewEntities` | `service/product/import_service.go:230-283` | Creates one product per row whose trimmed SKU the lookup did not find, counts blank rows as skipped, and extends the SKU map by the link IDs of the inserted rows. |
| `ImportService.InsertProducts` | `service/product/import_service.go:286-337` | Batch after batch, with consecutive IDs per insert that need not follow on, every new SKU is mapped to the ID of a row that is in the table. |
| `ImportService.EveryRowResolves` | `service/product/import_service.go:236-281` | After the insert every row with a non-blank SKU resolves: to the looked-up ID, or to the last row inserted for that SKU. |
| `ImportService.PriorEntriesKept` | `service/product/import_service.go:245-247` | No entry of the lookup map is lost or changed by the insert. |
| `ImportService.RowAccounting` | `service/product/import_service.go:183` | Total minus skipped minus created is the number of rows whose SKU the lookup found, so it is never negative. |
| `ImportService.CreatedOncePerRow` | `service/product/import_service.go:236-260` | A SKU unknown to the lookup is inserted once per row naming it, so a new SKU on two rows becomes two products. |
| `ImportService.ExistingSkuDuplicated` | `service/product/import_service.go:131-138` | An existing product is created again if and only if no row spells its SKU without surrounding white space, because the lookup asks for untrimmed cells. |
| `ImportService.Catalog.Insert` | `service/product/import_service.go:278-281` | A multi-row insert adds the rows under consecutive fresh link IDs. |
| `Text.TrimSpaceTrims` | `service/product/import_service.go:239` | Trimming cuts white space off both ends, all of it and nothing else, and so leaves trimmed strings alone. |
| `ImportStock.CollectStock` | `service/product/import_stock.go:26-114` | Rows with a usable quantity or stock flag become items with defaults for absent cells; an unparsable quantity or flag drops the row with a warning. |
| `ImportStock.StockTableHoldsLastRow` | `service/product/import_stock.go:117-126` | After the flush a product has the stock values of its last usable CSV row; the columns not listed in the upsert survive. |
| `ImportStockJson.ImportStockJSON` | `service/product/import_stock.go:147-234` | The JSON import upserts one row per item with an existing product; imported plus skipped is the number of items, with one warning per skipped item. On an error the table is as it was, or holds exactly the batches before the failing one if the ORM runs without transactions. |
| `ImportStockJson.ItemAccounting` | `service/product/import_stock.go:182-220` | Every item is either a row or a warning. |
| `ImportStockJson.LastItemWins` | `service/product/import_stock.go:180-229` | After the import an existing product has the stock values of the last item with its exact SKU; unlisted columns stay. |
| `ImportStockJson.ItemColumns` | `service/product/import_stock.go:194-218` | Each stock column is the field of the item with its name, or its default. |
| `ImportStockJson.ItemWarned` | `service/product/import_stock.go:180-193` | The warnings are those of the items without a SKU and of the items whose SKU does not exist. |
| `ImportPrice.CollectPrice` | `service/product/import_price.go:26-106` | price_index sets all prices but the tier price, other cells override; only price_index and final_price make a row worth writing. |
| `ImportPrice.PriceTableHoldsLastRow` | `service/product/import_price.go:109-118` | After the flush a product has the prices of its last usable CSV row; the columns not listed in the upsert survive. |
| `ImportGallery.CollectGallery` | `service/product/import_gallery.go:22-82` | The gallery rows are the images of the sheet whose (SKU, image) key was not seen before, in reading order. |
| `ImportGallery.KeptOnce` | `service/product/import_gallery.go:66-70` | The kept images have every key of the sheet, once. |
| `ImportGallery.OrderPreserved` | `service/product/import_gallery.go:51-78` | Kept images stand in order of first appearance. |
| `ImportGallery.OneRowPerPair` | `service/product/import_gallery.go:66-69` | One row per distinct (SKU, image) pair is written if and only if no two pairs of the sheet share a key. |
| `ImportGallery.KeyInjective` | `service/product/import_gallery.go:66` | SKUs without a colon never make two pairs share a key. |
| `ImportGallery.KeysCollide` | `service/product/import_gallery.go:66` | Two different pairs with one key. |
| `CategoryTree.TreeHoldsReachable` | `model/repository/category/category_repository.go:361-381` | The tree holds exactly the categories whose parent chain reaches 0, each once, under its own parent, even if other categories form cycles. |
| `CategoryTree.DepthBound` | `model/repository/category/category_repository.go:372-379` | A parent chain that reaches 0 is no longer than the number of categories, which is why build terminates. |
| `CategoryTree.FindSubtreeExact` | `model/repository/category/category_repository.go:396-410` | The subtree search returns what building from the category itself would, and nothing for a category not reachable from 0. |
| `CategoryTree.SubtreeChildren` | `model/repository/category/category_repository.go:336-351` | In whatever order the tree was built, the search returns exactly the children of the category, each once. |
| `CategoryTree.SubtreeDescendants` | `model/repository/category/category_repository.go:336-351` | The returned subtrees hold exactly the categories with the requested one on their parent chain, each once. |
| `CategoryBuild.Build` | `model/repository/category/category_repository.go:372-379` | The recursive build ends, links the children of every category below the parent and undoes no link made before. |
| `CategoryBuild.GroupByParent` | `model/repository/category/category_repository.go:362-369` | In any iteration order of the map, every category gets one node, grouped under its parent. |
| `CategoryBuild.BuildCategoryTree` | `model/repository/category/category_repository.go:361-381` | The linked nodes are the abstract tree of the category map. |
| `CategoryBuild.FindSubtreeNodes` | `model/repository/category/category_repository.go:396-410` | The search on linked nodes finds what the search on the abstract tree finds. |
| `CategoryGraphQL.CategoryTreeToGraphQL` | `graphql/resolvers/category.go:89-99` | The GraphQL tree has the shape of the category tree with IDs printed in decimal; children are unset exactly for leaves. |
| `CategoryGraphQL.ViewDeterminesTree` | `graphql/resolvers/category.go:89-99` | Trees with the same GraphQL view have the same IDs and links. |
| `CategoryRepository.CachesShareOneSnapshot` | `model/repository/category/category_repository.go:61-115` | In every run, a cached map is the snapshot of the store at its first use since the last invalidation, and a cached tree comes with that map and is built from it. |
| `CategoryRepository.CachesStay` | `model/repository/category/category_repository.go:107-115` | A cached map and a cached tree, child order included, stay what they are over any further calls but InvalidateCache. |
| `CategoryRepository.BuildAnswersFromSnapshot` | `model/repository/category/category_repository.go:326-411` | Every tree answer, cached or fresh, describes that snapshot: all reachable categories for parent 0, exactly the children for another parent. |
| `CategoryRepository.StepKeepsInv` | `model/repository/category/category_repository.go:326-389` | Fetching, building, reading by IDs and invalidating keep the two caches in agreement. |
| `CategoryRepository.GetIsDatabaseView` | `model/repository/category/category_repository.go:128-180` | Without a cache for the store, or with one equal to the database, reading by IDs returns the database rows in the order asked for. |
| `CategoryRepository.GetIsOverlaid` | `model/repository/category/category_repository.go:128-180` | Whatever the cache holds, reading by IDs returns the rows of the database overlaid with the cached categories of the store, one per ID that is known. |
| `CategoryRepository.HitsAndMisses` | `model/repository/category/category_repository.go:128-150` | Hits are cached rows; only IDs that are not cached are asked of the database. |
| `CategoryRepository.GetOnePanics` | `model/repository/category/category_repository.go:118-124` | Reading one category panics if and only if neither the cache nor the database has it. |
| `CategoryRepository.Repository.FetchAll` | `model/repository/category/category_repository.go:61-103` | A cached map is returned as it is; otherwise the loaded rows are cached by their own IDs. |
| `CategoryRepository.Repository.BuildCategoryTree` | `model/repository/category/category_repository.go:326-411` | Moves the caches as the model does and returns nodes that represent the answer of the model. |
| `CategoryRepository.Repository.InvalidateCache` | `model/repository/category/category_repository.go:107-115` | Empties both caches. |
| `CategoryRepository.Repository.GetByIDsWithAttributesAndFlat` | `model/repository/category/category_repository.go:128-180` | Cache hits first, then database rows of the other IDs; nothing is cached. |
| `TtlCache.EvictionInvisible` | `core/cache/cache.go:43-162` | In every run without DeleteByTag and with a clock that does not run backwards, each read answers as a cache that keeps all last writes with their deadlines would. |
| `TtlCache.DeadlineExact` | `core/cache/cache.go:47-50` | The deadline is ttl seconds from now if and only if the int64 arithmetic does not overflow. |
| `CacheHistory.HistoryDecides` | `core/cache/cache.go:43-295` | In every run from an empty cache each call answers what the calls before it say: the last write of the key that nothing has deleted since, for so many seconds, or for ever if its time to live is not positive; provided the clock does not run backwards, deadlines fit, and there is no DeleteByTag or keys that are gone get their tags again. |
| `CacheHistory.TagsAreHistory` | `core/cache/cache.go:242-295` | Without eviction a key has a tag if and only if it was given the tag and neither was taken away since. |
| `TtlCache.DeleteByTagUnseenIff` | `core/cache/cache.go:283-295` | After a DeleteByTag every later read still answers as in the cache that never evicts if and only if no readable key has the tag in one of the two only. |
| `TtlCache.TaggedEvictionInvisible` | `core/cache/cache.go:43-295` | In every run with all ten operations, each read answers as in the cache that never evicts, provided that a key which expired or is absent is written or tagged with at least the tags it had. |
| `TtlCache.ReadDecidesDeleteByTag` | `core/cache/cache.go:66-71` | For a write that condition is the weakest: whether an expired key was read before it is written again shows after some DeleteByTag if and only if the write does not repeat all tags of the key, because the read forgets them. |
| `TtlCache.ReadDecidesAfterTagKey` | `core/cache/cache.go:242-251` | For a TagKey too: even when everything after it repeats its tags, the read of the expired key shows after two DeleteByTag for some two tags, if and only if the tagging does not repeat all tags. |
| `TtlCache.StepInside` | `core/cache/cache.go:242-264` | An operation keeps every tagged key inside the cache if and only if it does not tag an absent key. |
| `TtlCache.TagIndexInside` | `core/cache/cache.go:88-102` | In every run that tags only present keys, each tagged key is in the cache. |
| `TtlCache.DeleteByTagExact` | `core/cache/cache.go:283-295` | After DeleteByTag the keys that had the tag are gone from the cache and from all tags; all other entries and tags are unchanged. |
| `TtlCache.CompositeKeyInjective` | `core/cache/cache.go:115-121` | For parts without a bar, composite keys are equal if and only if the lists are. |
| `TtlCache.CompositeKeysCollide` | `core/cache/cache.go:115-121` | A bar inside a part makes two lists share a key. |
| `TtlCache.Cache.Set` | `core/cache/cache.go:43-55` | Stores value and deadline, and adds the tags. |
| `TtlCache.Cache.Get` | `core/cache/cache.go:58-76` | Answers unless absent or expired; an expired entry is removed from the cache and from all tags. |
| `TtlCache.Cache.GetOrDefault` | `core/cache/cache.go:79-85` | The value, or the default. |
| `TtlCache.Cache.GetMany` | `core/cache/cache.go:138-162` | Reads the keys in order, with the evictions that entails. |
| `TtlCache.Cache.IterateFilter` | `core/cache/cache.go:216-239` | Returns the values of the live entries that pass the filter, each entry once, and evicts all expired ones. |
| `TtlCache.Cache.Delete` | `core/cache/cache.go:88-94` | Removes the key from the cache and from all tags. |
| `TtlCache.Cache.DeleteMany` | `core/cache/cache.go:105-113` | Deletes the keys one after the other. |
| `TtlCache.Cache.TagKey` | `core/cache/cache.go:242-251` | Adds the key to every tag, present or not. |
| `TtlCache.Cache.UntagKey` | `core/cache/cache.go:254-264` | Takes the key out of the tags that exist. |
| `TtlCache.Cache.DeleteByTag` | `core/cache/cache.go:283-295` | Deletes the tagged keys in any order, then the tag. |
| `RepoSingleton.OneRepositoryPerHandle` | `model/repository/product/product_repository.go:34-49` | In every interleaving of any number of callers at most one repository is published per handle, every caller gets the published one, callers get the same repository if and only if they asked for the same handle, and each is answered the handles it asked for. |
| `RepoSingleton.EveryCallAnswered` | `model/repository/product/product_repository.go:34-49` | Every call, as read off the run, is answered once, in order and for the handle it asked for. |
| `RepoSingleton.EntryNeverChanges` | `model/repository/product/product_repository.go:41-48` | A map entry stays what it is in every continuation. |
| `RepoSingleton.NoDeadlock` | `model/repository/product/product_repository.go:35-48` | As long as some caller is under way, some caller can go on. |
| `RepoSingleton.StepKeepsInv` | `model/repository/product/product_repository.go:35-48` | Every step keeps the lock discipline and the agreement of what callers have read with the map. |
| `FlatProducts.FetchWithLimit` | `model/repository/product/product_repository.go:177-190` | However many queries are used, the result is the flat view restricted to the IDs (or to the first products up to the limit), and no IN list exceeds 1000. |
| `FlatProducts.FetchInBatches` | `model/repository/product/product_repository.go:224-241` | The batched fetch equals one fetch. |
| `FlatProducts.ByIDsExact` | `model/repository/product/product_repository.go:318-358` | The cached fetch by IDs returns hits plus fetched misses if and only if the IDs are not partly cached; otherwise the hits are lost. |
| `FlatProducts.ByIDsIs` | `model/repository/product/product_repository.go:318-358` | ID by ID, what a request by IDs returns: the cached entries if all are cached, otherwise the rows of those that are not. |
| `FlatProducts.ListedAreFirst` | `model/repository/product/product_repository.go:177-222` | A limit takes the products with the smallest IDs, as many as it says. |
| `FlatProducts.CoherentCache` | `model/repository/product/product_repository.go:355` | With a cache equal to the database, a partly cached request returns nothing at all, any other the database view. |
| `FlatProducts.CacheIsFrozen` | `model/repository/product/product_repository.go:282-300` | As long as requests do not overlap, the cached view of a store is the view at the first full request through the cache. |
| `FlatCacheSteps.OnlyLoadedViews` | `model/repository/product/product_repository.go:282-300` | In every interleaving of full requests, whatever is cached or answered for a store was loaded for it by some full request. |
| `FlatCacheSteps.ReplacedByEarlyLook` | `model/repository/product/product_repository.go:282-298` | A cached view is only ever replaced by a request that had looked, and missed, before the first view was stored. |
| `FlatCacheSteps.FrozenIff` | `model/repository/product/product_repository.go:282-298` | A cached view stays in every continuation if and only if no request for the store is between its miss and storing another view. |
| `FlatCacheSteps.PutsItsLoad` | `model/repository/product/product_repository.go:289-298` | What is stored is the view that the storing request loaded, under the store it was called for. |
| `FlatCacheSteps.EveryRequestAnswered` | `model/repository/product/product_repository.go:282-300` | Every request, as read off the run, is answered once, in order and for the store it was made for. |
| `FlatCacheSteps.StepKeepsInv` | `model/repository/product/product_repository.go:282-298` | Every step keeps requests, cache and answers in agreement with what the run has called, loaded and stored. |
| `FlatCacheSteps.OverlapReplaces` | `model/repository/product/product_repository.go:295-298` | Two overlapping misses: the second one stores over the first without looking again. |
| `FlatProducts.FlatRepository.FetchAll` | `model/repository/product/product_repository.go:267-301` | A limit or a disabled cache bypasses the cache; otherwise the first request fills it. |
| `FlatProducts.FlatRepository.FetchByIDs` | `model/repository/product/product_repository.go:303-359` | Without IDs the request goes to the full cached view; with IDs the cache is only read. |
| `Registry.LockedKeyIsFinal` | `core/registry/registry.go:47-56` | A locked key keeps value and lock in every run without DeleteGlobal and UnlockForTesting on it. |
| `Registry.OnlyOverridesBreakLocks` | `core/registry/registry.go:66-78` | A step breaks a locked key if and only if it is one of those two operations on it. |
| `Registry.GlobalRegistry.SetGlobal` | `core/registry/registry.go:47-56` | Moves the registry as the step model does: panics exactly on a locked key and then changes nothing. |
| `Registry.GlobalRegistry.DeleteGlobal` | `core/registry/registry.go:66-71` | Moves the registry as the step model does: the key is gone, locked or not. |
| `ModuleRegistration.NothingLostNothingTwice` | `api/registry.go:27-36` | In every interleaving the module list is exactly what the run registered before the key was locked, in order, under the names the registrations were begun with; and whoever came later panicked. |
| `ModuleRegistration.LockedListIsFinal` | `api/registry.go:39-44` | Once the key is locked the list never changes again. |
| `ModuleRegistration.ApplyCallsSnapshot` | `api/registry.go:39-44` | An ApplyModules that has ended has called exactly the modules registered before its snapshot, each once, in order. |
| `ModuleRegistration.ApplyCallsAllIff` | `api/registry.go:27-44` | At the snapshot of ApplyModules: in every continuation without new registrations it ends having called every registered module, if and only if the key is already locked or no registration is under way. |
| `ModuleRegistration.ApplyCallsAllAlwaysIff` | `api/registry.go:27-44` | If new registrations may begin, it is sure to call every registered module if and only if the key is already locked. |
| `ModuleRegistration.LateModuleIsMissed` | `api/registry.go:40-43` | A registration can succeed between the snapshot and the lock and never be called. |
| `Uid.UidRoundTrip` | `graphql/resolvers/magento_resolver.go:17-31` | Decoding an encoded ID gives the ID back, for every 64-bit ID and no larger number. |
| `Uid.UidInjective` | `graphql/resolvers/magento_resolver.go:17-19` | Different IDs have different UIDs. |
| `Uid.Base64RoundTrip` | `graphql/resolvers/magento_resolver.go:18-22` | Padded Base64 (section 4 of RFC 4648) decodes to the encoded bytes. |
| `Uid.EncodesBits` | `graphql/resolvers/magento_resolver.go:18` | Section 4 of RFC 4648: the six-bit values of each four characters are the bits of the group of bytes, filled up with zeros; characters without a bit of the group are padding. |
| `Uid.Alphabet` | `graphql/resolvers/magento_resolver.go:18` | The alphabet of Table 1 of RFC 4648. |
| `Uid.DecodesPadded` | `graphql/resolvers/magento_resolver.go:22-25` | The decoder accepts exactly whole groups of alphabet characters with up to two characters of padding at the end. |
| `Uid.DecodesDigitsOnly` | `graphql/resolvers/magento_resolver.go:21-31` | A UID is valid if and only if it is padded Base64 of a non-empty string of digits whose value fits into 64 bits. |
| `Uid.FormatUintValue` | `graphql/resolvers/magento_resolver.go:18` | The decimal print consists of digits whose value is the number, without a leading zero. |
| `ProductJsonIndex.IndexProducts` | `cmd/product_json.go:54-132` | In any iteration order, each product that could be marshalled is sent once, in batches of at most 100, across the reuse of the buffers: as an update of its last existing row for store 0, or as a new row for store 0; with its new attributes in either case. |
| `ProductJsonIndex.EachProductOnce` | `cmd/product_json.go:83-114` | Every product that could be marshalled is in the update batches once if it had a row for store 0, otherwise in the insert batches once. |
| `ProductJsonIndex.KeyInjective` | `cmd/product_json.go:47-50` | Different (entity, store) pairs have different keys. |
| `ProductJsonIndex.IndexMapFinds` | `cmd/product_json.go:47-50` | The index finds a row exactly for the products that have one for store 0. |
| `ProductJsonIndex.BatchesAreStatements` | `cmd/product_json.go:178-183` | A flushed update batch is one statement of bulkUpdate. |
| `ProductJsonIndex.Push` | `cmd/product_json.go:86-113` | What was buffered is either in a full batch that was sent or still in the buffer. |
| `Paging.PagesPartition` | `graphql/resolvers/resolver.go:48-58` | Pages 1 to the page count concatenate to the list, and pages behind are empty. |
| `Paging.Paginate` | `graphql/resolvers/resolver.go:48-58` | With 32-bit arguments the 64-bit bounds do not overflow, and the slice is the page. |
| `Paging.PagedQuery` | `graphql/resolvers/product.go:15-75` | Defaults make every 32-bit argument usable; page, page count and total are those of the list. |
| `Paging.CountersExact` | `graphql/resolvers/product.go:71-75` | A 32-bit counter is right if and only if the value fits. |
| `Paging.CalculatePagination` | `html/category.go:37-101` | The window is contiguous, inside the pages, min(5, pages) long, with the current page in the middle unless that is too close to an end; limit, page, previous and next are clamped as written out. |
| `Paging.HtmlPageCountExact` | `html/category.go:53` | The page count is the rounded-up quotient if and only if its 64-bit sum does not overflow. |
| `Paging.PagedIDs` | `html/category.go:132-140` | The slice bounds are in range for every request, and the slice is the current page. |

## Left out

- HTTP handlers, command wiring, templates, image conversion, Redis, Elasticsearch and cron: input and output around the modelled logic.
- SQL text, dialects and the ORM: a statement is atomic, and an ORM batch insert is the same chunk loop, in a transaction or (with SkipDefaultTransaction) without one; both are modelled. Isolation between transactions is not: the tables of the workers are disjoint. String comparison in the database is exact, without collations.
- Auto-increment columns: a multi-row insert takes consecutive IDs, possibly after a gap; surrogate keys of the EAV, stock and price rows are not modelled.
- Price lookup queries with LIMIT 1 over unordered rows: their result depends on the database.
- Authentication, HMAC and ACL loading: library calls and straight-line lookups.
- CSV tokenising, float, integer and date parsing, and `%v` formatting: taken as given functions.
- Database errors of the SKU lookup and of the product insert: the code does not look at them, and the statements of the model succeed. A stop between two insert statements is not modelled, only a stop in the flush. Timings are not modelled.
- ReimportTables.ReimportConverges: nobody else inserts products between the two imports, both use the same store and mode, and the rows of the tables belong to products that exist.
- Typed row slices of the ORM mode: one list per backend type in a map instead of five fields.
- Flattening of product and category attributes into maps: field-by-field copying; the flattened record is one opaque value, and the attribute metadata cache behind it is not modelled.
- Races inside one call of the category repository or of the cache: each call is atomic. `FlatProducts.FlatRepository` has atomic requests too; `FlatCacheSteps` has the steps of the full one.
- The nil-receiver fallback of the cache to its global instance, values stored without a deadline record, and dump and restore to a file: the latter changes value types and loses tags.
- Aliasing of returned cache maps with the cache: maps are values here.
- One category repository: the tree cache is shared by all repositories of a process, the model has one.
- `RegisterRoute` and `ApplyRoutes`: the same protocol as for modules, on another key.
- Stability of pages across requests in `Products`: the list comes from map iteration, so the partition is stated for one list.
- Failed bulk statements of the JSON index command: they are printed and dropped; the model says what was sent.
- Paging.PagedQuery: states the page counters modulo the 32-bit conversion, because the code converts without a check; Paging.CountersExact says when that is exact. Slices are assumed shorter than 2^60 elements.
