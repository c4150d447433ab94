# TrackStock stock core in Dafny

TrackStock is a stock-keeping backend (Express and Mongoose) for a pharmacy that sells
through its counter, Farmazon and a WooCommerce shop, with a React client. This project
models the part of it that keeps the stock ledger, and proves properties of that model:

- **The four Mongoose models.** Product, Sale, InventoryCount and Category, with their
  enumerations, defaults, `trim` setters and validators.
- **Sales.** `POST /api/sales` takes a sale's quantity off its product's stock.
  `POST /api/sales/:id/cancel` puts it back. Both are one transaction over the product
  and sale collections.
- **Inventory counts.** A session snapshots every product's stock. Products are counted
  one at a time, identified by a 24-hex-digit `_id` or by barcode. Completion may
  overwrite the stock of the counted products.
- **The WooCommerce order webhook.** A signature gate, then a loop over the order lines.
  Each line takes its quantity off the matched product and records a sale. The whole
  order is rolled back at the first shortfall.
- **Categories.** Create, update and delete over a table linked by `parentCategory`.
- **The CSV bulk upload.** Each row is checked, failures are collected with row numbers,
  and an error-free file is inserted with `insertMany`.
- **The one-off stock migration.** It sums a legacy per-channel stock into one number.
- **The cart updaters of the point-of-sale page.**

Each route handler appears twice:

- as a pure function from the collections before the request to the response and the
  collections after it, where every error except a failed `insertMany` leaves them unchanged;
- as a method on the `Database` class that does the handler's steps in order and restores
  the saved collections where the handler aborts its transaction. Its `ensures` ties it
  to the function.

The lemmas state what the handlers promise: the effect of each write, the audit balance
"stock on hand plus units held by uncancelled sales", which every sale, cancellation and
order line keeps, and the invariants each handler preserves. The recorded schema
invariants are that stock is never below zero, barcodes are unique, names are trimmed
and every parent link exists.

Files: `common.dfy` (options, results, errors), `text.dfy` (JavaScript `trim`,
`toLowerCase`, `parseInt`, the ObjectId pattern), `tables.dfy` (a collection with its
natural order), `schemas.dfy`, `store.dfy` (the database class and its invariants),
`ledger.dfy` (the stock balance), and one file per source file of the core:
`sale_routes.dfy`, `inventory_routes.dfy`, `webhook_routes.dfy`,
`category_controller.dfy`, `bulk_upload.dfy`, `migration.dfy`, `cart.dfy`.

A new count session lists every product, inactive ones included. The webhook signature
is compared with plain `===`, not in constant time.

Every `_id` that arrives in a request is cast as Mongoose casts it before a lookup: 24
hexadecimal digits, in either case, name the id they spell in lower case. The handlers
compare raw strings only where the code uses `===`.

## Model

| member | source | states |
|---|---|---|
| Text.TrimIsCore | api/models/Product.js:4-8 | `trim` yields a string no longer than its input that neither starts nor ends with whitespace; it is empty exactly when the input is all whitespace |
| Text.TrimIdempotent | api/models/Product.js:9-14 | trimming a value the `trim` setter already stored changes nothing |
| Text.TrimmedIsFixed | api/models/Category.js:4-8 | a string without surrounding whitespace is its own trim |
| Text.ParseIntDecimal | api/routes/inventoryRoutes.js:115 | `parseInt` reads the decimal text of any integer, negative ones included, back as that integer |
| Text.ToLower | api/controllers/productBulkController.js:57 | `toLowerCase` restricted to ASCII letters and the Kelvin sign: the length is kept, no ASCII capital and no Kelvin sign is left, and every other character stays as it was |
| Text.LowerFixed | api/controllers/productBulkController.js:57 | a string without ASCII capitals or Kelvin signs is its own lower case, so the four unit names lower to themselves |
| Text.ToLowerIdempotent | api/controllers/productBulkController.js:57 | lowering an already lowered unit changes nothing |
| Text.IdKey | api/routes/inventoryRoutes.js:93-95 | a string of 24 hex digits casts to the id of 24 lower-case hex digits it spells, letter case aside; any other string is kept as it is |
| Text.IdKeyIgnoresCase | api/routes/inventoryRoutes.js:93-95 | two spellings of an id that differ only in the case of their hex letters cast to the same id |
| Text.IdKeyIdempotent | api/routes/inventoryRoutes.js:95 | casting a cast id changes nothing |
| Schemas.ParseUnit | api/models/Product.js:38-42 | the unit enumeration accepts exactly `adet`, `kg`, `lt` and `mt`, and is the inverse of the unit's name |
| Schemas.TrimBarcode | api/models/Product.js:9-14 | the `trim` setter of `barcode` leaves an absent barcode absent and `null` as `null`, and trims a string |
| Schemas.NewProduct | api/models/Product.js:3-58 | a product document is saved exactly when its name is non-blank, both prices are present and not below 0, stock and minStock are not below 0, and the unit is in the enumeration; otherwise it is a validation error |
| Schemas.NewProductValid | api/models/Product.js:4-51 | a saved product passes every validator, holds the name, barcode (absent, `null` or trimmed) and description trimmed, stock and minStock defaulting to 0 and isActive to true |
| Schemas.FindByBarcode | api/routes/inventoryRoutes.js:98 | the lookup by barcode finds a product carrying the trimmed barcode, and finds none only when no product carries it |
| Schemas.FindByWooId | api/routes/webhookRoutes.js:43-45 | the lookup by store id finds a product mapped to it, and finds none only when no product is |
| Schemas.ParsePlatform | api/models/Sale.js:9-13 | the platform enumeration accepts exactly `pharmacy`, `farmazon` and `woocommerce` |
| Schemas.NewSale | api/models/Sale.js:3-40 | a sale is saved exactly when its platform is in the enumeration; the saved sale is uncancelled with no cancellation time or reason, and keeps the product, quantity (of any sign), date and order id given |
| Schemas.NewCountItem | api/models/Inventory.js:17-42 | a new item keeps its product and system quantity and has nothing counted: count 0, difference 0, not counted, no count time; so it is consistent only for a system quantity of 0 |
| Schemas.NewInventoryCount | api/models/Inventory.js:3-54 | a session is saved exactly when its name is present and non-empty (`"  "` included, since this schema does not trim); it starts as a draft, dated now, with no completion time |
| Schemas.NewCategory | api/models/Category.js:3-26 | after the `trim` setters a category is saved exactly when its name is non-empty, and otherwise fails validation; the saved name and description are trimmed, the parent is kept, and it is active by default |
| Schemas.FindCategoryByName | api/controllers/productBulkController.js:31 | the lookup by name finds a category carrying the trimmed name, and none only when no category carries it |
| Tables.Table.Find | api/routes/webhookRoutes.js:43-45 | `findOne` returns a document that matches, and returns none only when no document of the collection matches |
| Tables.Table.FindAfterUpdate | api/routes/webhookRoutes.js:62-66 | rewriting a document without changing whether it matches does not change what `findOne` returns |
| Tables.Table.Delete | api/controllers/categoryController.js:124 | `deleteOne` removes exactly that document and keeps the collection well formed |
| Store.Database.Rollback | api/routes/saleRoutes.js:45 | aborting the transaction puts the product and sale collections back as they were when it started, and touches nothing else |
| Store.SetStockKeepsProductsInv | api/models/Product.js:33-37 | setting one product's stock to a value not below 0 keeps every product valid and the barcodes unique |
| Ledger.SoldAfterPut | api/routes/saleRoutes.js:66-72 | writing one sale changes the units held by uncancelled sales by what it holds minus what the document it replaces held |
| Ledger.SellKeepsBalance | api/routes/saleRoutes.js:58-72 | taking q units off a product while adding an uncancelled sale of q units of it keeps every product's stock-plus-sold balance |
| SaleRoutes.CreateSale | api/routes/saleRoutes.js:22-95 | in the handler's order: missing fields, a quantity not above 0, an unknown product and too little stock (reporting the stock) are refused; a success needs all four checks passed, a known platform and a free id |
| SaleRoutes.CreateSaleEffect | api/routes/saleRoutes.js:58-72 | a recorded sale lowers its product's stock by the quantity, to a value not below 0, touches no other product, and adds exactly one uncancelled sale of that product, quantity, platform and time |
| SaleRoutes.CreateSaleKeepsBalance | api/routes/saleRoutes.js:58-72 | recording a sale keeps every product's stock-plus-sold balance |
| SaleRoutes.CreateSaleKeepsInvariants | api/routes/saleRoutes.js:50-72 | recording a sale keeps every product valid, no stock below 0, the barcodes unique and every sale consistent |
| SaleRoutes.CancelSale | api/routes/saleRoutes.js:98-163 | a missing reason, an unknown sale, an already cancelled sale and a missing product are refused in that order; a success needs none of them |
| SaleRoutes.CancelSaleEffect | api/routes/saleRoutes.js:130-152 | a cancellation puts the quantity back on the product, reports that new stock, and changes only that sale: cancelled now, with the trimmed reason |
| SaleRoutes.CancelUndoesCreate | api/routes/saleRoutes.js:58-135 | cancelling a sale right after recording it, by any spelling of its id, succeeds and gives the product collection back exactly as it was |
| SaleRoutes.CancelTwiceRefused | api/routes/saleRoutes.js:117-120 | a cancelled sale cannot be cancelled again |
| SaleRoutes.CancelSaleKeepsBalance | api/routes/saleRoutes.js:130-141 | cancelling keeps every product's stock-plus-sold balance |
| SaleRoutes.CancelSaleKeepsInvariants | api/routes/saleRoutes.js:130-141 | cancelling keeps every product valid and every sale consistent |
| SaleRoutes.PostSale | api/routes/saleRoutes.js:22-95 | the handler, step by step, answers what the create function does and leaves the collections it describes; on every error they are as before |
| SaleRoutes.PostCancel | api/routes/saleRoutes.js:98-163 | the handler, step by step, answers what the cancel function does and leaves the collections it describes; on every error they are as before |
| InventoryRoutes.SnapshotOf | api/routes/inventoryRoutes.js:45-51 | one item per product in order, recording its stock, with count 0, difference minus the stock and nothing counted |
| InventoryRoutes.Snapshot | api/routes/inventoryRoutes.js:45-51 | the snapshot has one item per product, for the products in their natural order |
| InventoryRoutes.CreateSession | api/routes/inventoryRoutes.js:37-67 | a session is created exactly when a name is given and the id is free; it is a draft holding the snapshot of every product, in natural order, and keeps the session invariant |
| InventoryRoutes.Resolve | api/routes/inventoryRoutes.js:93-99 | an identifier of exactly 24 hex digits, in either case, is looked up as the `_id` it casts to; any other one as a trimmed barcode, found only when some product carries it |
| InventoryRoutes.FindItem | api/routes/inventoryRoutes.js:106-108 | the first item of the product, or none when no item is for it |
| InventoryRoutes.RecordCountAsWritten | api/routes/inventoryRoutes.js:70-138 | the count route as written: a missing or completed session is refused; the route succeeds exactly when the product resolves, has an item and the count parses, and then sets that item's count, whatever its sign |
| InventoryRoutes.RecordCount | api/routes/inventoryRoutes.js:115-118 | the count route with a negative count refused; every other outcome as written |
| InventoryRoutes.RecordCountEffect | api/routes/inventoryRoutes.js:86-121 | a successful count changes only the first item of the product: count, difference to the system quantity, counted and count time; the session becomes in progress and nothing else changes |
| InventoryRoutes.RecordCountKeepsSessionInv | api/routes/inventoryRoutes.js:115-119 | a count keeps difference = counted - system for every item, count times on counted items only, and no negative count |
| InventoryRoutes.LastCountIsLast | api/routes/inventoryRoutes.js:162-168 | the count the loop leaves for a product comes from its last counted item, and there is one exactly when some item of it was counted |
| InventoryRoutes.ApplyCounts | api/routes/inventoryRoutes.js:161-169 | the completion loop neither adds nor removes a product and keeps the natural order |
| InventoryRoutes.ApplyCountsEffect | api/routes/inventoryRoutes.js:161-169 | after the completion loop each product holds the count of its last counted item, or its old stock when none was counted |
| InventoryRoutes.CompleteSession | api/routes/inventoryRoutes.js:141-177 | a missing or completed session is refused; otherwise it becomes completed now, and with `updateStock` each product's stock becomes its last counted quantity while every other field and product stays |
| InventoryRoutes.CompletedIsTerminal | api/routes/inventoryRoutes.js:148-158 | a completed session can be neither counted nor completed again |
| InventoryRoutes.CompleteKeepsProductsInv | api/routes/inventoryRoutes.js:161-169 | completing a session of non-negative counts keeps every stock not below 0 |
| InventoryRoutes.NegativeCountReachesStock | api/routes/inventoryRoutes.js:115-168 | as written, a count of -3 is accepted and completing with `updateStock` stores stock -3, breaking the product invariant held before |
| InventoryRoutes.PostSession | api/routes/inventoryRoutes.js:37-67 | the handler answers what the create function does and stores the session under its id, or changes nothing |
| InventoryRoutes.PostCount | api/routes/inventoryRoutes.js:70-138 | the handler answers what the corrected count function does and stores that session, or changes nothing |
| InventoryRoutes.PostComplete | api/routes/inventoryRoutes.js:141-177 | the handler's loop writes exactly the products the completion function describes and stores the completed session |
| WebhookRoutes.OrderSale | api/routes/webhookRoutes.js:69-75 | the sale of an order line is one the sale schema accepts: uncancelled, platform woocommerce, the line's product and quantity, the order's id |
| WebhookRoutes.Step | api/routes/webhookRoutes.js:42-76 | a line of an unknown product is skipped; a line asking for more than the stock fails naming the product; otherwise the stock drops by the quantity and one sale is added |
| WebhookRoutes.ProcessFrom | api/routes/webhookRoutes.js:41-77 | the line loop, each sale stamped with its own time, fails only for want of stock or a clashing sale id; a processed order keeps the set of products and their natural order, and loses no sale |
| WebhookRoutes.Webhook | api/routes/webhookRoutes.js:20-80 | a signature unequal to the computed one is refused; an order not processing succeeds and changes nothing; a processing order succeeds exactly when its line loop does |
| WebhookRoutes.StepTakesDemand | api/routes/webhookRoutes.js:53-66 | one line takes its quantity off its product only, and leaves every other field alone |
| WebhookRoutes.ProcessTakesDemand | api/routes/webhookRoutes.js:41-77 | a processed order takes off each product exactly the sum of its lines' quantities, with repeated lines adding up, and changes no other field |
| WebhookRoutes.ProcessKeepsBalance | api/routes/webhookRoutes.js:41-77 | a processed order keeps every product's stock-plus-sold balance |
| WebhookRoutes.ProcessSucceedsIff | api/routes/webhookRoutes.js:53-58 | with stocks not below 0, positive line quantities and fresh sale ids, an order goes through exactly when no product is asked for more than its stock |
| WebhookRoutes.ProcessKeepsProductsInv | api/routes/webhookRoutes.js:41-77 | a processed order keeps every product valid, with no stock below 0 and unique barcodes, whatever the quantities the lines ask for |
| WebhookRoutes.StepKeepsProductsInv | api/routes/webhookRoutes.js:53-66 | a line that goes through leaves the stock it lowered at 0 or above |
| WebhookRoutes.ProcessKeepsSalesInv | api/routes/webhookRoutes.js:68-76 | when every line asks for a positive quantity, a processed order keeps every sale consistent and positive |
| WebhookRoutes.PostOrder | api/routes/webhookRoutes.js:10-91 | gate and handler answer what the webhook function does; an error leaves products and sales as before |
| WebhookRoutes.ProcessLines | api/routes/webhookRoutes.js:41-79 | the loop leaves what the line function describes, and rolls every earlier line back when one fails |
| WebhookRoutes.ApplyLine | api/routes/webhookRoutes.js:42-76 | one pass of the loop body does what one step describes |
| CategoryController.DescriptionOf | api/controllers/categoryController.js:34 | the stored description is trimmed, and empty when none is given |
| CategoryController.CreateCategory | api/controllers/categoryController.js:17-51 | a blank name and a missing parent are refused in that order; the stored category has the trimmed non-empty name, the trimmed description, the parent or null, and is active |
| CategoryController.CreateKeepsInvariants | api/controllers/categoryController.js:32-38 | creating keeps every name trimmed and non-empty and every parent link resolved |
| CategoryController.UpdateCategoryAsWritten | api/controllers/categoryController.js:69-106 | the update as written: a blank name, a parent string equal to the id string, a parent whose cast id is missing and an unknown category are refused in that order; otherwise exactly name, description and parent are replaced |
| CategoryController.UpdateCategory | api/controllers/categoryController.js:76-85 | the update with a parent refused when it casts to the category's own id, or when the category is already among its ancestors; every other outcome as written |
| CategoryController.UpdateMakesNoCycle | api/controllers/categoryController.js:76-95 | after a successful update the category, however its id was spelled, is not its own ancestor |
| CategoryController.UpdateKeepsInvariants | api/controllers/categoryController.js:87-95 | updating keeps every name trimmed and non-empty and every parent link resolved |
| CategoryController.UpdateAsWrittenMakesCycle | api/controllers/categoryController.js:77-85 | as written, moving the top category B under its child A is accepted and makes B its own ancestor; the corrected update refuses it |
| CategoryController.UpperCastsToLower | api/controllers/categoryController.js:81 | the parent `00000000000000000000000A` casts to the id `00000000000000000000000a` |
| CategoryController.UpdateAsWrittenMakesSelfLoop | api/controllers/categoryController.js:78-95 | as written, giving category `…0a` the parent `…0A` passes the `===` test, finds the category itself as parent, and makes it its own parent; the corrected update refuses it |
| CategoryController.DeleteCategory | api/controllers/categoryController.js:109-130 | a category with a sub-category (as the `subCategories` virtual defines them) is refused before its existence is checked; otherwise exactly that category is removed |
| CategoryController.DeleteKeepsInvariants | api/controllers/categoryController.js:112-124 | deleting keeps every name trimmed and every parent link resolved |
| CategoryController.PostCategory | api/controllers/categoryController.js:17-51 | the handler answers what the create function does and inserts that category, or changes nothing |
| CategoryController.PutCategory | api/controllers/categoryController.js:69-106 | the handler answers what the corrected update does and writes that category, or changes nothing |
| CategoryController.RemoveCategory | api/controllers/categoryController.js:109-130 | the handler answers what the delete function does and leaves the table it describes, or changes nothing |
| BulkUpload.RowDoc | api/controllers/productBulkController.js:62-75 | the document of a row: the barcode the cell, or `null` when the cell is empty; the unit lower-cased, isActive true exactly for the cell `true`, stock and minStock 0 when absent, a given category resolved |
| BulkUpload.ValidateRowAsWritten | api/controllers/productBulkController.js:28-86 | the row checks in order (category, required fields, numbers, unit, stored barcode), the first failure being the row's reason; a row is accepted exactly when all pass |
| BulkUpload.OmitNullBarcode | api/controllers/productBulkController.js:65 | the document with a `null` barcode left out and every other field, a barcode string included, kept |
| BulkUpload.ValidateRow | api/controllers/productBulkController.js:65-84 | the row checks with a barcode repeated from an earlier accepted row also refused, and an accepted row's `null` barcode left out of its document; every other outcome as written |
| BulkUpload.Collect | api/controllers/productBulkController.js:25-90 | every row gives one document or one error; error row numbers are ascending, the first row being row 2 |
| BulkUpload.ValidateAll | api/controllers/productBulkController.js:104 | validation of the batch yields one product per document, or the validation error |
| BulkUpload.ValidateAllOk | api/controllers/productBulkController.js:104 | the batch passes validation exactly when every document does |
| BulkUpload.InsertFrom | api/controllers/productBulkController.js:104 | the ordered insert is stopped only by a duplicate key, and it stops exactly when it has not written every document |
| BulkUpload.InsertFromEffect | api/controllers/productBulkController.js:104 | the ordered insert appends the ids it wrote, writes each product under its id, and keeps every earlier document |
| BulkUpload.UploadAsWritten | api/controllers/productBulkController.js:7-117 | the upload as written: no file is refused; an error other than a failed insert changes nothing; a success answers the row count and has written one product per row, in row order, each the schema's reading of the document built from its row |
| BulkUpload.UploadProducts | api/controllers/productBulkController.js:7-117 | the upload with repeated barcodes reported as row errors: no file is refused; an error other than a failed insert changes nothing |
| BulkUpload.RowErrorInsertsNothing | api/controllers/productBulkController.js:96-101 | a file with a row error answers the errors and writes nothing |
| BulkUpload.CollectBarcodesUnique | api/controllers/productBulkController.js:78-86 | the corrected row checks accept no barcode twice and none already stored |
| BulkUpload.CollectAllAccepted | api/controllers/productBulkController.js:25-90 | with no row error, every row was accepted and its document is the one built from it, a `null` barcode left out |
| BulkUpload.CollectAllAcceptedAsWritten | api/controllers/productBulkController.js:25-90 | as written, with no row error every row was accepted and its document is the one built from it |
| BulkUpload.UploadAsWrittenWrites | api/controllers/productBulkController.js:96-109 | as written, an upload that answers success has written every row's product, in row order |
| BulkUpload.UploadAllOrNothing | api/controllers/productBulkController.js:96-109 | the corrected upload answers the row count exactly when no row is refused and the rows' documents validate as a batch; an error leaves the products as they were, and a success has written one product per row, in row order, each the schema's reading of its row with the barcode left out where the cell is empty, so that none stores `null`; the products stay valid with unique barcodes |
| BulkUpload.UploadAsWrittenKeepsProductsInv | api/controllers/productBulkController.js:104 | even a half-done upload as written keeps every stored product valid with unique barcodes |
| BulkUpload.RepeatedBarcodeInsertsHalf | api/controllers/productBulkController.js:78-104 | as written, a file with the same row twice fails with a duplicate-key error after the first product was stored |
| BulkUpload.RepeatedBarcodeRejected | api/controllers/productBulkController.js:78-101 | the corrected upload reports the second row, CSV row 3, and writes nothing |
| BulkUpload.TwinsHalfInserted | api/controllers/productBulkController.js:104 | two copies of a product that has a barcode path, even `null`, are inserted up to the second, which the unique index refuses |
| BulkUpload.NullBarcodesInsertHalf | api/controllers/productBulkController.js:65-104 | as written, a file with two rows whose barcode cell is empty stores `null` twice and fails with a duplicate-key error after the first product was stored |
| BulkUpload.BlankBarcodesInserted | api/controllers/productBulkController.js:65-109 | the corrected upload leaves out both empty barcodes and writes both products |
| BulkUpload.PostUpload | api/controllers/productBulkController.js:7-117 | the handler answers what the corrected upload does and leaves the products it describes |
| BulkUpload.CheckRows | api/controllers/productBulkController.js:12-90 | the row loop, numbering from 2, builds exactly the documents and errors of the corrected row checks |
| BulkUpload.InsertMany | api/controllers/productBulkController.js:104 | the ordered insert writes documents one by one and stops at the first taken id or barcode |
| Migration.Migrated | api/migrate-stock.js:22-31 | a legacy stock becomes the sum of its non-zero channels; any other product is left as it is; only the stock changes |
| Migration.SavedDoc | api/migrate-stock.js:30-31 | the document `save` validates is the loaded one with the sum as its stock, no other path changed |
| Migration.MigrateFrom | api/migrate-stock.js:20-35 | the run keeps the number of products, and an aborted run stops at a product it visited |
| Migration.NewAcceptableIsStoredAcceptable | api/models/Product.js:4-8 | a document a new product would pass also passes as a loaded one |
| Migration.BlankNameSaved | api/migrate-stock.js:30-31 | a legacy product whose stored name is one blank is saved with the summed stock, and the run completes |
| Migration.MigrateFromEffect | api/migrate-stock.js:20-35 | the run migrates exactly the products before the first failing save, leaves the rest as they were, and stops only at a save the product schema's validators refuse, on the new stock or on any loaded path as stored (a name of blanks passes, as no setter runs again) |
| Migration.OnlyStockChanges | api/migrate-stock.js:30-31 | no field other than stock is ever assigned |
| Migration.ScalarStockUntouched | api/migrate-stock.js:22 | a product whose stock is a number or absent is left as it is |
| Migration.CompletedLeavesScalars | api/migrate-stock.js:20-35 | a completed run leaves no legacy stock, every stock it wrote is the non-negative sum of the channels, and every document it saved passes the product schema's validators on its stored paths |
| Migration.MigrationIdempotent | api/migrate-stock.js:20-31 | running the migration on its own result gives that result again |
| Migration.MigrateStocks | api/migrate-stock.js:5-43 | the loop over the loaded products leaves what the run describes, and fails exactly when the run stops at a save the validators refuse on the stored paths |
| Cart.AddToCart | client/src/pages/Sales.jsx:78-90 | after adding, the cart holds the product, and it grew by one entry exactly when the product was new to it |
| Cart.AddToCartEffect | client/src/pages/Sales.jsx:78-90 | a product not in the cart is appended with quantity 1; one already there gets one more unit, without a stock check, the other entries and the length staying |
| Cart.AddToCartKeepsInvariants | client/src/pages/Sales.jsx:78-90 | adding keeps product ids distinct and quantities positive |
| Cart.RemoveFromCart | client/src/pages/Sales.jsx:92-94 | removing never lengthens the cart |
| Cart.RemoveFromCartContents | client/src/pages/Sales.jsx:92-94 | removing leaves exactly the entries for other products |
| Cart.RemoveFromCartAppend | client/src/pages/Sales.jsx:92-94 | removing works entry by entry and keeps the order of what remains |
| Cart.RemoveAbsent | client/src/pages/Sales.jsx:92-94 | removing a product not in the cart changes nothing |
| Cart.RemoveFromCartKeepsInvariants | client/src/pages/Sales.jsx:92-94 | removing keeps product ids distinct and quantities positive |
| Cart.UpdateQuantity | client/src/pages/Sales.jsx:96-113 | updating never lengthens the cart |
| Cart.UpdateQuantityEffect | client/src/pages/Sales.jsx:96-113 | a new quantity not above 0 removes the entry; one above the stock leaves the cart as it was; any other sets the entry's quantity; the other entries stay, in order |
| Cart.UpdateQuantityAbsent | client/src/pages/Sales.jsx:96-113 | updating a product not in the cart changes nothing |
| Cart.UpdateQuantityKeepsInvariants | client/src/pages/Sales.jsx:96-113 | updating keeps product ids distinct and quantities positive |
| Cart.UpdateQuantityIds | client/src/pages/Sales.jsx:96-113 | updating only drops entries or changes quantities: every entry left is for a product that was in the cart |

## Left out

- HTTP, Express and Mongoose plumbing: response codes and bodies, `populate`, the listing routes and their sorting, and the route wiring files.
- Concurrency. Each handler is one atomic step.
- Transactions. A transaction is the `Database.Rollback` of the saved product and sale collections.
- Completion of a count session is not transactional: products are written before the session is saved. The model writes them in sequence, with no failure between.
- The HMAC-SHA256 and base64 digest of the webhook is a parameter: the computed signature is given, and only the equality gate is modelled. Timing of the `===` comparison is out of scope.
- The signature is computed from `JSON.stringify` of the body, which is left out with the digest.
- CSV parsing. `csv-parser` and the header mapping are left out, and rows arrive already parsed.
- The asynchronous `data` handler, whose `await`s can race with `end` and with `rowNumber`: rows are checked one after another, in file order. In the code, a row that awaits `Product.findOne` (a row with a barcode) most likely pushes its document after `end` has resolved the promise, so the insert may never see it.
- Floating point. Prices are opaque `real` amounts, and `parseFloat` is taken as already done on each cell.
- Stock and minStock cells are integers. The stock ledger is integral.
- Fresh `_id`s and the current time are parameters of the handlers. The webhook takes one time per order line, since each of its sales calls `new Date()`.
- A string that is not 24 hexadecimal digits, given where an `_id` is expected, fails with a cast error. The model hands it to the lookup unchanged, where it finds nothing. Mongoose also takes any 12-character string as an ObjectId; the model treats that string like any other.
- The migration reads the stored legacy object as if the `stock` path were untyped. With the schema's `stock: Number`, Mongoose would cast the path when it loads the document, and would not hand the script the object as it is stored.
- The migration's `save` validates the loaded paths as they were stored; no setter runs again on them.
- `api/routes/productRoutes.js` is not part of this model. It can overwrite stock directly, outside the ledger.
- `api/routes/reportRoutes.js` is not part of this model, nor are the client pages other than the cart updaters in `Sales.jsx`.
- Case mappings of `toLowerCase` other than those of the ASCII letters and the Kelvin sign. Only those characters lower into ASCII, so the unit test of the bulk upload and the hexadecimal cast of an id decide exactly as in JavaScript.
- `handleSale` in `Sales.jsx` is not part of this model. It sends network requests.
- The warning toast of `updateQuantity` is a display side effect. The cart is left as it was, as modelled.
- `downloadTemplate` is left out. It sends a constant text.
- The migration's database connection, its console output and its `process.exit` codes are left out. Failure is the `Aborted` outcome and the `Err` answer.
- CategoryController.UpdateMakesNoCycle: proves only that the updated category is not its own ancestor after a successful update, not that the whole table stays acyclic.
- Schemas.NewSale: `product` and `quantity` are required by the schema but always present in the model's inputs, so their absence is not modelled.
- Schemas.NewInventoryCount: the items' required `product` and `systemQuantity` are always present in the model's inputs.

## Findings

| source | as written | input that shows it | evidently intended | confidence | as-written member | corrected member |
|---|---|---|---|---|---|---|
| api/routes/inventoryRoutes.js:115-118 | the count is stored as `parseInt` reads it, negative ones included; completion with `updateStock` then writes it with `findByIdAndUpdate`, which does not run the `min: 0` validator | the count `-3` for the product with barcode `869`, then completion with `updateStock` | a count below zero is refused, so that no stock goes below zero (proved in RecordCountKeepsSessionInv and CompleteKeepsProductsInv) | not executed | InventoryRoutes.NegativeCountReachesStock | InventoryRoutes.RecordCount |
| api/controllers/categoryController.js:77-85 | only a parent equal to the category itself is refused, although the comment on line 76 promises no loop | categories A (parent B) and B (no parent); update B with parent A | a parent that already has the category among its ancestors is refused (proved in UpdateMakesNoCycle) | not executed | CategoryController.UpdateAsWrittenMakesCycle | CategoryController.UpdateCategory |
| api/controllers/categoryController.js:78-81 | the self-parent test compares the two strings with `===`, but `findById` casts the parent id without regard to the case of its hex letters, so a parent naming the category itself in another case passes and is stored | category `00000000000000000000000a` updated with the parent `00000000000000000000000A` | a parent that names the category itself, in any spelling, is refused (proved in UpdateMakesNoCycle) | not executed | CategoryController.UpdateAsWrittenMakesSelfLoop | CategoryController.UpdateCategory |
| api/controllers/productBulkController.js:65 | an empty barcode cell is stored as `null`, and the sparse unique index skips only documents without the path, so the ordered `insertMany` on line 104 writes the first barcode-less row and fails on the second; the upload answers an error after storing part of the file | a file with two rows whose barcode cell is empty | a row without a barcode leaves the field out, and every such row is stored (proved in UploadAllOrNothing and BlankBarcodesInserted) | not executed | BulkUpload.NullBarcodesInsertHalf | BulkUpload.ValidateRow |
| api/controllers/productBulkController.js:78-84 | under the sequential reading of rows of "## Left out": a barcode is checked against stored products only; the ordered `insertMany` then writes the first of two rows with the same barcode and fails on the second, so the upload answers an error after storing part of the file | a file holding the same row, barcode `869`, twice | a barcode repeated in the file is a row error and nothing is stored (proved in UploadAllOrNothing and RepeatedBarcodeRejected) | not executed | BulkUpload.RepeatedBarcodeInsertsHalf | BulkUpload.ValidateRow |
