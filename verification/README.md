# Shop backend decision rules, in Dafny

This project models the decision rules of an Express/Mongo shop backend:
products and their display order, the category forest, tier pricing,
shipping fees, orders, refund and replacement requests, carts, the CSV
bulk-upload cell parsers, blog posts, tags, users and homepage videos.

Every HTTP handler is a pure function from the stores it reads (finite maps
from document id to record), the request fields and the answers of outside
services, to the stores afterwards and the reply (an HTTP status with a
message, or a value). Writes a handler makes before it detects an error are
kept in the returned store, because the backend has no transactions. Money
is `real`; a Mongo ObjectId is the natural number its 24 hex digits spell.

## Layout

One module per file, following the controllers and models of the backend:

| file | module | what it holds |
|---|---|---|
| common.dfy | Common | `Option`, `Result`, `Outcome`, ids, JavaScript whitespace, `trim` and ASCII `toLowerCase` |
| helper.dfy | Helper | `utils/helper.js`: the response envelope, the admin gate, ObjectId parsing, `getShippingCost` |
| ranking.dfy | Ranking | dense 1..n display orders over `map<Id, int>`, shared by products, categories and videos |
| products.dfy | Products | product records, scopes and the display-order helpers of the product controller |
| product_handlers.dfy | ProductHandlers | `createProduct`, `updateProduct`, `deleteProduct`, the schema's unique indexes |
| product_batch.dfy | ProductBatch | `updateProductsDisplayOrder` |
| pricing.dfy | Pricing | the role-to-tier tables and the three price fallbacks |
| csv.dfy | Csv | `toBoolean`, `toNumber`, `toList` and duplicate-SKU tracking of the bulk upload |
| categories.dfy | Categories | sibling renumbering, order repair, `createCategory`, `reorderCategory` |
| category_walks.dfy | CategoryWalks | the recursive relevelling and subtree moves |
| category_tree.dfy | CategoryTree | `getCategoryPath`, `updateCategory`, `deleteCategory` |
| carts.dfy | Carts | `getCart`, `updateCart`, `addToCart`, `removeFromCart`, `clearCart` |
| orders.dfy | OrderHandlers | `placeOrder`, `updateOrder`, `acceptOrder` |
| requests.dfy | Requests | refund and replacement requests and their status fold |
| videos.dfy | Videos | homepage videos, their order and the two-published minimum |
| slugs.dfy | Slugs | the blog slug transform, reading time and paging flags |
| tags.dfy | Tags | tags and their propagation into product tag lists |
| blog.dfy | Blogs | blog posts |
| users.dfy | Users | registration, login, password reset, approval, roles and sales assignments |

The model follows the code as written. The places where the code does
something its authors evidently did not intend, or where its behaviour is
easy to misread, are listed next; most of them are stated as lemmas of the
model, named here and in the table below.

## The code as written

- `createProduct` destructures `bin` twice in one `const`
  (controllers/productController.js:183-184), which is a syntax error when
  the module loads. The model describes the handlers as if the file loaded.
- `createError` is called from controllers/productController.js:1970 on,
  although its import is commented out (controllers/productController.js:22),
  so those paths throw a ReferenceError; the handlers that call it are not
  part of this model.
- Product names: the schema trims a name both when it stores it and when it
  is used as a query value, while `updateProduct` compares the raw request
  name with the stored one, so renaming a product to its own name with a
  leading space is refused as a duplicate
  (`ProductHandlers.PaddedOwnNameRefused`); a name of white space only
  passes the handler's checks and fails at save with 500
  (`ProductHandlers.BlankNameFailsOnSave`).
- `costPrice` is required by the product schema but optional in
  `createProduct`: a product created without it fails at save with 500
  (`ProductHandlers.MissingCostPriceFailsOnSave`).
- `isDeleted` is read and written by the product handlers but is not a path
  of the product schema (models/productModel.js names it only in indexes);
  the model keeps it as a product field, as the code intends.
- An explicit display order in `createProduct` shifts the siblings before
  the duplicate-SKU check, so a duplicate-SKU rejection leaves them shifted
  (`ProductHandlers.DuplicateSkuKeepsShift`).
- Moving a product to a later position shifts the siblings at or after the
  target up and never closes the vacated slot, so the scope gets a gap
  (`Products.MoveLaterLeavesGap`).
- `updateCart` maps roles with the key "ChainStore", which no lowercased role
  equals, so a chain-store user's replaced cart is priced as Franchise.
- The non-admin branch of `updateOrder` reads an undeclared `userId`, so any
  non-admin caller gets 500 (`OrderHandlers.UpdateChecks`).
- Cancelling an order with a payment intent writes `paid: "Cancelled"`, which
  the order schema's enum does not contain; the write fails validation
  (`OrderHandlers.CancelWithIntentFails`).
- Placing an order accepts "ground"/"overnight" in any case, while updating
  one accepts only the exact strings "Ground" and "Overnite".
- On update a discount of 0 falls back to the stored discount, a fee passed
  in the body is used for the amount but not stored, the amount is not
  recomputed on accept, the accept status is not validated, and duplicate
  lines of one product let the guarded decrements skip a line. Accepting an
  order on its own lines after one of its products was deleted reads the
  `_id` of a null product and fails with 500, where a passed line gets 404
  (`OrderHandlers.DeletedProductFailsAccept`).
- A CSV cell holding only currency symbols reads as 0 rather than undefined,
  and so does an array cell whose items join to blank text; an array of
  several numbers reads as their digits run together
  (`Csv.ArrayReadsAsJoinedText`, `Csv.ArrayCellExamples`).
- Categories: `updateCategory` accepts the order max + 1 inside a dense
  group, which leaves a gap (`CategoryTree.UpdateToEndLeavesGap`); an omitted
  `parentId` makes the category a root; nothing stops a category from
  becoming its own parent, and `getCategoryPath` then never ends
  (`CategoryTree.SelfParentPathGrows`); deleting "deletedCategories" itself
  makes it its own parent (`CategoryTree.DeleteTargetBecomesOwnParent`); and
  products that name the deleted category only as their sub-category are
  not moved.
- Carts: a product id sent in upper case does not match the stored line, so
  `addToCart` appends a second line for the same product.
- Category ids in requests: `reorderCategory` finds the category by comparing printed ids
  with the request text, so an id sent with an upper-case hex digit is never
  found: moving up is always refused, and moving down swaps the category with
  the first of its siblings (`Categories.UppercaseCannotMoveUp`,
  `Categories.UppercaseDownSwapsWithHead`). The guard of `deleteCategory`
  compares the text with the protected id's lower-case spelling, so the
  protected category sent in upper case is deleted
  (`CategoryTree.UppercaseProtectedIsDeleted`). `updateCategory` compares the
  parent text with the printed current parent, so the current parent sent in
  upper case takes the re-parent path: the flags are rewritten, the children
  relevelled, and the body level is replaced by the parent's level plus one
  (`CategoryTree.UppercaseSameParentRelevels`). A parent sent as "" is falsy
  for that test and then fails the ObjectId cast of the final write, after
  any order change has been written.
- Requests: the pre-save hook writes `overallStatus`, which is not a schema
  path, so only `completedAt` survives; `refundOrder` and `replaceOrder` read
  `req.user._id` and are not routed; a Completed request that gets a new item
  stays Completed; accept and reject reach only the first item of a product;
  the duplicate check does not require the refund to be on the same item; an
  upper-case product id is answered 404.
- Videos: a blank title still shifts the other videos before failing with
  500; the 400 of `validateObjectIdOrThrow` is answered as 500;
  `updateVideo` can unpublish below two published videos; the toggle refuses
  a request without `isActive` while two or fewer are published, even for a
  video that is already unpublished; a limit of 0 lists every video.
- Tags: a rename can give a product the same tag twice, and the rename loop
  runs even when the name did not change.
- Blog: `readingTime` counts the empty pieces that leading and trailing
  whitespace produce; a title with a leading space passes the duplicate check
  and then fails at save with 500; a retitle stores the slug "-w" for the
  title " w"; re-publishing restamps `publishedAt`; the edit check compares
  the role with "admin" while the application's role is "Admin", so only the
  author may edit (400 otherwise); a bad status is answered 500. The update
  writes the request body as sent, so an editor can also replace the author,
  view count, excerpt and `publishedAt`, and a slug sent without a new
  title skips the duplicate check and is refused by the unique index with
  500 (`Blogs.UpdatePost`).
- Users: "Business type is required" is never reported, because the next
  check always overwrites it; "rejected" is never written, because rejecting
  an account sets it back to pending; demoting a sales person leaves their
  customers assigned to a user who is no longer a sales person; the reset
  code's comment says one minute while the code allows two; an invalid
  email overrides every other registration message.

## Model

| member | source | states |
|---|---|---|
| Common.Trim | controllers/productController.js:240 | `String.prototype.trim`: the result is a contiguous part of the input with no white space at either end, and only white space was cut on each side |
| Common.TrimmedIsFixpoint | controllers/productController.js:240 | the result of trimming is trimmed, and a trimmed string is its own trim |
| Common.TrimIdempotent | controllers/productController.js:240 | trimming a second time changes nothing |
| Common.TrimPadded | controllers/productController.js:240 | trimming strips exactly the white space around a non-empty trimmed core |
| Common.TrimOfBlank | controllers/productController.js:240 | a string of white space alone trims to the empty string |
| Common.TrimEmptyIffBlank | controllers/productController.js:240 | a string trims to the empty string exactly when it is white space only |
| Common.Lower | utils/helper.js:46 | `toLowerCase` keeps the length and lower-cases each character on its own, ASCII capitals to small letters |
| Common.LowerIdempotent | utils/helper.js:46 | lower-casing twice is lower-casing once |
| Common.RemoveSpaces | utils/helper.js:46 | `replace(/\s+/g, "")`: no white space is left, the result is no longer than the input, and a blank input gives the empty string |
| Common.Least | controllers/cartController.js:48 | the first document of `findOne`, read as the least id: a member of the set below every other member |
| Helper.SendResponse | utils/helper.js:4-12 | `success` is true exactly for a status in [200, 300); status and message are passed through |
| Helper.AdminGate | utils/helper.js:14-19 | the caller passes exactly when present with role "Admin" or "SalesPerson"; otherwise a 403 whose envelope is unsuccessful |
| Helper.GetMongoId | utils/helper.js:21-31 | null for a missing or empty argument or a string that is not 24 hex digits; otherwise the id those digits spell |
| Helper.MongoIdRoundTrip | utils/helper.js:21-31 | reading back the printed form of any id gives that id |
| Helper.IdString | utils/helper.js:21-31 | an id prints as exactly 24 characters |
| Helper.FirstPrinted | controllers/cartController.js:48 | the first position whose id prints as the given string, and none before it does |
| Helper.FormatParseHex | utils/helper.js:21-31 | a string of lower-case hex digits reads as a number that prints back as the same string |
| Helper.ParseHexBound | utils/helper.js:21-31 | n hex digits spell a number below 16^n |
| Helper.PrintedInjective | controllers/categoryController.js:473 | two ObjectIds that print alike are the same id |
| Helper.FirstPrintedAt | controllers/categoryController.js:473 | among ObjectIds, the first entry printing as the id at position k is k itself when no earlier entry is that id |
| Helper.MethodKey | utils/helper.js:46 | the method key has no white space and no capital letter |
| Helper.ShippingCost | utils/helper.js:42-79 | zero for a non-positive or non-numeric amount or an unknown method; otherwise the ground or overnight schedule chosen by the method key |
| Helper.ShippingCostPositive | utils/helper.js:62-78 | a fee is charged exactly when the method is a known alias and the amount is positive, and it is then at least 10 |
| Helper.ShippingCostMonotone | utils/helper.js:62-78 | for a fixed method a larger amount never ships for less |
| Helper.OvernightCostsMore | utils/helper.js:62-76 | for any positive amount overnight costs at least 10 more than ground |
| Helper.ShippingCostIgnoresCaseAndSpaces | utils/helper.js:46 | two method names with the same key cost the same for every amount |
| Helper.KeyOfPlainName | utils/helper.js:46 | a name already lower-case and free of white space is its own key |
| Helper.ScheduleExamples | __tests__/utils.test.js:82-95 | the two schedules give 10/20/30/40 and 20/30/40/55 at 30, 100, 300 and 600 |
| Helper.AliasClasses | utils/helper.js:47-60 | "ground" and "upsground" are ground aliases, "overnight" only an overnight one, "unknown" and "" neither |
| Helper.GroundExamples | __tests__/utils.test.js:77-88 | the ground fees the unit tests expect, and zero for a zero or negative amount |
| Helper.OvernightExamples | __tests__/utils.test.js:90-95 | the overnight fees the unit tests expect |
| Helper.UnknownMethodExamples | __tests__/utils.test.js:97-100 | an unknown or missing method ships for free |
| Helper.SpellingExamples | __tests__/utils.test.js:102-106 | "UPS Ground", "GROUND" and "  ground  " are all priced as ground |
| Ranking.First | controllers/categoryController.js:35-39 | the first document of a group listed by `sort({ displayOrder: 1 })`: a member of the group listed before every other member |
| Ranking.Sort | controllers/categoryController.js:35-39 | the listing of a group by display order (ties by id): it holds each member of the group once and is strictly sorted |
| Ranking.BeforeTransitive | controllers/categoryController.js:35-39 | the listing order is transitive |
| Ranking.SortedUnique | controllers/categoryController.js:35-39 | two strictly sorted listings of the same documents are the same listing |
| Ranking.Renumber | controllers/categoryController.js:41-48 | renumbering gives the i-th listed member of the group order i + 1 and leaves every document outside the group alone |
| Ranking.RenumberDense | controllers/categoryController.js:41-48 | after renumbering the group's orders are distinct and lie in 1..N |
| Ranking.RenumberKeepsOrder | controllers/categoryController.js:41-48 | renumbering keeps the relative order of any two members |
| Ranking.RenumberKeepsListing | controllers/categoryController.js:41-48 | a renumbered group lists in the same order as before |
| Ranking.RenumberSequential | controllers/categoryController.js:41-48 | a group whose i-th listed member already has order i + 1 is left unchanged |
| Ranking.RenumberIsSequential | controllers/categoryController.js:41-48 | after renumbering, walking the listing finds order i + 1 at position i |
| Ranking.RenumberIdempotent | controllers/categoryController.js:41-48 | renumbering twice is renumbering once |
| Ranking.SequentialIffDense | controllers/categoryController.js:58-65 | the gap check of `validateAndFixDisplayOrder` passes exactly when the group's orders are distinct and lie in 1..N |
| Ranking.DenseImage | controllers/categoryController.js:58-65 | a dense group takes every order from 1 to N exactly once |
| Ranking.Shift | controllers/categoryController.js:620-637 | the members of the group whose order lies in the window move by `delta`; nothing else changes |
| Ranking.Move | controllers/categoryController.js:618-644 | the moved member ends at the target, and documents outside the group keep their orders |
| Ranking.MoveKeepsDense | controllers/categoryController.js:618-644 | moving a member of a dense group to a target in 1..N, closing the slot it leaves, keeps the group dense |
| Ranking.MoveLaterKeepsDense | controllers/categoryController.js:618-627 | moving later and pulling the members in (old, target] down by one keeps a dense group dense |
| Ranking.MoveEarlierKeepsDense | controllers/categoryController.js:628-637 | moving earlier and pushing the members in [target, old) up by one keeps a dense group dense |
| Ranking.MoveKeepsOthersOrder | controllers/categoryController.js:618-644 | a move never changes the relative order of the other members |
| Ranking.InsertKeepsDense | controllers/categoryController.js:257-271 | inserting at a position in 1..N+1 after pushing the members at or after it up by one keeps the group dense |
| Ranking.InsertedOrders | controllers/categoryController.js:262-269 | after the push the old members sit in 1..N+1, off the target, and stay distinct |
| Ranking.AppendKeepsDense | controllers/categoryController.js:273-275 | appending after the last position keeps a dense group dense |
| Ranking.PushAndPlace | controllers/productController.js:95-121 | the product lands on its target order and the key set is unchanged |
| Ranking.PushLaterLeavesGap | controllers/productController.js:95-105 | moving a product later pushes the others at or after the target up, so nobody holds the old order and the group is no longer dense |
| Categories.NewCategory | models/categoryModel.js:32-67 | the schema defaults: no parent, level 1, order 1, no children, not deleted |
| Categories.Siblings | controllers/categoryController.js:254 | the siblings found by `find({ parentId })` are exactly the categories with that parent, deleted or not |
| Categories.LiveSiblings | controllers/categoryController.js:53-56 | the siblings that are not soft-deleted, and only those |
| Categories.RenumberGroup | controllers/categoryController.js:35-39 | the live siblings other than the protected "DeletedCategories" category |
| Categories.MaxOrder | controllers/categoryController.js:255 | the largest order in the group, an order some member holds, or 0 for an empty group |
| Categories.DenseMax | controllers/categoryController.js:255 | in a dense group the largest order is the group's size |
| Categories.ReorderSiblingsSequentially | controllers/categoryController.js:34-49 | only display orders change; the group outside the protected category gets 1..N in its listed order and every other category is untouched |
| Categories.ReorderSiblingsDense | controllers/categoryController.js:34-49 | afterwards the renumbered group is dense and keeps its relative order |
| Categories.ReorderSiblingsIdempotent | controllers/categoryController.js:34-49 | renumbering a second time changes nothing |
| Categories.ValidateAndFixDisplayOrder | controllers/categoryController.js:52-70 | a group already at 1..N in listed order is left alone; otherwise it is renumbered |
| Categories.ValidateAndFixIdempotent | controllers/categoryController.js:52-70 | running the fix-up twice is running it once |
| Categories.ValidateAndFixSequential | controllers/categoryController.js:52-70 | when the protected category is not in the group, the group ends sequential |
| Categories.SameGroups | controllers/categoryController.js:34-70 | changing display orders changes none of the sibling groups |
| Categories.FixOne | controllers/categoryController.js:84-96 | one repair puts the category after all its live siblings (order 1 with none) and changes nothing else |
| Categories.FixInvalidDisplayOrders | controllers/categoryController.js:73-98 | the repairs change display orders only, and only of the categories found |
| Categories.FixOneCanStayInvalid | controllers/categoryController.js:90-91 | when every live sibling's order is negative, the repaired category's order stays non-positive |
| Categories.PlaceCategory | controllers/categoryController.js:220-243 | a 400 exactly when the caller's level exceeds 5 or an existing parent's level plus one exceeds 4; an existing parent fixes the level, an unknown one is ignored |
| Categories.OrderNewCategory | controllers/categoryController.js:250-276 | an explicit order outside 1..max+1 of all siblings is a 400; otherwise only siblings' orders change and the explicit order is used |
| Categories.MarkParent | controllers/categoryController.js:236 | only the parent's `hasChildren` flag is set |
| Categories.MarkParentKeeps | controllers/categoryController.js:236 | setting the flag changes no sibling group, order or taken name |
| Categories.InsertCategory | controllers/categoryController.js:244-300 | a 400 exactly for a taken (name, level) or a bad order; otherwise the new category is stored as placed and the others change only their orders |
| Categories.CreateCategory | controllers/categoryController.js:198-307 | placement errors change nothing; a duplicate name still leaves the parent flagged; a success stores the new category with the placed parent and level |
| Categories.CreateLevelBounds | controllers/categoryController.js:220-235 | a created category sits at level 5 at most, and at level 4 at most under a parent |
| Categories.CreateKeepsNamesUnique | controllers/categoryController.js:244-247 | creating keeps (name, level) pairs unique |
| Categories.CreateKeepsNames | controllers/categoryController.js:244-300 | creating renames and relevels nothing, and the new pair is fresh |
| Categories.InsertKeepsSiblingsDense | controllers/categoryController.js:250-276 | a dense sibling group stays dense with the new category in it |
| Categories.CreateKeepsSiblingsDense | controllers/categoryController.js:198-307 | the same, through the whole handler |
| Categories.OtherSiblings | controllers/categoryController.js:466-470 | the live siblings of a category, itself and the protected category excluded |
| Categories.ListingPosition | controllers/categoryController.js:472-473 | where an entry sits in a listing sorted by order, relative to a given order |
| Categories.UpNeighbour | controllers/categoryController.js:475-477 | the sibling a move up swaps with: none exactly when every sibling is above the category, else the last one at or below it |
| Categories.DownNeighbour | controllers/categoryController.js:490-492 | the sibling a move down swaps with: none exactly when no sibling is above the category, else the first one above it |
| Categories.SwapOrders | controllers/categoryController.js:479-487 | the two categories exchange display orders and nothing else changes |
| Categories.ReorderCategory | controllers/categoryController.js:460-511 | for a category named by its printed id: a 404 for an unknown category, a 400 for another direction, no change on error, and no category added or removed |
| Categories.ReorderUpPicksNeighbour | controllers/categoryController.js:475-489 | moving up fails exactly when no sibling is at or below the category, and otherwise swaps with the up neighbour |
| Categories.ReorderDownPicksNeighbour | controllers/categoryController.js:490-506 | moving down fails exactly when no sibling is above the category, and otherwise swaps with the down neighbour |
| Categories.Listing | controllers/categoryController.js:466-472 | the listing holds one entry per other live sibling plus the category, all in the store |
| Categories.ListedNeighbour | controllers/categoryController.js:473-507 | no neighbour for another direction or for an unmatched `up`; an unmatched `down` takes the head of the listing |
| Categories.ReorderRequest | controllers/categoryController.js:460-511 | on the request text: 500 for text that is not an ObjectId, 404 for an unknown id, 400 for another direction, no change on error; a success swaps the category's order with that of a category of the store |
| Categories.SwapSelf | controllers/categoryController.js:490-503 | swapping a category with itself changes nothing |
| Categories.ReorderRequestOfPrinted | controllers/categoryController.js:460-511 | when every id is an ObjectId, the request carrying the printed id is exactly `ReorderCategory` |
| Categories.ReorderLowercaseText | controllers/categoryController.js:462-473 | a request spelling the id in lower case is exactly `ReorderCategory` on the id it spells |
| Categories.OwnPosition | controllers/categoryController.js:472-473 | the category's place in the listing, with only other siblings before it |
| Categories.ListingNeighbours | controllers/categoryController.js:475-492 | the entries beside the category in the listing are the up and down neighbours |
| Categories.UppercaseUnlisted | controllers/categoryController.js:473 | an id text with an upper-case hex digit matches no entry of the listing |
| Categories.UppercaseCannotMoveUp | controllers/categoryController.js:473-506 | such a text moving up is always a 400 that changes nothing |
| Categories.ListingHead | controllers/categoryController.js:472 | the listing starts with the first other sibling when one is at or before the category, and with the category otherwise |
| Categories.UppercaseDownHead | controllers/categoryController.js:490-504 | such a text moving down swaps the category with the head of the listing and succeeds |
| Categories.UppercaseDownSwapsWithHead | controllers/categoryController.js:490-504 | such a text moving down always succeeds: it swaps with the first sibling when one is at or before the category, and changes nothing otherwise, wherever the category stands |
| Categories.SwapKeepsDense | controllers/categoryController.js:479-502 | a swap keeps a dense group dense |
| CategoryWalks.Listing | controllers/categoryController.js:21 | the children a walk handles, each child of the node exactly once |
| CategoryWalks.Sub | controllers/categoryController.js:27-29 | a child's subtree holds the child itself and only stored categories |
| CategoryWalks.SubInReach | controllers/categoryController.js:23-30 | each child's subtree lies inside the reach of the walk from its parent |
| CategoryWalks.UpdateChildLevels | controllers/categoryController.js:20-31 | the walk changes levels only; no category is added or removed and no other field changes |
| CategoryWalks.UpdateChildLevelsFrame | controllers/categoryController.js:20-31 | a category outside the walk's reach is untouched |
| CategoryWalks.ChildrenAtNextLevel | controllers/categoryController.js:23-25 | after the walk every child sits one level below the parent's new level, and the promise continues below flagged children |
| CategoryWalks.UpdateChildLevelsSetsLevels | controllers/categoryController.js:20-31 | in a forest the walk gives every generation it reaches its parent's level plus one |
| CategoryWalks.MovedOf | controllers/categoryController.js:777-781 | a moved category hangs under "deletedCategories" at level 1 |
| CategoryWalks.MoveAll | controllers/categoryController.js:755-789 | the descendant move adds and removes no category |
| CategoryWalks.MoveAllEvolves | controllers/categoryController.js:755-789 | the move only ever re-parents categories: each is left as it was or moved |
| CategoryWalks.MovedStaysMoved | controllers/categoryController.js:755-789 | a moved category stays moved for the rest of the walk |
| CategoryWalks.LiveSubsInReach | controllers/categoryController.js:763 | the children found later in the walk lie inside the reach computed at the start |
| CategoryWalks.MoveAllFrame | controllers/categoryController.js:755-789 | the move changes nothing outside the walk's reach while the walk never visits the target |
| CategoryWalks.ListingUnchanged | controllers/categoryController.js:763 | while nothing below a node has been touched, the walk finds the children it would have found at the start |
| CategoryWalks.MoveAllMoves | controllers/categoryController.js:755-789 | in a forest whose walk never meets the target, every category the walk reaches ends under "deletedCategories" at level 1 |
| CategoryTree.PathUp | controllers/categoryController.js:535-541 | the path ends at the category, each entry is the parent of the next, and when the hops did not run out it starts at a root, at a missing parent or below a soft-deleted one |
| CategoryTree.GetCategoryPath | controllers/categoryController.js:527-547 | a 404 exactly for a missing or soft-deleted category; otherwise a parent chain of live categories ending at the category |
| CategoryTree.PathLevels | controllers/categoryController.js:535-541 | along a path in a store with consistent levels the level grows by one per step |
| CategoryTree.PathComplete | controllers/categoryController.js:535-541 | with consistent positive levels, as many hops as the category's level reach the top |
| CategoryTree.SelfParentPathGrows | controllers/categoryController.js:535-541 | a live category that is its own parent makes the loop repeat it forever: each extra hop adds a copy |
| CategoryTree.ClearIfLast | controllers/categoryController.js:583-588 | the old parent loses `hasChildren` exactly when at most one category lists it as parent; nothing else changes |
| CategoryTree.ReparentFlags | controllers/categoryController.js:582-591 | the re-parent writes only flags, and the new parent ends flagged |
| CategoryTree.MoveCategory | controllers/categoryController.js:617-644 | only orders change, as the closing move of the category inside its group |
| CategoryTree.Finish | controllers/categoryController.js:647-660 | the final write sets the name, the parent the text names once cast (null when omitted) and the level, and keeps the order and the deletion mark; a parent sent as "" fails the cast (500) and writes nothing |
| CategoryTree.UpdateChecks | controllers/categoryController.js:560-580 | the checks pass exactly for a non-empty name, a level of at most 4, a stored category and, when the parent text is non-empty and differs from the printed current parent, a new parent that is an ObjectId (500 otherwise) and is stored (400 otherwise) |
| CategoryTree.UpdateCategory | controllers/categoryController.js:549-666 | an error exactly when a check fails, the new order is out of range or the parent is sent as ""; a failed check changes nothing, an out-of-range order keeps the re-parent writes (400), and a "" parent keeps every earlier write and answers 500 |
| CategoryTree.UpdateWritesDocument | controllers/categoryController.js:576-660 | an accepted update writes the name, the parent the text names and, whenever the parent text differs from the printed current parent, the new parent's level plus one, otherwise the level sent |
| CategoryTree.UpdateOrders | controllers/categoryController.js:602-645 | an accepted update moves the category inside its old group when it asks for a new order, and changes no order otherwise |
| CategoryTree.UpdateOthers | controllers/categoryController.js:549-666 | other categories keep parent, name and deletion mark; their levels are those the re-parent walk left, the walk running whenever the parent text differs from the printed current parent |
| CategoryTree.GroupRoom | controllers/categoryController.js:610-615 | in a dense group every position 1..N passes the range check |
| CategoryTree.UpdateMoveKeepsDense | controllers/categoryController.js:602-660 | moving a live category of a dense group to a position in 1..N keeps the group dense, and is accepted unless the parent is sent as "" |
| CategoryTree.UpdateToEndLeavesGap | controllers/categoryController.js:610-660 | the accepted position N + 1 puts the category past the end and leaves a gap |
| CategoryTree.UpdateRelevels | controllers/categoryController.js:576-599 | a re-parent of a category with children, taken whenever the parent text differs from the printed current parent, relevels every generation below it |
| CategoryTree.PassedOrders | controllers/categoryController.js:602-645 | once the checks and the order range pass, the category moves inside its old group as asked, even when the final write then fails |
| CategoryTree.UpdateRequest | controllers/categoryController.js:549-571 | the name and level checks come first; an omitted id is 404 and id text that is not an ObjectId is 500; an ObjectId in either case updates the category it spells |
| CategoryTree.ReparentsOnLowercase | controllers/categoryController.js:576 | for lower-case parent text the text test agrees with comparing ids: a re-parent happens exactly when the text names another parent |
| CategoryTree.UppercaseParentReparents | controllers/categoryController.js:576 | parent text with an upper-case hex digit always takes the re-parent path |
| CategoryTree.UppercaseSameParentRelevels | controllers/categoryController.js:576-660 | the current parent sent with an upper-case hex digit keeps the parent but stores the parent's level plus one, whatever level was sent |
| CategoryTree.RenumberChildren | controllers/categoryController.js:908-934 | only orders change: every category under the parent, deleted or not, gets 1..N in listed order |
| CategoryTree.RenumberChildrenDense | controllers/categoryController.js:908-934 | afterwards the parent's children hold each order 1..N once |
| CategoryTree.RenumberKeepsOtherGroup | controllers/categoryController.js:908-934 | renumbering one parent's children keeps another dense group dense |
| CategoryTree.DeleteProducts | controllers/categoryController.js:809-841 | products of the category are soft-deleted in a soft delete and otherwise moved to "deletedCategories" with no sub-category; all others are untouched |
| CategoryTree.DeleteCategory | controllers/categoryController.js:705-953 | for a category named by its printed id: 404 for a missing category, 400 for the protected one and 500 without "deletedCategories", each changing nothing; otherwise success; no document added or removed |
| CategoryTree.DeleteRequest | controllers/categoryController.js:705-953 | on the request text: an error exactly for text that is not an ObjectId (500), an unknown id (404), the text of the guard (400) or a missing "deletedCategories" (500), each changing nothing; a success writes the delete of the id the text spells |
| CategoryTree.ProtectedSpelling | controllers/categoryController.js:715 | among ObjectIds, only the protected id prints as the guard's text |
| CategoryTree.DeleteRequestOfPrinted | controllers/categoryController.js:705-953 | the request carrying an ObjectId's printed id is exactly `DeleteCategory` |
| CategoryTree.DeleteLowercaseText | controllers/categoryController.js:708-718 | a request spelling the id in lower case is exactly `DeleteCategory` on the id it spells |
| CategoryTree.UppercaseProtectedIsDeleted | controllers/categoryController.js:711-718 | the protected id sent with an upper-case hex digit passes the guard and is deleted |
| CategoryTree.DeleteMovesSubtree | controllers/categoryController.js:800-880 | in a forest every descendant ends under "deletedCategories" at level 1, and so does the category itself unless the delete is soft; a soft delete marks it deleted in place |
| CategoryTree.DeleteFrame | controllers/categoryController.js:705-953 | categories the delete does not reach keep parent, level, name and mark |
| CategoryTree.DeleteRenumbers | controllers/categoryController.js:908-934 | after a delete the children of "deletedCategories", and of the old parent, hold 1..N |
| CategoryTree.DeleteProductsEmpty | controllers/categoryController.js:809-841 | after a regular delete no product names the category; after a soft delete none of its products is ranked in its scope |
| CategoryTree.DeleteEmptiesCategory | controllers/categoryController.js:792-841 | the same, through the whole handler |
| CategoryTree.DeleteTargetBecomesOwnParent | controllers/categoryController.js:739-781 | deleting "deletedCategories" itself succeeds and makes it its own parent |
| Products.HandleDisplayOrderUpdate | controllers/productController.js:65-132 | the helper throws (500) exactly when the product to move is missing; otherwise no product is added or removed and only display orders change |
| Products.DisplayOrderUpdateEffect | controllers/productController.js:65-132 | the mover ends at the target, except that an order of 0 asked to become 1 is left alone; products outside the scope are untouched; every other product keeps its order or moves one place down the list |
| Products.ScopeMembersUnchanged | controllers/productController.js:65-132 | a change of display orders alone moves no product into or out of a scope |
| Products.MoveEarlierIsMove | controllers/productController.js:106-121 | moving a ranked product earlier gives the same orders as the closing move of the ranking: the products in target..old-1 move up by one |
| Products.MoveEarlierKeepsDense | controllers/productController.js:106-121 | moving a product of a dense scope earlier, to a position of 1 or more, keeps the scope dense |
| Products.MoveLaterShape | controllers/productController.js:95-121 | moving a ranked product later gives the same orders as pushing up every other product at or after the target and then placing the mover |
| Products.MoveLaterLeavesGap | controllers/productController.js:95-121 | moving a product of a dense scope later, inside 1..N, leaves its old position empty, so the scope is no longer dense |
| Products.ReorderAfterDeletion | controllers/productController.js:135-167 | only the orders of the scope's ranked products change, and they are the renumbering 1..N in listed order |
| Products.ReorderAfterDeletionDense | controllers/productController.js:135-167 | after the renumbering the scope holds each order 1..N once |
| Products.ReorderAfterDeletionKeepsOrder | controllers/productController.js:141-155 | the renumbering keeps the relative order of two ranked products |
| Products.ReorderAfterDeletionIdempotent | controllers/productController.js:135-167 | renumbering a scope a second time changes nothing |
| Products.DenseScopesSatisfyIndexes | models/productModel.js:270-295 | when every scope is dense, no two products compared by either unique display-order index share an order |
| Products.SkuOnSave | models/productModel.js:336-341 | a modified SKU is stored trimmed and an unmodified one is left alone |
| Products.SkuOnSaveIdempotent | models/productModel.js:336-341 | saving a product twice stores the same SKU as saving it once |
| ProductHandlers.NormalizedSku | controllers/productController.js:239-240 | a string SKU is kept trimmed and a missing one becomes the schema default "" |
| ProductHandlers.CreateChecks | controllers/productController.js:198-264 | every failure is a 400 or a 404; a pass means name, description and stock are given, the price is positive, a cost price if sent is positive, no product is stored under the trimmed name (the schema's `trim` casts the query value too), and the category and any brand are valid stored ids |
| ProductHandlers.MakeRoom | controllers/productController.js:279-297 | with an order the scope makes room through the display-order helper and the product takes that order; without one nothing moves and the product takes count + 1 |
| ProductHandlers.NewDocument | controllers/productController.js:308-335 | the saved document holds the scope, the chosen order, the name as the schema's `trim` setter stores it, and the normalized SKU, and is not deleted |
| ProductHandlers.CreateAfterChecks | controllers/productController.js:279-338 | a success adds exactly the new document, which holds a cost price and a complete tier table; a failure leaves the store as the order step left it |
| ProductHandlers.CreateProduct | controllers/productController.js:169-358 | a failed check changes nothing and keeps its status; a success adds one live document under the new id, named by the trimmed, non-empty request name, with a cost price and a complete tier table; other products change only in display order |
| ProductHandlers.CreateKeepsScopeDense | controllers/productController.js:279-297 | creating a product in a dense scope with no order, or an order in 1..N+1, adds it to the scope and keeps the scope dense |
| ProductHandlers.PlacedKeepsScopeDense | controllers/productController.js:279-338 | the same once the checks have passed |
| ProductHandlers.AppendKeepsDense | controllers/productController.js:286-297 | a new live product placed at count + 1 keeps the scope dense |
| ProductHandlers.InsertKeepsScopeDense | controllers/productController.js:282-285 | a new live product inserted at a position in 1..N+1 after making room keeps the scope dense |
| ProductHandlers.InsertIsPushUp | controllers/productController.js:95-104 | making room for a new product pushes up every ranked product of the scope at or after the target |
| ProductHandlers.CreateKeepsUniqueness | controllers/productController.js:241-306 | a create never makes a non-empty SKU or, on success, a name shared, and stored names stay trimmed |
| ProductHandlers.BlankNameFailsOnSave | models/productModel.js:5-9 | a name of one space passes every check of the handler and is refused at save with 500 |
| ProductHandlers.DuplicateSkuKeepsShift | controllers/productController.js:282-306 | a request refused for a taken SKU still leaves the siblings moved by the order step |
| ProductHandlers.MissingCostPriceFailsOnSave | controllers/productController.js:228-236 | a request without a cost price passes every check and is refused at save with a 500, because the schema requires the field |
| ProductHandlers.MissingTier | controllers/productController.js:597-609 | no tier is reported exactly when all four tiers are present, and a reported tier is missing |
| ProductHandlers.UpdateChecks | controllers/productController.js:541-612 | the checks pass exactly when the product exists, a name that differs from the stored one is free once trimmed, a changed SKU is free, the category, sub-category and brand exist and the tier table is complete; a missing product is a 404 |
| ProductHandlers.Patch | controllers/productController.js:637-658 | the requested name and SKU, both trimmed, and the order replace the stored ones, fields left out are kept, and the deletion mark is kept |
| ProductHandlers.UpdateProduct | controllers/productController.js:509-712 | a failed check changes nothing; no product is added or removed; other products change only in order, and not at all without a requested order; a success stores the patched document |
| ProductHandlers.WriteUpdate | controllers/productController.js:631-668 | the final write fails with 500 and writes nothing exactly when the requested name is white space only (the validators run on update); otherwise it stores the patched document and nothing else |
| ProductHandlers.UpdateFrame | controllers/productController.js:612-620 | products outside the scope the update ranks in are untouched, and the others move by at most one position |
| ProductHandlers.UpdateKeepsNamesUnique | controllers/productController.js:547-558 | an accepted update never makes a name shared, and stored names stay trimmed |
| ProductHandlers.UpdatedNameFresh | controllers/productController.js:547-558 | the name an accepted update stores belongs to no other product |
| ProductHandlers.PaddedOwnNameRefused | controllers/productController.js:549-550 | renaming a product to its own name with a leading space is refused with 400 as a duplicate and changes nothing |
| ProductHandlers.UpdateKeepsSkusUnique | controllers/productController.js:561-570 | an accepted update never makes a non-empty SKU shared, and SKUs stay trimmed |
| ProductHandlers.Removed | controllers/productController.js:744-747 | a variation takes only itself with it; any other product also takes every product the variation query matched |
| ProductHandlers.DeleteProduct | controllers/productController.js:716-762 | a missing product is a 404 that changes nothing; otherwise the product goes, together with the matched products unless it is a variation, the rest keep every field but the order, and only orders inside its scope change |
| ProductHandlers.DeleteRenumbersScope | controllers/productController.js:733-751 | after a delete the product's scope loses exactly the removed products, is dense again, and keeps the relative order of the rest |
| ProductBatch.Group | controllers/productController.js:2690-2707 | a batch position is in a key's group exactly when its product's scope key is that key |
| ProductBatch.Keys | controllers/productController.js:2690-2700 | every position's key is listed and every listed key comes from some position |
| ProductBatch.Walk | controllers/productController.js:2711-2731 | the writes visit exactly the positions whose key is listed |
| ProductBatch.GroupWrites | controllers/productController.js:2713-2724 | a group writes its products in requested order, each with its rank in the group |
| ProductBatch.Writes | controllers/productController.js:2711-2731 | the i-th write names the product of the i-th visited position and writes that position's rank |
| ProductBatch.Apply | controllers/productController.js:2720-2723 | applying the writes adds or removes no product and changes only display orders |
| ProductBatch.UpdateProductsDisplayOrder | controllers/productController.js:2661-2746 | an empty batch is a 400 and a batch with a missing field, a bad id or a missing product is a 500, neither changing anything; otherwise success; only display orders change |
| ProductBatch.ApplyFrame | controllers/productController.js:2720-2723 | a product that no write names keeps its document |
| ProductBatch.BatchAssignsRanks | controllers/productController.js:2709-2731 | with distinct ids each named product ends with its rank in its group, and products not named are untouched |
| ProductBatch.BatchRanksDense | controllers/productController.js:2713-2719 | inside one group the ranks are 1..k, each given once |
| ProductBatch.BatchRanksFollowRequests | controllers/productController.js:2713-2719 | inside one group a smaller requested order, or an equal one earlier in the batch, gets a smaller rank |
| Csv.ToBoolean | controllers/productController.js:2177-2182 | a cell is true exactly when it is the boolean true or a string that trims and lowercases to "true", "1" or "yes" |
| Csv.ToBooleanIgnoresPaddingAndCase | controllers/productController.js:2180-2181 | surrounding blanks never change a cell's reading, and it is true exactly when the lowercased word is one of the three |
| Csv.Strip | controllers/productController.js:2191 | what is left holds none of the stripped characters and is no longer |
| Csv.StripIdempotent | controllers/productController.js:2191 | stripping twice removes nothing more |
| Csv.DropPercent | controllers/productController.js:2194 | exactly one trailing '%' is removed, and nothing else changes |
| Csv.Number | controllers/productController.js:2195 | the empty text is 0; text starting with 0x, 0o or 0b (either case) is a number exactly when at least one digit of that base follows and nothing else; a sign in front of such a prefix is NaN |
| Csv.NumberOfDigits | controllers/productController.js:2195 | a plain run of digits reads as its decimal value |
| Csv.NumberReadsExponent | controllers/productController.js:2195 | digits, `e` or `E`, an optional sign and digits read as the first digits times ten to the signed power |
| Csv.NumberReadsRadix | controllers/productController.js:2195 | a 0x, 0o or 0b prefix and digits of that base read as their value in that base; with a sign in front they are NaN |
| Csv.NumberExamples | controllers/productController.js:2195 | "1e3" is 1000, "2e-1" is 0.2, "1.5E+03" is 1500, "0x1A" is 26, "0o17" is 15, "0b11" is 3 and "-0x1A" is NaN |
| Csv.PlainCell | controllers/productController.js:2184-2196 | a cell with nothing to trim, strip or drop reads as `Number` of its text |
| Csv.ExponentCell | controllers/productController.js:2184-2196 | a cell holding digits with an exponent reads as their value scaled by that power of ten |
| Csv.RadixCell | controllers/productController.js:2184-2196 | a cell holding a 0x, 0o or 0b literal reads as its value in that base |
| Csv.SignedRadixCell | controllers/productController.js:2184-2196 | a cell holding a signed 0x, 0o or 0b literal reads as undefined |
| Csv.ToNumber | controllers/productController.js:2184-2196 | undefined for undefined, null and blank cells; otherwise what JavaScript's `Number` reads from the trimmed, stripped cell without its trailing '%' (a decimal with an optional exponent, or a 0x/0o/0b integer), undefined when that is NaN; an array cell is undefined when its items join to the empty text, and otherwise reads from that text, stripped and without its trailing '%' |
| Csv.ArrayReadsAsJoinedText | controllers/productController.js:2186-2196 | an array cell reads like the string of its items joined by commas, except that a blank joined text reads as 0 where the string would be undefined |
| Csv.ArrayCellExamples | controllers/productController.js:2186-2196 | the empty array is undefined and ["1", "2"] reads as 12 |
| Csv.StripOfTrim | controllers/productController.js:2186-2191 | trimming before stripping changes nothing |
| Csv.ToNumberIgnoresStripped | controllers/productController.js:2186-2196 | a cell reads as the cell with its stripped characters removed, as long as something is left |
| Csv.ReadsStripped | controllers/productController.js:2186-2196 | a cell that is not blank reads as its stripped text without the trailing '%' |
| Csv.CurrencyOnlyIsZero | controllers/productController.js:2187-2195 | a non-blank cell of currency signs and separators only reads as 0, not as undefined |
| Csv.ShowNatRoundTrip | controllers/productController.js:2195 | reading back the decimal digits of a natural number gives the number |
| Csv.ToNumberReadsCounts | controllers/productController.js:2184-2196 | any count written plainly in a cell reads back as itself |
| Csv.ToNumberDropsPercent | controllers/productController.js:2194-2195 | a count followed by '%' reads as the count |
| Csv.Split | controllers/productController.js:2203 | there is at least one piece and no piece holds a separator |
| Csv.Clean | controllers/productController.js:2204-2205 | every kept piece is trimmed and non-empty, and none is added |
| Csv.ToList | controllers/productController.js:2198-2206 | a falsy cell is [], an array is kept as it is, and a string gives trimmed, non-empty, separator-free items |
| Csv.ToListJoinRoundTrip | controllers/productController.js:2198-2206 | joining trimmed, non-empty, separator-free items with ',' and reading the cell back gives the same list |
| Csv.SkuKey | controllers/productController.js:2455 | a row's SKU, when present, is trimmed and non-empty |
| Csv.FirstIn | controllers/productController.js:2457-2462 | the result is the first row holding the SKU, and none when no row does |
| Csv.ScanSkus | controllers/productController.js:2402-2462 | each row's verdict is: no SKU, first seen, or duplicate of the first row that held it |
| Csv.FirstSeenDistinct | controllers/productController.js:2457-2462 | two rows the check lets through never share a SKU |
| Csv.EachSkuFirstSeenOnce | controllers/productController.js:2457-2462 | each SKU in the file is let through on exactly its first row |
| Pricing.LookupTier | controllers/productController.js:783-792 | an absent role, or a role whose lowercase form is not a table key, is priced as Franchise; any other role takes the table's tier |
| Pricing.TierOf | controllers/productController.js:783-792 | the tier is Wholesale, Retailer or ChainStore exactly when the lowercased role is "wholesale", "retailer" or "chainstore" |
| Pricing.TierOfCartUpdate | controllers/cartController.js:233-240 | `updateCart` never charges the ChainStore tier; Wholesale and Retailer are reached as in the other table |
| Pricing.TierIgnoresCase | controllers/cartController.js:233-240 | the letter case of the role never changes the tier, in either table |
| Pricing.CartUpdateTierAgrees | controllers/cartController.js:104-111 | the two tables agree on every role except those that lowercase to "chainstore", which `updateCart` prices as Franchise |
| Pricing.ChainStoreRoleExamples | controllers/cartController.js:233-240 | the stored role "ChainStore" reaches the ChainStore tier in the product view and Franchise in `updateCart`; "Admin" and "SalesPerson" are priced as Franchise |
| Pricing.ViewPrice | controllers/productController.js:795-796 | the view shows the tier price when there is one, and is empty only when neither it nor the base price exists |
| Pricing.CartPrice | controllers/cartController.js:133 | the cart charges the tier price when there is one |
| Pricing.OrderPrice | controllers/orderController.js:186 | the order snapshot is 0 for a product without a price for the tier |
| Pricing.FallbacksAgreeOnTierPrice | controllers/orderController.js:177-186 | when the product has a price for the tier, view, cart and order all charge it |
| Pricing.FallbacksAgreeOnCompleteProducts | models/productModel.js:34-61 | on every product with a complete tier table the view, the cart and the order charge the same |
| Pricing.FallbacksRelate | controllers/cartController.js:133 | the cart charges the view price or 0, and the order snapshot the tier price or 0; without a tier price the view shows the base price |
| Pricing.ShownPricing | controllers/productController.js:810-821 | the view never fails: an anonymous viewer sees the Franchise price, or nothing when the product has none (`pricing` is a nested path, so the missing tier reads as undefined); the whole table is shown exactly to the role "Admin"; any other signed-in viewer sees the view price of their tier |
| Pricing.UnknownRolesSeeFranchisePrice | controllers/productController.js:783-821 | a signed-in viewer whose role is not "Admin" and not one of the four tiers sees what an anonymous viewer sees, when the product has a Franchise price |
| Pricing.AnonymousSkipsBasePrice | controllers/productController.js:795-821 | without a Franchise price an anonymous viewer sees no price, while a signed-in user without a tier sees the base price |
| Carts.ActiveCart | controllers/cartController.js:48 | none exactly when the user has no active cart; otherwise an active cart of that user |
| Carts.ActiveCartUnique | controllers/cartController.js:48 | with one active cart per user the lookup finds that cart |
| Carts.ItemsWriteKeepsOneActive | controllers/cartController.js:395-401 | writing the lines of a cart keeps one active cart per user |
| Carts.CreateKeepsOneActive | controllers/cartController.js:221-227 | creating an active cart for a user without one keeps one active cart per user |
| Carts.UnitPrice | controllers/cartController.js:132-133 | a product's cart price is its tier price when it has one and its base price otherwise |
| Carts.ViewOf | controllers/cartController.js:118-155 | a line is shown as missing exactly when its product does not exist, and keeps its quantity; a shown line names its product at the product's cart price for the tier, and its line total is quantity × that price, or 0 for a missing product |
| Carts.View | controllers/cartController.js:118-155 | one view line per cart line, in order |
| Carts.GrandTotalIsViewTotal | controllers/cartController.js:134-136 | the running total equals the sum of the shown line totals |
| Carts.MissingLinesAddNothing | controllers/cartController.js:120-128 | lines of missing products add nothing to the total |
| Carts.GetCart | controllers/cartController.js:40-166 | a 400 exactly without a user; an empty view with total 0 without an active cart or lines; otherwise the lines shown are the view of the cart's lines at the caller's tier: one per cart line with its quantity and price, marked missing exactly when the product is gone |
| Carts.GetCartTotals | controllers/cartController.js:134-160 | the reported total is the sum of the reported line totals, and equals the total of the lines whose product exists |
| Carts.Convert | controllers/cartController.js:215-218 | a payload line converts exactly when `getMongoId` reads its id |
| Carts.ReplacePrices | controllers/cartController.js:242-246 | the reply prices each line at its product's cart price under the `updateCart` tier, and a missing product at 0 |
| Carts.UpdateCart | controllers/cartController.js:202-270 | a 400 without a user or without an array; success exactly when every id converts; a success replaces the lines of the user's active cart, or creates one under the new id, and changes no other cart; a failure changes nothing |
| Carts.UpdateCartKeepsOneActive | controllers/cartController.js:221-227 | replacing the lines keeps one active cart per user |
| Carts.ReplacePricesChainStoreAsFranchise | controllers/cartController.js:233-246 | a chain-store user sees the ChainStore price in the cart view but the Franchise price in the `updateCart` reply |
| Carts.FindLine | controllers/cartController.js:318-320 | the result is the first line whose printed product id equals the request string, and none when no line's does |
| Carts.AddChecks | controllers/cartController.js:280-308 | a pass means a user, a positive whole quantity and an id that reads as a stored product; every failure is a 400, 404 or 500 |
| Carts.AddLine | controllers/cartController.js:318-362 | the first matching line grows by the quantity; with none a new line is appended |
| Carts.AddToCart | controllers/cartController.js:274-374 | a failure exactly when a check fails, changing nothing; otherwise the user's active cart, or a new one, gets the added line and no other cart changes |
| Carts.AddToCartKeepsOneActive | controllers/cartController.js:310-362 | adding keeps one active cart per user |
| Carts.AddLineKeepsSingleLines | controllers/cartController.js:318-362 | given the id as the server prints it, an add keeps at most one line per product |
| Carts.UppercaseIdDuplicatesLine | controllers/cartController.js:318-320 | an id with an upper-case hex digit reads as a product the cart holds but matches no line, so a second line is appended |
| Carts.DropProduct | controllers/cartController.js:395-397 | no kept line prints as the product id, every other line is kept, and nothing is added |
| Carts.DropProductAppend | controllers/cartController.js:395-397 | removing a product from two runs of lines is removing it from each, so the kept lines keep their order and their repeats |
| Carts.DropProductOne | controllers/cartController.js:395-397 | a single line is removed exactly when its product prints as the id |
| Carts.DropAbsentKeeps | controllers/cartController.js:395-397 | removing a product no line prints as keeps every line in place |
| Carts.RemoveFromCart | controllers/cartController.js:380-408 | an error exactly without a user, without an id or without an active cart (404), changing nothing; otherwise the cart's lines for the product go and nothing else changes |
| Carts.ClearCart | controllers/cartController.js:411-431 | an error exactly without a user or an active cart, changing nothing; otherwise the cart keeps no line |
| Carts.RemoveAndClearKeepOneActive | controllers/cartController.js:380-431 | removing and clearing keep one active cart per user, and after a clear the view is empty with total 0 |
| OrderHandlers.ParseStatus | models/orderModel.js:60-64 | a parsed status is the one the string names |
| OrderHandlers.StatusNamesRoundTrip | models/orderModel.js:60-64 | each status is named by exactly one string, which parses back to it |
| OrderHandlers.OnlyCancelledOutsideEnum | models/orderModel.js:65-69 | of the payment values the handlers write, exactly "Cancelled" is outside the enum |
| OrderHandlers.NewLine | models/orderModel.js:10-26 | a new line keeps product, quantity and price, and both flags start false |
| OrderHandlers.SubtotalAppend | controllers/orderController.js:174-197 | the subtotal of two line lists together is the sum of their subtotals |
| OrderHandlers.SubtotalNonNegative | controllers/orderController.js:174-197 | lines with non-negative prices and quantities have a non-negative subtotal |
| OrderHandlers.GroundFee | controllers/orderController.js:203-207 | the ground fee is one of 0, 10, 20, 30, and is 0 exactly from 500 up |
| OrderHandlers.OvernightFee | controllers/orderController.js:208-213 | the overnight fee lies between 15 and 49 and is always above the ground fee |
| OrderHandlers.FeeFor | controllers/orderController.js:203-216 | each method charges its own column |
| OrderHandlers.PlacementMethod | controllers/orderController.js:203-208 | placement knows ground and overnight exactly for the strings that lowercase to "ground" and "overnight" |
| OrderHandlers.UpdateMethod | controllers/orderController.js:360-370 | the update knows ground and overnight exactly for the strings "Ground" and "Overnite" |
| OrderHandlers.MethodSpellings | controllers/orderController.js:360-370 | the two handlers agree only on "Ground": no string is overnight for both, and the lowercase names placement accepts are unknown to the update |
| OrderHandlers.LinePrice | controllers/orderController.js:186 | a line is priced at the caller's tier price, or 0 when the product has none |
| OrderHandlers.Snapshot | controllers/orderController.js:177-197 | one order line per cart line, with its product and quantity, the tier price and both flags false |
| OrderHandlers.SnapshotLoop | controllers/orderController.js:174-197 | the loop builds exactly the snapshot and its subtotal |
| OrderHandlers.PlaceChecks | controllers/orderController.js:31-216 | placement passes exactly with a caller, all fields, a "pm_" payment method, a non-Admin caller, a stored user, a payment method the gateway accepts, a usable cart whose products exist, a known shipping method and valid lines |
| OrderHandlers.PlaceOrder | controllers/orderController.js:19-291 | with the admin mail delivered, success exactly when the checks pass; a failure writes nothing and keeps the check's status and message; products and users never change |
| OrderHandlers.PlaceOrderWrites | controllers/orderController.js:172-283 | a placed order has one line per cart line at the tier price, amount = subtotal − discount + fee on that base, status Pending and payment Unpaid; the cart is deactivated and nothing else changes |
| OrderHandlers.Rank | controllers/orderController.js:323-327 | Pending is the only status at rank 0 |
| OrderHandlers.TransitionsAdvance | controllers/orderController.js:323-335 | every allowed transition names an enum status, moves strictly forward, and leaves neither Delivered nor Cancelled |
| OrderHandlers.EffectiveDiscount | controllers/orderController.js:352 | a passed non-zero discount is used; a missing or zero one falls back to the stored discount |
| OrderHandlers.UpdateFee | controllers/orderController.js:355-377 | when the fee is recomputed it comes from the exact-spelling table on the new base; otherwise it is the passed fee |
| OrderHandlers.NewPaid | controllers/orderController.js:386-460 | "Cancelled" is written exactly when cancelling an order with an intent; Paid and Rejected exactly when the payment is confirmed and the gateway reports success or not; nothing otherwise |
| OrderHandlers.UpdateChecks | controllers/orderController.js:293-383 | a pass means a stored order, an Admin caller, an allowed transition, a known fee method when the fee is recomputed and no gateway error; no id is a 400, a missing order a 404, and a non-Admin caller a 500 |
| OrderHandlers.UpdateOrder | controllers/orderController.js:293-600 | with the customer mail delivered: a failed check keeps its status and message and changes nothing; a success changes only the named order |
| OrderHandlers.UpdateAmount | controllers/orderController.js:339-377 | the stored amount is Σ price × quantity of the new lines − the effective discount + the fee; a recomputed fee is stored and otherwise the stored fee is kept |
| OrderHandlers.UpdateFollowsTransitions | controllers/orderController.js:323-335 | the status changes exactly when one is passed, only along an allowed transition, never backward, and never out of Delivered or Cancelled |
| OrderHandlers.UpdatePaymentDecision | controllers/orderController.js:403-489 | entering Processing or Delivered with an intent and no payment yet stores Paid exactly when the gateway reports success and Rejected otherwise; a gateway error writes nothing |
| OrderHandlers.CancelWithIntentFails | controllers/orderController.js:388-400 | cancelling an order that has an intent writes "Cancelled", which the enum refuses: a 500 and no change |
| OrderHandlers.CancelWithoutIntent | controllers/orderController.js:388-400 | without an intent a cancel succeeds and leaves the payment state alone |
| OrderHandlers.ZeroDiscountFallsBack | controllers/orderController.js:344-378 | a passed discount of 0 is stored but the amount uses the old discount, so amount ≠ subtotal − stored discount + fee |
| OrderHandlers.PassedFeeNotStored | controllers/orderController.js:355-378 | a passed fee without a passed method enters the amount but the stored fee stays the old one |
| OrderHandlers.PlacedMethodBlocksRecompute | controllers/orderController.js:358-373 | an order placed with a lowercase method cannot have its fee recomputed: an update passing neither method nor fee is a 400 |
| OrderHandlers.StockCheck | controllers/orderController.js:626-636 | the check passes exactly when every line's product exists with enough stock; the first line that fails decides: 400 when its stock is short, and for a missing product 404 on passed lines but 500 on the order's own populated lines |
| OrderHandlers.DeductOne | controllers/orderController.js:639-644 | only the line's product changes, only in stock, and only when the stock covers the quantity |
| OrderHandlers.Deduct | controllers/orderController.js:638-645 | no product is added or removed |
| OrderHandlers.DeductFrame | controllers/orderController.js:638-645 | the decrements change only stock, only of named products, and never make a changed stock negative |
| OrderHandlers.DeductExact | controllers/orderController.js:626-645 | after a passed check, with no product on two lines, each product loses exactly what the lines ask of it |
| OrderHandlers.DuplicateLinesSkipDecrement | controllers/orderController.js:626-645 | two lines of 2 against a stock of 3 both pass the check, and the order is accepted with 1 left although 4 were asked |
| OrderHandlers.AcceptOrder | controllers/orderController.js:603-694 | a failure changes nothing; only orders and product stock can change; a non-Admin caller is a 403; a success needs a stored Pending order |
| OrderHandlers.DeletedProductFailsAccept | controllers/orderController.js:617-629 | accepting an order on its own lines when the first line's product was deleted is a 500 that changes nothing |
| OrderHandlers.AcceptAllOrNothing | controllers/orderController.js:608-657 | an accept succeeds exactly when every line passes the stock check, and a failed check keeps its status; on success the products are the guarded decrements, the status is the passed one or Processing, the lines are stored and the amount is not recomputed |
| Requests.OrderLevelStatus | controllers/requestController.js:490-511 | Pending exactly when some item is Pending; Processing exactly when some is Processing and none Pending; Completed exactly for a non-empty list of Completed items; Rejected exactly when every item is Rejected, the empty list included |
| Requests.StatusFoldsAgree | models/requestsModel.js:110-130 | on a non-empty list the pre-save hook's fold gives the same status as the listings' fold |
| Requests.PreSave | models/requestsModel.js:110-133 | the hook marks a request completed exactly when it already was or all its items are Completed, and changes nothing else |
| Requests.FirstLine | controllers/requestController.js:46-48 | the result is the first order line whose printed product id equals the request string, and none when no line's does |
| Requests.FirstItem | controllers/requestController.js:363-365 | the result is the first request item whose printed product id equals the request string, and none when no item's does |
| Requests.Holder | controllers/requestController.js:66 | none exactly when no request belongs to the order and user; otherwise one that does |
| Requests.File | controllers/requestController.js:66-89 | the items are appended to the (order, user) request, or to a new Pending one; no other request changes |
| Requests.Flag | controllers/requestController.js:91-92 | after an ask exactly the asked flag is set, and nothing else changes |
| Requests.AskChecks | controllers/requestController.js:9-63 | a pass means a caller, readable ids, no duplicate request, a stored order holding the product, and a first line of the product with neither flag |
| Requests.FlagLine | controllers/requestController.js:91-93 | only the given line of the given order changes, by being flagged |
| Requests.AskForLine | controllers/requestController.js:9-210 | an error exactly when a check fails, keeping its status and message and changing nothing |
| Requests.FileOneItem | models/requestsModel.js:100-102 | filing one item appends it, and the request's total grows by price × quantity |
| Requests.AskFlagsLine | controllers/requestController.js:91-93 | a successful ask flags exactly the first line of the product for its kind and leaves every other line and order alone |
| Requests.AskFilesItem | controllers/requestController.js:66-89 | a successful ask files one Pending item with the line's quantity and price in the (order, user) request, whose total grows by price × quantity |
| Requests.FlagKeepsExclusive | controllers/requestController.js:91-92 | flagging a line keeps every line flagged at most once |
| Requests.AskKeepsExclusive | controllers/requestController.js:53-93 | no ask ever leaves a line both refunded and replaced |
| Requests.FlagKeepsFirstLine | controllers/requestController.js:46-48 | flagging a line does not change which line is the first of a product |
| Requests.AskOnlyOnce | controllers/requestController.js:25-63 | after a successful ask, asking again for the same product of the same order, of either kind, is a 400 |
| Requests.FlaggedLineRefused | controllers/requestController.js:53-63 | an ask whose first line of the product carries a flag is a 400 |
| Requests.DuplicateRefusesFirst | controllers/requestController.js:25-38 | a request of the (order, user) pair holding the product and an item of the kind refuses the ask with 400, whatever the order holds |
| Requests.CompletedRequestStaysCompleted | controllers/requestController.js:77-80 | a Completed request that receives a new item stays Completed while the listings fold its items to Pending |
| Requests.OpenLines | controllers/requestController.js:227-229 | exactly the lines with neither flag are kept, and nothing is added |
| Requests.FlagOpen | controllers/requestController.js:263-266 | every open line is flagged for the kind and the others are left as they were |
| Requests.OrderItems | controllers/requestController.js:238-244 | one Pending item per open line, with its product, quantity and price |
| Requests.AskForOrder | controllers/requestController.js:213-280 | no id is a 400; success exactly for a stored order with open lines; a success flags every open line and files one item per open line in the (order, user) request; a failure changes nothing |
| Requests.FlagOpenCloses | controllers/requestController.js:263-266 | afterwards no line is open, and no line becomes flagged twice |
| Requests.AskForOrderCloses | controllers/requestController.js:227-268 | every line that was open carries the kind's flag, every other line is unchanged, and none is open |
| Requests.AskForOrderKeepsExclusive | controllers/requestController.js:263-266 | asking for a whole order keeps every line flagged at most once |
| Requests.AskForOrderOnlyOnce | controllers/requestController.js:231-237 | asking for the same order again, of either kind, finds nothing open: 400 |
| Requests.StoredReason | models/requestsModel.js:32-35 | a stored reason is trimmed, a trimmed reason is stored as sent, and the stored reason is empty exactly when the sent one is blank |
| Requests.Decided | controllers/requestController.js:376-377 | the decided item is processed and keeps its product, kind, quantity and price; accepting sets Approved and keeps the reason, rejecting sets Rejected with the sent reason as the schema stores it, or none when none is sent |
| Requests.Settle | controllers/requestController.js:379-384 | only the decided item changes; with nothing pending the request becomes Completed, otherwise its status is kept |
| Requests.Decide | controllers/requestController.js:350-437 | a success exactly when the product id is given and the request exists with a Pending first item of the product; then only that request changes, by deciding that item |
| Requests.DecideEffect | controllers/requestController.js:363-386 | items of other products are untouched, and the request is Completed afterwards exactly when nothing is pending or it already was |
| Requests.LaterItemShadowed | controllers/requestController.js:363-373 | once the first item of a product is decided, a later Pending item of it stays Pending and a second decision is a 400 |
| Requests.FirstItemAfterUpdate | controllers/requestController.js:363-365 | replacing an item by one of the same product keeps the first match |
| Requests.UpdateItemStatus | models/requestsModel.js:158-172 | success exactly for an existing item and an item status; only that item changes, its notes only when some are given, it is processed for Completed or Rejected, and the hook then runs |
| Videos.MaxOrder | controllers/videoController.js:132 | none exactly when there is no video; otherwise the greatest order, held by some video |
| Videos.BumpedInjective | controllers/videoController.js:138-141 | the shift keeps distinct orders distinct and leaves the target order free |
| Videos.ShiftFrom | controllers/videoController.js:138-141 | every video at or after the order moves up one; nothing else changes |
| Videos.NewPosition | controllers/videoController.js:130-134 | a given order is kept; otherwise one past the greatest order, or 1 in an empty store |
| Videos.CreateVideo | controllers/videoController.js:107-172 | an empty title or url is a 400 that changes nothing; success exactly for a title and url that are non-empty, match the pattern and do not trim to nothing; a success stores the video at its position after shifting the others when an order was given |
| Videos.AppendKeepsRanked | controllers/videoController.js:130-134 | appending one past the greatest order keeps the orders a permutation of 1..n |
| Videos.InsertKeepsRanked | controllers/videoController.js:136-142 | inserting at an order in 1..n+1 after the shift keeps the orders a permutation of 1..n |
| Videos.CreateKeepsRanked | controllers/videoController.js:128-153 | a successful create, at the end or at an order in 1..n+1, keeps the orders a permutation |
| Videos.BlankTitleShiftsThenFails | models/videoModel.js:5-9 | a title of spaces passes the handler's check, shifts the others, then fails the schema with a 500 that leaves them shifted |
| Videos.ShiftedInjective | controllers/videoController.js:204-225 | the move keeps distinct orders of the others distinct and leaves the target order free |
| Videos.Move | controllers/videoController.js:204-225 | the moved video is not touched by the shift; every other video moves by the move's rule |
| Videos.UpdateVideo | controllers/videoController.js:174-257 | an id that is not an ObjectId is a 500 that changes nothing; a success patches a stored video after shifting the others when its order changes |
| Videos.MoveKeepsRanked | controllers/videoController.js:204-225 | moving a video to an order in 1..n keeps the orders a permutation |
| Videos.UpdateKeepsRanked | controllers/videoController.js:204-257 | a successful update whose order, if any, is in 1..n keeps the orders a permutation |
| Videos.UpdateCanUnpublishBelowMinimum | controllers/videoController.js:227-240 | an update can unpublish a video while two or fewer are published, leaving fewer |
| Videos.Close | controllers/videoController.js:286-291 | the video goes and every video after its order moves down one |
| Videos.DeleteVideo | controllers/videoController.js:259-306 | a delete succeeds exactly for a stored video that is unpublished or leaves more than two published; a success closes the gap and a failure changes nothing |
| Videos.DeleteKeepsRanked | controllers/videoController.js:286-291 | deleting keeps the orders a permutation of 1..n−1 |
| Videos.DeleteKeepsMinimum | controllers/videoController.js:272-282 | deleting never leaves fewer than two published videos when there were at least two |
| Videos.ToggleVideo | controllers/videoController.js:345-391 | success exactly for a stored video when the request publishes or more than two are published; only that video changes, and only its flag, which a missing value leaves alone |
| Videos.ToggleKeepsMinimum | controllers/videoController.js:360-370 | toggling never leaves fewer than two published videos when there were at least two |
| Videos.IncrementViews | controllers/videoController.js:417-430 | an error exactly for an id that is not an ObjectId; only the named video, if stored, gains one view |
| Videos.Cast | controllers/videoController.js:316-326 | each body string is cast to an id, and none where the cast fails |
| Videos.Reorder | controllers/videoController.js:316-328 | only orders change, and no video is added or removed |
| Videos.ReorderLastNamed | controllers/videoController.js:316-328 | a video ends with one past the last index that names it |
| Videos.ReorderUnnamed | controllers/videoController.js:316-328 | a video no index names keeps its document |
| Videos.ReorderVideos | controllers/videoController.js:308-343 | anything but an array is a 400 that changes nothing; otherwise the valid updates land, and the reply succeeds exactly when every id casts |
| Videos.ReorderRanks | controllers/videoController.js:316-328 | a list naming every video once numbers them 1..n |
| Videos.ReorderVideosRanks | controllers/videoController.js:308-343 | a body naming every video once succeeds and numbers the videos 1..n |
| Videos.ListedAt | controllers/videoController.js:316-328 | with every video listed once, each video ends at one past its index |
| Videos.Sorted | controllers/videoController.js:401 | exactly the given videos, in listing order |
| Videos.LimitCount | controllers/videoController.js:402 | never more than there are; a limit of 0 returns all; any other limit returns all or exactly |limit| |
| Videos.PublicVideos | controllers/videoController.js:393-415 | as many published videos as the limit, two by default, allows, in order, and every published video left out comes after every one returned |
| Tags.ImageOf | controllers/tagController.js:165-167 | an image is kept exactly when it is given and non-empty; otherwise it is cleared |
| Tags.CreateTag | controllers/tagController.js:6-37 | a missing or empty name is a 400; success exactly for a name that trims to something no other tag holds, and, for a featured tag, fewer than ten featured; a success stores the trimmed name; a failure changes nothing |
| Tags.CreateKeepsInvariants | controllers/tagController.js:14-29 | creating keeps tag names unique and at most ten tags featured |
| Tags.PaddedNameIsDuplicate | controllers/tagController.js:14-17 | a stored name padded with spaces is refused as a duplicate |
| Tags.Without | controllers/tagController.js:180 | every copy of the name goes and every other tag keeps its count |
| Tags.PullAll | controllers/tagController.js:214-217 | every product loses every copy of the name, and no product is added or removed |
| Tags.RenameAll | controllers/tagController.js:177-184 | products carrying the old name are renamed and the others are left alone |
| Tags.RenamedCounts | controllers/tagController.js:180-181 | a rename drops every copy of the old name and adds one more copy of the new one, leaving other tags alone |
| Tags.RenameDuplicatesTag | controllers/tagController.js:180-181 | renaming "a" to "b" on a product tagged both gives it "b" twice |
| Tags.UpdateChecks | controllers/tagController.js:124-164 | the checks pass exactly for a stored tag, a new name that trims to something no other tag holds, and room under the featured cap when the tag becomes featured |
| Tags.UpdateTag | controllers/tagController.js:124-192 | success exactly when the checks pass; a success writes the tag and renames the old name on every product that carries it; a failure changes nothing |
| Tags.UpdateKeepsInvariants | controllers/tagController.js:139-164 | updating keeps tag names unique and at most ten tags featured |
| Tags.UpdateRenamesEverywhere | controllers/tagController.js:177-184 | after a rename no product carries the old name, each one that did carries the new one, and the others are unchanged |
| Tags.DeleteTag | controllers/tagController.js:194-239 | success exactly for a stored tag; then the tag goes and its name is pulled from every product; a failure changes nothing |
| Tags.DeleteRemovesEverywhere | controllers/tagController.js:213-217 | after a delete no product carries the name and every other tag keeps its count |
| Tags.ListingOf | controllers/tagController.js:59-72 | the page is at least 1 and the limit at most 50, each kept when already in range; an unknown sort field becomes `createdAt`; the order is ascending exactly for "asc" in any case |
| Tags.SortOrderExamples | controllers/tagController.js:70-72 | "ASC" sorts ascending, "ascending" descending, and out-of-range paging is clamped |
| Slugs.Keep | models/blogModel.js:104 | only characters of `[a-z0-9\s-]` are left, and a text made of them is kept whole |
| Slugs.Hyphenate | models/blogModel.js:105 | no whitespace is left, the slug alphabet is kept, and a text without whitespace is unchanged |
| Slugs.Collapse | models/blogModel.js:106 | no double hyphen is left, the slug alphabet is kept, and the first character is kept |
| Slugs.CollapseOfSingle | models/blogModel.js:106 | a text without double hyphens is unchanged |
| Slugs.Slug | models/blogModel.js:101-108 | a slug is made of slug characters only and has no double hyphen |
| Slugs.SlugIdempotent | models/blogModel.js:101-108 | the slug of a slug is itself |
| Slugs.SlugIgnoresCase | models/blogModel.js:103 | lowercasing the title first changes nothing |
| Slugs.SlugOfSlug | models/blogModel.js:101-108 | a text already made of slug characters, without double hyphens, is its own slug |
| Slugs.KeepAppend | models/blogModel.js:104 | the filter works piece by piece across a concatenation |
| Slugs.HyphenatePrefix | models/blogModel.js:105 | a whitespace-free prefix passes through unchanged |
| Slugs.HyphenateSpaceWord | models/blogModel.js:105 | one space before a lowercase word becomes one hyphen |
| Slugs.SlugKeepsEdgeHyphen | models/blogModel.js:107 | a title with a leading space keeps the leading hyphen, because `trim('-')` trims whitespace only |
| Slugs.SlugJoinsWords | models/blogModel.js:101-108 | two lowercase words joined by a space give the words joined by a hyphen |
| Slugs.SlugDropsPunctuation | models/blogModel.js:104 | trailing punctuation is dropped |
| Slugs.SpaceRunsAppend | models/blogModel.js:94 | runs of whitespace add up across a join where they do not touch |
| Slugs.PiecesOfJoin | models/blogModel.js:94 | joining two texts with one space adds their piece counts |
| Slugs.OneWord | models/blogModel.js:94 | a text without whitespace is one piece |
| Slugs.ReadingTime | models/blogModel.js:91-96 | 0 for missing or empty content; otherwise the least number of minutes at 200 pieces a minute that covers the pieces of a whitespace split |
| Slugs.TrailingSpaceCounts | models/blogModel.js:94-95 | a trailing newline adds one piece, so exactly 200 words and a newline read as two minutes |
| Slugs.PagingOf | controllers/blogController.js:147-150 | there is a previous page exactly after page 1; with a positive limit a next page exactly below the page count; a zero limit has a next page exactly when there is anything; a negative limit uses the non-positive ceiling |
| Slugs.HasNextMeansMore | controllers/blogController.js:149 | with a positive limit there is a next page exactly when items lie beyond the current one |
| Blogs.ParseStatus | models/blogModel.js:35-39 | a status text is accepted exactly when it is one of "draft", "published", "archived", each mapped to its own status |
| Blogs.CreatePost | controllers/blogController.js:7-85 | a missing or empty title or content is the 400 "Title and content are required"; a post is created exactly when the author exists, the slug of the title as sent is free, the validators pass and the slug of the trimmed title is free as well; it is stored under the trimmed title with `publishedAt` set only when published, and a failure changes nothing |
| Blogs.CreateKeepsUniqueSlugs | models/blogModel.js:10-16 | creating a post keeps every slug unique, and a created post has a `publishedAt` exactly when it is published |
| Blogs.PaddedTitleCollidesAtSave | controllers/blogController.js:39-53 | a title " w" whose slug "-w" is free passes the duplicate check, and when "w" is taken the save fails with 500 instead of the duplicate-title 400 |
| Blogs.CollidesAtSave | models/blogModel.js:99-108 | whenever the raw slug is free but the slug of the trimmed title is taken, creation ends in 500 |
| Blogs.NewSlug | controllers/blogController.js:245-260 | a retitle's slug comes from the title and overrides a sent slug; otherwise a sent slug is stored lower-cased and trimmed, and without one the slug is kept |
| Blogs.Updated | controllers/blogController.js:232-273 | every field sent replaces the stored one (author, view count, excerpt within 300 characters, status) and fields left out are kept; the slug is the update's slug; a move into published stamps `publishedAt` with the time, and otherwise a sent `publishedAt` is stored |
| Blogs.UpdatePost | controllers/blogController.js:229-280 | an update succeeds exactly when the id is a valid stored post, the caller may edit it, a retitle's slug is not used by another post, the validators pass and a slug it writes belongs to no other post; a sent slug held by another post is refused by the unique index with 500; the stored post is then replaced by the updated one, and a failure changes nothing |
| Blogs.UpdateKeepsUniqueSlugs | controllers/blogController.js:245-260 | an update never makes two posts share a slug |
| Blogs.RepublishRestamps | controllers/blogController.js:263-266 | re-publishing an archived post that was published before overwrites its `publishedAt` with the new time |
| Blogs.AdminRoleCannotEdit | controllers/blogController.js:240-243 | a caller with the application's "Admin" role who is not the author is refused with 400, since the check compares with lower-case "admin" |
| Blogs.RetitleKeepsEdgeHyphen | controllers/blogController.js:245-258 | retitling to " w" stores the slug "-w": the update path does not trim the title before slugging, and `trim('-')` strips no hyphen |
| Blogs.DeletePost | controllers/blogController.js:282-305 | a delete succeeds exactly when the id is a valid stored post the caller may edit, and then removes only that post; a failure changes nothing |
| Blogs.Matches | controllers/blogController.js:165 | the posts found are exactly those whose slug is the lookup text lower-cased and trimmed by the slug path's setters, restricted to published ones for the public lookup |
| Blogs.ViewPost | controllers/blogController.js:160-207 | the lookup is 404 exactly when nothing matches; otherwise it returns a post whose slug is the normalized lookup text and adds one to its view count and to nothing else |
| Blogs.PublicViewOnlyPublished | controllers/blogController.js:160-207 | with unique slugs, a lookup under any text that lower-cases and trims to a post's slug finds it publicly exactly when it is published, and the admin lookup always finds it |
| Users.RegisterChecks | controllers/userController.js:36-72 | the eighteen validations of `register` in source order; a missing business type always fails the business-type check after it, and the last check is the email format |
| Users.LastFailing | controllers/userController.js:36-72 | no index exactly when no check fails; otherwise the index of a failing check after which none fails |
| Users.RegisterError | controllers/userController.js:36-76 | no message exactly when every check passes, and then the name, a well-formed email, the phone, a known business type and a matching password of at least six characters are all given |
| Users.InvalidEmailWins | controllers/userController.js:67-71 | a badly formed email is reported as "Invalid email format" whatever else is wrong |
| Users.TypeRequiredNeverReported | controllers/userController.js:49-52 | "Business type is required" is never the reply, because the business-type check after it always overwrites it |
| Users.Register | controllers/userController.js:12-204 | a validation failure is its 400 message; a taken lower-cased email is 401; registration succeeds exactly when the checks pass and neither the email nor the phone is taken, and adds only the new user, pending, unassigned, with no code and the business type as role |
| Users.LoginMatches | controllers/userController.js:214-231 | the users a login identifier finds are exactly those whose email equals it ignoring case when it holds an '@', or whose phone equals it exactly |
| Users.First | controllers/userController.js:225-231 | the lookup answers nothing exactly for no match, and otherwise one of the matches before all others |
| Users.Login | controllers/userController.js:207-302 | a missing identifier or password is 401; login succeeds exactly when the first user found from the trimmed identifier is approved and its password hash accepts the password, and it answers an approved user |
| Users.EmailMatches | controllers/userController.js:311-315 | the users an email finds are exactly those whose email equals it ignoring case |
| Users.ForgotPassword | controllers/userController.js:304-352 | with the reset mail delivered, a code is stored exactly when an email is given and finds a user; it goes on the first user found, expires two minutes after `now`, and nothing else changes |
| Users.ResetPassword | controllers/userController.js:401-440 | the reset succeeds exactly when email, code and new password are given and the code of the first user found matches and has not expired; it then sets the new password, clears the code, and changes nothing else |
| Users.CodeKeepsEmailMatches | controllers/userController.js:324-326 | storing a code on a user leaves the set of users an email finds unchanged |
| Users.ForgotThenReset | controllers/userController.js:324-325 | the emailed code resets the password exactly until two minutes have passed |
| Users.CodeIsSpent | controllers/userController.js:430-431 | after one reset the same code is refused with 401 |
| Users.Named | controllers/userController.js:578-586 | the body's user id is accepted exactly when given, well formed and stored, and it names that user |
| Users.Approve | controllers/userController.js:575-615 | with the approval mail delivered, approval succeeds exactly for a named pending account, and then only that account's status becomes approved |
| Users.Reject | controllers/userController.js:619-676 | rejection succeeds for any named account and sets its status back to pending with the reason, or "No reason provided", and changes nothing else |
| Users.RejectThenApprove | controllers/userController.js:646-649 | a rejected account can still be approved afterwards |
| Users.LoginMatchesKept | controllers/userController.js:225-231 | a change that keeps a user's email and phone keeps what every login identifier finds |
| Users.RegisteredCannotLogIn | controllers/userController.js:233-238 | a freshly registered account is refused with 404 "Account not verified" whatever the password |
| Users.ApproveThenLogin | controllers/userController.js:233-243 | once approved, an account found by the identifier logs in with a password its hash accepts |
| Users.Unassign | controllers/userController.js:716-722 | every customer assigned to the sales person loses the assignment; roles, keys and every other field stay as they were |
| Users.UpdateRole | controllers/userController.js:680-745 | a role change succeeds exactly for a given known role and a stored user; it sets that role, clears the user's own assignment when moving into or out of the sales role, unassigns every customer of a new sales person, and changes no other role |
| Users.Assign | controllers/userController.js:747-800 | an assignment succeeds exactly when the sales person is stored with the sales role and the customer is stored without it; only that customer's assignment changes |
| Users.RoleAndAssignKeepSalesPeopleUnassigned | controllers/userController.js:710-714 | role changes and assignments never leave a sales person assigned to someone |
| Users.AssignKeepsAssignmentsValid | controllers/userController.js:758-791 | an assignment keeps every assignment pointing at a sales person |
| Users.PromoteKeepsAssignmentsValid | controllers/userController.js:712-722 | promoting a user to sales person keeps every assignment pointing at a sales person |
| Users.DemotionStrandsCustomers | controllers/userController.js:712-722 | demoting a sales person who has a customer leaves that customer assigned to a user who is no longer a sales person |
| Users.RejectedNeverWritten | models/userModel.js:50-55 | registration, approval and rejection never produce the "rejected" status |
| Users.RoleAndAssignKeepNoneRejected | controllers/userController.js:704-722 | role changes and assignments never produce the "rejected" status either |

## Left out

- Express routing, middleware, JWT signing and verification: framework plumbing; the caller's id and role are parameters.
- bcrypt hashing and comparison: opaque; a hash is an input and the comparison is a function parameter.
- Stripe, nodemailer, Mailchimp, S3 and PDF rendering: outside services; what the gateway answers is a parameter, and every mail and newsletter call is assumed to succeed. A failed `sendMail` rethrows (utils/mailer.js:178-181), so each handler below answers 500 after the writes it already made; the lines that follow name what the model therefore does not promise.
- OrderHandlers.PlaceOrder: a failed admin mail (controllers/orderController.js:251) comes after the order is created (:234) and before the cart is deactivated (:283-284), so the order stays stored, the cart stays active and the answer is 500.
- OrderHandlers.UpdateOrder: a failed status mail (controllers/orderController.js:520-580) comes after the order write (:489), so the change stays stored and the answer is 500.
- OrderHandlers.AcceptOrder: a failed confirmation mail (controllers/orderController.js:672) comes after the decrements and the order write (:638-658), so both stay and the answer is 500.
- Users.ForgotPassword: a failed reset mail (controllers/userController.js:331) comes after the code is saved (:327), so the code stays stored and the answer is 500.
- Users.Approve: a failed approval mail (controllers/userController.js:596) comes after the account is approved (:593), so it stays approved and the answer is 500.
- A Stripe customer that fails to be created during `register`: the gateway is assumed to answer.
- `Date.now` and dates in general: timestamps are integer parameters (`now`); `approvedAt` and `createdAt` fields are not kept.
- The random reset code of `forgotpassword` and the random `productId` of `createProduct` (controllers/productController.js:266-275): the code and the new id are inputs.
- Concurrency: each request is one atomic sequential step; `Promise.all` in `updateVideoOrder` is applied in array order, and the unique-index race between the lookup and the insert of `register` is not modelled.
- Mongo query mechanics: `$text` relevance, `$lookup`, `populate`, regex search and skip/limit paging. `findOne` answers the match with the least id, and ties in `sort` by display order are broken by id.
- Float rounding (`toFixed`, `Math.round`): money is `real`, and rounding does not change any decision modelled here.
- In-memory caches (categories, special products, category children) and their invalidation: timing only.
- The franchise `CustomerOrder` log written by `placeOrder`: a side record no decision reads.
- `rejectOrder`, `updatePaymentStatus`, `getAllOrders`, `getOrderById`, `updateOrderStatus` and `approveOfferAndCharge`: unrouted or read-only; `approveOfferAndCharge` refers to an undefined `Offer`. `updateTrackingId` only stores a string.
- `bulkUpdatePricingPercentages`: it calls a nonexistent `recalculatePrices`.
- The legacy branch of `getCart` that reads a line's `_id` as its product id: the lines of the model always name their product.
- The YouTube id pattern of the video model: whether a url matches is an input (`urlMatches`); `thumbnail` is not kept.
- `getVideoById`, `getAllVideos` and their paging: read-only listings.
- `parseInt` of a non-numeric limit (NaN) in `getPublicVideos`: the limit is an integer parameter.
- `getAllRequests` and `getAllRequestsAdmin` beyond the status fold: listing mechanics.
- `getTags` and `getFeaturedTags`: read-only listings.
- The category and tag aggregations of the blog, related posts and the filters of `getAllBlogs`: read-only listings; only their paging flags are modelled.
- Request fields that are not strings (a number or an object where a name is expected makes `trim` throw, answered 500): every text field is a string or absent.
- `Boolean("false")` in the product handlers: boolean fields are booleans.
- The products `deleteMany({ parentId })` removes when a parent product is deleted: the product schema declares no `parentId`, so what the query matches depends on the driver's strict-query setting; the matched set is an input of `ProductHandlers.DeleteProduct`.
- OrderHandlers.StockCheck: the 404 and 400 messages are abbreviated to "Product not found" and "Insufficient stock"; the handler's own name the product id, or its name, stock and the quantity asked, which the model does not format.
- Blogs.UpdatePost: of the request body only the fields the model keeps are modelled; a sent author that is not an ObjectId, and a view count that is not a natural number, are not.
- Carts.UpdateCart: quantities are whole numbers; a fractional `qty` of at least 1, which the cart schema's `min: 1` accepts (models/cartModel.js:10-14), and a `qty` that is not a number are not modelled.
- Product tags are kept as a map of their own beside the product store: only the tag handlers read or write them.
- Non-ASCII letters: `toLowerCase` is modelled on ASCII letters only and leaves every other character unchanged; Unicode case mapping is outside the model.
- The message of a CastError answered by the video and request handlers: abbreviated to the generic server error; in the category handlers, to "Cast to ObjectId failed".
- User fields that no decision reads (address, company, files, payment methods) and the business type as a field apart from the role.
- `updatePassword`, `getAllUsers`, the profile handlers and the sales-person listing: not among the rules modelled.
- Dashboard aggregations, brand and website-info handlers, migrations and maintenance scripts: outside the core.
- Csv.ToNumber: reals are exact: a literal beyond the double range ("1e400", or some 310 digits) is Infinity in JavaScript, which `toNumber` answers as undefined, while the model reads its exact value; smaller literals are not rounded to a double either.
- Csv.Number: its contract states the empty text and the radix literals; what it reads from decimal digits, a dot, a sign and an exponent is stated by the lemmas around it (`Csv.NumberOfDigits`, `Csv.NumberReadsExponent`, `Csv.NumberExamples`).
