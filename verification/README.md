# gameBit marketplace core in Dafny

This project models the server core of gameBit, a second-hand gaming and tech marketplace. Trades in gameBit can go through an escrow agent. The model covers:

- **Transactions**: the escrow deal state machine. A buyer opens a deal on an active listing. Anyone may ask for escrow, since the code has no actor check there, and the seller accepts or declines. An administrator assigns an approved escrow agent. Then come payment, proof upload, shipping and delivery. Disputes are possible, and the assigned agent resolves the deal.
- **Chats**: get-or-create conversations between two users, scoped to a deal and/or a listing. Only participants may read, and read receipts are batched.
- **Users and roles**: the seller and escrow-agent capability cycle (none → pending → approved, with rejection back to none), profile edits and blacklisting.
- **Access**: the role middleware and the guard chain every route registers, including route-order precedence for product reads.
- **Products**: listing creation, moderation, owner edits forcing re-moderation, soft delete, view counting, the public catalogue filter, pagination, and seller-profile counts.
- **Categories**: the category tree with parent/subcategory links kept consistent in both directions, and the recursive seed script.
- **Uploads**: the Cloudinary helpers, namely public-id extraction, the file filter, upload limits and the resource-type choice.
- **Client**: the browser's page guard and its role-priority dashboard dispatcher.

Every store is a `map<Id, Record>` and every handler is a pure function returning `Result<…>`. A handler's error paths return before anything is saved, so a failed call leaves the store unchanged. Clocks become a `now: Time` parameter, the authenticated caller becomes an id parameter, and uploaded files become opaque URL sequences. Mongo validation failures and thrown exceptions are `ServerError` (HTTP 500), as the handlers' catch blocks report them.

Module layout, one module per file:

| module | what it holds |
|---|---|
| `Common` | `Option`, `Result`, `Error`, the JavaScript truthiness tests for text and number fields, `OrNull`, ASCII lower-casing, fresh ids |
| `Sorting` | sorting by a numeric key or by name, as the listing endpoints order their results |
| `Users` | `User.js`, application/approval/rejection, profile updates, blacklisting |
| `Access` | `roleMiddleware.js`, the route files' guard chains, route matching order |
| `Uploads` | `cloudinary.js`: `extractPublicId`, `fileFilter`, limits, upload options |
| `Products` | `Product.js`, `productController.js`, product moderation, seller-profile counts |
| `Transactions` | `Transaction.js`, `transactionController.js`, the analytics status set |
| `Chats` | `Chat.js`, `chatController.js` |
| `Categories` | `Category.js`, `categoryController.js` |
| `Seed` | `seedCategories.js` |
| `Client` | `ProtectedRoute.jsx`, `Dashboard.jsx` |

Where the documented design of the system and its code disagree, the model follows the code. Each such gap is stated as a lemma:

- `requestEscrow` has no actor check: anyone can request escrow on a negotiating deal. See `Transactions.RequestEscrowHasNoActorCheck`.
- The generic status setter, `confirmShipping`, `confirmDelivery`, `createDispute` and `resolveTransaction` never look at the current status. See `Transactions.SetStatusIgnoresCurrentStatus` and `Transactions.DisputeAfterCompletion`.
- The setter lets any user carrying the `escrowAgent` flag confirm shipping or delivery on any deal. The flag need not be approved, and the user need not be the deal's agent. See `Transactions.AnyAgentFlagMayConfirm`.
- The duplicate-deal check blocks only four early statuses. Because the setter can move a later deal back into one of them, two open deals for the same pair can coexist. See `Transactions.DuplicateCheckOnlyEarly` and `Transactions.SetterReopensDeal`.
- `escrow_declined` is in the enum but is never written: declining escrow returns the deal to `negotiating`. See `Transactions.EscrowDeclinedNeverWritten`.
- Admin routes, agent assignment and resolution do not require a verified email. See `Access.AdminRoutesAdmitExactlyAdmins` and `Access.ResolveAdmitsApprovedAgents`.
- `requireEmailVerification` is imported by the route files, but `server/middleware/authMiddleware.js` does not define it. The model takes it to mean "the caller's stored record has `isEmailVerified`".
- `server/server.js` mounts only the authentication routes, and `client/src/App.jsx` mounts neither the page guard nor the dashboard dispatcher. The model describes the routers and components as written, as if they were mounted.

## Model

| member | source | states |
|---|---|---|
| Common.OrNull | server/controllers/transactionController.js:376 | `x \|\| null`: the result is present exactly when the input is a non-empty string, and then it is that string |
| Common.Fresh | server/controllers/transactionController.js:93-99 | a newly inserted record gets an id distinct from, and larger than, every id in use |
| Common.NumberTruthy | server/controllers/productController.js:128 | a number field is truthy when it is non-empty text (a form field or a JSON string), "0" included, or a non-zero JSON number |
| Common.ToLower | server/utils/cloudinary.js:15 | ASCII lower-casing, character by character, keeping the length |
| Common.ToLowerFixes | server/utils/cloudinary.js:15 | a string without ASCII capitals is its own lower-casing, and lower-casing twice changes nothing more |
| Common.MinOf | server/controllers/chatController.js:54-61 | `findOne` among several matches returns one of them, the earliest inserted |
| Sorting.SortDesc | server/controllers/transactionController.js:30 | the result lists every given id exactly once, ordered by the sort key from newest to oldest |
| Sorting.SortByName | server/controllers/categoryController.js:5-7 | the result lists every given id exactly once, in ascending lexicographic order of name |
| Sorting.LexLeTotal | server/controllers/categoryController.js:7 | string order is total, so any two names can be compared |
| Sorting.LexLeTransitive | server/controllers/categoryController.js:7 | string order is transitive |
| Sorting.LexLeAntisymmetric | server/controllers/categoryController.js:7 | two names that are each no greater than the other are equal |
| Users.NewUser | server/models/User.js:21-45 | a new account with the schema's default for every optional field |
| Users.NewUserHasNoRole | server/models/User.js:30-42 | a new account holds neither role, has no application pending, is not an administrator, and its email is unverified |
| Users.Apply | server/controllers/userController.js:57-105 | applying fails NotFound for an unknown caller and BadRequest when already applied (pending or approved); otherwise it sets the applied flag and stamps the date, keeps the approval flag, and touches nothing else |
| Users.Approve | server/controllers/adminController.js:19-35 | approval fails NotFound unless the user exists and has applied; otherwise it sets only the approval flag of that role (the escrow-agent version at lines 70-86 is the same function) |
| Users.Reject | server/controllers/adminController.js:37-55 | rejection fails NotFound unless the user has applied; otherwise it clears the applied and approved flags and the application date of that role, and changes nothing else (the escrow version at lines 88-106 is the same function) |
| Users.ApplyStartsPending | server/controllers/userController.js:65-70 | a user holding no role who applies becomes pending |
| Users.CapabilityCycle | server/controllers/userController.js:65-70 | the full cycle: none → apply → pending → approve → approved, where applying again is refused; then reject → none, after which applying succeeds again |
| Users.RejectPendingAndReapprove | server/controllers/adminController.js:24-49 | rejecting a pending applicant returns them to none; re-approving an approved user changes nothing; approve and reject both fail NotFound for a user with no application |
| Users.RoleOperationsKeepConsistency | server/models/User.js:30-35 | apply, approve and reject all preserve "approved implies applied" across the whole store |
| Users.StaleApprovalSkipsReview | server/controllers/userController.js:65-70 | applying leaves the approval flag untouched, so a record that was approved without the applied flag becomes approved again without review |
| Users.RoleOperationsKeepIdentities | server/models/User.js:24-25 | role operations preserve uniqueness of email and username across the store |
| Users.ReplaceKeepsIdentities | server/models/User.js:24-25 | replacing a record with one that has the same email and username keeps both unique |
| Users.PendingApplicants | server/controllers/adminController.js:8-11 | the pending list holds exactly the users who applied for the role and are not yet approved (the agent list at lines 59-62 uses the same filter) |
| Users.EditProfile | server/controllers/userController.js:32-43 | a profile edit changes only names, phone, addresses and avatar |
| Users.EditProfileKeepsAbsentFields | server/controllers/userController.js:32-43 | an empty or absent first or last name keeps the old one; an absent phone, address map or avatar keeps the old value |
| Users.EditProfileWritesGivenFields | server/controllers/userController.js:32-43 | non-empty names are written; an empty phone becomes null and a non-empty one is stored; given addresses and avatar replace the old ones |
| Users.UpdateProfile | server/controllers/userController.js:23-45 | fails NotFound for an unknown caller; otherwise only the caller's record changes, to the edited profile |
| Users.UpdateProfileKeepsValidity | server/controllers/userController.js:32-45 | a profile update keeps a valid record valid (required names stay non-empty) and never changes a role capability |
| Users.UpdateUserStatus | server/controllers/adminController.js:232-255 | fails NotFound for an unknown user and 500 for a value the Boolean cast rejects; without a `blacklist` member the store is unchanged; a `null` is stored as null and a castable value as its boolean, and nothing else changes |
| Users.UpdateUserStatusIdempotent | server/controllers/adminController.js:242-246 | repeating a successful status update with the same body changes nothing further |
| Users.UpdateUserStatusKeepsInvariants | server/controllers/adminController.js:242-246 | a successful status update, whatever the body, keeps role consistency, the unique identities, every capability and the record's validity |
| Access.RequireRole | server/middleware/roleMiddleware.js:3-61 | a missing caller id gives 401 before any lookup; otherwise the check passes exactly when the user exists and holds the role, and fails 403 otherwise |
| Access.RoleChecksMatchCapabilities | server/middleware/roleMiddleware.js:18-61 | the seller and escrow-agent checks pass exactly for approved capability; seller-or-admin is the disjunction of the two checks |
| Access.PendingAndRejectedAreRefused | server/middleware/roleMiddleware.js:24-26 | a pending seller applicant and a rejected one are both refused 403 by the seller check |
| Access.RequireEmailVerification | server/models/User.js:42 | the email guard gives 401 without a caller and passes exactly for a stored user whose email is verified |
| Access.RunChain | server/routes/transactionRoutes.js:24-37 | a middleware chain passes exactly when every guard passes; otherwise it reports the first failing guard's error, and every guard before it passed |
| Access.RunChainCons | server/routes/transactionRoutes.js:24-37 | a chain stops at its first failing guard and otherwise continues with the rest |
| Access.PublicRoutesAdmitAll | server/routes/productRoutes.js:17-20 | product, category and seller-profile reads admit every request, signed in or not |
| Access.GuardedRoutesAuthenticateFirst | server/routes/transactionRoutes.js:24-37 | every non-public route fails 401 for a request without a token, whatever else it checks |
| Access.AdminRoutesAdmitExactlyAdmins | server/routes/adminRoutes.js:20-30 | admin routes, category writes and agent assignment admit exactly stored administrators, without any email check; a signed-in non-admin gets 403 |
| Access.VerifiedRoutesAdmitVerifiedCallers | server/routes/chatRoutes.js:13-17 | chat, profile, application and transaction routes admit exactly callers with a verified email, and answer a signed-in unverified caller with the email error |
| Access.ResolveAdmitsApprovedAgents | server/routes/transactionRoutes.js:37 | resolving admits exactly approved escrow agents, with no email check |
| Access.ProofUploadRunsUploadStep | server/routes/transactionRoutes.js:33 | proof upload passes only for a verified caller whose files the multi-file upload step accepts |
| Access.ProfileUpdateRunsAvatarStep | server/routes/userRoutes.js:16 | a profile update passes only for a verified caller whose file the single-file upload step accepts |
| Access.ProductUploadsNeedSellerOrAdmin | server/routes/productRoutes.js:22-23 | product create and update require a verified caller who is an approved seller or an admin, and files the upload step accepts |
| Access.ProductDeleteNeedsSellerOrAdmin | server/routes/productRoutes.js:24 | product delete requires a verified caller who is an approved seller or an admin |
| Access.ProductWritesCheckEmailFirst | server/routes/productRoutes.js:22-24 | an unverified caller gets the email error on product writes before the role check is reached |
| Access.FirstMatch | server/routes/productRoutes.js:17-20 | a router dispatches to the first registered pattern that matches the path, and finds none only when no pattern matches |
| Access.ProductReadPrecedence | server/routes/productRoutes.js:15-20 | "/search" in any letter case goes to the search handler and "/seller/<id>" with a non-empty id to the seller listing, both ahead of "/:id", which catches every other non-empty single segment |
| Access.FirstMatchAgrees | server/routes/productRoutes.js:17-20 | two paths that every route matches alike reach the same handler |
| Access.SlashMatches | server/routes/productRoutes.js:15 | the non-strict router ignores one trailing slash: a pattern without empty literals matches "p/" exactly when it matches "p" |
| Access.TrailingSlashIgnored | server/routes/productRoutes.js:15-20 | among the product reads, adding a trailing slash never changes the handler |
| Access.OneSegmentWithSlashIsProduct | server/routes/productRoutes.js:15-20 | "/x/" for a non-empty x other than "search" reaches the single-product handler |
| Access.SellerWithoutIdIsProduct | server/routes/productRoutes.js:19-20 | "/seller/" has no seller id, so it reaches the single-product handler with id "seller" |
| Access.Matches | server/routes/productRoutes.js:15 | a route pattern matches a path segment by segment, literals regardless of ASCII case, parameters only on non-empty segments, with one trailing slash allowed |
| Access.Chain | server/routes/transactionRoutes.js:24-37 | the middleware each route registers before its controller, in order (the other route files likewise) |
| Access.Step | server/middleware/roleMiddleware.js:3-61 | each middleware's verdict on a request: authentication, email verification, a role check, or a multer upload step |
| Access.BlacklistChangesNoStep | server/controllers/adminController.js:242-244 | the blacklist flag the admin writes is read by no middleware: after a status update every step answers as before |
| Access.BlacklistChangesNoChain | server/controllers/adminController.js:242-244 | a blacklisted user keeps every route they could reach: no guard chain answers differently |
| Uploads.Split | server/utils/cloudinary.js:75 | `split` always yields at least one part |
| Uploads.SplitHasNoSep | server/utils/cloudinary.js:75 | no part of a split contains the separator |
| Uploads.JoinSplit | server/utils/cloudinary.js:75 | joining the parts of a split with the separator gives back the original string |
| Uploads.SplitJoin | server/utils/cloudinary.js:75 | splitting a join of separator-free parts gives back those parts |
| Uploads.SplitAtSep | server/utils/cloudinary.js:75 | splitting at a separator splits the two sides independently |
| Uploads.SplitWithoutSep | server/utils/cloudinary.js:75 | a string without the separator splits into itself alone |
| Uploads.FolderParts | server/utils/cloudinary.js:78 | `slice(-3, -1)` keeps the two segments before the last, or fewer for a short URL |
| Uploads.ExtractPublicId | server/utils/cloudinary.js:72-83 | null for a missing or empty URL; otherwise the folder segments joined by "/", then "/", then the file name up to its first "." |
| Uploads.SplitTrailingSegments | server/utils/cloudinary.js:75-78 | the last three segments of a URL are the two folders and the file name |
| Uploads.BaseOfFile | server/utils/cloudinary.js:77 | the public id of "stem.ext" is the stem, for a stem without dots |
| Uploads.PublicIdOfStoredUrl | server/utils/cloudinary.js:72-79 | for a stored URL ".../a/b/stem.ext", the public id is "a/b/stem" |
| Uploads.ContainsIffOccurs | server/utils/cloudinary.js:14-16 | the unanchored regular-expression test is plain substring occurrence |
| Uploads.FileAccepted | server/utils/cloudinary.js:13-19 | a file passes the filter when both its lower-cased extension and its MIME type pass the pattern |
| Uploads.ExtensionOf | server/utils/cloudinary.js:15 | the extension of "stem.ext" is ext when ext has no dot |
| Uploads.ExtensionWithoutDot | server/utils/cloudinary.js:15 | a file name without a dot is its own extension |
| Uploads.AllowedAnywhere | server/utils/cloudinary.js:14 | any text containing an allowed type name passes the pattern |
| Uploads.ShortNeverMatches | server/utils/cloudinary.js:14 | a string shorter than every allowed type name never passes |
| Uploads.FilterIsUnanchored | server/utils/cloudinary.js:13-19 | a file is accepted whenever both its extension and its MIME type merely contain an allowed type name, such as extension "xpngx" |
| Uploads.UploadMultiple | server/utils/cloudinary.js:25-31 | the multi-file step accepts exactly at most 10 files, each in field "images", of at most 10 MiB and passing the filter, and then passes them through unchanged; otherwise it fails |
| Uploads.UploadSingle | server/utils/cloudinary.js:25-32 | the single-file step accepts no file, or one acceptable file in field "image", and fails otherwise |
| Uploads.UploadOptionsFor | server/utils/cloudinary.js:36-43 | the resource type is image exactly for MIME types starting with "image/", and only images get the resize transformation |
| Uploads.AcceptedUploadsStoredByKind | server/utils/cloudinary.js:13-19 | every allowed type word, sent as `<stem>.<word>` with its MIME type, passes the filter; the picture types are then stored as images resized to 1000x1000 and a PDF raw without transformation |
| Products.ParseProductStatus | server/models/Product.js:20-24 | a parsed status name names that status |
| Products.ProductStatusRoundTrip | server/models/Product.js:20-24 | every one of the five statuses parses back from its name |
| Products.ParseCondition | server/models/Product.js:12-17 | a parsed condition name names that condition |
| Products.ConditionRoundTrip | server/models/Product.js:12-17 | every one of the six conditions parses back from its name |
| Products.InitialStock | server/controllers/productController.js:152 | `Number(stock) \|\| 1`: a missing stock and a stock that reads as 0 both become 1, and any other stock is kept |
| Products.ConditionOr | server/controllers/productController.js:150 | an absent or empty condition keeps the default; a given one must parse |
| Products.NewProduct | server/controllers/productController.js:123-154 | a missing or empty title or description, a falsy price (absent, empty text or a JSON 0) or a missing category fails 400, as do zero images; a created listing is pending moderation, unmoderated, with no views, the given fields, the default condition when none is given, a custom text only under "Custom", and the default stock |
| Products.NewProductSucceedsIffWellFormed | server/controllers/productController.js:128-154 | creation succeeds exactly for complete input with images, a known condition, and a non-negative price and stock |
| Products.NewProductCondition | server/controllers/productController.js:150-151 | without a condition the listing is "Used With Wear" with no custom text; under "Custom" the given custom text is kept |
| Products.CreateProduct | server/controllers/productController.js:142-154 | a creation inserts exactly one new listing under a fresh id and keeps every other listing |
| Products.RemoveAll | server/controllers/productController.js:200-202 | the filtered list holds exactly the images not named for removal, and is no longer than before |
| Products.RemoveAllAppend | server/controllers/productController.js:197-202 | filtering a concatenation filters each part |
| Products.RemoveNothing | server/controllers/productController.js:200-202 | removing no URLs keeps the images as they were |
| Products.EditedStatus | server/controllers/productController.js:205-209 | a non-admin edit always resets to pending moderation; an admin edit sets the given status, or keeps the current one when none is given |
| Products.EditProduct | server/controllers/productController.js:180-209 | an edit never changes seller, views, creation time or moderation fields; images become old + uploaded minus removed; the status follows the edit rule; an edit of a valid listing that succeeds leaves it valid |
| Products.EditKeepsAbsentFields | server/controllers/productController.js:182-191 | every field absent from the edit (or falsy, for the fields the source checks for truthiness) keeps its old value |
| Products.EditWritesGivenFields | server/controllers/productController.js:182-191 | every field the edit gives is written: a truthy title, description or price, a present category, subcategory or stock, and a truthy condition with its custom text only under "Custom" |
| Products.EditFailsOnSchemaErrors | server/controllers/productController.js:182-211 | an edit of a valid listing fails exactly for an unknown condition, an unknown status from an admin, or a negative given price or stock |
| Products.ZeroPriceDependsOnEncoding | server/controllers/productController.js:184 | a JSON price of 0 is skipped, while a form price "0" is written |
| Products.EditImages | server/controllers/productController.js:193-203 | after an edit an image is present exactly when it was old or uploaded and not removed |
| Products.UpdateProduct | server/controllers/productController.js:167-211 | fails NotFound, then Forbidden unless the caller owns the listing or is an admin; on success only that listing changes, to the edited one |
| Products.OwnerEditForcesModeration | server/controllers/productController.js:205-209 | after a non-admin edit the listing is pending moderation and gone from the catalogue |
| Products.DeleteProduct | server/controllers/productController.js:224-238 | fails NotFound, then Forbidden for a non-owner non-admin; otherwise the record stays, with only its status set to inactive |
| Products.DeleteHidesAndIsIdempotent | server/controllers/productController.js:233-238 | a deleted listing leaves the catalogue, and deleting it again changes nothing |
| Products.ModerateProduct | server/controllers/adminController.js:122-143 | fails NotFound, then BadRequest for an action other than approve or reject; approve makes the listing active and reject makes it rejected, both marking it moderated; notes overwrite only when non-empty; nothing else changes |
| Products.ListingLifecycle | server/controllers/productController.js:142-209 | a new listing is hidden from the catalogue; after approval it is shown; after an owner's empty edit it is hidden again |
| Products.ViewProduct | server/controllers/productController.js:89-101 | fails NotFound for an unknown id; otherwise views grow by exactly one and nothing else changes |
| Products.ViewKeepsListings | server/controllers/productController.js:89-101 | viewing a listing of any status succeeds and leaves the catalogue, every seller's listings and the moderation queue unchanged |
| Products.Catalogue | server/controllers/productController.js:20-30 | the catalogue holds exactly the active listings matching every given filter |
| Products.PriceBoundsInclusive | server/controllers/productController.js:26-30 | an active listing passes a price range exactly when its price lies between the bounds, both inclusive |
| Products.FiltersOnlyNarrow | server/controllers/productController.js:20-30 | adding filters never adds a listing beyond the unfiltered catalogue |
| Products.Paginate | server/controllers/productController.js:40-48 | a page reports the total and ceil(total / limit) pages; its items are the results from offset (page-1)*limit in order, at most limit of them, non-empty exactly for pages up to the last; a page below 1 fails |
| Products.Ceil | server/controllers/productController.js:48 | `Math.ceil(n / limit)` is the least page count whose pages cover n items |
| Products.CeilBounds | server/controllers/productController.js:48 | the integer formula (n + limit - 1) / limit meets the bounds of the ceiling |
| Products.PageBounds | server/controllers/productController.js:40-41 | a page starts inside the results exactly when its number is at most the page count |
| Products.PagesCoverResults | server/controllers/productController.js:40-41 | every result appears on page i / limit + 1 at position i mod limit |
| Products.SellerListings | server/controllers/productController.js:109-115 | a seller's public listings are exactly their active ones |
| Products.Capped | server/controllers/userController.js:124 | `.limit(20)` returns at most 20 items, and all of them when there are fewer |
| Products.SellerProfileStats | server/controllers/userController.js:107-146 | fails NotFound for an unknown seller; otherwise the counts are the sizes of the listing and review lists, each capped at 20 |
| Products.ProfileCountsCapped | server/controllers/userController.js:117-146 | a seller with at most 20 active listings gets the exact count, with more gets 20, and more than 20 reviews also count as 20 |
| Products.PendingProducts | server/controllers/adminController.js:108-114 | the moderation queue holds exactly the listings pending moderation |
| Transactions.ParseStatus | server/models/Transaction.js:9-13 | a parsed status name names that status |
| Transactions.StatusRoundTrip | server/models/Transaction.js:9-13 | each of the eleven statuses parses back from its name |
| Transactions.AllStatusesEnumerates | server/models/Transaction.js:9-13 | there are exactly eleven statuses, each with its own name |
| Transactions.StatusSets | server/controllers/adminController.js:163-165 | analytics count as active the seven statuses other than dispute, escrow_declined, completed and cancelled; this strictly contains the four that block a new deal |
| Transactions.NewTransaction | server/models/Transaction.js:5-25 | a new deal has the given parties and price, status negotiating, no escrow, no agent, no proofs, no tracking, no dispute or resolution, and no completion time |
| Transactions.OfferOr | server/controllers/transactionController.js:98 | `price \|\| product.price`: a truthy offer, text "0" included, is stored as the number it reads as; an absent offer, empty text or a JSON 0 falls back to the listed price |
| Transactions.CreateTransaction | server/controllers/transactionController.js:66-100 | fails, in order, NotFound for an unknown product, 400 for the seller buying their own listing, 400 for an inactive listing, and 400 when the pair has a deal in one of the four early statuses; otherwise it inserts one new negotiating deal with the listing's seller and the offered or listed price, and keeps all other deals |
| Transactions.DuplicateCheckOnlyEarly | server/controllers/transactionController.js:84-91 | a deal already past payment does not block a new deal for the same pair |
| Transactions.CreateKeepsOneOpenDeal | server/controllers/transactionController.js:84-100 | creation by itself preserves "at most one early-status deal per buyer and product" |
| Transactions.UpdatePrice | server/controllers/transactionController.js:113-133 | only the buyer or seller may set the price, at any status; a truthy price, text "0" included, is written as its number, and an absent price, empty text or a JSON 0 keeps the old one; nothing else changes |
| Transactions.ZeroOfferDependsOnEncoding | server/controllers/transactionController.js:98-128 | a JSON 0 offer takes the listed price and leaves an update without effect, while the text "0" stores 0 in both |
| Transactions.RequestEscrow | server/controllers/transactionController.js:142-160 | succeeds exactly from negotiating, for any caller; it records the request and the requester and sets escrow_requested, changing nothing else |
| Transactions.RequestEscrowHasNoActorCheck | server/controllers/transactionController.js:151-157 | a caller who is neither party can still request escrow, and is recorded as the requester |
| Transactions.AcceptEscrow | server/controllers/transactionController.js:172-193 | a non-seller gets 403 before the status check; otherwise it succeeds exactly from escrow_requested, giving escrow_assigned with escrow accepted |
| Transactions.DeclineEscrow | server/controllers/transactionController.js:205-227 | a non-seller gets 403 before the status check; from escrow_requested it returns to negotiating and clears the request and the requester |
| Transactions.DeclineUndoesRequest | server/controllers/transactionController.js:151-224 | a request followed by the seller's decline restores the deal exactly |
| Transactions.AssignAgent | server/controllers/transactionController.js:239-261 | succeeds exactly at escrow_assigned with an existing, approved escrow agent; it sets only the agent and leaves the status alone |
| Transactions.SetStatus | server/controllers/transactionController.js:273-311 | a successful call leaves one of the four settable statuses and the same parties and product; every refusal is 400, 403 or 500 |
| Transactions.SetStatusErrorKinds | server/controllers/transactionController.js:283-305 | 400 exactly for a target outside the four names; 500 exactly when the actor test needs the caller's record and it is missing; 403 exactly when the caller may not set the target otherwise |
| Transactions.SetStatusMeaning | server/controllers/transactionController.js:273-311 | the generic setter accepts only payment_initiated, proof_uploaded, shipping_confirmed and delivery_confirmed, for the permitted actor of each; it sets the status and the matching confirmation flag and nothing else |
| Transactions.SetStatusRejectsUnknownNames | server/controllers/transactionController.js:286-288 | a missing or unknown status name fails 400 |
| Transactions.SetStatusIgnoresCurrentStatus | server/controllers/transactionController.js:286-309 | the setter's outcome does not depend on the deal's current status |
| Transactions.AnyAgentFlagMayConfirm | server/controllers/transactionController.js:299-305 | any user with the escrow-agent flag, even one not assigned to this deal, may set shipping or delivery confirmed |
| Transactions.UploadProof | server/controllers/transactionController.js:325-348 | seller only, then at least one file; the new files are appended after the old proofs in order and the status becomes proof_uploaded |
| Transactions.ProofUploadsAccumulate | server/controllers/transactionController.js:342-346 | two successive uploads keep every proof, oldest first |
| Transactions.ConfirmShipping | server/controllers/transactionController.js:362-380 | seller only, at any status; it sets shipping confirmed, and the tracking number or null when empty |
| Transactions.ConfirmDelivery | server/controllers/transactionController.js:394-410 | buyer only, at any status; it sets delivery confirmed |
| Transactions.CreateDispute | server/controllers/transactionController.js:424-442 | buyer or seller only, at any status; it sets dispute and records the reason |
| Transactions.DisputeAfterCompletion | server/controllers/transactionController.js:434-440 | a completed deal can still be disputed by its buyer, which keeps the completion time |
| Transactions.Resolve | server/controllers/transactionController.js:456-474 | only the deal's assigned agent may resolve, from any status; it completes the deal at now, with the notes or null when empty |
| Transactions.Transition | server/routes/transactionRoutes.js:27-37 | each deal route's handler applied to one record by the caller: the price update, the three escrow steps, agent assignment, the status setter, proof upload, the two confirmations, dispute and resolution |
| Transactions.Perform | server/controllers/transactionController.js:113-486 | a handler fails NotFound for an unknown deal, fails with the transition's error, or replaces exactly that deal with the transition's result |
| Transactions.EscrowDeclinedNeverWritten | server/models/Transaction.js:11 | no handler moves a deal into escrow_declined |
| Transactions.TransitionsKeepParties | server/controllers/transactionController.js:113-486 | no handler changes a deal's buyer, seller, product or creation time |
| Transactions.SetterReopensDeal | server/controllers/transactionController.js:84-91 | the buyer can move a delivered deal back to payment_initiated while another negotiating deal exists, leaving two early-status deals for one pair |
| Transactions.GetTransaction | server/controllers/transactionController.js:38-61 | fails NotFound for an unknown id, and with a server error when the caller's record is missing; otherwise returns the deal exactly when the caller is an admin, a party, or a flagged escrow agent assigned to it, and fails 403 otherwise |
| Transactions.ListedIds | server/controllers/transactionController.js:6-28 | fails with a server error when the caller's record is missing; otherwise the list holds exactly the deals the caller's role query selects (all for an admin, the assigned ones for an approved agent, the own ones for anyone else), under the optional status filter |
| Transactions.ListTransactions | server/controllers/transactionController.js:6-33 | the listing enumerates those deals once each, newest first |
| Transactions.ListedIsViewable | server/controllers/transactionController.js:12-23 | every listed deal may also be opened by the caller |
| Transactions.AgentListOmitsOwnPurchases | server/controllers/transactionController.js:13-23 | an approved agent's list shows only the deals they are assigned to, omitting their own purchases, which they can still open |
| Transactions.EscrowHappyPath | server/controllers/transactionController.js:66-486 | create, request, accept, assign, pay, prove, ship, deliver and resolve all succeed in sequence, ending completed at now with the notes |
| Chats.NewMessage | server/models/Chat.js:4-10 | a message needs non-empty content; it starts unread with no read time, stamped now |
| Chats.Append | server/models/Chat.js:12-19 | appending a message adds it after the existing ones and changes nothing else |
| Chats.GetChat | server/controllers/chatController.js:19-36 | NotFound for an unknown chat, 403 for a non-participant, and otherwise the chat |
| Chats.GetChatMessages | server/controllers/chatController.js:86-100 | NotFound for an unknown chat, 403 for a non-participant, and otherwise its messages |
| Chats.MessagesAgreeWithChat | server/controllers/chatController.js:90-97 | reading the messages succeeds and fails exactly as reading the chat does, with the same result |
| Chats.ChatsOf | server/controllers/chatController.js:7-8 | a user's chats are exactly those they take part in |
| Chats.ListChats | server/controllers/chatController.js:4-14 | the list enumerates the caller's chats once each, most recent message first |
| Chats.Matching | server/controllers/chatController.js:54-58 | the lookup finds the chats with both users, in either order, and the same deal and listing scope |
| Chats.NewChat | server/controllers/chatController.js:64-69 | a new chat has the two users, the scope, no messages, and is stamped now |
| Chats.CreateChat | server/controllers/chatController.js:41-81 | a missing or self participant fails 400; an existing chat of the same pair and scope is returned unchanged; otherwise one new chat is added under a fresh id |
| Chats.CreateChatIdempotent | server/controllers/chatController.js:54-73 | repeating the call, by either participant, returns the same chat and changes nothing |
| Chats.ScopesAreDistinct | server/controllers/chatController.js:56-57 | a call with a different deal or listing scope opens a different chat and leaves the first one as it was |
| Chats.TwoCallsThenNewProduct | server/controllers/chatController.js:54-73 | two calls from the two sides share one chat; a third call scoped to a listing opens another |
| Chats.MarkAll | server/controllers/chatController.js:113-123 | exactly the other side's unread messages become read at now; others, with their read times, are untouched; afterwards none is unread |
| Chats.MarkAllIdempotent | server/controllers/chatController.js:118-123 | marking twice is the same as marking once |
| Chats.MarkAllMonotone | server/controllers/chatController.js:118-123 | a read message stays exactly as it was, and a message is read afterwards exactly when it was read before or came from the other side |
| Chats.MarkMessagesRead | server/controllers/chatController.js:105-127 | fails as reading the chat would; otherwise it marks that chat's messages and changes nothing else |
| Chats.SendThenMarkRead | server/controllers/chatController.js:105-127 | a sent message is unread until the other participant marks the chat, then read at that time, and marking again changes nothing |
| Categories.Refs | server/models/Category.js:7-8 | every id present in the store, named as a parent or listed as a subcategory is a reference |
| Categories.NewId | server/models/Category.js:4-11 | a new category's id clashes with no id the store refers to |
| Categories.Without | server/controllers/categoryController.js:110-114 | removing an id from a subcategory list keeps exactly the other entries |
| Categories.WithoutAppend | server/controllers/categoryController.js:59-65 | removing a just-appended id restores the list |
| Categories.GetCategory | server/controllers/categoryController.js:27-38 | NotFound for an unknown id, and otherwise the category |
| Categories.Roots | server/controllers/categoryController.js:5-7 | the roots are exactly the categories without a parent |
| Categories.ListRoots | server/controllers/categoryController.js:5-7 | the listing enumerates the roots once each, in name order |
| Categories.CreateCategory | server/controllers/categoryController.js:43-68 | missing name or slug fails 400; a clashing name or slug fails with the unique-index error; otherwise a new category under a fresh id with a null parent when none is given, an empty description by default, and no children |
| Categories.CreateLinks | server/controllers/categoryController.js:59-65 | an existing parent gets the new id appended to its subcategories; no other category changes |
| Categories.CreateKeepsConsistent | server/controllers/categoryController.js:51-65 | creation keeps parent and subcategory links agreeing in both directions |
| Categories.CreateKeepsUnique | server/models/Category.js:5-6 | creation keeps names and slugs unique |
| Categories.Edited | server/controllers/categoryController.js:83-86 | an edit changes only the given fields and never the links |
| Categories.EmptyEditIsIdentity | server/controllers/categoryController.js:83-86 | an edit with nothing given, or only empty names, changes nothing |
| Categories.UpdateCategory | server/controllers/categoryController.js:73-90 | fails NotFound, or fails with the unique-index error on a clash; otherwise replaces only that category with the edited one |
| Categories.UpdateKeepsConsistent | server/controllers/categoryController.js:83-88 | an update keeps parent and subcategory links consistent in both directions |
| Categories.UpdateKeepsUnique | server/models/Category.js:5-6 | an update that is saved keeps names and slugs unique |
| Categories.DeleteCategory | server/controllers/categoryController.js:95-120 | fails NotFound, then 400 for a category with subcategories; otherwise removes it and drops its id from its parent's list, changing nothing else |
| Categories.DeleteFrame | server/controllers/categoryController.js:108-118 | after a delete every remaining category keeps its names and parent, and only the parent loses the id |
| Categories.DeleteKeepsConsistent | server/controllers/categoryController.js:104-118 | deleting a leaf keeps links consistent in both directions |
| Categories.DeleteKeepsUnique | server/models/Category.js:5-6 | a delete keeps names and slugs unique |
| Categories.CreateThenDeleteRestores | server/controllers/categoryController.js:43-118 | creating a category and deleting it again restores the store exactly |
| Categories.DeletedLeafIsUnlisted | server/controllers/categoryController.js:108-118 | after a delete no category lists the removed id |
| Seed.SetParents | server/utils/seedCategories.js:114-119 | `updateMany` sets the parent of exactly the listed children and changes nothing else |
| Seed.BuildNode | server/utils/seedCategories.js:97-122 | building a node adds new categories only, gives the node a fresh id and a null parent, and mirrors the declared tree: each node's subcategories are its children's ids in order, each pointing back at it |
| Seed.BuildForest | server/utils/seedCategories.js:124-126 | building the top-level nodes yields distinct fresh ids, each a root mirroring its declared tree |
| Seed.SeedCategories | server/utils/seedCategories.js:93-126 | the seeded store mirrors every declared tree with root parents null, and its links are consistent |
| Seed.SeedWipesFirst | server/utils/seedCategories.js:94 | the seeded result does not depend on what was stored before |
| Seed.NodeConsistent | server/utils/seedCategories.js:97-122 | building a node keeps a consistent store consistent |
| Seed.ForestConsistent | server/utils/seedCategories.js:124-126 | building the forest keeps a consistent store consistent |
| Seed.ChildrenPointAtNode | server/utils/seedCategories.js:114-119 | after seeding every listed child exists and names its enclosing node as parent |
| Seed.KeysOfSeed | server/utils/seedCategories.js:7-87 | the declared tree's names and slugs, in depth-first order, are the 28 listed of each |
| Seed.SeedKeysDistinct | server/models/Category.js:5-6 | the 28 seed names are pairwise distinct and so are the 28 slugs, as the unique indexes on both fields require |
| Client.Protect | client/src/components/ProtectedRoute.jsx:4-36 | the page guard's tests in order: loading, no user, unverified email, then the admin, seller and escrow-agent requirements |
| Client.DashboardFor | client/src/pages/Dashboard.jsx:9-24 | the dispatcher's choice: login without a user, else the admin, approved-seller, approved-agent or user dashboard, in that order |
| Client.ShowsExactlyQualifiedUsers | client/src/components/ProtectedRoute.jsx:4-36 | a guarded page shows exactly for a loaded, signed-in, verified user who meets each of its role requirements |
| Client.RedirectPrecedence | client/src/components/ProtectedRoute.jsx:7-29 | loading shows a spinner, then no user goes to /login, then an unverified email goes to /verify-email whatever the roles, then a missing admin goes home before a missing seller goes to /become-seller |
| Client.GuardAgreesWithServer | client/src/components/ProtectedRoute.jsx:19-35 | a page guarded for one role shows exactly when the server's email check and that role check both pass |
| Client.DashboardPicksFirstHeldRole | client/src/pages/Dashboard.jsx:15-22 | a signed-in user lands on the dashboard of the first role they hold in the order admin, seller, escrow agent, or on the user dashboard when they hold none |
| Client.DashboardIgnoresVerification | client/src/pages/Dashboard.jsx:10-22 | the dispatcher sends an unverified user to a dashboard, where the page guard would send them to verify first |

## Left out

- The realtime gateway, socket rooms, presence and typing indicators are left out. No server-side socket code exists, so a chat's `lastMessage` and `typing` are never updated by the modelled handlers.
- Concurrency is left out: each handler is one atomic load-check-save step.
- Ids are assumed well-formed: a path or body id that is not a valid ObjectId makes `findById`/`findOne` throw a cast error, which every handler answers with a 500; the model's ids are numbers, so an unknown id can only give NotFound.
- Mongo `populate`, projections and the product text search (`searchProducts`) are left out. Only the filters and orders the handlers rely on are modelled.
- The catalogue's sort by an arbitrary request field is left out: `Products.Catalogue` is the filtered set, with pagination over a given order.
- getCategories' recursive `populate` of subcategories is left out: only root selection and name order are modelled.
- getAllUsers, getProfile, getSellerReviews and getSellerProducts are plain reads. Only their guards, and the seller listing filter, are modelled.
- Password hashing, JWT issuing and verification, and the phone encryption are foreign calls. The caller's id and the admin claim are inputs, and the phone is stored as given.
- SMTP, OTP generation and the authentication controller are left out.
- Uploads to Cloudinary and deletions from it are network calls. Uploaded files are a sequence of URLs.
- The average rating (a float with `toFixed`) is left out, and so is `Number(...)` of text that is not a number: every number field of a product or deal body (price, stock, offered price) is an integer sent as text, as a JSON number, or as empty text.
- The seed script's database connection and `process.exit` are left out. The seed starts from an empty store.
- Every other React page and component is left out, and so are the client's API and socket wrappers.
- Products.Paginate: requires limit ≥ 1. A zero or negative `limit` query would make the server divide by zero or skip backwards, and that is not modelled.
- Common.ToLower: lower-cases ASCII letters only and keeps the length, while JavaScript's `toLowerCase` is full Unicode and can lengthen a string ("İ" becomes "i" and a combining dot). The file filter's verdict is unaffected: the only non-ASCII characters that lower-case to ASCII are "İ", whose "i" is always followed by the combining dot, and the Kelvin sign, which becomes "k"; none of the allowed type names contains "k", and the only one containing "i" is "gif", where it is followed by "f". The route matcher uses the same function, and there it is exact, because a case-insensitive regular expression pairs ASCII letters only with ASCII letters.
- Access.Matches: the path is taken as already split into segments after the router's mount point; percent-decoding and repeated slashes are not modelled.
- Categories.UpdateCategory: a `description` of null in the body is not distinguished from a missing one.
- Transactions.GetTransaction: the populated buyer, seller or agent may be null when the referenced user was deleted. The model compares raw ids.
- Client.ShowsExactlyQualifiedUsers and Client.DashboardPicksFirstHeldRole describe components that the application's router does not mount.
