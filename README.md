# SwordHUB backend — a verified model

SwordHUB is a PHP REST backend over MongoDB for a small shop. It has
products, categories, orders and users; it issues HS256 JSON Web Tokens;
and it has an admin area. This project models its core in Dafny and
proves properties of that model:

- **Models** (`models/*.php`). Each collection is a `map` from ObjectId
  strings to records, held in one class per model. `Order::create` is the
  centre of the model. It loops over the order lines and decrements stock
  through `Product::updateStock`. It is proved against a left-to-right
  recursive specification (`Orders.Place`).
- **Token codec** (`utils/JWT.php`). It is modelled after RFC 7519; the
  compact serialisation follows section 7.1 of RFC 7515, and HS256 section
  3.2 of RFC 7518. `base64_encode` and `base64UrlEncode` are concrete:
  standard base64 (section 4 of RFC 4648), then the URL-safe alphabet of
  section 5 without padding. So is PHP's non-strict `base64_decode`, which
  skips every character outside the standard alphabet. HMAC-SHA256 and
  JSON are uninterpreted.
- **Middleware** (`middleware/*.php`):
  - the `authenticate` chain, whose Bearer header follows section 2.1 of
    RFC 6750;
  - the `checkAdmin` decision;
  - the fixed-window rate limiter, whose counter map is a class field and
    which answers 429 as in section 4 of RFC 6585.
- **Validators** (`utils/Validator.php`).
- **Controllers** (`controllers/{Order,Product,Category,Auth}Controller.php`).
  Request checks are functions from the request body to an error response
  or the data forwarded. Handlers are methods on the model classes.
- **The five routers and the front controller** (`routes/*.php`,
  `index.php`). These are pure functions from (method, path) to the
  middleware run and the action called.
- **The order-image migration** (`update_order_images.php`).

Things outside the program are parameters:

- The environment is given as `Option` values.
- `time()` is a parameter `now`. Generated ObjectIds are a parameter
  `newId`.
- The PHP library functions are the fields of `Common.Runtime`:
  `strip_tags`/`htmlspecialchars`, `filter_var` e-mail, bcrypt, JSON and
  HMAC.
- A response (status code, message, error map, payload) is a returned
  value, not emitted headers and `echo`.

Prices are integer cents.

Where the request body is JSON, non-string values are seen through
`Validator.AsText` (the string PHP would cast them to, for integers).
Truthiness is `Validator.Truthy`.

Document ids are stored in lower case, the way `(string)$_id` prints
them. A lookup goes through `Common.Canonical`, because the ObjectId
constructor accepts upper-case hexadecimal digits too.

Where the code does something its authors evidently did not intend, the
model has both versions: the code as written, with a lemma that exhibits
the difference, and the intended behaviour, which the rest of the model
uses. "## Findings" lists them.

## Model

| member | source | states |
|---|---|---|
| Common.Find | models/Product.php:91-97 | `findById` succeeds iff the id is a well-formed ObjectId whose lower-case spelling is stored, and returns that record; a malformed id (a constructor exception) is "not found" |
| Common.Canonical | models/Product.php:93 | the ObjectId round trip lower-cases the hex digits: a well-formed id becomes a lower-case id, and a lower-case id is unchanged |
| Common.FindIgnoresCase | models/Product.php:91-97 | an id and its lower-case spelling find the same document |
| Text.RemoveAll | index.php:88 | the single left-to-right pass of `str_replace` never lengthens the string |
| Text.RemoveAllHead | index.php:88 | a character where the pattern does not start is kept, and the scan moves on one character |
| Text.RemoveAllPrefix | index.php:88 | an occurrence at the front is deleted and the scan resumes right after it |
| Text.RemoveAllAbsent | index.php:88 | a string with no occurrence of the pattern is returned unchanged |
| Text.Explode | utils/JWT.php:32 | `explode` yields at least one part and no part contains the separator |
| Text.ExplodeParts | utils/JWT.php:32 | `explode` yields one more part than there are separators, and joining the parts with the separator gives the string back |
| Text.ExplodeCons | utils/JWT.php:32 | splitting `a.b…` yields `a` followed by the parts of the rest |
| Text.IntToStringInjective | middleware/RateLimiter.php:21 | distinct integers print differently, so distinct windows get distinct keys |
| Text.LessTransitive | models/Category.php:41 | the name order used to sort categories is transitive |
| Text.LessTotal | models/Category.php:41 | the name order is total on distinct names |
| Paging.Paginate | models/Product.php:72-81 | page = max(1, page), default 1, so a page below 1 is page 1; limit clamped to [1, 100] with its default; skip = (page-1)·limit; pages = ceil(total/limit) |
| Paging.PageOf | models/Product.php:76-79 | the page returned is exactly min(`limit`, max(0, n - `skip`)) items, the ones from offset `skip` on, in order |
| Paging.ItemInPageOf | models/Product.php:76-79 | the page `ItemOnPage` gives for document i holds it, at position i mod `limit` |
| Paging.ItemOnPage | models/Product.php:81 | every item index lies on exactly the page i/limit+1, and that page is within `pages` |
| Products.FindAllPaging | models/Product.php:72-81 | `Product::findAll` paginates with default limit 10 |
| Products.StockUpdateRule | models/Product.php:139-160 | `updateStock` subtracts the quantity; at zero or below it sets stock 0 and clears `featured`, otherwise `featured` is kept; no other field changes |
| Products.StockUpdated | models/Product.php:139-166 | the catalog after `updateStock`; a function without ensures, whose meaning is fixed by `StockUpdateRule`, `StockUpdateFrame` and `StockUpdateKeepsFeaturedInStock` |
| Products.StockUpdateKeepsFeaturedInStock | models/Product.php:147-159 | after `updateStock` a featured product has stock left |
| Products.StockUpdateFrame | models/Product.php:142-160 | `updateStock` touches only the target product (the lower-case spelling of the id), and an unknown or malformed id changes nothing |
| Products.UpdateFeaturedRule | models/Product.php:116-126 | in `update`, a supplied `featured` wins; otherwise stock 0 clears it; otherwise it is kept |
| Products.UpdateCanFeatureEmptyStock | models/Product.php:116-126 | an update setting stock 0 and featured true leaves a featured product with no stock |
| Products.CountPositiveIff | models/Product.php:103-105 | `countByCategory` is positive iff some product references the category |
| Products.ProductModel.Create | models/Product.php:24-42 | inserts `Document(d, now)` under the new id and changes nothing else; that document has the given fields, image defaulting to '', images and sizes to [], featured to false, and both timestamps `now` |
| Products.ProductModel.Update | models/Product.php:107-137 | answers true iff the id matched; then exactly the set fields and `updatedAt` are written, with the featured rule; otherwise nothing changes |
| Products.ProductModel.UpdateStock | models/Product.php:139-166 | the collection becomes `StockUpdated`; the answer is whether the decrement modified the document (id matched and quantity ≠ 0), not whether the clamp ran |
| Products.ProductModel.Delete | models/Product.php:168-175 | removes the product and answers true iff the id matched |
| Products.ProductModel.FindById | models/Product.php:91-97 | `findById` is `Common.Find` on the collection; a function without ensures, whose meaning is fixed by `Common.Find` and `Common.FindIgnoresCase` |
| Products.ProductModel.FindByCategory | models/Product.php:99-101 | `findByCategory` is the products whose category equals the id as given; a function without ensures, whose meaning is fixed by the `InCategory` definition and `Categories.CategoryModel.FindById` |
| Products.ProductModel.CountByCategory | models/Product.php:103-105 | `countByCategory` counts the products with the id as given; a function without ensures, whose meaning is fixed by `Products.CountPositiveIff` |
| Orders.LineImage | models/Order.php:45-47 | the intended line image: `images[0]` when `images` is non-empty, else the `image` field, else null |
| Orders.LineImageAsWritten | models/Order.php:45-47 | as the code runs, `images` is never a PHP array, so the line image is always the `image` field or null |
| Orders.LineImageAsWrittenAgrees | models/Order.php:45-47 | the two rules agree iff the product has no `images` or its `image` is its first image |
| Orders.LineImageAsWrittenDiffers | models/Order.php:45-47 | images ["a.jpg"] with image "" records "" as written and "a.jpg" as intended |
| Orders.Place | models/Order.php:25-53 | the stock loop of `Order::create` as a recursive function without ensures, whose meaning is fixed by `PlaceTotalAndLines`, `PlaceSnapshots`, `PlaceKeepsKeys`, `PlaceUnknownProductFails`, `PlaceSplit`, `SameProductTwice`, `ExactStockAccepted` and `PlaceKeepsStockNonNegative` |
| Orders.PlaceTotalAndLines | models/Order.php:15-61 | on success, total = Σ price·quantity over the stored lines, and there is one line per requested line, in order, with its product id, quantity and size |
| Orders.PlaceSnapshots | models/Order.php:22-49 | each stored line carries the name, price and (intended, `LineImage`) image of its product as found in the catalog before the order |
| Orders.PlaceKeepsKeys | models/Order.php:22-53 | placing an order adds or removes no product |
| Orders.PlaceUnknownProductFails | models/Order.php:24-29 | an order with a line whose product is not found fails |
| Orders.PlaceSplit | models/Order.php:22-53 | lines `a + b` run `a`, then `b` against the stock `a` left; a failure in `b` keeps the decrements made by `a` |
| Orders.SameProductTwice | models/Order.php:22-53 | a second line for the same product is checked against the reduced stock, and its failure leaves the first decrement in place |
| Orders.ExactStockAccepted | models/Order.php:24-35 | a quantity equal to the stock is accepted, for the product id in any letter case, leaving stock 0 and the product not featured |
| Orders.PlaceKeepsStockNonNegative | models/Order.php:33-52 | stock never goes negative through an order |
| Orders.FindAllPaging | models/Order.php:90-99 | `Order::findAll` paginates with default limit 50 |
| Orders.OrderModel.Create | models/Order.php:13-70 | the catalog ends as `Place` leaves it. On failure the message is returned and no order is inserted. On success a `pending` order with the placed lines (images by the intended `LineImage`) and total is inserted, with phone and address defaulting to '' |
| Orders.OrderModel.UpdateStatus | models/Order.php:117-136 | a status outside the five allowed is "Invalid status" with no write; otherwise the answer is whether the id matched, and a match sets status and `updatedAt` |
| Orders.OrderModel.Delete | models/Order.php:138-145 | removes the order and answers true iff the id matched |
| Orders.OrderModel.FindById | models/Order.php:109-115 | `findById` is `Common.Find` on the collection; a function without ensures, whose meaning is fixed by `Common.Find` and `Common.FindIgnoresCase` |
| Categories.InsertKeepsSorted | models/Category.php:41 | inserting by name into a sorted listing keeps it sorted |
| Categories.CategoryModel.Create | models/Category.php:20-38 | a taken name is "Category name already exists" and adds nothing; otherwise the category is stored with description defaulting to '' |
| Categories.CategoryModel.FindById | models/Category.php:52-64 | found iff the id is well formed and present in any letter case; the result carries exactly the products whose category is the stored id |
| Categories.CategoryModel.FindAll | models/Category.php:40-50 | every category, sorted by name, each with `productCount` equal to its number of products |
| Categories.CategoryModel.Update | models/Category.php:66-83 | a match with no name clash writes the set name/description and `updatedAt` and answers true; anything else, a clash included, answers false with no change |
| Categories.CategoryModel.Delete | models/Category.php:85-98 | products referencing the id give "Cannot delete category with existing products" with no change; otherwise the answer is whether a category was removed |
| Users.ProfileOf | models/User.php:33 | the user as returned to clients: every field but the password |
| Users.UserModel.Create | models/User.php:20-41 | a taken e-mail is "Email already exists" and adds nothing; otherwise the user is stored with the password hashed and role defaulting to `customer`, and returned without the password |
| Users.UserModel.FindByEmail | models/User.php:43-45 | finds iff a user has the e-mail, returning the full record with the hash |
| Users.UserModel.FindById | models/User.php:47-57 | found iff the id is well formed and present in any letter case; the result, under the stored id, has no password |
| Users.UserModel.Update | models/User.php:63-83 | writes only the set name, e-mail and re-hashed password plus `updatedAt`; a malformed or unknown id, or a taken e-mail, changes nothing |
| Users.UserModel.Delete | models/User.php:85-92 | removes the user and answers true iff the id matched |
| Jwt.Init | utils/JWT.php:7-10 | the secret defaults to `default_secret_key` and the lifetime to 86400 |
| Jwt.Stamped | utils/JWT.php:16-17 | the payload gains `iat` from the first clock read and `exp` = second clock read + lifetime, other claims kept |
| Jwt.B64Char | utils/JWT.php:60 | every sextet maps to a character of the standard alphabet |
| Jwt.SextetOf | utils/JWT.php:37-38 | reading an alphabet character back gives the sextet it encodes |
| Jwt.Quantum | utils/JWT.php:60 | one to three bytes encode to four characters, each of the alphabet or '=' |
| Jwt.Base64 | utils/JWT.php:60 | `base64_encode` writes a multiple of four characters, each of the alphabet or '=' |
| Jwt.SextetsOfAlphabet | utils/JWT.php:37-38 | non-strict `base64_decode` reads one sextet per alphabet character, in order |
| Jwt.SextetsDrop | utils/JWT.php:37-38 | a character outside the alphabet ('-' and '_' included) is skipped |
| Jwt.DecodeSextets | utils/JWT.php:37-38 | n sextets decode to ⌊3n/4⌋ bytes |
| Jwt.Base64RoundTrip | utils/JWT.php:37-38 | `base64_decode(base64_encode(b)) == b` |
| Jwt.B64UrlAlphabet | utils/JWT.php:59-61 | `base64UrlEncode` output contains no '+', '/', '=' or '.' |
| Jwt.B64UrlLength | utils/JWT.php:59-61 | n bytes encode to ⌈4n/3⌉ url-safe characters |
| Jwt.UrlRoundTrip | utils/JWT.php:59-61 | mapping '-' and '_' back before decoding inverts `base64UrlEncode` |
| Jwt.B64UrlInjective | utils/JWT.php:44-46 | distinct signatures encode differently |
| Jwt.DroppedCharsChangeSegment | utils/JWT.php:37-42 | a segment with a '-' or '_' is never re-encoded to itself after `base64_decode` |
| Jwt.PlainSegment | utils/JWT.php:37-38 | a segment without '-' or '_' decodes the same either way |
| Jwt.HeaderSegmentPlain | utils/JWT.php:15-20 | the header segment has no '-' or '_' |
| Jwt.EncodeSegments | utils/JWT.php:12-27 | a token splits into exactly header, payload and HMAC over `header.payload` |
| Jwt.Encode | utils/JWT.php:12-27 | `encode`; a function without ensures, whose meaning is fixed by `EncodeSegments` and `RoundTrip` |
| Jwt.Verified | utils/JWT.php:41-56 | the signature, JSON and expiry checks of `decode`; a function without ensures, whose meaning is fixed by `DecodeAccepts`, `ForgedSignatureRejected` and `PlainSegmentsAgree` |
| Jwt.Expired | utils/JWT.php:52 | `isset($payload['exp']) && $payload['exp'] < time()` for a number or an integer string; a predicate without ensures, used by `DecodeAccepts` and `RoundTrip` |
| Jwt.DecodeAsWritten | utils/JWT.php:29-57 | `decode` as written; a function without ensures, whose meaning is fixed by `PlainSegmentsAgree`, `RoundTripAsWritten`, `DashedPayloadRejectedAsWritten` and `WrongSegmentCountRejected` |
| Jwt.Decode | utils/JWT.php:29-57 | the corrected `decode`; a function without ensures, whose meaning is fixed by `DecodeAccepts`, `RoundTrip`, `ForgedSignatureRejected` and `WrongSegmentCountRejected` |
| Jwt.DecodeAccepts | utils/JWT.php:29-57 | `decode` accepts iff three segments, the signature recomputed from the decoded segments equals the third, the payload decodes, and it is not expired (an `exp` number or integer string below now) |
| Jwt.RoundTrip | utils/JWT.php:12-57 | when the JSON decoder inverts the encoder, `decode(encode(p))` is the stamped `p` while now ≤ exp, and is rejected after |
| Jwt.PlainSegmentsAgree | utils/JWT.php:29-57 | as written, a token whose first two segments have no '-' or '_' decodes as intended |
| Jwt.RoundTripAsWritten | utils/JWT.php:12-57 | as written, the round trip holds when the payload segment has no '-' or '_' |
| Jwt.DashedPayloadRejectedAsWritten | utils/JWT.php:37-48 | as written, a token whose payload segment has a '-' or '_' is rejected at any time, given that HMAC tells the two messages apart |
| Jwt.TildeGivesDash | utils/JWT.php:59-61 | the bytes `"a~` encode to "ImF-", so a '~' in an e-mail address puts a '-' into the payload segment |
| Jwt.ForgedSignatureRejected | utils/JWT.php:41-48 | a third segment other than the recomputed signature is rejected |
| Jwt.WrongSegmentCountRejected | utils/JWT.php:32-35 | a token that does not split into exactly three parts is rejected, by the corrected and by the as-written `decode` |
| Validator.RequiredErrors | utils/Validator.php:4-11 | the error map when no listed field is an array or object (`RequiredCheck`): exactly the listed fields that are unset or empty after trim, each mapped to "<Ucfirst(field)> is required"; under the corrected rule of the Findings row an array or object field is tested with `empty` alone and counts as missing iff it has no element |
| Validator.RequiredErrorsEmptyIff | utils/Validator.php:4-11 | the result is empty iff every listed field is present and non-empty |
| Validator.ZeroIsMissing | utils/Validator.php:7 | "0" (also after trim) and 0 count as missing, because of `empty` |
| Validator.RequiredCheck | utils/Validator.php:4-11 | `trim` fails (a 500) iff some listed field is set to an array or object; otherwise the result is `RequiredErrors` |
| Validator.ValidateRequired | utils/Validator.php:4-11 | the loop stops at the first field `trim` rejects and otherwise computes `RequiredErrors`: it computes `RequiredCheck` |
| Validator.ValidateEmail | utils/Validator.php:14-19 | null iff the address passes `filter_var`, else "Invalid email format" |
| Validator.IntegerStringOfInt | utils/Validator.php:22 | every printed integer is numeric with that value |
| Validator.ValidateNumber | utils/Validator.php:21-35 | non-numeric first, then the min bound, then the max bound; null iff numeric and within the bounds |
| Validator.ZeroPassesMinZero | utils/Validator.php:26 | with min 0, both 0 and "0" are accepted |
| Validator.ValidateEnum | utils/Validator.php:37-42 | null iff the value loosely equals an allowed value, else the message listing them |
| Validator.EnumIsLoose | utils/Validator.php:38 | `in_array` is loose: "+1" is accepted where only "1" is allowed |
| Validator.SanitizeArray | utils/Validator.php:48-56 | keys are exactly the listed fields set in the data, each value sanitised |
| AuthMiddleware.BearerTokenMeaning | middleware/AuthMiddleware.php:22-31 | the header matches the case-insensitive, unanchored `Bearer\s+(.*)$` iff a token is extracted; the token comes from the leftmost match, after the greedy whitespace run, up to the end of the line |
| AuthMiddleware.BearerToken | middleware/AuthMiddleware.php:22-31 | `preg_match` and `$matches[1]`; a function without ensures, whose meaning is fixed by `BearerTokenMeaning` and `StandardHeader` |
| AuthMiddleware.StandardHeader | middleware/AuthMiddleware.php:22-31 | `Bearer <token>` yields `<token>` |
| AuthMiddleware.AuthenticateMeaning | middleware/AuthMiddleware.php:7-58 | the checks run in order (header, format, token, user) and the first failure is a 401, except a valid payload without `userId`, whose undefined index the error handler answers with 500; success hands out the stored user named by the token, without password; this holds under the corrected decode `Jwt.Decode` of the Findings row, and as written a user whose payload segment holds '-' or '_' is never authenticated |
| AuthMiddleware.IssuedTokenAuthenticates | middleware/AuthMiddleware.php:7-58 | a token issued for an existing user authenticates that user until it expires, given only that the JSON decoder inverts the encoder; this holds under the corrected decode `Jwt.Decode` of the Findings row, and as written a user whose payload segment holds '-' or '_' is never authenticated |
| AuthMiddleware.AuthOutcome | middleware/AuthMiddleware.php:7-58 | `authenticate` as a decision; a function without ensures, whose meaning is fixed by `AuthenticateMeaning` and `IssuedTokenAuthenticates` |
| AuthMiddleware.Session.Authenticate | middleware/AuthMiddleware.php:44-57 | answers the decision; success stores the user in `$currentUser`; an unknown user clears it |
| AdminMiddleware.CheckAdmin | middleware/AdminMiddleware.php:4-26 | no user is 401 "Authentication required", checked before the role; a role other than exactly `admin` is 403; `admin` passes |
| AdminMiddleware.RoleIsCaseSensitive | middleware/AdminMiddleware.php:16 | role `Admin` is refused |
| RateLimiter.FloorDiv | middleware/RateLimiter.php:21 | PHP's `floor(now/window)` |
| RateLimiter.Pruned | middleware/RateLimiter.php:44-50 | cleanup removes exactly the entries with now − timestamp > 2·window, keeping the others unchanged |
| RateLimiter.Checked | middleware/RateLimiter.php:21-30 | after pruning, the key's counter is created at {0, now} if absent and incremented; other keys are as pruned |
| RateLimiter.KeyInjective | middleware/RateLimiter.php:21 | different identifiers or windows use different counters |
| RateLimiter.CountsInWindow | middleware/RateLimiter.php:26-30 | every call in a window increments the counter, rejected calls included |
| RateLimiter.FirstCallsPass | middleware/RateLimiter.php:30-39 | in a fresh window the n-th call leaves the count at n, so exactly the first maxRequests calls pass |
| RateLimiter.Limiter.Init | middleware/RateLimiter.php:8-11 | defaults are window 900 and maxRequests 100 |
| RateLimiter.Limiter.CleanOldEntries | middleware/RateLimiter.php:44-50 | the loop leaves exactly `Pruned` |
| RateLimiter.Limiter.Check | middleware/RateLimiter.php:13-42 | the counter map becomes `Checked`; the call passes iff the count does not exceed maxRequests, otherwise 429 |
| OrderApi.LinesOf | controllers/OrderController.php:100 | the items forwarded are the request's lines one for one |
| OrderApi.CreateCheck | controllers/OrderController.php:62-101 | the intended checks: required fields (400 with the map, an empty `items` list counting as missing), then e-mail format, then a non-empty item list; on success sanitised customer fields with phone and address defaulting to '' and the items unchanged |
| OrderApi.EmptyItemsRequired | controllers/OrderController.php:61-70 | under the corrected required test, `items: []` with the customer fields present is answered 400 "Validation failed" with exactly "Items is required" |
| OrderApi.CreateCheckAsWritten | controllers/OrderController.php:62 | as written, a required field set to an array or object (the `items` list) ends in 500 before any check; otherwise the checks of `CreateCheck` |
| OrderApi.NoOrderAsWritten | controllers/OrderController.php:62-101 | as written, no body passes the checks, and every body with an `items` list is a 500 |
| OrderApi.EmptyBodyReportsAll | controllers/OrderController.php:62 | an empty body reports all three required fields |
| OrderApi.OrderController.GetById | controllers/OrderController.php:36-56 | 404 "Order not found", or 200 with the order and its string id |
| OrderApi.OrderController.Create | controllers/OrderController.php:58-119 | a failed check answers it with no change; a failing `Order::create` gives 400 with its message, keeping the earlier decrements; success stores the `pending` order built from the sanitised fields and the placed lines and total, and answers 201 with it |
| OrderApi.OrderController.UpdateStatus | controllers/OrderController.php:121-163 | unknown order 404 first, then missing status 400 "Status is required", then an invalid status 400; otherwise 200 with the re-read order |
| OrderApi.OrderController.Delete | controllers/OrderController.php:165-191 | 404 for an unknown order; otherwise the order is removed and 200 |
| ProductApi.CategoryNames | controllers/ProductController.php:18-26 | the cache maps every category id to its name |
| ProductApi.Populated | controllers/ProductController.php:28-36 | a product whose category id is cached gets `categoryId` = the old value and `category` = the name; otherwise it is unchanged |
| ProductApi.CreateCheck | controllers/ProductController.php:102-144 | required fields, then "Price " + the number error, then "Stock " + the number error; the data forwarded has the sanitised fields, image defaulting to '' and featured to false, never images or sizes |
| ProductApi.ZeroPriceIsRequired | controllers/ProductController.php:102 | a price of 0 is rejected as "required" |
| ProductApi.UpdateCheck | controllers/ProductController.php:177-211 | price and stock are validated only when supplied, each failure answering 400 with "Price " or "Stock " + the number error; the patch forwards exactly the set fields among name, description, price, category, stock, image and featured, with their sanitised or cast values |
| ProductApi.ZeroStockUpdateUnfeatures | controllers/ProductController.php:191-213 | an update setting only stock 0 unfeatures the product |
| ProductApi.CacheFrom | controllers/ProductController.php:20-24 | the loop over the listing builds `CategoryNames` |
| ProductApi.ProductController.LoadCategoriesCache | controllers/ProductController.php:18-26 | the cache is built from the categories on first use only |
| ProductApi.ProductController.PopulateCategoryName | controllers/ProductController.php:28-36 | answers `Populated` under the (possibly just loaded) cache |
| ProductApi.ProductController.GetById | controllers/ProductController.php:75-96 | 404 "Product not found", or 200 with the product under its stored id, populated with the cache; an existing cache is kept, a missing one is built from the categories |
| ProductApi.ProductController.Create | controllers/ProductController.php:98-162 | a failed check answers it with no change; otherwise exactly the document `ProductModel.Create` builds from the checked data is stored under the new id, and 201 answers it |
| ProductApi.ProductController.Update | controllers/ProductController.php:164-232 | unknown id 404 before validation; a failed check answers it with no change; otherwise the patch is applied and 200 with the re-read product |
| ProductApi.ProductController.Delete | controllers/ProductController.php:234-265 | 404 for an unknown id; otherwise a non-empty image is named for deletion and the product removed, 200 |
| CategoryApi.CreateCheck | controllers/CategoryController.php:66-81 | without a name 400 with `name` → "Name is required"; otherwise the sanitised name and description, or '' |
| CategoryApi.CategoryController.GetAll | controllers/CategoryController.php:13-30 | the sorted listing with product counts, and total = its length |
| CategoryApi.CategoryController.GetById | controllers/CategoryController.php:32-60 | 404 "Category not found", or 200 with the category and its products |
| CategoryApi.CategoryController.Create | controllers/CategoryController.php:62-99 | no name 400; a taken name 400 with the model's message and no change; otherwise stored and 201 |
| CategoryApi.CategoryController.Update | controllers/CategoryController.php:101-138 | unknown id 404; otherwise only the set name and description are forwarded and 200 answers the re-read category, whatever the model answered |
| CategoryApi.CategoryController.Delete | controllers/CategoryController.php:140-166 | unknown id 404; products in it 400 "Cannot delete category with existing products"; otherwise removed and 200 |
| AuthApi.TokenClaims | controllers/AuthController.php:57-61 | the token claims are exactly `userId`, `email` and `role` |
| AuthApi.LoginDecision | controllers/AuthController.php:19-74 | required fields 400, then e-mail format 400; 200 iff a user with that e-mail has a verifying password, answering its token and profile; an unknown e-mail and a wrong password give the same 401 |
| AuthApi.RegisterCheck | controllers/AuthController.php:109-142 | required fields, then e-mail format, then a password of at least 6 characters |
| AuthApi.Me | controllers/AuthController.php:85-106 | 401 "Not authenticated" without a current user, else 200 with it |
| AuthApi.Logout | controllers/AuthController.php:76-83 | always 200 "Logged out successfully" |
| AuthApi.RegisteredUserLogsIn | controllers/AuthController.php:44-74 | a stored user logs in with the e-mail and the password it was registered with |
| AuthApi.GrantedTokenAuthenticates | controllers/AuthController.php:57-61 | a login token, until it expires, authenticates the same user in the middleware, given only that the JSON decoder inverts the encoder; this holds under the corrected decode `Jwt.Decode` of the Findings row, and as written a user whose payload segment holds '-' or '_' is never authenticated |
| AuthApi.AuthController.Login | controllers/AuthController.php:15-74 | the rate limiter counts the call before the body is read and answers 429 once over the limit; otherwise the login decision |
| AuthApi.AuthController.Register | controllers/AuthController.php:108-178 | a failed check answers it with no change; a taken e-mail 400 "Email already exists"; otherwise the user is stored with role `customer` whatever the request says, and 201 with a token |
| Routes.IdWithTail | routes/OrderRoutes.php:44 | the pattern matches iff the path is '/', 24 lower-case hex digits, the tail, and at most one final line feed; the capture is a valid ObjectId |
| Routes.UpperCaseIdNotRouted | routes/ProductRoutes.php:22 | an id with an upper-case hex digit is never routed |
| Routes.ProductRouting | routes/ProductRoutes.php:13-60 | reads are public; create, update, delete and upload run authenticate then checkAdmin; exactly the listed (method, path) pairs are handled |
| Routes.OrderRouting | routes/OrderRoutes.php:13-60 | GET by id and POST '' are public; list, stats, status and delete need admin; `/<id>/status` only with PATCH |
| Routes.CategoryRouting | routes/CategoryRoutes.php:13-52 | reads are public; writes run authenticate then checkAdmin |
| Routes.AuthRouting | routes/AuthRoutes.php:13-37 | login and register are open; logout and me authenticate and never check for admin; method and path must both match |
| Routes.DashboardRouting | routes/DashboardRoutes.php:15-32 | the admin guards run before any path is matched; GET /stats and GET /analytics are handled |
| FrontController.AllowedOrigins | index.php:55-59 | FRONTEND_URL (default the Vite server), the Vite server and port 3000 |
| FrontController.AllowOrigin | index.php:61-66 | the Origin is echoed iff it is (loosely) allowed; otherwise the first allowed origin |
| FrontController.DevOriginsEchoed | index.php:55-66 | both dev origins are echoed whatever FRONTEND_URL says |
| FrontController.PathOf | index.php:87 | the path is the part of the target before '?' or '#' |
| FrontController.Route | index.php:74-121 | OPTIONS is answered before routing; GET '/' and GET '/health' after deleting every '/api' are answered directly |
| FrontController.FallThrough | index.php:124-169 | a handled request was handled by a matching mount in order; with no matching mount, 404 |
| FrontController.SkipMounts | index.php:124-166 | mounts whose prefix does not match are skipped |
| FrontController.OneRouter | index.php:124-169 | the first matching mount receives the path with its prefix length cut off |
| FrontController.DashboardGuardsEverything | index.php:160-166 | every non-OPTIONS request under /dashboard runs the admin guards |
| FrontController.RemoveAllKeepsMount | index.php:88 | deleting '/api' leaves a mount prefix in place |
| FrontController.LeadingApiIgnored | index.php:87-88 | `/api/x` is routed as `/x` |
| FrontController.ApiDeletedAfterMount | index.php:88 | an '/api' after the mount prefix is deleted too, not only a leading one |
| FrontController.RunGuards | routes/ProductRoutes.php:29-30 | routes without middleware pass; the first halting middleware answers |
| FrontController.AdminRouteNeedsAdmin | routes/ProductRoutes.php:29-30 | an admin route passes iff the token authenticates a user whose role is exactly `admin`; otherwise 401 or 403; this holds under the corrected decode `Jwt.Decode` of the Findings row, and as written a user whose payload segment holds '-' or '_' is never authenticated |
| OrderImages.RepairLine | update_order_images.php:30-57 | a missing image (absent, null, '' or '0') is filled from the product's `image` field, or null (never from `images`); a present image is kept; an absent size becomes null; other fields unchanged |
| OrderImages.RepairIdempotent | update_order_images.php:30-57 | repairing a repaired line changes nothing |
| OrderImages.Repaired | update_order_images.php:30-58 | line count and order are preserved |
| OrderImages.RepairItems | update_order_images.php:25-58 | the inner loop builds `Repaired` and sets the flag iff some line misses its image |
| OrderImages.Migrated | update_order_images.php:23-81 | exactly the orders needing an update whose write succeeds are rewritten with their repaired lines |
| OrderImages.PartialFacts | update_order_images.php:23-81 | after handling some orders, those are fixed and the others untouched |
| OrderImages.PartialCoversAll | update_order_images.php:23-81 | handling every order gives `Migrated` |
| OrderImages.MigrationIdempotent | update_order_images.php:23-81 | a second run changes nothing |
| OrderImages.SizeOnlyRepairDropped | update_order_images.php:53-61 | an order whose lines all have images is not written, even when a size was missing |
| OrderImages.CountsBounded | update_order_images.php:68-77 | each order counts at most once, as updated or as failed |
| OrderImages.OrderCollection.RepairOrder | update_order_images.php:24-80 | one order: written back iff it needs it and the write succeeds; `modified` iff the write changed it; `failed` iff the write failed |
| OrderImages.OrderCollection.Migrate | update_order_images.php:17-81 | the collection becomes `Migrated`; the counters equal the updated and failed writes over the snapshot |

## Left out

- The connection and environment bootstrapping (config/MongoDB.php, config/Database.php), the static-file branch of index.php, headers, `echo`/`exit` and error logging: they are I/O. Responses are returned values.
- MongoDB query mechanics beyond their effect on a map (filters, regex search, `createdAt` sort, `countDocuments`). The `findAll` page itself is modelled only as `Paging.PageOf` over a given sequence.
- `Order::getStats`, `Order::getAnalytics`, controllers/DashboardController.php and `OrderController::getStats`: read-only aggregation over dates and rounded floats. The dashboard route only names these actions. The dashboard reads a `pendingOrders` figure that `getStats` never returns; that figure is not modelled either.
- `OrderController::getAll` is not modelled. It iterates the keys of the `findAll` result rather than its orders, so the result depends on PHP warning handling.
- `ProductController::getAll` is not modelled. It is `findAll` plus `PopulateCategoryName` per product; its filters are query mechanics.
- utils/FileUpload.php, `ProductController::upload` and the deletion of an image file: filesystem and MIME sniffing. `ProductApi.ProductController.Delete` returns the image it would delete.
- HMAC-SHA256, bcrypt, JSON encode/decode, `filter_var` and `strip_tags`/`htmlspecialchars`: uninterpreted fields of `Common.Runtime`.
- Floating-point prices and totals: integer cents.
- Concurrency: the oversell race between simultaneous orders, and the non-atomic decrement-then-clamp in `updateStock`. Requests are sequential. Whether the rate limiter's storage survives between requests depends on the PHP SAPI; here it is object state.
- Database driver failures (the exception paths that answer 500) are not modelled, except the write failures of the migration (the `fails` set).
- Validator.AsText: a non-empty array or object in a field that is trimmed or sanitised, other than the order's `items`, reads as "Array"; an empty one in a required field is reported as missing. The source answers such a body with a 500 (see `Validator.TrimFails`); only the order check models that path, in `OrderApi.CreateCheckAsWritten`.
- OrderApi.CreateCheckAsWritten: the 500 is modelled with the error handler's message "Internal server error", which is what PHP 7's warning gives. PHP 8 throws a TypeError instead, which the exception handler answers with 500 and the TypeError's own message.
- Validator.NumericValue: only integer strings and integer numbers are numeric. PHP's `is_numeric` also accepts decimals and exponents, which integer cents do not represent.
- Users.UserModel.Update: the model's `passwordHash` is a function, so updating a user to the same password and the same name and e-mail can leave the document unchanged apart from `updatedAt`. bcrypt salts every call, so in the source a password update always writes a new hash.
- OrderApi.CreateCheck: a non-empty JSON object as `items` is answered 400 "Order must contain at least one item". Decoded as a PHP array it passes `is_array`, and the corrected source would hand its values to `Order::create` in document order, which the model's map of fields does not keep.
- OrderApi.CreateCheck requires `WellFormedItems`: each item is an object with a string `productId` and an integer `quantity`. The source indexes malformed items with runtime warnings.
- OrderApi.OrderController.UpdateStatus requires a set `status` to be a string. Loose `in_array` on other JSON types is not modelled.
- AuthApi.RegisterCheck counts the password length in characters, where `strlen` counts bytes. They differ only beyond ASCII.
- RateLimiter.Limiter.Check requires a non-zero window: the source divides by it, and a zero window is a division error.
- ProductApi.Populated is applied to every product. The source's `isset($product['category'])` test always holds for stored products, which always have a category.
- FrontController.PathOf models origin-form request targets. `parse_url` of a target with an authority is not modelled: an absolute URI (a scheme and host) and a network-path reference such as `//host/p`, where `parse_url` takes `host` as the host and `/p` as the path.
- OrderImages.RepairLine keeps the migration's `catch` branch implicit. `Product::findById` already turns a malformed id into null, so that branch cannot be reached.
- The migration's progress output is not modelled.
- Jwt.Expired: an `exp` string that is not an integer numeral (a decimal, an exponent, a non-numeric string) counts as not expired. PHP compares such a value with the clock as a float or as a string, depending on the version.
- middleware/ErrorMiddleware.php is modelled only as the 500 "Internal server error" of its error handler, in `AuthMiddleware.AuthOutcome` and `OrderApi.CreateCheckAsWritten`. The exception handler's message and trace are not modelled.
- Scripts and tests (seed.php, generate_password.php, verify-data.php, test-*.php, api/products/read.php) are not part of this model.
- `login` looks the e-mail up as sent, while `register` stores it sanitised. `AuthApi.RegisteredUserLogsIn` therefore assumes that sanitising leaves the e-mail unchanged.

## Findings

| source | as written | input that shows it | evidently intended | confidence | as-written member | corrected member |
|---|---|---|---|---|---|---|
| utils/JWT.php:37-38 | the url-safe segments go to `base64_decode` as they are; non-strict decoding drops '-' and '_', so the re-encoded segment differs and the recomputed signature cannot match | a user whose e-mail contains '~', such as "a~b@shop.com": the payload JSON holds `"a~`, which encodes to "ImF-"; every token of that user is answered 401 "Invalid or expired token" | map '-' and '_' back to '+' and '/' before decoding, so that decoding inverts `base64UrlEncode` | not executed | Jwt.DecodeAsWritten, Jwt.DashedPayloadRejectedAsWritten, Jwt.TildeGivesDash | Jwt.Decode, Jwt.RoundTrip |
| models/Order.php:45-47 | `is_array($product['images'])` is false for the BSON array object the driver returns by default, so the line always records `image` or null | a product with images ["a.jpg"] and image "": the line records "" | record the first of `images` when there is one | not executed | Orders.LineImageAsWritten, Orders.LineImageAsWrittenDiffers | Orders.LineImage, Orders.PlaceSnapshots |
| utils/Validator.php:7 | `validateRequired` trims every listed field, and `OrderController::create` lists `items`, which is an array: `trim` on an array ends the request with a 500 | any order body with an `items` list, such as {"customerName":"A","customerEmail":"a@b.co","items":[{"productId":"…","quantity":1}]} | test a required array for emptiness without trimming it | not executed | OrderApi.CreateCheckAsWritten, OrderApi.NoOrderAsWritten | OrderApi.CreateCheck, OrderApi.OrderController.Create |
