# Storefront core in Dafny

This project models the core of a small handicraft storefront and proves properties of that model. The storefront has three parts:

- an Express and MySQL backend with accounts, orders, invoices, reviews and the product catalogue with spreadsheet import;
- a Next.js frontend with the per-user cart in browser storage, the header's search box and cart badge, the search page, the checkout page and the home page's hero section;
- three maintenance scripts that repair the file names in the uploads folder.

Database tables are sequences of rows. Each backend controller is a function from the tables and the request to a reply (`Http.Reply`: `Ok` or `Error(status, message)`). A class (`Accounts.UserTable`, `Orders.OrderBook`, `Catalog.Catalog`) holds each table the controllers update, and its methods perform the inserts and updates the source performs. The browser's `localStorage` is the class `Storage.BrowserStorage`. The token checks (jwt), the password hashing and comparison (bcrypt), the random reset token, the clock and the file system are parameters of the operations that use them.

Modules, one file each:

- `Text`: the JavaScript string operations the code relies on.
- `Seqs`: filtering, sorting, taking and summing over sequences.
- `Accounts`: register, login, forgot and reset password.
- `Orders`: creating and listing orders, status updates, the invoice and reviews.
- `Catalog`: the product routes, image URLs and the two spreadsheet imports.
- `Listings`: the product as the pages receive it.
- `Cart`: the cart page's operations.
- `Storage`: browser storage and the operations on it.
- `Search`: the search page.
- `Checkout`: the checkout page.
- `Header`: the header, including `encodeURIComponent` and its decoding.
- `Hero`: the carousel and the two product strips.
- `ImageFiles`: the three maintenance scripts.

## Model

| member | source | states |
|---|---|---|
| Text.OrElse | frontend/src/app/checkout/page.jsx:47 | `a \|\| b` on strings gives one of the two, and it is empty only when both are |
| Text.OrNull | backend/routes/productsRoutes.js:128 | `s \|\| null` is null exactly for the empty string and otherwise is the string |
| Text.OrEmpty | frontend/src/app/search/page.jsx:10 | a missing or empty value reads as "", any other is kept |
| Text.IndexOf | frontend/src/app/checkout/page.jsx:47 | the first position where the pattern occurs, and -1 exactly when it occurs nowhere |
| Text.IndexFrom | backend/convert-to-png.js:23 | the first occurrence at or after a position, -1 when there is none |
| Text.ReplaceFirst | backend/convert-to-png.js:23 | `replace` with a string pattern changes only the first occurrence, and the string is unchanged when there is none |
| Text.ReplaceChar | backend/routes/productsRoutes.js:39 | a global one-character replace keeps the length and swaps exactly that character |
| Text.ToLower | frontend/src/app/components/Header.jsx:37 | lower-casing keeps the length and maps each character on its own |
| Text.ToLowerIdempotent | frontend/src/app/search/page.jsx:65-70 | lower-casing twice is lower-casing once |
| Text.ToLowerAppend | frontend/src/app/search/page.jsx:65-70 | lower-casing distributes over concatenation |
| Text.TrimStart | frontend/src/app/search/page.jsx:10 | removes exactly the leading white space and stops at a non-space |
| Text.TrimEnd | frontend/src/app/search/page.jsx:10 | removes exactly the trailing white space and stops at a non-space |
| Text.TrimEmptyIff | frontend/src/app/components/Header.jsx:55-56 | a trimmed string is empty exactly when the input is all white space |
| Text.TrimIdempotent | frontend/src/app/search/page.jsx:10 | trimming an already trimmed string changes nothing |
| Text.TrimLower | frontend/src/app/search/page.jsx:10 | trimming and lower-casing commute |
| Text.TrimIsInfix | frontend/src/app/search/page.jsx:10 | the trimmed string is a slice of the input with no white space at either end |
| Text.PadStart | backend/controllers/ordersController.js:330 | `padStart` reaches the width, keeps the string as a suffix and fills with the pad character |
| Text.DecimalString | backend/controllers/ordersController.js:330 | `String(n)` of a natural is a non-empty digit string, one digit exactly below 10 |
| Text.ParseDecimalString | backend/controllers/ordersController.js:330 | reading the decimal string of n gives n back |
| Text.ParseDecimalLeadingZeros | backend/controllers/ordersController.js:330 | leading zeros do not change the value of a digit string |
| Text.NonEmpty | frontend/src/app/checkout/page.jsx:58 | `filter(Boolean)`: every kept part is a non-empty part of the input, every non-empty part is kept, and the result is empty exactly when every part is empty; the order is stated by `Text.NonEmptyAppend` |
| Text.NonEmptyAppend | frontend/src/app/checkout/page.jsx:52-58 | filtering a concatenation is the concatenation of the filtered pieces, so the kept parts stay in their original order |
| Text.NonEmptySingle | frontend/src/app/checkout/page.jsx:58 | a single part is kept exactly when it is non-empty |
| Text.NonEmptyKeepsAll | frontend/src/app/checkout/page.jsx:58 | when no part is empty, the filter returns the parts unchanged |
| Text.JoinNonEmptyEmptyIff | frontend/src/app/checkout/page.jsx:52-58 | filtering empties and then joining gives "" exactly when every part is empty |
| Text.JoinStartsWithFirst | frontend/src/app/checkout/page.jsx:52-58 | a join starts with its first part |
| Text.JoinCons | frontend/src/app/checkout/page.jsx:58 | `join` puts the separator between a part and the join of a non-empty rest |
| Seqs.FirstWhere | backend/controllers/authControllers.js:53-58 | the first element satisfying the condition, None exactly when none does |
| Seqs.Filter | frontend/src/app/search/page.jsx:67-71 | `filter` keeps exactly the elements that pass, and keeps them all when all pass |
| Seqs.FilterIsSubsequence | frontend/src/app/search/page.jsx:67-71 | the filtered list keeps the original order |
| Seqs.FilterLength | frontend/src/app/cart/page.jsx:23-28 | the filtered list is as long as the input exactly when every element passes |
| Seqs.FilterAppend | backend/routes/productsRoutes.js:211-252 | filtering distributes over concatenation |
| Seqs.SortDesc | frontend/src/app/components/HeroPage.jsx:85 | sorting by descending key gives a descending permutation of the input |
| Seqs.Take | frontend/src/app/components/HeroPage.jsx:90 | `slice(0, n)` is the prefix of length min(n, length) |
| Seqs.SumAppend | frontend/src/app/cart/page.jsx:59 | a `reduce` sum over a concatenation is the sum of the two sums |
| Seqs.SumUpdate | frontend/src/app/search/page.jsx:30-31 | changing one element changes the sum by the difference of its terms |
| Accounts.ValidEmailIffPattern | backend/controllers/authControllers.js:27-28 | the email check accepts exactly the addresses of the form local@domain.tld: three non-empty parts without white space or '@' |
| Accounts.ValidEmailHasParts | backend/controllers/authControllers.js:27-28 | an address the email test accepts has a non-empty part before its only "@", and a domain with a "." that has non-empty parts on both sides, all free of white space and "@" |
| Accounts.PartsPassEmailTest | backend/controllers/authControllers.js:27-28 | an address made of the three such parts passes the email test |
| Accounts.ValidEmail | backend/controllers/authControllers.js:27-28 | the email test: an "@" after at least one character, no white space, no later "@", and a "." strictly inside the domain; `Accounts.ValidEmailIffPattern` proves it equal to the regular expression |
| Accounts.ValidUsername | backend/controllers/authControllers.js:25-26 | a username of 2 to 20 characters; `Accounts.RegisterOkIff` uses it as register's first check |
| Accounts.StrongPassword | backend/controllers/authControllers.js:29-30 | at least eight characters without a line terminator, with a lower-case letter, an upper-case letter, a digit and one of @$!%*?&; `Accounts.WeakPasswordRefused` states its effect |
| Accounts.FindByEmail | backend/controllers/authControllers.js:53-58 | the lookup finds a row with that email, and finds none exactly when no row has it |
| Accounts.RegisterOkIff | backend/controllers/authControllers.js:23-45 | register inserts exactly when the username, email and password checks pass and neither the email nor the username is taken; every refusal is 400 or 409 |
| Accounts.WeakPasswordRefused | backend/controllers/authControllers.js:29-30 | a weak password gets 400 whatever the table holds |
| Accounts.DuplicateRefused | backend/controllers/authControllers.js:32-37 | with valid fields, a taken email or username gets 409 with the duplicate message |
| Accounts.RegisterReply | backend/controllers/authControllers.js:23-37 | register's checks in the source's order with their statuses and messages; `Accounts.RegisterOkIff`, `Accounts.WeakPasswordRefused` and `Accounts.DuplicateRefused` state its behaviour |
| Accounts.Login | backend/controllers/authControllers.js:49-80 | login: 400 without both fields, 401 for an unknown email or a failed compare, else the session claims; `Accounts.LoginSession` and `Accounts.LoginRefusals` state its behaviour |
| Accounts.ForgotReply | backend/controllers/authControllers.js:85-94 | forgotPassword's checks: 400 for a missing or malformed email, 404 for an unknown one; `Accounts.UserTable.ForgotPassword` stores the token exactly when it is Ok |
| Accounts.ResetReply | backend/controllers/authControllers.js:120-131 | resetPassword's checks: 400 for missing data, an unknown email and token pair, or an expiry before now; `Accounts.IssuedTokenAccepted`, `Accounts.IssuedTokenExpires` and `Accounts.ResetNotReplayable` state its behaviour |
| Accounts.LoginSession | backend/controllers/authControllers.js:49-81 | a successful login belongs to a stored user whose hash matched, and its role is admin exactly for the hard-coded pair |
| Accounts.LoginRefusals | backend/controllers/authControllers.js:53-61 | an unknown email and a failed compare both get the same 401 reply |
| Accounts.IssueToken | backend/controllers/authControllers.js:97-102 | storing a reset token changes only the token and expiry of the rows with that email |
| Accounts.ClearToken | backend/controllers/authControllers.js:133-137 | a reset stores the new hash and clears the token and expiry of the rows with that email, and nothing else |
| Accounts.IssuedTokenAccepted | backend/controllers/authControllers.js:120-137 | a token just issued to a known user is accepted until its expiry, inclusive |
| Accounts.IssuedTokenExpires | backend/controllers/authControllers.js:130-131 | once 15 minutes have passed, the same token is refused as expired |
| Accounts.IssuedTokenFound | backend/controllers/authControllers.js:120-131 | once a token is stored for a known email, the reset lookup by email and token finds a row, and that row carries the stored expiry |
| Accounts.ResetNotReplayable | backend/controllers/authControllers.js:124-129 | after a reset, replaying the same email and token is refused |
| Accounts.InvariantKeptByRowEdits | backend/controllers/authControllers.js:97-102 | edits of the token columns keep ids, emails and usernames unique |
| Accounts.IssueTokenKeepsInvariant | backend/controllers/authControllers.js:97-102 | storing a reset token keeps the table invariant: ids below the counter; ids, emails and usernames distinct; valid usernames and emails; a token exactly when there is an expiry |
| Accounts.ClearTokenKeepsInvariant | backend/controllers/authControllers.js:133-137 | storing a new hash and clearing the token keeps the same invariant |
| Accounts.InsertKeepsInvariant | backend/controllers/authControllers.js:39-44 | inserting a row under the next id, with a valid email and username that nobody has and no token, keeps the invariant with the counter moved on |
| Accounts.UserTable.Register | backend/controllers/authControllers.js:23-45 | the reply is the one the checks decide; on success exactly one row is appended, with the next id and the hash |
| Accounts.UserTable.ForgotPassword | backend/controllers/authControllers.js:85-116 | on success the user's row carries the token, with an expiry 15 minutes after now; on a refusal the table is unchanged |
| Accounts.UserTable.ResetPassword | backend/controllers/authControllers.js:120-139 | on success the new hash is stored and the token cleared; on a refusal the table is unchanged |
| Accounts.UserTable.InsertUser | backend/controllers/authControllers.js:39-44 | the insert of register appends exactly the new row, moves the id counter on by one and keeps the table invariant |
| Accounts.UserTable.StoreToken | backend/controllers/authControllers.js:97-102 | the update of forgotPassword changes only the matching row's token and expiry and keeps the table invariant |
| Orders.NewOrderDefaults | backend/controllers/ordersController.js:86-108 | a new order is Placed, keeps the total, and falls back to the user's email, India and UPI for empty fields |
| Orders.NewOrder | backend/controllers/ordersController.js:86-108 | the row createOrder inserts, each optional field null when empty, the contact email falling back to the user's email, the country to India and the payment mode to UPI; `Orders.NewOrderDefaults` states the defaults |
| Orders.BearerToken | backend/controllers/ordersController.js:14 | `replace('Bearer ', '')`: the first "Bearer " is removed, through `Text.ReplaceFirst` |
| Orders.CreateCheck | backend/controllers/ordersController.js:76-84 | createOrder proceeds exactly when the email and items are present and the email belongs to a user, whose id it uses |
| Orders.ListCaller | backend/controllers/ordersController.js:9-31 | the order listing serves only a stored user whose email the verified token carries |
| Orders.SetStatusEffect | backend/controllers/ordersController.js:215 | a status update rewrites only the status of the rows with that id |
| Orders.SetStatus | backend/controllers/ordersController.js:215 | the status UPDATE on every row with the id; `Orders.SetStatusEffect` states that nothing else changes |
| Orders.InvoiceNumberReadsBack | backend/controllers/ordersController.js:330 | the invoice number is "INV-" and digits that read back as the order id, 10 characters below a million |
| Orders.InvoiceNumber | backend/controllers/ordersController.js:330 | "INV-" and the id padded to six digits with zeros; `Orders.InvoiceNumberReadsBack` and `Orders.InvoiceNumberInjective` state that it reads back and is injective |
| Orders.InvoiceNumberInjective | backend/controllers/ordersController.js:330 | two orders never share an invoice number |
| Orders.PaddedDigits | backend/controllers/ordersController.js:330 | zero padding keeps a digit string all digits and keeps its value |
| Orders.InvoiceQty | backend/controllers/ordersController.js:392 | `parseInt(qty) \|\| 1` is never 0 and keeps any non-zero quantity |
| Orders.LineFor | backend/controllers/ordersController.js:392-394 | an invoice row's total is its quantity times its price, with quantity 0 printed as 1 |
| Orders.InvoiceLines | backend/controllers/ordersController.js:385-409 | the invoice has one line per item row of the order, in order, each with that row's name, quantity, price and line total |
| Orders.InvoiceAddressNonEmpty | backend/controllers/ordersController.js:351-355 | the invoice always has a non-empty address to print |
| Orders.InvoiceAddress | backend/controllers/ordersController.js:351-355 | the stored address, else the non-empty parts joined with ", " in the order line 1, line 2, "city - pincode", state, country; `Orders.InvoiceAddressNonEmpty` states that it is never empty |
| Orders.OwnedOrder | backend/controllers/ordersController.js:274-284 | the order found belongs to a user with the token's email, and None means no such order exists |
| Orders.InvoiceOnlyForOwner | backend/controllers/ordersController.js:259-284 | an invoice is produced only with a header whose token carries the email of the order's owner |
| Orders.InvoiceCaller | backend/controllers/ordersController.js:259-284 | generateInvoice's checks: 401 without a header, 500 for a rejected token, 404 unless the token's user owns the order; `Orders.InvoiceOnlyForOwner` states the ownership |
| Orders.ReviewAccepted | backend/controllers/ordersController.js:480-539 | an accepted review carries the token's email, the rating (1 to 5), the comment and the time, for a Delivered order of that user, and is the first for that order and item |
| Orders.ReviewReply | backend/controllers/ordersController.js:480-539 | submitReview's checks in the source's order and the row it inserts; `Orders.ReviewAccepted`, `Orders.SecondReviewRefused`, `Orders.BadRatingRefused` and `Orders.UndeliveredRefused` state its behaviour |
| Orders.SecondReviewRefused | backend/controllers/ordersController.js:515-522 | after a review is stored, a second one for the same order, item and user gets 400 |
| Orders.BadRatingRefused | backend/controllers/ordersController.js:496-498 | a rating outside 1 to 5 gets 400 before any lookup |
| Orders.UndeliveredRefused | backend/controllers/ordersController.js:501-512 | an order that is not Delivered gets 404 |
| Orders.DeliveryEnablesReview | backend/controllers/ordersController.js:210-221 | once an administrator marks the order Delivered, its owner's first review of an item is accepted |
| Orders.FreshIdHasNoItems | backend/controllers/ordersController.js:110-117 | no item row points at the id the next order gets |
| Orders.NewOrderKeepsInvariant | backend/controllers/ordersController.js:86-117 | an order under the next id, with one item row per line, keeps the book invariant: order ids positive, distinct and below the counter; item rows point below the counter; ratings 1 to 5; at most one review per order, item and email |
| Orders.ItemsOfNewOrder | backend/controllers/ordersController.js:110-117 | after the inserts, the items of the new order are exactly its submitted lines, in order, because no older row uses the fresh id |
| Orders.OrderBook.CreateOrder | backend/controllers/ordersController.js:57-186 | refusals leave the tables unchanged; success appends one order under the next id and exactly its item rows, in order |
| Orders.OrderBook.InsertItems | backend/controllers/ordersController.js:110-117 | the insert loop appends one item row per submitted line, in order, and changes no order or review |
| Orders.OrderBook.AttachItems | backend/controllers/ordersController.js:38-47 | each listed order gets exactly its own item rows |
| Orders.OrderBook.UserOrders | backend/controllers/ordersController.js:7-54 | the caller's orders, and only theirs, newest first, as a permutation of their rows, each with its items |
| Orders.OrderBook.AllOrders | backend/controllers/ordersController.js:189-207 | every order, newest first, as a permutation of the table, each with its items |
| Orders.OrderBook.UpdateStatus | backend/controllers/ordersController.js:210-253 | 404 for an unknown id; otherwise the status of that id is set and everything else kept |
| Orders.OrderBook.GenerateInvoice | backend/controllers/ordersController.js:259-476 | the reply follows generateInvoice's checks; the invoice carries the owner's order number, status, stored total, bill-to name and email with their fallbacks, address, phone and payment mode, and one line per item row |
| Orders.OrderBook.SubmitReview | backend/controllers/ordersController.js:480-540 | the reply is the one the checks decide, and exactly one review row is added on success |
| Catalog.CellOrNull | backend/routes/productsRoutes.js:128 | `c \|\| null` keeps truthy cells and turns the others into null |
| Catalog.CleanPath | backend/routes/productsRoutes.js:39-42 | backslashes become '/' and one leading "uploads/" is removed |
| Catalog.CandidateRecognised | backend/routes/productsRoutes.js:49-62 | every candidate extension makes a path the extension test accepts |
| Catalog.HasImageExtensionSuffix | backend/routes/productsRoutes.js:45 | the extension test looks only at the end of the path |
| Catalog.HasImageExtension | backend/routes/productsRoutes.js:45 | the case-insensitive test for ".jpg", ".jpeg", ".png", ".gif" or ".webp" at the end; `Catalog.HasImageExtensionSuffix` and `Catalog.CandidateRecognised` state its behaviour |
| Catalog.LowerKeepsSuffix | backend/routes/productsRoutes.js:45 | lower-casing a path leaves a suffix without capital letters in place, so the case-insensitive test sees it |
| Catalog.FirstOnDisk | backend/routes/productsRoutes.js:49-57 | the extension loop stops at the first candidate whose file exists, or reports that none exists |
| Catalog.UploadsUrl | backend/routes/productsRoutes.js:42-65 | the URL is the uploads base plus the cleaned path, which keeps its own image extension, else gains the first candidate found on disk, else ".png"; the URL always has an image extension |
| Catalog.FormatImageUrl | backend/routes/productsRoutes.js:34-66 | no URL for an empty path; absolute URLs pass through; otherwise an uploads URL with an existing extension, the first candidate found on disk, or ".png" |
| Catalog.StockValue | backend/routes/productsRoutes.js:124 | stock is 1 exactly for "true", true, "1" and 1, and 0 otherwise |
| Catalog.StockIsStrict | backend/routes/productsRoutes.js:124 | other truthy values such as "yes", "on", 2 and "false" give 0 |
| Catalog.ImagePath | backend/routes/productsRoutes.js:119-122 | an uploaded file wins over the form field, which falls back to null |
| Catalog.FormProduct | backend/routes/productsRoutes.js:119-128 | the columns the add and edit forms write: optional fields null when empty, the image paths and the strict stock value |
| Catalog.SheetProduct | backend/routes/productsRoutes.js:223-250 | the columns the route's import writes for a sheet row, with stock 1 exactly for "Yes"; `Catalog.ImportedWellFormed` states what the rows carry |
| Catalog.ControllerProduct | backend/controllers/productsController.js:26-45 | the columns the controller's import writes, every optional one null when empty |
| Catalog.FormCheck | backend/routes/productsRoutes.js:109-111 | the add and edit forms proceed exactly when name, category and price are present, else 400 |
| Catalog.ImportCheck | backend/routes/productsRoutes.js:197-207 | an import proceeds exactly when a file with at least one row was sent, else 400 |
| Catalog.ImportedAppend | backend/routes/productsRoutes.js:209-252 | one more kept row adds one more product, numbered after the others |
| Catalog.ImportedWellFormed | backend/routes/productsRoutes.js:223-228 | imported rows carry their required fields and consecutive ids |
| Catalog.ImportKeepsInvariant | backend/routes/productsRoutes.js:209-252 | an import keeps the catalogue's invariant: required fields, a 0/1 stock, distinct ids below the next id |
| Catalog.SubsequenceKeepsDistinctIds | backend/routes/productsRoutes.js:183-192 | removing rows keeps the remaining ids distinct |
| Catalog.Catalog.AddProduct | backend/routes/productsRoutes.js:104-143 | 400 leaves the catalogue unchanged; success appends one product under the next id, plus a review row exactly when text and reviewer are given |
| Catalog.Catalog.EditProduct | backend/routes/productsRoutes.js:146-180 | the reply is the form check's; on success only the rows with that id are rewritten from the form and uploads, and on 400 nothing changes |
| Catalog.Catalog.DeleteProduct | backend/routes/productsRoutes.js:183-192 | removes exactly the rows with that id and keeps the others in order |
| Catalog.Catalog.InsertKeptRows | backend/routes/productsRoutes.js:209-252 | inserts exactly the kept rows, in sheet order, and counts them |
| Catalog.Catalog.ImportSheet | backend/routes/productsRoutes.js:195-259 | the route's import appends exactly the rows with name, category and price, and reports their number |
| Catalog.Catalog.ImportProducts | backend/controllers/productsController.js:5-55 | the controller's import appends exactly the rows with name, category and price, and reports their number |
| Listings.Picture | frontend/src/app/search/page.jsx:37 | `main_image \|\| image` is empty only when both are |
| Listings.Displayable | frontend/src/app/components/HeroPage.jsx:84 | a product can be shown when it has a price, a name and a picture; `Hero.BestSellersSpec` states that only such products are shown |
| Cart.CartKey | frontend/src/app/cart/page.jsx:19 | the storage key is "cartItems:" followed by the lower-cased email |
| Cart.CartKeyIff | frontend/src/app/cart/page.jsx:19 | two emails share a cart exactly when they agree ignoring letter case |
| Cart.CartKeyIgnoresCase | frontend/src/app/cart/page.jsx:19 | an email and its lower-cased form give the same cart |
| Cart.InStockOnlyKeepsOrder | frontend/src/app/cart/page.jsx:23-28 | loading keeps exactly the in-stock lines, in order, and shrinks the cart exactly when some line is out of stock |
| Cart.InStockOnly | frontend/src/app/cart/page.jsx:23-28 | the lines whose stock is not 0 or false; `Cart.InStockOnlyKeepsOrder` states that it keeps exactly those lines, in order |
| Cart.Bumped | frontend/src/app/cart/page.jsx:49 | a changed quantity is never below 1 and is the sum whenever that is at least 1 |
| Cart.ChangeQtyEffect | frontend/src/app/cart/page.jsx:47-52 | the changed line keeps a quantity of at least 1 and no valid line is dropped |
| Cart.ChangeQty | frontend/src/app/cart/page.jsx:47-52 | the map with `Math.max(1, qty + delta)` on the id's lines, then the filter on positive quantities; `Cart.ChangeQtyEffect` states its effect |
| Cart.RemoveItemEffect | frontend/src/app/cart/page.jsx:54-57 | no line with the id is left, and every other line stays, in order |
| Cart.RemoveItem | frontend/src/app/cart/page.jsx:54-57 | the filter that drops the id's lines; `Cart.RemoveItemEffect` and `Cart.RemoveItemTotal` state its effect |
| Cart.Total | frontend/src/app/cart/page.jsx:59 | the sum of price times quantity over the lines; `Cart.RemoveItemTotal` and `Cart.AddTotals` state how the operations change it |
| Cart.Count | frontend/src/app/components/Header.jsx:39 | the sum of the quantities; `Cart.AddTotals` states that adding a product raises it by one |
| Cart.RemoveItemTotal | frontend/src/app/cart/page.jsx:59 | removing lines takes their price times quantity out of the total |
| Cart.HandleBuyNow | frontend/src/app/cart/page.jsx:61-75 | checkout opens exactly when signed in with a non-empty cart, for the first line; otherwise the login or empty-cart message |
| Cart.IndexOfId | frontend/src/app/search/page.jsx:28 | `findIndex` gives the first line with the id, -1 exactly when there is none |
| Cart.AddOrIncrementEffect | frontend/src/app/search/page.jsx:30-40 | adding increments the product's line by one, or appends a new line with quantity 1 |
| Cart.AddOrIncrement | frontend/src/app/search/page.jsx:28-40 | addToCart on the list: the product's line gains one, else a line with quantity 1 is appended; `Cart.AddOrIncrementEffect` and `Cart.AddKeepsIdsDistinct` state its effect |
| Cart.AddKeepsIdsDistinct | frontend/src/app/search/page.jsx:28-40 | adding keeps one line per product |
| Cart.AddTotals | frontend/src/app/search/page.jsx:30-40 | adding raises the badge count by one and the total by the product's price |
| Storage.FindIndex | frontend/src/app/search/page.jsx:28 | the loop finds the same index as `findIndex` |
| Storage.BrowserStorage.CartCountIgnoresCase | frontend/src/app/components/Header.jsx:31-41 | the badge counts the same cart whatever the letter case of the stored email |
| Storage.BrowserStorage.CartCount | frontend/src/app/components/Header.jsx:31-41 | the badge: 0 without an email, else the quantities of the user's stored cart; `Storage.BrowserStorage.CartCountIgnoresCase` and `Storage.BrowserStorage.AddToCart` state its behaviour |
| Storage.BrowserStorage.UpdateStorage | frontend/src/app/cart/page.jsx:38-45 | writes the list under the user's key only, and nothing without an email |
| Storage.BrowserStorage.LoadCart | frontend/src/app/cart/page.jsx:12-36 | the login message without an email; otherwise the in-stock lines, written back exactly when some were removed |
| Storage.BrowserStorage.ChangeQuantity | frontend/src/app/cart/page.jsx:47-52 | the stored cart becomes the changed list |
| Storage.BrowserStorage.Remove | frontend/src/app/cart/page.jsx:54-57 | the stored cart becomes the list without the id |
| Storage.BrowserStorage.AddToCart | frontend/src/app/search/page.jsx:15-49 | only when signed in: the cart gains the product and the badge count rises by one |
| Storage.BrowserStorage.ClearCart | frontend/src/app/checkout/page.jsx:114-120 | after an order the user's cart is gone and the badge shows 0; other carts stay |
| Search.ResultsSpec | frontend/src/app/search/page.jsx:52-72 | an all-white-space query finds nothing; otherwise exactly the matching products, in their order |
| Search.Results | frontend/src/app/search/page.jsx:52-72 | the trimmed, lower-cased query matched against the lower-cased name, category and subcategory; `Search.ResultsSpec` states its behaviour |
| Search.QueryCaseIgnored | frontend/src/app/search/page.jsx:65 | the letter case of the query does not change the results |
| Search.FieldCaseIgnored | frontend/src/app/search/page.jsx:68-71 | the letter case of a product's fields does not change whether it matches |
| Search.NameMatchFound | frontend/src/app/search/page.jsx:67-71 | a product whose name contains the query, ignoring case, is found |
| Search.ResultsOfTrimmed | frontend/src/app/search/page.jsx:10 | trimming the query first does not change the results |
| Checkout.LocalPart | frontend/src/app/checkout/page.jsx:47 | `split('@')[0]` is the prefix before the first '@', or the whole email without one |
| Checkout.InitialForm | frontend/src/app/checkout/page.jsx:27-48 | the form starts with the stored name or the email's local part, the email, India and UPI |
| Checkout.FullAddressNeverEmpty | frontend/src/app/checkout/page.jsx:52-58 | the combined address is never empty and starts with the first line when there is one |
| Checkout.FullAddressString | frontend/src/app/checkout/page.jsx:52-58 | the address parts filtered and joined with ", "; `Checkout.FullAddressNeverEmpty` and `Checkout.FullAddressOrder` state its behaviour |
| Checkout.FullAddressOrder | frontend/src/app/checkout/page.jsx:52-58 | for a form that passes the required-field check and keeps a country, the address is line 1, line 2 when given, "city - pincode", state and country, in that order, separated by ", " |
| Checkout.PlaceOrderGuards | frontend/src/app/checkout/page.jsx:60-72 | a request is sent exactly when signed in, required fields filled and the cart non-empty; the first failing guard picks the message |
| Checkout.PlaceOrder | frontend/src/app/checkout/page.jsx:60-100 | handlePlaceOrder's three guards in order, then the request; `Checkout.PlaceOrderGuards` states its behaviour |
| Checkout.Payload | frontend/src/app/checkout/page.jsx:79-100 | the request body: the cart total, the combined address, the form fields and one line per cart line; `Checkout.PayloadTotal`, `Checkout.PayloadMapsCart` and `Checkout.SentOrderAccepted` state its behaviour |
| Checkout.PayloadTotal | frontend/src/app/checkout/page.jsx:50 | the request's lines add up to the cart total |
| Checkout.PayloadMapsCart | frontend/src/app/checkout/page.jsx:79-100 | the request has one line per cart line with its fields copied, the cart's total and a non-empty address |
| Checkout.SentOrderAccepted | frontend/src/app/checkout/page.jsx:79-100 | a request sent for a registered email passes createOrder's checks |
| Header.OneActiveLink | frontend/src/app/components/Header.jsx:29 | a link is highlighted exactly when it is the current page, so two different paths are never both highlighted |
| Header.IsActive | frontend/src/app/components/Header.jsx:29 | a link is active when its path is the current pathname; `Header.OneActiveLink` states its behaviour |
| Header.Utf8 | frontend/src/app/components/Header.jsx:57 | a character becomes one to four bytes |
| Header.Utf8Decodes | frontend/src/app/components/Header.jsx:57 | a character's UTF-8 bytes announce their length and give the character back |
| Header.HexDigit | frontend/src/app/components/Header.jsx:57 | the hexadecimal digit written reads back as its value |
| Header.Percent | frontend/src/app/components/Header.jsx:57 | each byte becomes three characters, '%' and two hexadecimal digits |
| Header.EncodeURIComponent | frontend/src/app/components/Header.jsx:57 | the encoding holds only unreserved characters and '%' |
| Header.EncodeUnreserved | frontend/src/app/components/Header.jsx:57 | a term of unreserved characters is sent as it is |
| Header.DecodeFirst | frontend/src/app/search/page.jsx:10 | a decoded character consumes at least one and at most all of the input |
| Header.DecodeEncodedChar | frontend/src/app/search/page.jsx:10 | decoding an encoded character gives it back and consumes exactly its encoding |
| Header.DecodeEncode | frontend/src/app/search/page.jsx:10 | decoding undoes `encodeURIComponent` on every string |
| Header.Decode | frontend/src/app/search/page.jsx:10 | `decodeURIComponent`, None where it throws; `Header.DecodeEncode` states that it inverts `encodeURIComponent` |
| Header.HandleSearchSpec | frontend/src/app/components/Header.jsx:54-58 | no navigation for an all-white-space term; otherwise the search route with a query free of '&', '#', '+' and ' ' that decodes to the trimmed term |
| Header.HandleSearch | frontend/src/app/components/Header.jsx:54-58 | no navigation for a blank term, else the search route with the encoded trimmed term; `Header.HandleSearchSpec` states its behaviour |
| Header.SearchFromHeader | frontend/src/app/search/page.jsx:10 | the search page shows the same products for the decoded query as for the term typed |
| Hero.JsRem | frontend/src/app/components/HeroPage.jsx:54 | `%` lies strictly between -n and n and is the usual remainder for a non-negative dividend |
| Hero.AutoAdvance | frontend/src/app/components/HeroPage.jsx:54 | the timer step `(prev + 1) % 4`; `Hero.ChangeSlideSpec` and `Hero.TicksRotate` state its behaviour |
| Hero.ChangeSlide | frontend/src/app/components/HeroPage.jsx:60-67 | the arrow step with wrap-around at both ends; `Hero.ChangeSlideSpec` states its behaviour |
| Hero.GoToSlide | frontend/src/app/components/HeroPage.jsx:69-71 | a dot selects its own slide; `Hero.RunStaysInRange` states that the slide stays in range |
| Hero.ChangeSlideSpec | frontend/src/app/components/HeroPage.jsx:60-67 | the arrows stay in range, wrap at both ends, agree with the timer and undo each other |
| Hero.RunStaysInRange | frontend/src/app/components/HeroPage.jsx:51-71 | any run of arrows, ticks and dots keeps the carousel on one of its four slides |
| Hero.TicksRotate | frontend/src/app/components/HeroPage.jsx:54 | n ticks move the carousel n slides on, cyclically |
| Hero.TopBySpec | frontend/src/app/components/HeroPage.jsx:83-90 | a strip has min(n, qualifying) products, all qualifying, in descending order, and none left out ranks above one shown |
| Hero.BestSellersSpec | frontend/src/app/components/HeroPage.jsx:83-90 | at most six displayable products, most reviewed first, and none left out has more reviews |
| Hero.BestSellers | frontend/src/app/components/HeroPage.jsx:83-90 | displayable products sorted by reviews, the first six; `Hero.BestSellersSpec` states its behaviour |
| Hero.PremiumProductsSpec | frontend/src/app/components/HeroPage.jsx:106-118 | at most four displayable products of the four categories, most expensive first, and none left out costs more |
| Hero.PremiumProducts | frontend/src/app/components/HeroPage.jsx:106-118 | displayable products in the four categories sorted by price, the first four; `Hero.PremiumProductsSpec` states its behaviour |
| Hero.PremiumCategoryIgnoresCase | frontend/src/app/components/HeroPage.jsx:112-115 | the category test ignores letter case |
| ImageFiles.ActualImageTypeIff | backend/fix-image-extensions.js:5-36 | the four signatures exclude each other, each decides its extension, and an unknown or short buffer gives none |
| ImageFiles.ActualImageType | backend/fix-image-extensions.js:5-36 | the extension the first bytes call for, tested PNG, JPEG, GIF, WebP in order; `ImageFiles.ActualImageTypeIff` states its behaviour |
| ImageFiles.ActualExtensionShape | backend/fix-image-extensions.js:5-36 | a detected extension is lower case with one leading dot |
| ImageFiles.LastDot | backend/fix-image-extensions.js:54 | the position of the last '.', -1 when there is none |
| ImageFiles.ExtName | backend/fix-image-extensions.js:54 | `path.extname` is "" or a suffix starting at the last dot, never the whole name |
| ImageFiles.BaseName | backend/fix-image-extensions.js:73 | `path.basename` removes the suffix exactly when the name ends with it, letter case included |
| ImageFiles.ExtNameOfAppended | backend/fix-image-extensions.js:73-74 | a name followed by a dot and letters has those as its extension |
| ImageFiles.DecideIdempotent | backend/fix-image-extensions.js:54-75 | a renamed file is found correct by a second run |
| ImageFiles.Decide | backend/fix-image-extensions.js:54-75 | unknown, correct when the lower-cased extension is the detected one, else the new name; `ImageFiles.DecideIdempotent` and `ImageFiles.UpperCaseExtensionKept` state its behaviour |
| ImageFiles.UpperCaseExtensionKept | backend/fix-image-extensions.js:54-74 | "photo.JPG" holding PNG bytes becomes "photo.JPG.png" |
| ImageFiles.PlannedRenames | backend/fix-image-extensions.js:72-77 | there are no more renames than files |
| ImageFiles.FailedRenamesAppend | backend/fix-image-extensions.js:77-85 | one more rename adds one failure exactly when it fails |
| ImageFiles.PlannedCount | backend/fix-image-extensions.js:52-86 | every file is unknown, correct or renamed, and one rename is planned per renamed file |
| ImageFiles.FixExtensions | backend/fix-image-extensions.js:42-94 | the counters: renames asked for, already correct, fixed as the renames that succeed, errors as unknown plus failed; together they count every file |
| ImageFiles.AppendPlan | backend/fix-images.js:17-38 | only names without an extension are renamed, each to the name plus ".png" |
| ImageFiles.SkippedOrRenamed | backend/fix-images.js:17-38 | every file is skipped or renamed, never both |
| ImageFiles.AppendPng | backend/fix-images.js:8-43 | the renames asked for, the skipped count and the renames that succeed; skipped plus renamed-asked equals the number of files |
| ImageFiles.AppendIdempotent | backend/fix-images.js:21-28 | after a successful run every name has an extension, so a second run renames nothing |
| ImageFiles.NoPlanWhenAllHaveExtension | backend/fix-images.js:21-25 | a folder whose names all have an extension is left alone |
| ImageFiles.ConvertPlanSpec | backend/convert-to-png.js:16-34 | exactly the names ending in ".jpg" are renamed, each by replacing its first ".jpg" |
| ImageFiles.ConvertPlan | backend/convert-to-png.js:16-34 | the ".jpg" names paired with their new names, in folder order; `ImageFiles.ConvertPlanSpec` states its behaviour |
| ImageFiles.ConvertToPng | backend/convert-to-png.js:8-39 | the renames asked for and how many succeed |
| ImageFiles.PngNameSpec | backend/convert-to-png.js:23 | the new name of a ".jpg" file has the same length, and is the stem plus ".png" when its first ".jpg" is the final one |
| ImageFiles.PngName | backend/convert-to-png.js:23 | the first ".jpg" replaced by ".png"; `ImageFiles.PngNameSpec` and `ImageFiles.DoubleJpg` state its behaviour |
| ImageFiles.DoubleJpg | backend/convert-to-png.js:23 | "a.jpg.jpg" becomes "a.png.jpg", which a second run converts again |

## Left out

- Rendering, the router's navigation, `alert` messages, timers and the carousel's pause on hover are left out. The timer's tick is the `Hero.SlideAction.Tick` action. The pages' `setTimeout` redirects and the messages' clearing are not modelled.
- jwt signing and verification, bcrypt hashing and comparison, and `crypto.randomBytes` are parameters. Their cryptographic properties are outside the model.
- The clock (`Date.now()`, `NOW()`) is a parameter in milliseconds. `DATETIME` formatting and `toLocaleDateString` are not modelled.
- Sending mail is left out. The order-side mails (the order confirmation and the delivered notice) are sent inside their own try/catch, so a failed mail does not change those replies.
- Accounts.UserTable.ForgotPassword: the reset mail is sent outside any try/catch. When it fails, the source has already stored the token but sends no reply at all. The model always replies `Ok` once the token is stored.
- The invoice's PDF layout, fonts and streaming are left out. The model computes the data the invoice prints: number, address, lines and total.
- Prices and totals are integers. JavaScript floating point, `parseFloat`, `toFixed` and `Number(...)` conversions of sheet cells are not modelled.
- Spreadsheet parsing (xlsx), uploads (multer), `fetch` and the JSON encoding of replies are left out. A sheet is a sequence of maps from column header to cell.
- MySQL tables are sequences. `affectedRows` is taken as the number of matched rows. Column defaults are modelled only where a reply depends on them.
- getAllOrders's joined user name and email columns are not modelled.
- The product listing and statistics routes (GET) are left out, except their `formatImageUrl`, which `Catalog.FormatImageUrl` models.
- `toLowerCase` and `trim` are modelled on ASCII letters and the common white-space characters, not on all of Unicode.
- `Header.Decode` models `decodeURIComponent` on well-formed input. The search page reads the query with `URLSearchParams`, which turns '+' into a space and malformed escapes into U+FFFD. The header never produces either. JavaScript strings with lone surrogates are not modelled.
- `Seqs.SortDesc` is an insertion sort, which is stable like JavaScript's `sort`. Its stability is not proved, and equal keys may be listed in any order.
- The `cart-updated` and `storage` events that make the header recount the badge are left out. `Storage.BrowserStorage.CartCount` is that count.
- The file-system scripts run their renames asynchronously and print counters after a one-second timer. The model applies every rename. It counts the ones that fail through a set of failing names, as if all callbacks had run before the summary.
- File names from `readdir` are taken to contain no '/'. `path.join` normalisation is not modelled.
- The 500 replies for unexpected database or library errors are left out. Expired or malformed tokens are the exception: `Claims` models them as a rejected verification.
- `Seqs.TakeSortedIsTop` is a helper proved without a body. Its property is stated through `Hero.TopBySpec`.
- Cart.Count: the header adds `i.qty || 0`, so a line with a missing quantity counts 0. `CartItem.qty` is an integer and cannot be missing.
- Orders.InvoiceNumber: the source pads and prints the route parameter as written. An id written "0007" or "7abc" gives a different invoice number than the model's natural number. The same goes for the id in the "status updated" message of `Orders.OrderBook.UpdateStatus`.
- Accounts.ValidUsername: JavaScript's `.length` and the regular expressions count UTF-16 code units, while the model counts characters. A username or password with characters outside the Basic Multilingual Plane is judged differently. `Accounts.StrongPassword` has the same gap.
- Accounts.FindByEmail: MySQL compares `email` and `username` under the column collation, which may ignore letter case. The model compares exactly, in `Accounts.Taken` too.
- Orders.OrderBook.AttachItems: getUserOrders also joins each item's product `main_image`. The model attaches the item rows without it.
- Orders.ReviewReply: a missing `item_id` is bound as NULL, which the duplicate check never matches. The model's item id is always an integer. A non-integer rating such as 2.5 passes the range check in the source. The model's rating is an integer.
