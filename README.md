# Food-ordering app core, modelled in Dafny

A model of the business core of a small restaurant ordering web app written
in C#. It covers four parts:

- **Load-test HTML scanners** (`LoadTest`). A page is scanned for the
  anti-forgery token, first after the plain `name="__RequestVerificationToken"`
  marker, then after the hidden-input marker. A page is also scanned for the
  first menu item id, trying four patterns in order: the `data-menu-item-id`
  attribute, the `/Menu/AddToCart?id=` link, `asp-route-id`, and the hidden
  span. Neither scanner ever throws.
- **Menu items service** (`MenuItems`). Creating an item checks for a duplicate
  name and then the attached photo (extension whitelist, 5 MiB limit, `image/`
  content type). It also lists items under optional filters, deletes by text
  id, and looks items up for the detail and add-to-cart pages.
- **Carts service** (`Carts`). Adding to a cart checks the id, then the
  amount, then that the item exists, and appends one entry. Viewing a cart
  skips deleted menu items and shows, for each entry, the amount of the first
  entry for that item.
- **Analytics service** (`Analytics`). It computes the conversion rate
  between cart additions and ordered lines, records cart additions, and
  stamps a user's last-online time.

Shared pieces:

- `Wrappers` holds `Option` and `Result`.
- `Errors` holds the exceptions the services throw, as values.
- `Guids` models `Guid.TryParse` and `Guid.ToString()`.

Repositories are in-memory state: a sequence of menu items, and a map from
user to cart entries. The database's fresh ids, `Guid.NewGuid()` and
`DateTime.UtcNow` are parameters of the methods that use them.

## Model

| member | source | states |
|---|---|---|
| LoadTest.IndexOf | csharp-app/Application/Mockups.Tests/LoadTest/Program.cs:490 | the result is -1 or a position at or after `from` where the pattern occurs, and no occurrence lies before it |
| LoadTest.ValueAfter | csharp-app/Application/Mockups.Tests/LoadTest/Program.cs:493-501 | a non-empty result holds no `"` and is the text quoted by the first `value="` at or after the start |
| LoadTest.ValueAfterFinds | csharp-app/Application/Mockups.Tests/LoadTest/Program.cs:493-501 | conversely, a closed, non-empty, quote-free first `value="…"` at or after the start is exactly what the scan returns |
| LoadTest.ScanValue | csharp-app/Application/Mockups.Tests/LoadTest/Program.cs:493-502 | the in-place `IndexOf`/`+= 7` scan yields exactly `ValueAfter` |
| LoadTest.ExtractAntiForgeryToken | csharp-app/Application/Mockups.Tests/LoadTest/Program.cs:484-527 | null or empty input gives ""; the plain marker's value wins, and the hidden-input scan is used only when it is ""; a non-empty token is the quoted first value after a `name="__RequestVerificationToken"` marker and holds no quote |
| LoadTest.PlainValueIsToken | csharp-app/Application/Mockups.Tests/LoadTest/Program.cs:490-501 | a value found after the plain marker is a token of the page |
| LoadTest.HiddenValueIsToken | csharp-app/Application/Mockups.Tests/LoadTest/Program.cs:506-517 | a value found after the hidden-input marker is a token of the page too, since that marker ends with the plain one |
| LoadTest.HiddenScanNeedsEarlierMarker | csharp-app/Application/Mockups.Tests/LoadTest/Program.cs:490-519 | the hidden-input branch can only succeed where the plain one failed when the first plain marker lies before the hidden input |
| LoadTest.SpanEnd | csharp-app/Application/Mockups.Tests/LoadTest/Program.cs:543-546 | the first position at or after the start that is the end of the text or a stop character, with no stop character before it |
| LoadTest.ScanToStop | csharp-app/Application/Mockups.Tests/LoadTest/Program.cs:562-567 | the `idx++` loop stops exactly at `SpanEnd` |
| LoadTest.IdAfter | csharp-app/Application/Mockups.Tests/LoadTest/Program.cs:537-552 | a found id is non-empty, accepted by `Guid.TryParse`, holds no stop character, and is the text after the first occurrence of the pattern, up to a stop |
| LoadTest.IdAfterFinds | csharp-app/Application/Mockups.Tests/LoadTest/Program.cs:537-552 | conversely, a non-empty GUID without stop characters that follows the first occurrence of the pattern, up to a stop or the end of the page, is exactly what the scan returns |
| LoadTest.DataAttrWins | csharp-app/Application/Mockups.Tests/LoadTest/Program.cs:537-551 | a GUID after the first `data-menu-item-id="` is the scanner's answer, whatever the later patterns would find |
| LoadTest.ScanPattern | csharp-app/Application/Mockups.Tests/LoadTest/Program.cs:554-574 | one pattern block yields exactly `IdAfter` |
| LoadTest.FirstSome | csharp-app/Application/Mockups.Tests/LoadTest/Program.cs:537-616 | the result is None exactly when every candidate is None, and otherwise it is the first Some |
| LoadTest.ExtractFirstMenuItemId | csharp-app/Application/Mockups.Tests/LoadTest/Program.cs:532-622 | null input gives null; otherwise the first id found by the data attribute, AddToCart link, route attribute and hidden span, in that order; a result is non-empty, a GUID, and holds no `"` or `'` |
| LoadTest.LinkIdHasNoDelimiter | csharp-app/Application/Mockups.Tests/LoadTest/Program.cs:554-574 | an id taken from the AddToCart link holds none of `"`, `'`, space, `&`, `#`, `?`, `>`, `<` |
| LoadTest.HiddenSpanNeedsEarlierAttribute | csharp-app/Application/Mockups.Tests/LoadTest/Program.cs:594-614 | the hidden-span pattern yields an id the data-attribute pattern missed only when the first `data-menu-item-id="` lies before the span |
| Guids.ParseFormatN | csharp-app/Application/Mockups/Services/Carts/CartsService.cs:23 | the 32-digit "N" text of a GUID parses back to it |
| Guids.ParseIgnoresSpace | csharp-app/Application/Mockups/Services/Carts/CartsService.cs:23 | white space before and after a GUID's text, each side chosen independently, does not change what it parses to |
| Guids.FormatGuid | csharp-app/Application/Mockups/Services/MenuItems/MenuItemsService.cs:56 | `Guid.ToString()` gives 36 characters with dashes at 8, 13, 18, 23 |
| Guids.ParseFormat | csharp-app/Application/Mockups.Tests/Mockups.Tests/MenuItemsServiceTests.cs:134 | every formatted GUID parses back to itself |
| Guids.TrimStartDropsSpace | csharp-app/Application/Mockups.Tests/LoadTest/Program.cs:548 | trimming the start removes exactly the leading white space |
| Guids.TrimEndDropsSpace | csharp-app/Application/Mockups.Tests/LoadTest/Program.cs:548 | trimming the end removes exactly the trailing white space |
| Guids.GuidAlphabet | csharp-app/Application/Mockups.Tests/LoadTest/Program.cs:548 | a string the modelled parser accepts holds only white space, hex digits, dashes, braces and parentheses |
| MenuItems.ToViewModel | csharp-app/Application/Mockups/Services/MenuItems/MenuItemsService.cs:112-121 | the view model copies every field of the item |
| MenuItems.FindById | csharp-app/Application/Mockups/Services/MenuItems/MenuItemsService.cs:134 | an item is found exactly when one has the id, and the found item has it |
| MenuItems.FindByName | csharp-app/Application/Mockups/Services/MenuItems/MenuItemsService.cs:26 | an item is found exactly when one has the name, and the found item has it |
| MenuItems.WithoutId | csharp-app/Application/Mockups/Services/MenuItems/MenuItemsService.cs:141 | the remaining items are exactly those with another id |
| MenuItems.WithoutIdKeepsIds | csharp-app/Application/Mockups/Services/MenuItems/MenuItemsService.cs:141 | deleting keeps ids distinct |
| MenuItems.WithoutIdKeepsNames | csharp-app/Application/Mockups/Services/MenuItems/MenuItemsService.cs:141 | deleting keeps names distinct |
| MenuItems.WithoutIdLength | csharp-app/Application/Mockups/Services/MenuItems/MenuItemsService.cs:141 | with distinct ids, deleting a present id removes exactly one item, and an absent id removes none |
| MenuItems.Select | csharp-app/Application/Mockups/Services/MenuItems/MenuItemsService.cs:94-109 | the listing holds exactly the repository items that match the filter |
| MenuItems.RequestedFilter | csharp-app/Application/Mockups/Services/MenuItems/MenuItemsService.cs:94-109 | an item matches exactly when it has the requested vegan flag, if one is given, and one of the requested categories, if any are given |
| MenuItems.ExtensionBefore | csharp-app/Application/Mockups/Services/MenuItems/MenuItemsService.cs:37 | the extension scan: a non-empty extension is a dot plus a dot-free, separator-free tail of the path |
| MenuItems.GetExtensionOf | csharp-app/Application/Mockups/Services/MenuItems/MenuItemsService.cs:37 | `stem.e` has extension `.e` |
| MenuItems.RemoveDots | csharp-app/Application/Mockups/Services/MenuItems/MenuItemsService.cs:37 | the result holds no dot and every other character of the input |
| MenuItems.ExtensionIgnoresCase | csharp-app/Application/Mockups/Services/MenuItems/MenuItemsService.cs:37-41 | the checked extension of `stem.e` is `e` lower-cased |
| MenuItems.CheckFile | csharp-app/Application/Mockups/Services/MenuItems/MenuItemsService.cs:15-54 | a file passes exactly when its extension is jpg, jpeg or png, its length is at most 5·1024·1024 and its lower-cased content type contains `image/`; the extension is checked first, then the size; every refusal is an `ArgumentException` |
| MenuItems.SizeLimitIsInclusive | csharp-app/Application/Mockups/Services/MenuItems/MenuItemsService.cs:44-47 | a PNG of exactly 5 MiB passes, one byte more is refused as too large |
| MenuItems.CreateError | csharp-app/Application/Mockups/Services/MenuItems/MenuItemsService.cs:26-54 | a taken name is refused before the file is looked at; without a file nothing else is refused |
| MenuItems.MenuItemsService.CreateMenuItem | csharp-app/Application/Mockups/Services/MenuItems/MenuItemsService.cs:24-86 | a refused model leaves the repository unchanged; otherwise exactly one item is appended with the model's fields and a photo path of "" or `files/{guid}-{file name}`; ids stay distinct and distinct names stay distinct |
| MenuItems.MenuItemsService.GetAllMenuItems | csharp-app/Application/Mockups/Services/MenuItems/MenuItemsService.cs:88-125 | a null category array throws `ArgumentNullException`; otherwise one copy per listed item, in order |
| MenuItems.MenuItemsService.DeleteMenuItem | csharp-app/Application/Mockups/Services/MenuItems/MenuItemsService.cs:127-144 | a malformed id throws and deletes nothing; an unknown id gives null and deletes nothing; a known id deletes exactly that item and gives true |
| MenuItems.MenuItemsService.GetItemModelById | csharp-app/Application/Mockups/Services/MenuItems/MenuItemsService.cs:146-170 | null for a malformed id; for a well-formed one, a result exactly when the item exists, and it is a copy of that item |
| MenuItems.MenuItemsService.GetAddToCartModel | csharp-app/Application/Mockups/Services/MenuItems/MenuItemsService.cs:177-204 | a malformed id gives `ArgumentException`, an unknown one `KeyNotFoundException`; a well-formed id of an existing item succeeds, and success wraps a copy of that item |
| MenuItems.MenuItemsService.GetItemNameById | csharp-app/Application/Mockups/Services/MenuItems/MenuItemsService.cs:206-209 | a name exactly when the item exists, and it is that item's name |
| MenuItems.LookupByFormattedId | csharp-app/Application/Mockups.Tests/Mockups.Tests/MenuItemsServiceTests.cs:114-140 | looking up an item by its id's text form finds a copy of that item on both lookup pages |
| Carts.CartsRepository.AddItemToCart | csharp-app/Application/Mockups/Services/Carts/CartsService.cs:44 | the entry is appended to that user's cart (an absent cart counts as empty) |
| Carts.FirstAmount | csharp-app/Application/Mockups/Services/Carts/CartsService.cs:81 | the amount of the first entry for the menu item |
| Carts.CartView | csharp-app/Application/Mockups/Services/Carts/CartsService.cs:72-89 | the view is no longer than the cart |
| Carts.CartsService.AddItemToCart | csharp-app/Application/Mockups/Services/Carts/CartsService.cs:21-45 | a null, empty or malformed id throws first, then an amount of 0 or less, then an unknown item; a well-formed id of an existing item with a positive amount succeeds; a refusal leaves the carts unchanged; success appends exactly one entry with the item's id and the amount; other users' carts never change |
| Carts.CartsService.GetUsersCart | csharp-app/Application/Mockups/Services/Carts/CartsService.cs:62-92 | the `foreach`/`continue` loop builds `CartView` of the whole cart, whatever `isForOrder` is |
| Carts.LiveIndices | csharp-app/Application/Mockups/Services/Carts/CartsService.cs:72-79 | the positions of the entries whose menu item exists, strictly increasing |
| Carts.LiveIndicesComplete | csharp-app/Application/Mockups/Services/Carts/CartsService.cs:72-79 | every entry whose menu item exists is among those positions |
| Carts.CartViewFollowsLive | csharp-app/Application/Mockups/Services/Carts/CartsService.cs:72-89 | the view has one line per live entry, in cart order, and its ids are exactly those entries' ids |
| Carts.CartViewEntries | csharp-app/Application/Mockups/Services/Carts/CartsService.cs:74-88 | every line names an existing menu item under its own name, comes from a cart entry, and shows the amount of the first entry for that item |
| Carts.CartViewComplete | csharp-app/Application/Mockups/Services/Carts/CartsService.cs:72-89 | with no deleted items the view has one line per entry, in cart order |
| Carts.CartViewSkipsDangling | csharp-app/Application/Mockups/Services/Carts/CartsService.cs:76-79 | an entry whose menu item is gone makes the view shorter than the cart |
| Carts.CartViewOwnAmounts | csharp-app/Application/Mockups/Services/Carts/CartsService.cs:81 | with one entry per menu item, every line shows its entry's own amount |
| Carts.CartViewPrefix | csharp-app/Application/Mockups/Services/Carts/CartsService.cs:72-89 | appending entries does not change the lines of the earlier ones |
| Carts.AddedItemIsShownLast | csharp-app/Application/Mockups/Services/Carts/CartsService.cs:38-44 | adding an item not yet in the cart adds exactly one line, with that amount, at the end of the view |
| Carts.RepeatedEntryShowsFirstAmount | csharp-app/Application/Mockups/Services/Carts/CartsService.cs:81 | any two lines of the view for one menu item show the same amount: that of the cart entry behind the earlier line, the first entry for that item |
| Analytics.ConversionRate | csharp-app/Application/Mockups/Services/Analytics/AnalyticsService.cs:29 | 0 without cart additions; otherwise rate × additions = purchases × 100; never negative |
| Analytics.RateAtMostHundred | csharp-app/Application/Mockups/Services/Analytics/AnalyticsService.cs:29 | with cart additions, the rate is at most 100 exactly when purchases do not exceed additions |
| Analytics.AdditionLowersRate | csharp-app/Application/Mockups/Services/Analytics/AnalyticsService.cs:29 | one more cart addition never raises the rate, and lowers it when there was any purchase |
| Analytics.AnalyticsService.GetConversionRate | csharp-app/Application/Mockups/Services/Analytics/AnalyticsService.cs:24-40 | the rate over the stored cart additions and ordered lines (not orders) |
| Analytics.AnalyticsService.TrackCartAddition | csharp-app/Application/Mockups/Services/Analytics/AnalyticsService.cs:42-56 | exactly one record with the given menu item, user, session and address is appended; the count rises by one; ordered lines and users are unchanged |
| Analytics.AnalyticsService.UpdateUserLastOnline | csharp-app/Application/Mockups/Services/Analytics/AnalyticsService.cs:58-66 | a known user's last-online time becomes the current time; an unknown id changes nothing; no other user changes |

## Left out

- Network I/O, cookies, concurrency and timing of the load test, `Main` and `PrintMetrics`: not part of the modelled core.
- LoadTest.IndexOf: compares ordinally, while .NET's `string.IndexOf(string)` compares with the current culture. Plain ASCII markers are assumed to match the same way.
- Guids.TryParse: rejects some text that .NET accepts. It has no "X" format (`{0x…,…}`). It does not accept the leading `+` or `0x` that .NET's "D" parser allows on each dash-separated group, which the "B" and "P" formats share. It trims only ASCII white space. So the model accepts a subset of what `Guid.TryParse` accepts, and the alphabet lemma is about the model only.
- MenuItems.ToLower: lower-cases ASCII letters only, where `ToLowerInvariant` covers all of Unicode.
- MenuItems.GetExtension: treats `/` as the only directory separator and ignores the Windows-specific rules of `Path.GetExtension`.
- Writing the uploaded photo (MenuItemsService.cs:56-72): directory creation and stream copy are file-system I/O. Only the resulting photo path is modelled.
- Price is a `real`. `float` rounding of prices and `double` rounding of the conversion rate are not modelled.
- The repositories' SQL behaviour is not part of this model. Filters are modelled as exact matches on the vegan flag and on membership in the category list. Names are compared exactly, because the database collation is unknown. A missing cart is empty.
- MenuItems.MenuItemsService.CreateMenuItem: requires the database-assigned `newId` to be unused, because the database guarantees a fresh key.
- MenuItems.MenuItemRepository.AddItem: requires an unused key and keeps ids distinct; an insert with a taken key, which the database refuses with an exception, is not modelled.
- `MenuItemsService.AddItemToCart` and `CartsService.ClearUsersCart`, `DeleteItemFromCart` and `GetCartItemCount` only forward to another service or to the cart repository, whose code is not shown.
- Carts.CartView: the view model's `CartIndexViewModel` wrapper is a plain sequence.
- Analytics: the inter-order interval, last-month statistics and duration formatting are declared only in view models, with no implementing code.
- Analytics.AnalyticsService.GetTotalCartAdditions and GetTotalPurchases: plain counts of the two tables, with no contract beyond their definition. Their meaning is stated in GetConversionRate and TrackCartAddition.
- Controllers, identity setup, migrations and data seeding: routing and schema glue over the services.
