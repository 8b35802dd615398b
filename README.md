# Real-time stock management server: a verified model of its core

The server keeps one shared inventory of products. Each connected client is
served by a `ClientHandler` on its own thread. The handler asks for a user
name and a role, then reads command lines until the client closes the
stream, and answers each one. The commands are `HELP`, `LIST`, `BUY_STOCK`,
`ANALYTICS`, `LOW_STOCK`, `DAILY_REPORT` and `EXIT`, plus the admin-only
`ADD_PRODUCT`, `ADD_STOCK`, `UPDATE_PRICE` and `REMOVE_PRODUCT`. The inventory
(`InventoryManager`) holds an ordered list of `Product` objects and the next
id to hand out. Every public method of it runs its whole body under one lock.

This project models that core in Dafny and proves what it promises.

| file | module | what it holds |
|---|---|---|
| `wrappers.dfy` | `Wrappers` | `Option` |
| `java.dfy` | `Java` | the Java library behaviour the core relies on: 32-bit `int` wrap-around, `String.trim`, `split("\\s+")`, `toUpperCase`, `equalsIgnoreCase`, `Integer.parseInt` |
| `types.dfy` | `Commands`, `Types` | the verbs; a product's state as a value (`Item`); the report; every response the server sends |
| `catalog.dfy` | `Catalog` | each inventory operation as one atomic step from a store value to a store value and a response |
| `catalog_lemmas.dfy` | `CatalogLemmas` | the id invariant, errors changing nothing, no oversell, ids never reused, the totals |
| `stock.dfy` | `Stock` | `class Product` and `class InventoryManager`, whose methods update the objects in place and are proved against `Catalog` |
| `protocol.dfy` | `Protocol` | the command dispatcher, the help text, the report, the handshake and whole sessions, as pure functions |
| `protocol_lemmas.dfy` | `ProtocolLemmas` | properties of commands and of whole sessions |
| `session.dfy` | `Handler` | `class ClientHandler`: the handshake, `generateDailyReport`, `processCommand` and the command loop, proved against `Protocol` |

Numbers are modelled as follows:

- Prices are whole cents (`int`), so totals are exact sums.
- Quantities are Java `int` (`Java.Int32`). Every place the source adds or subtracts them wraps modulo 2^32, as Java does: `addStock`, `buyStock`, and the `IntStream.sum` behind the report's "Total Units".
- Ids and `nextProductId` are unbounded integers.

`Double.parseDouble` followed by the conversion to cents is a parameter,
`parsePrice: string -> Option<int>`, where `None` stands for a
`NumberFormatException`. `Integer.parseInt` is modelled in full for ASCII
input, including the sign and the 32-bit range.

Some behaviour of the code as written is pinned down by lemmas:

- `BUY_STOCK` has no sign check, so a session without the admin role can raise stock with a negative quantity (`CatalogLemmas.NegativePurchaseRaisesStock`).
- Buying `-2147483648` units leaves a negative stock after the wrap (`CatalogLemmas.PurchaseOverflowGoesNegative`).
- `EXIT` only sets the handler thread's interrupt flag. The read loop keeps going, and every later `DAILY_REPORT` answers "Report generation interrupted" (`ProtocolLemmas.ReportAfterExit`).
- A rejected user name is still stored in the handler's field before the session ends (`Handler.ClientHandler.Authenticate`).
- The untouched sample catalogue is worth 19,023.75 (`CatalogLemmas.SeedTotalValue`).
- The verb `switch` upper-cases the first word, which is not quite `equalsIgnoreCase`: "buy_stoc" followed by the Kelvin sign (U+212A) equals "BUY_STOCK" ignoring case but is an unknown command (`ProtocolLemmas.KelvinSignIsUnknown`).
- The role answer "yeſ", with a long s (U+017F), gives the admin role (`ProtocolLemmas.YesIgnoringCase`).

## Model

| member | source | states |
|---|---|---|
| `Java.Wrap` | InventoryManager.java:68 | Java `int` arithmetic: a value in range is unchanged, and one that leaves the range by less than 2^32 comes back shifted by exactly 2^32 |
| `Java.WrapAdd` | ClientHandler.java:240 | adding in `int` one term at a time gives the exact sum wrapped once, so `IntStream.sum` is the wrapped total of the quantities |
| `Java.Upper` | ClientHandler.java:99 | `toUpperCase` keeps the length and maps each character by `Character.toUpperCase` wherever that gives ASCII (a to z, dotless i, long s) |
| `Java.EqualsIgnoreCase` | ClientHandler.java:50 | every string equals itself ignoring case, and strings that match have the same length; characters match as `equalsIgnoreCase` compares them, through upper case and then lower case |
| `Java.UpperMatchesIgnoringCase` | ClientHandler.java:99-102 | the upper-cased word equals an upper-case ASCII label exactly when the word equals the label ignoring case and holds neither capital I with dot nor the Kelvin sign |
| `Java.Trim` | ClientHandler.java:74 | `trim` leaves no character at or below U+0020 at either end, and the result is empty exactly when every character is such a character |
| `Java.Tokens` | ClientHandler.java:98 | `split("\\s+")` yields only non-empty words free of whitespace, the first being the longest whitespace-free prefix |
| `Java.TokensOfJoin` | ClientHandler.java:98 | splitting words joined by single spaces gives back exactly those words |
| `Java.TrimOfJoin` | ClientHandler.java:74 | words joined by single spaces are unchanged by `trim` |
| `Java.ParseInt` | ClientHandler.java:118 | `Integer.parseInt` accepts only an optional sign followed by digits; a leading `-` gives a value at most 0, otherwise at least 0 |
| `Java.ParseIntRoundTrip` | ClientHandler.java:130-131 | every `int`, written in decimal, parses back to itself |
| `Catalog.IndexOf` | InventoryManager.java:203-207 | `findProductById` finds the first product with the id, and finds none exactly when no product has it |
| `Catalog.AddProduct` | InventoryManager.java:48-57 | `addProduct` succeeds, appends a product with the id the counter held, raises the counter by one, and keeps the store valid with an id no product had |
| `Catalog.AddStock` | InventoryManager.java:62-77 | a not-found answer names the id and changes nothing; otherwise it is a success reporting the amount added; the counter and the number of products stay |
| `Catalog.BuyStock` | InventoryManager.java:82-107 | the answer is not-found, insufficient stock or a purchase; the first two change nothing, and insufficient stock means the request exceeds what is available; the counter and the number of products stay |
| `Catalog.UpdatePrice` | InventoryManager.java:113-137 | a not-found answer names the id and changes nothing; otherwise it is a success reporting the new price; the counter and the number of products stay |
| `Catalog.RemoveProduct` | InventoryManager.java:225-238 | a not-found answer names the id and changes nothing; otherwise it is a success and one product fewer remains; the counter stays |
| `Catalog.Seed` | InventoryManager.java:27-43 | the sample catalogue holds five products and the counter is 6 |
| `Catalog.FindLowStockItems` | InventoryManager.java:160-177 | "No low-stock items" exactly when no quantity is below the threshold; otherwise the non-empty filtered list, with the threshold |
| `Catalog.ListAllProducts` | InventoryManager.java:182-198 | "No products" exactly when the list is empty; otherwise every product with the count |
| `Catalog.Apply` | InventoryManager.java:48-238 | an error answer leaves the store as it was; listing, totalling and the low-stock filter never change it or fail; the counter goes up exactly on an add |
| `Catalog.LowStock` | InventoryManager.java:163-165 | the filter keeps exactly the products whose quantity is strictly below the threshold, and no more of them than the list holds |
| `CatalogLemmas.IndexOfUnique` | InventoryManager.java:203-207 | with unique ids the lookup of a product's id finds that very product |
| `CatalogLemmas.IndexOfAbsent` | InventoryManager.java:203-207 | an id no product has is not found |
| `CatalogLemmas.SeedCatalog` | InventoryManager.java:27-43 | the constructor leaves exactly the five sample products with ids 1 to 5 in order and the counter at 6; the store is valid and no quantity is negative |
| `CatalogLemmas.SeedTotalValue` | InventoryManager.java:143-151 | the sample catalogue is worth 1,902,375 cents |
| `CatalogLemmas.TotalValueNonNegative` | InventoryManager.java:143-151 | with no product of negative worth, the total inventory value is not negative |
| `CatalogLemmas.ApplyPreservesValid` | InventoryManager.java:48-238 | every operation keeps ids at least 1, strictly increasing in list order and below `nextProductId` |
| `CatalogLemmas.ChangedKeepsIds` | InventoryManager.java:62-137 | restocking, buying and repricing keep every id in its place and the counter |
| `CatalogLemmas.RemovePreservesValid` | InventoryManager.java:225-238 | removing a product keeps the id invariant |
| `CatalogLemmas.NextIdMonotone` | InventoryManager.java:51 | the counter goes up by exactly one on an add and stays put otherwise |
| `CatalogLemmas.FailedRequestChangesNothing` | InventoryManager.java:62-238 | an operation answered with an error leaves the store exactly as it was, and a not-found error names the id asked for |
| `CatalogLemmas.QueriesChangeNothing` | InventoryManager.java:143-198 | listing, totalling and the low-stock filter never change the store and never fail |
| `CatalogLemmas.AddProductEffect` | InventoryManager.java:48-57 | the new product takes `nextProductId`, which no product had, goes last, and the counter goes up by one |
| `CatalogLemmas.UnknownIdNotFound` | InventoryManager.java:85-88 | for an id no product has, restock, buy, reprice and remove all answer not-found and change nothing |
| `CatalogLemmas.AddStockEffect` | InventoryManager.java:62-77 | `addStock` changes only that product's quantity, to the wrapped sum; without overflow, to the exact sum |
| `CatalogLemmas.BuyStockEffect` | InventoryManager.java:85-102 | a request above the stock is an insufficient-stock error that changes nothing; otherwise only that product's quantity goes down by the request |
| `CatalogLemmas.BuyNeverNegative` | InventoryManager.java:94-102 | a purchase of a non-negative amount leaves at least zero, exactly the old stock minus the request |
| `CatalogLemmas.UpdatePriceEffect` | InventoryManager.java:113-137 | only that product's price changes; the old price is reported; id, name, quantity and every other product stay |
| `CatalogLemmas.RemoveProductEffect` | InventoryManager.java:225-238 | exactly that product is deleted, the others keep their order, the counter stays, and the id is gone |
| `CatalogLemmas.AbsentIdStaysAbsent` | InventoryManager.java:51-52 | an id below the counter that no product has stays absent under every operation |
| `CatalogLemmas.RemovedIdNeverReturns` | InventoryManager.java:225-238 | once a product is removed its id never reappears, whatever operations follow |
| `CatalogLemmas.AbsentAlongRun` | InventoryManager.java:51-52 | an absent id below the counter stays absent along any series of operations |
| `CatalogLemmas.NoOversell` | InventoryManager.java:82-107 | along any series of non-negative purchases, each product ends with its starting quantity minus what was sold of it, never below zero |
| `CatalogLemmas.InStockPreserved` | InventoryManager.java:62-107 | no quantity goes negative under an operation that adds no negative amount and does not overflow |
| `CatalogLemmas.NegativePurchaseRaisesStock` | InventoryManager.java:94-99 | `BUY_STOCK 1 -5` on the sample catalogue succeeds and raises the Laptops to 15 |
| `CatalogLemmas.PurchaseOverflowGoesNegative` | InventoryManager.java:99 | buying the smallest `int` of Laptops succeeds and leaves a negative remainder |
| `CatalogLemmas.TotalValueAppend` | InventoryManager.java:147-149 | the total over two halves is the sum of the two totals, so the parallel reduction gives the sequential sum |
| `CatalogLemmas.TotalUnitsAppend` | ClientHandler.java:240 | the unit count over two halves is the sum of the two counts |
| `CatalogLemmas.PurchaseValue` | InventoryManager.java:99-100 | a purchase lowers the inventory value by exactly the total cost it reports |
| `CatalogLemmas.RestockValue` | InventoryManager.java:68 | a restock without overflow raises the value by the added units at the product's price |
| `CatalogLemmas.AddProductValue` | InventoryManager.java:51-52 | a new product adds its quantity times price to the value |
| `CatalogLemmas.RepriceValue` | InventoryManager.java:127-128 | a price change re-prices that product's units and nothing else |
| `CatalogLemmas.RemoveValue` | InventoryManager.java:230 | a removal subtracts the removed product's value |
| `CatalogLemmas.LowStockAppend` | InventoryManager.java:163-165 | the filter distributes over concatenation, so it keeps list order |
| `CatalogLemmas.NoLowStockExactly` | InventoryManager.java:167-169 | the "No low-stock items" answer comes exactly when every quantity reaches the threshold |
| `CatalogLemmas.TwoPurchasesOfSix` | InventoryManager.java:93-102 | of two purchases of 6 of the 10 Laptops, the first succeeds leaving 4 and the second is refused without a change |
| `Types.Value` | Product.java:58-60 | `getTotalValue` is not negative when quantity and price are not |
| `Stock.Product.constructor` | Product.java:12-17 | the product holds the id, name, quantity and price it was given; `id` is a constant no method can change |
| `Stock.Product.SetName` | Product.java:37-39 | only the name changes |
| `Stock.Product.SetQuantity` | Product.java:41-43 | only the quantity changes |
| `Stock.Product.SetPrice` | Product.java:45-47 | only the price changes |
| `Stock.Product.TotalValue` | Product.java:58-60 | quantity times price, at least zero when both are, and zero when either is |
| `Stock.InventoryManager.constructor` | InventoryManager.java:27-43 | the new manager is valid and holds exactly the seeded catalogue |
| `Stock.InventoryManager.AddProduct` | InventoryManager.java:48-57 | the new state and response are those of `Catalog.AddProduct`; the old objects stay in place and a fresh one is appended |
| `Stock.InventoryManager.FindProductById` | InventoryManager.java:203-207 | the position found holds the first product with the id, and none is found exactly when no product has it |
| `Stock.InventoryManager.AddStock` | InventoryManager.java:62-77 | updates one product object in place; the new state and response are those of `Catalog.AddStock` |
| `Stock.InventoryManager.BuyStock` | InventoryManager.java:82-107 | the check and the decrement happen in one step; the new state and response are those of `Catalog.BuyStock` |
| `Stock.InventoryManager.UpdatePrice` | InventoryManager.java:113-137 | the new state and response are those of `Catalog.UpdatePrice` |
| `Stock.InventoryManager.CalculateTotalInventoryValue` | InventoryManager.java:143-155 | the answer is the sum of quantity times price over the list |
| `Stock.InventoryManager.FindLowStockItems` | InventoryManager.java:160-177 | the answer lists exactly the products below the threshold |
| `Stock.InventoryManager.ListAllProducts` | InventoryManager.java:182-198 | the loop lists every product in order with the count, or answers that there are none |
| `Stock.InventoryManager.GetAllProducts` | InventoryManager.java:212-220 | the copy holds the same product objects in the same order |
| `Stock.InventoryManager.RemoveProduct` | InventoryManager.java:225-238 | the new state and response are those of `Catalog.RemoveProduct`, and no new object appears |
| `Protocol.VerbName` | ClientHandler.java:102-184 | each `case` label is a non-empty upper-case word |
| `Protocol.VerbNameIsAsciiWord` | ClientHandler.java:102-184 | each label is printable ASCII, a word a client can type |
| `Protocol.RequestVerb` | ClientHandler.java:109-176 | a store call is one only an admin may cause exactly when its verb is an admin verb |
| `Protocol.VerbOf` | ClientHandler.java:102-185 | the `switch` picks the verb whose label is exactly the word, and none when no label is |
| `Protocol.Dispatch` | ClientHandler.java:98-190 | an unknown verb gives the unknown-command error; an admin verb without the role is refused before the argument count is checked; too few words give the verb's usage line; `LOW_STOCK` alone uses threshold 20; a store call an admin alone may cause is made only for an admin; every fixed reply is an error or the help text |
| `Protocol.ParseCommand` | ClientHandler.java:93-99 | an empty command after trimming, and only that, is "Empty command"; admin store calls only for an admin |
| `Protocol.HelpMessage` | ClientHandler.java:299-318 | the admin section appears exactly for an admin; the user lines come first and the `EXIT` line last |
| `Protocol.Breakdown` | ClientHandler.java:248-251 | one breakdown line per product, in list order, with its name, quantity, price and value |
| `Protocol.ReportOf` | ClientHandler.java:237-245 | the report names its user, counts the products in the snapshot, sums the quantities (exactly when the sum fits in an `int`) and the values, and carries the breakdown |
| `Protocol.Handshake` | ClientHandler.java:40-50 | a missing or blank user name ends the session; otherwise the name is kept as read and the role is admin exactly when the answer is "yes" in any letter case |
| `Protocol.Perform` | ClientHandler.java:102-185 | carrying out a command never changes the name or the role; the interrupt flag ends up set exactly when it was or the command is `EXIT`; a fixed reply leaves the store alone; a report request leaves it alone and is refused exactly when the flag is set |
| `Protocol.Respond` | ClientHandler.java:74-95 | a line keeps the name and the role, and a blank line is "Empty command" with nothing changed |
| `Protocol.Serve` | ClientHandler.java:69-77 | a session gives one response per line and keeps the name and the role |
| `Protocol.ParseAll` | ClientHandler.java:71-74 | each line read is parsed on its own, with the role fixed at the handshake |
| `Protocol.PerformAll` | ClientHandler.java:71-77 | the commands are carried out in order, with one response per command, keeping the name and the role |
| `ProtocolLemmas.VerbOfName` | ClientHandler.java:102-184 | every verb is picked by its own label |
| `ProtocolLemmas.VerbIgnoresCase` | ClientHandler.java:98-99 | the first word selects a verb exactly when it equals the verb's label ignoring letter case and holds neither capital I with dot nor the Kelvin sign |
| `ProtocolLemmas.KelvinSignIsUnknown` | ClientHandler.java:99-185 | "buy_stoc" with a Kelvin sign for the k equals "BUY_STOCK" ignoring case, yet is answered as an unknown command |
| `ProtocolLemmas.HelpDescribesVerb` | ClientHandler.java:301-316 | each verb the session may use, `HELP` aside, has a help line that starts with it |
| `ProtocolLemmas.HelpHidesAdminVerbs` | ClientHandler.java:308-314 | no line of a user's help text starts with an admin verb |
| `ProtocolLemmas.HelpListsUsableVerbs` | ClientHandler.java:299-318 | a verb other than `HELP` has a help line exactly when the session may use it |
| `ProtocolLemmas.PerformPreservesValid` | ClientHandler.java:106-176 | carrying out any command keeps the id invariant |
| `ProtocolLemmas.RespondPreservesValid` | ClientHandler.java:93-191 | any command line keeps the id invariant |
| `ProtocolLemmas.PerformErrorChangesNothing` | ClientHandler.java:106-187 | a command answered with an error changes neither the store nor the session |
| `ProtocolLemmas.ErrorsChangeNothing` | ClientHandler.java:93-191 | a command line answered with an "ERROR:" line changes neither the store nor the session |
| `ProtocolLemmas.PerformNonAdmin` | ClientHandler.java:106-176 | a command that is not an admin store call leaves products, order, ids, names, prices and the counter as they were |
| `ProtocolLemmas.NonAdminChangesOnlyQuantities` | ClientHandler.java:109-176 | a session without the admin role can change quantities and nothing else |
| `ProtocolLemmas.PerformSession` | ClientHandler.java:178-181 | only `EXIT` answers "Disconnecting..."; it leaves the store alone and sets the interrupt flag; nothing else changes the session |
| `ProtocolLemmas.DisconnectingOnlyOnExit` | ClientHandler.java:178-181 | the same, for a command line |
| `ProtocolLemmas.BreakdownSumsToTotal` | ClientHandler.java:241-251 | the breakdown lines' values add up to the total value |
| `ProtocolLemmas.ReportBreakdownAddsUp` | ClientHandler.java:239-251 | in the report, the breakdown adds up to the total value and has one line per product type |
| `ProtocolLemmas.ReportMatchesAnalytics` | ClientHandler.java:237-245 | on the same store, the report's total value is the `ANALYTICS` total, its count the number of products and its units the `int` sum of the quantities; neither changes the store |
| `ProtocolLemmas.ParsedNoFalseExit` | ClientHandler.java:178-184 | no line other than `EXIT` is answered "Disconnecting..." |
| `ProtocolLemmas.InterruptedStaysInterrupted` | ClientHandler.java:208-213 | once the flag is set the session never changes again, and every report request fails |
| `ProtocolLemmas.ReportAfterExit` | ClientHandler.java:178-213 | after `EXIT` the session stays interrupted, and every later `DAILY_REPORT` is "Report generation interrupted" |
| `ProtocolLemmas.NeverReusesIds` | ClientHandler.java:102-185 | an absent id below the counter stays absent and the store stays valid, whatever commands follow |
| `ProtocolLemmas.ServeNeverReusesIds` | ClientHandler.java:71-77 | the same over a whole session of lines |
| `ProtocolLemmas.UserActionsKeepCatalog` | ClientHandler.java:109-176 | commands with no admin store call keep all but the quantities |
| `ProtocolLemmas.NonAdminSessionKeepsCatalog` | ClientHandler.java:71-77 | a whole session without the admin role adds, removes, renames and re-prices nothing |
| `ProtocolLemmas.YesIgnoringCase` | ClientHandler.java:50 | "yes" ignoring case is exactly the three letters y, e, s, each in either case, where the s may also be a long s (U+017F) |
| `ProtocolLemmas.ParseWords` | ClientHandler.java:98-99 | a line of single-space-separated words is dispatched on exactly those words |
| `ProtocolLemmas.UserRefusedAdminVerb` | ClientHandler.java:109-113 | a user's line whose first word spells an admin verb in any letter case is refused, with any arguments, and changes nothing |
| `ProtocolLemmas.DispatchNumberFormat` | ClientHandler.java:117-187 | once the role and the word count pass, a command is "Invalid number format" exactly when one of the number words it reads does not parse |
| `ProtocolLemmas.DispatchFixedReplies` | ClientHandler.java:102-181 | `HELP` answers with the role's help text; `DAILY_REPORT`, and only it, asks for the report; `EXIT`, and only it, quits |
| `ProtocolLemmas.DispatchInvokes` | ClientHandler.java:102-176 | a command makes a given store call exactly when its first word names that call's verb, the role may use it, enough words are given, and the words carry the call's name and numbers |
| `ProtocolLemmas.DispatchRoundTrip` | ClientHandler.java:102-176 | the words a client types for any store call, numbers written in decimal, make exactly that call |
| `ProtocolLemmas.LineRoundTrip` | ClientHandler.java:74-176 | a line of those words separated by spaces performs that store call and answers with the store's own response |
| `ProtocolLemmas.SeedAdminAddsProductSix` | InventoryManager.java:48-57 | on the sample catalogue the first product added gets id 6, goes last, and the counter becomes 7 |
| `Handler.ClientHandler.constructor` | ClientHandler.java:24-28 | the handler starts with no user name, without the admin role and not interrupted |
| `Handler.ClientHandler.Authenticate` | ClientHandler.java:40-50 | the name line is stored as read; the session goes on exactly when `Protocol.Handshake` accepts it, with its role; a refusal leaves the role alone |
| `Handler.ClientHandler.GenerateDailyReport` | ClientHandler.java:198-255 | with the flag set the report is refused; otherwise the loop over the snapshot yields `Protocol.ReportOf` of the current products |
| `Handler.ClientHandler.Invoke` | ClientHandler.java:106-176 | the store call gives the state and response of `Catalog.Apply` |
| `Handler.ClientHandler.PerformAction` | ClientHandler.java:102-185 | the new store, session and response are those of `Protocol.Perform`; name and role never change |
| `Handler.ClientHandler.ProcessCommand` | ClientHandler.java:93-191 | the new store, session and response are those of `Protocol.Perform` on `Protocol.ParseCommand` of the line |
| `Handler.ClientHandler.ServeLine` | ClientHandler.java:72-76 | one turn of the loop extends the responses sent by this line's response |
| `Handler.ClientHandler.ReadLoop` | ClientHandler.java:71-77 | after the loop, the responses and the state are those of `Protocol.Serve` on all the lines |
| `Handler.ClientHandler.Serve` | ClientHandler.java:69-77 | the command loop leaves the store, the session and the responses that `Protocol.Serve` gives |

## Left out

- Locks, `synchronized`, `ReentrantLock`, parallel streams, thread priorities and the thread per client are left out. Each `InventoryManager` method is one atomic step, and each client's session is run alone, so interleavings between clients are not modelled.
- Handler.ClientHandler.GenerateDailyReport: reads the snapshot in the same atomic step. In the source the report thread takes it after a one-second sleep, while other clients may be changing the store.
- A report request is answered "Report generation interrupted" whenever the interrupt flag is set. In the source this assumes the flag is seen by `join` while the report thread sleeps.
- Socket and stream I/O are left out: the welcome, prompt and "---" lines, `sendMessage`, `cleanup`, and the `IOException` branch of `run`. The lines read are a sequence given as input, and its end is end of stream.
- The side messages "Goodbye <name>!" and "Generating daily report... Please wait." are not modelled; only each command's returned response is.
- The `TimeoutMonitor` thread, `System.currentTimeMillis`, `Thread.sleep` and the report's timestamp are left out. The monitor interrupts only its own thread in any case.
- Floating point is left out. Prices are whole cents and `Double.parseDouble` is the parameter `parsePrice`, so rounding, `NaN` and infinite prices are outside the model.
- `%.2f` formatting and every response's exact text are left out. Responses are a datatype that keeps each message's kind and its data, including which ones start with "ERROR:" and "SUCCESS:".
- Java.Upper: one character to one, and only where `Character.toUpperCase` gives ASCII. The one-to-many mappings of `String.toUpperCase` are left out (ß to SS, the ligature ﬆ to ST), so a first word such as "liﬆ", which Java upper-cases to LIST, is an unknown command in the model. Mappings into non-ASCII letters and the locale (Turkish dotted i) are left out too; they cannot produce an ASCII label.
- Java.EqualsIgnoreCase: exact whenever one of the two strings is ASCII, as "yes" is. Two non-ASCII letters that differ only in case (é and É) do not match in the model.
- Java.ParseInt: ASCII digits only. `Integer.parseInt` also accepts other Unicode decimal digits, which the model rejects.
- `nextProductId` is unbounded. The source's `int` counter would wrap after 2^31 - 1 additions, which is not modelled.
- The `catch (Exception e)` branch of `processCommand` cannot be reached: every index is guarded by the length checks and the only exception the parsers throw is `NumberFormatException`. It is not modelled.
- Stock.InventoryManager.ListAllProducts: keeps the products and the count but not the text layout of the listing.
- CatalogLemmas.BuyNeverNegative: holds only for non-negative requests, because the source has no sign check. A negative request raises the stock instead (`CatalogLemmas.NegativePurchaseRaisesStock`).
- Server.java, StockClientGUI.java, SimpleClient.java and ConcurrentStressTest.java are not part of this model.
