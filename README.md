# Auction platform core, modelled in Dafny

This project models the server side of an online auction platform. Sellers (admins) list items. Users bid in Polish grosze over HTTP or over a socket channel. A late bid extends the deadline (anti-sniping). A background worker closes expired auctions, records the winner, audits the closing and mails the winner. A single settings row is read and saved by the admin panel.

The database is a `Ledger` class holding three tables as sequences and the users as a map:
- the auction table;
- the bid table;
- the users, a map from id to e-mail;
- the audit log.

A row's id is its position in its table. The ledger invariant `Consistent` has three parts:
- every bid belongs to an existing auction;
- an ACTIVE auction has no winner;
- an ENDED auction's winner is its top bid, or none when it has no bids.

Every state-changing handler keeps this invariant. Every handler also keeps `Evolves`:
- auction rows are only added;
- a deadline never moves back;
- an ENDED row never changes;
- only status, deadline and winner ever change in a row.

"Top bid" models the query "order by amount descending, take 1". It is the first bid, in table order, with the largest amount.

Files:
- `model.dfy`: the entities, the activity window, the deadline extension, and the top bid with its properties.
- `ledger.dfy`: the tables, the consistency invariant, and the lemmas for adding a bid or an auction.
- `auctions_routes.dfy` covers the auction routes:
  - bid placement over HTTP;
  - the top-status poll;
  - the admin overview (a sorted partition of the auctions);
  - creating and relisting an auction;
  - the winner readout.
- `bidding.dfy`: the socket channel. Its `Hub` holds the rooms and the log of emitted events. The file also compares the two channels' bid rules.
- `close_expired.dfy`: one tick of the close-expired worker, as a selection scan and a closing loop, plus the lemmas about repeated ticks.
- `settings_routes.dfy`: loading and saving the settings row, including alias resolution and the partial update.

Notable behaviour of the code:
- The two bid channels compute the minimum differently.
  - HTTP uses `max(basePrice, top or 0) + minIncrement`.
  - The socket uses `(top, or basePrice when there is none) + minIncrement`.
  - `ChannelsAgree` proves the two agree whenever the base price is non-negative and every bid is at or above it, whatever the increment.
  - `SocketKeepsPriceFloor` shows that the socket channel preserves that premise when the increment is non-negative. `NegativeIncrementBreaksFloor` shows that a negative increment lets a bid below the base price through.
  - `NegativeBaseSplitsChannels` shows where they part.
- On both channels, an accepted bid strictly exceeds the previous top, and becomes the new top bid, when the increment is positive (`PlacedBidBecomesTop` for HTTP, `SocketBidBecomesTop` for the socket). With a zero increment the HTTP route accepts a tie (`ZeroIncrementAdmitsTie`).
- Every settings save writes both date fields. The `||` chain over the aliases ends in `null`, so a save with no truthy date alias clears both dates (`SaveWithoutDatesClearsThem`, `EmptySave`).

## Model

| member | source | states |
|---|---|---|
| Model.IsActive | backend/src/routes/auctions.routes.ts:226 | ACTIVE with now inside the window, both ends inclusive; the same test as backend/src/services/bidding.ts:24-28; used by the contracts of JudgeBid and Judge |
| Model.Highest | backend/src/routes/auctions.routes.ts:221 | "order by amount desc, take 1" over a bid list; characterized by Model.HighestIsMaximum |
| Model.TopBid | backend/src/services/closeExpired.ts:11 | an auction's top bid, as the bid and close queries include it (also backend/src/services/bidding.ts:19); characterized by Model.TopBidIsHighest |
| Model.Extended | backend/src/routes/auctions.routes.ts:240-246 | the deadline moves only when at most 120 s are left, and then by exactly 120 s; it never decreases |
| Model.HighestIsMaximum | backend/src/routes/auctions.routes.ts:219-222 | "order by amount desc, take 1" yields nothing exactly on no bids, else a member no bid outbids |
| Model.TopBidIsHighest | backend/src/services/closeExpired.ts:10-11 | an auction's top bid is one of its own bids with the largest amount; none iff it has no bids |
| Model.TopBidAppendHigher | backend/src/routes/auctions.routes.ts:238 | a stored bid above every bid of its auction becomes the auction's top bid |
| Ledger.ConsistentAfterBid | backend/src/routes/auctions.routes.ts:238 | storing a bid for an ACTIVE auction keeps every ENDED auction's winner its top bid |
| Ledger.ConsistentAfterAdd | backend/src/routes/auctions.routes.ts:117-134 | adding an ACTIVE auction without winner at the next id keeps the tables consistent and only adds a row |
| Ledger.FreshAuctionHasNoBids | backend/src/routes/auctions.routes.ts:157-179 | a newly created auction has no bids and no top bid |
| AuctionsRoutes.MinRequired | backend/src/routes/auctions.routes.ts:230-231 | the HTTP minimum is at least base price plus increment, at least top plus increment, and is one of the candidates |
| AuctionsRoutes.JudgeBid | backend/src/routes/auctions.routes.ts:213-236 | the checks run in order non-finite, unknown, inactive (both window ends inclusive), below minimum; a finite bid on an active auction below the minimum is answered with exactly that minimum; accepted iff all pass, with the bid amount and the extended deadline; the status is 404 iff the amount is finite and the auction unknown, 200 iff accepted, 400 otherwise |
| AuctionsRoutes.PlaceBid | backend/src/routes/auctions.routes.ts:210-248 | the response is JudgeBid's; on acceptance exactly one bid with the amount, user and auction is appended and only endsAt may change; otherwise nothing is written; consistency is kept |
| AuctionsRoutes.CreateComplete | backend/src/routes/auctions.routes.ts:99-107 | every required create field is truthy; CreateAuction answers 400 exactly when it fails |
| AuctionsRoutes.RelistComplete | backend/src/routes/auctions.routes.ts:148 | every required relist field is truthy; Relist answers 400 exactly when it fails |
| AuctionsRoutes.PlacedBidBecomesTop | backend/src/routes/auctions.routes.ts:230-238 | with a positive increment an accepted bid beats every earlier bid of the auction and becomes its top bid |
| AuctionsRoutes.ZeroIncrementAdmitsTie | backend/src/routes/auctions.routes.ts:230-232 | with a zero increment, a bid equal to any top bid at or above the base price is accepted |
| AuctionsRoutes.TopStatus | backend/src/routes/auctions.routes.ts:186-207 | 404 iff unknown; topAmount plus the increment is exactly the bid route's minimum, so topAmount is max(base price, top bid or 0); it is at least the base price and every bid |
| AuctionsRoutes.WithStatus | backend/src/routes/auctions.routes.ts:42-54 | exactly the auctions with the given status |
| AuctionsRoutes.WithStatusCounts | backend/src/routes/auctions.routes.ts:42-54 | the filter keeps every copy of an auction with the status and no copy of any other |
| AuctionsRoutes.ByBids | backend/src/routes/auctions.routes.ts:56-57 | exactly the auctions with (or without) bids |
| AuctionsRoutes.ByBidsSplits | backend/src/routes/auctions.routes.ts:56-57 | the two filters split the ended auctions as a multiset |
| AuctionsRoutes.Insert | backend/src/routes/auctions.routes.ts:48 | inserting into a deadline-ordered list keeps it ordered and adds exactly that auction |
| AuctionsRoutes.SortByEndsAt | backend/src/routes/auctions.routes.ts:48-53 | "order by endsAt" is an ordered permutation |
| AuctionsRoutes.FilterKeepsOrder | backend/src/routes/auctions.routes.ts:56-57 | filtering a deadline-descending list keeps it deadline-descending |
| AuctionsRoutes.AdminOverview | backend/src/routes/auctions.routes.ts:41-60 | active: the ACTIVE auctions by deadline ascending; ended and noBids: the ENDED auctions by deadline descending, split by whether they have bids, together a permutation |
| AuctionsRoutes.UploadedImages | backend/src/routes/auctions.routes.ts:111-115 | one image per uploaded file, url under /uploads/, numbered in upload order |
| AuctionsRoutes.NewListing | backend/src/routes/auctions.routes.ts:117-134 | a created auction is ACTIVE without winner, by the admin, with the uploaded images, the form's title, description, condition, prices and window, the given reserve or none, and each of the three flags true iff its field is "true" |
| AuctionsRoutes.Relisted | backend/src/routes/auctions.routes.ts:157-179 | a relisted auction keeps the item, seller, reserve and images, takes the new prices and window, and is ACTIVE without winner |
| AuctionsRoutes.CreateAuction | backend/src/routes/auctions.routes.ts:77-137 | 400 iff a required field is missing, with nothing written; otherwise exactly the new listing is appended |
| AuctionsRoutes.Relist | backend/src/routes/auctions.routes.ts:141-183 | 400 iff a field is missing, 404 iff the auction is unknown, with nothing written; otherwise the relisted auction is appended |
| AuctionsRoutes.RelistStartsClean | backend/src/routes/auctions.routes.ts:157-179 | a relisted auction has no bids of the old one and keeps the tables consistent |
| AuctionsRoutes.WinnerOf | backend/src/routes/auctions.routes.ts:251-264 | 404 iff unknown, 400 iff not ENDED; the amount and the user are those of the auction's top bid, or none when it has no bids |
| AuctionsRoutes.WinnerBidIsStored | backend/src/routes/auctions.routes.ts:261-262 | the winning bid's id finds that bid in the bid table |
| Bidding.MinRequired | backend/src/services/bidding.ts:32-33 | the socket minimum never exceeds the HTTP route's; Bidding.MinimaAgree says exactly when they coincide |
| Bidding.Judge | backend/src/services/bidding.ts:17-36 | unknown, then inactive, then non-finite or below the minimum; a non-finite or too-low amount on an active auction is answered with exactly that minimum; accepted iff all pass, with the new deadline iff at most 120 s were left |
| Bidding.Hub.Join | backend/src/services/bidding.ts:7-9 | the socket is added to the auction's room; no other room changes |
| Bidding.Hub.PlaceBid | backend/src/services/bidding.ts:12-68 | a rejection or failed lookup sends one bid-error to the sender only and writes nothing; an acceptance stores exactly one bid, then broadcasts new-bid to the room, and ends-at-updated iff the deadline was extended; a failing write sends one server error instead |
| Bidding.JoinedSocketHears | backend/src/services/bidding.ts:55-62 | a socket that joined the room receives every broadcast of an accepted bid |
| Bidding.MinimaAgree | backend/src/services/bidding.ts:32-33 | the socket and HTTP minima coincide iff there are no bids and the base price is non-negative, or the top bid is at least the base price |
| Bidding.ChannelsAgree | backend/src/services/bidding.ts:32-36 | with a non-negative base price and every bid at or above it, both channels accept the same amounts with the same deadline, for any increment |
| Bidding.SocketKeepsPriceFloor | backend/src/services/bidding.ts:32-36 | a socket bid accepted when every bid is at or above the base price is at least base price plus increment, and so, with a non-negative increment, at least the base price |
| Bidding.NegativeIncrementBreaksFloor | backend/src/services/bidding.ts:32-36 | with base price 100 and increment -50 and no bids, the socket accepts 50, below the base price |
| Bidding.SocketBidBecomesTop | backend/src/services/bidding.ts:32-41 | with a positive increment a bid the socket accepts beats every earlier bid of the auction and, once stored, is its top bid |
| Bidding.NegativeBaseSplitsChannels | backend/src/services/bidding.ts:32-33 | a negative base price makes the socket accept a bid the HTTP route refuses |
| CloseExpired.Batch | backend/src/services/closeExpired.ts:8-15 | the first 20 ACTIVE auctions with endsAt at or before now, in table order; characterized by CloseExpired.BatchSpec |
| CloseExpired.Close | backend/src/services/closeExpired.ts:18-24 | the auction set to ENDED with its top bid's id as winner, or none; characterized by CloseExpired.SweepPicksHighest |
| CloseExpired.EndEntry | backend/src/services/closeExpired.ts:26-32 | the AUCTION_END audit row with the seller, the auction and the top amount or none; characterized by CloseExpired.AuditForShape |
| CloseExpired.MailFor | backend/src/services/closeExpired.ts:34-41 | the winner mail when the auction has a top bid whose bidder exists, with the title and the bid's amount; characterized by CloseExpired.MailsComplete and CloseExpired.MailsSound |
| CloseExpired.ExpiredUpToSpec | backend/src/services/closeExpired.ts:8-9 | the scan yields exactly the ACTIVE auctions with endsAt at or before now, in increasing order |
| CloseExpired.BatchSpec | backend/src/services/closeExpired.ts:8-15 | the selection holds only expired auctions, each once, at most 20, and all of them when fewer than 20 |
| CloseExpired.SelectExpired | backend/src/services/closeExpired.ts:8-15 | the selection scan computes exactly Batch |
| CloseExpired.AuditForShape | backend/src/services/closeExpired.ts:26-32 | one AUCTION_END row per closed auction, in order, with the seller, the auction and the top amount or none |
| CloseExpired.MailsForSpec | backend/src/services/closeExpired.ts:34-48 | exactly one mail per closed auction whose top bidder exists: each such mail is sent, every mail sent is one of them, their number equals the number of such auctions; no bids, no mails |
| CloseExpired.MailsCount | backend/src/services/closeExpired.ts:34-41 | the number of mails equals the number of closed auctions whose top bidder exists |
| CloseExpired.MailsComplete | backend/src/services/closeExpired.ts:34-41 | every closed auction with an existing top bidder has its mail, with that bid's amount and the title, sent |
| CloseExpired.MailsSound | backend/src/services/closeExpired.ts:34-48 | every mail sent is the mail of a closed auction; auctions without bids produce none |
| CloseExpired.ConsistentAfterCloseAll | backend/src/services/closeExpired.ts:17-24 | closing with the top bid as winner keeps the tables consistent |
| CloseExpired.CloseAllEvolves | backend/src/services/closeExpired.ts:17-24 | closing the selection is a transition the ledger allows (no row removed, no ENDED row changed), and it changes only each row's status and winner, keeping its deadline and every other field |
| CloseExpired.CloseOne | backend/src/services/closeExpired.ts:18-48 | one loop turn ends the auction with its top bid as winner, appends its audit row and yields its mail |
| CloseExpired.CloseNext | backend/src/services/closeExpired.ts:17-48 | one turn of the loop takes the tables, audit rows and mails for the first i selected auctions to those for the first i + 1 |
| CloseExpired.CloseBatch | backend/src/services/closeExpired.ts:17-49 | the loop closes every selected auction, appends their audit rows in order, and collects their mails |
| CloseExpired.Sweep | backend/src/services/closeExpired.ts:6-49 | one tick selects Batch, closes it, writes its audit rows and mails, and keeps the tables consistent |
| CloseExpired.SweepPicksHighest | backend/src/services/closeExpired.ts:17-24 | each selected auction ends with a highest-amount bid of its own as winner, none iff it has no bids; the rest are unchanged |
| CloseExpired.SweepNeverRecloses | backend/src/services/closeExpired.ts:9 | an ENDED auction is never selected |
| CloseExpired.LaterSweepSkipsClosed | backend/src/services/closeExpired.ts:8-32 | a later tick neither changes an auction an earlier tick closed nor audits it again |
| CloseExpired.LaterSweepMailsSkipClosed | backend/src/services/closeExpired.ts:34-41 | a later tick sends no second winner mail for an auction an earlier tick closed: each of its mails is that of another selected auction |
| CloseExpired.SweepDrains | backend/src/services/closeExpired.ts:8-15 | when one tick selected every expired auction, a second tick at the same time selects none |
| CloseExpired.BatchRows | backend/src/services/closeExpired.ts:8-17 | the loop's selection names rows of the table, each once |
| SettingsRoutes.FirstTruthy | backend/src/routes/settings.routes.ts:35-52 | the first truthy alias wins; null iff every alias is falsy |
| SettingsRoutes.BuildPatch | backend/src/routes/settings.routes.ts:27-54 | the update record is the body's patch, and it always writes both dates |
| SettingsRoutes.PatchOf | backend/src/routes/settings.routes.ts:28-54 | the update record a body asks for; BuildPatch computes it key by key and SaveStores states it field by field |
| SettingsRoutes.Merge | backend/src/routes/settings.routes.ts:55-59 | the upsert's row: written fields replaced, the others kept; characterized by SaveStores and SaveIdempotent |
| SettingsRoutes.SettingsStore.Load | backend/src/routes/settings.routes.ts:7-13 | the existing row 1 is returned, else a default row is created and returned; afterwards row 1 exists |
| SettingsRoutes.SettingsStore.Get | backend/src/routes/settings.routes.ts:15-24 | GET returns the loaded row's five fields |
| SettingsRoutes.SettingsStore.Save | backend/src/routes/settings.routes.ts:26-67 | row 1 becomes the stored (or default) row merged with the patch, and the response echoes it |
| SettingsRoutes.SaveStores | backend/src/routes/settings.routes.ts:29-58 | numbers are written only when supplied and kept otherwise; the dates are the first truthy aliases |
| SettingsRoutes.SnakeCaseWins | backend/src/routes/settings.routes.ts:31-34 | max_won_auctions overrides maxWonAuctions |
| SettingsRoutes.SaveWithoutDatesClearsThem | backend/src/routes/settings.routes.ts:35-52 | a body without any date alias clears both stored dates |
| SettingsRoutes.EmptySave | backend/src/routes/settings.routes.ts:27-54 | a missing body keeps every number and clears both dates |
| SettingsRoutes.DatesForgetThePast | backend/src/routes/settings.routes.ts:41-52 | the stored dates after a save do not depend on the previous row |
| SettingsRoutes.SaveIdempotent | backend/src/routes/settings.routes.ts:55-59 | saving the same body twice stores what saving it once does |

## Left out

- Amount parsing is not modelled: `toGrosze`, `parseFloat`, the comma replacement and the rounding are floating-point work (backend/src/routes/auctions.routes.ts:12-17, 213-215). Amounts arrive as whole grosze, or as `NotFinite`.
- Fractional socket amounts are not modelled. An amount in the socket payload is taken as whole grosze, so a fractional number, which the database would refuse, is outside the model.
- Date parsing is not modelled. A date arrives as milliseconds. In the settings body it arrives as a falsy or truthy alias carrying the parsed instant.
- `Number(…)` conversion of the settings numbers is not modelled. A supplied key carries the resulting integer, and a value the database would refuse is outside the model.
- Message text is not modelled. Rejections carry the minimum in grosze instead of the formatted PLN text.
- Express routing, authentication and JWT, multer storage, socket.io transport, the mail transport and the console logging are left out. Authentication is represented only by the user id the handler receives. An upload is represented by its stored file name.
- Concurrency is not modelled: the worker's timer and the interleaving of concurrent bids are out of scope. One bid or one tick is a single sequential step.
- Database order and creation times are simplified:
  - Rows without an explicit order are taken in table order. This covers the worker's `take: 20` and ties in "order by amount".
  - A new bid's `createdAt` is the handler's `now`, standing in for the database default.
- AuctionsRoutes.PlaceBid: storage failures are not modelled. The handler has no catch, so an exception from the database ends the request with none of the modelled responses; the model does not cover that. The socket channel, whose handler catches failures, models them as the `Fault` parameter.
- CloseExpired.Sweep: storage and mail failures are not modelled, here or in CloseExpired.CloseBatch, CloseExpired.CloseNext and CloseExpired.CloseOne. The tick has no catch (backend/src/services/closeExpired.ts:5-49), so a throw from the update (:21), the audit write (:26), the user lookup (:35) or the mail send (:37) ends the tick and skips the rest of the batch. The skipped auctions stay ACTIVE and a later tick selects them again. An auction whose update already ran stays ENDED without its audit row or its mail, and no later tick revisits it, since selection requires ACTIVE. The model's contracts describe a tick in which every step succeeds.
- AuctionsRoutes.WinnerOf: models the winner readout as a query. The route is registered inside the bid handler's body (backend/src/routes/auctions.routes.ts:251-264), so that registration defect is not modelled. It reports the winner's user id rather than the user record.
- SettingsRoutes.SettingsStore.constructor: the database column defaults are given as a parameter. The database schema is not part of this model.
- AuctionsRoutes.AdminOverview: returns the auction rows only. In the source the ended rows also carry their bids, highest amount first, and the winning bid with its user's id and name (backend/src/routes/auctions.routes.ts:44-47); those joined records are not modelled.
- The public listing (`GET /`) and the detail view (`GET /:id`) of the auction routes are read-only queries outside the modelled core. The same goes for the auth routes and the seeding scripts.
