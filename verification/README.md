# MotoManager, modelled and proved

A Dafny model of the parts of MotoManager that keep state or compute in loops, with
proofs about them. SQL tables are maps from row ids to rows, each SQL statement is one
atomic step, and each handler is a method proved against a specification function.
`dafny verify dfyconfig.toml` checks everything.

## What is modelled

**OAuth grants** (`OauthProtocol`, `OauthInvariant`, `OauthTheorems`, `OauthLimits`,
`OauthHandlers`).
The code exchange (section 4.1.2 of RFC 6749, section 4.6 of RFC 7636), refresh rotation
with replay detection (as in section 4.14.2 of RFC 9700) and revocation (section 2 of
RFC 7009) as an interleaving system: every handler is a program counter, every statement
one step, and steps of different requests mix freely. Ghost logs record each inserted
grant and each redeemed refresh secret. The theorems quantify over all runs. Hashes are
injective; generated secrets and row ids are never reused. `OauthLimits` is about the two limits the
source checks in statements of their own: which step breaks them, which runs keep them.
`OauthHandlers.Server` is the handlers themselves, each proved to be such a run.

**Trip analysis** (`TourSegments`, `Tours`, `MapAnalysis`, `MapRollup`). The one-pass tour
loop against a declarative reading of what a tour is, which is shown to have one solution;
in-place tagging of legs; tour ids; and the roll-ups by year, country, motorcycle and day,
which all add up to the same legs.

**Fleet and yearly distances** (`FleetDistance`, `FleetYears`, `YearlyStats`). Spreading
odometer rises over days, grouping the same days by year and by month, rounding, and the
other algorithm for the same lifetime distance. Kilometres are exact reals.

**Trees** (`ParentGraph`, `ModelCatalogue`, `Fitment`, `StorageTree`). The catalogue forest
edited through one user's view with bounded walks; the fitment collapse in any order; the
storage tree with its capped cycle check and re-parenting delete.

**Inventory** (`SyncTables`, `Inventory`, `InventorySync`, `PartsLedger`, `OnHandMoves`,
`PartsCost`, `Isolation`, `InventoryRules`, `InventoryHandlers`). Rows with tombstones and stamps,
incremental pulls, derived on-hand stock, and the cached cost of a maintenance record. The
requests include the writers elsewhere in the source that change these tables: places merged
and deleted, and maintenance records hard-deleted. `Isolation` shows that the users do not
meet: each one's rows are what that user's requests alone make of them.
`InventoryHandlers.Store` keeps every invariant in every method.

**Fuel chain** (`FuelChain`, `FuelRecords`, `BundledItems`, `Cascade`). Stored trips and
consumption against their recomputation, after every create, update with bundled items, and
delete, with the cascade of the self-referencing `parentId`; and the bundled items left.

**Codecs** (`FrameRanges`, `Decimal`, `VinCheck`). Frame ranges and the VIN check digit.

`Options`, `Ordering`, `Sums` and `RealSums` hold what the others share.

## What the code does not do

Nine promises a reader might expect are false of the code. Each has its exact condition, and
the smallest case that shows it:

- One live grant per user and client. The one step that breaks it is the insert of an exchange
  whose user and client have a live grant by then (`OauthLimits.OneLiveBreaksWhen`); a run keeps
  it as long as no two exchanges of the same user and client are between revoking and inserting
  (`OauthLimits.RunsKeepOneLive`), and two that are can break it by their own next steps
  (`OauthLimits.RivalMintsBreakOneLive`, `OauthHandlers.OverlapBreaksOneLive`). The cap of
  active tokens likewise (`OauthLimits.CapBreaksWhen`, `RunsKeepCap`, `RivalInsertsBreakCap`,
  `OauthHandlers.OverlapBreaksCap`).
- Replay revokes. Replaying a redeemed refresh secret revokes its grant only if it is the latest
  one redeemed for that grant (`OauthTheorems.RefreshReplayExact`), and replaying a code only
  once its row names the grant (`OauthTheorems.CodeReplay`). Both misses can be reached:
  `OauthHandlers.OlderReplay` and `OauthHandlers.EarlyCodeReplay` run from the empty tables to a
  replay that ends refused while its grant lives.
- Pulls of storage locations and of consumptions. Merging or deleting a place moves storage
  locations, and hard-deleting a maintenance record clears it on consumptions, without a stamp.
  Those pulls are exact over a run if and only if every row so changed was stamped by something
  else, is not listed, or is back as it was (`InventorySync.NodePullIsExactWhen`,
  `InventorySync.ConsumptionPullIsExactWhen`); but for those two columns they always are
  (`InventorySync.PullsAreExact`). The smallest case is `InventorySync.DeletedPlaceStays`.
- The on-hand figure and the stock count sent with a part. After a pull each is right if and only
  if the part's own row was stamped or what the run put on it nets to zero
  (`OnHandMoves.FigureIsRightWhen`, `OnHandMoves.CountIsRightWhen`; the smallest case is
  `OnHandMoves.PurchaseIsNotToldOf`), although the figure a client derives from its own rows
  always is (`OnHandMoves.ClientOnHandIsRight`).
- Every fuel chain correct after every update. An update drops the bundled items it does not
  list, and the foreign key takes along whatever is booked under them, fuel records of any
  motorcycle included. The chains not recomputed stay correct if and only if every fill whose
  predecessor went had the odometer there of the nearest fill left before it
  (`FuelRecords.OutcomeChains`, `FuelChain.DroppedFills`,
  `FuelRecords.DroppedItemLeavesStaleChain`).
- A record's stored parts cost is what its parts cost. It is what is booked on the record now at
  the prices of the stock it was last recosted with (`PartsCost.StoredAtLastPrices`), hence right
  if and only if the stock written since leaves that sum (`PartsCost.StoredCostIsRightWhen`); a
  purchase given another price does not (`PartsCost.RepricingIsNotCosted`).
- Each listed bundled item has a record after an update. An item that is not known by name is booked
  under kind `general`; where such a child is there and `general` itself is not listed, the update deletes
  it and inserts none (`BundledItems.Lost`, `BundledItems.UpdateLeavesItems`; the smallest case is
  `BundledItems.ListedAgainIsLost`). Every other listed item has one.
- Users do not meet. A client key is unique across users, so a request is refused for a key on another
  user's row, and in nothing else do the requests of one user depend on another's rows
  (`Isolation.AloneExactlyUnless`, `Isolation.RunsAreSeparate`; the smallest case is
  `Isolation.SharedKeyIsRefused`).
- A fitment list that does not depend on the order of a hash map. It is independent if and only
  if no parent becomes complete only through others that collapse and no complete parent hangs
  from another (`Fitment.OrderFreeExactly`; the smallest case is `Fitment.OrderMatters`); what
  the list covers never depends on it.

## Model

| member | source | states |
|---|---|---|
| OauthTheorems.RunKeepsInv | src/oauth/token.rs:178-426 | whatever statements of whatever requests interleave, the tables and all requests in flight stay in order, and nothing issued, claimed, granted or redeemed is forgotten |
| OauthTheorems.OneGrantPerCode | src/oauth/token.rs:229-290 | in every run a code leads to at most one inserted grant, made for what the consent says, by a request that presented all the code was bound to, with a verifier that meets the challenge, before the code expired |
| OauthTheorems.ResponsesCarryTheConsentedScope | src/oauth/token.rs:264-306 | the scope in every token response is the row's, and for OAuth rows the one the user consented to |
| OauthTheorems.RefreshSecretsRedeemedOnce | src/oauth/token.rs:361-383 | in every run each refresh secret is redeemed at most once |
| OauthTheorems.RedeemedByItsClient | src/oauth/token.rs:345-383 | in every run each refresh secret was redeemed by the client its row belongs to |
| OauthTheorems.OneSecretPerRow | src/auth/api_token.rs:99-121 | two bearer secrets that authenticate are equal exactly when they resolve to the same row |
| OauthTheorems.RotationRetires | src/oauth/token.rs:361-383 | a successful rotation retires the access secret it replaces |
| OauthTheorems.RetiredForever | src/auth/api_token.rs:105-121 | a retired access secret never authenticates again, on any row, in any continuation |
| OauthTheorems.RevocationIsFinal | src/oauth/token.rs:361-383 | once revoked, a row never changes, authenticates or rotates again, whatever was in flight |
| OauthTheorems.RevokeEndsTheGrant | src/oauth/token.rs:405-424 | after `/oauth/revoke` with either secret of a grant, or a user's revoke of an own row, in every continuation the row neither authenticates nor rotates |
| OauthTheorems.CodeReplay | src/oauth/token.rs:201-217 | a used code presented again: where its row names a token, that is the grant minted from this code, and it is revoked in every continuation in which the request has finished; otherwise nothing changes |
| OauthTheorems.ReplayRevokes | src/oauth/token.rs:201-217 | in every continuation, when the replaying request has finished its grant is revoked |
| OauthTheorems.RefreshReplayExact | src/oauth/token.rs:323-344 | a redeemed refresh secret presented again revokes the grant it was redeemed for if and only if it is that grant's latest redeemed secret |
| OauthTheorems.LatestIsRemembered | src/oauth/token.rs:361-383 | the one remembered hash is the presented one exactly for the latest redemption |
| OauthTheorems.RedeemedIsRefused | src/oauth/token.rs:316-344 | a redeemed refresh secret is never accepted again |
| OauthInvariant.StepKeepsInv | src/oauth/token.rs:178-426 | one step of any request, revocation, consent or pruning keeps the system in order |
| OauthInvariant.EmitSound | src/oauth/token.rs:178-390 | every statement a request in good order runs has what the tables need: unused secrets, a claimed and still ungranted code |
| OauthInvariant.HoldsByClaiming | src/oauth/token.rs:229-240 | a request comes to hold a code only by winning the claim, and inserts a grant only for the code it holds |
| OauthLimits.OneLiveBreaksWhen | src/oauth/token.rs:242-290 | a step from a state with one live grant per user and client keeps it if and only if it is not the insert for a user and client that have one |
| OauthLimits.RunsKeepOneLive | src/oauth/token.rs:242-290 | it holds in every state of a run in which no two exchanges of the same user and client are between revoking and inserting |
| OauthLimits.RivalMintsBreakOneLive | src/oauth/token.rs:242-290 | two such exchanges, below the cap or both past their count, leave two live grants by their own next steps |
| OauthLimits.CapBreaksWhen | src/oauth/token.rs:252-290 | a step keeps the cap of active tokens if and only if it is not an insert for a user who is at it |
| OauthLimits.RunsKeepCap | src/oauth/token.rs:252-290 | the cap holds in every state of a run in which no two requests of a user are between counting and inserting |
| OauthLimits.RivalInsertsBreakCap | src/handlers/api_tokens.rs:81-117 | two such requests exceed the cap by their inserts if and only if the user was within one of it |
| OauthLimits.SequentialRunsKeepLimits | src/oauth/token.rs:242-290 | runs in which at most one request is unfinished keep both limits in every state |
| OauthHandlers.OverlapBreaksOneLive | src/oauth/token.rs:242-290 | a reachable state with two live grants of one user for one client |
| OauthHandlers.OverlapBreaksCap | src/handlers/api_tokens.rs:81-117 | a reachable state with more active tokens of one user than the cap |
| OauthHandlers.EarlyCodeReplay | src/oauth/token.rs:201-217 | a reachable replay of a claimed code whose row names no grant yet: it ends refused, and the grant then made lives |
| OauthHandlers.OlderReplay | src/oauth/token.rs:323-344 | a reachable replay of a redeemed refresh secret that is not the latest: it ends refused, and the grant lives |
| OauthHandlers.Server.ExchangeCode | src/oauth/token.rs:178-306 | the exchange, branch by branch, leaves the tables of a run of the interleaving system; a scope is issued if and only if the code is found, unused, not expired, bound to the client, redirect, challenge and resource presented, and the user keeps fewer than twenty active tokens; then exactly the new row is inserted and the old grant revoked, and a replay revokes what the code led to |
| OauthHandlers.Server.RefreshGrant | src/oauth/token.rs:308-390 | the refresh likewise: a scope is issued if and only if a row with the secret is found, live, of the presenting client, not expired, and no write scope is asked of a read grant; then exactly that row is rotated, and an unknown secret revokes the grants it was last redeemed for |
| OauthHandlers.ExchangedMeans | src/oauth/token.rs:178-306 | what the specification of the exchange amounts to, said without its checks |
| OauthHandlers.CheckMeans | src/oauth/token.rs:195-228 | the checks pass exactly a code that is unused, not expired and bound to what is presented |
| OauthHandlers.RefreshedMeans | src/oauth/token.rs:308-390 | what the specification of the refresh amounts to, said without its checks |
| OauthHandlers.Server.Authenticate | src/auth/api_token.rs:99-121 | a secret resolves exactly to the one row that has its hash, is not revoked and not expired |
| OauthHandlers.Server.RevokeToken | src/oauth/token.rs:395-426 | revokes the client's live row that has the secret's hash, as access or refresh, and nothing else |
| OauthHandlers.Server.RevokeApiToken | src/handlers/api_tokens.rs:141-163 | revokes an own live row and reports whether there was one |
| OauthHandlers.Server.CreateApiToken | src/handlers/api_tokens.rs:56-137 | inserts the row, with its deadline, unless the user is at the cap, and keeps the cap |
| OauthHandlers.Server.IssueCode | src/oauth/authorize.rs:329-370 | drops the expired codes and no other, and inserts the consented one, good for ten minutes |
| TourSegments.SegmentTours | src/map_analysis.rs:608-643 | the pass over the stops yields the segmentation: runs of consecutive stops in order, opened and closed as defined, sharing at most a home-side stop, with every away stop covered; and that is so of the days and kilometres themselves |
| TourSegments.Visit | src/map_analysis.rs:617-640 | one stop of the pass keeps the finished tours, the open one and the coverage in order |
| TourSegments.SegmentationIsPlain | src/map_analysis.rs:608-643 | of two neighbouring stops, one of them more than 80 km from home, exactly those at most four days apart share a tour; a tour runs on from stop to stop and ends near home, before a longer break, or with the last stop |
| TourSegments.SegmentationIsUnique | src/map_analysis.rs:608-643 | any two segmentations of the same stops are equal, so the pass finds the only one |
| TourSegments.AwayStopInOneTour | src/map_analysis.rs:608-643 | no away stop lies in two tours |
| Tours.CollectLegs | src/map_analysis.rs:565-606 | one leg per consecutive pair of stops with a rising odometer, and an index from the two record ids to its position |
| Tours.TagLegs | src/map_analysis.rs:655-669 | tags exactly the legs inside the tour, in place, and returns the kilometres ridden inside it |
| Tours.AnalyseBike | src/map_analysis.rs:557-709 | legs, tags, emitted tours and day trips of a motorcycle are those of the one segmentation |
| Tours.TagMeansTour | src/map_analysis.rs:655-669 | a window carries a tag exactly when an emitted tour rides through it, and then that tour's id |
| Tours.LegInOneTour | src/map_analysis.rs:655-669 | no leg lies in two tours |
| Tours.TourKmIsTaggedKm | src/map_analysis.rs:655-669 | tour distances add up to the kilometres of the tagged legs |
| Tours.LegKmIsRiddenKm | src/map_analysis.rs:565-606 | whatever the tags, the legs add up to the odometer rises between consecutive stops |
| Tours.EveryTourCounted | src/map_analysis.rs:645-653 | every tour found is either emitted or counted as a day trip |
| Tours.DayTripsAre | src/map_analysis.rs:645-653 | each year counts exactly the tours that begin and end on one day of it |
| MapAnalysis.GroupByMotorcycle | src/map_analysis.rs:549-556 | each motorcycle's group holds its records in order; keys ascend |
| MapAnalysis.StopsOfBike | src/map_analysis.rs:558-563 | the stops of a motorcycle are its records, sorted by date, odometer, id |
| MapAnalysis.Analyse | src/map_analysis.rs:549-715 | the whole analysis is the concatenation of the analysed motorcycles, tours sorted by start and motorcycle; no other outcome meets the definition |
| MapAnalysis.AnalysisIsUnique | src/map_analysis.rs:549-715 | two analyses of the same records, each motorcycle with a segmentation of its sorted stops, are equal |
| MapAnalysis.ToursAreTheirLegs | src/map_analysis.rs:655-715 | over all motorcycles, tour distances add up to the tagged legs |
| MapAnalysis.BikeLegsAreItsRises | src/map_analysis.rs:565-606 | a motorcycle's legs add up to its odometer rises |
| MapAnalysis.LegsAreListed | src/map_analysis.rs:565-606 | every leg leads from one record of its motorcycle to the next in order, and says so: ids, days, kilometres, year, location |
| MapAnalysis.ToursAreListed | src/map_analysis.rs:645-709 | every tour leads from one record to another of a later day, and says so: days, year, kilometres ridden between, stops |
| MapAnalysis.SortedTours | src/map_analysis.rs:710-715 | sorting loses no tour; they come by start, then by motorcycle |
| MapAnalysis.StopsInOrder | src/map_analysis.rs:558-563 | stops come by date, then odometer, then id |
| Ordering.LessMeans | src/map_analysis.rs:558-563 | dates compare by the first character in which they differ |
| MapAnalysis.TourDatesRise | src/map_analysis.rs:645-654 | within a motorcycle the emitted tours start on strictly later and later days |
| MapAnalysis.TourIdsAreUnique | src/map_analysis.rs:645-654 | no two tours of an analysis share an id, for motorcycle ids of either sign |
| MapRollup.CountLegKeeps | src/map_analysis.rs:766-780 | adding one leg keeps every year's distance, its split by country and by motorcycle, and the grand total exact |
| MapRollup.RollUp | src/map_analysis.rs:731-784 | years, splits and calendar days each hold exactly the legs that belong to them; every day counts its records; there are no other years or days |
| MapRollup.Summarise | src/map_analysis.rs:549-784 | end to end: legs and tours are the one analysis of the records, each listed as what it is; years and calendar add up to the legs, tours to the tagged legs; ids are unique, tours in order |
| FleetDistance.DailyDistance | src/fleet_analysis.rs:277-309 | the loops spread each accepted rise over the days after the last reading, in the order of the days; on every settled day the days so far add up to what was ridden by then, from the start or else the first reading |
| FleetDistance.DaysAddUp | src/fleet_analysis.rs:277-309 | given a start, the days add up to the highest value reached less the start, in any order of readings and whichever go backwards |
| FleetDistance.DaysAreSettled | src/fleet_analysis.rs:277-309 | on the start day, and on any day whose readings reach the highest value by then, the days so far add up to that value less the start: nothing lands early or late |
| FleetDistance.RiseByDay | src/fleet_analysis.rs:289-306 | one rise gives each day after the base, up to the day of the reading, an even share, and no other day anything |
| FleetDistance.FirstReadingStarts | src/fleet_analysis.rs:277-309 | without a start the first reading is one |
| FleetDistance.HighestIsHighest | src/fleet_analysis.rs:289-306 | the value reached is the maximum of the start and all readings |
| FleetDistance.DaysArePositive | src/fleet_analysis.rs:277-309 | every day listed carries a positive distance |
| FleetYears.CountDays | src/fleet_analysis.rs:393-401 | a bike's days go into years and months: each holds exactly its days, and the months of a year gain what the year gains |
| FleetYears.CountedMeans | src/fleet_analysis.rs:393-401 | what that means for one year and one month |
| FleetYears.InsertYears | src/fleet_analysis.rs:503-505 | the bike's years join the other bikes' without loss |
| FleetYears.Accumulate | src/fleet_analysis.rs:365-505 | over the fleet, every year's distance equals the sum of its twelve months, and all years add up to all bikes' days |
| FleetYears.MonthsNearYear | src/fleet_analysis.rs:560-568 | a year's rounded distance and its twelve rounded months differ by at most six, and rounding is to the nearest, a half away from zero |
| YearlyStats.YearMaxima | src/handlers/stats.rs:155-177 | the map holds the highest positive odometer value of each year's own records |
| YearlyStats.YearlyDistances | src/handlers/stats.rs:179-233 | the year loop yields each year's gain of the carried odometer, and the carried odometer itself |
| YearlyStats.GainsTelescope | src/handlers/stats.rs:179-233 | the yearly distances add up to the lifetime distance |
| YearlyStats.Gain | src/handlers/stats.rs:185-191 | no year's distance is negative |
| YearlyStats.CarriedIsHighest | src/handlers/stats.rs:185-227 | the carried odometer is the highest of the initial value and the records so far |
| YearlyStats.SameLifetimeDistance | src/handlers/stats.rs:155-233 | for an unsold bike with a purchase date and dated records up to this year, both algorithms give the same lifetime distance, whatever the sign of the initial odometer |
| ModelCatalogue.UpdateIsExact | src/handlers/model_series.rs:340-368 | the checks through one user's view accept a new parent if and only if the whole table stays a shallow forest with sound owners |
| ModelCatalogue.CreateIsExact | src/handlers/model_series.rs:238-246 | a new leaf keeps the catalogue in order exactly when its parent is not on the lowest level |
| ModelCatalogue.NoNodeIsItsOwnAncestor | src/handlers/model_series.rs:340-368 | in a catalogue in order there is no cycle of any length |
| ModelCatalogue.ViewUp | src/handlers/model_series.rs:43-58 | walking up from a visible node never leaves the view |
| ModelCatalogue.ViewBelow | src/handlers/model_series.rs:43-58 | below an own node the view misses nothing |
| ModelCatalogue.DepthOf | src/handlers/model_series.rs:62-75 | the bounded walk counts exactly the ancestors that exist, up to the bound |
| ModelCatalogue.Walk | src/handlers/model_series.rs:78-101 | the bounded recursion finds exactly the levels below a node, up to the bound |
| ModelCatalogue.Meets | src/handlers/model_series.rs:349-361 | the cycle check answers whether the walk up meets the node |
| ModelCatalogue.Fits | src/handlers/model_series.rs:349-368 | the handler's computation decides the check |
| ModelCatalogue.CompatibleSeriesIds | src/handlers/model_series.rs:107-141 | returns exactly ancestors, self and descendants in the view; the rounds never cut it short |
| ModelCatalogue.Catalogue.Compatible | src/handlers/model_series.rs:107-141 | in a catalogue in order this holds of every user's view: the bound on the rounds is never met |
| ModelCatalogue.Subtree | src/handlers/model_series.rs:636-651 | collects exactly the node and everything below it, with levels |
| ModelCatalogue.NoChildLeft | src/handlers/model_series.rs:682-692 | leaves first: when a node goes, no child of it is left |
| ModelCatalogue.Catalogue.Create | src/handlers/model_series.rs:223-286 | refuses exactly a blank name or a parent that is unseen or too deep; keeps the catalogue in order |
| ModelCatalogue.Catalogue.Update | src/handlers/model_series.rs:322-399 | refuses exactly what would break the catalogue or is not the user's; keeps it in order |
| ModelCatalogue.Catalogue.Delete | src/handlers/model_series.rs:599-695 | removes exactly the subtree or nothing, one row a statement, and the table is in order after every single statement |
| Fitment.MapCompatibility | src/handlers/bmwbike.rs:264-302 | the result is the collapse in some order of all parents, covers the same leaf nodes as the matched names and is no longer; unmatched names are listed once |
| Fitment.CollapseKeepsCoverage | src/handlers/bmwbike.rs:284-301 | one collapse keeps the covered leaf nodes |
| Fitment.OrderFreeExactly | src/handlers/bmwbike.rs:284-301 | all orders give the same list if and only if no parent becomes complete only through others that collapse and no complete parent hangs from another |
| Fitment.OrderFreeResult | src/handlers/bmwbike.rs:284-301 | then it is the matched nodes with exactly the parents complete at the start in place of their children |
| Fitment.OrderMattersUnless | src/handlers/bmwbike.rs:284-301 | otherwise two orders with different lists |
| SyncTables.PullIsExactWhenStamped | src/handlers/parts.rs:259-272 | when no row vanishes, merging a pull gives the present listing if and only if every visible change was stamped after the cursor |
| SyncTables.TiedStampIsMissed | src/handlers/parts.rs:1071-1082 | a row stamped at the cursor itself is lost on the client |
| InventorySync.PullsAreExact | src/handlers/parts.rs:583-630 | after any run of later requests by any users, a client's merged parts and stock are the present ones, and so are its storage locations but for their place and its consumptions but for their record |
| InventorySync.NodePullIsExactWhen | src/handlers/locations.rs:298-374 | with the place, the pull of storage locations is exact if and only if every location whose place was merged or deleted in the run is stamped later, not listed, or back where it was |
| InventorySync.ConsumptionPullIsExactWhen | src/handlers/maintenance.rs:448-470 | with the record, the pull of consumptions is exact if and only if the same holds of every consumption whose record was hard-deleted |
| InventorySync.RelocationIsNotPulled | src/handlers/locations.rs:353-421 | a client that was up to date misses, of one merge or deletion, exactly the live locations at those places not stamped later |
| InventorySync.ErasureIsNotPulled | src/handlers/motorcycles.rs:602-604 | and of hard-deleted records exactly the live consumptions booked on them not stamped later |
| OnHandMoves.ClientOnHandIsRight | src/handlers/parts.rs:46-60 | on-hand derived from the merged rows is the server's, in every run |
| OnHandMoves.RunsMoveOnHand | src/handlers/parts.rs:46-60 | conservation: on-hand after a run is what it was plus all that accepted requests put there less all they took |
| OnHandMoves.FigureIsRightWhen | src/handlers/parts.rs:304-347 | the figure a client was sent with a part is right after a pull if and only if the part's row was stamped after the cursor or the run nets to zero on it |
| OnHandMoves.CountIsRightWhen | src/handlers/parts.rs:281-347 | the stock count sent with a part is right after a pull if and only if its row was stamped or as many purchases came as went |
| OnHandMoves.PurchaseIsNotToldOf | src/handlers/parts.rs:1136-1197 | the smallest case: after one purchase the figure is wrong |
| InventorySync.EveryWriterSteps | src/handlers/storage_locations.rs:304-313 | every request stamps each row it changes, but for the place and the record columns of exactly the rows named; rows keep owners, foreign keys hold |
| Isolation.RunsAreSeparate | src/handlers/parts.rs:360-1602 | however the requests of all users interleave, a user's rows are what that user's requests alone would make of them in tables that hold no others', as long as no client key is shared |
| Isolation.AsIfAlone | src/handlers/parts.rs:360-1602 | the same of one request of the user: which rows change, on-hand, costs and duplicates depend on own rows only |
| Isolation.OthersLeaveMine | src/handlers/storage_locations.rs:104-318 | no request of another user changes a row of the user |
| Isolation.AloneExactlyUnless | src/handlers/parts.rs:389-404 | a request differs from what it would do alone if and only if its client key is on another user's row and it would otherwise have done something |
| Isolation.SharedKeyIsRefused | src/handlers/parts.rs:389-404 | the smallest case: a part refused for a key on another user's part |
| Isolation.SeenIsTakenAlone | src/handlers/parts.rs:389-404 | a retried request is answered from own rows only |
| Isolation.RequestsKeepOwned | src/handlers/parts.rs:583-630 | live stock and consumptions are of live parts, lie in and are booked on live rows of the part's owner |
| StorageTree.ChainClearMeans | src/handlers/storage_locations.rs:40-58 | the capped walk accepts exactly the parents whose chain ends within the cap without meeting the node |
| StorageTree.MoveKeepsRooted | src/handlers/storage_locations.rs:209-216 | moving a node where the check allows keeps every chain ending at a root |
| StorageTree.DeletionKeepsAncestors | src/handlers/storage_locations.rs:281-302 | after a deletion the ancestor relation among all other nodes is what it was |
| StorageTree.DeleteNodeKeepsAncestors | src/handlers/storage_locations.rs:264-318 | the same, stated of the request, for all pairs of remaining live nodes |
| StorageTree.RunsKeepTheTree | src/handlers/storage_locations.rs:104-318 | in every run: parents live and of the same user, no cycles, places on roots only, live stock in live nodes |
| PartsLedger.GroupByPart | src/handlers/parts.rs:304-333 | grouping rows by part in any order gives each part's own total |
| PartsLedger.BatchedOnHand | src/handlers/parts.rs:304-347 | the batched on-hand of every own part equals the per-part one |
| PartsLedger.ConsumptionTakesWhatIsThere | src/handlers/parts.rs:1449-1474 | a consumption, booked on a record or not, is accepted if and only if the stock covers it; then its part's on-hand drops by it and stays non-negative, no other moves, and its record is recosted |
| PartsLedger.UpdateTakesWhatIsThere | src/handlers/parts.rs:1526-1550 | a changed quantity is accepted if and only if it is lower or leaves on-hand non-negative; on-hand moves by the difference, and the record is recosted |
| InventoryRules.RunsKeepTables | src/handlers/parts.rs:360-1602 | whatever users request in whatever order: tree, foreign keys, costs, positive quantities, and no two live parts of a user with the same number and name |
| InventoryRules.MoveMeans | src/handlers/storage_locations.rs:40-58 | a move is accepted if and only if the new parent is a live own node, not below the node, and less than the cap deep |
| InventoryRules.ChangeMeans | src/handlers/storage_locations.rs:194-262 | when a change of a storage location is accepted: parent, depth, place |
| InventoryRules.NodeRequestsDo | src/handlers/storage_locations.rs:104-262 | an accepted request stores what it gives, keeps what it leaves out, stamps that row and touches no other location |
| InventoryRules.NodeDeletionDoes | src/handlers/storage_locations.rs:264-318 | a deleted location is a stamped tombstone |
| InventoryRules.PartRequestsDo | src/handlers/parts.rs:370-637 | the same of parts |
| InventoryRules.StockRequestsDo | src/handlers/parts.rs:1136-1306 | the same of purchases |
| InventoryRules.UseRequestsDo | src/handlers/parts.rs:1404-1602 | the same of consumptions, and a deleted record is a stamped tombstone |
| PartsLedger.RunsKeepLedger | src/handlers/parts.rs:1526-1550 | on-hand stays non-negative in every run that never deletes stock or lowers its quantity |
| PartsLedger.DeletingStockMayOverdraw | src/handlers/parts.rs:1281-1306 | deleting stock keeps on-hand non-negative if and only if what remains still covers what was consumed |
| PartsCost.RunsKeepCosts | src/handlers/parts.rs:108-153 | in every run a live record's parts cost is null if and only if no live consumption is booked on it |
| PartsCost.CostChangesAreStamped | src/handlers/parts.rs:136-151 | every request but a hard delete stamps the records it changes |
| PartsCost.UnitPriceMeans | src/handlers/parts.rs:76-99 | there is a unit price exactly while some of the part is stocked; times the stock it is what all of it was worth |
| PartsCost.ConvertingKeepsPrices | src/handlers/parts.rs:76-99 | storing the price in the base currency with a purchase, converted by the factor, changes no unit price |
| PartsCost.BoughtAtIsUnitPrice | src/handlers/parts.rs:76-99 | a part always bought at one price apiece has it as its unit price |
| PartsCost.OneUseCosts | src/handlers/parts.rs:108-134 | one use of a part costs its unit price times the quantity |
| PartsCost.StoredAtLastPrices | src/handlers/parts.rs:108-153 | in every run a live record's stored cost is what is booked on it now at the prices it was last recosted with |
| PartsCost.StoredCostIsRightWhen | src/handlers/parts.rs:108-153 | so it is the present row-by-row cost if and only if the stock written since leaves that sum, and whenever it leaves the unit prices |
| PartsCost.RepricingIsNotCosted | src/handlers/parts.rs:1215-1279 | the smallest case: a purchase given another price leaves the record it was used on as it was |
| InventoryHandlers.ByPartIsByRow | src/handlers/parts.rs:112-134 | summing costs part by part equals summing them row by row |
| InventoryHandlers.Store.RecalculatePartsCost | src/handlers/parts.rs:108-153 | the loop stores the row-by-row cost, and writes only when the value changed |
| InventoryHandlers.Store.AverageUnitPrice | src/handlers/parts.rs:76-99 | total worth over total quantity of the live stock, or nothing without any |
| InventoryHandlers.Store.OnHandNow | src/handlers/parts.rs:46-60 | live stock less live consumption |
| InventoryHandlers.Store.VerifyNoCycle | src/handlers/storage_locations.rs:40-58 | the loop decides the cycle check |
| InventoryHandlers.Store.CreateNode | src/handlers/storage_locations.rs:104-167 | says yes exactly for a retried key or a free one with an own live parent or own place; above the new node lie its parent and what lay above that; all invariants kept |
| InventoryHandlers.Store.UpdateNode | src/handlers/storage_locations.rs:194-262 | says yes exactly for an own live node that may move and be placed there; above it then lie the new parent and what lay above that; all invariants kept |
| InventoryHandlers.Store.DeleteNode | src/handlers/storage_locations.rs:264-318 | says yes exactly for an own live node; who lies above whom among the others stays, and nothing live is left in it |
| InventoryHandlers.Store.CreatePart | src/handlers/parts.rs:370-468 | says yes exactly for a retried key or a free one with an identity no live part of the user has; none of a new part is on hand; identities stay unique |
| InventoryHandlers.Store.UpdatePart | src/handlers/parts.rs:486-581 | says yes exactly when no other live part of the user has the new identity; no on-hand moves; identities stay unique |
| InventoryHandlers.Store.DeletePart | src/handlers/parts.rs:583-637 | says yes exactly for an own live part; its on-hand is zero, no other moves, every affected record has its row-by-row cost |
| InventoryHandlers.Store.CreateStock | src/handlers/parts.rs:1136-1197 | says yes exactly when the purchase is well-formed and its key free or retried; a new one raises the on-hand of its part by its quantity and no other |
| InventoryHandlers.Store.UpdateStock | src/handlers/parts.rs:1215-1279 | says exactly when it is accepted; on-hand of the part moves by the difference and no other moves |
| InventoryHandlers.Store.DeleteStock | src/handlers/parts.rs:1281-1306 | says yes exactly for own live stock; on-hand drops by its quantity, below zero if need be |
| InventoryHandlers.Store.CreateConsumption | src/handlers/parts.rs:1404-1485 | says yes exactly for a retried key, or a free one where on-hand stays non-negative; on-hand drops by the quantity, and the record has its row-by-row cost |
| InventoryHandlers.Store.UpdateConsumption | src/handlers/parts.rs:1496-1559 | says yes exactly when the quantity is lower or on-hand stays non-negative; on-hand moves by the difference, and the record has its row-by-row cost |
| InventoryHandlers.Store.DeleteConsumption | src/handlers/parts.rs:1561-1602 | says yes exactly for an own live row; its quantity is back on hand, and the record has its row-by-row cost |
| InventoryHandlers.Store.DeleteRecord | src/handlers/maintenance.rs:559-589 | says yes exactly for an own live record; whatever was booked on it is back on hand part by part, and nothing live is booked on it |
| InventoryHandlers.Store.MergePlaces | src/handlers/locations.rs:298-374 | says yes exactly when all places are the user's and one is left to merge; nodes at a duplicate are at the canonical place and no other moves; one foreign duplicate undoes all |
| InventoryHandlers.Store.DeletePlace | src/handlers/locations.rs:378-430 | says yes exactly for an own place; no node is left there, tombstones included |
| FuelChain.OrderedRows | src/handlers/maintenance.rs:49-56 | lists every live fill once, in (odometer, date, id) order |
| FuelChain.ChainIsUnique | src/handlers/maintenance.rs:49-56 | there is one such order |
| FuelChain.ChainInOrder | src/handlers/maintenance.rs:49-56 | by odometer, then date, then id |
| FuelRecords.FuelRowsAre | src/handlers/maintenance.rs:49-56 | the chain is over the motorcycle's live records of kind fuel, with their stored figures |
| FuelChain.CorrectChainSays | src/handlers/maintenance.rs:81-102 | in a correct chain every fill after a rise of the odometer states the rise as its trip, and with a positive amount the litres for a hundred kilometres: that figure times the rise is a hundred times the litres; any other fill states nothing |
| FuelChain.SayingIsCorrect | src/handlers/maintenance.rs:81-102 | and a chain in which every fill says that is correct |
| FuelChain.LitresAddUp | src/handlers/maintenance.rs:81-102 | derived consumption times trip, summed over the chain, is a hundred times the litres of the fills that have one |
| FuelChain.TripsTelescope | src/handlers/maintenance.rs:81-94 | the derived trips add up to the last odometer value less the first |
| FuelChain.RefilledIsOk | src/handlers/maintenance.rs:58-78 | after a recomputation every stored trip and consumption agrees with its derivation |
| FuelChain.RefillingOkChangesNothing | src/handlers/maintenance.rs:62-66 | a correct chain is not touched |
| FuelChain.DroppedFills | src/handlers/maintenance.rs:448-470 | any set of fills taken out of a correct chain without recomputation leaves it correct if and only if every fill whose predecessor went had the odometer there of the nearest one left, or its own where none is left |
| FuelRecords.RecalculatingTwice | src/handlers/maintenance.rs:48-79 | a second recomputation writes no row, not even a stamp |
| FuelRecords.ItemsKeepFuel | src/handlers/maintenance.rs:472-521 | inserting and updating bundled items changes no fuel row of any motorcycle |
| FuelRecords.ChangedTakes | src/handlers/maintenance.rs:340-440 | an update stores the columns it gives and keeps the others |
| BundledItems.UpdateLeavesItems | src/handlers/maintenance.rs:445-521 | after an update each listed item has a child if and only if it is not lost; children are booked where and when the record is, but for one with a fluid its kind does not have; no child is there that is not listed |
| BundledItems.UpdatedItems | src/handlers/maintenance.rs:445-529 | the same of the tables an update ends with, recomputed or not |
| BundledItems.RewritingKeepsRest | src/handlers/maintenance.rs:58-78 | a recomputation changes nothing but trips, consumptions and stamps |
| BundledItems.CreateLeavesItems | src/handlers/maintenance.rs:282-314 | a create gives each listed item a row of its own under the record and changes no other |
| BundledItems.ListedAgainIsLost | src/handlers/maintenance.rs:445-521 | the smallest case: an item not known by name is lost when it is listed again |
| FuelRecords.OutcomeChains | src/handlers/maintenance.rs:527-529 | after a handler all chains are correct if and only if that holds of the dropped rows on every motorcycle not recomputed |
| Cascade.Delete | migrations/003_maintenance_parent_id.sql:2 | deleting what hangs from deleted rows, until nothing does, deletes exactly the roots and all below them |
| Cascade.DeletesAdd | src/handlers/maintenance.rs:458-470 | deleting children one statement after the other deletes what all of them delete together |
| FuelRecords.OutcomeKeepsChains | src/handlers/maintenance.rs:527-529 | so they are whenever no live fuel row of a chain not recomputed was dropped |
| FuelRecords.DroppedItemLeavesStaleChain | src/handlers/maintenance.rs:448-470 | an update of a repair drops an item, with it the fill booked under that item, and leaves a stale trip |
| FuelRecords.Maintenance.RecalculateFuelChain | src/handlers/maintenance.rs:48-79 | the loop rewrites exactly the rows whose values do not stand, the chain is correct, and every fill in it says what was ridden on it |
| FuelRecords.Maintenance.CreateMaintenance | src/handlers/maintenance.rs:237-321 | refused exactly for an unknown parent; stores the record and its items, recomputes for fuel, leaves no chain stale |
| FuelRecords.Maintenance.UpdateMaintenance | src/handlers/maintenance.rs:340-529 | refused exactly where the row is missing or the foreign key fails; stores the changes, reconciles the items, deletes unlisted ones with all below them, recomputes when the record is or was fuel |
| FuelRecords.Reconcile | src/handlers/maintenance.rs:445-517 | the transaction on the items fails exactly when the record hangs from an item it drops and an item must be inserted |
| FuelRecords.Maintenance.DeleteMotorcycle | src/handlers/motorcycles.rs:602-604 | deletes the motorcycle's records and all below them on any other, and says which chains lost which rows |
| FuelRecords.Maintenance.DeleteMaintenance | src/handlers/maintenance.rs:541-592 | tombstones the record and leaves every chain correct |
| FrameRanges.RoundTrip | src/handlers/model_series.rs:180-208 | any list of valid ranges survives printing and reading |
| FrameRanges.ReadExactly | src/handlers/model_series.rs:180-193 | a part reads as a range if and only if it is two numerals of 64 bits in order, a dash between them, white space around each |
| FrameRanges.CommaSeparates | src/handlers/model_series.rs:180-193 | parts between commas are read one by one: what does not read hides nothing after it |
| FrameRanges.OnePart | src/handlers/model_series.rs:180-193 | a text without a comma reads as its one range, or as none |
| FrameRanges.NormalizingKeepsRanges | src/handlers/model_series.rs:180-208 | for every text: what is read is ordered and fits 64 bits, the normalised text reads the same, and there is one exactly when something was read |
| FrameRanges.NormalizingTwice | src/handlers/model_series.rs:194-208 | normalising twice changes nothing |
| Decimal.PrintThenRead | src/handlers/model_series.rs:194-208 | decimal printing is read back |
| Decimal.PrintedPrefix | src/map_analysis.rs:654 | an integer, a dash and a tail: equal texts have equal parts |
| VinCheck.CheckDigitValid | src/handlers/model_series.rs:424-440 | a VIN passes if and only if every character has a value, the ninth is a digit or X, and the weighted sum less what the ninth stands for is a multiple of eleven |
| VinCheck.PassesChecksOut | src/handlers/model_series.rs:424-440 | comparing with the expected character decides that |
| VinCheck.TotalSpelledOut | src/handlers/model_series.rs:424-440 | the weighted sum, term by term |
| VinCheck.TransliterateByRow | src/handlers/model_series.rs:406-422 | the values run through the alphabet in three rows |
| VinCheck.WeightsByPosition | src/handlers/model_series.rs:424-440 | the weights fall by one on either side of position 9 |
| VinCheck.SingleSlip | src/handlers/model_series.rs:424-440 | away from position 9, a changed character is missed if and only if it has the same value |
| VinCheck.CheckPositionSlip | src/handlers/model_series.rs:424-440 | any other character at position 9 is caught |
| VinCheck.SwapSlip | src/handlers/model_series.rs:424-440 | two swapped characters are missed if and only if their values or weights agree |
| VinCheck.AdjacentSwap | src/handlers/model_series.rs:424-440 | for neighbours away from position 9 only equal values are missed |

## Left out

- HTTP, JSON, authentication of sessions and clients, rate limits, files, images, OCR, scraping and backups: I/O or foreign code.
- SHA-256, random generation and clocks: hashes are injective constructors, secrets and ids unused values, times parameters.
- OAuth client authentication, request shapes and the check that the user still exists: one branch each; the `resource` check is a given truth value.
- `lastUsedAt`, token names and display prefixes: columns no check reads.
- Database cascades from deleting users or clients, and what else goes with a motorcycle.
- `date_only`: dates arrive already truncated; how texts read as days and years is a parameter, as is every location's distance from home.
- Litres, costs, visited locations and countries of tours, and the per-location visit figures: plain sums beside the distances.
- Day trips of different motorcycles are kept per motorcycle, not merged into one map.
- Floating-point rounding: kilometres, money and litres are reals.
- Costs, fuel prices, consumption outliers and year-to-date figures of the fleet statistics.
- `typeCodes` and `frameRanges` columns of catalogue rows in the catalogue handlers; the codec itself is modelled.
- Trimming of names in the inventory handlers, descriptions, notes, images and part fitment rows: columns that do not meet the properties; image writes stamp the part like `UpdatePart`.
- The inventory and maintenance handlers run one after the other in the model; only the OAuth handlers interleave.
- Pulls of maintenance records: bundled items are inserted, updated and hard-deleted without a stamp.
- Which records a hard delete takes: in the inventory model it is any set, in the fuel model the cascade.
- The limit SQLite puts on the depth of a cascade.
- An update that deletes its own record through its items is answered with an error although it is stored; the model's answer says what is stored.
- Idempotency keys of maintenance records, and their ownership check.
- Changes of currency factors, and deleting the currencies themselves: the factors are fixed during a run.
- Row ids are naturals, except motorcycle and record ids in the map analysis, which are integers.
