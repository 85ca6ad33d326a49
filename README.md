# BidBazzar auction core in Dafny

This project models the core of BidBazzar, an online auction site with an
Express/MongoDB backend and a React frontend, and proves properties of the
model. It covers these parts of the site:

- **Bidding.** Admitting a bid, resolving proxy (automatic) bids into a new
  price and winner, buy-now, and the "winning bids" and "won auctions" lists.
- **The scheduled job.** Each minute it closes the auctions whose end time
  has passed. For unpaid orders whose 48-hour payment window has lapsed, it
  offers the item to the next bidder.
- **Listings.** Payment of orders, and the listing rules: creation
  defaults, the update and delete guards, the update's fallback when a field
  is falsy, the watch and interest toggles, and search pagination.
- **Accounts.** Registration, email activation with one-time passcodes,
  passcode resend, login gating and role, and profile edits.
- **Chat.** Posting messages, the message feeds, and the conversation list.
- **Client side.** The notification reducer, the countdown timer, and the
  sign-up and listing forms.

The backend's stored collections are one value, `Ledgers.Ledger`. It holds
auctions keyed by id, plus bids and orders in insertion order. Some handlers
change records in place. Those are methods of the class `Stores.Store`,
whose fields are the collections. Each method is proved to leave the store
in the state the matching specification function gives, and the lemmas are
proved about those functions. The user collection is treated the same way:
`Directories.Directory` is the class and `Accounts` holds the functions.
`Store.PlaceBid` keeps the handler's two loops as `while` loops:

- the running highest manual bid;
- the collection of each proxy bidder's ceiling.

`Store.Tick` keeps the scheduler's two `for` loops, and
`Chat.GetConversations` keeps the grouping `forEach`.

Conventions:

- Money is an integer number of minor units (paise). The schema minimum of
  0.01 is 1, and the default increment of 1 is 100.
- Times are integer milliseconds.
- A string is a sequence of Unicode characters. Its length, where the code
  compares one (`.length`, a schema's `maxlength`), is counted in UTF-16
  code units by `Text.Utf16Length`: two for a character above U+FFFF.
- Users, auctions, bids and orders are identified by natural numbers. A bid
  or an order is identified by its position in its collection. An auction's
  id is its key, handed out from `nextAuctionId`.
- JavaScript truthiness is written out. `x || d` on an optional number
  treats 0 as absent, and on an optional string treats "" as absent. The
  numeric fields of a listing request are numbers, as in a JSON body.
- The clock (`Date.now()`), the random source of `generateOTP`, the
  password hash check (`matchPassword`) and `parseFloat`/`new Date` in the
  form are parameters.

Where the code behaves differently from what its names and messages suggest, the model follows the code:

- **Flagged bid.** `placeBid` flags the incoming bid as winning, not the
  winner's bid.
- **Unsold close.** Closing an unsold auction leaves `currentWinner` in
  place.
- **Fallback loop.** The fallback excludes only the buyer of the order being
  cancelled. Two bidders who never pay are therefore offered the item in
  turn without end: A, then B, then A again.

## Model

| member | source | states |
|---|---|---|
| Records.LiveMeansNotEnded | backend/models/Auction.js:135-147 | an auction that is `isActive` has not ended, and an ended one is not live |
| Records.EndInstantOverlap | backend/models/Auction.js:145-147 | at `now == endTime` an active auction is still biddable (`hasEnded` is strict) yet already selected by the close sweep |
| Ledgers.BidsOf | backend/controllers/bidController.js:64 | the auction's bids are exactly the stored bids with that auction |
| Resolution.HighestManualIsMaximum | backend/controllers/bidController.js:66-71 | the running leader ends at the largest manual amount, or at the seed; when it moved, it is the earliest manual bid with that amount |
| Resolution.AutoCeilingsSpec | backend/controllers/bidController.js:74-82 | each bidder with a qualifying automatic bid appears once, with their largest ceiling, in order of first qualifying bid; nothing else appears |
| Resolution.SortByCeilingSorted | backend/controllers/bidController.js:85-86 | the sorted ceilings are in descending order |
| Resolution.SortHead | backend/controllers/bidController.js:85-86 | stable sort: the head is the first entry with the largest ceiling |
| Resolution.SortSecond | backend/controllers/bidController.js:99-100 | the second sorted entry carries the largest ceiling among all but the top one |
| Resolution.Resolve | backend/controllers/bidController.js:88-129 | a counter-bid, when created, belongs to the new winner, is at the new price and within that winner's ceiling |
| Resolution.ResolveNeverLowersPrice | backend/controllers/bidController.js:88-129 | the resolved price is never below `currentBid \|\| startingBid` |
| Resolution.ResolveWithoutAutos | backend/controllers/bidController.js:91-96 | without qualifying automatic bids, price and winner change only when the highest manual amount exceeds the price, and then become that amount and bidder |
| Resolution.ResolveWithAutos | backend/controllers/bidController.js:97-117 | with automatic bids the candidate is min(top ceiling, second + increment); a manual leader at or above it wins at its amount, otherwise the top automatic bidder wins at the candidate, within its ceiling |
| Resolution.TopCeilingTieBreak | backend/controllers/bidController.js:74-86 | the top automatic bidder holds the largest ceiling; among equal ceilings, the earliest first qualifying bid wins |
| Resolution.ProxyCounter | backend/controllers/bidController.js:97-127 | worked example: an automatic ceiling of 200 answers a manual 150 with a counter-bid of 155 |
| Resolution.ProxyOverCeiling | backend/controllers/bidController.js:97-114 | worked example: a manual bid above the rival's ceiling wins at its own amount |
| Bidding.PlaceBidAcceptance | backend/controllers/bidController.js:14-49 | a bid is accepted exactly when every guard passes; each refusal names the first failing guard in the handler's order, and the minimum-bid error carries `currentBid + minimumIncrement` |
| Bidding.PlaceBidFlags | backend/controllers/bidController.js:132-133 | afterwards exactly one bid of the auction is flagged winning, and it is the incoming bid; other auctions' bids are untouched |
| Bidding.PlaceBidEffect | backend/controllers/bidController.js:52-139 | only the auction's price, winner and bid count change; price and winner are those `Resolution.Resolve` gives over the auction's bids with the incoming one; the price never falls, the count grows by one, orders are untouched, and a second bid is appended exactly when the resolution carries a counter-bid: for the resolution's bidder, at the new price, within that bidder's ceiling, and only when the winner or amount differs from the incoming bid |
| Bidding.PlaceBidKeepsValid | backend/models/Bid.js:15-19 | an accepted bid keeps every record within its schema bounds |
| Bidding.LosingBidFlaggedWinning | backend/controllers/bidController.js:118-133 | an incoming bid that loses to a counter-bid is still the one flagged winning |
| Bidding.BuyNowAcceptance | backend/controllers/bidController.js:169-191 | buy-now is accepted exactly when the auction exists, has a buy-now price, is active, the buyer is not the seller, and the buy-now price is not negative; a negative one fails the bid schema's `min: 0` on the created bid (an error response in the source, `InvalidBid` here) |
| Bidding.BuyNowEffect | backend/controllers/bidController.js:186-198 | one winning bid at the buy-now price is appended, the auction ends with the buyer as winner at that price and one more bid, and nothing else changes |
| Bidding.BuyNowKeepsValid | backend/controllers/bidController.js:186-198 | a buy-now keeps every record within its schema bounds |
| Bidding.BuyNowAfterEndKeepsOldFlag | backend/controllers/bidController.js:173-198 | buy-now works after the end time and leaves an earlier winning flag, so two bids are flagged winning |
| Bidding.WinningBidsNewestFirst | backend/controllers/bidController.js:255-260 | a later winning bid of the user is listed ahead of all earlier ones; any other later bid leaves the list as it was |
| Bidding.WinningBids | backend/controllers/bidController.js:253-269 | the list holds exactly the user's bids flagged winning |
| Bidding.WonAuctions | backend/controllers/bidController.js:271-278 | only stored auctions that are ended and have the user as current winner; its partners are WonAuctionsUpdate, BuyNowWon, Scheduler.FallbackWon and Scheduler.UnsoldKeepsWinner |
| Bidding.WonAuctionsUpdate | backend/controllers/bidController.js:271-278 | rewriting one auction record moves only that auction in or out of a user's won set, and it is in exactly when the new record is ended with the user as winner |
| Bidding.BuyNowWon | backend/controllers/bidController.js:186-198 | a buy-now adds the auction to the buyer's won auctions and removes it from every other user's |
| Scheduler.SweepSelectsDue | backend/utils/auctionScheduler.js:12-25 | the sweep ends exactly the active auctions with `endTime <= now`; every other auction is as it was |
| Scheduler.NothingDueAfterSweep | backend/utils/auctionScheduler.js:12-25 | after the sweep no auction is due to close |
| Scheduler.CloseAllAuctions | backend/utils/auctionScheduler.js:22-25 | the close loop sets `ended` on exactly the listed auctions and changes nothing else about any auction |
| Scheduler.DueIdsAscending | backend/utils/auctionScheduler.js:12-15 | the due auctions are visited in store order, each one once |
| Scheduler.ExpiredAscending | backend/utils/auctionScheduler.js:118 | the lapsed orders are visited in store order, each one once |
| Scheduler.CloseAllOrders | backend/utils/auctionScheduler.js:56-67 | the close loop keeps the existing orders and adds only sale orders of listed auctions |
| Scheduler.CloseAllBidsOutside | backend/utils/auctionScheduler.js:51-111 | bids of auctions not being closed keep their flags |
| Scheduler.CloseSold | backend/utils/auctionScheduler.js:56-112 | a sold close creates exactly one pending order for the winner at the current bid, deadline 48 h on, and a bid of the auction is winning iff its bidder is the winner |
| Scheduler.CloseUnsold | backend/utils/auctionScheduler.js:30-52 | an unsold close creates no order, clears every flag of the auction and keeps `currentWinner` |
| Scheduler.InactiveNeverSold | backend/utils/auctionScheduler.js:12-15 | an auction that is not active gets no order from the sweep |
| Scheduler.FallbackOneSpec | backend/utils/auctionScheduler.js:121-166 | one lapsed order is cancelled; the best bid by anyone except that buyer becomes price and winner with one fresh pending order, or the winner is cleared when there is none; the status is kept |
| Scheduler.FallbackWon | backend/utils/auctionScheduler.js:131-163 | after one lapse the cancelled buyer no longer counts the auction as won; with no other bidder nobody does; otherwise, on an ended auction, the bidder it is offered to does; other auctions are unaffected |
| Scheduler.ExpireAllSpec | backend/utils/auctionScheduler.js:117-170 | the fallback loop cancels exactly the listed orders, appends only fresh pending orders, keeps auction statuses and leaves the bids alone |
| Scheduler.NothingExpiredAfterTick | backend/utils/auctionScheduler.js:117-124 | after a run of the job no order is expired |
| Scheduler.NothingDueAfterTick | backend/utils/auctionScheduler.js:12-25 | after a run of the job no auction is due to close |
| Scheduler.TickIdempotent | backend/utils/auctionScheduler.js:7-170 | a second run at the same instant changes nothing |
| Scheduler.TickKeepsValid | backend/utils/auctionScheduler.js:7-170 | the job keeps every record within its schema bounds |
| Scheduler.FirstLapse | backend/utils/auctionScheduler.js:131-148 | worked example: A's lapsed order re-offers the item to B at B's bid |
| Scheduler.SecondLapse | backend/utils/auctionScheduler.js:131 | worked example: B's lapse offers the item back to A, never to C |
| Scheduler.UnsoldKeepsWinner | backend/utils/auctionScheduler.js:30-33 | an auction whose reserve is unmet ends with no order, yet keeps its winner and shows in that bidder's won auctions |
| Scheduler.BuyNowNeverSold | backend/controllers/bidController.js:194-198 | a buy-now ends the auction itself, so no order is ever created for it |
| Payments.PayOrderAcceptance | backend/controllers/orderController.js:7-15 | payment succeeds exactly for an existing order paid by its buyer; an unknown order and a stranger are refused with no change |
| Payments.PayOrderEffect | backend/controllers/orderController.js:17-25 | the order becomes paid and its auction, if present, ended; nothing else changes, and a paid order is never picked up by the fallback |
| Payments.PayOrderKeepsValid | backend/controllers/orderController.js:17-25 | payment keeps every record within its schema bounds |
| Payments.CancelledOrderCanBePaid | backend/controllers/orderController.js:17 | a cancelled order can still be paid by its buyer |
| Payments.MyOrders | backend/controllers/orderController.js:36-46 | the list holds exactly the orders where the user is buyer or seller |
| Payments.MyOrdersNewestFirst | backend/controllers/orderController.js:38 | an order appended to the store heads the user's list when the user is its buyer or seller, and leaves the list unchanged otherwise, so the list is newest first |
| Listings.CreateAcceptance | backend/controllers/auctionController.js:87-126 | creation succeeds exactly when the required numbers are present and the schema accepts the document, with title and description lengths counted in UTF-16 code units |
| Listings.CreateDefaults | backend/controllers/auctionController.js:103-120 | current bid = starting bid, increment = given or 1 unit, shipping = given or 0, active, reserve 0, no winner, no bids, images under `/uploads/auctions/`, stored under a fresh id |
| Listings.CreateKeepsValid | backend/controllers/auctionController.js:105-120 | creation keeps every record within its schema bounds |
| Listings.ChangeGuards | backend/controllers/auctionController.js:133-147 | update and delete pass the guards exactly for an existing auction with no bids whose requester is the seller or an admin, and the error names the first failing guard |
| Listings.DeleteEffect | backend/controllers/auctionController.js:190-214 | delete removes exactly that auction and nothing else |
| Listings.UpdateFallback | backend/controllers/auctionController.js:162-177 | each of title (trimmed), description, category, condition, starting bid, increment and buy-now price takes a truthy new value and keeps the old one otherwise; location takes any present object, end time any present date, shipping any present value, 0 included; images are appended; price, winner, status, bid count, seller, lists and every other auction are untouched |
| Listings.UpdateKeepsValid | backend/controllers/auctionController.js:131-185 | an accepted update keeps every record within its schema bounds |
| Listings.RaisedStartingBidNotEnforced | backend/controllers/auctionController.js:165 | raising the starting bid from 100 to 500 leaves the current bid, so a bid of 200 is still accepted |
| Listings.ToggleSpec | backend/controllers/auctionController.js:242-257 | a toggle flips exactly the user's membership; a removal drops every copy of the user and keeps every other entry in its stored order with its multiplicity, so the new length is the old one minus the user's copies; otherwise the user is appended once |
| Listings.ToggleTwice | backend/controllers/auctionController.js:242-250 | toggling an absent user twice restores the list |
| Listings.ToggleWatchReply | backend/controllers/auctionController.js:234-261 | `isWatching` is the negated prior membership and `watchCount` the stored list's length |
| Listings.ToggleInterestReply | backend/controllers/auctionController.js:282-338 | `isInterested` is the negated prior membership and `interestCount` the stored list's length |
| Listings.DefaultStatusFilter | backend/controllers/auctionController.js:22-26 | without a status only active and pending auctions are listed |
| Listings.SelectInOrder | backend/controllers/auctionController.js:19-31 | the selection keeps the collection's order, so pages are runs of the requested order |
| Listings.Select | backend/controllers/auctionController.js:19-31 | the matching auctions are those meeting the status and category filters |
| Listings.TotalPagesCeil | backend/controllers/auctionController.js:57 | for a positive limit, the page count is the least n with n · limit ≥ total |
| Listings.PageSlice | backend/controllers/auctionController.js:39-50 | for page ≥ 1 and a positive limit (absent values default to 1 and 12), the page is the slice of matches from (page − 1) · limit holding at most limit entries |
| Listings.PageOfIndex | backend/controllers/auctionController.js:39-57 | for a positive limit, the i-th match is on page i / limit + 1, and that page is within the page count |
| Otp.VerifySpec | backend/utils/otpService.js:18-39 | a code is valid iff not past its expiry and equal to the stored code; expiry is checked first |
| Otp.IssuedCodeWindow | backend/utils/otpService.js:12-15 | a code issued at t verifies iff presented unchanged by t + 300000 ms |
| Otp.Draw | backend/utils/otpService.js:8 | the draw is an integer in [100000, 999999] |
| Otp.GenerateRange | backend/utils/otpService.js:7-9 | a generated code is six decimal digits naming a number in [100000, 999999] |
| Text.DecimalRoundTrip | backend/utils/otpService.js:8 | reading back the decimal string gives the number |
| Text.Trim | backend/controllers/chatController.js:29 | the trimmed string has no surrounding whitespace and is the middle of the input |
| Text.TrimEmptyIffBlank | backend/controllers/chatController.js:29 | a string trims to nothing exactly when it is whitespace only |
| Text.Utf16Length | frontend/src/components/auth/Register.js:36-42 | `.length` counts UTF-16 code units: between one and two per character, and exactly one per character when none lies above U+FFFF |
| Text.Utf16Surrogates | frontend/src/components/auth/Register.js:36 | a character above U+FFFF counts two units: "😀a" has length 3 |
| Accounts.RegisterAcceptance | backend/controllers/authController.js:30-43 | registration is refused without terms or when the email or username is taken; the message names the email iff the first clashing user has it |
| Accounts.RegisterNewUser | backend/controllers/authController.js:46-93 | the new user is appended unverified, not activated and not an admin, with the schema's default settings, and a code valid for 5 minutes; a failed send still succeeds, with a warning |
| Accounts.RegisteredCannotLogin | backend/controllers/authController.js:239-246 | a freshly registered user cannot log in until activated |
| Accounts.VerifyEmailSpec | backend/controllers/authController.js:108-144 | verification succeeds iff both fields are given, the user exists, holds a code and it verifies; it then activates the account and removes the code |
| Accounts.VerifyEmailReplay | backend/controllers/authController.js:138-139 | replaying a successful code is refused |
| Accounts.VerifiedCanPassGate | backend/controllers/authController.js:239-252 | after activation the login outcome depends on the password only |
| Accounts.ResendOtpSpec | backend/controllers/authController.js:165-193 | resend is refused for unknown or verified users; otherwise only that user's code and expiry change, so the new code verifies for 5 minutes |
| Accounts.LoginGating | backend/controllers/authController.js:234-252 | unknown email and wrong password give the same refusal; an inactive account is refused before the password; deactivation is reported only after a matching password |
| Accounts.LoginRole | backend/controllers/authController.js:254 | the role is seller iff seller-verified, levelled, or has sold items |
| Accounts.UpdateProfilePassword | backend/controllers/authController.js:369-382 | the password changes only when a current password is given and matches; otherwise the update is refused before any field changes |
| Accounts.UpdateProfileFields | backend/controllers/authController.js:385-401 | email, username, phone, the verification and account flags never change; every text field takes a non-empty new value and keeps the old one otherwise; each address and the shipping preferences take a present object; both preference objects are `{ ...old, ...new }`; other users are untouched |
| Chat.CreateMessageSpec | backend/controllers/chatController.js:29-53 | missing or blank content is refused; a message is appended with trimmed text; private between sender and recipient when one is given, else in the auction's room; the stored text is at most 2000 UTF-16 code units |
| Chat.AuctionFeed | backend/controllers/chatController.js:10-13 | the room feed holds only the room's messages, at most 200: all of them when there are at most 200, otherwise exactly the first 200 stored, in their stored order, so oldest first on a chronological store |
| Chat.PrivateFeedSymmetric | backend/controllers/chatController.js:71-76 | the private feed is the same for both users, holds at most 500 messages, each naming both: all of them when there are at most 500, otherwise exactly the first 500 stored, in their stored order, so oldest first on a chronological store |
| Chat.InRoomInOrder | backend/controllers/chatController.js:10-12 | the room filter keeps the selected messages in their stored order |
| Chat.BetweenInOrder | backend/controllers/chatController.js:71-75 | the participants filter keeps the selected messages in their stored order |
| Chat.PrivateMessageVisible | backend/controllers/chatController.js:38-45 | a private message from a to b shows in both users' feeds while under the limit |
| Chat.GetConversations | backend/controllers/chatController.js:87-121 | the forEach loop and sort compute the conversation list function |
| Chat.GroupSpec | backend/controllers/chatController.js:100-117 | one entry per other participant, carrying the first message met with them; messages with no other participant are skipped |
| Chat.ConversationsSpec | backend/controllers/chatController.js:92-121 | the list is sorted by last-message time, descending, and holds the grouped entries |
| Chat.SortByTimeStable | backend/controllers/chatController.js:119-121 | the sort leaves an already descending list unchanged |
| Chat.ConversationsPresorted | backend/controllers/chatController.js:92-121 | on a chronological store each entry is the other user's latest message and the final sort changes nothing |
| Chat.CreateMessageChronological | backend/controllers/chatController.js:38-53 | posting with a clock that does not run backwards keeps the store chronological |
| Notifications.AddPrepends | frontend/src/context/NotificationContext.js:31-32 | ADD puts the payload in front and keeps the rest |
| Notifications.MarkReadSpec | frontend/src/context/NotificationContext.js:33-34 | MARK_READ keeps length, order and other fields, and sets `read` exactly on the items with the id |
| Notifications.MarkReadIdempotent | frontend/src/context/NotificationContext.js:33-34 | marking the same id twice equals marking it once |
| Notifications.ClearAndOther | frontend/src/context/NotificationContext.js:35-38 | CLEAR empties the list; any other action leaves it unchanged |
| Notifications.AddNotification | frontend/src/context/NotificationContext.js:126-129 | the list gains one unread notification in front, carrying the given fields, and the id is returned |
| Notifications.AddRaisesUnread | frontend/src/context/NotificationContext.js:126-129 | adding raises the unread count by one |
| Notifications.MarkReadUnread | frontend/src/context/NotificationContext.js:132-134 | after markRead no item with the id is unread, and the unread count never rises |
| Countdown.SplitExact | frontend/src/components/common/CountdownTimer.js:24-27 | hours < 24, minutes and seconds < 60, and the units add back up to the difference within a second |
| Countdown.DisplayLeads | frontend/src/components/common/CountdownTimer.js:30-38 | the text opens with the largest unit of which a whole is left, and with the count of whole such units |
| Countdown.EndedIffNotPositive | frontend/src/components/common/CountdownTimer.js:14-21 | "Ended" is shown iff the difference is at most 0, which also sets the expired flag |
| Countdown.ExpiredSticky | frontend/src/components/common/CountdownTimer.js:14-16 | once the expired flag is set, no later run clears it |
| Countdown.ColorMatchesDisplay | frontend/src/components/common/CountdownTimer.js:47-57 | while running, gray iff days are shown, orange iff hours lead, bold red iff minutes or seconds lead |
| RegisterForm.ValidateSpec | frontend/src/components/auth/Register.js:33-49 | each check reports exactly its own failure: username < 3, password < 6 (lengths in UTF-16 code units, as `.length` counts), confirmation differs |
| RegisterForm.SubmitGate | frontend/src/components/auth/Register.js:55-68 | the body is sent iff all checks pass, and it is the form less `confirmPassword`; a blocked submit shows the validation record |
| RegisterForm.ChangeClearsOnlyThatField | frontend/src/components/auth/Register.js:19-31 | an edit stores the value, clears that field's message and changes no other field or message |
| RegisterForm.InitialBlocked | frontend/src/components/auth/Register.js:8-15 | the untouched form is blocked with username and password messages |
| RegisterForm.FormBodyRefused | frontend/src/components/auth/Register.js:67-68 | the body never holds `termsAccepted`, so the register endpoint refuses every submission |
| RegisterForm.TermsBodyAccepted | frontend/src/components/auth/Register.js:67-68 | sending the terms flag, a valid form with unused email and username registers |
| AuctionForm.SubmitChain | frontend/src/components/auctions/CreateAuction.js:75-95 | the three checks in order, the first failure reported and nothing sent; the body is sent iff all pass |
| AuctionForm.UnparsableInputPasses | frontend/src/components/auctions/CreateAuction.js:79-93 | empty fields, which parse to NaN or an invalid date, pass all three checks |
| AuctionForm.BodyNames | frontend/src/components/auctions/CreateAuction.js:98-114 | the text parts in order; `reservePrice` and `buyNowPrice` are sent iff filled in |
| AuctionForm.BodyParts | frontend/src/components/auctions/CreateAuction.js:98-118 | images end the body in list order, and each text part carries its field's value |
| AuctionForm.AddImagesSpec | frontend/src/components/auctions/CreateAuction.js:62-69 | a batch is refused whole iff it would make more than five; otherwise it is appended in order |
| AuctionForm.RemoveImageSpec | frontend/src/components/auctions/CreateAuction.js:71-73 | removeImage drops exactly index i and keeps the order of the rest; other indices change nothing |
| AuctionForm.ImageBound | frontend/src/components/auctions/CreateAuction.js:62-73 | both image edits keep the list at five or fewer |
| AuctionForm.ChangeSpec | frontend/src/components/auctions/CreateAuction.js:43-60 | a `location.` edit changes only the nested key, any other edit only its top-level key |
| AuctionForm.LocationEdit | frontend/src/components/auctions/CreateAuction.js:45-53 | `location.<key>` edits `<key>` of the nested record |
| Stores.Store.PlaceBid | backend/controllers/bidController.js:7-157 | the store becomes the state the placeBid function gives, or is unchanged with its error |
| Stores.Store.ManualLeader | backend/controllers/bidController.js:66-71 | the loop computes the running highest manual bid |
| Stores.Store.CollectCeilings | backend/controllers/bidController.js:74-82 | the loop computes each bidder's largest ceiling, one entry per bidder |
| Stores.Store.ResolveBids | backend/controllers/bidController.js:66-129 | the loops and the decision compute the resolution |
| Stores.Store.BuyNow | backend/controllers/bidController.js:162-217 | the store becomes the state the buyNow function gives, or is unchanged with its error |
| Stores.Store.Tick | backend/utils/auctionScheduler.js:7-170 | the store becomes the state one run of the job gives |
| Stores.Store.CloseDue | backend/utils/auctionScheduler.js:12-113 | the loop closes each selected auction in turn |
| Stores.Store.ExpireLapsed | backend/utils/auctionScheduler.js:117-170 | the loop handles each lapsed order in turn |
| Stores.Store.PayOrder | backend/controllers/orderController.js:7-31 | the store becomes the state payOrder gives, or is unchanged with its error |
| Stores.Store.CreateAuction | backend/controllers/auctionController.js:87-126 | the store becomes the state createAuction gives, or is unchanged |
| Stores.Store.UpdateAuction | backend/controllers/auctionController.js:131-185 | the store becomes the state updateAuction gives, or is unchanged with its error |
| Stores.Store.DeleteAuction | backend/controllers/auctionController.js:190-214 | the store becomes the state deleteAuction gives, or is unchanged with its error |
| Stores.Store.ToggleWatch | backend/controllers/auctionController.js:234-261 | the store and reply are those toggleWatch gives |
| Stores.Store.ToggleInterest | backend/controllers/auctionController.js:282-338 | the store and reply are those toggleInterest gives |
| Directories.Directory.Register | backend/controllers/authController.js:16-99 | the users become those register gives, or are unchanged with its error |
| Directories.Directory.VerifyEmail | backend/controllers/authController.js:104-154 | the users become those verifyEmail gives, or are unchanged with its error |
| Directories.Directory.ResendOtp | backend/controllers/authController.js:161-213 | the users become those resendOTP gives, or are unchanged with its error |
| Directories.Directory.UpdateProfile | backend/controllers/authController.js:360-468 | the users become those updateProfile gives, or are unchanged with its error |

## Left out

- Real-time events (`io.emit`, the socket handler) and their payloads: they are transport only, and no stored state depends on them.
- The cron schedule: one run of the job is one call of `Tick(now)`.
- Clock reads: `Date.now()` and `new Date()` are the `now` parameter. The 48-hour deadline is measured from the same `now`.
- MongoDB mechanics: `populate`, `save` and query execution are left out, and each handler is treated as atomic. The code has no locking, so races between a bid and the job are not modelled.
- Stored order: `Bid.find` and `Order.find` return store order. The fallback's sort by amount breaks ties by store order, which the source leaves unspecified.
- Error isolation in the fallback loop: a failure on one order does not stop the others. Store calls never fail in the model, so this is not represented.
- getAuctions: the `$text` search and the caller's sort key are left out. The collection is passed in already in the requested order.
- getAuctions page and limit: they arrive as parsed integers. `parseInt` of non-numeric text is not modelled.
- getUserWonAuctions' sort by end time: `Bidding.WonAuctions` is a set.
- getAuctionById, getUserAuctions, getWatchedAuctions, getAuctionBids, getUserBids, getProfile: they are read-only lookups outside the modelled core.
- Password hashing and JWT: `matchPassword` is an abstract predicate `Matcher`, and a changed password is stored as given.
- The User schema's validators, email lowercasing, the `trim` setters on username, email, first name and last name, and the request validators of the routes: they are outside the modelled core. Values are stored as given.
- Email sending: whether it worked is the `emailSent` parameter.
- generateOTP's randomness: the draw is a parameter in [0, 1), and only the range of the code is modelled.
- Floating point: amounts are exact integers in minor units. Rounding of `second + minimumIncrement` and `toFixed` are not modelled.
- Text.Trim: only ASCII whitespace is trimmed. JavaScript's `trim` also removes Unicode spaces.
- Image uploads (multer): only the stored paths `/uploads/auctions/<file>` and their order are kept.
- Chat.CreateMessage: author lookups (`populate`) are left out. A message over the schema's 2000-character bound is refused with `TooLong`, where the source fails with a 500 on save.
- Chat timestamps: `createdAt` order is modelled as store order. Messages with identical timestamps may come back in either order in the source.
- Notifications side effects: localStorage persistence, the sound, the toast and the browser notification (NotificationContext.js lines 4-24 and 43-97).
- Notification ids: `addNotification` takes the id as a parameter.
- CountdownTimer: the interval timer and the `onExpire` callback are one `Tick` call, which reports whether the callback fires. `hoursLeft` is compared exactly, not in floating point.
- Listings.CreateDefaults: the numeric fields are taken as numbers, as in a JSON body. Over a multipart body, which the routes accept and the app's own form sends, every field is text and "0" is truthy. A sent increment of "0" is then stored as 0 and fails the schema's minimum with a 500. The model instead falls back to the default increment and accepts the auction.
- Listings.UpdateFallback: the numeric fields are taken as numbers for the same reason. A multipart "0" starting bid or increment would replace the stored value and fail validation, where the model keeps the old value.
- Listings.CreateAuction: `location` is stored as the structured place it names. The listing form sends it as the text of `JSON.stringify` in a multipart body, and the handler passes that text unparsed to the nested `location` path. What Mongoose then stores, probably nothing under strict mode, is not modelled.
- The forms' `required` and `min` input markers: the browser enforces them before the submit handler runs.
- The forms' network calls and navigation: the sent body is the model's result.

## Findings

| source | as written | input that shows it | evidently intended | confidence | as-written member | corrected member |
|---|---|---|---|---|---|---|
| frontend/src/components/auth/Register.js:67-68 | the sign-up body is the form minus `confirmPassword`. The form has no `termsAccepted` field, while the register endpoint refuses a body without it (authController.js:30-35) | username "alice", email "a@x.io", password and confirmation "secret1": the form sends it, and the server answers "You must agree to the Terms & Conditions" | the form sends the terms flag from a checkbox | not executed; the refusal follows directly from the two files | RegisterForm.FormBodyRefused | RegisterForm.TermsBodyAccepted |
