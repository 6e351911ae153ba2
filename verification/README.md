# Reward ledger of the Faberlic mining platform, in Dafny

This project models the server side of a gamified cashback platform: the
FastAPI handlers in `backend/server.py` that move a user's balance, daily and
total earnings, VIP level and deposit total. Each handler is a pure step
function from the store (an in-memory copy of the Mongo collections) and the
request to either an error or a new store and a reply. Contracts and lemmas
state what each step guarantees, and what whole runs of steps guarantee.

Modules:

- `Wrappers`: `Option` and `Result`.
- `Records`: users, VIP levels, orders, transactions, mining and spin records, the store, errors, replies, the seeded VIP table, the caller lookup and the store invariant `Valid`.
- `Vip`: the upgrade scan and `POST /vip/upgrade`.
- `Orders`: the lazy daily reset, the candidate-order generator, `GET /orders/available` and `POST /orders/accept/{id}`.
- `Mining`: the six-hour tap window, `GET /mining/status` and `POST /mining/tap`.
- `Spin`: the once-per-date prize wheel, `POST /spin/daily`.
- `Wallet`: deposit and withdrawal requests, and the admin approve and reject endpoints behind the role guard.
- `Server`: one dispatcher over all requests, runs of calls, and lemmas about runs.

Representation:

- Money is integer cents. For example 0.01 USDT is 1, and the 1,000 USDT minimum deposit is 100000.
- Instants are Unix seconds in UTC. A date is `now / 86400`.
- The caller is the user id the bearer token resolves to. Admin rights are `role == "admin"`.
- A transaction's id is its position in the append-only log. This stands in for the random UUID.
- Random choices are arguments of the call. The product, price and five code digits of each offered order, the five code digits of an accepted order, and the prize index of a spin are limited to the values the server can draw; the five-digit numbers are the subset type `CodeNumber`. Order ids are arbitrary strings, standing in for the random UUIDs, and are not limited.

The model follows the handlers as written, including behaviours a cleaner design would not have:

- Accepting an order does not check the daily cap. Only the listing applies it (`Orders.AcceptIgnoresDailyCap`).
- Rejecting a withdrawal and approving a deposit do not check the transaction's status or kind. Repeating either one refunds or credits again (`Wallet.RejectTwiceRefundsTwice`, `Wallet.ApproveDepositTwiceCreditsTwice`).
- A withdrawal is debited when it is requested. Approving it moves no money. A repeat approval in the same instant changes no document, so it is answered as not found (`Wallet.ApproveWithdrawalReplay`).
- The prize list is 0.5, 1, 1, 2, 2, 5, 5, 10 USDT. The comment next to it also names 20, but 20 is never paid.
- Because of the unchecked rejections and deposit approvals, and the debit at request time, the balance is not the sum of completed credits minus completed debits. The model proves weaker run-level facts instead: the invariant `Valid`, monotone VIP levels and total earnings, and equal growth of balance and total earnings across earning calls.

## Model

| member | source | states |
|---|---|---|
| Records.FindLevel | backend/server.py:348-350 | the level lookup finds a record exactly when some VIP level carries the number asked for, and what it returns carries that number |
| Records.DecimalDigits | backend/server.py:323 | the decimal rendering of a code number is digits only, without a leading zero, and denotes the number |
| Records.CurrentUser | backend/server.py:61-66 | a caller resolves to its user document exactly when it exists; otherwise the request fails with user-not-found |
| Vip.ScanLevels | backend/server.py:250-254 | over a level-ordered table the scan yields the highest level that is active and whose threshold the deposit reaches, or the starting value when none is |
| Vip.UpgradeVip | backend/server.py:243-263 | the upgrade reads the first 100 levels; it writes their candidate level only when it is strictly above the current one; otherwise the store is untouched and no candidate exceeds the current level |
| Vip.CandidateExists | backend/server.py:250-254 | over a level-ordered table the scan from 0 always yields a candidate level: the highest open level, or 0 when none is open |
| Vip.CandidateUnique | backend/server.py:250-254 | a deposit has at most one candidate level |
| Vip.UpgradeNeverLowers | backend/server.py:256-261 | an upgrade never lowers the caller's level and leaves every other user as it was |
| Vip.UpgradeIdempotent | backend/server.py:256-263 | asking again with the same deposit finds nothing to do and changes nothing |
| Vip.DefaultTableUpgrades | backend/server.py:232-263 | with the seeded table a 1,000 USDT deposit reaches VIP 1, 3,000 USDT reaches VIP 2, and less than 1,000 USDT upgrades nothing |
| Orders.Generate | backend/server.py:310-336 | at most the iteration count of orders, each built from its draw with the level's commission as cashback; the listing stops exactly when the next cashback would exceed what is left, so the cashback total stays within the allowance |
| Orders.ResetDaily | backend/server.py:277-291 | on a new date the caller's daily earnings become 0 and the date is stored; on the stored date nothing changes |
| Orders.ResetIdempotent | backend/server.py:279-291 | a second reset on the same date does nothing |
| Orders.ListOrders | backend/server.py:266-338 | no orders and no write without a VIP level or its record; otherwise the reset runs, there are no orders at or above the daily cap, and below it at most min(3, orders_per_day) orders, each paying the commission, with total cashback within the cap minus today's earnings |
| Orders.AcceptOrder | backend/server.py:340-396 | an id already stored is refused, and so is a missing VIP record; a signed-in caller with a new id and a VIP record is always served; then balance, daily and total earnings each rise by the commission of the caller's level record, and exactly one completed order and one completed order transaction of that amount are appended |
| Orders.AcceptReplayRefused | backend/server.py:342-345 | accepting the same order id again is refused, so an order pays once |
| Orders.AcceptIgnoresDailyCap | backend/server.py:352-367 | a caller already at the daily cap can still accept an order and be paid past the cap |
| Orders.SameDayListingKeepsEarnings | backend/server.py:279-291 | a second listing on the same date keeps the earnings accepted since the first one |
| Orders.ListPreservesValid | backend/server.py:279-291 | listing keeps the store invariant |
| Orders.AcceptPreservesValid | backend/server.py:352-367 | accepting keeps the store invariant |
| Mining.Tap | backend/server.py:441-466 | a tap is refused exactly when the effective count (0 once six hours have passed since the last tap) is at the 500 quota; otherwise the count becomes effective plus one, at most 500, and the tap time is now |
| Mining.MiningStatus | backend/server.py:404-432 | the status creates a missing record and stores the count as 0 once six hours have passed since the last tap, changing nothing else |
| Mining.TapMining | backend/server.py:434-489 | no mining record gives not-found and the quota gives a refusal; a caller with a record and an effective count below 500 is always paid; a paid tap adds one cent to balance and total earnings, appends one completed mining transaction, and reports remaining = 500 - count, which is never negative |
| Mining.StatusThenTap | backend/server.py:418-447 | for a caller who already has a mining record, reading the status first never changes the outcome of a tap at the same or a later instant |
| Mining.TapAfterWindowStartsOver | backend/server.py:441-454 | six hours after the last tap a tap is paid and counts as the first |
| Mining.TapRunAfterTap | backend/server.py:449-466 | once a tap has landed in a six-hour interval, the rest of that interval pays at most the quota that is left |
| Mining.AtMostQuotaPerWindow | backend/server.py:441-466 | however tap attempts are spread over any six-hour interval, at most 500 are paid |
| Mining.MiningPreservesValid | backend/server.py:449-475 | status and tap keep the store invariant, including the 0..500 tap count |
| Spin.SpinOnce | backend/server.py:501-518 | a claim is refused exactly when the last spin date is today; otherwise the date becomes today and the spin count rises by one |
| Spin.DailySpin | backend/server.py:492-540 | a second spin on the same UTC date is refused with no change, and any other spin by a signed-in caller is served; then the prize at the drawn index is 0.5, 1, 2, 5 or 10 USDT (never 20), and it is added to balance and total earnings and logged as one completed spin transaction |
| Spin.NoSecondSpin | backend/server.py:501-502 | after today's claim, no further attempt today is paid |
| Spin.OneSpinPerDay | backend/server.py:494-518 | however many attempts are made on one date, at most one is paid |
| Spin.NextDaySpinsAgain | backend/server.py:494-502 | the claim made today blocks today only; the next date pays again |
| Spin.SpinPreservesValid | backend/server.py:505-526 | a spin keeps the store invariant |
| Wallet.RequireAdmin | backend/server.py:646-647 | admin endpoints proceed exactly for an existing caller whose role is admin; others get user-not-found or admin-required |
| Wallet.Credit | backend/server.py:674-677 | the increment reaches only the transaction's owner, and only if that user exists; no user is added or removed |
| Wallet.CreateDeposit | backend/server.py:543-563 | a deposit is refused exactly when it is below 1,000 USDT; otherwise one pending deposit to the platform address is logged under the next id and no balance changes |
| Wallet.CreateWithdrawal | backend/server.py:565-595 | a withdrawal below 250 USDT is refused, as is one above the balance, and every other one is served; then the balance drops by exactly the amount and stays non-negative, and one pending withdrawal is logged under the next id |
| Wallet.ApproveWithdrawal | backend/server.py:644-659 | approval only marks the transaction completed and never changes a balance; an unknown id, or one already completed at this instant, is not found, and an administrator's approval of any other id is served |
| Wallet.RejectWithdrawal | backend/server.py:661-685 | rejection adds the amount back to the owner's balance, changing no other field of any user, and marks the transaction rejected with the note, without checking its status; an unknown id is not found, and an administrator's rejection of any other id is served |
| Wallet.ApproveDeposit | backend/server.py:687-710 | approval adds the amount to the owner's balance and deposit total, changing no other field of any user, and marks the transaction completed, without checking its status; an unknown id is not found, and an administrator's approval of any other id is served |
| Wallet.WithdrawThenRejectRestores | backend/server.py:565-685 | a withdrawal request followed by its rejection gives every user back exactly the balance they had |
| Wallet.DepositThenApproveCredits | backend/server.py:698-702 | an approved deposit request raises its owner's balance and deposit total by its amount |
| Wallet.ApproveDepositTwiceCreditsTwice | backend/server.py:692-708 | approving the same deposit twice credits it twice |
| Wallet.RejectTwiceRefundsTwice | backend/server.py:667-683 | rejecting the same withdrawal twice refunds it twice |
| Wallet.ApproveWithdrawalReplay | backend/server.py:651-657 | approval moves no money, and a replay in the same instant is answered as not found |
| Wallet.RequestsPreserveValid | backend/server.py:567-581 | deposit and withdrawal requests keep the store invariant; the only debit is guarded by the balance check |
| Wallet.ApproveWithdrawalPreservesValid | backend/server.py:651-654 | approving a withdrawal keeps the store invariant |
| Wallet.RejectPreservesValid | backend/server.py:673-677 | rejecting keeps the store invariant, since refunds are not negative |
| Wallet.ApproveDepositPreservesValid | backend/server.py:698-702 | approving a deposit keeps the store invariant, since credits are not negative |
| Server.NextPreservesValid | backend/server.py:243-710 | every handler keeps the store invariant |
| Server.Run | backend/server.py:567-581 | after any run of calls, no balance or deposit total is negative and every tap count is within 0..500 |
| Server.NextProgresses | backend/server.py:243-540 | one call never adds or removes users, lowers a VIP level or lowers total earnings |
| Server.RunProgresses | backend/server.py:243-540 | over any run of calls, VIP levels and total earnings only grow |
| Server.EarningCallKeepsGap | backend/server.py:355-367 | upgrade, listing, accept, mining and spin calls change balance and total earnings by the same amount |
| Server.EarningRunKeepsGap | backend/server.py:340-540 | over a run without deposits, withdrawals or admin actions, what each balance gains is exactly what its total earnings gain |
| Server.OnlyAdminsResolve | backend/server.py:646-710 | approvals and rejections succeed only for administrators; a signed-in non-administrator is refused with admin-required and the store is untouched, and an administrator resolving an existing transaction is served, except an approval of a withdrawal already completed at that instant |
| Server.DepositApproveUpgrade | backend/server.py:543-710 | a 1,000 USDT deposit request, its approval and an upgrade take a level-0 user to VIP 1 with the deposit in the balance |

## Left out

- Authentication is not modelled: password hashing, JWT issue and check, registration and login (backend/server.py:39-66, 152-224). These are library calls. The caller is a user id.
- QR image generation and base64 encoding (backend/server.py:68-76) produce opaque bytes. Candidates carry no QR payload.
- MongoDB I/O, CORS, logging and app wiring are not modelled. The collections are fields of the store.
- Handlers are single atomic steps. The read-then-write races between concurrent async requests are out of scope.
- Float arithmetic is replaced by integer cents. The price variation and its rounding are an argument bounded to [0.9, 1.2] times the base price, give or take half a cent.
- The admin endpoints for users, stats, notifications and VIP level edits have no rules to model (backend/server.py:606-625, 712-760). Nor do the transaction history and the pending-withdrawal listing (597-603, 627-642). The seeded VIP table (232-238) is kept as `DefaultLevels`, but the listing endpoint itself is left out.
- `reject_order` (backend/server.py:398-401) always succeeds and changes nothing. Its 60-second wait exists only in the client.
- User fields the ledger never reads are dropped: login, wallet address, creation and login times.
- Creation and completion times of orders, and creation times of transactions, are stored as the handlers write them, but no rule reads them; of the time fields, only the mining tap time, the spin date, the daily-reset date and a transaction's completion time (which decides whether a repeat withdrawal approval changes anything) are read by a rule.
- Orders.ListOrders: the contract states bounds, the cashback of every order and the allowance. The exact list is stated by `Orders.Generate`.
- The React client is not modelled.
- Records.Valid: sortedness of the VIP table by level and non-negative commissions are assumptions about the table, not facts the server enforces. The seeded table satisfies them, but `update_vip_level` (backend/server.py:614-625) writes whatever an administrator sends.
- Wallet.ApproveWithdrawal: instants are whole seconds, while the server stamps `completed_at` with microseconds. In the model a repeat approval in the same second is answered as not found; with the server's finer clock such a repeat would almost always modify the document and succeed.
- Vip.UpgradeVip: the query's ascending sort by level is modelled as the precondition that the table is sorted, not as a sort.
