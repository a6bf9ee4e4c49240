# disk-babu backend core in Dafny

A model of the core of the disk-babu backend, an Express and Prisma service. Creators upload
media files, earn a fixed amount per view and withdraw their balance.

The model covers:

- **Media files and daily view analytics**: the `File` table and the `FileAnalytics` ledger, which holds one row
  per (file, user, UTC day). A view upserts that row and bumps the file's lifetime counter. The queries
  give daily totals, a per-day breakdown of a month, monthly totals, and upload counts by day and by month.
- **Wallets and withdrawals**: one wallet per user with five balance buckets (available, pending,
  approved, paid, cancelled). A withdrawal request checks billing details and the minimum balance,
  moves the whole available balance to pending, and records a wallet transaction.
- **Wallet transactions**: creation, status and detail edits, and the per-user listing newest first.
- **Users**: creation (with trimming, hashing and the wallet created beside the user), lookups, updates,
  billing details and the field-by-field profile edit.
- **Registration one-time passwords**: code generation, create-or-replace per e-mail, and
  verification that consumes the request.
- **Access gates**: bearer-token extraction and the `isValidToken` / `isAtLeastUser` /
  `isAtLeastAdmin` ladder.
- **Products and categories**: product creation, paged and category-filtered listing, adding and removing
  a category, the paged sweep that deletes a category from every product, the cascade delete, and
  the catalog joins (customizations, parts, variants, category maps, navbar groups).
- **Small pure helpers**:
  - query-parameter parsing (`parseInt` with radix 10 and with no radix) and page defaults;
  - "MM-YYYY" month names and the monthly storage buckets;
  - storage keys and file-name sanitising;
  - S3 key and extension handling, upload filters;
  - the e-mail template substitution;
  - the feedback-type converter.

Each stateful provider is a class whose fields are the tables it updates: `Wallets.WalletTable`,
`WalletTransactions.TransactionTable`, `Users.UserTable`, `Otp.OtpTable`, `Products.ProductTable`,
`MediaStore.Store` and the request/response `Auth.Exchange`. Its methods are proved against pure
specification functions, and lemmas prove the properties of those functions.

Conventions:
- **Money** is in integer thousandths of the currency unit. One view is worth `RATE_PER_VIEW = 2` (0.002)
  and the withdrawal minimum is `MIN_WITHDRAWAL = 10_000` (10).
- **Instants** are milliseconds since the epoch. A UTC day key is `DayStart(ms)`, the largest multiple of
  86 400 000 not above `ms`.
- **Outside inputs are parameters**: the clock, `Math.random`, bcrypt, JWT verification, the slug library,
  S3 presigning, time-zone month bounds and the database's generated ids.

The model follows the code, which:
- credits no referrals;
- credits no wallet on a view;
- lets wallet buckets go negative;
- gives the monthly breakdown no zero-filled days;
- stores the OTP expiry but never checks it.

## Model

| member | source | states |
|---|---|---|
| DayBuckets.DayStart | src/providers/file-analytics.provider.ts:9 | the day key is a multiple of a day and the instant lies in [key, key + one day) |
| DayBuckets.DayStartUnique | src/providers/file-analytics.provider.ts:43 | the start of the containing day is the only day multiple within a day before the instant |
| DayBuckets.SameDaySameKey | src/providers/file-analytics.provider.ts:55 | every instant of one UTC day normalises to the same key |
| DayBuckets.DayStartIdempotent | src/providers/file-analytics.provider.ts:43 | normalising a key that is already a day start changes nothing |
| DayBuckets.DifferentDaysDifferentKeys | src/providers/file-analytics.provider.ts:9 | instants on different UTC days get different (increasing) keys |
| FileAnalytics.Lookup | src/providers/file-analytics.provider.ts:44-48 | the row found carries the compound key; no row means no row has that key |
| FileAnalytics.RecordView | src/providers/file-analytics.provider.ts:11-26 | the upsert adds exactly one row when the key had none, and otherwise keeps the number of rows |
| FileAnalytics.RecordViewLookup | src/providers/file-analytics.provider.ts:11-26 | after a view the key's row has views 1 and earnings RATE when it was new, otherwise one more view and RATE more earnings |
| FileAnalytics.RecordViewOthers | src/providers/file-analytics.provider.ts:11-26 | a view changes no row under another key |
| FileAnalytics.RecordViewKeys | src/providers/file-analytics.provider.ts:11-26 | the upsert adds a row only when the key was missing, and the keys become the old keys plus the viewed key |
| FileAnalytics.RecordViewUnique | src/providers/file-analytics.provider.ts:13 | the upsert keeps the ledger at one row per compound key |
| FileAnalytics.RecordViewsCount | src/providers/file-analytics.provider.ts:16-24 | N views on a fresh key give views N and earnings N times RATE (no double counting) |
| FileAnalytics.RecordViewSums | src/providers/file-analytics.provider.ts:57-68 | every aggregate grows by exactly one view and one RATE when it selects the viewed key, and is unchanged otherwise |
| FileAnalytics.SumOfOneKey | src/providers/file-analytics.provider.ts:57-68 | with unique keys, the sum over one key is that key's row, or 0 |
| FileAnalytics.SumViews | src/providers/file-analytics.provider.ts:57-60 | `_sum.views` is 0 exactly when every selected row has 0 views |
| FileAnalytics.SumEarnings | src/providers/file-analytics.provider.ts:57-61 | `_sum.earnings` is 0 exactly when every selected row has 0 earnings |
| FileAnalytics.SumNone | src/providers/file-analytics.provider.ts:73-74 | an aggregate that selects no row is 0, as the fallback to 0 gives |
| FileAnalytics.AnalyticsByDateAndFile | src/providers/file-analytics.provider.ts:36-49 | the row under the key of the UTC day of the date, or none when no row has that key |
| FileAnalytics.ViewFoundSameDay | src/providers/file-analytics.provider.ts:8-49 | a view recorded at one instant is found by a lookup at any later instant of the same UTC day |
| FileAnalytics.SameKeyLookup | src/providers/file-analytics.provider.ts:43-48 | lookups at instants of the same day read the same row |
| FileAnalytics.UserDailyTotals | src/providers/file-analytics.provider.ts:51-77 | the user's summed views and earnings on the UTC day, and the count of the user's uploads that day |
| FileAnalytics.DailyTotalsAfterView | src/providers/file-analytics.provider.ts:51-77 | a view on the user's key today raises today's views by 1 and earnings by RATE, and the upload count does not change |
| FileAnalytics.DailyTotalsEmptyDay | src/providers/file-analytics.provider.ts:72-76 | a day without rows reports zero views and zero earnings rather than failing |
| FileAnalytics.UploadGroups | src/providers/file-analytics.provider.ts:100-112 | each group counts the user's uploads of its date, lies in the month, and every upload date of the month has a group |
| FileAnalytics.FindGroup | src/providers/file-analytics.provider.ts:127-129 | the group found has the day, and none means no group has it |
| FileAnalytics.MonthDates | src/providers/file-analytics.provider.ts:86-99 | the distinct dates of the user's rows in [start, end), each backed by a row, and every such row's date listed |
| FileAnalytics.MonthlyBreakdown | src/providers/file-analytics.provider.ts:79-136 | one entry per distinct row date, with that day's summed views and earnings and its matched upload count |
| FileAnalytics.MonthlyBreakdownDistinctDays | src/providers/file-analytics.provider.ts:86-99 | entries have distinct dates, all inside the month |
| FileAnalytics.MonthlyBreakdownCoversRows | src/providers/file-analytics.provider.ts:86-99 | every day with a row of the user in the month has an entry |
| FileAnalytics.MonthlyBreakdownNoEmptyDays | src/providers/file-analytics.provider.ts:115-135 | a day without rows has no entry (no zero fill) |
| FileAnalytics.UploadDayHasGroup | src/providers/file-analytics.provider.ts:100-112 | a day of the month with uploads has an upload group |
| FileAnalytics.MonthlyBreakdownUploads | src/providers/file-analytics.provider.ts:126-133 | each entry's uploads equal the user's uploads on that day |
| FileAnalytics.MonthlyBreakdownUploadsAll | src/providers/file-analytics.provider.ts:126-133 | the same for every entry at once |
| FileAnalytics.MonthlyTotals | src/providers/file-analytics.provider.ts:139-162 | the user's views and earnings summed over the rows within the optional bounds |
| FileAnalytics.RecordViewKeepsRate | src/providers/file-analytics.provider.ts:6 | on a ledger built by views, every row's earnings stay RATE times its views |
| FileAnalytics.SumsProportional | src/providers/file-analytics.provider.ts:6 | on such a ledger, every aggregate's earnings are RATE times its views |
| FileRecords.FindFile | src/providers/file-analytics.provider.ts:27-29 | the file found has the id, and none means no file has it |
| FileRecords.FilesByUser | src/providers/file.provider.ts:35-41 | exactly the files whose original owner is the user |
| FileRecords.GroupByCreatedAt | src/providers/file.provider.ts:61-73 | the groups' instants are distinct, every file's instant has a group, and each group counts exactly the files created at its instant (so never zero) |
| FileRecords.LastCountPerDayMeaning | src/providers/file.provider.ts:75-79 | a day's value in the loop's map is the count of the last group of that day |
| FileRecords.LastCountPerDayKeys | src/providers/file.provider.ts:75-79 | the map's keys are exactly the days of the groups |
| FileRecords.FillByDay | src/providers/file.provider.ts:75-79 | the loop's map is `LastCountPerDay` of the groups: each day holds the count of its last group |
| FileRecords.UploadsByDate | src/providers/file.provider.ts:56-82 | the loop builds, for each day, the count of the last creation-instant group of that day |
| FileRecords.AddOne | src/providers/file.provider.ts:78 | one more upload on one day, every other day unchanged |
| FileRecords.UploadsPerDayCounts | src/providers/file.provider.ts:56-82 | each day of the per-day map counts exactly the files created that day, and days without files are absent |
| FileRecords.CountUploadsByDay | src/providers/file.provider.ts:56-82 | the loop builds the per-day count of the user's files created in [start, end) |
| FileRecords.UploadCountAdditive | src/providers/file.provider.ts:85-110 | counting over [a, c) is counting over [a, b) plus [b, c) |
| FileRecords.DailyFileCount | src/providers/file.provider.ts:43-54 | never more than the user's files, and 0 exactly when none of the user's files has that upload day |
| FileRecords.UploadCountInRange | src/providers/file.provider.ts:85-110 | never more than the user's files, and 0 exactly when none of the user's files was created in [start, end) |
| FileRecords.UploadsByDateOverwrites | src/providers/file.provider.ts:75-79 | two uploads at different instants of one day are reported as 1 while the intended count is 2 |
| FileRecords.LastGroupWins | src/providers/file.provider.ts:78 | the map keeps the count of the last group of the day |
| MediaStore.BumpTotalViews | src/providers/file-analytics.provider.ts:27-30 | the file with the id gains one total view, every other file and every id is unchanged |
| MediaStore.ViewKeepsTablesValid | src/providers/file-analytics.provider.ts:8-34 | a view of a stored file keeps file ids unique, ledger keys unique and every row's file present |
| MediaStore.Store.constructor | src/providers/file-analytics.provider.ts:3 | no files and an empty ledger |
| MediaStore.Store.UpsertDailyAnalytics | src/providers/file-analytics.provider.ts:8-34 | a missing file gives the update error and no change; otherwise the ledger records the view under today's key, the counter rises, and the row is returned |
| MediaStore.Store.CreateVideo | src/providers/file.provider.ts:6-33 | the file is appended under a fresh id with the request's fields and a zero row is added under the owner's key for today |
| MediaStore.FirstViewAfterCreate | src/providers/file.provider.ts:14-30 | the first view on the day of creation turns the zero row into views 1 and earnings RATE |
| MediaStore.LookupAppended | src/providers/file.provider.ts:23-29 | a row appended under a fresh key is what the lookup of that key returns |
| FileAnalyticsService.CreateOrUpdateDailyAnalytics | src/services/file-analytics.service.ts:6-11 | exactly the provider's upsert, the same error and the same new tables |
| FileAnalyticsService.UserAnalyticsByDate | src/services/file-analytics.service.ts:14-16 | the provider's daily totals for the day |
| FileAnalyticsService.UserAnalyticsByMonth | src/services/file-analytics.service.ts:19-21 | one entry per distinct ledger date of the user in the month, in first-seen order, carrying that day's summed views and earnings and the user's uploads that day |
| FileAnalyticsService.UserMonthlyAnalyticsTotals | src/services/file-analytics.service.ts:23-38 | as written: views and earnings from the date on without an end, with the month's upload count |
| FileAnalyticsService.UserMonthlyAnalyticsTotalsInMonth | src/services/file-analytics.service.ts:23-38 | the intended summary: views and earnings within the month's bounds, with the month's upload count |
| FileAnalyticsService.InMonthIgnoresOtherMonths | src/services/file-analytics.service.ts:28 | a row of another month does not change the intended summary |
| FileAnalyticsService.AsWrittenCountsLaterMonths | src/services/file-analytics.service.ts:28 | as written, a row of a later month adds its views to the summary |
| FileService.Skip | src/services/file.service.ts:15 | page 1 skips nothing, and pages from 1 with a non-negative size skip a non-negative count |
| FileService.SkipNextPage | src/services/file.service.ts:15 | the next page starts exactly one page size further |
| FilesController.NewOriginalFile | src/controllers/files.controller.ts:16-30 | the body's metadata, the caller as original and current owner, zero views, and an upload date that is the day start of now |
| FilesController.NewFileCountsToday | src/controllers/files.controller.ts:16-30 | once stored, the new file counts in its owner's uploads for today |
| FilesController.PageOrDefault | src/controllers/files.controller.ts:47-48 | an absent value, one that the radix-less `parseInt` reads as NaN or 0 gives the default; any other value read (in base 16 after "0x") is kept |
| FilesController.PageOrDefaultDecimal | src/controllers/files.controller.ts:47-48 | on a value without a "0x" prefix, the listing agrees with the radix-10 helper of basic.helpers.ts |
| FilesController.ListingQuery | src/controllers/files.controller.ts:47-48 | neither page nor page size is ever 0 |
| FilesController.ListingHex | src/controllers/files.controller.ts:47-48 | "0x1A" and "0X10" give page 26 and page size 16 |
| FilesController.ListingDefaults | src/controllers/files.controller.ts:47-48 | missing, non-numeric and "0" parameters give page 1 and size 10 |
| FilesController.ZeroTextNoRadix | src/controllers/files.controller.ts:47-48 | "0" reads as 0 without a radix |
| FilesController.CreateOriginalFileResponse | src/controllers/files.controller.ts:32-38 | success returns the file and a failure returns 400 with its message |
| Wallets.Adjust | src/providers/wallet.provider.ts:36-109 | the named bucket changes by the delta and every other bucket and the owner stay |
| Wallets.ReportedTotal | src/controllers/wallet.controller.ts:28 | the reported total is all holdings except the cancelled bucket |
| Wallets.MoveToPending | src/providers/wallet.provider.ts:21-34 | available falls and pending rises by the amount and the rest is untouched |
| Wallets.MoveConserves | src/providers/wallet.provider.ts:21-34 | the move keeps total holdings, available plus pending, and the reported total |
| Wallets.AdjustHoldings | src/providers/wallet.provider.ts:36-109 | a bucket update changes holdings by exactly its signed amount |
| Wallets.IncrementDecrementCancel | src/providers/wallet.provider.ts:36-109 | an increment followed by an equal decrement restores the wallet |
| Wallets.BalancesCanGoNegative | src/providers/wallet.provider.ts:21-34 | no guard: moving from an empty wallet or decrementing drives a bucket below zero |
| Wallets.WalletTable.constructor | src/providers/wallet.provider.ts:1 | the wallet table starts empty, with at most one wallet per user |
| Wallets.WalletTable.GetWalletByUserId | src/providers/wallet.provider.ts:15-19 | found exactly when the user has a wallet, and then it is that user's |
| Wallets.WalletTable.CreateWallet | src/providers/wallet.provider.ts:5-13 | a second wallet for a user fails and changes nothing; otherwise a zeroed wallet is added under the user |
| Wallets.WalletTable.MoveAvailableToPending | src/providers/wallet.provider.ts:21-34 | a missing wallet fails with no change; otherwise the user's row becomes the move and nothing else changes |
| Wallets.WalletTable.UpdateBalance | src/providers/wallet.provider.ts:36-109 | a missing wallet fails with no change; otherwise only the named bucket of the user's row moves by the signed amount |
| Wallets.GetWalletResponse | src/controllers/wallet.controller.ts:20-35 | 404 exactly when there is no wallet, otherwise the wallet with its total |
| Wallets.CreateWalletResponse | src/controllers/wallet.controller.ts:6-18 | the created wallet, or 400 with the error message |
| Withdrawal.WithdrawalAmount | src/services/wallet-transaction.service.ts:13-20 | billing details are checked first, then the available balance (0 without a wallet) against the minimum; it passes exactly when both hold, with the whole available balance |
| Withdrawal.WithdrawalNeedsWallet | src/services/wallet-transaction.service.ts:13-20 | a passing request has billing details and a wallet holding at least the minimum |
| Withdrawal.WithdrawalBoundary | src/services/wallet-transaction.service.ts:13-20 | missing billing wins over a rich wallet; exactly the minimum passes and one thousandth less does not |
| Withdrawal.CreateWalletTransaction | src/services/wallet-transaction.service.ts:6-29 | a refusal changes nothing; otherwise available moves to pending (left at 0) and a PENDING record of the amount is appended, or, when the insert fails, the move stays without a record |
| Withdrawal.WithdrawalConserves | src/services/wallet-transaction.service.ts:17-21 | a successful withdrawal keeps holdings and the reported total, and the whole amount reaches pending |
| WalletTransactions.GetById | src/providers/wallet-transaction.provider.ts:28-32 | the record found has the id, and none means no record has it |
| WalletTransactions.InsertByDate | src/providers/wallet-transaction.provider.ts:24 | inserting into a newest-first list keeps it newest first and adds exactly the one record |
| WalletTransactions.SortNewestFirst | src/providers/wallet-transaction.provider.ts:24 | the result is newest first and a permutation of the input |
| WalletTransactions.OfUser | src/providers/wallet-transaction.provider.ts:23 | only the user's records, each as often as in the table |
| WalletTransactions.ByUser | src/providers/wallet-transaction.provider.ts:21-26 | the user's records, each as often as stored, newest first |
| WalletTransactions.ByUserListsEveryRecord | src/providers/wallet-transaction.provider.ts:21-26 | every record of the user appears in the listing |
| WalletTransactions.TransactionTable.constructor | src/providers/wallet-transaction.provider.ts:2 | the transaction table starts empty with unique ids |
| WalletTransactions.TransactionTable.Create | src/providers/wallet-transaction.provider.ts:5-19 | a PENDING record with the given fields under a fresh id is appended |
| WalletTransactions.TransactionTable.UpdateStatus | src/providers/wallet-transaction.provider.ts:34-42 | a missing id fails with no change; otherwise only that record's status changes, and the record under the id keeps its id, user, amount, billing details, creation time, note and reference |
| WalletTransactions.TransactionTable.UpdateDetails | src/providers/wallet-transaction.provider.ts:45-56 | a missing id fails with no change; otherwise only the given note and reference change, and the record under the id keeps its id, user, amount, billing details, creation time and status |
| WalletTransactions.IndexOfTxSameIds | src/providers/wallet-transaction.provider.ts:34-56 | a table whose ids stay in place finds every id where it was, so a record stays reachable by its id after an edit |
| JsText.TrimOpt | src/providers/users.provider.ts:8-12 | an absent field stays absent and a present one is trimmed |
| Users.GetById | src/providers/users.provider.ts:48-56 | the user found has the id, and none means no user has it |
| Users.GetByEmail | src/providers/users.provider.ts:38-46 | the user found has the e-mail, and none means no user has it |
| Users.NewUser | src/providers/users.provider.ts:7-26 | the trimmed e-mail and names, the hashed password, the date of birth, no billing details and the creation instant |
| Users.UpdatedAsWritten | src/providers/users.provider.ts:58-74 | as written: the six fields from the input with the image taken from the country, everything else kept |
| Users.UpdatedIntended | src/providers/users.provider.ts:58-74 | the intended update: the six fields from the input, image from image |
| Users.MergeAsWritten | src/services/users.service.ts:18-37 | as written: each field is replaced exactly when the input's value is truthy, but a truthy middle name stores the input's last name; id, email, password, role, billing details and creation time are kept |
| Users.MergeIntended | src/services/users.service.ts:18-38 | each field is replaced exactly when the input's value is truthy, middle name from middle name |
| Users.MergeOfEmptyInput | src/services/users.service.ts:20-37 | an input with no truthy field leaves the user unchanged under either merge |
| Users.MergeIntendedIdempotent | src/services/users.service.ts:20-37 | applying the same edit twice is applying it once |
| Users.MergeAsWrittenMiddleName | src/services/users.service.ts:35-37 | as written, a new middle name stores the input's last name |
| Users.UpdateAsWrittenImage | src/providers/users.provider.ts:69 | as written, an edit that only sets an image stores the country instead |
| Users.UserTable.constructor | src/providers/users.provider.ts:3 | the user table starts empty with unique ids and e-mails |
| Users.UserTable.CreateUser | src/providers/users.provider.ts:7-36 | a taken e-mail fails with no change; otherwise the new user is appended under a fresh id and a zeroed wallet is created for it |
| Users.UserTable.UpdateUser | src/providers/users.provider.ts:58-74 | a missing id fails with no change; otherwise the row becomes the as-written update |
| Users.UserTable.UpdateBillingDetails | src/providers/users.provider.ts:76-87 | a missing id fails with no change; otherwise only billing details change |
| Users.UserTable.EditUser | src/services/users.service.ts:18-42 | the as-written merge onto the passed user, persisted under its id by the update |
| Otp.DrawDigit | src/services/otpRequests.service.ts:7 | the digit of a draw in [0, 1) is floor(draw times 10), below 10 |
| Otp.GenerateOtp | src/services/otpRequests.service.ts:4-10 | one decimal digit per round, the code as long as the length (empty for a negative length), digit i from draw i |
| Otp.FindRegistration | src/providers/otpRequests.provider.ts:18-28 | the first registration request of the e-mail, or none when there is none |
| Otp.VerifyOutcome | src/services/otpRequests.service.ts:41-50 | no request gives the not-found error naming the e-mail; otherwise success exactly when the code matches, else "Invalid Otp" |
| Otp.ExpiryIgnored | src/services/otpRequests.service.ts:46-50 | the verdict does not depend on the stored expiry |
| Otp.OtpTable.constructor | src/providers/otpRequests.provider.ts:1 | the request table starts empty with unique ids |
| Otp.OtpTable.CreateRegistrationOtp | src/providers/otpRequests.provider.ts:4-16 | a registration request with the code and expiry under a fresh id is appended |
| Otp.OtpTable.UpdateOtpRequest | src/providers/otpRequests.provider.ts:30-43 | a missing id fails with no change; otherwise that record takes the given fields and keeps its id |
| Otp.OtpTable.DeleteOtpRequest | src/providers/otpRequests.provider.ts:45-51 | a missing id fails with no change; otherwise exactly that record is removed |
| Otp.OtpTable.CreateOtpRequestForUserRegistration | src/services/otpRequests.service.ts:12-33 | a six-digit code expiring ten minutes on replaces the e-mail's request in place or is appended, keeping one request per e-mail, and is what the lookup then finds |
| Otp.OtpTable.VerifyUserRegistrationOtp | src/services/otpRequests.service.ts:39-53 | the verdict of the lookup; a failure changes nothing and a success removes the e-mail's request, so the code cannot be reused |
| Otp.RegistrationAfterReplace | src/services/otpRequests.service.ts:17-22 | writing over the found request keeps it the one found and keeps one request per e-mail |
| Otp.RegistrationAfterAppend | src/services/otpRequests.service.ts:24-27 | appending for an e-mail without a request makes it the one found, one per e-mail |
| Otp.FindRegistrationAt | src/providers/otpRequests.provider.ts:20-25 | the first matching position is what `findFirst` returns |
| Otp.RemovalKeepsOnePerEmail | src/services/otpRequests.service.ts:52 | deleting the e-mail's request leaves it none and keeps one per e-mail |
| Auth.BearerToken | src/Middilewares/auth.middleware.ts:9-10 | a token exactly when the header has a non-empty second space-separated field, and then it is that field |
| Auth.BearerTokenExamples | src/Middilewares/auth.middleware.ts:9 | concrete headers only: "B t" carries "t"; no space, a double space or no header carries none (the all-inputs facts are `Auth.BearerToken`'s contract, which rests on `JsText.Split`) |
| Auth.CheckToken | src/Middilewares/auth.middleware.ts:8-25 | no token is 403 "Unauthorized", a refused token is 401 "Invalid token", otherwise the verified payload |
| Auth.UserGate | src/Middilewares/auth.middleware.ts:27-41 | the token's rejection, 401 for an unknown user, 403 for another role, and next exactly for ADMIN or USER |
| Auth.AdminGate | src/Middilewares/auth.middleware.ts:43-57 | the token's rejection, 401 for an unknown user, 403 for a non-admin, and next exactly for ADMIN |
| Auth.AdminGateWithinUserGate | src/Middilewares/auth.middleware.ts:27-57 | whatever passes the admin gate passes the user gate, and a USER passes only the user gate |
| Auth.TokenCheckedFirst | src/Middilewares/auth.middleware.ts:28-31 | without a token both gates answer 403 whatever the user table holds |
| Auth.Exchange.constructor | src/Middilewares/auth.middleware.ts:8 | a fresh exchange: no user attached, no response written, next not yet called |
| Auth.Exchange.IsValidToken | src/Middilewares/auth.middleware.ts:8-25 | true exactly when authenticated, with the payload attached; otherwise the error response is written; next is never called |
| Auth.Exchange.IsAtLeastUser | src/Middilewares/auth.middleware.ts:27-41 | calls next exactly once when the user gate passes, otherwise writes its response |
| Auth.Exchange.IsAtLeastAdmin | src/Middilewares/auth.middleware.ts:43-57 | calls next exactly once when the admin gate passes, otherwise writes its response |
| Products.NewProduct | src/providers/products.provider.ts:6-21 | code and image link trimmed, name and description as given, categories defaulting to empty |
| Products.NewProductTrimmed | src/providers/products.provider.ts:12-15 | a created product's code and link have no surrounding white space |
| Products.Matching | src/providers/products.provider.ts:56-62 | an absent or empty category id filters nothing, otherwise the products listing it |
| Products.Window | src/providers/products.provider.ts:52-55 | at most take elements, the consecutive ones from position skip |
| Products.GetAllProducts | src/providers/products.provider.ts:50-85 | the matching products, a page window of them when both page and size are given (read from the end for a negative size), and the total of all matches; an error exactly for a negative skip |
| Products.WindowFromEnd | src/providers/products.provider.ts:51-55 | a negative take: at most `take` elements ending `skip` before the end, in order |
| Products.NegativePageSizeReadsLast | src/providers/products.provider.ts:51-55 | page 0 with size `-n` lists the last `n` matching products with the full total |
| Products.PagingKeepsTotal | src/providers/products.provider.ts:69-82 | paging never changes the total and a page holds only products of the category |
| Products.RemoveId | src/providers/products.provider.ts:103 | the id is gone and every other id is kept |
| Products.RemoveAfterAdd | src/providers/products.provider.ts:87-114 | removing a category just added to a product without it restores its ids |
| Products.RemoveKeepsOthers | src/providers/products.provider.ts:103 | removal keeps the other ids in order |
| Products.Strip | src/services/products.service.ts:72-74 | the selected products lose the category and the others are unchanged |
| Products.StripShrinks | src/services/products.service.ts:72-74 | stripping a selected product that lists the category shrinks the category |
| Products.StripNeverGrows | src/services/products.service.ts:72-74 | stripping never adds a product to the category |
| Products.SweepPage | src/services/products.service.ts:70 | a page of at most 50 products of the category |
| Products.SweepFrom | src/services/products.service.ts:65-83 | as written: the page-by-page sweep neither adds nor drops a product |
| Products.SweepFetch | src/services/products.service.ts:70 | the sweep's fetch returns that page and the category's total |
| Products.SweepRound | src/services/products.service.ts:72-80 | a short page ends the sweep; a full page strips its products and shrinks the category |
| Products.SweepFromStart | src/services/products.service.ts:65-83 | the intended sweep leaves no product in the category |
| Products.StripAllMatching | src/services/products.service.ts:72-78 | when the first page is short, one round removes the category everywhere |
| Products.SweepMissesLastProduct | src/services/products.service.ts:65-83 | with 51 products in the category, the 51st keeps it after the sweep |
| Products.FirstRoundTakesFifty | src/services/products.service.ts:68-70 | the first round fetches exactly the first 50 |
| Products.AfterFirstRound | src/services/products.service.ts:72-80 | after the first round only the 51st product lists the category |
| Products.SecondRoundFindsNothing | src/services/products.service.ts:70-78 | with one product left, page 1 is empty and the sweep stops |
| Products.NoneInCategory | src/providers/products.provider.ts:56-62 | products none of which lists the id leave the category empty |
| Products.StepsRun | src/services/products.service.ts:29-51 | the steps run are a prefix, all but the last succeed, and a cut-short prefix ends at a failure |
| Products.StepsRunOfDeleteSteps | src/services/products.service.ts:29-51 | the four prefixes of the deletions, chosen by the first failure |
| Products.DeleteProductAndRelatedData | src/services/products.service.ts:29-51 | runs the deletions in order, stopping at the first failure; succeeds exactly when all succeed, otherwise reports the failed step's message |
| Products.ProductTable.constructor | src/providers/products.provider.ts:1 | the product table starts empty with unique ids and codes |
| Products.ProductTable.CreateProduct | src/providers/products.provider.ts:6-21 | a trimmed code that is already stored fails with Prisma's unique-constraint error and no change; otherwise the normalised row is appended under a fresh id; ids and codes stay unique |
| Products.AppendFreeCode | src/providers/products.provider.ts:40-47 | a row whose code is not stored keeps the unique code column unique |
| Products.AppendFreshId | src/providers/products.provider.ts:6-21 | a row under an id longer than every stored one is new and keeps ids unique |
| Products.PaddedCodePassesCheck | src/controllers/products.controller.ts:320-322 | a stored code with a space before it misses the untrimmed duplicate check, yet its trimmed form is taken, so the create then fails |
| Products.ProductTable.AddCategoryToProduct | src/providers/products.provider.ts:87-100 | the passed product is given the id pushed on; a missing row fails with no change, otherwise the row takes those categories |
| Products.ProductTable.RemoveCategoryFromProduct | src/providers/products.provider.ts:102-114 | a missing row fails with no change; otherwise the row takes the passed product's ids without the category |
| Products.ProductTable.DeleteCategoryFromAllProducts | src/services/products.service.ts:65-83 | the table becomes the as-written sweep from page 0 |
| Products.ProductTable.StripPage | src/services/products.service.ts:72-74 | the fetched products lose the category and nothing else changes |
| Products.StripKeepsIds | src/services/products.service.ts:72-74 | stripping keeps every id in place and ids unique |
| Catalog.OptionsOf | src/helpers/products.helpers.ts:8 | exactly the options of the customization, from the input |
| Catalog.CustomizationsOf | src/helpers/products.helpers.ts:20 | exactly the customization items of the part |
| Catalog.PartsOf | src/helpers/products.helpers.ts:32 | exactly the part items of the variant |
| Catalog.OptionsOfExact | src/helpers/products.helpers.ts:8 | a matching option is kept exactly as often as given, others never |
| Catalog.CustomizationDataItems | src/helpers/products.helpers.ts:4-14 | one item per customization, in order, carrying exactly its options |
| Catalog.PartDataItems | src/helpers/products.helpers.ts:16-26 | one item per part, in order, carrying exactly its customization items |
| Catalog.VariantDataItems | src/helpers/products.helpers.ts:28-38 | one item per variant, in order, carrying exactly its part items |
| Catalog.OrphanOptionDropped | src/helpers/products.helpers.ts:4-14 | an option of no given customization appears under none |
| Catalog.CategoryMap | src/helpers/products.helpers.ts:45 | every category id is a key mapping to a given category with that id |
| Catalog.CategoryMapLast | src/helpers/products.helpers.ts:45 | with repeated ids the later category wins |
| Catalog.ResolveCategories | src/helpers/products.helpers.ts:49 | the result is the known ids, in order and with repeats, each replaced by its category; unknown ids are dropped |
| Catalog.ResolveAllKnown | src/helpers/products.helpers.ts:49 | with every id known nothing is dropped and the order is kept |
| Catalog.MapCategoriesToProducts | src/helpers/products.helpers.ts:41-51 | every product in order, with its resolved categories |
| Catalog.ResolvedCategoriesAreListed | src/helpers/products.helpers.ts:41-51 | a resolved category is a given one whose id the product lists |
| Catalog.Occurrences | src/helpers/categories.helpers.ts:8 | zero exactly when the id does not occur |
| Catalog.ProductsUnder | src/helpers/categories.helpers.ts:7-14 | only products that list the category |
| Catalog.ProductsUnderSnoc | src/helpers/categories.helpers.ts:7-14 | one more product adds it once per occurrence of the id |
| Catalog.ProductsUnderMembers | src/helpers/categories.helpers.ts:7-14 | a product is listed under a category exactly when given and listing it |
| Catalog.RepeatedIdRepeatsProduct | src/helpers/categories.helpers.ts:8-12 | a product repeating an id is listed that many times |
| Catalog.AddToLists | src/helpers/categories.helpers.ts:8-13 | every category's list gains the product once per occurrence of its id |
| Catalog.FillCategoryTable | src/helpers/categories.helpers.ts:5-14 | the dictionary lists, under every id, exactly the products carrying it, once per occurrence, in product order |
| Catalog.MapProductsToCategories | src/helpers/categories.helpers.ts:3-22 | one entry per category, in order, listing the products under it (empty when none) |
| Catalog.Summaries | src/helpers/categories.helpers.ts:28-31 | each product as its id and name, in order |
| Catalog.InCategory | src/helpers/categories.helpers.ts:27 | exactly the products listing the id |
| Catalog.GroupProductsForNavbar | src/helpers/categories.helpers.ts:24-39 | one group per category, in order, summarising the products listing it |
| Catalog.NavbarListsOncePerProduct | src/helpers/categories.helpers.ts:26-27 | a navbar group lists a product as often as given, repeated ids notwithstanding |
| Catalog.NavbarAgreesWithDictionary | src/helpers/categories.helpers.ts:3-39 | both helpers agree on which products belong to a category |
| BasicHelpers.DigitPrefix | src/helpers/basic.helpers.ts:3 | the longest run of leading digits |
| BasicHelpers.ParseInt | src/helpers/basic.helpers.ts:3-4 | a number exactly when digits follow the white space and optional sign |
| BasicHelpers.ParseTrimmed | src/helpers/basic.helpers.ts:3 | a number exactly when digits follow the optional sign |
| BasicHelpers.GetPageAndPageSizeParams | src/helpers/basic.helpers.ts:7-14 | each field parsed from its own query value |
| BasicHelpers.ParseTrimmedDigits | src/helpers/basic.helpers.ts:3 | leading digits read as their value |
| BasicHelpers.ParseTrimmedNegative | src/helpers/basic.helpers.ts:3 | a minus sign negates the value |
| BasicHelpers.ParseIntOfDecimal | src/helpers/basic.helpers.ts:3 | reading back a printed integer gives it, whatever non-digit text follows |
| BasicHelpers.ParseIntSkipsWhiteSpace | src/helpers/basic.helpers.ts:3 | leading white space changes nothing |
| BasicHelpers.ParseNumberOrUndefined | src/helpers/basic.helpers.ts:2-5 | an absent parameter is undefined, since "undefined" has no digits; a present one is read as `parseInt` reads it |
| BasicHelpers.ParseIntExamples | src/helpers/basic.helpers.ts:2-5 | a digit-free value is undefined; " 12abc" is 12, "-3" is -3, "0x1A" is 0 |
| BasicHelpers.NoLeadingDigit | src/helpers/basic.helpers.ts:4 | text opening with a letter is undefined, with or without a radix |
| BasicHelpers.ParseIntNoRadix | src/controllers/files.controller.ts:47-48 | `parseInt(s)` with no radix: text without a "0x" prefix is read exactly as the radix-10 `ParseInt` reads it; after "0x" or "0X" there is a number exactly when hexadecimal digits follow |
| BasicHelpers.ParseTrimmedNoRadix | src/controllers/files.controller.ts:47-48 | the same on text already free of leading white space, against `ParseTrimmed` |
| BasicHelpers.HexPrefix | src/controllers/files.controller.ts:47-48 | the longest run of leading hexadecimal digits |
| BasicHelpers.ParseIntNoRadixHex | src/controllers/files.controller.ts:47-48 | "0x" or "0X" and hexadecimal digits read as their base-16 value |
| BasicHelpers.ParseIntNoRadixNegativeHex | src/controllers/files.controller.ts:47-48 | a minus sign before "0x" negates the base-16 value |
| BasicHelpers.ParseIntNoRadixOfDecimal | src/controllers/files.controller.ts:47-48 | a printed integer reads back as itself without a radix too, unless a lone "0" is followed by "x" or "X" |
| BasicHelpers.DecimalNotHex | src/controllers/files.controller.ts:47-48 | printed digits never open with "0x" unless the number is 0 and an "x" follows |
| BasicHelpers.UnsignedOfDecimal | src/controllers/files.controller.ts:47-48 | white space and sign removed from a printed integer leave its digits |
| BasicHelpers.NoRadixExamples | src/controllers/files.controller.ts:47-48 | "0x1A" is 26, "0X10" is 16, "-0x1A" is -26 and "0x" is NaN |
| BasicUtils.PadStart2 | src/utils/basic-utils.ts:3 | zeros pad a short text to two characters and longer text is kept |
| BasicUtils.MonthText | src/utils/basic-utils.ts:3 | two digits |
| BasicUtils.GetMonthAndYearByDate | src/utils/basic-utils.ts:1-6 | two month digits, a dash, then the year |
| BasicUtils.GetCurrentMonthAndYear | src/utils/basic-utils.ts:8-13 | the name of today's month |
| BasicUtils.MonthTextValue | src/utils/basic-utils.ts:3 | the two digits read as the 1-based month |
| BasicUtils.MonthAndYearRoundTrip | src/utils/basic-utils.ts:1-6 | the name reads back as the month and year |
| BasicUtils.DistinctMonthsDistinctNames | src/utils/basic-utils.ts:1-6 | different months get different names |
| StorageService.UploadBucketName | src/services/storage.service.ts:16 | the current month's bucket name |
| StorageService.DownloadBucketName | src/services/storage.service.ts:40 | a "disk-babu-" bucket |
| StorageService.UploadAndDownloadAgree | src/services/storage.service.ts:16-40 | upload and download pick the same bucket for a month, different months different buckets |
| StorageService.SanitizeFileName | src/services/storage.service.ts:23 | the result has no white space |
| StorageService.SanitizeKeepsPlainName | src/services/storage.service.ts:23 | a name without white space is kept |
| StorageService.SanitizeLeadingRun | src/services/storage.service.ts:23 | a leading white-space run becomes one "_" |
| StorageService.SanitizeCollapsesRun | src/services/storage.service.ts:23 | any white-space run becomes one "_" |
| StorageService.StorageKey | src/services/storage.service.ts:25 | the key opens with the owner and "/", the owner is the first "/"-separated part whenever it holds no "/", the instant's digits sit between "/" and "#", and the name part after "#" has no white space |
| StorageService.GetPresignedUploadUrl | src/services/storage.service.ts:12-33 | the key of the upload and a URL signed for it in this month's bucket |
| StorageService.GetPresignedDownloadUrl | src/services/storage.service.ts:36-46 | a URL signed for the key in the bucket of the date's month |
| StorageService.UploadThenDownload | src/services/storage.service.ts:12-46 | the key signed for upload is signed for download in the same bucket that month |
| PathNames.LastDot | src/helpers/s3.helper.ts:15 | the position of the last dot, none exactly when there is no dot |
| PathNames.Extname | src/helpers/s3.helper.ts:15 | empty or a dot-led suffix with no further dot; empty exactly for no dot, a leading dot only, or ".." |
| PathNames.Stem | src/helpers/s3.helper.ts:13 | stem followed by extension is the name |
| PathNames.DottedNameExample | src/helpers/s3.helper.ts:13-15 | only the last dot starts the extension |
| PathNames.UpperCaseExample | src/helpers/s3.helper.ts:15 | the extension keeps its letter case |
| PathNames.DotFileExample | src/helpers/s3.helper.ts:15 | a dot file has no extension |
| PathNames.DotsExample | src/helpers/s3.helper.ts:15 | ".." has no extension, "..." and "a." have "." |
| S3Helper.MimeTypeToS3Type | src/helpers/s3.helper.ts:4-7 | the subtype, containing no "/" |
| S3Helper.S3TypeIsSubtype | src/helpers/s3.helper.ts:6 | "type/subtype" gives the subtype and a type without "/" gives none |
| S3Helper.PngExample | src/helpers/s3.helper.ts:6 | "image/png" gives "png" |
| S3Helper.KeySuffix | src/helpers/s3.helper.ts:15-20 | the original extension when there is one, otherwise "." and the S3 type |
| S3Helper.SluggifiedKeyWithExtension | src/helpers/s3.helper.ts:9-23 | instant, "_", slug of the stem, then the suffix |
| S3Helper.KeyKeepsExtension | src/helpers/s3.helper.ts:14-20 | the key ends with the original extension exactly |
| Templates.Placeholder | src/services/emailTemplates.service.ts:33 | "{{", the key, "}}" |
| Templates.ReplaceAbsent | src/services/emailTemplates.service.ts:34 | text without the placeholder is unchanged |
| Templates.ReplaceAfter | src/services/emailTemplates.service.ts:33-34 | the first occurrence is replaced and the scan goes on behind it |
| Templates.ReplacesEveryOccurrence | src/services/emailTemplates.service.ts:33-34 | the global pattern replaces every occurrence |
| Templates.ReplaceWhole | src/services/emailTemplates.service.ts:34 | a placeholder alone becomes the value |
| Templates.ReplaceTemplateVariables | src/services/emailTemplates.service.ts:30-36 | no entries leave the template unchanged |
| Templates.EntriesApplyInOrder | src/services/emailTemplates.service.ts:31-35 | the last entry works on what the others left |
| Templates.LaterEntrySubstitutesAgain | src/services/emailTemplates.service.ts:31-35 | a value holding a later placeholder is substituted again |
| Templates.OccurrenceOpensWithBraces | src/services/emailTemplates.service.ts:33 | an occurrence opens with two braces |
| Templates.NoPlaceholdersUnchanged | src/services/emailTemplates.service.ts:30-36 | a template without "{{" is returned unchanged |
| Templates.Stringify | src/services/emailTemplates.service.ts:40 | a string is itself, a non-negative number its digits |
| Templates.ToRecord | src/services/emailTemplates.service.ts:38-42 | the same keys in order, each value stringified |
| Templates.SendUserRegistrationOtpEmail | src/services/emailTemplates.service.ts:14-28 | a missing template and a send failure give their errors; success exactly with both present, subject and body rendered from the same record |
| Templates.SubjectAndBodyShareRecord | src/services/emailTemplates.service.ts:19-21 | identical subject and body templates render identically |
| FilesMiddleware.ImageFilter | src/Middilewares/files.middleware.ts:14-21 | accepted exactly for the three image types, otherwise the image error |
| FilesMiddleware.LowerAscii | src/Middilewares/files.middleware.ts:32 | same length, ASCII capitals lowered, everything else kept |
| FilesMiddleware.GltfFilter | src/Middilewares/files.middleware.ts:32-37 | accepted exactly when the lower-cased extension is ".gltf" or ".glb", otherwise the gltf error |
| FilesMiddleware.GltfFilterExamples | src/Middilewares/files.middleware.ts:32-34 | ".GLB" passes and a name without extension does not |
| FilesMiddleware.UploadOutcome | src/Middilewares/files.middleware.ts:46-55 | next exactly without an error, otherwise 400 with its message |
| FilesMiddleware.VerdictError | src/Middilewares/files.middleware.ts:19-21 | no error exactly for an accepted file |
| FilesMiddleware.ValidateImage | src/Middilewares/files.middleware.ts:59-71 | next exactly when there is no upload failure and either no "image" part or an accepted type; a multer failure gives 400 with its message; a refused type gives 400 with the image error |
| FilesMiddleware.ValidateGltf | src/Middilewares/files.middleware.ts:43-57 | next exactly when there is no upload failure and either no "file" part or an accepted extension; a multer failure gives 400 with its message; otherwise a refusal is 400 with the gltf error |
| EnumConverters.ToFeedbackQuestionType | src/helpers/enums.converters.ts:4-11 | a value exactly when the text is some type's name, and then that type |
| EnumConverters.NameRoundTrip | src/helpers/enums.converters.ts:4-11 | converting a type's name gives the type back |
| EnumConverters.CaseMatters | src/helpers/enums.converters.ts:6 | another letter case or empty text is not recognised |
| JsText.TrimStart | src/helpers/basic.helpers.ts:3 | a suffix after only white space, starting with non-white space |
| JsText.TrimStartSkips | src/helpers/basic.helpers.ts:3 | leading white space is exactly what is dropped |
| JsText.TrimEnd | src/providers/users.provider.ts:8 | a prefix before only white space, ending with non-white space |
| JsText.TrimIsCore | src/providers/users.provider.ts:8-12 | the trimmed text is a slice with only white space around it and none at its ends |
| JsText.TrimIdempotent | src/providers/products.provider.ts:12-15 | trimming twice is trimming once |
| JsText.Split | src/Middilewares/auth.middleware.ts:9 | at least one field and no separator in any field |
| JsText.SplitJoin | src/helpers/s3.helper.ts:6 | joining the fields back gives the text |
| JsText.SplitAtFirst | src/Middilewares/auth.middleware.ts:9 | the text before the first separator is the first field |
| JsText.NatToDecimal | src/utils/basic-utils.ts:3 | digits without a leading zero |
| JsText.DecimalRoundTrip | src/utils/basic-utils.ts:3 | printed digits read back as the number |
| Seqs.Filter | src/helpers/products.helpers.ts:8 | no longer than the input, only elements satisfying the test, and every element satisfying it kept |
| Seqs.FilterMultiplicity | src/helpers/products.helpers.ts:8 | each kept element as often as it occurs |
| Seqs.Distinct | src/providers/file-analytics.provider.ts:86-87 | each element once, none missing |

## Left out

- I/O and infrastructure are left out: the database, S3 (bucket upsert, CORS, presigning), e-mail sending, HTTP routing and logging. Their results are parameters, such as `presign`, `sendFailure` and the insert outcome.
- The clock, `Math.random`, bcrypt, JWT verification, the slug library, date printing and the database's generated ids are parameters. Fresh ids are built so that they differ from every stored id.
- Time-zone month bounds (Asia/Kolkata in `getUserFileUploadCountByMonth`, the UTC month in `getUserAnalyticsByMonth`) and `Date.getMonth`/`getFullYear` are parameters rather than a calendar computation.
- Money is integer thousandths. The JavaScript floating-point sums of 0.002 and their rounding are not modelled.
- The `Promise.all` pairs run one after the other. When the file is missing, `UpsertDailyAnalytics` leaves both tables unchanged; the ledger write that may already have happened is not modelled.
- `CreateVideo` always creates the zero row. Its probe key uses the full instant, while the created row is keyed by the day start; the model keeps the created row.
- Concurrency and transactions are not modelled. Every operation runs alone.
- JavaScript numbers are integers here. `parseInt` reads decimal digits and, when no radix is given, a "0x"/"0X" prefix followed by hexadecimal digits; other radixes and the loss of precision on long digit runs are not modelled.
- `toLowerCase` lowers ASCII letters only. `Trim` uses the ECMAScript white-space set; Unicode normalisation is not modelled.
- `PathNames.Extname`, `PathNames.Stem`, `FilesMiddleware.GltfFilter` and `FilesMiddleware.ValidateGltf` require a name without "/". Multer passes bare file names; directory parts are not modelled.
- Rows without a product code never conflict on the unique code column, as in an SQL unique index. The error for a taken code is Prisma's message text; its error code and the controller's handling of it are not modelled.
- Template keys are assumed to hold no regular-expression metacharacters. `$` patterns in replacement values are not modelled.
- The OTP record's fields and their order (for `toRecord`) are assumed, because the Prisma schema is not part of this model.
- Multer's own error versus a filter's error: both answer 400 with the message. The model takes the multer failure as an input and does not model file-size limits.
- Several call sites do not match the providers they call. The model follows the providers' behaviour:
  - `fileService.createFile` calls a `createFile` that the provider lacks (it has `createVideo`);
  - `fileService.getFilesByUser` passes skip and take to a one-argument provider that returns a plain list;
  - the monthly totals service passes two arguments to a three-argument provider;
  - `isValidToken` is imported by controllers but not exported.
- `fileService.createFile` and `fileService.getFilesByUser` are not modelled beyond their offset arithmetic (`FileService.Skip`). Each makes one provider call, with a signature the provider does not have, and returns its result unchanged.
- A negative skip makes `Products.GetAllProducts` return an error, as Prisma rejects it. Prisma's own error message is not modelled.
- `Products.ProductTable.DeleteCategoryFromAllProducts` requires a non-empty category id, because category ids are generated. With an empty id the source's `categoryId &&` spread adds no filter, so the loop pages once through every product and stops at the first short page; that case is not modelled.
- `findMany` with no ordering returns table order.
- `FileAnalytics.MonthlyBreakdown` matches an upload group to a ledger day by equal day keys. The source compares `f.date.toString()` with `a.date.toISOString()`. Those agree only if `uploadedDate` is a text column holding the ISO day-start text, which is what `files.controller.ts` writes. The Prisma schema is not part of this model. With a DateTime column, the source would report 0 uploads on every day.
- `AddCategoryToProduct` returns the mutated argument beside the stored row, since the source pushes onto the caller's array.
- The message of a failed wallet-transaction insert is a fixed text; Prisma's own message is not modelled.
- A database error inside `createRegistrationOtp` (the 'Failed to create OTP request' path) is not modelled; the insert always succeeds.
- A new user's role is the schema default USER; the role column beyond ADMIN and USER is one `OtherRole`.
- `getById`, `getByProductCode`, `deleteProduct` and `getIdNameCategories` of the products provider and their one-line services only forward to the database; they are not part of this model. The withdrawal service's `getWalletTransactionsByUser` is the provider's listing unchanged (`WalletTransactions.ByUser`).

## Findings

| source | as written | input that shows it | evidently intended | confidence | as-written member | corrected member |
|---|---|---|---|---|---|---|
| src/providers/file.provider.ts:75-79 | each creation-instant group overwrites the day's count | two uploads at 00:00:01 and 00:00:02 of one day give 1 | the day's count sums its groups (2) | not executed | FileRecords.UploadsByDateOverwrites | FileRecords.CountUploadsByDay |
| src/services/file-analytics.service.ts:28 | the provider receives no end bound, so totals run from the date onwards | a row dated in the next month adds its views | totals bounded to the month | not executed | FileAnalyticsService.AsWrittenCountsLaterMonths | FileAnalyticsService.UserMonthlyAnalyticsTotalsInMonth |
| src/services/users.service.ts:35-37 | the middle name takes `input.lastName` | input middleName "Q", lastName "R" stores middle name "R" | the middle name takes `input.middleName` | not executed | Users.MergeAsWrittenMiddleName | Users.MergeIntended |
| src/providers/users.provider.ts:69 | the image is written from `input.country` | an edit setting only image "pic.png" stores the country (none) | the image is written from `input.image` | not executed | Users.UpdateAsWrittenImage | Users.UpdatedIntended |
| src/services/products.service.ts:65-83 | page offsets advance while stripped products drop out of the filter | 51 products in one category: the 51st keeps the category | restart at page 0 each round until a short page | not executed | Products.SweepMissesLastProduct | Products.SweepFromStart |

The table classes model the code as written (`Users.UserTable.EditUser`, `Users.UserTable.UpdateUser`,
`Products.ProductTable.DeleteCategoryFromAllProducts`, `FileRecords.UploadsByDate`). The corrected definitions
(`Users.MergeIntended`, `Users.UpdatedIntended`, `Products.SweepFromStart`, `FileRecords.CountUploadsByDay`,
`FileAnalyticsService.UserMonthlyAnalyticsTotalsInMonth`) carry the intended properties.
