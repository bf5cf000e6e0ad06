# PiggyBank ledger, modelled in Dafny

PiggyBank is a double-entry bookkeeping application. Its server keeps,
for each user, a forest of accounts and a ledger of transactions. Each
transaction is made of two or more splits, and the splits of each
currency must add up to zero. A Compose client shows the account tree,
an account register with an inline editor for new transfers, a strip of
register tabs and a navigation back-stack.

This project models the server's services and the client's state logic,
and proves what they promise.

- **Database.** `Store.Database` is a class. Its fields are the
  accounts, transactions and users tables as maps from identifier to
  row, and the splits table as a sequence in table order. `Valid()` is
  the conjunction of the database constraints and of the invariants the
  services keep:
  - the parent links form a forest, and a child has its parent's owner
    and type;
  - no two non-root siblings share a name (the `(userId, parentId, name)`
    index, which treats two null parents as distinct);
  - every split points at an existing, non-placeholder account of its
    transaction's owner;
  - split identifiers are distinct;
  - usernames and e-mails are unique;
  - each transaction's stored amounts add up to zero in every currency.
    No schema constraint says this. It holds because the modelled
    service checks splits with the corrected rule of the first Finding
    below, `ValidateStoredSplits`, which also checks the rounded amounts.
- **Service operations.** Each operation is a method on the database.
  On failure it leaves the database unchanged. On success it states the
  new content of every table. Each one keeps `Valid()`; for creating and
  updating a transaction this holds of the corrected splits rule only
  (see "## Left out").
  - `TransactionService`: create, get, update, delete, void, unvoid and
    the reconcile status of a split.
  - `TransactionList`: the paged, date-filtered listing.
  - `Register`: the account register with its running balance.
  - `AccountService`: create, update (rename and move, with the rewrite
    of every descendant's full name), delete and balance.
  - `AccountTree`: the account tree with rolled-up balances.
  - `DefaultAccounts`: the default chart of twenty-four accounts.
  - `UserService`: registration, login and lookup.
- **Failures.** Every failure is a value of `Errors.Failure`, and
  `Errors.Kind` gives its HTTP status.
- **Amounts** are `java.math.BigDecimal` values: an unscaled integer and
  a scale (`Decimal`).
  - The parser is `BigDecimal(String)`, with sign, fraction and exponent.
  - The printers are `toString()` and `toPlainString()`.
  - `Round4` is the rounding the `decimal(19, 4)` amount column applies.
    Stored amounts are integers in ten-thousandths.
- **Text.** Strings are sequences of UTF-16 code units. `Upper` is
  Kotlin's `uppercase()` for every character whose upper-case form can
  spell an enum name. `Utf16Length` is `String.length`. `ParseUuid` and
  `ParseDate` are `UUID.fromString` and `LocalDate.parse`.
- **Client.** The client's state holders are classes:
  - `AccountsViewModel.AccountsViewModel`;
  - `RegisterViewModel.RegisterViewModel`;
  - `MainTabs.TabStrip`;
  - `Navigation.AppState`;
  - `AccountRegisterView.NewRowEditor`, the remembered state of the
    register's new-transaction row.

  Their event handlers are methods. Each asynchronous API call runs to
  completion in one step, and its outcome is a parameter.
  `AccountTreeView.FlattenTree` and
  `AccountRegisterView.FlattenAccountsForDropdown` keep the source's
  loops and are proved against recursive specification functions.

Behaviour reproduced from the code where the service's own
documentation says otherwise:

- **Balances include voided transactions.**
  - `getAccountBalance` and the tree balances add every split,
    whatever the state of its transaction and whatever its currency.
  - Only the register's running balance skips voided transactions.
  - `Register.BalanceCountsVoided` relates the two.
- **A rename loses the path.** When `updateAccount` gets no `parentId`,
  it rebuilds the full name from no parent. A renamed child therefore
  gets its bare name as its full name, and its descendants get names
  built from that.
- **A mismatched parent type is a bad request (400)** in the code, not
  a validation error.
- **The `Transactions` table declares no `voided`, `voidReason` or
  `num` column** (`Transactions.kt`), but the service reads and writes
  all three. The model gives the row these fields.
- **The sibling check uses `singleOrNull`.** With two or more
  namesakes it would report nothing. Under a non-root parent the unique
  index rules that out, and `AccountService.NamesakesAtMostOne` shows
  it. Roots are not covered: the index treats two null parents as
  distinct, and `updateAccount` makes no sibling check, so two roots
  can come to share a name, after which `singleOrNull` lets a third
  through. The modelled `PlacementFailure` tests for exactly one
  namesake, which is what `singleOrNull` reports.

## Model

| member | source | states |
|---|---|---|
| Text.UpperOf | server/src/main/kotlin/com/bugdigger/piggybank/service/TransactionService.kt:518 | `Char.uppercase()`: ASCII lower-case letters map to upper case, the few non-ASCII characters whose upper-case form is ASCII map to it, and every other character is kept |
| Text.Upper | server/src/main/kotlin/com/bugdigger/piggybank/service/TransactionService.kt:518 | `uppercase()` keeps upper-case ASCII names, maps each character through `UpperOf`, and is at least as long as its input |
| Text.Utf16Length | server/src/main/kotlin/com/bugdigger/piggybank/service/UserService.kt:128-134 | `String.length` counts UTF-16 code units: at least the number of characters, and equal to it for text below U+10000 |
| Uuid.ParseUuid | server/src/main/kotlin/com/bugdigger/piggybank/service/TransactionService.kt:504-509 | `UUID.fromString(s).toString()`, `None` where `fromString` throws: only text of at most 36 characters is read, and what is read comes out as a canonical lower-case 36-character id |
| Uuid.GroupsChain | server/src/main/kotlin/com/bugdigger/piggybank/service/TransactionService.kt:504-509 | the recursive group reader `ParseUuid` uses takes the same five groups as `fromString`'s chain of five `indexOf('-')` calls, and refuses the same texts |
| Uuid.HexValueOf | server/src/main/kotlin/com/bugdigger/piggybank/service/TransactionService.kt:504-509 | `Long.parseLong(_, 16)` of the digits `toString` prints for a field gives back the field's value |
| Uuid.HexOfValue | server/src/main/kotlin/com/bugdigger/piggybank/service/TransactionService.kt:504-509 | lower-case hexadecimal digits are printed back unchanged from their value at their own width |
| Uuid.Format | server/src/main/kotlin/com/bugdigger/piggybank/service/TransactionService.kt:504-509 | `UUID.toString()` of the fields `fromString` builds, each masked to its width, is canonical |
| Uuid.ParseCanonical | server/src/main/kotlin/com/bugdigger/piggybank/service/TransactionService.kt:460-461 | a canonical id parses to itself |
| Uuid.ParseIdempotent | server/src/main/kotlin/com/bugdigger/piggybank/service/TransactionService.kt:505-506 | re-reading a parsed id gives the same id |
| Uuid.ShortForm | server/src/main/kotlin/com/bugdigger/piggybank/service/TransactionService.kt:504-509 | the short form "1-2-3-4-5" is accepted and read as `00000001-0002-0003-0004-000000000005` |
| Dates.ParseDate | server/src/main/kotlin/com/bugdigger/piggybank/service/TransactionService.kt:489-493 | `LocalDate.parse`: accepts only valid `YYYY-MM-DD` calendar dates, leap years included, with four-digit years |
| Dates.FormatDate | server/src/main/kotlin/com/bugdigger/piggybank/service/TransactionService.kt:472 | `LocalDate.toString()` prints ten characters in `YYYY-MM-DD` form |
| Dates.ParseFormat | server/src/main/kotlin/com/bugdigger/piggybank/service/TransactionService.kt:472 | parsing what `toString()` printed gives back the date |
| Dates.FormatParse | server/src/main/kotlin/com/bugdigger/piggybank/service/TransactionService.kt:489-493 | a string that parses is exactly what `toString()` prints for its date |
| Dates.LeChronological | server/src/main/kotlin/com/bugdigger/piggybank/service/TransactionService.kt:139 | on valid dates the ordering used by `orderBy(date)` is year, then month, then day |
| Decimal.ParseDecimal | server/src/main/kotlin/com/bugdigger/piggybank/service/TransactionService.kt:511-515 | `BigDecimal(String)`: accepts only the `Numeral` syntax (optional sign, digits with at most one point and at least one digit, optional signed exponent) with a scale in the `int` range, and accepts every numeral whose scale is in that range |
| Decimal.NumeralSyntax | server/src/main/kotlin/com/bugdigger/piggybank/service/TransactionService.kt:511-515 | the digits parser succeeds on the unsigned text exactly when the text is a `Numeral` |
| Decimal.SignificandSyntax | server/src/main/kotlin/com/bugdigger/piggybank/service/TransactionService.kt:511-515 | the significand parser accepts exactly digits with at most one point and at least one digit |
| Decimal.ExponentSyntax | server/src/main/kotlin/com/bugdigger/piggybank/service/TransactionService.kt:511-515 | the exponent parser accepts exactly an optional sign followed by at least one digit |
| Decimal.ScaleOverflow | server/src/main/kotlin/com/bugdigger/piggybank/service/TransactionService.kt:511-515 | `1E` followed by an exponent that takes the scale out of the `int` range is well formed and still refused |
| Decimal.ParseNegative | composeApp/src/commonMain/kotlin/com/bugdigger/piggybank/ui/viewmodel/RegisterViewModel.kt:148 | a leading minus before a digit negates the unscaled value and keeps the scale |
| Decimal.RenderAbs | server/src/main/kotlin/com/bugdigger/piggybank/service/TransactionService.kt:531 | `toString()` of a non-negative value: plain notation when the scale is non-negative and the adjusted exponent is at least -6, scientific notation otherwise |
| Decimal.ParseRender | composeApp/src/commonMain/kotlin/com/bugdigger/piggybank/ui/viewmodel/RegisterViewModel.kt:148 | `BigDecimal(x.toString())` gives back `x`, unscaled value and scale both |
| Decimal.PlainAbs | server/src/main/kotlin/com/bugdigger/piggybank/service/TransactionService.kt:463 | `toPlainString()` never prints an exponent |
| Decimal.ParsePlain | server/src/main/kotlin/com/bugdigger/piggybank/service/TransactionService.kt:463 | `BigDecimal(x.toPlainString())` gives back `x` when the scale is non-negative |
| Decimal.NegValue | composeApp/src/commonMain/kotlin/com/bugdigger/piggybank/ui/viewmodel/RegisterViewModel.kt:148 | negation flips the sign of the exact value and of the stored value |
| Decimal.NegRound4 | server/src/main/kotlin/com/bugdigger/piggybank/data/tables/Splits.kt:38 | storing a negated amount stores the negated units |
| Decimal.RescaleValue | server/src/main/kotlin/com/bugdigger/piggybank/service/TransactionService.kt:528 | raising the scale by `k` while multiplying the unscaled value by `10^k` keeps the value |
| Decimal.SameScaleSum | server/src/main/kotlin/com/bugdigger/piggybank/service/TransactionService.kt:528 | at a common scale the value is linear in the unscaled values |
| Decimal.AddValue | server/src/main/kotlin/com/bugdigger/piggybank/service/TransactionService.kt:528 | `add` is exact: the value of the sum is the sum of the values |
| Decimal.Round4Exact | server/src/main/kotlin/com/bugdigger/piggybank/data/tables/Splits.kt:38 | at scale four or less the `decimal(19, 4)` column stores the exact value |
| Decimal.Round4Nearest | server/src/main/kotlin/com/bugdigger/piggybank/data/tables/Splits.kt:38 | beyond scale four the column stores the nearest ten-thousandth |
| Decimal.DivisionRounding | server/src/main/kotlin/com/bugdigger/piggybank/data/tables/Splits.kt:38 | rounding to the nearest unit is off by at most half a unit |
| Tables.FromAccountType | server/src/main/kotlin/com/bugdigger/piggybank/data/tables/Accounts.kt:32-35 | ASSET and EXPENSE give DEBIT; LIABILITY, EQUITY and INCOME give CREDIT; the match covers all five types |
| Tables.ParseAccountType | server/src/main/kotlin/com/bugdigger/piggybank/data/tables/Accounts.kt:14-20 | `AccountType.valueOf` accepts exactly the five type names |
| Tables.ParseCurrency | server/src/main/kotlin/com/bugdigger/piggybank/data/tables/Accounts.kt:42-46 | `Currency.valueOf` accepts exactly USD, EUR and RSD |
| Tables.ParseStatus | server/src/main/kotlin/com/bugdigger/piggybank/data/tables/Splits.kt:12-16 | `ReconcileStatus.valueOf` accepts exactly NEW, CLEARED and RECONCILED |
| Tables.UpperIgnoringCase | server/src/main/kotlin/com/bugdigger/piggybank/service/TransactionService.kt:324 | an upper-case ASCII name written in any mix of cases upper-cases back to that name |
| Tables.ReadStatusAnyCase | server/src/main/kotlin/com/bugdigger/piggybank/service/TransactionService.kt:323-327 | `valueOf(status.uppercase())` accepts a status name in any mix of cases |
| Tables.ReadCurrencyAnyCase | server/src/main/kotlin/com/bugdigger/piggybank/service/TransactionService.kt:517-521 | `valueOf(currency.uppercase())` accepts a currency name in any mix of cases |
| Tables.ReadAccountTypeAnyCase | server/src/main/kotlin/com/bugdigger/piggybank/service/AccountService.kt:438-442 | `valueOf(type.uppercase())` accepts a type name in any mix of cases |
| Domain.FromAccountType | shared/src/commonMain/kotlin/com/bugdigger/piggybank/domain/model/Enums.kt:25-28 | the shared `fromAccountType`: ASSET and EXPENSE give DEBIT, the other three give CREDIT |
| Domain.ServerType | shared/src/commonMain/kotlin/com/bugdigger/piggybank/domain/model/Enums.kt:6-12 | each shared account type corresponds to the server's type of the same name |
| Domain.FromAccountTypeAgrees | shared/src/commonMain/kotlin/com/bugdigger/piggybank/domain/model/Enums.kt:25-28 | the shared and the server mapping agree on every type |
| Domain.ParseNormalBalance | shared/src/commonMain/kotlin/com/bugdigger/piggybank/domain/model/Enums.kt:20-22 | `valueOf` accepts exactly DEBIT and CREDIT |
| Domain.ParseStatus | shared/src/commonMain/kotlin/com/bugdigger/piggybank/domain/model/Enums.kt:41-44 | `valueOf` accepts exactly the three status names |
| Domain.NormalBalanceFromString | shared/src/commonMain/kotlin/com/bugdigger/piggybank/domain/model/Enums.kt:30 | `fromString` is `valueOf(value.uppercase())` and fails on any other name |
| Domain.StatusFromString | shared/src/commonMain/kotlin/com/bugdigger/piggybank/domain/model/Enums.kt:47 | `fromString` is `valueOf(value.uppercase())` and fails on any other name |
| Domain.NormalBalanceAnyCase | shared/src/commonMain/kotlin/com/bugdigger/piggybank/domain/model/Enums.kt:30 | `fromString` accepts DEBIT and CREDIT in any mix of cases |
| Domain.StatusAnyCase | shared/src/commonMain/kotlin/com/bugdigger/piggybank/domain/model/Enums.kt:47 | `fromString` accepts each status in any mix of cases |
| Domain.SymbolsDistinct | shared/src/commonMain/kotlin/com/bugdigger/piggybank/domain/model/Enums.kt:41-44 | the symbols are n, c and y, and no two statuses share one |
| Domain.CurrencyLabelsDistinct | shared/src/commonMain/kotlin/com/bugdigger/piggybank/domain/model/Enums.kt:52-56 | USD is "$" / "US Dollar", EUR "€" / "Euro", RSD "RSD" / "Serbian Dinar"; symbol and display name each tell the currencies apart |
| Errors.StatusCode | server/src/main/kotlin/com/bugdigger/piggybank/plugins/StatusPages.kt:19-26 | each exception class carries its HTTP status (400, 401, 403, 404, 409, 422), and only the catch-all gives 500 |
| Store.ColumnDec | server/src/main/kotlin/com/bugdigger/piggybank/data/tables/Splits.kt:38 | a stored amount reads back at scale four with the stored value |
| Store.Without | server/src/main/kotlin/com/bugdigger/piggybank/service/TransactionService.kt:244 | `deleteWhere { transactionId eq t }` keeps exactly the splits of other transactions |
| Store.SumsOther | server/src/main/kotlin/com/bugdigger/piggybank/data/tables/Splits.kt:21-24 | splits of other transactions add nothing to a transaction's sums |
| Store.SumsWithout | server/src/main/kotlin/com/bugdigger/piggybank/service/TransactionService.kt:243-247 | dropping a transaction's splits empties its sums and keeps every other transaction's |
| Store.LedgerKeepsAccounts | server/src/main/kotlin/com/bugdigger/piggybank/data/tables/Splits.kt:36-37 | account changes that keep owners, placeholder flags and the rows splits point at keep the ledger valid |
| Store.ValidClosed | server/src/main/kotlin/com/bugdigger/piggybank/data/tables/Accounts.kt:58 | when every parent fits, every parent link points at an account in the table |
| Store.LedgerKeepsTxn | server/src/main/kotlin/com/bugdigger/piggybank/service/TransactionService.kt:173-179 | changing a transaction's fields other than its id and owner keeps the ledger valid |
| Store.Database.constructor | server/src/main/kotlin/com/bugdigger/piggybank/data/tables/Accounts.kt:56-73 | an empty database satisfies every constraint |
| Links.UpPastNone | server/src/main/kotlin/com/bugdigger/piggybank/service/AccountService.kt:370-380 | once the parent walk passes a root it stays there |
| Links.CycleNeverEnds | server/src/main/kotlin/com/bugdigger/piggybank/service/AccountService.kt:370-380 | a walk that returns to its start never reaches a root |
| Links.NoCycle | server/src/main/kotlin/com/bugdigger/piggybank/data/tables/Accounts.kt:51-53 | in a forest no account is strictly below itself |
| Links.BelowChild | server/src/main/kotlin/com/bugdigger/piggybank/service/AccountService.kt:382-394 | a child's descendants are among its parent's, and the child is not among its own |
| Links.ReachesStep | server/src/main/kotlin/com/bugdigger/piggybank/service/AccountService.kt:370-380 | reaching an account means being it or reaching it from one's parent |
| Links.AgreeWalk | server/src/main/kotlin/com/bugdigger/piggybank/service/AccountService.kt:174-180 | link tables that differ at one row walk alike until the walk reaches that row |
| Links.WalkStaysIn | server/src/main/kotlin/com/bugdigger/piggybank/data/tables/Accounts.kt:58 | in a table whose parent links point inside it, a walk visits only its rows |
| Links.SubWalk | server/src/main/kotlin/com/bugdigger/piggybank/service/AccountService.kt:224 | a walk that ends keeps ending after rows are removed |
| Links.InsertLeaf | server/src/main/kotlin/com/bugdigger/piggybank/service/AccountService.kt:70-83 | a new leaf under an existing account, or a new root, keeps the forest |
| Links.Remove | server/src/main/kotlin/com/bugdigger/piggybank/service/AccountService.kt:224 | removing accounts that no remaining account lists as its parent keeps the forest |
| Links.Reparent | server/src/main/kotlin/com/bugdigger/piggybank/service/AccountService.kt:147-162 | moving an account under one that is neither itself nor below it keeps the forest |
| Links.ParentInside | server/src/main/kotlin/com/bugdigger/piggybank/service/AccountService.kt:382-394 | the parent of an account below `x` is `x` or is also below `x` |
| Links.ThroughChild | server/src/main/kotlin/com/bugdigger/piggybank/service/AccountService.kt:382-394 | an account below `x` that is not its child is below one of its children |
| Links.ChildrenDisjoint | server/src/main/kotlin/com/bugdigger/piggybank/service/AccountService.kt:382-394 | the subtrees of two different children do not overlap |
| Ledger.AccountIdsCount | server/src/main/kotlin/com/bugdigger/piggybank/service/TransactionService.kt:42-44 | the splits name as many accounts as there are splits exactly when no account repeats |
| Ledger.MatchedCount | server/src/main/kotlin/com/bugdigger/piggybank/service/TransactionService.kt:37-44 | the query returns one row per split exactly when every account is the user's and none repeats, so two splits on one account are refused |
| Ledger.PlaceholderNames | server/src/main/kotlin/com/bugdigger/piggybank/service/TransactionService.kt:47-50 | the placeholder names are empty exactly when no split's account is a placeholder |
| Ledger.NewSplits | server/src/main/kotlin/com/bugdigger/piggybank/service/TransactionService.kt:68-86 | one row per requested split, in request order, each with its parsed account, amount, currency, memo and status (NEW when none is given) |
| Ledger.NewSplitSums | server/src/main/kotlin/com/bugdigger/piggybank/service/TransactionService.kt:68-86 | the new rows hold, in each currency, the stored sum of the requested amounts, and there are as many rows as splits |
| Ledger.WithoutDistinct | server/src/main/kotlin/com/bugdigger/piggybank/service/TransactionService.kt:244 | dropping one transaction's splits keeps split ids distinct |
| Ledger.DropKeepsLedger | server/src/main/kotlin/com/bugdigger/piggybank/service/TransactionService.kt:243-247 | deleting a transaction with all its splits keeps the ledger valid |
| Ledger.PostKeepsLedger | server/src/main/kotlin/com/bugdigger/piggybank/service/TransactionService.kt:54-86 | adding a new transaction with balanced, fresh rows of its own keeps the ledger valid |
| Ledger.NewSplitsFresh | server/src/main/kotlin/com/bugdigger/piggybank/service/TransactionService.kt:68-86 | rows built from owned, non-placeholder, balanced postings with fresh ids are fresh splits for the transaction |
| Ledger.StatusKeepsSums | server/src/main/kotlin/com/bugdigger/piggybank/service/TransactionService.kt:337-339 | changing only a status keeps every transaction sum, split count and account sum |
| Ledger.StatusKeepsLedger | server/src/main/kotlin/com/bugdigger/piggybank/service/TransactionService.kt:337-339 | changing a split's reconcile status keeps the ledger valid |
| Sorting.SortBy | server/src/main/kotlin/com/bugdigger/piggybank/service/TransactionService.kt:139 | the result is sorted by the key and has the same length as the input |
| Sorting.SortByMembers | server/src/main/kotlin/com/bugdigger/piggybank/service/TransactionService.kt:139 | sorting neither loses nor invents an element |
| Sorting.SortByDistinct | server/src/main/kotlin/com/bugdigger/piggybank/service/TransactionService.kt:139 | an element that occurs once before sorting occurs once after |
| SplitValidation.SplitFailure | server/src/main/kotlin/com/bugdigger/piggybank/service/TransactionService.kt:504-521 | a split's first unreadable field, checked as account id, then amount, then currency, each a bad request naming the text |
| SplitValidation.FieldFailure | server/src/main/kotlin/com/bugdigger/piggybank/service/TransactionService.kt:504-522 | a field failure is reported exactly when some split has an unreadable field |
| SplitValidation.FieldFailureFirst | server/src/main/kotlin/com/bugdigger/piggybank/service/TransactionService.kt:504-522 | the failure reported is that of the first split with an unreadable field |
| SplitValidation.Read | server/src/main/kotlin/com/bugdigger/piggybank/service/TransactionService.kt:505-521 | a well-formed split reads as its parsed account, amount and currency |
| SplitValidation.Postings | server/src/main/kotlin/com/bugdigger/piggybank/service/TransactionService.kt:68-74 | one posting per split, in order |
| SplitValidation.GroupKey | server/src/main/kotlin/com/bugdigger/piggybank/service/TransactionService.kt:526 | `groupBy { currency.uppercase() }` files a readable split under its currency's name |
| SplitValidation.GroupOrder | server/src/main/kotlin/com/bugdigger/piggybank/service/TransactionService.kt:526 | the group order lists each currency in use once, in order of first appearance |
| SplitValidation.UnusedGroupSum | server/src/main/kotlin/com/bugdigger/piggybank/service/TransactionService.kt:527-528 | a currency no split uses sums to zero |
| SplitValidation.UnbalancedGroup | server/src/main/kotlin/com/bugdigger/piggybank/service/TransactionService.kt:527-534 | the first group in order whose sum is not zero by `compareTo`, or none when every group balances |
| SplitValidation.GroupCheck | server/src/main/kotlin/com/bugdigger/piggybank/service/TransactionService.kt:526-534 | the check fails exactly when some currency's sum is non-zero |
| SplitValidation.AllGroupsBalanced | server/src/main/kotlin/com/bugdigger/piggybank/service/TransactionService.kt:526-534 | when every currency in use is listed and every listed group sums to zero, every currency sums to zero |
| SplitValidation.ValidateSplits | server/src/main/kotlin/com/bugdigger/piggybank/service/TransactionService.kt:498-535 | the order of the checks: fewer than two splits (422), then the first unreadable field (400), then the first unbalanced currency with its sum (422); accepts exactly the requests that pass all three |
| SplitValidation.UnbalancedStoredGroup | server/src/main/kotlin/com/bugdigger/piggybank/service/TransactionService.kt:527-534 | the first group whose amounts, rounded to the column, do not add up to zero |
| SplitValidation.StoredCheck | server/src/main/kotlin/com/bugdigger/piggybank/service/TransactionService.kt:526-534 | the stored check over a complete currency order passes exactly when every currency's stored sum is zero |
| SplitValidation.ValidateStoredSplits | server/src/main/kotlin/com/bugdigger/piggybank/service/TransactionService.kt:498-535 | the splits rule plus the stored-sum check: an accepted request's stored amounts balance in every currency |
| SplitValidation.SplitsFailureKinds | server/src/main/kotlin/com/bugdigger/piggybank/service/TransactionService.kt:499-531 | too few splits and an unbalanced group are validation errors (422); an unreadable field is a bad request (400) |
| SplitValidation.FailureKind | server/src/main/kotlin/com/bugdigger/piggybank/plugins/StatusPages.kt:19-26 | too few splits and an unbalanced group map to the 422 class; a field error maps to the 400 class |
| SplitValidation.StoredExact | server/src/main/kotlin/com/bugdigger/piggybank/data/tables/Splits.kt:38 | at scale four or less a split's stored units are its exact value |
| SplitValidation.StoredAgrees | server/src/main/kotlin/com/bugdigger/piggybank/service/TransactionService.kt:524-534 | when every amount fits the column's scale, the stored check agrees with the service's check |
| SplitValidation.ImbalanceOf | server/src/main/kotlin/com/bugdigger/piggybank/service/TransactionService.kt:524-534 | any request that reads as the three example postings passes the service's rule and fails the stored check |
| SplitValidation.OnlyGroup | server/src/main/kotlin/com/bugdigger/piggybank/service/TransactionService.kt:526-528 | when every split is in one currency, every other group sums to zero |
| SplitValidation.RoundingImbalance | server/src/main/kotlin/com/bugdigger/piggybank/service/TransactionService.kt:524-534 | as written, the rule accepts 0.00005 + 0.00005 - 0.0001 USD, whose stored amounts add up to 0.0001 |
| SplitValidation.ValidateTransaction | server/src/main/kotlin/com/bugdigger/piggybank/service/TransactionService.kt:484-496 | a blank description first (400), then an unparseable date (400), then the splits rule; accepts exactly the requests that pass all of them |
| TransactionService.JoinedMembers | server/src/main/kotlin/com/bugdigger/piggybank/service/TransactionService.kt:455-468 | the response lists a split exactly when it belongs to the transaction and its account exists, under that account's full name |
| TransactionService.JoinedAll | server/src/main/kotlin/com/bugdigger/piggybank/service/TransactionService.kt:455-468 | rows that all belong to the transaction and to known accounts are listed one for one, in order |
| TransactionService.PostingFailure | server/src/main/kotlin/com/bugdigger/piggybank/service/TransactionService.kt:36-51 | NotFound unless the account query matches one row per split; then BadRequest naming the placeholder accounts; otherwise none |
| TransactionService.CreateFailure | server/src/main/kotlin/com/bugdigger/piggybank/service/TransactionService.kt:27-51 | the request checks come before the database checks |
| TransactionService.CreateTransaction | server/src/main/kotlin/com/bugdigger/piggybank/service/TransactionService.kt:27-91 | fails exactly as `CreateFailure` says and then changes nothing; otherwise adds one transaction, not voided and with no reason, and exactly one split row per requested split; keeps `Valid()` |
| TransactionService.CreateKeepsLedger | server/src/main/kotlin/com/bugdigger/piggybank/service/TransactionService.kt:54-86 | a request that passes every check is well formed, and writing it keeps the ledger valid |
| TransactionService.CreatedView | server/src/main/kotlin/com/bugdigger/piggybank/service/TransactionService.kt:88-89 | the response to a create lists exactly the new splits, in request order |
| TransactionService.GetTransaction | server/src/main/kotlin/com/bugdigger/piggybank/service/TransactionService.kt:96-108 | the user's own transaction with its splits, or NotFound |
| TransactionService.UpdateFailure | server/src/main/kotlin/com/bugdigger/piggybank/service/TransactionService.kt:156-198 | supplied splits are validated before anything is read; then the transaction must be the user's; then a supplied date must parse; then supplied splits must pass the database checks |
| TransactionService.UpdatedFields | server/src/main/kotlin/com/bugdigger/piggybank/service/TransactionService.kt:173-179 | absent fields keep their value and supplied ones replace it; the void state, owner and creation time are untouched |
| TransactionService.UpdateIdempotent | server/src/main/kotlin/com/bugdigger/piggybank/service/TransactionService.kt:173-179 | applying the same update twice gives the row that applying it once gives |
| TransactionService.ReplaceKeepsLedger | server/src/main/kotlin/com/bugdigger/piggybank/service/TransactionService.kt:200-222 | swapping a transaction's split set for a fresh balanced one keeps the ledger valid |
| TransactionService.UpdateKeepsLedger | server/src/main/kotlin/com/bugdigger/piggybank/service/TransactionService.kt:172-222 | an update that passes every check keeps the ledger valid |
| TransactionService.UpdateTransaction | server/src/main/kotlin/com/bugdigger/piggybank/service/TransactionService.kt:156-227 | fails exactly as `UpdateFailure` says and then changes nothing; otherwise rewrites the row and, when splits are supplied, replaces every split of the transaction and only those; keeps `Valid()` |
| TransactionService.ReplacedView | server/src/main/kotlin/com/bugdigger/piggybank/service/TransactionService.kt:200-225 | after a split update the transaction lists exactly the new splits, in request order |
| TransactionService.DeleteFailure | server/src/main/kotlin/com/bugdigger/piggybank/service/TransactionService.kt:232-241 | NotFound unless the transaction is the user's |
| TransactionService.DeleteTransaction | server/src/main/kotlin/com/bugdigger/piggybank/service/TransactionService.kt:232-249 | removes the transaction and exactly its splits, or fails and changes nothing; keeps `Valid()` |
| TransactionService.DeleteEffect | server/src/main/kotlin/com/bugdigger/piggybank/service/TransactionService.kt:243-247 | after a delete no split of the transaction is left, and every other transaction's splits are as they were |
| TransactionService.VoidFailure | server/src/main/kotlin/com/bugdigger/piggybank/service/TransactionService.kt:254-269 | NotFound unless the transaction is the user's; BadRequest when it is already voided |
| TransactionService.UnvoidFailure | server/src/main/kotlin/com/bugdigger/piggybank/service/TransactionService.kt:285-300 | NotFound unless the transaction is the user's; BadRequest when it is not voided |
| TransactionService.VoidThenRestore | server/src/main/kotlin/com/bugdigger/piggybank/service/TransactionService.kt:272-307 | unvoiding a transaction that was voided from a clean state gives back the row, apart from `updatedAt` |
| TransactionService.VoidToggles | server/src/main/kotlin/com/bugdigger/piggybank/service/TransactionService.kt:266-300 | after a void a second void fails and an unvoid passes; after an unvoid the reverse |
| TransactionService.VoidTransaction | server/src/main/kotlin/com/bugdigger/piggybank/service/TransactionService.kt:254-280 | sets voided and the reason and bumps `updatedAt`; no split changes |
| TransactionService.UnvoidTransaction | server/src/main/kotlin/com/bugdigger/piggybank/service/TransactionService.kt:285-311 | clears voided and the reason and bumps `updatedAt`; no split changes |
| TransactionService.ReconcileFailure | server/src/main/kotlin/com/bugdigger/piggybank/service/TransactionService.kt:316-334 | an unreadable split id first, then an unknown status (400), then a split outside the user's transactions (404) |
| TransactionService.UpdateReconcileStatus | server/src/main/kotlin/com/bugdigger/piggybank/service/TransactionService.kt:316-357 | sets the split's status, whatever it was, and bumps its transaction's `updatedAt`; nothing else changes |
| TransactionService.ReconcileKeepsSums | server/src/main/kotlin/com/bugdigger/piggybank/service/TransactionService.kt:336-339 | changing a reconcile status moves no money: every sum, count and balance stays the same |
| TransactionService.StatusAnyCase | server/src/main/kotlin/com/bugdigger/piggybank/service/TransactionService.kt:323-327 | any capitalisation of a status name is accepted, and nothing else |
| TransactionList.Wrap32 | server/src/main/kotlin/com/bugdigger/piggybank/service/TransactionService.kt:141 | two's-complement wrap-around: a 32-bit value congruent to the input modulo 2^32, and the input itself when it fits |
| TransactionList.ReadBound | server/src/main/kotlin/com/bugdigger/piggybank/service/TransactionService.kt:126-134 | a date bound is refused exactly when it is given and does not parse |
| TransactionList.Listed | server/src/main/kotlin/com/bugdigger/piggybank/service/TransactionService.kt:123-134 | the rows of the filtered query, at most one per scanned id |
| TransactionList.ListedMembers | server/src/main/kotlin/com/bugdigger/piggybank/service/TransactionService.kt:123-134 | a row is listed exactly when it matches owner and dates and the scan visits it |
| TransactionList.ListedExactly | server/src/main/kotlin/com/bugdigger/piggybank/service/TransactionService.kt:123-134 | with a full scan the listed rows are exactly the user's transactions within the bounds |
| TransactionList.ListedIds | server/src/main/kotlin/com/bugdigger/piggybank/service/TransactionService.kt:123-134 | each listed row is the table's row under its id and matches the owner and the dates |
| TransactionList.ListedOnce | server/src/main/kotlin/com/bugdigger/piggybank/service/TransactionService.kt:123-134 | each scanned transaction is listed at most once |
| TransactionList.NewestFirstOrder | server/src/main/kotlin/com/bugdigger/piggybank/service/TransactionService.kt:139 | the listing runs from the latest date back, and within a date from the latest creation back |
| TransactionList.Window | server/src/main/kotlin/com/bugdigger/piggybank/service/TransactionService.kt:140-141 | `limit(size).offset(offset)`: the elements from `offset`, at most `size` of them |
| TransactionList.OffsetAsWritten | server/src/main/kotlin/com/bugdigger/piggybank/service/TransactionService.kt:141 | the offset as written: a 32-bit value, equal to `(page - 1) * pageSize` only when the product fits in an `Int` |
| TransactionList.OffsetWraps | server/src/main/kotlin/com/bugdigger/piggybank/service/TransactionService.kt:141 | as written, page 65537 of size 65536 starts at offset 0, not at 2^32 |
| TransactionList.FarPageRepeatsFirst | server/src/main/kotlin/com/bugdigger/piggybank/service/TransactionService.kt:138-142 | as written, that page repeats the first page; with the offset computed in 64 bits it is empty |
| TransactionList.PagesCover | server/src/main/kotlin/com/bugdigger/piggybank/service/TransactionService.kt:140-141 | with a positive page size every listed item is on page `i / s + 1` at position `i % s` |
| TransactionList.PagesDisjoint | server/src/main/kotlin/com/bugdigger/piggybank/service/TransactionService.kt:140-141 | two different pages share no position of the listing |
| TransactionList.ListFailure | server/src/main/kotlin/com/bugdigger/piggybank/service/TransactionService.kt:126-141 | the listing fails exactly on an unreadable date, a negative limit, or a negative offset as the 32-bit `Int` product computes it |
| TransactionList.Views | server/src/main/kotlin/com/bugdigger/piggybank/service/TransactionService.kt:142 | one response per listed row, in order, each the transaction with its splits |
| TransactionList.ListTransactions | server/src/main/kotlin/com/bugdigger/piggybank/service/TransactionService.kt:113-151 | `total` counts every matching transaction; the page holds exactly `min(pageSize, total - offset)` of them (none past the end), newest first, starting at the offset as written in 32-bit `Int` |
| TransactionList.ListPage | server/src/main/kotlin/com/bugdigger/piggybank/service/TransactionService.kt:136-149 | the page holds exactly the listing's entries from the offset on, `min(pageSize, |rows| - offset)` of them and none past the end, and `total`, `page` and `pageSize` are echoed |
| TransactionList.OrderedComplete | server/src/main/kotlin/com/bugdigger/piggybank/service/TransactionService.kt:123-139 | every matching transaction is in the ordered listing |
| TransactionList.OrderedOnce | server/src/main/kotlin/com/bugdigger/piggybank/service/TransactionService.kt:123-139 | no transaction appears twice in the ordered listing |
| TransactionList.DistinctIdsSorted | server/src/main/kotlin/com/bugdigger/piggybank/service/TransactionService.kt:139 | sorting keeps distinct ids distinct |
| Register.Lines | server/src/main/kotlin/com/bugdigger/piggybank/service/TransactionService.kt:379-395 | the account's splits whose transaction is dated within the given bounds, one line each |
| Register.Others | server/src/main/kotlin/com/bugdigger/piggybank/service/TransactionService.kt:409-417 | the full names of the transaction's splits on other accounts, in table order |
| Register.RegisterFailure | server/src/main/kotlin/com/bugdigger/piggybank/service/TransactionService.kt:369-391 | an unreadable account id, an account that is not the user's (404), or an unreadable date |
| Register.GetAccountRegister | server/src/main/kotlin/com/bugdigger/piggybank/service/TransactionService.kt:362-446 | one entry per line, oldest first; each entry carries the balance after it; the closing balance is the last balance; the opening balance is "0" |
| Register.Entries | server/src/main/kotlin/com/bugdigger/piggybank/service/TransactionService.kt:397-434 | the loop: entry `i` shows line `i`'s amount, voided flag, other accounts and `isSplit`, and the running balance through line `i` |
| Register.BalanceStep | server/src/main/kotlin/com/bugdigger/piggybank/service/TransactionService.kt:398-406 | each entry's balance is the previous one plus its amount, or the previous one when its transaction is voided |
| Register.RunningRemove | server/src/main/kotlin/com/bugdigger/piggybank/service/TransactionService.kt:398-406 | moving one line to the end does not change the final running balance |
| Register.RunningPermutation | server/src/main/kotlin/com/bugdigger/piggybank/service/TransactionService.kt:398-406 | the final running balance does not depend on the order of the lines |
| Register.ClosingBalance | server/src/main/kotlin/com/bugdigger/piggybank/service/TransactionService.kt:436-443 | the closing balance is the sum of the account's in-range amounts over non-voided transactions |
| Register.LinesSum | server/src/main/kotlin/com/bugdigger/piggybank/service/TransactionService.kt:398-406 | the running balance after all the lines is the sum of the in-range amounts of non-voided transactions |
| Register.BalanceCountsVoided | server/src/main/kotlin/com/bugdigger/piggybank/service/AccountService.kt:243-247 | without a date range, the account balance is the register's closing balance plus the voided amounts |
| Register.IsSplitMeans | server/src/main/kotlin/com/bugdigger/piggybank/service/TransactionService.kt:418 | an entry is a split transaction exactly when two or more other splits take part |
| Register.OldestFirstOrder | server/src/main/kotlin/com/bugdigger/piggybank/service/TransactionService.kt:393-395 | entries run by date, then by creation time, ascending |
| Register.LinesCover | server/src/main/kotlin/com/bugdigger/piggybank/service/TransactionService.kt:379-395 | every split of the account within the range, voided or not, has exactly one line |
| AccountService.NamesakesAtMostOne | server/src/main/kotlin/com/bugdigger/piggybank/data/tables/Accounts.kt:71 | under the unique index a non-root parent has at most one child of a given name, so `singleOrNull` never sees two there |
| AccountService.ValidateCreateAccount | server/src/main/kotlin/com/bugdigger/piggybank/service/AccountService.kt:431-448 | blank name, then a ':' in the name, then an unknown type, then an unknown currency, each a bad request; passes exactly when none applies |
| AccountService.BuildFullName | server/src/main/kotlin/com/bugdigger/piggybank/service/AccountService.kt:362-368 | the parent's full name, ':' and the name; the bare name without a parent |
| AccountService.PlacementFailure | server/src/main/kotlin/com/bugdigger/piggybank/service/AccountService.kt:28-59 | a malformed parent id, then a parent that is not the user's (404), then a parent of another type (400), then a same-named sibling (409) |
| AccountService.CreateAccountFailure | server/src/main/kotlin/com/bugdigger/piggybank/service/AccountService.kt:24-59 | field validation first, then placement |
| AccountService.InsertKeepsAccounts | server/src/main/kotlin/com/bugdigger/piggybank/service/AccountService.kt:70-83 | a new row that fits under its parent with a free sibling name keeps the account invariants |
| AccountService.CreateKeepsValid | server/src/main/kotlin/com/bugdigger/piggybank/service/AccountService.kt:70-83 | inserting a placed row keeps every database invariant |
| AccountService.PlaceAccount | server/src/main/kotlin/com/bugdigger/piggybank/service/AccountService.kt:28-59 | the placement checks as a method, returning the parent row or the failure `PlacementFailure` names |
| AccountService.CreateAccount | server/src/main/kotlin/com/bugdigger/piggybank/service/AccountService.kt:24-98 | fails exactly as `CreateAccountFailure` says and then changes nothing; otherwise adds one row under the requested parent with full name `BuildFullName(parent, name)` and the normal balance its type implies; keeps `Valid()` |
| AccountService.IsDescendantOf | server/src/main/kotlin/com/bugdigger/piggybank/service/AccountService.kt:370-380 | the parent walk from `potential` meets `ancestor` exactly when `potential` is `ancestor` or below it |
| AccountService.FullNamesKeepAccounts | server/src/main/kotlin/com/bugdigger/piggybank/service/AccountService.kt:382-394 | changing only full names keeps every account invariant |
| AccountService.SameLinks | server/src/main/kotlin/com/bugdigger/piggybank/service/AccountService.kt:382-394 | changing only full names keeps every parent link |
| AccountService.RenamedFrame | server/src/main/kotlin/com/bugdigger/piggybank/service/AccountService.kt:382-394 | whether a subtree carries its final names depends only on that subtree's rows |
| AccountService.RenamedAll | server/src/main/kotlin/com/bugdigger/piggybank/service/AccountService.kt:382-394 | once every child's subtree is renamed, everything below the top is |
| AccountService.RenameStart | server/src/main/kotlin/com/bugdigger/piggybank/service/AccountService.kt:383-387 | the loop starts with every child still to do |
| AccountService.RenameDone | server/src/main/kotlin/com/bugdigger/piggybank/service/AccountService.kt:387-393 | with no child left, everything below the top carries its new name |
| AccountService.StepFrame | server/src/main/kotlin/com/bugdigger/piggybank/service/AccountService.kt:387-393 | the rows one child's rename touches lie in that child's subtree |
| AccountService.StepOthers | server/src/main/kotlin/com/bugdigger/piggybank/service/AccountService.kt:387-393 | renaming one child's subtree leaves the other children's subtrees as they were |
| AccountService.RenameStep | server/src/main/kotlin/com/bugdigger/piggybank/service/AccountService.kt:387-393 | renaming one child and its subtree keeps the loop's invariant, with that child done |
| AccountService.UpdateDescendantFullNames | server/src/main/kotlin/com/bugdigger/piggybank/service/AccountService.kt:382-394 | every account below `parentId` gets the full name built from `parentFullName` down its path; no other row and no other field changes |
| AccountService.RenameChild | server/src/main/kotlin/com/bugdigger/piggybank/service/AccountService.kt:388-392 | one pass of the loop: the child gets `prefix:name`, then its subtree is renamed |
| AccountService.UpdatedRow | server/src/main/kotlin/com/bugdigger/piggybank/service/AccountService.kt:164-180 | the new name, description and parent where given, and a full name built from the parent named in the request (the bare name when none is named) |
| AccountService.MoveFailure | server/src/main/kotlin/com/bugdigger/piggybank/service/AccountService.kt:147-162 | a move fails on a missing parent (404), a parent of another type (400), or a parent at or below the account (400) |
| AccountService.UpdateAccountFailure | server/src/main/kotlin/com/bugdigger/piggybank/service/AccountService.kt:133-162 | the account must be the user's; then the move checks, only when the parent changes |
| AccountService.RewriteKeepsForest | server/src/main/kotlin/com/bugdigger/piggybank/service/AccountService.kt:174-180 | rewriting one row with a parent that creates no cycle keeps the forest |
| AccountService.RewriteKeepsFits | server/src/main/kotlin/com/bugdigger/piggybank/service/AccountService.kt:174-180 | rewriting one row with a fitting parent, keeping owner and type, keeps every parent fitting |
| AccountService.RewriteKeepsIndex | server/src/main/kotlin/com/bugdigger/piggybank/service/AccountService.kt:174-180 | rewriting one row to a key no other account holds keeps the sibling index |
| AccountService.RewriteKeepsValid | server/src/main/kotlin/com/bugdigger/piggybank/service/AccountService.kt:174-180 | rewriting one row, with its old parent or a fitting parent outside its subtree, keeps the account and ledger invariants |
| AccountService.UpdatedParent | server/src/main/kotlin/com/bugdigger/piggybank/service/AccountService.kt:146-162 | an update that passes every check writes the old parent or a fitting one with no cycle |
| AccountService.CheckMove | server/src/main/kotlin/com/bugdigger/piggybank/service/AccountService.kt:147-162 | the move checks as a method, with the cycle check walking up from the new parent; fails exactly as `MoveFailure` says |
| AccountService.CheckUpdate | server/src/main/kotlin/com/bugdigger/piggybank/service/AccountService.kt:135-170 | the checks of `updateAccount`, ending in the row to write; fails exactly as `UpdateAccountFailure` says |
| AccountService.UpdateAccount | server/src/main/kotlin/com/bugdigger/piggybank/service/AccountService.kt:133-191 | fails exactly as `UpdateAccountFailure` says and then changes nothing; otherwise writes `UpdatedRow` and rebuilds every descendant's full name from it; keeps `Valid()` |
| AccountService.WriteUpdate | server/src/main/kotlin/com/bugdigger/piggybank/service/AccountService.kt:174-183 | writes the row, then the full names below it |
| AccountService.DeleteAccountFailure | server/src/main/kotlin/com/bugdigger/piggybank/service/AccountService.kt:196-221 | NotFound unless the user's; then any split on it (400); then any child (400) |
| AccountService.DeleteAccount | server/src/main/kotlin/com/bugdigger/piggybank/service/AccountService.kt:196-226 | removes exactly that row, or fails as `DeleteAccountFailure` says and changes nothing; keeps `Valid()` |
| AccountService.RemoveKeepsValid | server/src/main/kotlin/com/bugdigger/piggybank/service/AccountService.kt:196-226 | removing an account with no splits and no children keeps the account forest and the ledger valid |
| AccountService.Balance | server/src/main/kotlin/com/bugdigger/piggybank/service/AccountService.kt:243-247 | the sum of every split on the account, voided or not, in every currency; zero when there is none |
| AccountService.GetAccountBalance | server/src/main/kotlin/com/bugdigger/piggybank/service/AccountService.kt:231-249 | NotFound unless the user's; otherwise `Balance` of the account |
| AccountTree.WithParent | server/src/main/kotlin/com/bugdigger/piggybank/service/AccountService.kt:401 | exactly the rows whose parent is `p`, in row order |
| AccountTree.SumBalances | server/src/main/kotlin/com/bugdigger/piggybank/service/AccountService.kt:406 | `sumOf` over the children's printed balances is the sum of their values |
| AccountTree.MakeNode | server/src/main/kotlin/com/bugdigger/piggybank/service/AccountService.kt:404-413 | the node's balance prints the account's own balance plus its children's, with `toPlainString` |
| AccountTree.BuildTreeNode | server/src/main/kotlin/com/bugdigger/piggybank/service/AccountService.kt:396-414 | the node of the account, its children built from the rows under it in row order, its balance the subtree's total |
| AccountTree.ForestSnoc | server/src/main/kotlin/com/bugdigger/piggybank/service/AccountService.kt:402 | appending one built node to built nodes keeps them built in row order |
| AccountTree.RowsOf | server/src/main/kotlin/com/bugdigger/piggybank/service/AccountService.kt:258-260 | exactly the user's rows, in table order |
| AccountTree.BalanceMap | server/src/main/kotlin/com/bugdigger/piggybank/service/AccountService.kt:262-273 | each listed account maps to the sum of its own splits |
| AccountTree.BuiltShowsUnits | server/src/main/kotlin/com/bugdigger/piggybank/service/AccountService.kt:396-414 | every node of a built tree shows the sum of the amounts posted to its account and to every account below it |
| AccountTree.BuiltAllShowUnits | server/src/main/kotlin/com/bugdigger/piggybank/service/AccountService.kt:276-277 | every root node shows its subtree's total |
| AccountTree.BalanceOwnUnits | server/src/main/kotlin/com/bugdigger/piggybank/service/AccountService.kt:276-277 | the balance map the tree is built from gives each account the sum of the amounts posted to it |
| AccountTree.GetAccountTree | server/src/main/kotlin/com/bugdigger/piggybank/service/AccountService.kt:254-279 | one node per root, in row order, each with its subtree; every balance is the subtree's total |
| AccountTree.RowsOfLinked | server/src/main/kotlin/com/bugdigger/piggybank/service/AccountService.kt:258-260 | the query's rows carry the parent links of the table |
| AccountTree.FillBalances | server/src/main/kotlin/com/bugdigger/piggybank/service/AccountService.kt:265-273 | the loop fills `BalanceMap` for the listed rows |
| DefaultAccounts.ChartSize | server/src/main/kotlin/com/bugdigger/piggybank/service/AccountService.kt:290-328 | the chart holds twenty-four accounts |
| DefaultAccounts.ChartSound | server/src/main/kotlin/com/bugdigger/piggybank/service/AccountService.kt:290-328 | each root's children share its type, and no two siblings share a name |
| DefaultAccounts.RowsShape | server/src/main/kotlin/com/bugdigger/piggybank/service/AccountService.kt:331-354 | a subtree's rows are keyed by exactly its ids; each is the subtree's root under `parent` or hangs under another of its ids |
| DefaultAccounts.RowsNames | server/src/main/kotlin/com/bugdigger/piggybank/service/AccountService.kt:333 | each row's full name is its parent's full name, ':' and its name, or the given prefix for the subtree's root |
| DefaultAccounts.RowsStamped | server/src/main/kotlin/com/bugdigger/piggybank/service/AccountService.kt:335-348 | each row is the user's, with the chart's type, currency, placeholder flag and the normal balance of its type |
| DefaultAccounts.RowsAllSnoc | server/src/main/kotlin/com/bugdigger/piggybank/service/AccountService.kt:351-353 | one more sibling's subtree takes the next ids |
| DefaultAccounts.CreateAccountRecursive | server/src/main/kotlin/com/bugdigger/piggybank/service/AccountService.kt:331-354 | inserts exactly the subtree's rows on top of the old table and keeps the account invariants |
| DefaultAccounts.RootInserted | server/src/main/kotlin/com/bugdigger/piggybank/service/AccountService.kt:332-348 | after the root goes in, the loop over its children starts from an empty prefix |
| DefaultAccounts.AllInserted | server/src/main/kotlin/com/bugdigger/piggybank/service/AccountService.kt:351-353 | after every child's subtree, the table is the old one plus the subtree's rows |
| DefaultAccounts.CreateChild | server/src/main/kotlin/com/bugdigger/piggybank/service/AccountService.kt:351-353 | one pass of the children loop: the child's subtree goes in |
| DefaultAccounts.ChildFits | server/src/main/kotlin/com/bugdigger/piggybank/data/tables/Accounts.kt:71 | the next child's ids are free and no inserted sibling has its name |
| DefaultAccounts.ChildIdsFit | server/src/main/kotlin/com/bugdigger/piggybank/service/AccountService.kt:351-353 | the child's ids lie within the parent's |
| DefaultAccounts.ChildStep | server/src/main/kotlin/com/bugdigger/piggybank/service/AccountService.kt:351-353 | inserting one child's subtree keeps the loop's invariant |
| DefaultAccounts.StepTable | server/src/main/kotlin/com/bugdigger/piggybank/service/AccountService.kt:351-353 | the table grows by that sibling's rows |
| DefaultAccounts.StepFresh | server/src/main/kotlin/com/bugdigger/piggybank/service/AccountService.kt:351-353 | after one child's subtree, the parent row is untouched, the later ids are free, and the later siblings' names are free |
| DefaultAccounts.SubtreeFresh | server/src/main/kotlin/com/bugdigger/piggybank/service/AccountService.kt:331-354 | inserting one subtree's rows keeps the ids after its own unused |
| DefaultAccounts.CreateDefaultAccounts | server/src/main/kotlin/com/bugdigger/piggybank/service/AccountService.kt:284-358 | inserts exactly `ChartRows` on top of the old table and keeps `Valid()` |
| DefaultAccounts.RootFits | server/src/main/kotlin/com/bugdigger/piggybank/data/tables/Accounts.kt:71 | the next root's ids are free; roots never clash by name, since the index does not compare null parents |
| DefaultAccounts.RootStep | server/src/main/kotlin/com/bugdigger/piggybank/service/AccountService.kt:356 | inserting one root's subtree keeps the loop's invariant |
| DefaultAccounts.ChartRows | server/src/main/kotlin/com/bugdigger/piggybank/service/AccountService.kt:284-358 | twenty-four rows, one per id, all the user's; roots named by their bare names and every other account `parent:name` |
| UserService.RegistrationFailure | server/src/main/kotlin/com/bugdigger/piggybank/service/UserService.kt:124-143 | blank username, then length below 3, then above 50, then characters outside `[a-zA-Z0-9_]`, then a password under 8, then an e-mail without '@'; passes exactly when none applies |
| UserService.InvalidIsBadRequest | server/src/main/kotlin/com/bugdigger/piggybank/service/UserService.kt:125-143 | every registration check fails as a bad request |
| UserService.TakenIsConflict | server/src/main/kotlin/com/bugdigger/piggybank/service/UserService.kt:25-42 | a username or e-mail already in use is a conflict |
| UserService.AcceptedUsername | server/src/main/kotlin/com/bugdigger/piggybank/service/UserService.kt:128-137 | an accepted username is 3 to 50 ASCII word characters, none of them whitespace |
| UserService.AsciiLength | server/src/main/kotlin/com/bugdigger/piggybank/service/UserService.kt:128-133 | for ASCII text `String.length` is the number of characters |
| UserService.BlankNeverWordOnly | server/src/main/kotlin/com/bugdigger/piggybank/service/UserService.kt:125-137 | a blank name is never word-only, so the blank check only decides which message a bad name gets |
| UserService.TakenFailure | server/src/main/kotlin/com/bugdigger/piggybank/service/UserService.kt:25-42 | the username first, then the e-mail when given; passes exactly when both are free |
| UserService.InsertKeepsUsers | server/src/main/kotlin/com/bugdigger/piggybank/data/tables/Users.kt:10-11 | adding a user whose username and e-mail are free keeps both unique |
| UserService.Register | server/src/main/kotlin/com/bugdigger/piggybank/service/UserService.kt:21-74 | fails exactly on a registration check or a taken name and then changes nothing; otherwise adds the user and the default chart; keeps `Valid()` |
| UserService.Login | server/src/main/kotlin/com/bugdigger/piggybank/service/UserService.kt:80-106 | succeeds exactly when a user has that username and its hash accepts the password; every failure is the same `InvalidCredentials` |
| UserService.GetUserById | server/src/main/kotlin/com/bugdigger/piggybank/service/UserService.kt:109-122 | the user with that id, or nothing; an unreadable id is an internal error |
| ApiResults.SuccessXorError | shared/src/commonMain/kotlin/com/bugdigger/piggybank/data/api/ApiResult.kt:10-11 | exactly one of `isSuccess` and `isError` holds |
| ApiResults.GetOrNull | shared/src/commonMain/kotlin/com/bugdigger/piggybank/data/api/ApiResult.kt:13-16 | the data exactly when the call succeeded |
| ApiResults.GetOrThrow | shared/src/commonMain/kotlin/com/bugdigger/piggybank/data/api/ApiResult.kt:18-21 | the data, or an `ApiException` with the error's message and code |
| ApiResults.Map | shared/src/commonMain/kotlin/com/bugdigger/piggybank/data/api/ApiResult.kt:23-26 | maps the data; an error passes through unchanged |
| ApiResults.OnSuccess | shared/src/commonMain/kotlin/com/bugdigger/piggybank/data/api/ApiResult.kt:28-31 | returns the receiver, and runs its action with the data exactly on success |
| ApiResults.OnError | shared/src/commonMain/kotlin/com/bugdigger/piggybank/data/api/ApiResult.kt:33-36 | returns the receiver, and runs its action with the message exactly on error |
| ApiResults.MapIdentity | shared/src/commonMain/kotlin/com/bugdigger/piggybank/data/api/ApiResult.kt:23-26 | `map` with the identity changes nothing |
| ApiResults.MapCompose | shared/src/commonMain/kotlin/com/bugdigger/piggybank/data/api/ApiResult.kt:23-26 | mapping twice is mapping once with the composed function |
| ApiResults.MapGetOrNull | shared/src/commonMain/kotlin/com/bugdigger/piggybank/data/api/ApiResult.kt:13-26 | reading a mapped result is mapping the read value |
| ApiResults.OneActionRuns | shared/src/commonMain/kotlin/com/bugdigger/piggybank/data/api/ApiResult.kt:28-36 | for every result exactly one of the two actions runs |
| AccountTreeView.FlattenTree | composeApp/src/commonMain/kotlin/com/bugdigger/piggybank/ui/components/AccountTreeView.kt:267-290 | the loop equals the pre-order walk that enters only expanded nodes, with roots at `depth` and each child one deeper |
| AccountTreeView.RowsShape | composeApp/src/commonMain/kotlin/com/bugdigger/piggybank/ui/components/AccountTreeView.kt:274-287 | every row is at least as deep as its level, and its `hasChildren` says whether its node has children, expanded or not |
| AccountTreeView.RowsAtOwnDepth | composeApp/src/commonMain/kotlin/com/bugdigger/piggybank/ui/components/AccountTreeView.kt:276-286 | a node's rows hold exactly one row at its level: the node itself, first |
| AccountTreeView.RootsAlwaysShown | composeApp/src/commonMain/kotlin/com/bugdigger/piggybank/ui/components/AccountTreeView.kt:274-287 | the rows at the top level are exactly the roots, in order, whatever is expanded |
| AccountTreeView.CollapsedShowsRoots | composeApp/src/commonMain/kotlin/com/bugdigger/piggybank/ui/components/AccountTreeView.kt:284-286 | with nothing expanded the rows are exactly the roots, at the top level |
| AccountTreeView.ShownAtMostAll | composeApp/src/commonMain/kotlin/com/bugdigger/piggybank/ui/components/AccountTreeView.kt:267-290 | at most every node is shown |
| AccountTreeView.ExpandedShowsAll | composeApp/src/commonMain/kotlin/com/bugdigger/piggybank/ui/components/AccountTreeView.kt:267-290 | with every id expanded every node is shown, once |
| AccountsViewModel.Toggle | composeApp/src/commonMain/kotlin/com/bugdigger/piggybank/ui/viewmodel/AccountsViewModel.kt:48-57 | adds an absent id or removes a present one, and keeps every other id |
| AccountsViewModel.ToggleTwice | composeApp/src/commonMain/kotlin/com/bugdigger/piggybank/ui/viewmodel/AccountsViewModel.kt:48-57 | toggling an id twice restores the set |
| AccountsViewModel.RootIds | composeApp/src/commonMain/kotlin/com/bugdigger/piggybank/ui/viewmodel/AccountsViewModel.kt:35-36 | the ids of exactly the roots |
| AccountsViewModel.ExpandAllShowsEverything | composeApp/src/commonMain/kotlin/com/bugdigger/piggybank/ui/viewmodel/AccountsViewModel.kt:59-62 | after `expandAll` every account is shown |
| AccountsViewModel.CollapseAllShowsRoots | composeApp/src/commonMain/kotlin/com/bugdigger/piggybank/ui/viewmodel/AccountsViewModel.kt:64-66 | after `collapseAll` only the roots are shown |
| AccountsViewModel.AccountsViewModel.constructor | composeApp/src/commonMain/kotlin/com/bugdigger/piggybank/ui/viewmodel/AccountsViewModel.kt:12-17 | not loading, no accounts, nothing expanded, no error |
| AccountsViewModel.AccountsViewModel.LoadAccounts | composeApp/src/commonMain/kotlin/com/bugdigger/piggybank/ui/viewmodel/AccountsViewModel.kt:26-46 | success replaces the forest and expands the roots when nothing was expanded; failure keeps forest and expansion and shows the message; loading ends either way |
| AccountsViewModel.AccountsViewModel.ToggleExpanded | composeApp/src/commonMain/kotlin/com/bugdigger/piggybank/ui/viewmodel/AccountsViewModel.kt:48-57 | the expanded set becomes `Toggle` of the old one; nothing else changes |
| AccountsViewModel.AccountsViewModel.ExpandAll | composeApp/src/commonMain/kotlin/com/bugdigger/piggybank/ui/viewmodel/AccountsViewModel.kt:59-62 | the expanded set becomes every id of the forest; nothing else changes |
| AccountsViewModel.AccountsViewModel.CollapseAll | composeApp/src/commonMain/kotlin/com/bugdigger/piggybank/ui/viewmodel/AccountsViewModel.kt:64-66 | the expanded set becomes empty; nothing else changes |
| AccountsViewModel.AccountsViewModel.CollectAllAccountIds | composeApp/src/commonMain/kotlin/com/bugdigger/piggybank/ui/viewmodel/AccountsViewModel.kt:68-76 | returns every id of the forest at any depth |
| AccountsViewModel.AccountsViewModel.Collect | composeApp/src/commonMain/kotlin/com/bugdigger/piggybank/ui/viewmodel/AccountsViewModel.kt:70-73 | adds the node's id and every id below it |
| AccountsViewModel.AccountsViewModel.ClearError | composeApp/src/commonMain/kotlin/com/bugdigger/piggybank/ui/viewmodel/AccountsViewModel.kt:78-80 | the error becomes null; nothing else changes |
| AccountRegisterView.Fresh | composeApp/src/commonMain/kotlin/com/bugdigger/piggybank/ui/components/AccountRegister.kt:85-87 | the reset row: today's date and every other field empty |
| AccountRegisterView.FreshInvalid | composeApp/src/commonMain/kotlin/com/bugdigger/piggybank/ui/components/AccountRegister.kt:42-46 | a reset row is never valid |
| AccountRegisterView.SignedAmount | composeApp/src/commonMain/kotlin/com/bugdigger/piggybank/ui/components/AccountRegister.kt:96-100 | the deposit when it is not blank, else the withdrawal behind a minus sign |
| AccountRegisterView.WithdrawalNegated | composeApp/src/commonMain/kotlin/com/bugdigger/piggybank/ui/components/AccountRegister.kt:96-100 | an unsigned withdrawal is sent as its negation, and parses exactly when the withdrawal does |
| AccountRegisterView.Request | composeApp/src/commonMain/kotlin/com/bugdigger/piggybank/ui/components/AccountRegister.kt:103-114 | the transfer request of a valid row, in "USD", with the number only when it is not blank |
| AccountRegisterView.Column | composeApp/src/commonMain/kotlin/com/bugdigger/piggybank/ui/components/AccountRegister.kt:52-54 | the cells in left-to-right order, DATE to WITHDRAWAL |
| AccountRegisterView.NextMovesRight | composeApp/src/commonMain/kotlin/com/bugdigger/piggybank/ui/components/AccountRegister.kt:124-140 | Tab moves one column right, and ends editing only from WITHDRAWAL; no cell stays no cell |
| AccountRegisterView.PreviousMovesLeft | composeApp/src/commonMain/kotlin/com/bugdigger/piggybank/ui/components/AccountRegister.kt:142-152 | Shift-Tab moves one column left, and ends editing only from DATE |
| AccountRegisterView.TabRoundTrip | composeApp/src/commonMain/kotlin/com/bugdigger/piggybank/ui/components/AccountRegister.kt:124-152 | Shift-Tab undoes Tab from DATE to DEPOSIT; Tab undoes Shift-Tab from NUM to WITHDRAWAL |
| AccountRegisterView.NewRowEditor.constructor | composeApp/src/commonMain/kotlin/com/bugdigger/piggybank/ui/components/AccountRegister.kt:84-90 | the reset row, no cell focused, the row not selected |
| AccountRegisterView.NewRowEditor.SaveNewTransaction | composeApp/src/commonMain/kotlin/com/bugdigger/piggybank/ui/components/AccountRegister.kt:92-122 | an invalid row changes nothing and sends nothing; a valid one is sent as `Request` and the row is reset |
| AccountRegisterView.NewRowEditor.MoveToNextCell | composeApp/src/commonMain/kotlin/com/bugdigger/piggybank/ui/components/AccountRegister.kt:124-140 | Tab, sending a valid row when it leaves the last cell |
| AccountRegisterView.NewRowEditor.MoveToPreviousCell | composeApp/src/commonMain/kotlin/com/bugdigger/piggybank/ui/components/AccountRegister.kt:142-152 | Shift-Tab; the row is unchanged |
| AccountRegisterView.NewRowEditor.CancelEdit | composeApp/src/commonMain/kotlin/com/bugdigger/piggybank/ui/components/AccountRegister.kt:154-158 | the row is reset and loses focus |
| AccountRegisterView.NewRowEditor.OnCellClick | composeApp/src/commonMain/kotlin/com/bugdigger/piggybank/ui/components/AccountRegister.kt:281-285 | the row is selected and the cell focused |
| AccountRegisterView.NewRowEditor.OnDateChange | composeApp/src/commonMain/kotlin/com/bugdigger/piggybank/ui/components/AccountRegister.kt:286 | only the date changes |
| AccountRegisterView.NewRowEditor.OnNumChange | composeApp/src/commonMain/kotlin/com/bugdigger/piggybank/ui/components/AccountRegister.kt:287 | only the number changes |
| AccountRegisterView.NewRowEditor.OnDescriptionChange | composeApp/src/commonMain/kotlin/com/bugdigger/piggybank/ui/components/AccountRegister.kt:288 | only the description changes |
| AccountRegisterView.NewRowEditor.OnTransferChange | composeApp/src/commonMain/kotlin/com/bugdigger/piggybank/ui/components/AccountRegister.kt:289-294 | only the transfer account's id and name change |
| AccountRegisterView.NewRowEditor.OnDepositChange | composeApp/src/commonMain/kotlin/com/bugdigger/piggybank/ui/components/AccountRegister.kt:295-297 | the deposit is set and the withdrawal cleared |
| AccountRegisterView.NewRowEditor.OnWithdrawalChange | composeApp/src/commonMain/kotlin/com/bugdigger/piggybank/ui/components/AccountRegister.kt:298-300 | the withdrawal is set and the deposit cleared |
| AccountRegisterView.EditsKeepOneAmount | composeApp/src/commonMain/kotlin/com/bugdigger/piggybank/ui/components/AccountRegister.kt:286-300 | every edit keeps at most one amount filled in, starting from the reset row |
| AccountRegisterView.PreorderPostable | composeApp/src/commonMain/kotlin/com/bugdigger/piggybank/ui/components/AccountRegister.kt:648-654 | the walk offers exactly the non-placeholder accounts |
| AccountRegisterView.PreorderOffersPostable | composeApp/src/commonMain/kotlin/com/bugdigger/piggybank/ui/components/AccountRegister.kt:648-654 | every choice the walk offers is a non-placeholder account |
| AccountRegisterView.PostableOffered | composeApp/src/commonMain/kotlin/com/bugdigger/piggybank/ui/components/AccountRegister.kt:648-654 | every non-placeholder account is offered by the walk |
| AccountRegisterView.PreorderSnoc | composeApp/src/commonMain/kotlin/com/bugdigger/piggybank/ui/components/AccountRegister.kt:656 | the walk over roots is the walk over all but the last root, then that root's own walk |
| AccountRegisterView.Traverse | composeApp/src/commonMain/kotlin/com/bugdigger/piggybank/ui/components/AccountRegister.kt:648-654 | appends the node's choice when it is not a placeholder, then its children's choices, depth first |
| AccountRegisterView.SortByName | composeApp/src/commonMain/kotlin/com/bugdigger/piggybank/ui/components/AccountRegister.kt:657 | the result is sorted by full name and has the same elements as the input |
| AccountRegisterView.FlattenAccountsForDropdown | composeApp/src/commonMain/kotlin/com/bugdigger/piggybank/ui/components/AccountRegister.kt:643-658 | the pre-order walk over non-placeholder accounts, sorted by full name |
| AccountRegisterView.Excluding | composeApp/src/commonMain/kotlin/com/bugdigger/piggybank/ui/components/AccountRegister.kt:73-76 | the choices other than the open account: an element is kept exactly when its id differs, sorted input stays sorted, and the filter splits over concatenation, so the kept choices stay in order |
| AccountRegisterView.ExcludingAppend | composeApp/src/commonMain/kotlin/com/bugdigger/piggybank/ui/components/AccountRegister.kt:73-76 | filtering a concatenation is the concatenation of the filtered parts, the property that keeps the choices in order |
| AccountRegisterView.DropdownOffers | composeApp/src/commonMain/kotlin/com/bugdigger/piggybank/ui/components/AccountRegister.kt:73-76 | the offered accounts are sorted by full name and are exactly the non-placeholder accounts other than the open one |
| AccountRegisterView.ReconcileSymbol | composeApp/src/commonMain/kotlin/com/bugdigger/piggybank/ui/components/AccountRegister.kt:416-421 | "n", "c" or "y" for NEW, CLEARED and RECONCILED; "n" for anything else |
| AccountRegisterView.ReconcileSymbolAgrees | composeApp/src/commonMain/kotlin/com/bugdigger/piggybank/ui/components/AccountRegister.kt:416-421 | for every status the server sends, the register shows the shared enum's symbol |
| AccountRegisterView.UnknownShowsNew | composeApp/src/commonMain/kotlin/com/bugdigger/piggybank/ui/components/AccountRegister.kt:420 | strings that name no status show as new |
| RegisterViewModel.TransferSplits | composeApp/src/commonMain/kotlin/com/bugdigger/piggybank/ui/viewmodel/RegisterViewModel.kt:136-152 | two splits in one currency: the open account with the amount as typed, the transfer account with the parsed amount negated and printed |
| RegisterViewModel.TransferBalances | composeApp/src/commonMain/kotlin/com/bugdigger/piggybank/ui/viewmodel/RegisterViewModel.kt:136-152 | whenever its ids and currency read, the transfer passes the service's splits rule and its stored amounts balance |
| RegisterViewModel.TransferPostings | composeApp/src/commonMain/kotlin/com/bugdigger/piggybank/ui/viewmodel/RegisterViewModel.kt:136-152 | the two splits are well formed and read as the typed amount on the open account and its negation on the transfer account, in one currency |
| RegisterViewModel.TransferGroupSums | composeApp/src/commonMain/kotlin/com/bugdigger/piggybank/ui/viewmodel/RegisterViewModel.kt:148 | an amount and its negation in one currency make every group sum zero |
| RegisterViewModel.TransferStoredSums | composeApp/src/commonMain/kotlin/com/bugdigger/piggybank/ui/viewmodel/RegisterViewModel.kt:148 | an amount and its negation in one currency also sum to zero once stored |
| RegisterViewModel.Loaded | composeApp/src/commonMain/kotlin/com/bugdigger/piggybank/ui/viewmodel/RegisterViewModel.kt:41-65 | success shows the response's account, entries and balances; failure keeps the register and shows the message; loading ends |
| RegisterViewModel.FailedLoadKeepsRegister | composeApp/src/commonMain/kotlin/com/bugdigger/piggybank/ui/viewmodel/RegisterViewModel.kt:58-63 | a failed load keeps the register shown, apart from the requested id |
| RegisterViewModel.LoadIdempotent | composeApp/src/commonMain/kotlin/com/bugdigger/piggybank/ui/viewmodel/RegisterViewModel.kt:47-57 | loading the same successful response twice is loading it once |
| RegisterViewModel.ToggledIds | composeApp/src/commonMain/kotlin/com/bugdigger/piggybank/ui/viewmodel/RegisterViewModel.kt:76-80 | the id flipped, every other id kept |
| RegisterViewModel.RegisterViewModel.constructor | composeApp/src/commonMain/kotlin/com/bugdigger/piggybank/ui/viewmodel/RegisterViewModel.kt:17-32 | the default state |
| RegisterViewModel.RegisterViewModel.LoadRegister | composeApp/src/commonMain/kotlin/com/bugdigger/piggybank/ui/viewmodel/RegisterViewModel.kt:41-65 | the state becomes `Loaded` of the old one |
| RegisterViewModel.RegisterViewModel.SelectEntry | composeApp/src/commonMain/kotlin/com/bugdigger/piggybank/ui/viewmodel/RegisterViewModel.kt:67-69 | only the selection changes |
| RegisterViewModel.RegisterViewModel.ToggleExpandTransaction | composeApp/src/commonMain/kotlin/com/bugdigger/piggybank/ui/viewmodel/RegisterViewModel.kt:71-87 | flips the id; asks for details exactly when expanding an id with no cached details |
| RegisterViewModel.RegisterViewModel.BeginTransactionDetails | composeApp/src/commonMain/kotlin/com/bugdigger/piggybank/ui/viewmodel/RegisterViewModel.kt:91-93 | the id is marked as loading |
| RegisterViewModel.RegisterViewModel.FinishTransactionDetails | composeApp/src/commonMain/kotlin/com/bugdigger/piggybank/ui/viewmodel/RegisterViewModel.kt:97-107 | the id stops loading either way; success caches the transaction, failure shows the message |
| RegisterViewModel.RegisterViewModel.LoadTransactionDetails | composeApp/src/commonMain/kotlin/com/bugdigger/piggybank/ui/viewmodel/RegisterViewModel.kt:89-109 | after success the splits are cached and the id is not loading |
| RegisterViewModel.RegisterViewModel.GetTransactionSplits | composeApp/src/commonMain/kotlin/com/bugdigger/piggybank/ui/viewmodel/RegisterViewModel.kt:111-113 | the cached transaction's splits, or nothing |
| RegisterViewModel.RegisterViewModel.CreateSimpleTransaction | composeApp/src/commonMain/kotlin/com/bugdigger/piggybank/ui/viewmodel/RegisterViewModel.kt:119-166 | no open account: nothing happens; an unreadable amount leaves loading on and sends nothing; otherwise sends `TransferSplits`, reloads on success and shows the message on failure |
| RegisterViewModel.RegisterViewModel.ClearError | composeApp/src/commonMain/kotlin/com/bugdigger/piggybank/ui/viewmodel/RegisterViewModel.kt:168-170 | the error becomes null; nothing else changes |
| RegisterViewModel.RegisterViewModel.Clear | composeApp/src/commonMain/kotlin/com/bugdigger/piggybank/ui/viewmodel/RegisterViewModel.kt:172-174 | back to the default state |
| MainTabs.IndexOf | composeApp/src/commonMain/kotlin/com/bugdigger/piggybank/ui/screens/MainScreen.kt:70 | the index of the first tab with the id, or none when no tab has it |
| MainTabs.Without | composeApp/src/commonMain/kotlin/com/bugdigger/piggybank/ui/screens/MainScreen.kt:71 | the strip with the tabs of that id removed, never longer |
| MainTabs.WithoutMembers | composeApp/src/commonMain/kotlin/com/bugdigger/piggybank/ui/screens/MainScreen.kt:71 | the tabs left are exactly those whose id differs |
| MainTabs.WithoutUnique | composeApp/src/commonMain/kotlin/com/bugdigger/piggybank/ui/screens/MainScreen.kt:71 | removing the only tab with an id leaves the others in order |
| MainTabs.Opened | composeApp/src/commonMain/kotlin/com/bugdigger/piggybank/ui/screens/MainScreen.kt:54-64 | activates the existing tab of that account, or appends one and activates it |
| MainTabs.AppendValid | composeApp/src/commonMain/kotlin/com/bugdigger/piggybank/ui/screens/MainScreen.kt:60-62 | a register tab with a new id can be appended and shown |
| MainTabs.OpenedValid | composeApp/src/commonMain/kotlin/com/bugdigger/piggybank/ui/screens/MainScreen.kt:54-64 | opening keeps the strip valid and never duplicates an id |
| MainTabs.ClosedValid | composeApp/src/commonMain/kotlin/com/bugdigger/piggybank/ui/screens/MainScreen.kt:66-81 | closing keeps the Accounts tab first, ids distinct, and the active id a tab's |
| MainTabs.CloseEffect | composeApp/src/commonMain/kotlin/com/bugdigger/piggybank/ui/screens/MainScreen.kt:70-80 | closing removes exactly that tab; closing the active tab shows the tab before it |
| MainTabs.CloseRefused | composeApp/src/commonMain/kotlin/com/bugdigger/piggybank/ui/screens/MainScreen.kt:67-68 | closing the Accounts tab or an unknown id changes nothing |
| MainTabs.CloseUndoesOpen | composeApp/src/commonMain/kotlin/com/bugdigger/piggybank/ui/screens/MainScreen.kt:54-81 | opening a new register and closing it restores the strip |
| MainTabs.TabStrip.constructor | composeApp/src/commonMain/kotlin/com/bugdigger/piggybank/ui/screens/MainScreen.kt:43-44 | only the Accounts tab, and it is active |
| MainTabs.TabStrip.OpenAccountRegister | composeApp/src/commonMain/kotlin/com/bugdigger/piggybank/ui/screens/MainScreen.kt:54-64 | the strip and active id become `Opened` of the old ones |
| MainTabs.TabStrip.CloseTab | composeApp/src/commonMain/kotlin/com/bugdigger/piggybank/ui/screens/MainScreen.kt:66-81 | the strip and active id become those of the close, keeping the strip valid |
| Navigation.Forward | composeApp/src/commonMain/kotlin/com/bugdigger/piggybank/ui/navigation/AppState.kt:58-63 | shows the screen, pushing the current one only when it differs |
| Navigation.Back | composeApp/src/commonMain/kotlin/com/bugdigger/piggybank/ui/navigation/AppState.kt:65-72 | on an empty stack returns false and changes nothing; otherwise pops the last screen and returns true |
| Navigation.BackUndoesForward | composeApp/src/commonMain/kotlin/com/bugdigger/piggybank/ui/navigation/AppState.kt:58-72 | going back undoes a navigation that moved |
| Navigation.ForwardToCurrent | composeApp/src/commonMain/kotlin/com/bugdigger/piggybank/ui/navigation/AppState.kt:59 | navigating to the screen on show changes nothing |
| Navigation.ForwardExtendsHistory | composeApp/src/commonMain/kotlin/com/bugdigger/piggybank/ui/navigation/AppState.kt:58-63 | a navigation that moves adds one screen to the history and keeps the rest |
| Navigation.AppState.constructor | composeApp/src/commonMain/kotlin/com/bugdigger/piggybank/ui/navigation/AppState.kt:32-56 | the login screen, signed out, empty back-stack, nothing cached |
| Navigation.AppState.NavigateTo | composeApp/src/commonMain/kotlin/com/bugdigger/piggybank/ui/navigation/AppState.kt:58-63 | the screen and stack become `Forward` of the old ones |
| Navigation.AppState.NavigateBack | composeApp/src/commonMain/kotlin/com/bugdigger/piggybank/ui/navigation/AppState.kt:65-72 | the result, screen and stack are `Back` of the old ones |
| Navigation.AppState.ClearNavigationStack | composeApp/src/commonMain/kotlin/com/bugdigger/piggybank/ui/navigation/AppState.kt:74-76 | the stack becomes empty |
| Navigation.AppState.SetAuthenticated | composeApp/src/commonMain/kotlin/com/bugdigger/piggybank/ui/navigation/AppState.kt:78-85 | stores the token for the state and the API client, stores the user, signs in, clears the stack and shows the dashboard |
| Navigation.AppState.Logout | composeApp/src/commonMain/kotlin/com/bugdigger/piggybank/ui/navigation/AppState.kt:87-96 | back to the signed-out state with nothing cached |
| Navigation.AppState.ShowError | composeApp/src/commonMain/kotlin/com/bugdigger/piggybank/ui/navigation/AppState.kt:98-100 | the error message is set |
| Navigation.AppState.ClearError | composeApp/src/commonMain/kotlin/com/bugdigger/piggybank/ui/navigation/AppState.kt:102-104 | the error message is cleared |

## Left out

- HTTP routing, JWT issue and check, and bcrypt are not modelled.
  - `UserService.Login` takes the password check as a function parameter.
  - The services take the user id as an already-read UUID.
  - `UserService.Register` and `UserService.Login` return the user id and name in place of the signed token.
- Clocks, random UUIDs and `getTodayDate` are inputs. The current time,
  the fresh identifiers and today's date are parameters of the
  operations that use them.
- Database transactions are all-or-nothing in the model, and there is
  no concurrency. The ordering of rows with equal sort keys, which the
  database leaves open, is fixed by a scan order given as a parameter.
- `varchar` length limits on account names and full names,
  descriptions, memos and `users.email` (255) are not checked. The
  amount column's 19-digit precision is checked; its scale is rounded.
- `UserService.Register`: an e-mail longer than 255 characters is
  accepted. The source's insert fails on it, an internal error (500).
  The username's 50-character limit is checked by the service itself,
  and that check is modelled.
- `TransactionList.ListTransactions`: `count().toInt()` is taken as
  exact. It cannot wrap below 2^31 rows.
- `TransactionList.ListTransactions`: a negative `pageSize`, or an
  offset that comes out negative in 32-bit `Int` (page 3 of size 2^30,
  say), is modelled as the database's refusal, an internal error.
- `getAccounts` and `getAccount` are not modelled. They are plain reads
  with no rule of their own.
- Client rendering, colours, currency formatting and floating-point
  display are not modelled. So are the coroutine scheduling of the view
  models and the interleaving of two API calls in flight. Each call is
  one step.
- `RegisterViewModel.RegisterViewModel.CreateSimpleTransaction`:
  `toBigDecimalOrNull` is modelled as `BigDecimal(String)`. The
  transfer currency is the one the register passes, always "USD".
- `AccountRegisterView.SortByName`: the contract states that the result
  is sorted and has the same elements. The stability of `sortedBy` among
  equal full names is not stated.
- `AccountRegisterView.NewRowEditor.SaveNewTransaction`: the network
  call itself is left out. The method returns the request it would send.
- `Text.Upper`: characters whose upper-case form is not ASCII are kept
  as they are. Such characters can never spell an enum name, so no
  accept or refuse decision depends on them.
- `Dates.ParseDate`: only four-digit years are accepted. `LocalDate.parse`
  also reads signed years, such as "+10000-01-01" or "-0001-01-01",
  which no client sends.
- `Uuid.ParseUuid`: reads ASCII hexadecimal digits only.
  `Character.digit`, which `Long.parseLong` uses, also accepts other
  Unicode digits and full-width letters.
- `Decimal.ParseDecimal`: reads ASCII digits only. `BigDecimal(String)`
  also accepts other Unicode decimal digits, such as Arabic-Indic ones.
- `AccountService.NamesakesAtMostOne`: covers a non-root parent only.
  Two roots of one user can share a name, because the index treats null
  parents as distinct and `updateAccount` makes no sibling check; the
  model's `SiblingIndex` is likewise stated for non-root siblings.
- `SplitValidation.ValidateTransaction`: checks the splits with the
  corrected rule `ValidateStoredSplits`, not `validateSplits` as written
  (`ValidateSplits`). It refuses, with Unbalanced, requests whose
  amounts have more than four decimals and whose stored amounts do not
  add up to zero, such as 0.00005 + 0.00005 - 0.0001 USD; the source
  accepts them. Elsewhere the two rules agree (`StoredAgrees`).
- `TransactionService.CreateFailure`: inherits the corrected splits rule
  of `ValidateTransaction`, so it refuses the requests named there.
- `TransactionService.CreateTransaction`: fails with Unbalanced on those
  requests, where the source stores an unbalanced transaction (201).
  Its keeping of `Valid()` holds of the corrected service only.
- `TransactionService.CreateKeepsLedger`: holds because of the stored-sum
  check the source does not make. As written, creating a transaction
  can break the `Balanced` part of the ledger invariant.
- `TransactionService.UpdateFailure`: checks supplied splits with the
  corrected rule, so it refuses the split updates named under
  `ValidateTransaction`.
- `TransactionService.UpdateTransaction`: fails on those split updates,
  where the source writes them. Its keeping of `Valid()` holds of the
  corrected service only.
- `TransactionService.UpdateKeepsLedger`: holds because of the stored-sum
  check the source does not make, as for `CreateKeepsLedger`.
- Fields of the shared request and response models that no modelled
  operation reads are not modelled.

## Findings

| source | as written | input that shows it | evidently intended | confidence | as-written member | corrected member |
|---|---|---|---|---|---|---|
| server/src/main/kotlin/com/bugdigger/piggybank/service/TransactionService.kt:524-534 | every currency group of the request must sum to zero at full precision, but the amounts are then stored rounded to four decimals (`decimal(19, 4)`, server/src/main/kotlin/com/bugdigger/piggybank/data/tables/Splits.kt:38) | three USD splits 0.00005, 0.00005 and -0.0001: the request sums to zero, while the stored rows 0.0001, 0.0001 and -0.0001 sum to 0.0001 | the stored splits of every transaction balance in each currency | not executed | SplitValidation.RoundingImbalance | SplitValidation.ValidateStoredSplits |
| server/src/main/kotlin/com/bugdigger/piggybank/service/TransactionService.kt:141 | the offset `((page - 1) * pageSize).toLong()` multiplies in 32-bit `Int` before widening | page 65537 with pageSize 65536: the product 2^32 wraps to offset 0, so the first page is returned again | the offset computed in 64 bits, giving an empty page past the end | not executed | TransactionList.FarPageRepeatsFirst | TransactionList.PagesCover |
