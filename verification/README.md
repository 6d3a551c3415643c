# treasuryflow ledger model

This is a Dafny model of the ledger behind treasuryflow, a small personal-finance web app. Users register and log in. They set up money accounts (cash, e-wallets, banks) from a fixed catalog, record income and expense transactions against those accounts, and read a dashboard that shows:

- each account's balance;
- the total of all balances;
- three expense figures: lifetime, today, and a window ending today.

The relational store (users, accounts, transactions) is an immutable `Schema.Store`. Each table is a sequence in insertion order, and each table has its AUTOINCREMENT counter. Every request handler of the core is a pure function. A handler that mutates the store takes the store and returns a `Result` holding the new store or the error the handler reports. `Schema.Valid` collects the table constraints plus one invariant: every transaction names an account of its own user. The lemmas show that every mutating operation preserves `Schema.Valid`.

Modules:

- `Text`: counting characters, the BINARY-collation order of two texts, and parsing of id strings.
- `Storage`: what the transactions table's `date` column holds and how SQLite compares it. The column is declared `DATE`, which gives it NUMERIC affinity. A date text that is a well-formed numeric literal, such as "2024", is stored as a number; any other text, such as "2024-01-05", is stored as text. Numbers sort before every text, numbers compare by value, and texts compare in BINARY order. A text bound to a query parameter and compared with the column takes the same affinity.
- `AmountText`: the Indonesian amount normalisation. Dots (thousands separators) are removed, then commas (the decimal comma) become points.
- `Schema`: the entities, the error taxonomy and the store invariant.
- `Aggregate`: `COALESCE(SUM(amount), 0)` over filtered transaction rows.
- `Dashboard` and `DashboardLaws`: the balance engine and its laws.
- `Recent`: the filtered, date-ordered list of the latest 25 transactions.
- `Accounts`: account creation, balance edit and deletion.
- `Recorder`: recording a transaction.
- `Users`: registration, login and settings.

Two behaviours of the code are modelled as written:

- The window aggregate sums expenses from the day seven days before today up to today, both ends included. That is eight days (`DashboardLaws.WindowIsEightDays`).
- The delete guard counts only the user's own transactions on the account (app.py:348). The name lookup for the message uses the id alone (app.py:352).

## Model

| member | source | states |
|---|---|---|
| `Text.TextLeTransitive` | app.py:229-231 | The BINARY order in which two stored date texts compare is transitive. |
| `Text.TextLeTotal` | app.py:229-231 | Any two date texts are comparable in that order. |
| `Text.TextLeAntisymmetric` | app.py:229-231 | Two texts that are each at most the other are equal. |
| `Storage.ValueLeReflexive` | app.py:229-231 | Every stored date lies between itself and itself. |
| `Storage.ValueLeTransitive` | app.py:253 | The order of stored values, numbers before texts, is transitive. |
| `Storage.ValueLeTotal` | app.py:253 | Any two stored values are comparable in that order. |
| `Storage.ValueLeAntisymmetric` | app.py:253 | Two stored values that are each at most the other are equal. |
| `Storage.Affinity` | app.py:103 | A date text is stored as a number exactly when it is a well-formed numeric literal; otherwise it is stored as that same text. |
| `Storage.IsoDateIsText` | app.py:103 | A `YYYY-MM-DD` date is not a numeric literal, so it is stored and compared as text. |
| `Storage.DigitTextIsNumber` | app.py:103 | A non-empty run of digits is stored as the number it spells. |
| `Storage.NumberBeforeIsoDate` | app.py:253 | Every stored number sorts strictly before every stored `YYYY-MM-DD` date. |
| `Storage.IsoDatesCompareAsText` | app.py:229-231 | Two `YYYY-MM-DD` dates compare as stored values exactly as they compare as texts. |
| `Text.ParseId` | app.py:381 | An id string from a form names a row exactly when it is a non-empty run of digits, and the id it names is non-negative. |
| `Text.ParseIdText` | app.py:381 | Reading back the decimal text of any natural id gives that id. |
| `AmountText.Normalize` | app.py:377 | The amount text with both replacements applied in the source's order: dots deleted first, then commas turned into points. `AmountText.NormalizeProperties` states what that yields. |
| `AmountText.StripDots` | app.py:377 | Removing the thousands dots leaves no dot and shortens the text by exactly the number of dots. |
| `AmountText.CommaToPoint` | app.py:377 | Turning decimal commas into points keeps the length. |
| `AmountText.NormalizeProperties` | app.py:377 | After normalisation: no comma is left; the length drops by the number of dots; the number of points equals the original number of commas; every other character occurs as often as before. |
| `AmountText.NormalizePlain` | app.py:446 | A text without dots or commas passes through normalisation unchanged. |
| `AmountText.NormalizeInPlace` | app.py:446 | A one-pass character loop computes the same text as the two chained replacements. |
| `Aggregate.Sum` | app.py:217-220 | The COALESCEd sum is 0 when no row matches. Over positive amounts it is never negative, and it is positive exactly when some row matches. |
| `Aggregate.SumPermutation` | app.py:204-208 | A filtered sum depends only on which rows are stored, not on their order. |
| `Aggregate.SumMonotone` | app.py:223-232 | A filter that admits fewer rows never sums to more, when amounts are positive. |
| `Aggregate.SumRowsOf` | app.py:201-202 | Pre-selecting the user's rows does not change any sum over that user's rows. |
| `Dashboard.Balance` | app.py:199-208 | The reference definition of a balance, from the stored rows alone: the initial balance plus the account's income minus its expenses. |
| `Dashboard.AccountsOf` | app.py:196-197 | The selected account rows are exactly the user's, and their ids stay distinct. |
| `Dashboard.Opening` | app.py:199 | The opening map has a key per listed account id. With distinct ids, each key maps to that account's initial balance. |
| `Dashboard.Post` | app.py:204-208 | The fold over the user's rows finishes exactly when every row names a key of the map, and it keeps the map's keys. |
| `Dashboard.PostEntries` | app.py:204-208 | After the fold over one user's rows, each entry is its start plus the income minus the expenses on that account. |
| `Dashboard.Build` | app.py:196-233 | The dashboard fails exactly when one of the user's rows names an account the user lacks. Otherwise its balance keys are the user's account ids, and each balance is that account's initial balance plus its income minus its expenses. |
| `Dashboard.Total` | app.py:210 | The sum of the balances, one per account row. It is 0 with no accounts and when every balance is 0, and it is never negative when no balance is. |
| `DashboardLaws.TotalBalance` | app.py:210 | On a consistent store the dashboard never fails. Its total is the user's initial balances plus all income minus all expenses. |
| `DashboardLaws.Exchange` | app.py:204-210 | Adding the per-account sums gives the sum over all of the user's rows, when each row names exactly one listed account. |
| `DashboardLaws.NoAccountsAllZero` | app.py:210-233 | A user with no accounts sees a total of 0 and three expense figures of 0. |
| `DashboardLaws.FreshAccountBalance` | app.py:199-208 | An account no row names keeps its initial balance. |
| `DashboardLaws.BalanceOrderIndependent` | app.py:204-208 | Account balances are unchanged by reordering the stored rows. |
| `DashboardLaws.WindowIsEightDays` | app.py:213-232 | When day texts are `YYYY-MM-DD` and sort like days, the window admits a row dated with a day's text exactly when the day lies between seven days before today and today, both ends included: eight days. |
| `DashboardLaws.NumericDateOutsideWindow` | app.py:222-231 | A row whose date is stored as a number, as a numeric-literal date text is, counts neither in today's expense nor in the window's when today and the window's first day are spelled `YYYY-MM-DD`. |
| `DashboardLaws.YearOnlyDate` | app.py:229-231 | A row dated "2024" is stored as the number 2024 and lies outside the window from 2023-12-29 to 2024-01-05. |
| `DashboardLaws.TodayWithinWindow` | app.py:223-232 | Every row counted in today's expense is also counted in the window's. |
| `DashboardLaws.WindowWithinLifetime` | app.py:229-232 | Every row counted in the window's expense is also counted in the lifetime expense. |
| `DashboardLaws.ExpenseOrdering` | app.py:217-233 | Today's expense is at most the window's, and the window's is at most the lifetime expense. |
| `DashboardLaws.OneHit` | app.py:204-208 | A row of a listed account contributes to exactly one per-account sum. |
| `DashboardLaws.TotalSplit` | app.py:210 | A total over accounts whose entries are their balances splits into initial balances, income and expenses. |
| `DashboardLaws.RowsNameListedAccounts` | app.py:201-208 | In a consistent store every row of the user names one of the accounts the dashboard lists. |
| `Accounts.AccountName` | app.py:398-401 | The display name: "Cash" for the cash category, otherwise the category in brackets, a space and the detail. `Accounts.NamesIdentifyEntries` shows that different catalog entries get different names. |
| `Accounts.CatalogKeys` | app.py:328-339 | The catalog has exactly the categories CASH, E-WALLET and BANK. |
| `Accounts.NamesIdentifyEntries` | app.py:395-401 | Two catalog entries get the same display name exactly when they are the same entry. The cash entry's name is its detail. |
| `Accounts.CreateAccount` | app.py:391-411 | Adding fails with InvalidSelection outside the catalog. Within it, adding fails with DuplicateAccount exactly when the user already has that name. On success exactly the new row, with the next id, is appended and nothing else changes. |
| `Accounts.SameNameOtherUser` | app.py:403-404 | Another user's account of the same name does not block creation. |
| `Accounts.CreateKeepsValid` | app.py:96 | Creating an account keeps ids, per-user names and references consistent. |
| `Accounts.SetBalance` | app.py:383-386 | The update keeps the number and order of rows; the row with both the id and the user gets the new initial balance, and every other row is unchanged. |
| `Accounts.EditBalance` | app.py:380-389 | Editing overwrites the initial balance of exactly the row matching both id and user. Ids, owners, names, transactions and counters stay. |
| `Accounts.EditForeignIsNoop` | app.py:383-386 | An edit aimed at an account the user does not own changes nothing. |
| `Accounts.EditKeepsValid` | app.py:383-386 | Editing keeps the store consistent. |
| `Accounts.RefCount` | app.py:347-350 | The count is 0 exactly when no row of the user references the account, and never exceeds the number of rows. |
| `Accounts.NameById` | app.py:352-353 | The name is that of the first row with the id, of any owner, or "Akun" when there is none. |
| `Accounts.Without` | app.py:358 | Deleting removes exactly the rows matching both id and user, and removes nothing when the user has no such account. |
| `Accounts.DeleteAccount` | app.py:345-363 | An id of 0 does nothing. Otherwise deletion fails exactly when the user's rows reference the account; the error carries the count and the looked-up name. On success only the matching row goes. |
| `Accounts.InUseNameIsOwn` | app.py:352-356 | In a consistent store the name in the in-use error is that of the user's own account with that id. |
| `Accounts.DeleteKeepsValid` | app.py:355-360 | A permitted deletion leaves no transaction pointing at a missing account. |
| `Accounts.CreateThenDelete` | app.py:345-411 | Deleting an account right after creating it restores the store, except that the id counter has advanced. |
| `Accounts.DeleteAppended` | app.py:345-360 | Deleting a row whose id no other account and no transaction carries gives back the rows as before. |
| `Accounts.SetupAccount` | app.py:373-414 | A bad amount fails every action, and an unknown action changes nothing. Users and transactions are never touched, and only the three listed errors arise. |
| `Accounts.SetupKeepsValid` | app.py:373-411 | Every successful set-up action keeps the store consistent. |
| `Recorder.KindOf` | app.py:105 | Only the texts "income" and "expense" are admitted as a type. |
| `Recorder.KindTextRoundTrip` | app.py:105 | Every stored type text reads back as the same type. |
| `Recorder.Record` | app.py:441-466 | The checks run in order: an unparsable amount; then a missing field or a non-positive amount; then an account the user does not own; then a type the CHECK constraint refuses. On success one row with the next id, the user's id, the form's description, the form's date as the `DATE` column stores it, and the parsed account, type and positive amount is appended, and every other row and table stays. |
| `Recorder.SmallestAmountAccepted` | app.py:451 | Any positive amount is accepted once the other checks pass. |
| `Recorder.RecordKeepsValid` | app.py:454-462 | Recording keeps the store consistent. |
| `Recorder.AppendTxnKeepsValid` | app.py:459-462 | Appending a positive row with the next id, on an account of its own user, keeps the store consistent. |
| `Recorder.RecordMovesOneBalance` | app.py:204-208 | A recorded row moves the balance of exactly its own account, by plus or minus its amount. |
| `Recorder.AppendMovesOneBalance` | app.py:204-208 | Appending any row moves only the balance of the account and user it names, by plus or minus its amount. |
| `Users.Register` | app.py:142-150 | Registration fails with MissingField exactly when a field is empty. With all fields present, it fails with UsernameTaken exactly when the name is used. On success exactly one user row with the next id is appended. |
| `Users.Login` | app.py:165-166 | Login yields an id exactly when some user has both the username and the password, and the id is that user's. |
| `Users.RegisterKeepsValid` | app.py:85 | Registration keeps user ids and usernames distinct. |
| `Users.LoginAfterRegister` | app.py:142-166 | A freshly registered user logs in with the same credentials and gets the new id. |
| `Users.UpdateFullname` | app.py:282-285 | Changing the full name touches only the user's own row, and only its full name. |
| `Users.FullnameKeepsLogin` | app.py:280-285 | Changing a full name never changes who can log in with which credentials. |
| `Users.UpdateUsername` | app.py:287-294 | The rename is refused exactly when another user has the name. Otherwise only the user's own username changes. |
| `Users.KeepOwnUsername` | app.py:289 | Keeping one's own username is always allowed in a consistent store. |
| `Users.UsernameKeepsValid` | app.py:287-294 | An accepted username change keeps user ids and usernames distinct. |
| `Users.UpdateKeepsValid` | app.py:280-306 | A settings change keeps the store consistent when usernames stay distinct. |
| `Users.UpdateUsers` | app.py:282-306 | A settings update keeps the number and order of user rows; rows with the session user's id get the change, and every other row is unchanged. |
| `Users.FindUser` | app.py:275 | The lookup by id fails exactly when no row has the id, and otherwise returns a row with that id. |
| `Users.UpdatePassword` | app.py:296-309 | A wrong old password and a new password differing from its confirmation are refused, in that order. Otherwise only the user's own password changes. |
| `Users.LoginAfterPasswordChange` | app.py:301-306 | After a password change the user logs in with the new password, and not with a different old one. |
| `Users.PasswordKeepsValid` | app.py:301-306 | An accepted password change keeps the store consistent. |
| `Recent.JoinOne` | app.py:238-240 | The join yields one line per account row carrying the transaction's account id, exactly one when ids are distinct and the account exists, and none when it does not. |
| `Recent.Joined` | app.py:237-251 | The joined and filtered lines, in table order before sorting. `Recent.JoinedMembers` and `Recent.JoinedLength` state which lines and how many. |
| `Recent.JoinedMembers` | app.py:237-251 | A line is listed exactly when some admitted transaction joined with an account of its id produces it. |
| `Recent.JoinedLength` | app.py:237-251 | In a consistent store the join yields exactly one line per admitted row. |
| `Recent.NoRowsNoLines` | app.py:237-251 | A user without transaction rows gets an empty list, whatever the filter arguments. |
| `Recent.InsertDescending` | app.py:253 | Inserting into a list ordered latest-first keeps it ordered. |
| `Recent.SortByDate` | app.py:253 | Sorting is a permutation. |
| `Recent.SortDescending` | app.py:253 | The sorted lines are ordered latest-first by stored date. |
| `Recent.NumbersListedLast` | app.py:253 | In the latest-first order, a line whose date is stored as a number comes after every line whose date is stored as text. |
| `Recent.Latest` | app.py:237-255 | The list holds min(25, admitted) lines, ordered latest-first, all drawn from the admitted lines. |
| `Recent.LatestIsTop` | app.py:253 | Shown and left-out lines together are all the admitted lines. Lines are left out only when 25 are shown, and none of them is later than any shown line. |

## Left out

- Flask routing, redirects, sessions and `login_required`: each handler takes the session user id as a parameter.
- Page templates and message strings: an error is an `Error` value. The in-use error keeps the count and the name it reports.
- SQLite I/O and table creation (app.py:64-116): the store is a value. The table constraints are the `Schema.Valid` invariant. The invariant also requires that every transaction names an account of its own user; the source never declares that requirement, but its handlers keep it.
- `format_rupiah` (app.py:28-55): presentation only.
- `float()` parsing: the parser is a parameter `parse: string -> Option<real>`. Money is `real`, so floating-point rounding, NaN and infinities are not modelled.
- `datetime.now()` and `strftime`: today is a day number, and the formatting is a parameter `fmt`. The window lemmas assume that `fmt` preserves the order of days as text, and that the window's two bounds are spelled `YYYY-MM-DD`.
- Storage.Affinity: INTEGER and REAL values are not told apart, and a number keeps its exact decimal value. SQLite keeps at most 15 significant digits of a REAL and turns an integer too large for 64 bits into a REAL; neither is modelled. Only the comparison of stored values matters to the model, and it depends on the value alone.
- `get_local_ip` and the program entry point (app.py:482-510): network and process start-up.
- Concurrent requests: each operation is one atomic step on the store.
- Logout, and the clearing of the session after a password change: session state is not modelled.
- Missing form keys: every form field is a parameter and is always present. In the source, a missing key in `register`, `login` or `settings` raises werkzeug's `BadRequestKeyError`, which Flask answers with HTTP 400. In `setup_account` and `add_transaction` the lookup sits inside `try`, so `except Exception` (app.py:417-418, 470-471) catches it and the page shows an error message; the store is left unchanged.
- Text.ParseId: it accepts plain digit runs only. The other texts SQLite would coerce to an integer id, such as "+5" or " 5", are treated as naming no row.
- Accounts.DeleteAccount: the id is the already-converted `type=int` query argument. An absent or non-integer argument never reaches the operation.
- Dashboard.Build: the total sums one balance per account row. This equals the sum over the balance map because `Schema.Valid` keeps account ids distinct.
- Recent.SortByDate: SQLite leaves the order of rows with equal dates unspecified. The model fixes one order, and its lemmas promise only date order, so they hold for any tie order.
- The account categories are sorted (app.py:341-342) for the drop-down. The catalog constant holds the sorted lists, and the sort itself is not modelled.
- The balance-fold loop skips a row whose type is neither income nor expense (app.py:207). The CHECK constraint rules such rows out, and `Schema.Kind` has only those two values.
- Source crashes are error values in the model:
  - Users.UpdatePassword: with no row for the session user, the source fails on a missing row (app.py:301). The model reports UserNotFound.
  - Dashboard.Build: a row naming an account the user lacks raises a KeyError (app.py:206). The model reports DanglingTransaction, and `DashboardLaws.TotalBalance` shows this never happens in a consistent store.
