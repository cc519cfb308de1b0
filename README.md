# Sales-commission dashboard: a Dafny model

The system tracks consortium sales made by a team of consultants. Each sale
carries a number of quotas (`cotas`), a unit value, a commission rate and six
monthly installments whose status is paid, pending or late. The project
models three parts of it:

- **The server's arithmetic and request logic** (`server.js`).
  - `parseNum` reads pt-BR formatted numbers.
  - `clampCredito` caps the credit at 1,500,000.
  - `normalizeSaleInput` turns a request body into a sale.
  - A session table answers login, logout and the `auth`/`adminOnly` gates.
  - The POST/PUT/DELETE `/api/sales` handlers decide between 400, 401, 403, 404 and success.
- **The store** (`db.js`), as a class `Store.Db` holding the `{users, sales}` document in memory. It has the seed, find, list, create, update and delete operations.
- **The dashboard's figures** (`public/dashboard.js`).
  - The client copies of `parseNumber`/`clampCredito` and `saleComputed`.
  - The totals that `renderKPIs` accumulates in its loop.
  - The per-consultant grouping and comparator sort of `renderRanking`.
  - The numbers `updatePreview` shows while a sale is typed in.

Modules:

| module | file | models |
|---|---|---|
| `Wrappers` | wrappers.dfy | `Option` |
| `JsValues` | js_values.dfy | JSON values, truthiness (`||`), `String(v)`, `trim` |
| `JsNumber` | js_number.dfy | `Number(text)` on a decimal subset of its grammar |
| `Commission` | commission.dfy | `parseNum`, `clampCredito`, `normalizeSaleInput` |
| `Store` | store.dfy | `db.js` |
| `Server` | server.dfy | sessions, `auth`, `adminOnly`, login/logout, the sales handlers |
| `Dashboard` | dashboard.dfy | `parseNumber`, `clampCredito`, `saleComputed`, `renderKPIs`, `updatePreview` |
| `Ranking` | ranking.dfy | `renderRanking` |

Some modelling choices:

- **Numbers are exact.**
  - A JSON number is a decimal `Num(mantissa, scale)`, and arithmetic is on `real`. The identities below are therefore exact, where the program has double rounding.
  - `Dashboard.Times` writes the product `parcelaValor * count` as repeated addition. `Dashboard.TimesIsProduct` proves that this equals the product.
- **Strings with a fixed set of values become enumerations.** These are `seguro`, `baseComissao`, the installment statuses and the role. On the client a status slot is `Known(status)` or `Unknown`, for any other string.
- **Random ids and the clock are parameters.** This covers the session id, the sale id and the timestamp. A new sale id is required to be absent from the store, which stands in for the freshness of `crypto.randomUUID`.
- **`PUT` validates text only.** The code checks only `cliente`, `produto` and `data`, and does not re-check `cotas > 0` or `valorUnit > 0` as `POST` does. The model follows the code.
- **`PUT`'s ownership check runs after the update.** The transform hands a non-owner's sale back unchanged, so the store is rewritten with the same record before the 403. The model follows the code, and `Server.App.PutSale` proves that the store is then unchanged.
- **`GET /api/me` has no member of its own.** It returns the identity that `Server.App.Auth` resolves.

## Model

| member | source | states |
|---|---|---|
| JsValues.OrElse | server.js:77-79 | `x \|\| fallback` is `x` when `x` is truthy and the fallback otherwise |
| JsValues.Truthy | server.js:77-79 | a value is falsy exactly when it is `undefined`, `null`, `false`, `NaN`, `""` or a zero number |
| JsValues.ToText | server.js:48 | `String(v)` of a string is that string, and of a number is never empty |
| JsValues.Trim | server.js:48 | `trim` never lengthens its input |
| JsValues.TrimPiece | server.js:48 | `trim` returns a contiguous piece of its input |
| JsValues.TrimShape | server.js:48 | what `trim` returns starts and ends with non-white-space, and is empty exactly when the input is all white space |
| JsValues.TrimKeeps | server.js:77-79 | trimming text that already starts and ends with non-white-space gives it back |
| JsNumber.StringToNumber | server.js:49 | `Number` of empty or blank text is 0 |
| JsNumber.NatTextRoundTrip | server.js:48-49 | `Number` reads the decimal text of a whole number (and of its negation) back as that number |
| JsNumber.DigitsRoundTrip | server.js:49 | `Number` of a digit string (optionally with `-`) is its decimal value |
| JsNumber.DecimalRoundTrip | server.js:49 | `Number` of `a.b`, with digits `a` (possibly none) and non-empty digits `b`, is `a + b/10^\|b\|` |
| JsNumber.NoDigitsNoValue | server.js:49-50 | text without any digit is not a finite number, or is 0 (empty or blank) |
| Commission.DropDots | server.js:48 | `replace(/\./g, "")` removes every `.` and keeps every other character |
| Commission.CommaToPoint | server.js:48 | `replace(",", ".")` changes only the first comma, position for position |
| Commission.LocaleCleanShape | server.js:48 | after the clean-up there is at most one `.`, standing where the first comma was; digits and other characters are unchanged |
| Commission.LocaleClean | server.js:48 | the cleaned text holds a `.` exactly when the input held a `,` (a `.` that was in the input is always dropped) |
| Commission.ParseNum | server.js:45-51 | `null`, `undefined` and the non-finite numbers give 0; a finite number is taken as it is; text goes through `ParseText` |
| Commission.ParseText | server.js:48-50 | the text is trimmed and cleaned, then read by `Number`; a finite result is returned and anything else gives 0 |
| Commission.ParseNumWithoutDigits | server.js:45-51 | any value whose text holds no digit parses to 0, unless it is itself a finite number |
| Commission.TextWithoutDigits | server.js:48-50 | the text branch of `parseNum` gives 0 on text without digits |
| Commission.ParseNumOfBool | server.js:48-50 | `true`/`false` parse to 0 |
| Commission.ParseNumWholeText | server.js:46-50 | a whole number and its text parse to the same value |
| Commission.SignedDigitsParse | server.js:48-50 | a digit string, with or without `-`, parses to its value |
| Commission.ParseNumGroupedDigits | server.js:48-50 | `"1.500"`-style text: the `.` is a thousands separator, so `a.b` parses to the digits `ab` |
| Commission.ParseNumDecimalComma | server.js:48-50 | for all digit strings `a` and non-empty `b`, the decimal-comma text `a,b` parses to `a + b/10^\|b\|` (so `"2,5"` is 2.5) |
| Commission.ParseNumGroupedDecimal | server.js:48-50 | the pt-BR form `a.b,c` (as in `"1.500,25"`) parses to the whole digits `ab` plus `c/10^\|c\|`: the dot groups thousands and the comma is the decimal point |
| Commission.AmountsParse | server.js:46-47 | numeric body fields are taken as they are |
| Commission.ClampCredito | server.js:53-55 | the result lies in [0, 1500000], equals the input inside that range, is 1500000 above it and 0 below it |
| Commission.ClampIdempotent | server.js:53-55 | clamping twice is clamping once |
| Commission.TextField | server.js:77-79 | `String(x \|\| "").trim()` begins and ends with non-white-space or is empty |
| Commission.StatusOf | server.js:73 | a slot is `Pago` exactly for `"Pago"`, `Atrasado` exactly for `"Atrasado"`, otherwise `Pendente` |
| Commission.FloorAtZero | server.js:58 | `max(0, floor(x))`: a non-negative integer within 1 below `x`, and 0 for negative `x` |
| Commission.Installments | server.js:72-74 | always six slots: a six-element array maps position by position, anything else gives six `Pendente` |
| Commission.NormalizeSaleInput | server.js:57-91 | trimmed texts; `seguro` is `Sim` iff the body says `"Sim"`; base is `venda` iff the body says `"venda"`; floored non-negative `cotas`; non-negative amounts; unclamped `taxaPct`; six installments; and `Valid()`: `creditoRaw = cotas·valorUnit`, `credito = clampCredito(creditoRaw)`, `comissaoTotal = base·taxaPct/100` |
| Commission.WithDerived | server.js:64-70 | the derived fields computed from given inputs make a `Valid()` sale that keeps those inputs |
| Commission.ScenarioUnderCap | server.js:57-70 | 10 quotas of 1000 at 5% on the credit: credit 10000, commission 500 |
| Commission.ScenarioOverCap | server.js:57-70 | 2000 quotas of 1000 at 5%: raw credit 2000000, credit capped at 1500000, commission 75000 |
| Store.Roster | db.js:36-44 | six users: the admin first, with the supplied password or the default when none (or an empty one) is given, then five consultants with password `1234` |
| Store.FindUser | db.js:52 | the first user whose username is exactly the one given, or none exactly when no user has it |
| Store.RedactAll | db.js:57 | one entry per user, in order, without the password |
| Store.OwnedBy | db.js:63 | exactly the sales of that owner, and no more than there were |
| Store.OwnedByAppend | db.js:63 | filtering by owner distributes over concatenation (order is kept) |
| Store.Visible | db.js:60-64 | an admin sees every sale in order; anyone else sees exactly their own |
| Store.IndexOfId | db.js:74 | `findIndex`: the first position with that id, or the length when there is none |
| Store.WithoutId | db.js:86-88 | exactly the sales with another id remain, and the length shrinks iff the id was present |
| Store.WithoutIdAppend | db.js:86 | deleting distributes over concatenation, so the surviving sales keep their relative order |
| Store.PrependFreshUnique | db.js:68 | putting a sale with a fresh id in front keeps ids distinct |
| Store.WithoutIdUnique | db.js:86 | deleting keeps ids distinct |
| Store.UniqueIndex | db.js:74 | with distinct ids, `findIndex` finds the one sale carrying the id |
| Store.Db.SeedUsersIfNeeded | db.js:30-48 | nothing changes when users exist; otherwise the roster is installed and sales emptied |
| Store.Db.FindUserByUsername | db.js:50-53 | answers `FindUser` on the stored users |
| Store.Db.ListUsers | db.js:55-58 | answers the redacted users |
| Store.Db.ListSalesForUser | db.js:60-64 | answers the sales visible to that role and user |
| Store.Db.CreateSale | db.js:66-70 | the new sale is put in front of the unchanged old sales; users unchanged |
| Store.Db.UpdateSale | db.js:72-81 | an absent id changes nothing and gives none; otherwise only the first match is replaced by the transform's result, which is returned |
| Store.Db.DeleteSale | db.js:83-89 | the stored sales become `WithoutId` of the old ones (every sale with the id removed, the survivors in their old order by `WithoutIdAppend`); users unchanged; the answer is true iff one was present |
| Server.LowerAscii | server.js:95 | same length; each ASCII capital becomes its lower-case letter, everything else is kept |
| Server.FieldOr | server.js:148-154 | a truthy body field is read as its text `String(x)`; a falsy one falls back to the given value |
| Server.MissingTextOfBody | server.js:138-140 | a body is turned away for a missing text exactly when `cliente`, `produto` or `data`, read as `String(x \|\| "")`, is nothing but white space |
| Server.NewSale | server.js:148-163 | the sale gets the new id, the input and the timestamps; a non-admin's sale belongs to the caller under the caller's name; an admin may name another owner and name |
| Server.Edited | server.js:177-198 | the id and creation time are kept; a non-admin's transform returns another owner's sale unchanged; on their own sale the owner stays the caller |
| Server.OwnDeleteSparesOthers | server.js:234-241 | with distinct ids, deleting an id found among the caller's own sales removes no sale of another owner |
| Server.DuplicateIdsDefeatOwnership | server.js:234-241 | without distinct ids, a caller owning one of two sales that share an id deletes the other owner's sale too |
| Server.EditKeepsIdsUnique | db.js:78 | replacing a sale by one with the same id keeps ids distinct |
| Server.App.Auth | server.js:31-36 | succeeds with the stored identity iff a non-empty sid is in the session table, and otherwise fails with 401 |
| Server.App.AdminOnly | server.js:38-41 | passes exactly the admins and answers 403 to everyone else |
| Server.App.Login | server.js:94-113 | succeeds iff the lower-cased user name finds a user whose password matches; then the session table gains the sid with that user's identity, and otherwise it is unchanged with 401 |
| Server.App.Logout | server.js:115-120 | with a valid session the sid is removed and nothing else; otherwise 401 and nothing changes |
| Server.App.Users | server.js:126-128 | 401 without a session, 403 for a non-admin, the redacted users for an admin |
| Server.App.ListSales | server.js:131-134 | 401 without a session, otherwise the sales visible to the caller |
| Server.App.PostSale | server.js:136-167 | 401 without a session; 400 with nothing stored when a text is empty or `cotas`/`valorUnit` is not positive; otherwise the new sale is stored in front, owned by a non-admin caller |
| Server.App.CreateAs | server.js:138-165 | the POST decision once the caller is known: validation, then store in front |
| Server.App.PutSale | server.js:169-209 | 401; 400 for an empty text; 404 for an unknown id; 403 with the store unchanged for a non-admin on another's sale; otherwise only that sale is replaced by the edit; a non-admin never changes another owner's sale |
| Server.App.EditAs | server.js:173-208 | the PUT decision once the caller is known, with the same outcomes |
| Server.App.DeleteSale | server.js:211-245 | 401; 404 for an unknown id; 403 with nothing removed for a non-admin whose own list lacks the id; otherwise the id is removed; a non-admin never removes another owner's sale |
| Dashboard.ParseNumber | public/dashboard.js:10-16 | the client parser computes the same value as the server's `parseNum` |
| Dashboard.Clamp | public/dashboard.js:17 | the client clamp computes the same value as the server's `clampCredito` |
| Dashboard.Count | public/dashboard.js:69-71 | `filter(x => x === s).length` is the number of occurrences of that status among the slots (their multiset count), so at most the number of slots |
| Dashboard.CountsBounded | public/dashboard.js:69-71 | paid + late + pending never exceeds the number of slots, and equals it when every slot is a known status |
| Dashboard.Pending | public/dashboard.js:68 | `Array(n).fill("Pendente")` has length n |
| Dashboard.CountsOfPending | public/dashboard.js:68-71 | n pending slots count n pending and nothing else |
| Dashboard.SaleComputed | public/dashboard.js:62-74 | credit in [0, LIMIT] and equal to the clamp of `cotas·valorUnit`; counts within the slots; a missing `parcelas` counts six pending |
| Dashboard.CommissionOfRow | public/dashboard.js:63-66 | the base is `valorVenda` for `"venda"` and the credit otherwise; the commission is `base·taxaPct/100`; six installments make it up |
| Dashboard.StoredSplitIsWhole | public/dashboard.js:66-71 | for a sale as the server stores it, each installment is a sixth of the stored commission and the paid, late and pending amounts add up to that commission |
| Dashboard.TimesIsProduct | public/dashboard.js:98-100 | repeated addition equals the product |
| Dashboard.TimesSplit | public/dashboard.js:98-100 | repeated addition distributes over a sum of counts |
| Dashboard.SplitIsWhole | public/dashboard.js:66-71 | for six known slots, the paid, late and pending amounts add up to the commission |
| Dashboard.ClientAgreesWithServer | public/dashboard.js:62-74 | a stored sale recomputed by the dashboard gives the server's credit and commission, and counts all six installments |
| Dashboard.StoredCommission | public/dashboard.js:63-65 | a row with a stored sale's amounts recomputes its credit and commission |
| Dashboard.Tally | public/dashboard.js:89-101 | the fold of the loop body over the rows counts six installments per row |
| Dashboard.TallyCounts | public/dashboard.js:89-101 | the installment total is 6 per row, and the commission total is the sum of the rows' commissions (`TotalCommission`) |
| Dashboard.TotalCommissionSnoc | public/dashboard.js:91 | the commission total grows by the last row's commission |
| Dashboard.TallySplits | public/dashboard.js:89-101 | when every row has six known statuses, paid + late + pending money is the total, and their counts add up to the installment total |
| Dashboard.Percent | public/dashboard.js:107 | 0 when the total is not positive, otherwise the part as a percentage of it |
| Dashboard.Average | public/dashboard.js:117 | 0 without rows, otherwise the total per row |
| Dashboard.RenderKPIs | public/dashboard.js:76-124 | the loop ends with the fold of the rows: the commission total is the sum of the rows' commissions and the installment total is 6 per row; the paid percentage and the average ticket follow `Percent` and `Average` |
| Dashboard.UpdatePreview | public/dashboard.js:211-241 | the credit shown is the raw credit, and "—" exactly when it is 0; the capped credit lies in [0, LIMIT] below the raw one; the warning shows exactly when the cap lowered it, and then the capped credit is LIMIT; the commission shown is the commission and the installment shown a sixth of it, each shown (and "—" otherwise) exactly when the commission is not 0 |
| Dashboard.PreviewOf | public/dashboard.js:220-240 | the same display clauses on parsed fields, and the commission is `base·taxa/100` with the base the sale value for `"venda"` and the capped credit otherwise |
| Dashboard.PreviewAgreesWithServer | public/dashboard.js:215-225 | on the same form fields the preview's raw credit, credit and commission equal what `normalizeSaleInput` stores |
| Ranking.KeyOf | public/dashboard.js:130 | the group key is the consultant name when it is not empty, and `—` when it is |
| Ranking.Absorb | public/dashboard.js:134-141 | a row adds 1 sale and its commission, paid, pending and late amounts to its consultant's line |
| Ranking.Groups.Values | public/dashboard.js:144 | `by.values()`: one line per key, in insertion order |
| Ranking.ValuesUpdate | public/dashboard.js:134-141 | updating an existing line changes only its place among the values |
| Ranking.ValuesAppend | public/dashboard.js:131-133 | a new key appends its line at the end |
| Ranking.File | public/dashboard.js:129-142 | one loop step keeps the map well formed and adds the row's key; that key's line absorbs the row (a fresh line when the key was new) and every other line is unchanged |
| Ranking.FileSums | public/dashboard.js:129-142 | one loop step adds the row's share to every summed figure |
| Ranking.GroupBy | public/dashboard.js:127-142 | the grouping is well formed (its exact lines are stated by `GroupLines`) |
| Ranking.GroupKeys | public/dashboard.js:129-133 | the keys are exactly those of the rows |
| Ranking.KeyRows | public/dashboard.js:130 | the rows filed under a key: exactly the rows whose key it is, no more than there are rows |
| Ranking.KeyRowsFiled | public/dashboard.js:130-133 | a key with rows has a line |
| Ranking.GroupLines | public/dashboard.js:129-142 | each line holds its own consultant's rows: its sales count and every money figure are those summed over the rows with that key |
| Ranking.SumAppend | public/dashboard.js:131-133 | a sum over lines grows by an appended line |
| Ranking.SumUpdate | public/dashboard.js:134-141 | a sum over lines changes by the difference of a replaced line |
| Ranking.GroupSums | public/dashboard.js:129-142 | each figure summed over the lines is that figure summed over the rows |
| Ranking.RowsSumVendas | public/dashboard.js:135 | the rows' sales counts add up to the number of rows |
| Ranking.RowsSumIsTally | public/dashboard.js:137-141 | the rows' commission, paid, pending and late sums are those of `renderKPIs` |
| Ranking.Compare | public/dashboard.js:145 | the comparator lets `a` come first exactly when `a` has paid more, or the same paid and more total, or both the same and at least as many sales; it is 0 exactly on a tie in all three |
| Ranking.CompareFlip | public/dashboard.js:145 | swapping the lines negates the comparator |
| Ranking.CompareChain | public/dashboard.js:145 | the comparator's "may come first" is transitive |
| Ranking.Insert | public/dashboard.js:144-145 | inserting adds the line and keeps the others (as a multiset) |
| Ranking.InsertMembers | public/dashboard.js:144-145 | an inserted list holds only the new line and the old ones |
| Ranking.InsertSorted | public/dashboard.js:144-145 | inserting into a sorted list keeps it sorted |
| Ranking.SortRanking | public/dashboard.js:144-145 | the sort is a permutation |
| Ranking.SortSorted | public/dashboard.js:144-145 | the result is in comparator order |
| Ranking.SumInsert | public/dashboard.js:144-145 | inserting adds the line's figures to each sum |
| Ranking.SumSort | public/dashboard.js:144-145 | sorting keeps each sum |
| Ranking.InsertDistinct | public/dashboard.js:144-145 | inserting a line with a new name keeps names distinct |
| Ranking.SortDistinct | public/dashboard.js:144-145 | sorting keeps names distinct |
| Ranking.ValuesDistinct | public/dashboard.js:131-133 | lines filed under distinct keys have distinct names |
| Ranking.SortNames | public/dashboard.js:144-145 | sorting keeps the set of names |
| Ranking.ValuesNames | public/dashboard.js:129-133 | the lines' names are the rows' keys |
| Ranking.LinesOfGroups | public/dashboard.js:129-145 | the sorted lines have distinct names, one per row key, and the rows' sums |
| Ranking.LineFigures | public/dashboard.js:129-145 | after the sort each line still holds the figures of its own consultant's rows |
| Ranking.RenderRanking | public/dashboard.js:126-145 | one line per distinct consultant (empty as `—`), ordered by paid descending, then total, then sales count; a permutation of the grouping; each line's figures are the sums over that consultant's rows, and each figure summed over the lines equals the rows' sum |
| Ranking.FileRow | public/dashboard.js:130-141 | the loop body on one row performs the step `File` |
| Ranking.RankingMatchesKpis | public/dashboard.js:129-142 | the ranking's sales counts add up to the number of rows, and its commission, paid, pending and late columns add up to the KPI totals |

## Left out

- File persistence (`readFileSafe`, `writeFileSafe`, JSON encoding, and replacing an unparsable file by an empty document) is not modelled. The document lives in memory in `Store.Db`.
- Express plumbing is not modelled: middleware, cookies, static files, `res.cookie`/`clearCookie`, `listen`. A request is a set of method parameters, and a response is a `Reply` with a `Failure` and its status `Code()`.
- Session ids, sale ids and timestamps come from `crypto` and the clock, so they are parameters. A sale id is required to be fresh, and a session id to be non-empty.
- Concurrency, and the lost updates of interleaved read-modify-write cycles, are not modelled. The model is sequential.
- Double rounding is not modelled. Amounts are `real`, so `/100` and `/6` are exact.
- Commission.ParseNum: the range of doubles is not modelled. `Number` overflows to ±Infinity above about 1.8·10^308, so the program's `parseNum("1e400")` is 0, and a POST with that as `cotas` or `valorUnit` answers 400; the model reads 10^400 and accepts it. `Number` also underflows to 0 below about 5·10^-324, so `"1e-400"` is 0 in the program and a small positive value in the model.
- JsNumber.StringToNumber: only a subset of the `Number(text)` grammar is covered: sign, `Infinity`, decimal digits, fraction and exponent. Hexadecimal, octal, binary and the exponent form of `String(number)` are not.
- Server.LowerAscii: lower-cases ASCII letters only. The full Unicode mapping of `toLowerCase` is not modelled.
- Objects in a request body are `Object` values that print as `[object Object]`. Nested fields are not modelled.
- Ranking.SortRanking: insertion sort fixes one order among lines the comparator ties. JavaScript's stable sort keeps such lines in insertion order. Only the comparator order and the permutation are proved, not stability.
- Dashboard.Row: a numeric field is a number or missing, and a missing or `NaN` field counts as 0 through `|| 0`. Status strings other than the three known ones are `Unknown` slots.
- The unused `listSalesForUser` call at the start of DELETE (server.js:215) has no effect and is not modelled.
- `Store.Db.UpdateSale` returns `Option<Sale>` in place of `{ok, updated}`.
- DOM rendering, `Intl` formatting (`money`, `pct`), the display strings, theme storage, `fetch` and the event listeners are not modelled.
