# Statement ledger — a Dafny model

This project models the logic of the "statement" micro-frontend: a bank account's
transaction ledger with an edit form, a delete confirmation and a pie-chart summary.
Three pieces of it are modelled and proved:

- **The statement view** (`Ledger`, `ledger.dfy`): the list of transactions, the
  transaction picked for editing or deletion and the two modal flags, held by the class
  `LedgerView`. Its handlers load the list, open and close the modals, delete a record
  after the backend agrees, and update a record optimistically before the backend
  answers. Each backend call becomes a parameter saying whether it succeeded. The list
  rewrites (`filter` by identifier, `map` with a patch) are pure functions with their
  lemmas. So are the label lookup and the two display predicates.
- **The transaction form** (`TransactionForm`, `transaction_form.dfy`): a class `Form`
  with the type, amount and date fields and the values the fields were reset from. It
  has the field setters, the reset effect that runs when the initial values change,
  the rule that disables the submit button, and the payload a click emits.
- **The chart** (`Piechart`, `piechart.dfy`): the fold that splits values into a debit
  total (negative values) and a credit total (the rest). The accumulator is a class
  updated in place, one transaction at a time. The two chart segments and their captions
  are built from the totals.

Supporting modules: `Transactions` (`transactions.dfy`) holds the record types.
`JsNumber` (`js_number.dfy`) models `parseFloat` and the `toString` of a number on exact
reals; NaN is `None`. `Wrappers` (`wrappers.dfy`) holds `Option`. The source's field
`type` is called `kind`, because `type` is a Dafny keyword. An `accountId` that is
`undefined` or `""` is modelled as `""`.

One might expect a failed update to leave the view's state unchanged, and a negative value to be written with a minus sign. The code does neither, and the model follows the code:

- A failed update does not leave the local state unchanged. The list has already been
  rewritten before the backend call (src/App.tsx:83-93). Only the pick and the edit modal
  stay as they were (`LedgerView.HandleUpdate`).
- The "- " prefix does not depend on the sign of the value. It depends on the type name
  being "transfer" or "expense", which a `"Debit" | "Credit"` type never is. So it is
  never shown (`NoMinusPrefix`).

## Model

| member | source | states |
|---|---|---|
| `Ledger.TransactionName` | src/App.tsx:27-35 | "Debit" is labelled "débito" and "Credit" "Crédito". The label is `""` exactly for a missing or empty type, and undefined (`None`) exactly for any other type. |
| `Ledger.TypeLabels` | src/App.tsx:27-35 | Every type the backend reports (src/models/transactions.ts:1) gets a defined, non-empty label, and the two types get different labels. |
| `Ledger.MinusPrefixShown` | src/App.tsx:126 | The "- " prefix is written exactly for the type names "transfer" and "expense". |
| `Ledger.NoMinusPrefix` | src/App.tsx:126 | The minus prefix is never shown for a ledger transaction, since its type name is "Debit" or "Credit". |
| `Ledger.EmptyMessageShown` | src/App.tsx:102-106 | The "no transactions" message replaces the list exactly when the list is empty. |
| `Ledger.Without` | src/App.tsx:71 | After the filter, a record is in the list iff it was there before and its id differs from the deleted id. The list never grows. |
| `Ledger.WithoutAppend` | src/App.tsx:71 | The filter distributes over concatenation, so the kept records keep their original order. |
| `Ledger.WithoutAbsent` | src/App.tsx:71 | Filtering an id that no record has leaves the list unchanged. |
| `Ledger.WithoutIdempotent` | src/App.tsx:71 | Deleting the same id twice gives the same list as deleting it once. |
| `Ledger.WithoutLength` | src/App.tsx:71 | The filter removes exactly as many records as carry the id. |
| `Ledger.WithoutKeepsUnique` | src/App.tsx:71 | If ids were unique before the delete, they stay unique after it. |
| `Ledger.DeleteListed` | src/App.tsx:69-74 | With unique ids, deleting a listed record shortens the list by one. The "no transactions" message (src/App.tsx:102) then shows iff that record was the only one. |
| `Ledger.Patched` | src/App.tsx:85 | The spread `{ ...t, ...payload }` takes type, value and accountId from the payload and keeps id, date and attachment. |
| `Ledger.ApplyUpdate` | src/App.tsx:84-86 | The map keeps the list length. |
| `Ledger.ApplyUpdateAt` | src/App.tsx:84-86 | At every position, a record whose id is the target is patched and any other record is unchanged. Ids stay in place, so length and id order are preserved. |
| `Ledger.ApplyUpdateNoTarget` | src/App.tsx:85 | With no transaction being edited (`editingTransaction?.id` undefined), the list is unchanged. |
| `Ledger.ApplyUpdateIdempotent` | src/App.tsx:83-87 | Applying the same update twice gives the same list as applying it once. |
| `Ledger.ApplyUpdateKeepsUnique` | src/App.tsx:83-87 | If ids were unique before an update, they stay unique after it. |
| `Ledger.IdOf` | src/App.tsx:85 | `editingTransaction?.id` is defined iff a transaction is picked, and it is that transaction's id. |
| `Ledger.PayloadOf` | src/App.tsx:77-81 | The update payload carries the request's type and value and the view's accountId. |
| `Ledger.EditFormProps` | src/App.tsx:151-153 | The edit form opens on the picked record's type and value, with no initial date. |
| `Ledger.EditRequest` | src/App.tsx:156-161 | The form's submission becomes a request with the same type, the amount renamed to value, and the view's accountId. |
| `Ledger.RewriteOwnValues` | src/App.tsx:84-86 | With unique ids, patching a listed record with its own type, value and accountId leaves the list unchanged. |
| `Ledger.UntouchedEditRequest` | src/App.tsx:151-161 | An edit form opened on a record in cents and submitted untouched produces a request with the record's own type and value and the view's accountId. |
| `Ledger.SaveUntouchedEdit` | src/App.tsx:151-161 | An edit form that opens on a record in cents is enabled iff the value is positive. Submitting it unchanged produces a request with the record's own type and value. With unique ids and the record already in the view's account, that update leaves the list unchanged. |
| `Ledger.LedgerView.constructor` | src/App.tsx:40-45 | A mounted view starts with an empty list, nothing picked, and both modals closed. |
| `Ledger.LedgerView.Load` | src/App.tsx:47-57 | With a non-empty accountId and a successful fetch, the list is replaced wholesale by the fetched one. Otherwise it stays as it was. Nothing else changes. |
| `Ledger.LedgerView.OpenEditModal` | src/App.tsx:59-62 | Opening the edit modal picks the record and raises only the edit flag. The list and the delete flag are unchanged. |
| `Ledger.LedgerView.OpenDeleteModal` | src/App.tsx:64-67 | Opening the delete modal picks the record and raises only the delete flag. The list and the edit flag are unchanged. |
| `Ledger.LedgerView.HandleDelete` | src/App.tsx:69-74 | On success, the list is the filter without the deleted id, the pick is cleared and the delete modal is closed. On failure, nothing changes. The edit flag is never touched. |
| `Ledger.LedgerView.HandleUpdate` | src/App.tsx:76-96 | The list is always rewritten by the patch for the picked id, even when the call fails. On success, the pick is cleared and the edit modal is closed. On failure, both stay as they were. |
| `Ledger.LedgerView.CloseEditModal` | src/App.tsx:149 | Closing the edit modal clears only its flag. The pick and the list are unchanged. |
| `Ledger.LedgerView.CloseDeleteModal` | src/App.tsx:169 | Closing the delete modal, by its X or by Cancel (src/App.tsx:189), clears only its flag. The pick and the list are unchanged. |
| `TransactionForm.Resolve` | src/components/AddTransactionForm.tsx:19-26 | An initial type, amount or date the caller gives is used as given. Props that are left out take the defaults: type `""`, amount 0, and the current date. |
| `TransactionForm.Disabled` | src/components/AddTransactionForm.tsx:30 | The button is enabled exactly when a type is chosen and the amount reads as NaN or as a positive number. |
| `TransactionForm.Form.constructor` | src/components/AddTransactionForm.tsx:27-29 | The fields start as the initial type, the initial amount's `toString`, and the initial date. |
| `TransactionForm.Form.Rerender` | src/components/AddTransactionForm.tsx:40-44 | If any initial value differs from the last render's, all three fields reset to the initial values. Otherwise they keep what was entered. |
| `TransactionForm.Form.SelectType` | src/components/AddTransactionForm.tsx:52 | The type setter changes only the type. |
| `TransactionForm.Form.EnterAmount` | src/components/AddTransactionForm.tsx:70 | The amount setter changes only the amount. |
| `TransactionForm.Form.EnterDate` | src/components/AddTransactionForm.tsx:92 | The date setter changes only the date. |
| `TransactionForm.Form.IsDisabled` | src/components/AddTransactionForm.tsx:30 | For the form's current fields, the button is enabled exactly when a type is chosen and the amount reads as NaN or as a positive number. |
| `TransactionForm.Form.ClickSubmit` | src/components/AddTransactionForm.tsx:32-38 | A click emits nothing iff the button is disabled (line 100, src/components/Button.tsx:28). Otherwise the form emits the current type, `parseFloat(amount)` and the date, unchanged. |
| `TransactionForm.UnsetTypeDisables` | src/components/AddTransactionForm.tsx:30 | With no type chosen, the button is disabled whatever the amount. |
| `TransactionForm.EmptyAmountDoesNotDisable` | src/components/AddTransactionForm.tsx:30 | An empty amount parses to NaN, and once a type is chosen it does not disable the button. |
| `TransactionForm.EnabledIffPositive` | src/components/AddTransactionForm.tsx:28-30 | With a type chosen and an amount written from a value in cents, the button is enabled iff the value is positive. |
| `TransactionForm.DefaultFormDisabled` | src/components/AddTransactionForm.tsx:20-30 | A form opened with no initial values starts disabled. It stays disabled after a type is chosen, because its amount "0" reads as zero. |
| `JsNumber.ParseFloat` | src/components/AddTransactionForm.tsx:30-35 | The model's `parseFloat` gives NaN (`None`) unless the text holds a digit. On text that starts with a digit it reads an unsigned decimal literal. |
| `JsNumber.NumberToString` | src/components/AddTransactionForm.tsx:28 | `toString` writes a non-empty string that starts with a minus sign exactly for a negative number, and otherwise starts with a digit. |
| `JsNumber.ParseNumberToString` | src/components/AddTransactionForm.tsx:28-30 | `parseFloat` reads back a cents amount from its `toString` form. Text may follow the number if it starts with none of a digit, a point or an exponent marker `e`/`E`. |
| `Piechart.Debits` | src/components/Piechart.tsx:13-14 | The debit total is never positive. |
| `Piechart.Credits` | src/components/Piechart.tsx:15-16 | The credit total is never negative. |
| `Piechart.SplitAppend` | src/components/Piechart.tsx:11-21 | Both totals are additive over a split of the list. |
| `Piechart.SplitCoversAll` | src/components/Piechart.tsx:11-21 | Debit plus credit equals the total of all values. Credit minus debit equals the total of their magnitudes. |
| `Piechart.Accumulator.constructor` | src/components/Piechart.tsx:20 | The accumulator starts at `{ debit: 0, credit: 0 }`. |
| `Piechart.Accumulator.Add` | src/components/Piechart.tsx:13-18 | A step adds a negative value to debit only and any other value to credit only. |
| `Piechart.Group` | src/components/Piechart.tsx:11-21 | The fold yields the sum of the negative values as debit and the sum of the rest as credit. Debit is ≤ 0 ≤ credit, and their sum is the total. An empty list gives 0 and 0. |
| `Piechart.Segments` | src/components/Piechart.tsx:31-42 | There are two slices with ids 0 and 1. The first is `abs(debit)`, the second is credit. Both captions are "..." while loading, and otherwise embed their total. |
| `Piechart.Chart` | src/components/Piechart.tsx:11-42 | Both slices are non-negative, they equal minus the debit sum and the credit sum, and together they give the total of magnitudes. Once loaded, neither caption is the placeholder. |
| `Piechart.TotalsInCents` | src/components/Piechart.tsx:11-21 | If every value is in cents, both totals are in cents. |
| `Piechart.CaptionsReadBack` | src/components/Piechart.tsx:35-40 | When every value is in cents, once loaded, the number embedded in each caption reads back as that caption's total. |

## Left out

- The HTTP services (src/services/transactionsService.ts, statementService.ts, accountService.ts) are left out. Each call is a `success` parameter, or a fetched list that is `None` when the request fails.
- The authentication token read from `localStorage` (src/App.tsx:38) is left out. It only parameterises the HTTP calls.
- `getMonthName`, `toLocaleDateString` and `formatCurrency` are left out because they depend on locale and `Date`. The `./utils/formatCurrency` module is not part of this model.
- Currency masking by `NumericFormat` is left out, since it is a foreign library. The model takes the unformatted value it hands to the amount setter.
- Floating-point rounding is left out. Numbers are exact reals, in `parseFloat`, in `toString` and in the chart sums.
- JsNumber.ParseNumberToString: the round trip is proved only for amounts with at most two decimals (`IsCents`). It is also proved only for following text that cannot extend the literal, so not for text that starts with `e` or `E`. See the next two lines for how the two conversions differ from JavaScript.
- JsNumber.ParseFloat: the exponent form is not read, so "5e2" reads as 5 where JavaScript gives 500. "Infinity" and "-Infinity" read as NaN where JavaScript gives ±Infinity. Neither form reaches the amount field, whose currency mask (src/components/AddTransactionForm.tsx:67-76) hands the setter only digits and a decimal point. The model's `ParseFloat` reads two kinds of text: that masked field text, stored by `Form.EnterAmount`, and the `toString` of an amount in cents below 1e21, which has no exponent.
- JsNumber.NumberToString: the exponent form is not written, so 1e21 comes out as "1000000000000000000000" and 1e-7 as "0.0000001". The fraction is cut at 20 digits instead of being written as the shortest digits that read back, so 1/3 does not round-trip. Amounts in cents below 1e21, the only values the ledger writes, come out with the same digits JavaScript writes.
- EditRequest: a submission whose amount is NaN reaches the update handler in the source. The model drops it, because a record's value is a real and cannot hold NaN.
- React rendering and async scheduling are left out. So are races between handlers that read a stale `transactions` (src/App.tsx:71, 84). Each handler runs to completion on the state it starts from.
- A change of the `accountId` prop on a mounted view is left out. `accountId` is fixed when the view is built, and re-running the load effect is another call of `Load`.
- The Button and Modal components are presentational. Only the disabled button swallowing clicks is modelled, in `Form.ClickSubmit`.
- src/models/statement.ts (a divergent schema that the core does not use) and craco.config.js (build configuration) are left out.
