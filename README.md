# Calliope: a verified model of the stock and warranty core

Calliope is a Discord bot for a small shop. It keeps a stock table (item
name to quantity), lets members open purchase tickets from that table, and
runs a warranty workflow. In that workflow a moderator records a sale and the
bot sends the buyer a code. The bot then waits for the buyer's proof image in
the vouch channel, with a deadline, and after it for a moderator's lock
reaction.

This project models that core in Dafny and proves properties of the model.

- `text.dfy` (`Text`): the Python string helpers the core depends on:
  `isdigit`, `int(...)`, `str(...)`, `startswith`, `endswith` and `lower`.
- `stocks.dfy` (`Stocks`): the stock table as an ordered dictionary with
  Python's rules for assignment and `pop`, and JSON loading and saving. It
  also covers the item buttons and the class `StockTable`, whose methods are
  the four places that change the table: new item, delete, edit, and the
  warranty deduction.
- `envfile.dfy` (`EnvFile`): rewriting one line of the settings file,
  `/timer`, and the hours shown in messages.
- `refcode.dfy` (`ReferenceCode`): the reference-code generator. The random
  draws are an input.
- `signals.dfy` (`Signals`): the role check and the three predicates the
  bot uses to recognise the events it waits for.
- `ticket.dfy` (`Ticket`): `/stocks`, the item click, Confirm/Cancel, and
  the ticket channel's life until it is deleted or the 24-hour wait ends.
- `warranty.dfy` (`Warranty`): `/warranty` as a state machine over events,
  with lemmas about whole runs of events.

In both workflows, every wait of the bot becomes an event: a button press, a
modal submission, the direct-message call, a message, a reaction, or a
timeout. A `Run` folds a sequence of these events. Each event brings the
settings and guild roles as they are at that moment, because the bot reads
them from the settings file again at every use.

## Model

| member | source | states |
|---|---|---|
| Text.NatToDecimal | calliope.py:43 | `str(n)` is a non-empty string of digits with no leading zero except for "0" itself |
| Text.IntToString | calliope.py:43 | `str(i)` is non-empty and begins with a minus sign exactly when `i` is negative |
| Text.DecimalRoundTrip | calliope.py:53 | `int(...)` of the decimal text that `replace_env_variable` wrote at calliope.py:81 gives the number back: `int(str(n)) == n` for every natural `n` |
| Text.DecimalInjective | calliope.py:81 | different naturals are written as different decimal strings |
| Text.DigitsValue | calliope.py:465 | `int(s)` of a string of digits is zero exactly when every digit is `0` (leading zeros are allowed) |
| Text.IsDigitsSigned | calliope.py:455 | `isdigit` accepts the decimal text of an integer exactly when the integer is not negative |
| Text.IsDigitsExamples | calliope.py:455 | `isdigit` refuses the empty field, a leading plus and a trailing space, and `int("007")` is 7 |
| Text.IntToStringInjective | calliope.py:43 | different integers have different decimal strings |
| Text.Lower | calliope.py:605 | `lower()` keeps the length, lowers each ASCII capital, and leaves no ASCII capital |
| Text.LowerKeepsLowercase | calliope.py:605 | `lower()` leaves a string with no ASCII capital unchanged |
| Stocks.Items | calliope.py:36-38 | the saved JSON lists every name once, in table order, with its quantity |
| Stocks.Erase | calliope.py:223 | removing a name takes exactly that name out of the order, keeps the others distinct and in place, and changes nothing when the name is absent |
| Stocks.Put | calliope.py:379 | `d[k] = v` keeps the dictionary invariant (each name once, exactly the names with a quantity) |
| Stocks.EraseKeepsOrder | calliope.py:223 | `pop` cuts out exactly the name's entry: the names before it and after it stay, in their order |
| Stocks.Pop | calliope.py:223 | `d.pop(k)` keeps the dictionary invariant |
| Stocks.PutSpec | calliope.py:472 | assignment stores the value, leaves every other name and quantity alone, keeps an existing name in place and appends a new one |
| Stocks.FromPairs | calliope.py:29-33 | loading the JSON pairs as an `OrderedDict` gives a well-formed table with exactly the names listed |
| Stocks.FromPairsLastValue | calliope.py:29-33 | every name of the loaded table holds the value of its last pair in the JSON |
| Stocks.FromPairsFirstOrder | calliope.py:29-33 | the loaded names stand in the order of their first occurrence in the JSON |
| Stocks.SaveLoadRoundTrip | calliope.py:29-38 | loading what was saved gives back the same table: same names, same order, same quantities |
| Stocks.Deduct | calliope.py:589 | the deduction exists exactly when the item is in the table; it subtracts exactly the quantity with no lower bound and keeps the order |
| Stocks.DeductHasNoFloor | calliope.py:589 | five in stock minus three gives two, and a second deduction of three is accepted and gives minus one |
| Stocks.Rename | calliope.py:386 | `d[new] = d.pop(old)`: the old name is gone, the new name holds the old quantity, it keeps its place if it already existed (its old value is overwritten) and otherwise goes to the end |
| Stocks.Label | calliope.py:246-249 | a button label is the item name followed by a parenthesised part |
| Stocks.Buttons | calliope.py:244-251 | one button per item, in table order, whose custom id is the item name and whose label is `Label` of that item's name and live quantity |
| Stocks.LabelShowsStock | calliope.py:246-249 | a button reads "name (Out of Stock)" exactly when the quantity is not positive, and otherwise shows the quantity in decimal |
| Stocks.LabelDeterminesQuantity | calliope.py:246-249 | two labels for the same name with positive quantities are equal only if the quantities are equal |
| Stocks.PickItem | calliope.py:255-258 | a click finds no item exactly when the name left the table, is turned away as out of stock exactly when the live quantity is not positive, and otherwise offers the item with its live quantity |
| Stocks.ButtonAgreesWithPick | calliope.py:244-258 | the clicked button says "Out of Stock" exactly when the click is turned away as out of stock |
| Stocks.StockTable.Load | calliope.py:476 | the table starts as the loaded JSON, with nothing saved yet |
| Stocks.StockTable.New | calliope.py:454-473 | a quantity field that is not all digits (including an empty one) changes and saves nothing; otherwise the name gets that number, appended if new, and the table is saved once |
| Stocks.StockTable.Delete | calliope.py:221-230 | a present name is removed and the others keep their order; a missing name changes nothing; the table is saved either way |
| Stocks.StockTable.Edit | calliope.py:359-391 | a non-empty quantity that is not all digits is refused; a rename of a vanished item with no new quantity raises KeyError; both change and save nothing. Otherwise an empty field keeps its value, the quantity goes in under the old name, the rename moves the entry as `Rename` says, and the table is saved once |
| Stocks.StockTable.DeductWarranty | calliope.py:588-590 | a present item loses exactly the quantity, with no lower bound, and the table is saved; a missing item changes nothing |
| EnvFile.ReplaceEnvVariable | calliope.py:73-86 | only the first line starting with `NAME=` is replaced, by `NAME=value` and a newline; all other lines and the line count stay; with no such line the file is unchanged |
| EnvFile.ConvertSecondsToHours | calliope.py:41-43 | the rendering ends in " HOURS" after a non-empty number, which starts with a minus sign exactly when the seconds are negative |
| EnvFile.HoursShown | calliope.py:41-43 | the rendering is "h HOURS" exactly for the seconds from `h` hours up to, but not including, `h + 1` hours |
| EnvFile.WholeHoursRoundTrip | calliope.py:41-43 | a whole number of hours is shown as that number |
| EnvFile.SetTimer | calliope.py:783-787 | a negative number of hours is refused and nothing is written; otherwise the first `DUE=` line is set to `hours * 3600` |
| EnvFile.TimerRoundTrip | calliope.py:53 | what `/timer h` stores reads back as `h * 3600` seconds and is shown as `h` hours |
| ReferenceCode.IndexOf | calliope.py:67 | each capital letter and digit sits at one position of the alphabet |
| ReferenceCode.GenerateReferenceCode | calliope.py:66-70 | the code has one character per draw, each a capital letter or a digit |
| ReferenceCode.CodesAreExactlyTheDraws | calliope.py:66-70 | every string of capitals and digits is the code of some sequence of draws |
| ReferenceCode.GenerateInjective | calliope.py:66-70 | different draws give different codes |
| Signals.FindRole | calliope.py:93 | the role is found exactly when the id is among the roles, and then it is that id |
| Signals.HasRequiredRole | calliope.py:89-103 | a command passes the role check exactly when its author is an administrator or holds the moderator role |
| Signals.RequiredRoleMonotone | calliope.py:89-103 | gaining roles or the administrator permission never removes access; without the permission, access is exactly holding the moderator role |
| Signals.AnyImageSpec | calliope.py:604-606 | some attachment passes exactly when one attachment's name passes |
| Signals.EndsWithAnySpec | calliope.py:605 | `endswith` of a tuple holds exactly when the string ends with one of the tuple's suffixes |
| Signals.ImageCheckSpec | calliope.py:600-607 | a message is proof exactly when the buyer sent it in the vouch channel and some attachment's lower-cased name ends in .png, .jpg, .jpeg, .gif or .bmp |
| Signals.ImageCheck | calliope.py:600-607 | a message passes exactly when the buyer sent it in the vouch channel with an attachment whose name passes the extension test |
| Signals.ImageNameIgnoresCase | calliope.py:605 | the extension test lower-cases first: "Proof.PNG" passes |
| Signals.ImageNameNeedsListedExtension | calliope.py:605 | an extension outside the list ("proof.webp") or a bare "png" without the dot fails |
| Signals.TicketCheck | calliope.py:183-188 | a passing reaction is the trash emoji in the ticket channel, and comes from the member or a holder of the moderator role; the trash emoji in the channel passes whenever it comes from the member or from a holder of the moderator role |
| Signals.LockCheck | calliope.py:639-645 | without the moderator role nothing passes; a passing reaction is the lock emoji on the vouch notification from a holder of the role, and every such reaction passes |
| Ticket.ShowStocks | calliope.py:479-486 | an empty table gets the "no items" reply; otherwise one button per item in table order, identified by the name and labelled with the name and its live quantity as `Label` renders it |
| Ticket.Click | calliope.py:254-276 | a vanished item is a KeyError, a non-positive quantity is turned away as out of stock, and otherwise Confirm is offered with the live quantity |
| Ticket.Step | calliope.py:114-195 | one event keeps the ticket's member, and a finished flow ignores it |
| Ticket.Run | calliope.py:108-195 | a run of events keeps the ticket's member |
| Ticket.ConfirmSpec | calliope.py:114-175 | Confirm with a positive quantity creates the channel, which moderators may read exactly when the guild has the moderator role. It then waits for the delete reaction exactly when that role exists; without it the flow stops after creating the channel. Cancel ends the flow with no channel |
| Ticket.ConfirmAfterClick | calliope.py:121-130 | after a click, Confirm never takes the out-of-stock branch and always creates the channel |
| Ticket.TerminalStays | calliope.py:108-195 | a finished ticket flow ignores every further event |
| Ticket.TicketLifecycle | calliope.py:183-195 | an open ticket's channel is deleted exactly once if the delete reaction (trash emoji, in the channel, from the member or a moderator) comes before the timeout, and never otherwise; nothing else is touched |
| Ticket.ChannelsAtMostOnce | calliope.py:114-195 | a ticket flow creates at most one channel, and none once past Confirm |
| Warranty.Start | calliope.py:706-713 | the item buttons appear exactly when the author passes the role check and the table is not empty, one per name in table order |
| Warranty.ActivationNoticeAsWritten | calliope.py:649-662 | as written, the activation notice names the reacting moderator both as the voucher and as the verifier, whoever the buyer is |
| Warranty.AsWrittenNamesModerator | calliope.py:649-657 | whenever the moderator is not the buyer, the notice as written does not name the buyer as the voucher |
| Warranty.Send | calliope.py:531-598 | a refused DM changes nothing but the error reply; a delivered DM carries the shown code and the pending notice the reference code. The item then loses exactly the quantity, with the order kept and the proof wait started, or the run crashes with the table unchanged when the item is gone |
| Warranty.Step | calliope.py:511-713 | one event keeps the buyer and a well-formed table, and a finished run ignores it |
| Warranty.Run | calliope.py:511-713 | a run of events keeps the buyer and a well-formed table |
| Warranty.PickingStep | calliope.py:325-344 | an item click never changes the table; it opens the form exactly when the item is in stock; a vanished item changes nothing and a sold-out one only gets the error reply, the run staying in the picker in both cases |
| Warranty.SubmitForm | calliope.py:531-598 | a bad quantity is refused. A refused DM deducts and saves nothing. A delivered DM carries a freshly drawn code, the pending notice carries the reference code, and the stock goes down by exactly the quantity and is saved once. An item deleted in the meantime crashes after the DM |
| Warranty.ShownCodeIsIndependent | calliope.py:532-560 | the code in the buyer's DM equals the staff's reference code only when two independent draws coincide |
| Warranty.StockChangesOnlyOnDelivery | calliope.py:583-590 | the stock changes only in the step where a valid form is submitted and the DM is delivered |
| Warranty.ProofTimeoutVoids | calliope.py:680-693 | the proof timeout voids the warranty, posts the void notice, turns the pending notice red, and gives no stock back |
| Warranty.ProofMessage | calliope.py:609-635 | a message failing `image_check` changes nothing; a passing one starts the lock wait on the new notification, or crashes when the moderator role is gone |
| Warranty.TerminalStays | calliope.py:531-702 | a finished warranty run ignores every further event |
| Warranty.LockWaitHasNoTimeout | calliope.py:649 | until an accepted lock reaction arrives, nothing happens in the lock wait, timeouts included |
| Warranty.LockWaitOutcome | calliope.py:639-674 | from the lock wait, the run activates exactly when an accepted lock reaction arrives, stays waiting otherwise, and never becomes void |
| Warranty.ActivatedOnlyByLock | calliope.py:639-649 | from any state, a run becomes activated only through a lock reaction on the vouch notification, from a holder of the moderator role, received during the lock wait |
| Warranty.NoVoidAfterProof | calliope.py:647-678 | once the proof is accepted, nothing can void the run |
| Warranty.ProofWaitOutcome | calliope.py:609-693 | from the proof wait, the run ends void exactly when the timeout comes before an accepted proof message, and the stock is never touched again |
| Warranty.AsWrittenRunNamesModerator | calliope.py:649-662 | as written, a run activated from the lock wait posts first the notice naming the reacting moderator as the voucher, so not the buyer whenever the moderator is someone else |
| Warranty.CorrectedStep | calliope.py:649-662 | the corrected step has the same transitions and the same stock as the step as written |
| Warranty.CorrectedRun | calliope.py:511-713 | the corrected run keeps the buyer and a well-formed table |
| Warranty.CorrectedRunOnlyFixesVoucher | calliope.py:649-662 | the corrected run goes through the same phases and stock as the run as written; its effects differ only in the voucher of the activation notice, set to the buyer |
| Warranty.CorrectedNoticesNameBuyer | calliope.py:655-662 | in the corrected run every activation notice names the buyer as the voucher; activated from the lock wait, it posts exactly the notice naming the buyer and the locking moderator, then turns the pending notice green |
| Warranty.SettledKeepsTable | calliope.py:588-693 | after the DM has gone out, or once the run has ended, the stock is never changed or saved again |
| Warranty.SavesAtMostOnce | calliope.py:588-590 | a warranty run deducts and saves the stock at most once, however the events interleave |

## Left out

- The platform client: embeds, message text, colours other than the pending notice's red and green, ephemeral flags, mentions, the ghost ping's content, and the image jump link. Effects record only what is sent, edited, created or deleted, and to whom.
- `bot.wait_for` as a mechanism: the events a wait receives (including the bot's own seeded reactions, if it holds the roles) are inputs. Concurrency between flows is not modelled: each `Run` threads its own table, and no member composes the runs of several flows. The run lemmas (`Warranty.SavesAtMostOnce`, `Warranty.ProofWaitOutcome`, `Warranty.SettledKeepsTable` and the others) therefore assume that nothing else changes the table between one run's events. An item deleted by another flow between the click and the form, which sends `Warranty.Send` into its `Crashed` branch, cannot happen inside a single `Run` starting from the picker. Only the step lemmas (`Warranty.Send`, `Warranty.SubmitForm`) reach it, for an arbitrary table.
- File I/O: reading and writing `stocks_data.json` and `.env` (`aiofiles`, `dotenv_values`). The JSON text itself is not modelled; the snapshot is the list of entries `json.dump` writes. Of the four settings getters (calliope.py:46-63), `get_vouch_channel_id` and `get_moderator_id` are the fields of the per-event `Config`. `get_timer_value` appears only as the `ProofTimedOut` event, and the stored value only through `EnvFile`'s `/timer`. `get_category_id` (calliope.py:56-58) has no counterpart: the category the ticket channel is created in (calliope.py:149-151) is not modelled.
- `random.choice`, the clock, the `Asia/Manila` deadline shown in the pending notice, and `asyncio.gather`: the draws are inputs, and the deadline is only a timeout event.
- `/help`, `/payment`, `/settings`, `/warranty_activated` and `/warranty_voided` only post or edit text. `/channel`, `/moderator` and `/category` call `replace_env_variable`, which is modelled.
- The edit and delete item buttons' own clicks (calliope.py:409-417 and 436-442) read the live table and raise KeyError for a vanished item before any confirmation; unlike the ticket and warranty pickers they have no out-of-stock branch. They change nothing, so those two flows are modelled from their confirm and modal callbacks, `StockTable.Delete` and `StockTable.Edit`.
- A sold-out or vanished-item click in the warranty picker (calliope.py:325-339) returns without editing the message, so the flow stays in the picker, as `Warranty.PickingStep` states. Whether the platform still dispatches and answers a later click on that message, after `clear_items`, is not modelled.
- `Warranty.Send` computes the deduction on the table as a value, with `Stocks.Deduct`, because the state machine passes the table from step to step; `StockTable.DeductWarranty` is the same deduction as an in-place update and save.
- The warranty modal's link field and the way links are split into the DM: they only change text.
- Text.IsDigits: Python's `isdigit` also accepts non-ASCII digits such as superscripts; the model accepts only `0`-`9`.
- Text.Lower: Python's `lower` also folds non-ASCII letters; the model folds only `A`-`Z`.
- Exceptions other than the ones the code visibly raises: KeyError on a missing item, and AttributeError on a missing moderator role at calliope.py:175 and 618 (phases `Crashed` and `Unwatched`). Platform errors other than the refused DM are not modelled.

## Notable behaviour

- The warranty deduction subtracts unconditionally: stock can go below zero, and a second sale of more than is left is accepted (`Stocks.DeductHasNoFloor`).
- The warranty DM is sent before the stock is deducted, and the deduction is a separate step from the DM; an item deleted in the meantime crashes the flow after the DM has gone out (`Warranty.Send`).
- A rename onto an existing name overwrites that entry, and renaming an item to its own name moves it to the end of the table (`Stocks.Rename`).
- Every quantity field accepts `0`, since `isdigit` does.
- A voided warranty gives no stock back (`Warranty.ProofTimeoutVoids`).

## Findings

| source | as written | input that shows it | evidently intended | confidence | as-written member | corrected member |
|---|---|---|---|---|---|---|
| calliope.py:649-657 | the lock wait unpacks its result into `user`, overwriting the buyer, so the activation notice names the reacting moderator as the member who vouched | buyer 1 vouches and moderator 2 reacts with the lock: the notice says user 2 vouched and was verified by user 2 | the buyer is named as the voucher and the moderator as the verifier | high, not executed | Warranty.AsWrittenRunNamesModerator | Warranty.CorrectedNoticesNameBuyer |
