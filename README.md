# A verified model of the DOLLYA STORE shop bot's order bookkeeping

The bot sells in-game fruit through a chat server and a small web panel. Its data lives in
Prisma tables. This project models those tables and the handlers that read and write them.

- **Delivery records.** Each record holds a buyer mention, an item, a copied item name and a quantity. It also holds the `messageSent` flag, the `messageStatus` code (102 pending, 200 done, 500 failed), an optional ticket channel, an optional delivery channel and an optional review.
  - A purchase, a gift redemption, the manual fallback and the panel's `/deliver` create records.
  - The Pix webhook pays a record: `handlePaidOrder` writes its delivery channel.
  - The review form finishes a record.
  - The proof page and two timers look at a record.
- **Small keyed stores.** The stock items, coupons, gift codes and warnings.
- **Text codecs the handlers use:**
  - the Pix transaction id;
  - custom-id decoding with `split('_')[2]`;
  - JavaScript's `parseInt`, with and without a radix;
  - the price-table embed and its re-parse at start-up;
  - mentions, the review stars and the warning tiers;
  - the panel's configuration patch.

The model has two layers, and a class for the configuration.

- **Transition functions.** Every handler is a function from the tables (`Schema.Db`) to the new tables and the handler's answer (`Outcome`). Each one follows the handler's branches in the handler's order. The lemmas about these functions state the properties.
- **The `Shop.Store` class.** Its fields are the tables. It has one method per handler, and each method does the handler's reads and writes step by step. Each method is proved to end in exactly the state its transition function gives, and to keep the table invariant `Schema.Valid`. So every lemma about the functions also holds of the object.
  - The loops are real loops with invariants: the webhook's `for` over the Pix entries, the dashboard's accumulator loop, the start-up sync's `forEach` and the `/update-stock` collection.
- **The `Settings.Config` class.** The mutable `CONFIG` object and its saved row.

Modelling choices:

- Integers are unbounded. Where the code relies on Prisma's 32-bit `Int` columns, the model says so explicitly.
  - A quantity, id or rating outside the 32-bit range makes a write or lookup fail. `JsNumbers.IsInt32` and `Schema.LookupId` model this.
- A coupon is created with no `isActive` value (index.js:1745-1751). The model gives it `isActive = true`, the column default Prisma's schema is taken to have; the schema is not part of this model.
  - NaN is `None`.
- Item prices are whole cents.
- The coupon percentage and the prices shown after a coupon are `real`.
- Chat-side effects appear only where they gate a database write. A created channel is appended to `Db.channels`, and its index is its id. Whether creating it succeeded is a boolean parameter.
- Three inputs are parameters:
  - the random bytes of a gift code;
  - `Number(...)` of a form field;
  - the `parseFloat` price reading of `/update-stock`.
- Text is `seq<char>`. `toUpperCase` is modelled on ASCII letters. `\s` is the JavaScript whitespace set.

An order's lifecycle is easily read as a status enum with a `Paid` state, and payment handling as idempotent, with a transaction id `TICKET<id>-<suffix>`. The code in index.js differs on all three points, and the model follows the code:

- There is no status field. The state is `messageSent`, `messageStatus` and whether a review exists.
- Paying writes only the delivery channel.
- The transaction id is built with no separator.

The findings below come from these differences.

## Model

| member | source | states |
|---|---|---|
| Text.SplitJoin | index.js:1317 | `split` loses nothing: joining the pieces with the separator gives the text back |
| Text.Split | index.js:1317 | `split` gives at least one piece and no piece holds the separator |
| Text.UpperIgnoresCase | index.js:1693 | two codes equal up to letter case upper-case to the same stored code |
| Text.Upper | index.js:1693 | `toUpperCase` keeps the length, upper-cases each letter in place and leaves no lower-case letter |
| JsNumbers.ParseInt | index.js:1318 | `parseInt(s, 10)` is a number exactly when, after the leading whitespace and an optional sign, a digit follows; a negative result needs a `-` |
| JsNumbers.ParseIntOfNat | index.js:1471 | the decimal text of a natural number reads back as that number |
| JsNumbers.ParseIntStopsAtNonDigit | index.js:1471 | digits followed by a non-digit read as the digits alone |
| JsNumbers.ParseIntAutoRadix | index.js:527 | `parseInt` without a radix agrees with the decimal reading unless the text has a `0x` prefix |
| JsNumbers.RadixReadingsDiffer | index.js:527 | `0x1A` reads as 26 without a radix and as 0 with radix 10 |
| JsNumbers.HexReading | index.js:527 | `parseInt('0x1A')` with no radix reads 26 |
| JsNumbers.DecimalReading | index.js:449 | `parseInt('0x1A', 10)` reads 0 |
| JsNumbers.AutoRadixOfNat | index.js:527 | the decimal text of a natural number reads back as that number without a radix too |
| JsNumbers.OrDefault | index.js:263-266 | `Number(x) \|\| d` is `d` for NaN and for 0, and the number otherwise |
| Txid.BuildTxid | index.js:1383 | the built id is `TICKET` followed by digits only |
| Txid.ParseTxid | index.js:807-810 | the webhook's pattern matches exactly when a digit follows `TICKET` |
| Txid.DecodedIsConcatenation | index.js:807-810 | decoding a built id gives the record id's digits followed by the timestamp's digits, as one number |
| Txid.DecodesIdIff | index.js:807-810 | a record id is decoded exactly when no digit follows its digits |
| Txid.NeverDecodesToOwnRecord | index.js:1383 | a built id never decodes to the record it was built for |
| Txid.SeparatedRoundTrip | index.js:807-810 | with a letter between id and timestamp, decoding gives the record id back |
| CustomId.ThirdSegment | index.js:1317 | `split('_')[2]` exists exactly when there are three pieces and holds no underscore |
| CustomId.ThirdSegmentAfterTwoWords | index.js:1546 | after two underscore-free words the third piece is the argument up to its first underscore |
| CustomId.RecordIdButtonsDecode | index.js:1668-1692 | `confirm_delivery_<n>`, `apply_coupon_<n>` and `coupon_modal_<n>` decode to `n` |
| CustomId.AdminConfirmDecodesWord | index.js:1597 | `admin_confirm_delivery_<n>` decodes to `delivery`, which reads as NaN |
| CustomId.WordIsNaN | index.js:1597 | a piece starting with a letter reads as NaN |
| CustomId.ItemIdTruncated | index.js:1317 | an item id containing `_` is cut at its first underscore |
| CustomId.MrCarrotExample | index.js:1317 | the default item `MR_CARROT` is read as `MR` |
| CustomId.AfterPrefix | index.js:1597 | the corrected decoder returns what follows a known prefix, exactly when the prefix is there |
| CustomId.AfterPrefixRoundTrip | index.js:1597 | the corrected decoder returns any argument whole, underscores included |
| CustomId.AdminConfirmCorrected | index.js:1597 | with the corrected decoder the admin button yields its record id |
| Display.MentionContent | index.js:394-397 | no mention gives the empty text; a 17-19 digit id is wrapped as `<@id>`; any other text passes through |
| Display.MentionRoundTrip | index.js:394-397 | a wrapped user id can be read back out of the mention |
| Display.Repeat | index.js:897 | `repeat` gives `n` copies of the character |
| Display.Stars | index.js:897 | a rating from 0 to 5 gives five symbols, the first `rating` full and the rest empty; any other rating makes `repeat` throw |
| GiftCodes.UpperHexDigit | index.js:1846 | each nibble is written as one upper-case hex digit that reads back as the nibble |
| GiftCodes.HexUpper | index.js:1846 | two upper-case hex digits per byte |
| GiftCodes.GiftCode | index.js:1846 | the code is `PRESENTE-` followed by two upper-case hex digits per random byte, with no lower-case letter; the four-byte draw gives a 17-character code |
| GiftCodes.GiftCodeDecodes | index.js:1846 | the code determines the bytes it was drawn from: different draws give different codes |
| GiftCodes.HexRoundTrip | index.js:1846 | reading the hex digits back gives the bytes |
| GiftCodes.TypedInAnyCase | index.js:1865 | a generated code typed in any letter case upper-cases to the stored code |
| Moderation.PunishmentFor | index.js:2208-2220 | nine or more warnings ban, six to eight time out for a week, three to five for a day, fewer do nothing |
| Moderation.Escalates | index.js:2208-2220 | more warnings never give a milder punishment |
| Moderation.WarnCountAppend | index.js:2202 | a new warning adds one to its own user's count and none to anyone else's |
| Moderation.WarnCount | index.js:2202 | a user's warning count is at most the number of warnings |
| Moderation.WarnRules | index.js:2181-2220 | only the owner warns; when fetching the warned member fails nothing is saved; otherwise a warning is appended, the user's count rises by one, the punishment is that of the new count, and no other user's count changes |
| Moderation.Warn | index.js:2181-2220 | a warning changes only the warnings table, and only by adding to it; a warning is given exactly when the caller is the owner and the member fetch succeeds |
| Moderation.ThirdWarningTimesOut | index.js:2208-2220 | a user's first and second warnings do nothing and the third times them out for a day |
| Settings.SandboxFlag | index.js:239 | the sandbox flag is set exactly for the value `true` or the text `'true'` |
| Settings.PatchProperties | index.js:231-239 | each of the nine patched fields keeps its value when absent from the body and takes the body's value when present, the sandbox flag becoming true exactly for `true` or `'true'`; the base URL and the external flag never change; an empty body changes nothing; patching twice equals patching once |
| Settings.ApplyPatch | index.js:229-240 | the patched configuration keeps the base URL and the external flag |
| Settings.Config.constructor | index.js:50-62 | `CONFIG` starts with empty ids, sandbox on, not managed externally, nothing saved |
| Settings.Config.SaveConfig | index.js:109-120 | a configuration from the environment is not saved; otherwise the saved row becomes the current configuration |
| Settings.Config.SaveConfigRoute | index.js:229-242 | the configuration becomes the patched one field by field, then it is saved unless managed externally |
| Schema.LookupId | index.js:1471-1472 | `findUnique` gets an id only for a number in the 32-bit column's range |
| Schema.Insert | index.js:1359-1369 | the record is stored under the next id, the id moves past it, and no other table changes |
| Schema.InsertValid | index.js:1359-1369 | a new record whose item and channels exist keeps the tables valid and takes an unused id |
| Inventory.CollapseSpace | index.js:256 | after `replace(/\s+/g, '_')` no whitespace remains and no lower-case letter is introduced |
| Inventory.NormaliseId | index.js:256 | a normalised id is upper case without whitespace |
| Inventory.CollapseRun | index.js:256 | a run of whitespace between two words becomes exactly one underscore |
| Inventory.NormaliseIdempotent | index.js:256 | a normal id is its own normal form, so normalising twice changes nothing |
| Inventory.NormaliseTwoWords | index.js:256 | two normal words joined by a space normalise to the words joined by `_` |
| Inventory.AddItemRules | index.js:252-273 | a missing id or name is refused; an existing normalised id is a duplicate; the write fails exactly when the `Number(x) \|\| d` quantity or maximum is outside the 32-bit column; an addition stores exactly `NewItem` (the upper-cased name, the fallbacks) under the normalised id and changes nothing else; a refusal changes nothing |
| Inventory.AddItem | index.js:252-273 | an item is added exactly when the id and name are given, the normalised id is new and the quantity and maximum fit the column; it is then the `Number(x) \|\| d` item under the normalised id, and only the stock changes |
| Inventory.MaxFallback | index.js:262-267 | a missing or zero maximum falls back to the quantity, and then to 100 |
| Inventory.AddItemValid | index.js:252-273 | an addition keeps the tables valid |
| Inventory.SpacedIdIsDuplicate | index.js:256-259 | `mr  carrot` is refused when `MR_CARROT` exists: ids differing only in letter case and whitespace name the same item |
| Inventory.DeleteItemRules | index.js:276-295 | a referenced item is never removed; a deletion happens exactly for an unreferenced existing id, and the new tables are then the old ones without that item; any other answer changes nothing; the tables stay valid |
| Inventory.DeleteItem | index.js:276-295 | either nothing changes or exactly the given item leaves the stock |
| Inventory.StockPatchRules | index.js:308-334 | the transaction commits exactly when every present quantity key of an existing item parses to a 32-bit number and every present price key reads as a price; a quantity key sets the parsed quantity and a price key the read price; an absent key keeps its own field; name, emoji and maximum never change; no item is added or removed and no other table changes; a refused transaction changes nothing |
| Inventory.StockPatch | index.js:308-334 | a refused patch changes nothing |
| Inventory.StockPatchIdempotent | index.js:308-334 | sending the same form twice leaves the stock as sending it once |
| Inventory.StockPatchValid | index.js:308-334 | the patch keeps the tables valid |
| Inventory.SeedDefaults | index.js:130-140 | an empty stock table gets the default stock and nothing else changes; a non-empty one is left alone |
| Inventory.MrCarrotIsNormalName | index.js:126 | the default id `MR_CARROT` is the normal form of its name |
| Inventory.SeedDefaultsValid | index.js:123-140 | seeding keeps the tables valid |
| StockEmbed.StockText | index.js:981 | a positive quantity is shown as its decimal text |
| StockEmbed.FormatCentsDigits | index.js:981 | the shown price is the whole reais, a point and two digits of cents, and it reads back as the price |
| StockEmbed.StripBold | index.js:1077 | removing `**` leaves no pair of asterisks and keeps a non-asterisk first character |
| StockEmbed.MatchAt | index.js:1078-1083 | a match of `Estoque:\s*([0-9]+\|ESGOTADO)` gives a quantity that is never negative |
| StockEmbed.SearchStock | index.js:1078 | the leftmost match gives a quantity that is never negative |
| StockEmbed.StockLineMatches | index.js:1078-1083 | the rendered stock line matches with the shown quantity, and `ESGOTADO` reads as 0 |
| StockEmbed.ReadRenderedQuantity | index.js:1076-1084 | reading a rendered field gives back the item's quantity, and 0 for a quantity shown as sold out |
| StockEmbed.FindByName | index.js:1074 | a found item exists, comes from the stock listing, and its name occurs in the field's name |
| StockEmbed.FindByNameFirst | index.js:1074 | `find` returns the first listed item whose name the field's name contains |
| StockEmbed.FindByNameNone | index.js:1074 | `find` gives `undefined` exactly when no listed item's name is contained in the field's name |
| StockEmbed.RenderValue | index.js:981 | a rendered value starts with the bold price label |
| StockEmbed.RenderField | index.js:980 | a rendered field's name is a non-empty prefix followed by the item's name |
| StockEmbed.RenderFields | index.js:979-981 | one field per listed item, in listing order, each rendered from its item |
| StockEmbed.RenderedNameContainsName | index.js:1074 | a rendered field's name contains its item's name, so `includes` matching finds an item for every rendered field |
| StockEmbed.SyncField | index.js:1074-1090 | one field's update adds or removes no item and changes nothing but quantities |
| StockEmbed.Sync | index.js:1068-1092 | syncing keeps the same items and changes nothing but quantities |
| StockEmbed.SyncFieldValid | index.js:1076-1092 | a field's update keeps the tables valid |
| StockEmbed.ReadBackOwnField | index.js:1074-1092 | when an item's own field finds it first, the field restores the item's quantity, clamped at 0, and nothing else |
| StockEmbed.PrefixNameTakesField | index.js:1074 | `MANGO`, listed first, takes the quantity shown for `MANGO ROSA` |
| StockEmbed.FindByField | index.js:1074 | the corrected matching finds an item exactly when its rendered field name is the field's name |
| StockEmbed.FindByFieldOwn | index.js:1074 | with distinct field names, each field finds its own item |
| StockEmbed.MatchField | index.js:1074 | either matching only ever picks an existing item |
| StockEmbed.SyncOwnRenderedField | index.js:1074-1090 | with exact matching, a field rendered from an item sets that item's quantity, negative values read back as 0, and nothing else |
| StockEmbed.SyncRenderedExact | index.js:1068-1092 | syncing fields rendered from one stock into a stock with the same names sets each rendered item's quantity as shown and leaves the rest alone |
| StockEmbed.SyncRoundTrip | index.js:1068-1092 | rendering the stock and reading the table back restores every quantity, clamped at 0, and changes nothing else |
| Orders.PurchaseRefusals | index.js:1320-1334 | an unknown item, a NaN or non-positive quantity, a quantity above the stock and a failed channel creation are refused exactly in those cases, in that order; a refusal changes nothing; against valid tables the record write never fails |
| Orders.PurchaseRules | index.js:1338-1369 | a purchase adds exactly one record under the next id: pending, not sent, with the asked quantity, the copied item name and the new ticket channel; it opens one channel; stock, coupons, gifts and reviews are untouched; the tables stay valid |
| Orders.PurchaseValid | index.js:1314-1369 | a purchase keeps the tables valid |
| Orders.Purchase | index.js:1314-1369 | the quantity modal never writes the stock, the coupons or the gift codes: the stock is not decremented |
| Orders.RedeemGiftRules | index.js:1865-1913 | a missing or spent code is refused and changes nothing; any other code is marked redeemed by this user; past that check the redemption succeeds exactly when the channel is created; a success adds exactly one pending record for one unit of the gift's item; the tables stay valid |
| Orders.RedeemGift | index.js:1862-1913 | only the records, the next id, the channels and the gift codes change; a code that passes the check is stored as redeemed by this user |
| Orders.RedeemOnce | index.js:1871-1883 | once a code has passed the check, any later redemption of it, in any letter case, is refused and changes nothing |
| Orders.CreateThenRedeem | index.js:1846-1853 | a created code is unredeemed, keeps the tables valid, and is redeemed however its letters are typed |
| Orders.CreateGift | index.js:1846-1853 | a code is created exactly when the item exists and the drawn code is new; it is then the code of the drawn bytes, with 17 characters, the `PRESENTE-` prefix and no lower-case letter, stored unredeemed as the only change; a failed write changes nothing |
| Orders.ManualFallbackRules | index.js:1543-1561 | the fallback records one unit for the buyer named in the menu's id, with no channel; an unknown item fails and changes nothing |
| Orders.ManualFallback | index.js:1543-1561 | only the records change; a created record has quantity 1 and is not sent |
| Orders.RecordDeliveryRules | index.js:359-420 | no channel, no item id and an unknown item are answered exactly in those cases; a delivery stores under the next id exactly the record with the mention, the item and its name, the quantity `Number(q) \|\| 1`, and finished when sent or failed when not, never pending; the message carries `MentionContent` of the mention, so a bare user id is sent as `<@id>`; refusals change nothing |
| Orders.RecordDelivery | index.js:359-420 | a delivery is recorded exactly when the channel is configured, the item exists and the quantity fits the column; only the records change; the record is marked sent exactly when the message was sent |
| Orders.ConfirmDeliveryFinds | index.js:1471-1472 | the owner's `confirm_delivery_<n>` button finds record `n` |
| Orders.ConfirmButton | index.js:1460-1474 | exactly a non-owner is refused; a found record exists |
| Orders.AdminConfirmNeverFinds | index.js:1597-1598 | the delivery channel's button never finds a record |
| Orders.AdminConfirmButtonCorrected | index.js:1589-1600 | the corrected button finds only existing records |
| Orders.AdminConfirmButtonCorrectedFinds | index.js:1597-1598 | the corrected button finds record `n` |
| Orders.SubmitReviewRefusals | index.js:449-509 | the review form refuses exactly the requests the review page refuses, and a refusal changes nothing; an accepted request is saved exactly when the rating reads as a 32-bit number, and otherwise fails at the review write |
| Orders.SubmitReviewRules | index.js:496-509 | a saved review sets the record to sent and done, attaches exactly one review and changes no other record or table; a rating the column refuses still finishes the record but adds no review; the tables stay valid; the stars exist for ratings from 0 to 5 |
| Orders.SubmitReviewValid | index.js:468-509 | a submission keeps the tables valid |
| Orders.ReviewSavedRules | index.js:496-509 | the saved case: the record is set to sent and done, exactly one review is attached, no other table changes, and the stars exist for ratings from 0 to 5 |
| Orders.ReviewFailedRules | index.js:496-509 | when the review write fails the record is already marked sent and no review is stored |
| Orders.SubmitReview | index.js:468-509 | only the records and the reviews change; no record appears or disappears and no review is removed; for a request the review page accepts, the review is saved exactly when the rating fits the column and the write fails exactly when it does not |
| Orders.ReviewPageAllowed | index.js:447-458 | the review page opens only for an id read as a number from 0 up in the 32-bit range |
| Orders.ProofPageAllowed | index.js:525-529 | the proof page opens only for an id `parseInt` reads as a number from 0 up whose record the payment timer would still close |
| Orders.PaymentTimeoutFires | index.js:1407-1416 | the payment timer acts only on an existing record |
| Orders.ReviewTimeoutFires | index.js:1627-1640 | the review timer fires exactly when the payment timer would |
| Orders.SecondReviewRefused | index.js:478-480 | a second submission for a reviewed record is refused, the first review stays, and the page is closed |
| Orders.ReviewDisarmsGuards | index.js:529 | a reviewed record closes the proof page and disarms both timers |
| Orders.PurchaseArmsGuards | index.js:1407-1411 | a fresh purchase's record arms both timers |
| Orders.PagesReadIdsDifferently | index.js:449-529 | for `0x1A` the proof page opens record 26 while the review page reads record 0 |
| Payments.HandlePaidOrder | index.js:739-743 | a payment records on the record the id of the channel appended last; any other outcome changes nothing |
| Payments.HandlePaidOrderRules | index.js:703-787 | a missing record or item returns quietly; paying happens exactly when the record exists and the chat calls get as far as the write, and exception is raised exactly when a chat call throws, before or after the write; paying writes only the record's delivery channel, pointing it at the one channel appended; `messageSent` stays as it was |
| Payments.HandlePaidOrderValid | index.js:739-743 | paying keeps the tables valid |
| Payments.PaidOrderOnly | index.js:739-743 | paying changes only delivery channels of existing records and keeps the tables valid |
| Payments.ReadEntry | index.js:803-811 | only a completed entry with a matching txid reaches a record, and then with an id in the column's range |
| Payments.ReadEntryRules | index.js:803-811 | an entry reaches a record exactly when it is completed and its txid matches with an id in the 32-bit range; it throws exactly when it is completed and its txid is missing or decodes out of range |
| Payments.StepRules | index.js:803-820 | one entry changes only delivery channels and keeps the tables valid; an entry that aborts changes nothing unless a send threw after the write |
| Payments.StepGate | index.js:803-820 | an entry changes the tables exactly when it is completed, names a record the guard admits whose item exists, and the chat calls reach the write; the change is then one appended channel recorded on that record; the loop stops exactly at an entry that throws when read or whose payment throws |
| Payments.StepValid | index.js:803-820 | one entry keeps the tables valid |
| Payments.Webhook | index.js:795-803 | the test event, a body without a `pix` array and an empty array are acknowledged with no change |
| Payments.LateFailureKeepsWrite | index.js:739-773 | a send that throws after the write ends the request without `OK`, keeping the new channel on the record |
| Payments.NotifyRules | index.js:789-825 | whatever the notification, the webhook changes only delivery channels of existing records, only adds channels, and keeps the tables valid |
| Payments.BuiltTxidAborts | index.js:807-811 | a paid built txid makes the webhook fail before any change |
| Payments.BuiltTxidThrows | index.js:807-811 | a built txid, once the clock is past 2^31 milliseconds, is read with an id the 32-bit column refuses |
| Payments.ThrowingEntryAborts | index.js:803-825 | an entry that throws ends the request before any change |
| Txid.DecodedAtLeastTimestamp | index.js:807-810 | the number decoded from a built id is at least its timestamp |
| Payments.SeparatedTxidPays | index.js:803-820 | with the corrected txid the webhook pays the record it was built for |
| Payments.ReplayOpensTwoChannels | index.js:803-816 | the same payment notified twice opens two delivery channels for one record |
| Payments.ShortTxidReplays | index.js:803-816 | the entry `CONCLUIDA` with txid `TICKET5`, delivered twice with record 5 payable, opens two delivery channels for record 5 |
| Payments.ReplayCorrected | index.js:813-816 | with the corrected guard a repeated entry opens one channel |
| Payments.NotifyKeepsUnpayable | index.js:813-816 | the corrected webhook never makes a record payable again |
| Payments.StepKeepsUnpayable | index.js:813-816 | one entry under the corrected guard never makes a record payable again |
| Payments.NotifyNeverRepays | index.js:813-816 | with the corrected guard a record that has a delivery channel is never changed again, whatever the notification and the chat calls |
| Payments.NotifyCorrectedIdempotent | index.js:789-825 | with the corrected guard, delivering the same notification again, with the chat calls going the same way and none throwing after its write, changes nothing |
| Payments.PaidTicketStillTimesOut | index.js:1407-1411 | as written, the payment timer still closes the ticket of a paid order |
| Payments.PaymentTimeoutCorrected | index.js:1407-1411 | the corrected timer spares a paid order and still fires for a fresh purchase |
| Coupons.CreateCouponRules | index.js:1733-1765 | only the owner creates; the code is upper-cased; an existing code is a duplicate and the ledger is unchanged; a new coupon is active with the given uses |
| Coupons.CreateCoupon | index.js:1733-1765 | only the coupons change; a created code is present and active |
| Coupons.DeleteCouponRules | index.js:1768-1789 | exactly a non-owner is refused; for the owner a missing code is an error and changes nothing, and a present code is deleted, removing only that code |
| Coupons.DeleteCoupon | index.js:1768-1789 | exactly a non-owner is refused; a code is deleted exactly when the owner names a present code, upper-cased; only the coupons change and no code is added |
| Coupons.CreateThenDelete | index.js:1739-1774 | deleting a coupon just created, under the same code in any letter case, restores the ledger |
| Coupons.Discounted | index.js:1710-1712 | the new total is the old one scaled by the share not discounted, and between 0 and the old total for a percentage from 0 to 100 |
| Coupons.ApplyCouponRules | index.js:1689-1712 | an unknown, inactive or used-up code is refused and changes nothing; otherwise exactly one use is spent, whether or not the record is found, and nothing else changes; the shown total is the price less the percentage |
| Coupons.ApplyCoupon | index.js:1689-1712 | only the coupons change, and no code is added or removed |
| Coupons.ApplyToTicket | index.js:1668-1710 | the ticket's modal finds its record, and the total is the item's price times the quantity |
| Coupons.UsesCountDown | index.js:1697-1705 | a coupon with `u` uses left is accepted exactly `u` more times |
| Dashboard.Sales | index.js:172-202 | `totalSales` counts the sent records whose item exists, so there are at most as many sales as records |
| Dashboard.Sold | index.js:183-200 | without sales no units are counted as sold |
| Dashboard.ByName | index.js:183-200 | without sales the per-name table is empty |
| Dashboard.ByNameIsPerName | index.js:183-200 | the per-name table holds each name's units, and its names are exactly those of the counted records |
| Dashboard.StatsAppend | index.js:183-200 | units and sales over two runs of records add up |
| Dashboard.StatsOfOneMore | index.js:183-200 | an uncounted record changes no statistic; a counted one adds its quantity and one sale |
| Dashboard.InsertListedLast | index.js:172-175 | a new record is listed last |
| Dashboard.PurchaseKeepsStats | index.js:172-200 | a purchase's pending record leaves every statistic unchanged |
| Shop.Store.SeedDatabase | index.js:130-140 | the tables become what seeding gives, and stay valid |
| Shop.Store.AddFruit | index.js:252-273 | the tables and answer are those of `/add-fruit`, and the tables stay valid |
| Shop.Store.DeleteItem | index.js:276-295 | the tables and answer are those of `/delete-item`, and the tables stay valid |
| Shop.Store.UpdateStock | index.js:308-334 | the item updates are collected one by one and committed together or not at all, as the transaction does; the tables stay valid |
| Shop.Store.SyncFromTable | index.js:1068-1092 | the fields are applied one by one in field order with the matching `m`, as written or corrected; only the stock changes, no item is added or removed, and the tables stay valid |
| Shop.Store.Purchase | index.js:1314-1369 | the tables and answer are those of the quantity modal, and the tables stay valid |
| Shop.Store.RedeemGift | index.js:1862-1913 | the tables and answer are those of the redemption modal, and the tables stay valid |
| Shop.Store.CreateGift | index.js:1846-1853 | the tables and answer are those of the gift menu, and the tables stay valid |
| Shop.Store.ManualFallback | index.js:1543-1561 | the tables and answer are those of the manual fallback, and the tables stay valid |
| Shop.Store.Deliver | index.js:359-420 | the tables and answer are those of `/deliver`, and the tables stay valid |
| Shop.Store.SubmitReview | index.js:468-509 | the tables and answer are those of `/submit-review`, and the tables stay valid |
| Shop.Store.HandlePaidOrder | index.js:703-745 | the tables and answer are those of `handlePaidOrder`, and the tables stay valid |
| Shop.Store.PayEntry | index.js:803-816 | one pass of the loop leaves the tables as one step of the webhook does, and reports whether it threw |
| Shop.Store.Webhook | index.js:789-825 | under the guard `g`, as written or corrected, the entries are handled one by one, the i-th with the chat outcome `chat[i]`, stopping at the first exception; the tables and answer are those of the route; the tables stay valid |
| Shop.Store.CreateCoupon | index.js:1733-1765 | the tables and answer are those of `/criar-cupom`, and the tables stay valid |
| Shop.Store.DeleteCoupon | index.js:1768-1789 | the tables and answer are those of `/deletar-cupom`, and the tables stay valid |
| Shop.Store.ApplyCoupon | index.js:1689-1712 | the tables and answer are those of the coupon modal, and the tables stay valid |
| Shop.Store.DashboardStats | index.js:172-200 | the accumulator loop computes the units sold, the sales and the units per name over the records in id order |
| Shop.Store.Warn | index.js:2181-2220 | the tables and answer are those of `/advertir` for the given owner check and member fetch, and the tables stay valid |

## Left out

- Chat and HTTP side effects are left out: messages, embeds, buttons, channel deletion, roles, bans, timeouts, the HTML pages, file upload and the Express routing. They are foreign asynchronous I/O. Where the success of such a call gates a database write, it is a parameter: a boolean (`channelCreated`, `sent`, the member fetch `memberFound` of `/advertir`) or, for a payment, the chat outcome `Chat` of that entry.
- Timers and concurrency are left out. Each handler is one sequential step. The two timers are modelled only by the guard they run when they fire.
  - There are no races between timers and handlers.
  - The coupon check and decrement, which are not atomic in the code, are one step here.
  - The review timer is set without a delay. Only its guard is modelled.
- `processDelivery`, `efi.pixGenerateQRCode` and the `efi.js` wrapper around the payment SDK are not part of this model. Their effects cannot be seen.
- Floating point is left out:
  - the dashboard's revenue, sales by date and average;
  - `parseFloat` price readings;
  - `toFixed` rounding;
  - the price read back from the price table.
  Item prices are whole cents. The `/update-stock` price reading is the parameter `priceOf`.
- Shop.Store.SyncFromTable: the start-up sync reads the quantity only. The price its pattern would also read back is left out, since it is floating point.
- The punishment and judgment flow, configuration loading from the environment or the database, and command registration are left out. They are chat and environment I/O with no logic of their own.
- The random bytes of a gift code, the clock of the txid and `Number(...)` of a panel field are parameters. The clock values the code only stores (`createdAt`, the review and warning dates, the gift's `redeemedAt: new Date()`) are left out.
- The gift command's guard that refuses an empty stock list, and the listing of the stock in its menu, are left out. They only shape the menu.
- `handlePaidOrder` fetches the guild, the owner and the buyer, creates the channel and then sends two messages. The chat outcome of each entry is one of four values: all calls succeed, a fetch returns nothing (a quiet return), a call throws before the write, or a send throws after the write. A database failure between creating the channel and updating the record is not modelled.
- Payments.Step and Payments.Notify carry no contract of their own; what they do is stated by Payments.StepGate, Payments.StepRules and Payments.NotifyRules.
- Payments.NotifyCorrectedIdempotent: holds only when no send throws after its write (`NoLateFailure`). A late failure aborts the request before the later entries, and a resend then pays them, so the second delivery is not a no-op in that case.
- Promise updates that the start-up sync starts without awaiting are modelled as applied in field order. A failed one is skipped.
- Letter case is ASCII only. `toUpperCase` of other letters is not modelled.

## Findings

| source | as written | input that shows it | evidently intended | confidence | as-written member | corrected member |
|---|---|---|---|---|---|---|
| index.js:1383, 807-810 | the txid is `TICKET` + record id + `Date.now()` with no separator, and the webhook reads `^TICKET(\d+)` greedily | record 5 paid at time 1700000000000 decodes to 51700000000000, outside the 32-bit id column, so `findUnique` throws and the webhook fails | a separator between id and timestamp, so the record id is read back | not executed | Payments.BuiltTxidAborts | Payments.SeparatedTxidPays |
| index.js:1597 | the delivery channel's button reads `split('_')[2]` of `admin_confirm_delivery_<n>` | any `n`: the piece is `delivery`, `parseInt` gives NaN, and no review is ever requested from that button | read the id after the button's own prefix | not executed | Orders.AdminConfirmNeverFinds | Orders.AdminConfirmButtonCorrectedFinds |
| index.js:813-816, 741-744 | the webhook guard asks only `!messageSent`, and paying never sets it | the same `CONCLUIDA` entry delivered twice opens two delivery channels for one record. This is latent behind the first row: a txid built at index.js:1383 never pays a record. It shows for a txid whose digits are the record id, such as `TICKET5` for record 5, or for the separated form of the first row (Payments.ShortTxidReplays) | a repeated notification for a paid record is a no-op | not executed | Payments.ReplayOpensTwoChannels | Payments.NotifyNeverRepays |
| index.js:1409-1411, 741-744 | the payment timer closes the ticket whenever `messageSent` is false | a record paid within the 60 seconds still has its ticket closed for inactivity. Latent behind the first row like the previous one: it shows once record 5 is paid through a txid such as `TICKET5` | the timer spares a paid order | not executed | Payments.PaidTicketStillTimesOut | Payments.PaymentTimeoutCorrected |
| index.js:1074 | the start-up sync matches a field to the first item whose name the field's name contains | items `MANGO` and `MANGO ROSA`, listed in that order: the `MANGO ROSA` field sets the stock of `MANGO` | match the field to the item it was rendered for | not executed | StockEmbed.PrefixNameTakesField | StockEmbed.SyncRoundTrip |
