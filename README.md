# A verified model of the PIX storefront client

This project models, in Dafny, the client-side logic of a small storefront
that sells event tickets paid by PIX (the Brazilian instant-payment system).
It covers:

- the payment service: PIX key validation, pt-BR currency text (BRL),
  parsing of that text back to a number, the amount limit, and the two
  payload strings of a transfer;
- the PIX transfer wizard (recipient → amount → confirmation → success);
- the ticket checkout (details → payment → success), including the order it
  asks the store to create;
- the administration screen: slug generation, validation and saving of the
  product form, order status changes, the figures at the top of the page,
  and the status badges;
- the product card: badge, date, availability text, price and buy button.

Money is held as a whole number of cents. The admin form's price stays a
`real`, because it is what `parseFloat` reads from free text. The two
wizards, the checkout and the dashboard are classes whose fields are the
component's state, with one method per button or field handler. Everything
else is functions and lemmas.

Modules:

- `Wrappers`: `Option` and `Result`.
- `Js`: the JavaScript built-ins the code relies on, written out:
  - the `\s` class and `trim`;
  - `replace(/…/g, '')` as a character filter (`Keep`);
  - `replace` of the first match;
  - `parseInt` and `parseFloat` (ECMAScript sections 19.2.5 and 19.2.4);
  - `String(n)` of whole numbers and of amounts held in cents.
- `Base64`: `btoa`/`atob`, that is base 64 as in section 4 of RFC 4648,
  over Latin-1 text.
- `Brl`: the text `toLocaleString('pt-BR', {style: 'currency', currency: 'BRL'})`
  produces for an amount in cents. It is "R$", a no-break space, the
  integer part grouped by '.', ',' and two digits, with a leading '-' for
  negative amounts.
- `Domain`: `Product`, `Order`, `PaymentData` and the two status types.
- `PaymentService`, `PixApp`, `TicketPurchaseFlow`, `AdminDashboard`,
  `ProductCard`: one module per source file.

The following are parameters of the model rather than parts of it:

- the random four-character suffix of the copy-paste code;
- the outcome of the store's `createOrder` call and whether the store
  accepts a product write;
- the pt-BR date rendering;
- `new Date(d).toISOString().slice(0, 16)`;
- `toLowerCase().normalize('NFD')`, as a function `fold`.

`ProductCard.ShowsStatusBadge` states that the badge is drawn only over an
image (src/components/ProductCard.tsx:47-60).

Two behaviours of the code worth knowing:

- The amount step's gate (`canProceedFromAmount`) has no ceiling. Only
  `validateAmount` has one, and the wizard never calls it
  (`PixApp.AmountGateHasNoCeiling`: R$ 10.000,01 passes the gate).
- The checkout's "payment made" button only changes the step, so the order
  stays `pending` (`TicketPurchaseFlow.PaidFlowLeavesOrderPending`). Orders
  become paid only through the dashboard's status change.

## Model

| member | source | states |
|---|---|---|
| PaymentService.QRCodeRoundTrip | src/services/paymentService.ts:4-8 | The QR payload exists exactly when recipient, amount and description are all Latin-1 text (otherwise `btoa` throws), and then it decodes back to "PIX\|recipient\|amount\|description". |
| Base64.DecodeEncode | src/services/paymentService.ts:7 | Decoding the base-64 encoding of any byte sequence gives the bytes back. |
| Base64.Encode | src/services/paymentService.ts:7 | The encoding is four characters for every started group of three bytes. |
| Base64.AtobBtoa | src/services/paymentService.ts:7 | `btoa` fails exactly when some character is above U+00FF; otherwise `atob(btoa(s)) == s`. |
| PaymentService.CopyPasteEnds | src/services/paymentService.ts:10-13 | The copy-paste code opens with the fixed head followed by the recipient and closes with the random suffix. |
| PaymentService.CopyPasteAmount | src/services/paymentService.ts:12 | Only the first '.' of the amount is removed in the code. |
| PaymentService.FormatCurrencyOfDigits | src/services/paymentService.ts:15-25 | `formatCurrency` is "" when the input has no digit, else the BRL text of the input's digits read as cents. |
| PaymentService.FormatCurrencyEmpty | src/services/paymentService.ts:15-25 | `formatCurrency` gives "" exactly when the input has no digit. |
| PaymentService.FormatCurrencyIdempotent | src/services/paymentService.ts:15-25 | Formatting already formatted text changes nothing. |
| Brl.FormatBRLLayout | src/services/paymentService.ts:21-24 | For cents ≥ 0 the text starts with "R$" and a no-break space, then holds only digits and '.', then the text's only ',', third from the end, then the two digits of cents. |
| Brl.FormatBRLDigits | src/services/paymentService.ts:21-24 | The digits of the BRL text of `c` cents, read as a number, are `c`. |
| Brl.GroupedDigits | src/services/paymentService.ts:21-24 | The '.'-grouped integer part has digits and they read back as the integer. |
| Brl.FormatBRLInjective | src/components/ProductCard.tsx:24-29 | Different non-negative amounts give different BRL texts. |
| PaymentService.ParseCurrencyOfBRL | src/services/paymentService.ts:27-30 | Parsing the BRL text of `c` cents (c ≥ 0) gives exactly c/100: the "R$", the thousands '.' and the space vanish and the ',' becomes the point. |
| PaymentService.ParseCurrencyOfFormat | src/services/paymentService.ts:15-30 | For input with digits, `parseCurrencyToNumber(formatCurrency(v))` is the input's digits read as an integer, divided by 100. |
| PaymentService.ParseCurrencyOfNoDigits | src/services/paymentService.ts:27-30 | Input without a digit parses to 0 (NaN and the empty text become 0). |
| PaymentService.ValidateAmountOfBRL | src/services/paymentService.ts:32-35 | A formatted amount is valid exactly when 0 < cents ≤ 1 000 000 (R$ 10.000,00 passes, R$ 10.000,01 does not); input without a digit is never valid. |
| PaymentService.EmailPatternIff | src/services/paymentService.ts:39-45 | The email regular expression accepts exactly the keys with no white space, exactly one '@' that is not first, and a '.' after the '@' with text on both sides. |
| PaymentService.PhoneDigits | src/services/paymentService.ts:40-46 | The phone pattern on the key's digits holds exactly for 12 or 13 digits starting with "55"; its optional '+' never matters. |
| PaymentService.ValidatePIXKeyIff | src/services/paymentService.ts:37-49 | A key is valid iff it has the email shape, or its digits alone form a phone number, or number exactly 11 or 14 (no check digits), or it is a hex UUID in either case. |
| PaymentService.SampleCpfKey | src/services/paymentService.ts:41-48 | "123.456.789-09" is accepted, through its digits. |
| PaymentService.SampleEmailKey | src/services/paymentService.ts:39-45 | "user@example.com" is accepted. |
| PaymentService.SampleRejectedKey | src/services/paymentService.ts:37-49 | "abc" is rejected. |
| Js.ParseIntOfDigits | src/services/paymentService.ts:17 | `parseInt` of a decimal numeral, with radix 10 or none, is its value; of no digits it is NaN. |
| Js.TrimEmptyIffBlank | src/components/PIXApp.tsx:49-51 | `trim()` is empty exactly when the text is all white space. |
| Domain.StatusNamesRoundTrip | src/types/product.ts:7-25 | Each product and payment status is read back from its name. |
| Domain.StatusNamesDisjoint | src/types/product.ts:7-25 | No name is both a product status and a payment status. |
| PixApp.FormatCurrencyAgrees | src/components/PIXApp.tsx:30-38 | The wizard's own `formatCurrency` (with `Number`) agrees with the payment service's (with `parseInt`) on every input. |
| PixApp.FormatCurrencyIdempotent | src/components/PIXApp.tsx:30-43 | The amount field's formatting is idempotent and gives "" exactly for input without a digit. |
| PixApp.RecipientGate | src/components/PIXApp.tsx:49-51 | The recipient step lets the user continue exactly when the recipient is not blank. |
| PixApp.AmountGate | src/components/PIXApp.tsx:45-55 | For a stored amount, the amount gate opens exactly when the amount parses to more than 0 reais, and the amount is then the BRL text of its digits. |
| PixApp.AmountGateHasNoCeiling | src/components/PIXApp.tsx:53-55 | R$ 10.000,01 passes the wizard's gate although `validateAmount` rejects it. |
| PixApp.Wizard.constructor | src/components/PIXApp.tsx:22-28 | The wizard starts at the recipient step with type CPF and empty recipient, amount and description. |
| PixApp.Wizard.SelectRecipientType | src/components/PIXApp.tsx:71-72 | Choosing a key type clears the recipient and keeps the amount and the description. |
| PixApp.Wizard.EditRecipient | src/components/PIXApp.tsx:123 | Typing in the recipient changes only the recipient. |
| PixApp.Wizard.Continue | src/components/PIXApp.tsx:130-131 | "Continuar" moves to the amount step exactly when the recipient gate is open; the data is unchanged. |
| PixApp.Wizard.EditAmount | src/components/PIXApp.tsx:40-43 | The amount field stores the formatted input and no other field changes. |
| PixApp.Wizard.EditDescription | src/components/PIXApp.tsx:176 | Typing in the description changes only the description. |
| PixApp.Wizard.BackToRecipient | src/components/PIXApp.tsx:146 | The back arrow of the amount step returns to the recipient step and keeps the data. |
| PixApp.Wizard.Review | src/components/PIXApp.tsx:196-197 | "Revisar" moves to confirmation exactly when the amount gate is open; the data is unchanged. |
| PixApp.Wizard.BackToAmount | src/components/PIXApp.tsx:211 | Going back from confirmation returns to the amount step and keeps the data (also the button at line 265). |
| PixApp.Wizard.Confirm | src/components/PIXApp.tsx:271 | Confirming moves from confirmation to success unconditionally; it is the only way into success. |
| PixApp.Wizard.NewTransfer | src/components/PIXApp.tsx:307-315 | "Nova Transferência" restores exactly the initial state. |
| PixApp.ReviewedTransfer | src/components/PIXApp.tsx:49-55 | In confirmation and success the recipient is not blank and the amount is the BRL text of a positive number of cents. |
| TicketPurchaseFlow.OrderRequest | src/components/TicketPurchaseFlow.tsx:36-52 | The order sent has the product's price as unit price, total = unit price × quantity, status pending, method "pix", the company key and the form's fields. |
| TicketPurchaseFlow.QuantityFromInputKeeps | src/components/TicketPurchaseFlow.tsx:125 | The stored quantity is never 0: unparsable input and 0 become 1, and any other typed integer is kept, negative ones included. |
| TicketPurchaseFlow.StepBadgeDistinct | src/components/TicketPurchaseFlow.tsx:242 | The three step labels are distinct. |
| TicketPurchaseFlow.CopyPixCodeCarriesTotal | src/components/TicketPurchaseFlow.tsx:65-71 | The copied code names the company key after its head, and the amount handed over reads back as the total in reais. |
| Js.ParseFloatOfCents | src/components/TicketPurchaseFlow.tsx:69 | `parseFloat(String(c / 100))` is c/100 for every whole number of cents. |
| TicketPurchaseFlow.CopiedAmountIsAmbiguous | src/components/TicketPurchaseFlow.tsx:69 | Because the point is dropped, totals of R$ 12,50 and R$ 1,25 put the same digits in the code. |
| TicketPurchaseFlow.Flow.constructor | src/components/TicketPurchaseFlow.tsx:22-31 | The checkout starts at the details step with quantity 1, empty text fields and an empty order id. |
| TicketPurchaseFlow.Flow.EditName | src/components/TicketPurchaseFlow.tsx:88 | Typing the name changes only the name. |
| TicketPurchaseFlow.Flow.EditPhone | src/components/TicketPurchaseFlow.tsx:98 | Typing the phone changes only the phone. |
| TicketPurchaseFlow.Flow.EditEmail | src/components/TicketPurchaseFlow.tsx:111 | Typing the email changes only the email. |
| TicketPurchaseFlow.Flow.EditQuantity | src/components/TicketPurchaseFlow.tsx:125 | The quantity becomes `parseInt(v) \|\| 1` and nothing else changes. |
| TicketPurchaseFlow.Flow.EditNotes | src/components/TicketPurchaseFlow.tsx:134 | Typing the notes changes only the notes. |
| TicketPurchaseFlow.Flow.Submit | src/components/TicketPurchaseFlow.tsx:149-151 | When name, phone and email are non-empty (white space counts) and no order is under way, the order request is sent and loading starts; otherwise nothing happens. |
| TicketPurchaseFlow.Flow.OrderSettled | src/components/TicketPurchaseFlow.tsx:38-63 | On success the order id is stored and the step becomes payment; on failure step and order id are unchanged. |
| TicketPurchaseFlow.Flow.PaymentDone | src/components/TicketPurchaseFlow.tsx:182-184 | "Pagamento Efetuado" moves to success unconditionally and changes nothing else. |
| TicketPurchaseFlow.PaidFlowLeavesOrderPending | src/components/TicketPurchaseFlow.tsx:182-184 | At success the order in the store is still pending, with total = unit price × quantity. |
| AdminDashboard.SlugChars | src/components/AdminDashboard.tsx:64-72 | A generated slug holds only a-z, 0-9 and '-', and removing the combining marks first makes no difference to which characters remain. |
| Js.KeepKeep | src/components/AdminDashboard.tsx:68-69 | Filtering by a wider class first does not change what a narrower filter keeps. |
| AdminDashboard.HyphenateRun | src/components/AdminDashboard.tsx:70 | A run of white space becomes a single '-'. |
| AdminDashboard.HyphenateWithoutWhitespace | src/components/AdminDashboard.tsx:70 | Text without white space is left as it is. |
| AdminDashboard.SlugIdempotent | src/components/AdminDashboard.tsx:64-72 | The slug of a slug is the slug itself. |
| AdminDashboard.LeadingSpaceBecomesHyphen | src/components/AdminDashboard.tsx:69-71 | Since `trim` runs after hyphenation, a name whose lower-cased, decomposed form starts with white space (as " Show 2024" does) gets a slug starting with '-'. |
| AdminDashboard.TrailingSpaceBecomesHyphen | src/components/AdminDashboard.tsx:69-71 | Likewise a name whose lower-cased, decomposed form ends with white space gets a slug ending with '-'. |
| AdminDashboard.BuildProductData | src/components/AdminDashboard.tsx:76-92 | The form is refused, with the required-fields message, exactly when the name is empty or the price is NaN or 0. |
| AdminDashboard.NegativePriceAccepted | src/components/AdminDashboard.tsx:77-81 | A negative price passes validation and is kept. |
| AdminDashboard.SubmittedSlug | src/components/AdminDashboard.tsx:76 | A typed slug is kept verbatim; an empty one is generated from the name. |
| AdminDashboard.EditThenSubmit | src/components/AdminDashboard.tsx:133-146 | Opening a product for editing and saving it unchanged writes back its name, status, slug, price in reais, limit and description; null image and date stay null. |
| AdminDashboard.StatusUpdateEffect | src/components/AdminDashboard.tsx:148-153 | A status update changes only the payment status of the orders with that id. |
| AdminDashboard.StatsBounds | src/components/AdminDashboard.tsx:183-190 | The pending count is at most the number of orders; without paid orders the revenue is 0. |
| AdminDashboard.FiguresConcat | src/components/AdminDashboard.tsx:183-190 | Revenue and pending count add up over a split of the order list. |
| AdminDashboard.StatusChangeFigures | src/components/AdminDashboard.tsx:183-190 | Changing one order's status moves only that order's total in or out of the revenue and its count in or out of the pending figure. |
| AdminDashboard.StatusBadgeVariantTable | src/components/AdminDashboard.tsx:168-181 | The badge variant lookup gives the fixed variant of each of the eight statuses and 'default' for any other name. |
| AdminDashboard.Dashboard.constructor | src/components/AdminDashboard.tsx:25-34 | The screen starts with no data, the dialog closed, nothing being edited and the empty form. |
| AdminDashboard.Dashboard.DataLoaded | src/components/AdminDashboard.tsx:51-52 | A successful fetch replaces the product and order lists and nothing else. |
| AdminDashboard.Dashboard.NewProduct | src/components/AdminDashboard.tsx:281-294 | "Novo Produto" clears the product being edited, resets the form and opens the dialog. |
| AdminDashboard.Dashboard.SetDialogOpen | src/components/AdminDashboard.tsx:390 | Closing the dialog changes neither the form nor the product being edited. |
| AdminDashboard.Dashboard.EditField | src/components/AdminDashboard.tsx:313-385 | A form field edit changes that field only. |
| AdminDashboard.Dashboard.EditStatus | src/components/AdminDashboard.tsx:348 | The status selector changes only the form's status. |
| AdminDashboard.Dashboard.EditProduct | src/components/AdminDashboard.tsx:133-146 | Editing a product fills the form from it, remembers it and opens the dialog. |
| AdminDashboard.Dashboard.SubmitProduct | src/components/AdminDashboard.tsx:74-131 | An invalid form writes nothing; a valid one is an update of the edited product or an insert; only an accepted write closes the dialog and resets the form, otherwise nothing changes. |
| AdminDashboard.Dashboard.UpdateOrderStatus | src/components/AdminDashboard.tsx:148-153 | Whatever the order list, the update sent changes the payment status of the orders with that id to the new status and leaves every other field and every other order as it was. |
| ProductCard.FormatDateCases | src/components/ProductCard.tsx:13-22 | A missing or empty date reads "Data a definir"; any other date is rendered. |
| ProductCard.PriceTextDistinguishes | src/components/ProductCard.tsx:24-29 | Different non-negative prices are shown as different texts. |
| ProductCard.StatusBadgeTable | src/components/ProductCard.tsx:31-40 | Each product status gets its caption and variant, and any other name gets the 'active' badge. |
| ProductCard.BadgeVariantsAgree | src/components/ProductCard.tsx:31-40 | The card and the dashboard give a name the same badge variant exactly when it is not 'pending', 'cancelled' or 'refunded'. |
| ProductCard.AvailabilityReadsBack | src/components/ProductCard.tsx:43 | "Ilimitado" is shown exactly when there is no maximum or it is 0; otherwise the text reads back as the sold count, '/', and the maximum. |
| Js.ParseIntOfIntToStringThen | src/components/ProductCard.tsx:43 | `parseInt` of a number's text followed by a non-digit gives the number. |
| ProductCard.BuyButton | src/components/ProductCard.tsx:86-92 | The buy button is enabled exactly for an active product, and exactly then reads "Comprar Agora". |
| PaymentService.GeneratePIXQRCode | src/services/paymentService.ts:4-8 | `btoa` of "PIX\|recipient\|amount\|description"; None where `btoa` throws. |
| Base64.Btoa | src/services/paymentService.ts:7 | `btoa`: the base-64 encoding of the Latin-1 bytes of the text; None when a character is above U+00FF. |
| PaymentService.GeneratePIXCopyPaste | src/services/paymentService.ts:10-13 | The fixed head, the recipient, "52040000530398654", the amount without its first '.', "5802BR5909", the description, "6008BRASILIA62070503***6304" and the random suffix, in this order. |
| Js.ReplaceFirst | src/services/paymentService.ts:12 | String `replace` with a string pattern: only the first occurrence is replaced. |
| PaymentService.FormatCurrency | src/services/paymentService.ts:15-25 | The input's digits read with `parseInt(…, 10)` as cents and shown as BRL text; "" when `parseInt` gives NaN. |
| Js.StripNonDigits | src/services/paymentService.ts:16 | `replace(/\D/g, '')`: the digits of the text, in order. |
| Js.ParseInt | src/services/paymentService.ts:17 | `parseInt`: white space skipped, one sign, a "0x" prefix when the radix allows it, then the longest run of digits of the radix; None is NaN. |
| Brl.FormatBRL | src/services/paymentService.ts:21-24 | pt-BR currency text of an amount in cents: optional '-', "R$", a no-break space, the reais grouped by '.', ',' and two digits of cents. |
| PaymentService.ParseCurrencyToNumber | src/services/paymentService.ts:27-30 | Digits and commas are kept, the first comma becomes '.', and `parseFloat` reads the result; NaN (and 0) give 0. |
| Js.ParseFloat | src/services/paymentService.ts:29 | `parseFloat`: white space skipped, one sign, then the longest decimal literal with an optional exponent; None is NaN. |
| PaymentService.ValidateAmount | src/services/paymentService.ts:32-35 | The parsed amount is above 0 and at most 10000. |
| PaymentService.ValidatePIXKey | src/services/paymentService.ts:37-49 | The email or UUID pattern on the key as typed, or the phone, CPF or CNPJ pattern on its digits. |
| PixApp.FormatCurrency | src/components/PIXApp.tsx:30-38 | "" for input without a digit, else the BRL text of `Number(digits) / 100`. |
| PixApp.NumericAmount | src/components/PIXApp.tsx:45-47 | The digits of the stored amount. |
| Js.Trim | src/components/PIXApp.tsx:50 | `trim`: white space and line terminators removed at both ends. |
| PixApp.CanProceedFromRecipient | src/components/PIXApp.tsx:49-51 | The trimmed recipient is not empty. |
| PixApp.CanProceedFromAmount | src/components/PIXApp.tsx:53-55 | The amount has digits and their value is above 0. |
| TicketPurchaseFlow.TotalAmount | src/components/TicketPurchaseFlow.tsx:36 | The product's price times the form's quantity, in cents. |
| TicketPurchaseFlow.QuantityFromInput | src/components/TicketPurchaseFlow.tsx:125 | `parseInt(v) \|\| 1`: NaN and 0 become 1. |
| TicketPurchaseFlow.SubmitEnabled | src/components/TicketPurchaseFlow.tsx:151 | Name, phone and email are not empty and no order is being created. |
| TicketPurchaseFlow.CopyData | src/components/TicketPurchaseFlow.tsx:66-71 | The payment data of the copied code: type "email", the company key, `String` of the total in reais, the product's name. |
| Js.CentsToJsString | src/components/TicketPurchaseFlow.tsx:69 | `String(c / 100)`: the integer part, then the cents without trailing zeros after a '.' when they are not zero. |
| TicketPurchaseFlow.CopyPixCode | src/components/TicketPurchaseFlow.tsx:65-71 | The copy-paste code of that payment data, with the random suffix given. |
| TicketPurchaseFlow.StepBadge | src/components/TicketPurchaseFlow.tsx:242 | "Dados", "Pagamento" or "Sucesso" for the three steps. |
| AdminDashboard.GenerateSlug | src/components/AdminDashboard.tsx:64-72 | Fold the name, drop the combining marks, keep `[a-z0-9\s-]`, replace each white-space run by '-', then trim. |
| AdminDashboard.HyphenateWhitespace | src/components/AdminDashboard.tsx:70 | `replace(/\s+/g, '-')`; the result has no white space. |
| AdminDashboard.MaxQuantityOf | src/components/AdminDashboard.tsx:90 | An empty field sends null, any other sends what `parseInt` reads, NaN included. |
| AdminDashboard.EditForm | src/components/AdminDashboard.tsx:133-146 | The form filled from a product: null description, limit and image become "", the price is `String` of the reais, the date is put in ISO form. |
| AdminDashboard.ApplyStatusUpdate | src/components/AdminDashboard.tsx:148-153 | What the store does with a status update: the orders with that id get the new payment status; the list keeps its length. |
| AdminDashboard.StatusBadgeVariant | src/components/AdminDashboard.tsx:168-181 | The variant table lookup by name, 'default' for any other name. |
| AdminDashboard.PaidOrders | src/components/AdminDashboard.tsx:187 | The orders whose payment status is paid, in order. |
| AdminDashboard.SumTotals | src/components/AdminDashboard.tsx:188 | The sum of the orders' totals. |
| AdminDashboard.PendingOrders | src/components/AdminDashboard.tsx:189 | The orders whose payment status is pending, in order; never more than the orders. |
| AdminDashboard.ComputeStats | src/components/AdminDashboard.tsx:183-190 | Number of products, number of orders, revenue of the paid orders, number of pending orders. |
| ProductCard.FormatDate | src/components/ProductCard.tsx:13-22 | "Data a definir" for a null or empty date, else the rendered date. |
| ProductCard.PriceText | src/components/ProductCard.tsx:24-29 | The BRL text of the price. |
| ProductCard.GetStatusBadge | src/components/ProductCard.tsx:31-40 | The caption and variant table lookup by name, the 'active' entry for any other name. |
| ProductCard.BadgeOf | src/components/ProductCard.tsx:32-37 | The caption and variant of each product status. |
| Js.IntToString | src/components/ProductCard.tsx:43 | `String(n)` of a whole number: '-' for negatives, decimal digits without leading zeros. |
| ProductCard.Availability | src/components/ProductCard.tsx:43 | "sold/max" when the maximum is set and not 0, else "Ilimitado". |
| ProductCard.ShowsStatusBadge | src/components/ProductCard.tsx:47-60 | The badge is drawn only when there is an image URL that is not empty. |
| ProductCard.BuyEnabled | src/components/ProductCard.tsx:88 | The buy button is enabled for an active product only. |
| ProductCard.BuyLabel | src/components/ProductCard.tsx:91 | "Comprar Agora" for an active product, else "Indisponível". |

## Left out

- Floating point: prices, totals and revenue are whole cents or reals. The JavaScript code computes with doubles, which lose precision beyond 2^53 and round `price * quantity`. Infinity and exponent forms of `toString` are not modelled either.
- Js.ParseFloat: the literal "Infinity" (with or without a sign) reads as NaN here, where JavaScript reads it as Infinity; the admin price field never yields it, because it is a number input.
- Prices with more than two decimals: products carry whole cents, so `String(price)` and `toLocaleString`'s rounding of a third decimal are not modelled.
- Locale formatting: the BRL text is written out over cents, as pt-BR renders it. Dates go through the `render` and `isoMinute` parameters. `toLowerCase().normalize('NFD')` is the `fold` parameter.
- `Math.random` in the copy-paste suffix: the suffix is a parameter, at most four characters of 0-9 and A-Z.
- PaymentService.CopyPasteEnds: the PIX BR Code (EMV) layout is not checked. The length fields "0136", "5909" and "54" are literals in the source and the CRC field is random, so no CRC16 and no field length is claimed.
- The store (Supabase): `fetchData`, `createOrder`, the product insert and update and the order update are I/O. Their outcomes are parameters (`OrderSettled`'s outcome, `SubmitProduct`'s `storeAccepts`) and the requests are returned values. The hooks in src/hooks are not part of this model.
- AdminDashboard.Dashboard.UpdateOrderStatus: only the request is modelled. Its effect on the stored list is `ApplyStatusUpdate`, which the screen sees after the next fetch.
- JSON encoding: a `max_quantity` that `parseInt` reads as NaN is kept as `NotANumber`; that it is stored as null is not modelled.
- `getStatusBadge` and `getStatusBadgeVariant` index a plain object: a name such as "toString" would hit an inherited property. The model treats every other name as unknown.
- Toasts, the clipboard, the `loading` spinner of the dashboard, dialogs as UI, JSX, CSS and `onBack` navigation.
- The browser's `min`/`max` on the quantity field are not enforced on typed text, so they are not modelled.
