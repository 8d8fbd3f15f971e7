# Receipt processor: a verified model of the scoring and storage core

This project models the core of a small receipt-processing web service
written in Go. A client posts a receipt (retailer, purchase date and time,
items with descriptions and prices, total), all as JSON strings. The service
does four things:

- it converts the receipt into an internal record (`Objects.Convert`);
- it fingerprints the raw receipt with 32-bit FNV-1a (`Fingerprint.GenerateHash`);
- it scores the receipt with seven additive point rules (`Scoring.CalculatePoints`);
- it stores the receipt under a fresh identifier, which a later lookup answers with the points (`Store.ReceiptStore`).

Modules, in dependency order:

- `Wrappers`, `Text` (text.dfy): Go strings as byte sequences, plus the parts of `strings` the core uses:
  - `TrimSpace`, restricted to ASCII whitespace;
  - `Split` with a one-byte separator.
- `Strconv` (strconv.dfy): amounts parsed as exact integer cents in place of `strconv.ParseFloat`, and a range-checked `ParseInt`.
- `Objects` (objects.dfy): the receipt records, `Convert` as a loop over an item array, and the derivation of the four fields the scoring rules read. That derivation is `Normalize`.
- `Fingerprint` (fingerprint.dfy):
  - FNV-1a with offset basis 2166136261 and prime 16777619 (section 2 of the IETF draft "The FNV Non-Cryptographic Hash Algorithm");
  - `hash` and `generateHash` as loops, each proved equal to a fold.
- `Scoring` (scoring.dfy): one function per rule, their sum `Points`, and the loop implementation `CalculatePoints` proved equal to that sum.
- `Store` (store.dfy): the package-level `Receipts` map and `UniqueReceipts` fingerprint set, as a class:
  - `ProcessReceipts` is its insert transition;
  - `GetPoints` is its lookup;
  - HTTP responses become `Response` values.

Modelling decisions:

- **Strings are bytes.** Rule 5 uses `len` and `[0]`, which count and index
  bytes. Rule 1 iterates runes, but counting alphanumeric *bytes* gives the
  same number for every string:
  - `isAlphanumeric` is true only on ASCII (`Scoring.IsAlphanumeric`);
  - every byte of a multi-byte UTF-8 sequence is at least 0x80;
  - an invalid byte decodes to U+FFFD, which is not ASCII either.
- **Money is integer cents.** `ParseCents` accepts digits, optionally
  followed by '.' and at most two fractional digits, with at least one digit
  in all. A total with no decimal point is accepted, as `ParseFloat` accepts
  it: "35" is 3500 cents. `math.Ceil(price * 0.2)` becomes `(cents + 499) / 500`.
- **Go's `%` truncates toward zero.** This is modelled as `Scoring.GoRem`.
  It matters for rule 6: a negative odd day has Go remainder -1 and earns
  nothing.
- **Responses are a sequence.** `ProcessReceipts` returns every response the
  handler writes, in order. A handler that panics ends with `Aborted`: gin's
  Recovery middleware, which `gin.Default()` installs (src/service.go:10),
  catches the panic and ends the request. The status already written stays.
- **The fresh id is an argument.** The identifier that `uuid.New()` would
  draw is a parameter `freshId`, with the precondition `freshId !in Receipts`.

Three points where the code does something other than what its messages and
comments announce; the model follows the code:

- **Duplicates.** A resubmitted receipt is answered "Duplicate Request.", which
  announces a clean rejection. The branch has no `return`. It goes on to
  `c.Error(err)`, where `err` is still the nil error from `BindJSON`, and gin's
  `Context.Error` panics on a nil error. The request ends in that panic, so
  nothing is converted or stored, and the reply is `[Duplicate, Aborted]`
  (see "## Findings").
- **The rule count.** The comment above `calculatePoints`
  (src/handlers/receipts/process.go:92-102) lists eight rules. The code has
  seven; the eighth comment describes the else branch of rule 5.
- **Fields `calculatePoints` reads.** The `Receipt` struct at
  src/objects/receipt.go:6-14 declares none of `TotalCents`, `PurchaseDay`,
  `PurchaseHour` and `PurchaseMinute`, and neither `Convert` nor
  `ProcessReceipts` assigns them. `Objects.Normalize` derives them: the date
  is split on '-', the time on ':', the year is a signed 16-bit integer, and
  month, day, hour and minute are signed 8-bit integers. This step is the
  model's own and is flagged below.

## Model

| member | source | states |
|---|---|---|
| Text.TrimLeftFacts | src/handlers/receipts/process.go:128 | Left trimming keeps a suffix of the description, removes only whitespace, and stops at the first non-whitespace byte |
| Text.TrimRightFacts | src/handlers/receipts/process.go:128 | Right trimming keeps a prefix, removes only whitespace, and stops at the last non-whitespace byte |
| Text.TrimSpaceEdges | src/handlers/receipts/process.go:128-133 | The trimmed description is empty exactly when the description is all whitespace; otherwise it neither starts nor ends with whitespace |
| Text.TrimSpacePadding | src/handlers/receipts/process.go:128 | Trimming any whitespace padding around a core that has no whitespace at its ends gives the core back |
| Text.TrimSpaceIdempotent | src/handlers/receipts/process.go:128 | Trimming twice is the same as trimming once |
| Strconv.ParseCents | src/objects/receipt.go:46 | An amount parses only if it is non-empty and made of digits and '.'; the value is in whole cents |
| Strconv.FormatCentsRoundTrip | src/objects/receipt.go:46 | Parsing the canonical spelling "D.CC" of any amount gives that amount back |
| Objects.FirstBadPrice | src/objects/receipt.go:56-63 | None exactly when every price parses; otherwise the least index whose price fails, with every earlier price parsing |
| Objects.FirstBadPriceAt | src/objects/receipt.go:56-63 | A price that fails to parse after prices that all parse is the first bad price |
| Objects.Converted | src/objects/receipt.go:39-69 | Conversion succeeds exactly when the total and every price parse. On success: retailer, date and time are copied; item count, order and descriptions are kept; prices and total are parsed; Id, Points and the derived fields are zero |
| Objects.Convert | src/objects/receipt.go:39-69 | Text fields are copied first. A bad total fails with its text and no items. A bad price fails at the first bad index: earlier items complete, that item holding only its description, later items zero. No error exactly when `Converted` succeeds, and then the result equals it |
| Objects.ConvertToAPI | src/objects/receipt.go:39-69 | Converting the canonical API spelling of a fresh receipt with non-negative amounts recovers the receipt |
| Objects.Normalize | src/handlers/receipts/process.go:114-146 | Only the four derived fields change. The cent part is in 0..99 and reconstructs the total with the dollars. Day, hour and minute fit 8-bit signed values. Success needs exactly 3 date parts and 2 time parts |
| Objects.NormalizeFormatted | src/handlers/receipts/process.go:140-146 | For a date "Y-M-D" and a time "H:M" whose fields are non-empty digit strings with in-range values, leading zeros allowed, normalizing gives the day, hour and minute those digits spell, and the total modulo 100 |
| Objects.NormalizePadded | src/handlers/receipts/process.go:140-146 | The zero-padded spellings "2022-01-01" and "14:01" normalize to day 1, hour 14, minute 1 |
| Fingerprint.FoldAppend | src/handlers/receipts/process.go:67-71 | FNV-1a over a concatenation continues from the state left by the first part |
| Fingerprint.KnownDigests | src/handlers/receipts/process.go:67-71 | The published 32-bit FNV-1a test vectors: "" gives 0x811c9dc5, "a" gives 0xe40c292c, "foobar" gives 0xbf9cf968 |
| Fingerprint.Hash | src/handlers/receipts/process.go:67-71 | The byte-by-byte loop computes the FNV-1a digest of the string |
| Fingerprint.GenerateHash | src/handlers/receipts/process.go:76-90 | The result is the digest of retailer, date, time and total, followed by every item's description and price in item order |
| Fingerprint.ItemsTextAppend | src/handlers/receipts/process.go:84-87 | The items' contribution to the hash input is the contributions of the items one after another |
| Fingerprint.RetailerDateBoundary | src/handlers/receipts/process.go:79-80 | Moving bytes between retailer and date, with everything else equal, leaves the fingerprint unchanged |
| Fingerprint.ItemBoundary | src/handlers/receipts/process.go:84-87 | Receipts whose items agree on each description-plus-price concatenation have the same fingerprint |
| Fingerprint.SameItemsText | src/handlers/receipts/process.go:84-87 | Items that agree pairwise on description-plus-price give the same hash input |
| Fingerprint.ShiftedFieldsCollide | src/handlers/receipts/process.go:76-90 | Retailer "AB" with date "C" and retailer "A" with date "BC" are different receipts with the same fingerprint |
| Scoring.IsAlphanumeric | src/handlers/receipts/process.go:160-166 | True only on ASCII code points, so no byte of a multi-byte UTF-8 sequence qualifies |
| Scoring.GoRem | src/handlers/receipts/process.go:119-140 | Go's truncated division identity: the dividend is the divisor times the quotient truncated toward zero, plus the remainder. The remainder lies in [0, b) for a non-negative dividend and in (-b, 0] for a negative one |
| Scoring.GoRemFacts | src/handlers/receipts/process.go:119-142 | Go's remainder is 0 exactly when Dafny's is. Go's `a % 2 == 1` holds exactly for positive odd a |
| Scoring.AlphanumericCount | src/handlers/receipts/process.go:107-111 | Rule 1 never exceeds the retailer's length |
| Scoring.AlphanumericCountAppend | src/handlers/receipts/process.go:107-111 | Rule 1 is additive over concatenation of the retailer name |
| Scoring.AlphanumericCountBounds | src/handlers/receipts/process.go:107-111 | Rule 1 equals the length exactly when every byte is alphanumeric, and is 0 exactly when no byte is |
| Scoring.TotalRules | src/handlers/receipts/process.go:114-121 | Rules 2 and 3 together give 75 for 0 cents, 25 for 25, 50 or 75 cents, and 0 for any other cent value |
| Scoring.PairPoints | src/handlers/receipts/process.go:124 | Rule 4 is a multiple of 5, at most 2.5 points per item |
| Scoring.PairPointsTable | src/handlers/receipts/process.go:124 | 0-1 items give 0, 2-3 items give 5, 4-5 items give 10 |
| Scoring.PairPointsStep | src/handlers/receipts/process.go:124 | One more item adds 5 points exactly when it completes a pair |
| Scoring.CeilFifth | src/handlers/receipts/process.go:131 | For a price in cents, the result is the least k with 500k at least the price, i.e. the ceiling of a fifth of the dollar price |
| Scoring.ItemPoints | src/handlers/receipts/process.go:127-137 | When the trimmed length is not a multiple of 3, the item earns 0 or 10. When it is, the item earns the least k with 500k at least the price in cents, i.e. the ceiling of a fifth of the dollar price. A non-negative price never earns negative points |
| Scoring.ItemPointsCases | src/handlers/receipts/process.go:127-137 | When the trimmed length is not a multiple of 3, the trimmed description is non-empty (so `trimmed[0]` is in bounds), and the item earns 10 exactly when it starts with 'G' or 'g', otherwise 0. An all-whitespace description earns the price rule |
| Scoring.NegativePriceSubtracts | src/handlers/receipts/process.go:130-131 | Rule 5 can subtract: a price of -500.00 on the description "abc" earns ceil(-100.0) = -100 |
| Scoring.ItemPointsByTrim | src/handlers/receipts/process.go:128-136 | An item's points depend on its description only through the trimmed description |
| Scoring.ItemPointsIgnoresPadding | src/handlers/receipts/process.go:128-136 | Whitespace padding around a description never changes the item's points |
| Scoring.ItemsPointsAppend | src/handlers/receipts/process.go:127-137 | Rule 5 over a concatenation of item lists is the sum over the parts |
| Scoring.ItemsPointsPrefix | src/handlers/receipts/process.go:127-137 | Extending the scored prefix by one item adds that item's points |
| Scoring.ItemsPointsNonNegative | src/handlers/receipts/process.go:127-137 | Items with non-negative prices never lower the score |
| Scoring.OddDayPointsCases | src/handlers/receipts/process.go:140-142 | Rule 6 gives 6 exactly for a positive odd day, otherwise 0 |
| Scoring.AfternoonWindow | src/handlers/receipts/process.go:145-150 | Rule 7 gives 10 exactly on 14:01-14:59 and any time in hour 15, otherwise 0 |
| Scoring.AfternoonBoundaries | src/handlers/receipts/process.go:145-150 | 14:00 and 16:00 give 0; 14:01 and 15:59 give 10 |
| Scoring.Points | src/handlers/receipts/process.go:103-153 | Rules 2, 3, 6 and 7 together add between 0 and 91 points on top of rules 1, 4 and 5; none of these four ever subtracts |
| Scoring.PointsNonNegative | src/handlers/receipts/process.go:103-153 | A receipt with non-negative prices scores at least 0 |
| Scoring.PointsIgnoreBookkeeping | src/handlers/receipts/process.go:103-153 | The score does not depend on Id, Points, the raw date and time text, or the float total; it depends only on what the rules read |
| Scoring.CalculatePoints | src/handlers/receipts/process.go:103-153 | The two loops and the rule branches compute exactly the sum of the seven rules |
| Store.Scored | src/handlers/receipts/process.go:47-56 | A scored receipt exists exactly when conversion and normalization succeed. It is the converted, normalized receipt with only `Id` set to the given id and `Points` set to the score of its own rules |
| Store.ScoredPointsNonNegative | src/handlers/receipts/process.go:55-56 | The points stored for any accepted receipt are non-negative |
| Store.InsertKeepsWellKeyed | src/handlers/receipts/process.go:55-58 | Storing a receipt under its own id with its own points keeps every entry keyed by its id and scored by the rules |
| Store.ReceiptStore.constructor | src/handlers/receipts/process.go:15-19 | The store starts empty, with no fingerprints |
| Store.ReceiptStore.ProcessReceipts | src/handlers/receipts/process.go:27-62 | Unbindable JSON: BadJson and no change. A known fingerprint: Duplicate, then the panic of `c.Error(nil)` ends the request (Aborted), with no change. Otherwise, conversion failure: ConvertFailed and no change. Success: Ok(freshId), the scored receipt under freshId, every other entry unchanged, and the fingerprint recorded |
| Store.ReceiptStore.ProcessReceiptsChecked | src/handlers/receipts/process.go:40-45 | As ProcessReceipts, except that a known fingerprint returns cleanly with Duplicate alone, no panic, and nothing changed |
| Store.ReceiptStore.GetPoints | src/handlers/receipts/points.go:16-27 | A known id answers its stored points, equal to the rules' score of the stored receipt. An unknown id answers NotFound. Nothing changes |
| Store.InsertThenLookup | src/handlers/receipts/points.go:18-26 | After a successful insert of a receipt with a new fingerprint, looking the id up gives the score of its converted receipt. It still does after any other submission under a different fresh id |
| Store.LookupNeverIssued | src/handlers/receipts/points.go:18-24 | A lookup of an id that was never issued answers NotFound |
| Store.ResubmitAsWritten | src/handlers/receipts/process.go:40-61 | As written, resubmitting a payload answers Ok and then [Duplicate, Aborted]. Only the first copy is stored |
| Store.ResubmitChecked | src/handlers/receipts/process.go:40-45 | With the duplicate branch returning, the resubmission answers Duplicate alone, without a panic, and is not stored |

## Left out

- HTTP transport (gin's `BindJSON`, `JSON`, `Error`, `Param` and the status codes): a binding failure becomes `data == None`, and each response becomes a `Response` value. `Context.Error` has an effect on the model only in the duplicate branch, where its nil argument makes it panic (`Aborted`). Its documented panic on nil is gin's contract; gin is not part of this model. The 500 that Recovery attempts after the 400 was written is not modelled, and neither is the logged stack trace.
- `uuid.New()`: a foreign random generator. Its result is the caller-supplied `freshId`, with a precondition that it is not yet in use.
- Concurrency: the package-level maps are shared by concurrent handlers without a lock. Each request is modelled as one atomic step.
- Go's `hash/fnv` package internals: the FNV-1a fold is written out instead.
- Strconv.ParseCents: differs from `strconv.ParseFloat` in both directions. It rejects a sign, an exponent, "inf"/"nan", underscores, hexadecimal, and more than two fractional digits, all of which `ParseFloat` accepts. It accepts digit strings of any length, while `ParseFloat` fails with a range error above about 1.8e308 (for example "1" followed by 309 zeros); on such a total or price the source's `Convert` fails, and the model's succeeds. Amounts are exact cents, not binary floats.
- Scoring.CeilFifth: computed on exact cents. `math.Ceil(price * 0.2)` on a `float64` can differ at rounding edges, where the product of a decimal price and 0.2 is not exact.
- Objects.Normalize: the `Receipt` struct at src/objects/receipt.go:6-14 declares none of `TotalCents`, `PurchaseDay`, `PurchaseHour` and `PurchaseMinute`, and neither `Convert` nor `ProcessReceipts` assigns them. This split-and-parse step is therefore the model's own, and its failure answers ConvertFailed.
- Scoring.CalculatePoints: `points` is an `int64` in the source, and `int64(math.Ceil(price * 0.2))` at src/handlers/receipts/process.go:131 is out of range for large prices. The model uses unbounded integers and models neither the out-of-range conversion nor the wrap-around of `points +=`. Both are reachable with one item price of about 21 digits: "100000000000000000000.00" gives a fifth of 2e19, above the largest `int64`.
- Scoring.PointsNonNegative: holds only for non-negative prices and unbounded points. The source can score below zero in two ways. First, `ParseFloat` accepts a signed price such as "-500.00", which `ParseCents` rejects, and rule 5 then earns ceil(-100.0) = -100 (`Scoring.NegativePriceSubtracts`). Second, an item price of about 21 digits overflows the `int64` score.
- Store.ScoredPointsNonNegative: holds only because `ParseCents` rejects signed amounts and points are unbounded. In the source, an item "abc" priced "-500.00" on a receipt with a short retailer name stores a negative score, and so does an `int64` overflow.
- Unicode whitespace in `strings.TrimSpace` (U+0085, U+00A0 and the other non-ASCII spaces) is not trimmed by `Text.TrimSpace`. Only '\t', '\n', '\v', '\f', '\r' and ' ' are.
- main.go, service.go and src/service.go: router setup, with no logic.
- handlers/receipts/process.go: a superseded variant without scoring or duplicate detection. It is not part of this model.

## Findings

| source | as written | input that shows it | evidently intended | confidence | as-written member | corrected member |
|---|---|---|---|---|---|---|
| src/handlers/receipts/process.go:42-45 | The duplicate branch writes a 400 "Duplicate Request." response, then calls `c.Error(err)` with the nil error left by `BindJSON`, and has no `return`. gin's `Context.Error` panics on nil, so every duplicate ends in a panic. The rejection works only because the Recovery middleware of `gin.Default()` (src/service.go:10) catches it. The missing `return` is latent: without the panic, the request would go on to store the receipt | The same convertible payload submitted twice: the second submission answers [Duplicate, Aborted], the handler panicking after the 400 | A duplicate is answered with the 400 alone and the handler returns normally, with nothing stored or recorded | medium (not executed; rests on gin's documented contract for `Context.Error`) | Store.ResubmitAsWritten | Store.ResubmitChecked |
