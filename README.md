# Promo-code ledger: a Dafny model

A small Google Apps Script system keeps mobile-data promo codes in a spreadsheet. The sheet is "コード一覧", with seven columns:

1. entry date
2. mail receive date
3. code
4. amount
5. ordinal
6. limit date
7. used checkbox

Three scripts work on it:

- **Ingestion** (`getPromoCode.gs.js`) reads labelled mail threads and scans each message:
  - it finds code tokens in the HTML body;
  - it finds the input deadline and the usage count in the plain body;
  - it classifies each code by prefix, writes rows for it and removes duplicate rows.

  A message without codes aborts the run.
- **The LINE bot** (`getPromoCodeBot.gs.js`) checks the sender against an allow-list. It answers menu postbacks, and it hands out the unused code of a denomination that has the earliest limit date. It also counts unused codes per amount and sets the used flag of the first unused row holding a code.
- **The expiry watch** (`notifyLimitDate.gs.js`) collects the unused rows whose limit date falls within seven days. It builds the notice text that lists them.

The model has five modules, one file each.

- `text.dfy` (`Text`) holds character classes, decimal numerals, and JavaScript's `join` / `split` on strings.
- `ledger.dfy` (`Ledger`) holds:
  - the `Row` datatype;
  - the `Sheet` class, whose `rows` field the scripts change in place;
  - the duplicate key and keep-first removal;
  - the bot's read-only queries (earliest candidate, count per amount);
  - the first-unused search and the used-flag update on values.
- `ingest.dfy` (`Ingest`) holds:
  - the prefix classifier;
  - the code scanner, written as a left-to-right matcher with the same-line `</strong>` lookahead;
  - the deadline and usage-count scanners, with their lookbehinds;
  - `writeSheet`, written as the nested loop of cell writes it is, with a closed form of the rows it leaves;
  - the thread and message driver with its fail-fast error.
- `bot.dfy` (`Bot`) holds:
  - the state-tag table;
  - replies as text plus postback choices;
  - event handling on values (`EventOutcome`, `Batch`);
  - the handlers and `doPost` as methods over the sheet, each proved equal to the value-level semantics.
- `expiry.dfy` (`Expiry`) holds the expiry filter and the notice text, as the scripts' loops and as functions.

Reading the code gives these conventions:

- `rows[k]` is sheet row `k + 2`, because row 1 holds the column headers.
- Dates are integer day numbers, and a blank limit-date cell is `None`.
- The spreadsheet's conversion of the written deadline text to a date is a parameter `dateOf`. The date formatting of the notice is a parameter `format`.
- The clock is a parameter `today`. The model passes one `today` to every writeSheet call of a run. The source takes a new `Date` in each writeSheet call (`getPromoCode.gs.js:114`), so each message's rows get their own entry date. Column 1 is outside the duplicate key and no query reads it.

Behaviours reproduced as the code has them:

- **writeSheet's passes overlap.** Pass `i` starts one row lower than pass `i - 1`, while each pass writes every code. With `n` codes and limit `L`, `L + n - 1` rows remain rather than `L × n`. Row `t` holds ordinal `min(L, t + 1)`.
- **A multi-match usage count writes nothing.** A usage count found twice becomes `Number([a, b])`, which is NaN, so nothing is written.
- **Nothing is ever labelled 7GB.** The classifier has no 7GB rule, so the bot's 7GB button never finds a code among rows that ingestion wrote.
- **A failed mark is an exception.** Marking a code that no unused row holds calls `getRange(0, …)`. The model treats that as an exception that ends the request.
- **The watch throws.** It does so on an empty ledger (a zero-row range) and on a blank limit date (`getTime` of `""`).
- **The notice text.** No line break separates the list heading from the first `date：code` entry.

The expiry script reads a lower-case `sheet` that none of the three files defines. The model takes it to be the main ledger.

## Model

| member | source | states |
|---|---|---|
| Ingest.CodeAmount | getPromoCode.gs.js:222-244 | The classifier: the label of the first prefix rule that fits. Ingest.CodeAmountSpec states its meaning. |
| Ingest.CodeAmountSpec | getPromoCode.gs.js:222-244 | The label is one of the six strings. A code gets the label of rule k exactly when it starts with that rule's prefix. It gets `!!!!要確認!!!!` exactly when it starts with none of the prefixes. |
| Ingest.PrefixesExclusive | getPromoCode.gs.js:222-244 | No code starts with two of the five prefixes, so the order of the tests never picks between two rules. |
| Ingest.NoSevenGigLabel | getPromoCode.gs.js:222-244 | No label the classifier returns starts with `7GB`. |
| Ingest.TokenLengthSound | getPromoCode.gs.js:88-90 | A token the scanner finds at a position is a whole `[1-9][A-Z0-9]{13}` or `U24H[0-9]{1,2}T[A-Z0-9]{9}` token. |
| Ingest.TokenLengthComplete | getPromoCode.gs.js:88-90 | Any code token at a position is the one the scanner finds there. The alternatives cannot both match, and the two-digit `U24H` form is tried first. |
| Ingest.StrongAheadMeaning | getPromoCode.gs.js:89 | The lookahead `(?=.*</strong>)` holds iff `</strong>` follows later with no line terminator before it. |
| Ingest.CodeMatches | getPromoCode.gs.js:88-90 | The global scan of the code pattern, as (start, length) pairs. Ingest.CodeMatchesSound, Ingest.CodeMatchesOrdered, Ingest.CodeMatchesStart and Ingest.CodeMatchesComplete state its meaning. |
| Ingest.CodeMatchesSound | getPromoCode.gs.js:88-90 | Every match of the global scan is a code token followed on its line by `</strong>`. |
| Ingest.CodeMatchesOrdered | getPromoCode.gs.js:88-90 | Matches come left to right and do not overlap. |
| Ingest.CodeMatchesStart | getPromoCode.gs.js:88-90 | A scan from position p finds no match before p. |
| Ingest.CodeMatchesComplete | getPromoCode.gs.js:88-90 | Every place where a code token with the lookahead occurs lies inside some match, so the scan misses nothing. |
| Ingest.ExtractCodesTokens | getPromoCode.gs.js:88-91 | Each extracted code is the text of its match and is a code token. |
| Ingest.LabelBefore | getPromoCode.gs.js:93-100 | The lookbehind `(?<=label\n*)`. Ingest.LabelBeforeMeaning states what it means. |
| Ingest.LabelBeforeMeaning | getPromoCode.gs.js:93-100 | The lookbehind holds at p iff the label ends at some j ≤ p and only line feeds lie between j and p. |
| Ingest.NoLabelBefore | getPromoCode.gs.js:93-100 | The lookbehind fails where the character before p is neither a line feed nor the label's last character. |
| Ingest.DeadlineMatches | getPromoCode.gs.js:93-95 | Every deadline the scan finds matches `20[0-9]{2}/[0-9]{2}/[0-9]{2}` and is ten characters long. |
| Ingest.NoDeadlineInside | getPromoCode.gs.js:93-95 | No labelled date starts inside another date, because the character before it would be a digit or `/`. |
| Ingest.DeadlineMatchesExact | getPromoCode.gs.js:93-95 | The scan returns the texts of exactly the places where a date follows its label and line feeds. It returns them left to right and without overlap, and misses none. |
| Ingest.CountLengthExact | getPromoCode.gs.js:98-100 | `[0-9]{1,9}(?=回)` matches at p with length n iff 1 ≤ n ≤ 9, the n characters are digits, and `回` follows them. |
| Ingest.CountMatches | getPromoCode.gs.js:98-100 | Every usage count found is one to nine decimal digits. Ingest.CountMatchesExact states where they come from. |
| Ingest.NoCountInside | getPromoCode.gs.js:98-100 | No labelled count starts inside another count, because the character before it would be a digit. |
| Ingest.CountMatchesExact | getPromoCode.gs.js:98-100 | The scan returns the digits of exactly the places where a count that `回` follows comes after its label and line feeds. It returns them left to right, and misses none. |
| Ingest.CountMatchesNone | getPromoCode.gs.js:98-102 | Without a labelled count at or after p the scan finds nothing, and the `["1"]` default applies. |
| Ingest.ExtractCode | getPromoCode.gs.js:81-107 | The extracted record: the usage-count list is never empty (the `["1"]` default), and each of its entries is a digit string. |
| Ingest.UsageLimit | getPromoCode.gs.js:121 | `Number(...)` of the count list as the loop bound. Any list that is not a single numeral gives the NaN bound, under which no pass runs. |
| Ingest.DefaultUsageLimit | getPromoCode.gs.js:98-102 | Without a usage-count match the count defaults to `["1"]`, so writeSheet makes exactly one pass. |
| Ingest.NoCountLineLimitOne | getPromoCode.gs.js:98-102 | If no labelled count occurs in the plain body, the limit is 1. |
| Ingest.RepeatedUsageCountWritesNothing | getPromoCode.gs.js:121 | Two or more usage-count matches make the loop bound NaN, so the message writes no row. |
| Ingest.TwoCountLinesWriteNothing | getPromoCode.gs.js:98-121 | Two labelled counts anywhere in the plain body give two matches, so the message writes no row. |
| Ingest.OrdinalLabelInjective | getPromoCode.gs.js:132-134 | Different passes write different ordinal texts (`i回目`). |
| Ledger.Sheet.WriteRow | getPromoCode.gs.js:124-138 | Writing the cells of data row r replaces that row. A write at the end appends a row, and nothing else changes. |
| Ingest.WriteCodeRow | getPromoCode.gs.js:124-139 | The cell writes of one code, at row `lastRow + index`, take the rows from j writes of the current pass to j + 1 writes. |
| Ingest.WritePass | getPromoCode.gs.js:122-141 | One pass over the codes takes the rows from c complete passes to c + 1. |
| Ingest.WriteSheet | getPromoCode.gs.js:112-143 | The rows before the call are unchanged. After them come exactly the closed-form rows of `limit` overlapping passes. |
| Ingest.WrittenRows | getPromoCode.gs.js:117-142 | The closed form of the rows writeSheet leaves. There are L + n - 1 of them, or none when there is no code or the limit is 0. |
| Ingest.WriteSheetOneCode | getPromoCode.gs.js:117-142 | With one code and limit L there are exactly L new rows. Ordinals run `1回目`…`L回目`, each row has that code and its label, and every flag is unchecked. |
| Ingest.WriteSheetLimitOne | getPromoCode.gs.js:117-142 | With limit 1 and n codes there are n new rows, holding the codes in order with ordinal 1. |
| Ingest.WriteSheetOverlap | getPromoCode.gs.js:121-141 | With two or more codes and a limit of two or more, L + n - 1 rows remain. The second code's `1回目` row is overwritten and lost. |
| Ingest.WrittenRowsShape | getPromoCode.gs.js:124-138 | Every written row holds a code token, that code's classifier label, and an unchecked flag. |
| Ledger.KeepFirst | getPromoCode.gs.js:204-210 | Keep-first duplicate removal on the key of columns 2, 3, 4, 5 and 7. The KeepFirst lemmas below state its properties. |
| Ledger.KeepFirstNoDuplicates | getPromoCode.gs.js:204-210 | After duplicate removal no two rows agree on columns 2, 3, 4, 5 and 7. |
| Ledger.KeepFirstKeys | getPromoCode.gs.js:204-210 | Duplicate removal loses no key. |
| Ledger.KeepFirstKeepsFirst | getPromoCode.gs.js:204-210 | A row whose key no earlier row has survives. |
| Ledger.KeepFirstOrder | getPromoCode.gs.js:204-210 | The survivors are input rows, in input order, and each is the first row with its key. |
| Ledger.KeepFirstSubset | getPromoCode.gs.js:204-210 | No row is added. |
| Ledger.KeepFirstIdentity | getPromoCode.gs.js:204-210 | A ledger is left unchanged iff it has no duplicate key. |
| Ledger.KeepFirstIdempotent | getPromoCode.gs.js:204-210 | Removing duplicates twice is removing them once. |
| Ledger.KeepFirstAbsorbs | getPromoCode.gs.js:204-210 | Appending rows whose keys are already present changes nothing after removal. |
| Ingest.RepeatedMessageCollapses | getPromoCode.gs.js:191-210 | The same message ingested twice, at any two entry dates, leaves after removal what one ingestion leaves. Column 1 is not part of the key. |
| Ingest.RemoveDuplicatedRecords | getPromoCode.gs.js:196-211 | The sheet's rows become their keep-first deduplication. |
| Ingest.NoCodesNoRows | getPromoCode.gs.js:50-55 | A message without codes contributes no row. |
| Ingest.WriteMessage | getPromoCode.gs.js:48-59 | A message is written iff it has codes. The sheet gains exactly its rows when written and is unchanged otherwise. |
| Ingest.WriteThread | getPromoCode.gs.js:48-59 | Messages are written in order. On the first message without codes it stops and reports that message, having written exactly the messages before it. |
| Ingest.GetPromotionCodes | getPromoCode.gs.js:36-74 | Each thread's messages are written, then deduplicated, then labelled. On the first message without codes nothing further is written or labelled, and the ledger is the closed form up to that message. |
| Bot.IsKnownUser | getPromoCodeBot.gs.js:554-563 | True iff the user id is in the allow-list. |
| Bot.FindUpdateTargetRow | getPromoCodeBot.gs.js:515-526 | Returns the sheet row of the first unused row with the code, or 0 iff there is none. |
| Ledger.FirstUnusedFrom | getPromoCodeBot.gs.js:517-525 | The first index at or after i with an unused row holding the code, or none iff no such row exists. |
| Bot.UpdateUsedFlagTrue | getPromoCodeBot.gs.js:544-547 | It succeeds iff some unused row holds the code, and then the ledger is `MarkUsed` of the old one. Otherwise nothing is written. |
| Ledger.MarkUsed | getPromoCodeBot.gs.js:515-547 | Setting the flag of the first unused row with a code, or failure. Ledger.MarkUsedFlipsFirst, Ledger.MarkUsedMonotone and Ledger.MarkUsedAgain state its meaning. |
| Ledger.MarkUsedFlipsFirst | getPromoCodeBot.gs.js:544-547 | Marking fails iff no unused row holds the code. Otherwise exactly the first such row gets its flag set, and nothing else changes. |
| Ledger.MarkUsedMonotone | getPromoCodeBot.gs.js:544-547 | Marking keeps the length, clears no flag, and changes exactly one row. |
| Ledger.MarkUsedAgain | getPromoCodeBot.gs.js:544-547 | Marking the same code again moves to the next unused row with that code. |
| Ledger.EarliestAmong | getPromoCodeBot.gs.js:434-451 | Among the first n rows it finds an unused row whose amount has the prefix, with a limit date at or before every other such row. It returns none iff no such row exists. |
| Ledger.ReturnPromoCode | getPromoCodeBot.gs.js:430-458 | `""` when no unused row has an amount with the prefix. Otherwise the code of such a row with the earliest limit date. |
| Ledger.CountUnused | getPromoCodeBot.gs.js:472-491 | The reference count of unused rows of an amount, on which `IsUnusedSummary` rests; it is at most the number of rows. |
| Ledger.CountUnusedIsCard | getPromoCodeBot.gs.js:472-491 | The count equals the number of row indices that are unused and carry the amount. |
| Ledger.UnusedAmounts | getPromoCodeBot.gs.js:472-491 | The amounts of unused rows, with no amount listed twice. |
| Ledger.UnusedAmountsSound | getPromoCodeBot.gs.js:472-491 | Each listed amount is the amount of some unused row. |
| Ledger.UnusedAmountsComplete | getPromoCodeBot.gs.js:472-491 | The amount of every unused row is listed. |
| Ledger.CountUnusedWitness | getPromoCodeBot.gs.js:472-491 | An amount counted at least once is the amount of some unused row. |
| Ledger.UnusedSummary | getPromoCodeBot.gs.js:472-491 | The grouped count of unused rows per amount. Ledger.UnusedSummarySpec states its meaning. |
| Ledger.UnusedSummarySpec | getPromoCodeBot.gs.js:472-491 | No two entries share an amount, every unused row's amount has an entry, and each count is the number of unused rows with that amount. Each count is at least 1, so with Ledger.CountUnusedWitness each entry's amount is that of an unused row. |
| Ledger.SummaryLines | getPromoCodeBot.gs.js:500-502 | One `amount: count個` line per summary entry. |
| Ledger.PromoCodeList | getPromoCodeBot.gs.js:472-503 | The count reply: the summary lines joined by line breaks. Ledger.PromoCodeListLines states what the reply reads back as. |
| Ledger.PromoCodeListLines | getPromoCodeBot.gs.js:500-503 | Splitting the count reply at line breaks gives back exactly one `amount: count個` line per entry. |
| Bot.PostbackAction | getPromoCodeBot.gs.js:148-184 | An absent or unknown tag selects nothing. Every fetch uses one of the six prefixes. Each fetch but UNLIMITED (which asks for `無制限`) uses its own tag as the prefix. |
| Bot.SpecifyCodeReply | getPromoCodeBot.gs.js:331-372 | One or two messages. With no candidate there is exactly the not-found text. With a candidate that has a non-empty code there are two: the code of an earliest candidate, then the question offering `USED_FLAG` with that same code and `CANCEL`. |
| Bot.MenusOfferKnownStates | getPromoCodeBot.gs.js:87-372 | Every choice a menu or a found-code reply offers is a tag the postback handler acts on. |
| Bot.SevenGigNeverFound | getPromoCodeBot.gs.js:164-165 | On a ledger whose amounts are classifier labels, the 7GB button always gets the not-found reply. |
| Bot.PostbackKeepsRows | getPromoCodeBot.gs.js:148-184 | Every postback except USED_FLAG replies and leaves the ledger unchanged. |
| Bot.PostbackOutcome | getPromoCodeBot.gs.js:148-184 | The postback handler on values. Bot.PostbackKeepsRows, Bot.EventOnlySetsFlags and Bot.MenusOfferKnownStates state its properties. |
| Bot.EventReply | getPromoCodeBot.gs.js:57-66 | The event handler on values: the top menu for a message, the postback handler for a postback, nothing otherwise. Bot.SilentEvent states its properties. |
| Bot.EventOutcome | getPromoCodeBot.gs.js:17-26 | One pass of the request loop, with the allow-list checked first. Bot.StrangersRebuffed and Bot.EventOnlySetsFlags state its properties. |
| Bot.Batch | getPromoCodeBot.gs.js:13-41 | The whole request on values. Bot.BatchSendsNonEmpty, Bot.BatchStopsAtFault and Bot.BatchOnlySetsFlags state its properties. |
| Bot.GenerateMessagesToPostbackEvent | getPromoCodeBot.gs.js:148-184 | The replies and new ledger are those of the value-level postback semantics. It faults exactly where that semantics does, and then the ledger is unchanged. |
| Bot.GenerateReplyMessagesToEvent | getPromoCodeBot.gs.js:57-66 | The same, for message, postback and other event types. |
| Bot.StrangersRebuffed | getPromoCodeBot.gs.js:20-26 | A request whose senders are all unknown answers each event with exactly `あなたは誰？` and leaves the ledger unchanged. |
| Bot.SilentEvent | getPromoCodeBot.gs.js:57-66 | A known user's event of another type, or a postback with an absent or unknown tag, sends nothing and changes nothing. |
| Bot.BatchSendsNonEmpty | getPromoCodeBot.gs.js:29-33 | A reply is sent only with at least one message. |
| Bot.BatchStopsAtFault | getPromoCodeBot.gs.js:17-34 | After an exception no further event is answered and the ledger stays as it was. |
| Bot.EventOnlySetsFlags | getPromoCodeBot.gs.js:17-34 | One event changes the ledger only by setting used flags. |
| Bot.BatchOnlySetsFlags | getPromoCodeBot.gs.js:13-41 | A whole request adds, removes and alters no row except by setting used flags, and it clears no flag. |
| Bot.DoPost | getPromoCodeBot.gs.js:13-41 | The replies sent, the final ledger and whether it faulted are exactly those of the value-level semantics `Batch`. |
| Expiry.Selected | notifyLimitDate.gs.js:20-35 | Exactly the positions of the unused rows dated on or before today + 7, in sheet order. |
| Expiry.Pairs | notifyLimitDate.gs.js:26-33 | One `[formatted date, code]` pair per selected row, in order. |
| Expiry.Report | notifyLimitDate.gs.js:20-35 | The pairs the watch's loop collects, row by row. Expiry.ReportIsSelected and Expiry.ReportEmpty state its meaning. |
| Expiry.ReportIsSelected | notifyLimitDate.gs.js:20-35 | The pairs the loop collects are the pairs of the selected rows. Every row is examined. |
| Expiry.ReportEmpty | notifyLimitDate.gs.js:20-42 | The list is empty iff no row is expiring. |
| Expiry.NotifyLimitDate | notifyLimitDate.gs.js:13-43 | It throws iff there are no data rows or a limit date is blank. It sends iff all rows are dated and some row is expiring. The text lists exactly the collected pairs. |
| Expiry.EntryLines | notifyLimitDate.gs.js:50-52 | One `date：code` line per pair. |
| Expiry.SendLine | notifyLimitDate.gs.js:48-62 | The message text is a line break, the warning naming 7 days, a blank line, the heading, then the entry lines joined by line breaks. |
| Expiry.NoticeText | notifyLimitDate.gs.js:53-61 | The text sendLINE posts. Expiry.NoticeLines states its layout. |
| Expiry.NoticeLines | notifyLimitDate.gs.js:54-62 | Split at line breaks, the notice is `""`, the warning, `""`, the heading fused with the first entry, then the other entries. |
| Text.DecimalRoundTrip | getPromoCode.gs.js:133 | The decimal numeral written for a number reads back as that number. |

## Left out

- Gmail access is not modelled: the search, `getMessages`, `getBody` / `getPlainBody` / `getDate` and `addLabel`. Messages are values, and "labelled" is the count of threads the run completes.
- `upsertConditionalFormatRule`, checkbox insertion and `getColName` are presentation or A1-notation library calls and are not modelled. `Ledger.Row.used` is the checkbox's value.
- The QUERY formula strings and the temporary-sheet round trip, including `iferror`, are not modelled. `getReturnPromoCode` and `getPromoCodeList` are modelled only by what the queries select.
- Ledger.ReturnPromoCode: the order of tied limit dates is the Sheets engine's, so the contract names an earliest candidate without fixing which. The model takes the first in ledger order, and a blank date sorts first.
- Ledger.UnusedSummary: the order of the grouped lines is left open in the same way. The model lists amounts in order of first appearance. The text QUERY returns when no row is unused is not modelled; there the model's count reply is `""`.
- HTTP and hosting are not modelled: `UrlFetchApp.fetch` (`replyMessages` and the end of `sendLINE`), `ContentService`, and the tokens read from the config sheet.
- `JSON.parse` of the webhook body and of the postback data is not modelled. An event's postback is already-parsed `PostbackData`, and data that is missing or not JSON is `None`, which faults as a thrown parse error does.
- `Utilities.formatDate`, JST and `Date` arithmetic are not modelled. Dates are day numbers, formatting is the parameter `format`, and the written deadline text becomes a date through the parameter `dateOf`.
- Separate clock readings are not modelled. Ingestion stamps each message's rows with the time of its own writeSheet call, but the model uses one `today` for the whole run. The watch reads the clock once, at script load.
- Ledger.KeepFirst compares cells exactly. Sheets' `Range.removeDuplicates` also treats rows that differ only in letter case as duplicates. The two agree on ingested rows only because codes are upper-case and the labels are fixed strings.
- Only the state tags, the codes they carry and the message texts of LINE replies are kept. Labels, `displayText` and the JSON layout are left out.
- A code cell that the spreadsheet would coerce to a number is not modelled: cells keep the text written to them.
- Ingest.DeadlineCell: writeSheet writes the whole deadline match array to one cell. The model keeps its first entry, converted by `dateOf`.
- Relative dates: the watch compares a midnight limit date with the run's instant plus 7 days. The model compares day numbers (`date <= today + 7`) and does not model the time of day.
- An event without a `source.userId` is not modelled; every event carries a user id.
- Ingest.CodeAmount carries no contract of its own; Ingest.CodeAmountSpec states its properties. This keeps the classifier's quantified facts out of every proof that mentions it.
