# A verified model of the payment bridge and its soundbox

The repository is a Go service that turns QRIS payments into spoken announcements, and the C firmware of
the soundbox that shows the QR code and speaks. This project models both sides in Dafny and proves what
they promise each other: about every run of the payment protocol, every fragmentation of a byte stream,
every power cut, and every amount.

The project has four parts, one module per component.

- **The payment protocol.** `Transactions` is the `transactions` table: its rows, its five statements and
  the trigger. `Claims` proves fairness and spacing of claims. `Payment` is the check of one transaction.
  `Poller` puts them together as a state machine: any number of pollers with stale copies of rows, lost
  commits, and crashes between any two steps. `RunOnce` is the worker pool inside one poller,
  `GenerateQr` the request that creates a row, `Announcer` the publishing of an announcement.
- **Byte streams and flash in the firmware.** `Http` is the syntax of responses, `HttpDownload` the
  reassembly of a body through a 2048-byte array, `Tms` the resumable update download, `Base64` the codec.
- **Printers and parsers.** `Voice` composes a spoken amount and `Soundbox` plays it; `DeviceConfig` renders
  `mqttcfg.dat` and reads it back in place; `Topics` builds and parses topics and QR requests; `Emv` parses
  the QR's TLV data. `Text` holds the string functions both programs use.
- **Provisioning.** `Provisioning` registers and revokes devices over a broker that may fail at any call,
  `Dynsec` is the correlation protocol beneath it, `TokenManager` the access-token cache.

Code that changes state step by step is modelled by classes and loops over arrays; each such method is
proved against a specification function or states its new state outright, and the properties of the
specification are lemmas. Clocks, the answers of the payment provider, the sizes of network reads, flash
calls and broker answers are arbitrary inputs.

Times are nanoseconds since Go's zero time. C strings and byte buffers are sequences or arrays of `char`,
one per byte.

## Model

| member | source | states |
|---|---|---|
| Poller.AnnouncedAtMostOnce | internal/paymentpoller/poller.go:111-164 | In every run of any number of pollers and requests, however the clocks of service and database differ, each row leaves QR_GENERATED at most once, Announce is called at most once per transaction, only after its row is PAID, with that row's amount and on its own device's topic, and the columns of every row fit its status. |
| Poller.AnnounceDecides | internal/paymentpoller/poller.go:123-164 | A job that comes to announcing its row makes exactly one call, with that row's amount and on the topic of the merchant that was asked, if the row is PAID and at most ten minutes old, counted from paid_at or else from its creation, and none otherwise; no other step makes a call. |
| Poller.AnnouncedExactlyInTime | internal/paymentpoller/poller.go:123-164 | Over a whole run, whatever comes before and after: once a job has come to announcing its row, the row has been announced at the end of the run if and only if it was PAID and no older than that. |
| Poller.PaidCheckIsAnnounced | internal/paymentpoller/poller.go:111-164 | End to end: a check is answered "00" and its job lives to announce its row. Then the row is PAID with the provider's time, or the service's own when that did not parse, and it has been announced with its amount on its device's topic if and only if that time lay at most ten minutes back. |
| Poller.PaymentGoesThrough | internal/paymentpoller/poller.go:111-164 | Left alone, a claimed job whose check is answered "00" in time can take its UPDATE and its announcement, and makes it. |
| Poller.PaidRowsHaveTheirTime | internal/transaction/payment.go:147-180 | In every run a PAID row lacks paid_at only if a check of that very row was answered with the zero time. |
| Poller.HistoryOfARow | internal/database/sqlc/transactions.sql.go:144-236 | Between any two moments of a run a status only moves forward, a generated QR never changes, and a final row never changes in any column that matters. |
| Poller.StepKeeps | internal/transaction/payment.go:51-83 | Every single step, from any state the invariant allows, keeps the whole invariant and only extends what was known before. |
| Poller.RowStep | migrations/000006_prevent_final_status_change_trigger.up.sql:1-16 | Whatever statement the protocol sends, each row moves forward only and keeps columns that fit its status. |
| Poller.RowMoves | internal/database/sqlc/transactions.sql.go:227-236 | A row becomes final from QR_GENERATED only by the one step whose guarded UPDATE hits it, and a PENDING row moves only by its own request's mark. |
| Poller.BeginTakesEffect | internal/transaction/service.go:140-161 | A request that begins under a free ID has its PENDING row, and may mark it exactly if it has heard so. |
| Poller.MarkTakesEffect | internal/transaction/service.go:337-352 | A mark ends its request, with the row FAILED or QR_GENERATED and holding the QR, expiry and next check. |
| Poller.ClaimTakesEffect | internal/database/sqlc/transactions.sql.go:14-27 | A claim changes nothing in its rows but the next check, now one interval ahead, and starts a job for each. |
| Poller.PastDeadlineDecides | internal/transaction/payment.go:51-91 | A check past the deadline asks for a transition however stale its copy of the row is, and a final answer of the provider in that check beats the local deadline. |
| Poller.DueRowLeaves | internal/transaction/payment.go:51-91 | Past the deadline, end to end: a due row with k rows waiting at or before it is final after a run with floor(k/20)+1 claims serving its merchant, if its claims reach their pollers and its jobs are checked later than expire_at + 2 min and come to their end without a crash or a lost connection before the UPDATE; whatever Manjo answers. |
| Poller.JobUpdates | internal/paymentpoller/poller.go:111-122 | Followed through a run, a job that is checked past its row's deadline and has ended ended with its UPDATE. |
| Poller.OneRowLeaves | internal/paymentpoller/poller.go:78-122 | A concrete due row, claim, check and UPDATE that meet everything DueRowLeaves asks for. |
| Poller.RunIsDisciplined | internal/paymentpoller/poller.go:78-83 | The statements of every run form an executable trace as the fairness results take it; their one assumption on clocks carries over from the run. |
| Transactions.FinalRowsAbsorb | migrations/000006_prevent_final_status_change_trigger.up.sql:3-9 | Over any trace of statements whatsoever a final row changes only in updated_at, and no row ever changes owner, device, amount or creation time. |
| Transactions.SelectDue | internal/database/sqlc/transactions.sql.go:17-24 | The ordered, limited sub-select: only due rows of the filter's merchant, a full batch or all of them, and nobody left out is ahead of a chosen row in NULLS FIRST order. |
| Transactions.SelectionInColumns | internal/database/sqlc/transactions.sql.go:17-24 | Every claim's selection column by column: rows in QR_GENERATED, of the filter's merchant, whose next check is unset or has come, all of those or a full batch, in the order of their next check. |
| Transactions.Table.ClaimDueTransactions | internal/database/sqlc/transactions.sql.go:14-27 | Claims exactly such a selection and pushes next_query_at of those rows, and only those, to now plus the interval. |
| Transactions.Table.CreateTransaction | internal/database/sqlc/transactions.sql.go:76-88 | Inserts a PENDING row exactly when the ID is free and the amount is positive, and says which constraint failed otherwise. |
| Transactions.Table.MarkTransactionFailed | internal/database/sqlc/transactions.sql.go:144-151 | Sets FAILED through the trigger; no row is an answer of its own. |
| Transactions.Table.MarkTransactionQRGenerated | internal/database/sqlc/transactions.sql.go:175-188 | Stores the QR's columns and QR_GENERATED; raises exactly on a final row. |
| Transactions.Table.TransitionFromQRGenerated | internal/database/sqlc/transactions.sql.go:227-239 | Answers a row exactly when this very call moved it out of QR_GENERATED, with COALESCEd code and paid_at and no next query; otherwise nothing changes. |
| Transactions.Table.WriteRow | migrations/000006_prevent_final_status_change_trigger.up.sql:1-16 | The trigger raises exactly on a status change of a final row and otherwise stamps updated_at. |
| Claims.ClaimFairness | internal/database/sqlc/transactions.sql.go:14-27 | A due row with k due rows at or before it is claimed, or has left QR_GENERATED, within floor(k/20)+1 claims that serve its merchant, if no QR is stored with a next check that the database's clock has passed. |
| Claims.MissedClaimsPay | internal/database/sqlc/transactions.sql.go:20-23 | While a due row keeps being missed, every claim that serves it takes twenty rows from ahead of it. |
| Claims.ClaimSpacing | internal/paymentpoller/poller.go:78-83 | Two claims of one row, by whichever pollers, are at least the first one's poll interval apart. |
| Claims.SettledProgress | internal/database/sqlc/transactions.sql.go:14-27 | On statement traces: if every claim of a due row is followed by an UPDATE of it, the row is final after floor(k/20)+1 claims. |
| Payment.CheckPayment | internal/transaction/payment.go:51-83 | The table afterwards, when the result says "transitioned" (exactly when this call moved the row) and which row it returns. A row that was moved is PAID with code "00" exactly for that answer, likewise REFUNDED with "04", CANCELLED with "05" and FAILED with "06", and EXPIRED exactly for HTTP 403 with 4035100 or without a final answer past the deadline; paid_at is the provider's time or else the service's, and not the zero time; a query error is reported exactly when the provider told nothing. |
| Payment.DecideIsComplete | internal/transaction/payment.go:85-172 | The same of the decision alone, answer by answer: undecided exactly without a final answer up to two minutes past the expiry, or twelve past the creation of a row that stores none; a final answer wins over the deadline. |
| RunOnce.EveryRowExactlyOnce | internal/paymentpoller/poller.go:89-108 | In every interleaving, panics included: at most 8 at a time, each claimed row processed exactly once, return only after all have finished, no deadlock, and at most 5n+2 steps. |
| RunOnce.SomeStepEnabled | internal/paymentpoller/poller.go:89-108 | Until RunOnce has returned some goroutine can move. |
| GenerateQr.CallGenerateQRWithRetry | internal/transaction/service.go:252-281 | At most 3 calls, 4 after a first 401, which is always followed by another call; the token is invalidated exactly then; every attempt before the last was retryable; reply, external ID and error code are the last attempt's. |
| GenerateQr.ErrorCodes | internal/transaction/service.go:291-310 | Which HTTP status ends a request with which error code, and which are retried until they time out. |
| GenerateQr.GenerateQR | internal/transaction/service.go:66-103 | One new row per request. SUCCESS exactly if the row could be created, the merchant is configured, the last attempt was answered with a QR and storing it was confirmed; the row then holds that QR, reference, external ID and expiry. FAILED exactly if it was created and one of the next two is missing, with the last attempt's code. |
| GenerateQr.CreateTransaction | internal/transaction/service.go:140-161 | Creates the row exactly if one of the first five IDs is free and nothing fails up to it; never touches an existing row, and leaves at most one new PENDING row. |
| GenerateQr.DurationHonoured | internal/transaction/service.go:318-326 | A validity given in milliseconds is honoured exactly when its nanoseconds fit 64 bits; a larger one wraps. |
| GenerateQr.ExpiryWithoutDuration | internal/transaction/service.go:318-326 | Without a positive duration the provider's date counts, and without either the expiry is ten minutes on. |
| Announcer.Announcer.Announce | internal/announcer/announcer.go:50-79 | Nothing is published or logged for an unspeakable amount or a missing name; otherwise one message goes out one to three times to the device's topic and is logged once with its outcome. |
| Announcer.Announcer.PublishWithRetry | internal/announcer/announcer.go:81-97 | Every attempt but the last failed; it ends early only on success or cancellation. |
| Announcer.CashierHearsThePayment | internal/paymentpoller/poller.go:154-164 | End to end: in every run, an announcement of a speakable amount makes the transaction's own device play files whose names say, word by word, the amount of the PAID row, and it is that transaction's only announcement. |
| Announcer.OnlyTheCashierHears | internal/provisioning/provisioning.go:153-170 | In every run, and whatever Add and Revoke made of the broker's accounts: a provisioned device's login may subscribe to and receive its announcement, and no other validated device's login may receive it, subscribe to it or send one. |
| Voice.UnderstandComposed | internal/voice/voice.go:36-122 | The names of the clips, heard as Indonesian number words between "awal-qris" and "akhir-berhasil", say n, for every n from 1 to 999,999,999,999. |
| Voice.ComposeInjective | internal/voice/voice.go:36-47 | No two amounts are spoken in the same words, and nothing outside that range is spoken. |
| Voice.HearNumber | internal/voice/voice.go:64-122 | The words of n add exactly n to what was heard before, level by level. |
| Voice.ClipsAreWords | internal/voice/clip.go:18-43 | Each clip is named by the word that a listener takes for its meaning. |
| Soundbox.PlaysWhatWasComposed | internal/voice/voice.go:51-61 | For every such n the payload is audio and never a QR reply, at most 422 bytes, its PUBLISH fits 1024 bytes, and the player gets exactly the composed paths, in order and uncut, which are files that say n. |
| Soundbox.PayloadInjective | internal/voice/voice.go:51-61 | Two amounts with the same payload are the same amount. |
| Soundbox.PlayListJoin | docs/eclipse/src/mqtt.c:97-127 | The `+` splitter gives back any joined list of clean paths shorter than 128 bytes. |
| Soundbox.PieceIsWhole | docs/eclipse/src/mqtt.c:97-127 | A piece is played uncut exactly if it has at most 127 characters. |
| Soundbox.Soundbox.PlayPieces | docs/eclipse/src/mqtt.c:87-128 | The pointer-moving split loop plays exactly the play list of the buffer. |
| Soundbox.Soundbox.OnTopicMessageArrived | docs/eclipse/src/mqtt.c:52-141 | What each class of message changes, and that it changes nothing else. |
| Soundbox.PayloadLength | internal/voice/voice.go:51-61 | No payload is longer than 422 bytes. |
| Soundbox.QrReplyIsShownWhole | docs/eclipse/src/mqtt.c:73-83 | A QR reply is kept whole, whatever it contains, exactly if it has at most 511 characters. |
| DeviceConfig.ConfigRoundTrip | internal/provisioning/provisioning.go:247-254 | For validated IDs, an alphanumeric password and a plain server and port that fit their buffers, the rendered file fits 512 bytes and reading it gives back every value uncut. |
| DeviceConfig.Firmware.ReadMqttCfg | docs/eclipse/src/param.c:67-121 | Reading the file in place, cutting lines and trimming inside the buffer, computes the file's meaning for any contents, and a file that cannot be read leaves the settings alone. |
| DeviceConfig.Firmware.UseLine | docs/eclipse/src/param.c:100-111 | One line is trimmed, split and applied in place, and no byte outside it changes. |
| DeviceConfig.ReadRendered | docs/eclipse/src/param.c:49-121 | Any list of plain key=value fields is read back field by field. |
| DeviceConfig.ValuesThatFit | docs/eclipse/src/param.c:49-66 | Each of the values arrives uncut exactly if it fits its buffer, and a key that is none of the six changes nothing. |
| DeviceConfig.BlanksDoNotMatter | docs/eclipse/src/param.c:100-111 | Spaces and tabs before a key and behind a value are ignored. |
| DeviceConfig.EndsOfLines | docs/eclipse/src/param.c:93-113 | A line may end in LF, CR or both. |
| DeviceConfig.FrontIsVisible | docs/eclipse/src/param.c:67-92 | The first 512 bytes of a file are read, and no more. |
| DeviceConfig.TopicsAgree | docs/eclipse/src/param.c:149-150 | The topics the firmware prints are the service's DeviceTopic and DeviceRequestTopic, uncut. |
| DeviceConfig.ClientIdFits | docs/eclipse/src/param.c:151-152 | The MQTT client ID survives exactly for serial numbers of at most 22 characters; longer ones with the same 22 collide. |
| DeviceConfig.Boot | docs/eclipse/src/param.c:125-152 | A freshly provisioned device boots with its own login and prints the service's two topics for it. |
| Topics.RequestRoundTrip | internal/validation/validator.go:23-60 | What a device with validated IDs publishes for a QR is parsed to its own identity and amount and passes the identity check. |
| Topics.RequestFits | docs/eclipse/src/mqtt.c:226-232 | A request is published uncut exactly if it has at most 63 characters. |
| Topics.RequestTopicParses | internal/qrtopic/topic.go:24-30 | A topic parses exactly when it is the request topic of two non-empty names without a slash. |
| Topics.MessageParses | internal/validation/validator.go:23-43 | A payload parses exactly when it is a device ID, one bar and a positive 64-bit number; the sen are cut off. |
| Topics.TopicsInjective | internal/qrtopic/topic.go:13-20 | No two validated devices share a topic. |
| Topics.AcceptedIds | internal/provisioning/provisioning.go:256-268 | An ID is accepted exactly if it has 1 to 25, for a serial number 1 to 31, letters and digits. |
| HttpDownload.Connection.Exchange | docs/eclipse/src/httpDownload.c:222-505 | For every fragmentation of a well-formed response: a positive n is the body's length and the file holds the whole body from start on; 0 leaves the file alone; in every case the file holds a prefix of the body and is otherwise untouched. With lines that fit and no failing read the content arrives if and only if its framing is recognised (a coding in lower case with no tabs around it) and no read begins exactly behind a chunk's data and gets the CR alone; otherwise the answer is RECEIVE_ERROR. |
| HttpDownload.Connection.SkipCrlf | docs/eclipse/src/httpDownload.c:459-492 | With reads of at least one byte it succeeds if and only if a byte behind the chunk is buffered already or the next read is given at least two. |
| HttpDownload.ByteByByte | docs/eclipse/src/httpDownload.c:459-489 | Reads of one byte each that have covered a chunked response with a chunk in it up to its end have got the CR behind the first chunk alone, so on such a network, though no read fails, Exchange never succeeds. |
| HttpDownload.LoneCrFails | docs/eclipse/src/httpDownload.c:459-489 | The same for "hello" in one chunk, a response that meets every other condition for success. |
| HttpDownload.Connection.NextLine | docs/eclipse/src/httpDownload.c:283-311 | Shifting and receiving finds the end of the next line wherever the reads cut it, or fails only on a timeout or a line longer than the buffer. |
| HttpDownload.Connection.ReadHeaders | docs/eclipse/src/httpDownload.c:274-347 | For any header fields whose lengths fit a C int: of the lengths, and the codings that the firmware recognises, the last one decides the framing, with the length that atoi finds in it; a Location ends the reading; otherwise the cursor stands at the payload. |
| HttpDownload.Connection.ReceiveSized | docs/eclipse/src/httpDownload.c:350-380 | A body of known length is stored byte for byte in place. |
| HttpDownload.Connection.ReceiveChunked | docs/eclipse/src/httpDownload.c:381-494 | Chunks are joined into the body, sizes and CRLFs left out, up to the chunk of size zero; with size lines that fit and no failing read this succeeds if and only if no read gets the CR behind a chunk alone. |
| HttpDownload.Connection.ReceiveChunk | docs/eclipse/src/httpDownload.c:424-492 | One chunk, however much of it is in the buffer already, is stored behind the bytes before it, and its CRLF is consumed, with no failing read if and only if no read gets its CR alone. |
| HttpDownload.FieldIsUnderstood | docs/eclipse/src/httpDownload.c:333-346 | One more field: a length, whatever the case of its name, overrules what came before it; a coding does so exactly when its value is in lower case with nothing but spaces around it. |
| HttpDownload.FramingDecides | docs/eclipse/src/httpDownload.c:350-381 | When the framing fields agree with the payload, what was read off them is the sender's framing and length, and a framing is found if and only if it is a length or a recognised coding. |
| HttpDownload.Fetch | docs/eclipse/src/httpDownload.c:184-192 | Redirects are followed from connection to connection without touching the file. |
| HttpDownload.Download | docs/eclipse/src/httpDownload.c:510-542 | Against a server that honours Range the returned length is a gapless prefix of the file, and all of it when nothing times out. |
| HttpDownload.EveryFileCanBeServed | docs/eclipse/src/httpDownload.c:510-542 | For every file below 2^31 bytes there are well-formed answers, one per range, as Download asks for them. |
| HttpDownload.FetchWhole | docs/eclipse/src/httpDownload.c:510-542 | From that server every file arrives whole. |
| Http.LengthIsRead | docs/eclipse/src/httpDownload.c:339-342 | atoi of the trimmed Content-Length is its number, whatever tabs and spaces surround it. |
| Http.ScanSize | docs/eclipse/src/httpDownload.c:420-422 | A chunk's size line is read as its hexadecimal size, extensions ignored. |
| Http.PrintedSizeIsRead | docs/eclipse/src/httpDownload.c:420-422 | Every size written in hexadecimal, in letters of either case and with any extension, is read back. |
| Http.WrittenAt | docs/eclipse/src/httpDownload.c:350-380 | What a file holds after a write, byte by byte, which is how the results on downloads are to be read. |
| Tms.Downloader.WriteFile | docs/eclipse/src/tms_tms.c:1541-1599 | It succeeds if and only if both flash writes do and the piece neither overruns the file nor ends it with a wrong hash; then offset, hash and file have moved on together. A true saved record is left false if and only if it counted on the file, the piece arrived whole and was such a bad end, the deletion took effect and the new record did not, for want of power or by failing. |
| Tms.Downloader.FetchPiece | docs/eclipse/src/tms_tms.c:983-1132 | One request: which error comes of which failure, and otherwise that the reply's bytes, padded with zeros to the requested length of at most 6000, are on flash behind those before, and the record has moved on by them. |
| Tms.FalseRecord | docs/eclipse/src/tms_tms.c:1565-1572 | That case at concrete flash contents and outcomes of three flash calls: WriteFile's condition is met, and the flash it leaves makes the record false. |
| Tms.DeleteBreaks | docs/eclipse/src/tms_tms.c:1567-1572 | Deleting the current file leaves the saved record true if and only if that record relied on none of its bytes. |
| Tms.WriteKeeps | docs/eclipse/src/tms_tms.c:1552-1555 | A data write at the offset, whole or cut short, disturbs no record that lags behind. |
| Tms.PieceRecorded | docs/eclipse/src/tms_tms.c:1557-1579 | The record after a piece is true of the flash: complete files exactly before curfindex, offset and hash of the current one. |
| Tms.Downloader.Download | docs/eclipse/src/tms_tms.c:960-1139 | The loop reports success only when every file the record speaks of is whole with its MD5; a true record stays true or is one whose file is gone. |
| Tms.Downloader.CompareVersions | docs/eclipse/src/tms_tms.c:1253-1288 | The saved record takes over exactly when the number of files agrees and each of them, and the entry behind the last, agrees in name, type, version and size. Otherwise its files and then the record are deleted, and a true record is left behind false if and only if the deletion of a path whose bytes it counts on takes effect while its own, for want of power or by failing, does not. |
| Tms.NewVersionIsFetched | docs/eclipse/src/tms_tms.c:1263-1287 | If one file has another version than in the saved record, a session works on the server's record, and the hashes of a success are the server's. |
| Tms.VersionBump | docs/eclipse/src/tms_tms.c:1268-1269 | A concrete such file, of the same name, type, size and checksum. |
| Tms.Downloader.DelAllDownloadInfo | docs/eclipse/src/tms_tms.c:1225-1250 | Exactly the files up to the current one whose deletions are reached with power and take effect are gone, and the record if and only if its deletion, behind them, is too. |
| Tms.DeletedPaths | docs/eclipse/src/tms_tms.c:1230-1248 | A program file is deleted under the path it was written to; a parameter file is not. |
| Tms.LeftBehind | docs/eclipse/src/tms_tms.c:1225-1250 | A concrete record and outcomes of two flash calls that leave it behind: it says that a file is complete which is gone, and it takes over when its versions are offered again. |
| Tms.Downloader.Session | docs/eclipse/src/tms_tms.c:933-958 | A whole session keeps a true record true, up to a bad end that was not recorded or an old record whose deletion took no effect. Success means that every file of the record at work is whole with that record's MD5, and that all hashes are the server's if and only if no saved record with other checksums took over. |
| Tms.Downloader.Sessions | docs/eclipse/src/tms_tms.c:933-958 | Over any number of sessions, jobs and power cuts, flash and record agree after each, up to the first deletion that could not be recorded. |
| Tms.Downloader.SessionAfterLoss | docs/eclipse/src/tms_tms.c:951-1135 | The next boot with a record that was left false, whichever files were deleted behind its back: it takes over again, and if that session succeeds every file is marked complete, although those it had done with are absent and the current one lacks its first bytes, up to the recorded offset. |
| Tms.HoleIsComplete | docs/eclipse/src/tms_tms.c:1553-1578 | The same for a file of four bytes: the second half arrives behind a deleted first half, flash shows "??cd", and the hash of "abcd" was found right. |
| Tms.ChecksumsAreTheServers | docs/eclipse/src/tms_tms.c:1266-1283 | The complete files of a session have the hashes of the server's answer if and only if a saved record that takes over carries the same checksums. |
| Tms.OldChecksumIsKept | docs/eclipse/src/tms_tms.c:1268-1269 | A file republished under the same name, version and size: the old record takes over, all counts as complete, and the stored bytes do not have the new checksum. |
| Base64.Encode | docs/eclipse/src/tms_base64.c:7-39 | The loop over arrays writes the encoding, of length 4*ceil(n/3), and a NUL. |
| Base64.Decode | docs/eclipse/src/tms_base64.c:60-93 | The loop writes the decoded bytes less the padding; a length that is no multiple of four is refused. |
| Base64.DecodeEncoded | docs/eclipse/src/tms_base64.c:60-93 | Decoding an encoding gives the bytes back, for every non-empty input and whatever byte follows it. |
| Base64.EncodedIsCanonical | docs/eclipse/src/tms_base64.c:26-30 | The output is the one of section 4 of RFC 4648 if and only if there is no 2-byte tail or the byte behind the input is below 64. |
| Base64.CodeIsLetter | docs/eclipse/src/tms_base64.c:1-5 | The firmware's letters are the alphabet of section 4 of RFC 4648. |
| Emv.ParseEMV | internal/altosim/emv.go:17-36 | The index loop succeeds exactly when fields cover the payload and then gives their last-wins map. |
| Emv.ParseSound | internal/altosim/emv.go:20-34 | A payload that parses is the concatenation of the fields it was parsed into. |
| Emv.ParseComplete | internal/altosim/emv.go:20-34 | Every concatenation of valid fields parses into those fields. |
| Emv.LenientLengths | internal/altosim/emv.go:24-27 | A field's length is accepted exactly when it is two digits, a '+' and a digit, or "-0", and then means that number. |
| Emv.RequestFromTwoLevels | internal/altosim/request.go:77-144 | On a two-level QR the request is built exactly when PAN, merchant and reference are there, and it carries them, the amount and the merchant's name, city, category, postal code, country and criteria, whatever other fields there are. |
| Emv.StandardQrIsPaid | internal/altosim/request.go:77-144 | The same for every QR written with two-digit lengths as the standard says, from the entries that were put in. |
| Emv.WrittenInjective | internal/altosim/emv.go:20-34 | Two lists of standard entries are written alike only if they are the same. |
| Emv.AmountRoundTrip | internal/altosim/request.go:137-144 | An amount printed with ".00" is read back. |
| Provisioning.Provisioner.Add | internal/provisioning/provisioning.go:76-123 | Cut off at any call it changes only its own device's entries; no error means row ACTIVE under its merchant and topic, login enabled with the new password, and its role, which allows subscribing to and receiving the device's announcement topic, sending on its request topic, and nothing else; with working calls it succeeds exactly when IDs, merchant, row and topic allow it. |
| Provisioning.Provisioner.Revoke | internal/provisioning/provisioning.go:203-229 | No error means the row is INACTIVE and the login disabled or absent, so that nothing is permitted to it, with remove both login and role gone; "missing" exactly if there was no login; with working calls it succeeds exactly for a registered device. |
| Provisioning.Provisioner.AddConverges | internal/provisioning/provisioning.go:74-123 | After any sequence of Add and Revoke runs cut off anywhere, an Add without an error has provisioned its device, and it stays so through any runs for other devices. |
| Provisioning.Provisioner.RevokeConverges | internal/provisioning/provisioning.go:203-229 | After any such runs, a Revoke without an error has made its device's row INACTIVE and stopped the login of the merchant the row leads to, and both stay so through any runs for other devices; when no call fails it succeeds exactly for a device with an owner. |
| Provisioning.Provisioner.EnsureRole | internal/provisioning/provisioning.go:154-169 | The role ends up allowing exactly that: subscribing to and receiving the one topic, sending on the other. |
| Provisioning.Provisioner.EnsureClient | internal/provisioning/provisioning.go:172-199 | The login ends up enabled, with the password and the role, whether it was new, disabled or stripped. |
| Provisioning.ProvisionedMay | internal/provisioning/provisioning.go:153-170 | In accounts kept in order, a provisioned device's login may subscribe to and receive its announcement topic alone, and send on its request topic alone. |
| Provisioning.NoOtherMay | internal/provisioning/provisioning.go:153-170 | No validated device's login may receive another's announcements, send on another's request topic, or send an announcement. |
| Provisioning.ProvisionAndBoot | internal/provisioning/provisioning.go:76-123 | From registration to the booted device: on the two topics that the firmware prints, the broker permits it exactly what it does there, and nothing on any other topic. |
| Provisioning.OwnCommandKeeps | internal/provisioning/provisioning.go:154-229 | Each command for a device keeps every device's accounts in order and touches nobody else's. |
| Provisioning.NamesInjective | internal/provisioning/provisioning.go:256-268 | A device with validated IDs shares login and role name with no other device, validated or not. |
| Dynsec.ReturnsAreOwnAnswers | internal/dynsec/dynsec.go:105-152 | In every run with foreign, stale, duplicated and dropped traffic, what a call returns is the broker's answer to the command published in that very call. |
| Dynsec.Client.Do | internal/dynsec/dynsec.go:105-155 | What one call returns, from whatever arrives, is taken or stops it: an answer that carries this very call's string and arrived during it. |
| Dynsec.AnswerIsReturned | internal/dynsec/dynsec.go:105-155 | A call does not miss its answer: if at most 31 other messages arrive before it and the loop goes on for as many more, the call returns one. |
| Dynsec.OneCallIsAnswered | internal/dynsec/dynsec.go:105-155 | From any reachable state, a call whose command is answered, delivered and taken returns that answer. |
| Dynsec.CorrInjective | internal/dynsec/dynsec.go:105-112 | Correlation strings never repeat across calls or clients. |
| TokenManager.ServedTokenIsLiveAndLatest | internal/manjoclient/token_manager.go:33-60 | After any run a token served from the cache is the latest fetched since the last Invalidate, and the server honours it for more than 60 s less the time its answer took. |
| TokenManager.FetchSuppressesFetches | internal/manjoclient/token_manager.go:37-39 | A fetched token suppresses every further fetch until a minute before its expiry. |
| TokenManager.TokenManager.Get | internal/manjoclient/token_manager.go:33-50 | Serves the cache exactly while more than a minute is left; a failed fetch changes nothing. |

## Left out

- The HTTP, MQTT, JSON and Postgres libraries, logging tables, configuration and command-line programs: statements are atomic steps, messages are values, outcomes are arbitrary.
- Cryptography: MD5 is an arbitrary function of the bytes absorbed; RSA, HMAC and the random generator are parameters.
- Client registry (`internal/manjoclient/registry.go`): a map filled under a mutex, an easier relative of the token cache.
- The EMV card kernels, menus, display, battery and Wi-Fi code, and `docs/eclipse/src/AmtToMp3.c`.
- Row locks: a claim is one atomic step, so what SKIP LOCKED skips under contention is not modelled; and the fairness and progress results, and only these, assume that a freshly generated row's `next_query_at` lies in the database's future.
- Poller: a device's merchant, once registered, does not change; provisioning refuses to move a device, and edits of the tables by hand are not modelled.
- Announcer: that every PAID transaction is announced is not claimed; a crash, a lost commit or a stale age drops the announcement.
- Dynsec: random prefixes are assumed distinct between clients, and the 64-bit call counter does not wrap.
- Signedness of C's `char`: it is taken as unsigned, as on the device's ARM compiler; with a signed one the base64 tail and the byte-order mark test would read other values.
- HttpDownload.Connection.Exchange: the status line has a three-digit code; the firmware's write of a NUL behind it and the NULs that trim() writes inside a consumed header line are not performed on the array; results of flash writes are ignored, as in the code; and responses that carry both a length and a coding, which section 6.2 of RFC 9112 forbids, are followed only up to the end of the headers, where HttpDownload.Connection.ReadHeaders says which of the two wins.
- HttpDownload.Download: a server that ignores Range is not modelled; a file of exactly 2048 bytes from such a server would be requested again and again. Lengths stay below 2^31.
- HttpDownload.Fetch: parseURL, connecting and sending are one arbitrary result per connection, and the chain of redirects is finite.
- Tms.Downloader.Download: the HTTP exchange of one piece is one arbitrary outcome, the outcomes are a finite list, sizes are positive, there are fewer than 25 files and no two of them share a path on flash; that a download finishes is not claimed. Its result before anything was requested is whatever the uninitialised variable held, a parameter here.
- Tms.Downloader.Session: reading the saved record always succeeds; a status write leaves the old or the new record. When neither the old record of other files nor any file it counts on could be deleted though the power held, the session goes on; whether what it then writes over those files makes that record false is not stated.
- Tms.Downloader.Sessions: ends with the first break; unless that is the case just named, each boot from there on that is offered the record's versions is described by Tms.Downloader.SessionAfterLoss, when its session succeeds.
- Tms.Downloader.SessionAfterLoss: a write behind a file's end is taken to extend the file with filler bytes; nothing is said of a session that fails part of the way.
- Soundbox.Soundbox.PlayPieces: the wait for a busy player (150 tries of 200 ms) is not modelled.
- GenerateQr.GenerateQR: the merchant's configuration is present or not; the request body is not modelled.
- Provisioning.Provisioner.Add: optional tenant, store and terminal columns, and the result's config file, which `DeviceConfig` covers.
- Run of the poller on its ticker, and the warning about a mismatching amount.
