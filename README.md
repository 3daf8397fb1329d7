# nslookup: a verified model of the lookup core

This project models the core of a small `nslookup` clone (`nslookup.c`). The
tool does four things:

- It turns the host argument into the name to look up. An IPv4 or IPv6
  address becomes its `in-addr.arpa` / `ip6.arpa` reverse name, written into
  a 73-character buffer (`reverse_lookup`).
- It builds one query per record type in its query plan: A then AAAA for a
  host name, PTR for an address.
- For each query in turn, it sends the query and checks that the response
  carries the query's transaction ID.
- It walks the response with the byte-cursor parser `dns_parse`, which hands
  every answer record to the printing callback `dns_print`.

The first failure ends the run with `EXIT_FAILURE`.

Modules:

- `Bytes`: bytes, `Option`, big-endian 16-bit fields.
- `Parser`: `dns_parse`, in two forms.
  - The code as written: `ParseAsWritten`, and the imperative
    `DnsParseAsWritten` proved equal to it. These work on the whole receive
    buffer, because the code reads past `rlen`. A read past the buffer is
    the explicit status `Overread`.
  - The corrected walker `Walk`, over the message bytes alone.
  - The lemma `ParserFacts.WalkAcceptedAgreesAsWritten` shows the two agree
    on every message the corrected walker accepts.
- `ParserFacts`: what the callback receives (read-back of TYPE and RDLENGTH,
  contiguity), the agreement lemmas, and the inputs of the findings below.
- `Printer`: `dns_print`, as written (`PrintAsWritten`) and corrected
  (`Print`), with the agreement lemma `PrintAgreesAsWritten`.
- `PrinterFacts`: the responses on which the two printers differ.
- `Reverse`: `reverse_lookup` as an imperative method over an `array<char>`,
  with `snprintf` and `strncpy` as small methods. It is proved to write
  `ReverseName`.
- `ReverseFacts`: the names read back to their addresses; different
  addresses give different names.
- `Lookup`: the query plan and the query loop of `main`. The method `Run` is
  proved equal to the functional `Session`.
- `LookupFacts`:
  - the queries go out in plan order;
  - a successful run prints each pass's decoded response, in plan order;
  - the run succeeds exactly when every pass does;
  - the run stops at the first failing pass, in particular at a transaction
    ID mismatch.

The library calls whose bodies are not part of this model are parameters:

| library call | parameter |
|---|---|
| `dn_expand` | `Printer.Expander` |
| `inet_pton` | its outcome: the 4 or 16 address bytes, or nothing |
| `res_mkquery` | `Lookup.QueryBuilder` |
| `res_send` / `res_ssend` | `Lookup.Transport` |
| `resolve_server` | the boolean `resolved` |

## Model

| member | source | states |
|---|---|---|
| Bytes.BigEndian16 | nslookup.c:151-152 | a 16-bit count read as `hi*256 + lo` is below 65536 |
| Bytes.BigEndian16Bytes | nslookup.c:177 | the high and low byte are recovered from a 16-bit field |
| Bytes.NonZero | nslookup.c:165 | `!!b` is 1 exactly for a non-zero byte, else 0 |
| Parser.RcodeMask | nslookup.c:148 | RCODE is the low four bits of header byte 3: below 16, and the byte is its upper four bits followed by RCODE |
| Parser.QdCount | nslookup.c:151 | QDCOUNT, read big-endian from header bytes 4 and 5, is below 65536 |
| Parser.AnCount | nslookup.c:152 | ANCOUNT, read big-endian from header bytes 6 and 7, is below 65536 |
| Parser.SkippedUnsigned | nslookup.c:159 | a byte is skipped as part of a name exactly when `*p - 1U < 127` holds in 32-bit unsigned arithmetic, where 0 wraps around |
| Parser.StopByteAccepted | nslookup.c:162 | the stop byte is accepted exactly when it is below 193, or 193 followed by a byte below 255 |
| Parser.SkipName | nslookup.c:159-160 | the label-skipping loop never moves the cursor back and stops at `rlen` at the latest |
| Parser.SkipNameStops | nslookup.c:159-160 | the skip stops at `rlen` or at the first byte outside 1..127, and every byte it passed is in 1..127 |
| Parser.NameEndAsWritten | nslookup.c:159-163 | the code as written accepts a name exactly when the skip ends at least 6 bytes before `rlen` on an acceptable stop byte, and then stops at that byte; a stop byte at or past the buffer's end is an over-read there; a refusal with the stop byte and the byte after it inside the buffer is `Rejected` |
| Parser.NameEndAsWrittenStatus | nslookup.c:159-163 | a stop byte at or past the buffer's end, or a 193 in its last byte, is an over-read of the byte read there; otherwise a refusal is `Rejected` |
| Parser.QuestionsAsWritten | nslookup.c:158-166 | each question moves the cursor at least 5 bytes; after at least one question the cursor is at most `rlen`; a refusal is never success |
| Parser.QuestionStepAsWritten | nslookup.c:158-166 | one question as written: when the name ends acceptably, the loop goes on 5 bytes past a zero stop byte and 6 past a pointer; otherwise it fails |
| Parser.RecordAsWritten | nslookup.c:169-179 | a record taken by the code starts at the cursor, its RDATA starts at least 11 bytes later, the next record starts after RDATA, and RDATA may end up to 10 bytes past `rlen` |
| Parser.RecordAsWrittenFields | nslookup.c:162-179 | the code as written reads TYPE 9 bytes and RDLENGTH 2 bytes before RDATA, which starts 11 or 12 bytes after the name's stop byte; fixed fields past the buffer are an over-read; inside it, the record is refused exactly when RDATA would end past `rlen + 10`; a refused name is passed on |
| Parser.AnswersAsWritten | nslookup.c:168-185 | at most `ancount` records are delivered, each starting at or after the cursor, with RDATA ending at most 10 bytes past `rlen`; on success exactly `ancount`, all accepted by the callback |
| Parser.AnswersAsWrittenCallbacks | nslookup.c:168-185 | every record the code as written delivered, except the last, was accepted by the callback; when the last was refused the loop fails |
| Parser.ParseAsWritten | nslookup.c:141-187 | fewer than 12 bytes, a non-zero RCODE or QDCOUNT + ANCOUNT above 64 is refused before any callback; success delivers one record per answer, all accepted; every delivered record but the last was accepted, and a refused last one makes the parse fail |
| Parser.DnsParseAsWritten | nslookup.c:141-187 | the loops of `dns_parse` return 0 or -1 as `ParseAsWritten` does, invoke the callback on the same records, and never read past a buffer 12 bytes longer than the message |
| Parser.AnswerLoopAsWritten | nslookup.c:168-186 | the answer loop returns and delivers what `AnswersAsWritten` does |
| Parser.RecordLoopBodyAsWritten | nslookup.c:169-179 | one pass of the answer loop finds the record `RecordAsWritten` describes, or fails where it does |
| Parser.QuestionLoopAsWritten | nslookup.c:158-166 | the question loop succeeds exactly when `QuestionsAsWritten` does and stops at its cursor, at most `rlen` |
| Parser.SkipNameLoop | nslookup.c:159-160 | the `while` loop stops where `SkipName` does |
| Parser.NameEnd | nslookup.c:159-163 | the corrected name check accepts exactly when the skip ends at least 6 bytes inside the message on an acceptable stop byte, and then stops at that byte |
| Parser.Questions | nslookup.c:158-166 | the corrected question loop moves at least 5 bytes per question and stays inside the message; a refusal is `Rejected` |
| Parser.QuestionStep | nslookup.c:158-166 | one corrected question: when the name ends acceptably, 5 bytes past a zero stop byte and 6 past a pointer; otherwise `Rejected` |
| Parser.RecordAt | nslookup.c:169-179 | a record found starts at the cursor and lies inside the message; its TYPE low byte is the byte 9 before RDATA and its length is the RDLENGTH field just before RDATA |
| Parser.RecordAtVerdict | nslookup.c:162-179 | a record is taken exactly when its owner name ends acceptably and its fixed fields and RDATA lie inside the message; its RDATA then starts 11 or 12 bytes after the stop byte |
| Parser.Answers | nslookup.c:168-185 | only Accepted or Rejected; at most `ancount` records delivered, each inside the message; all but the last were accepted; success delivers `ancount` accepted records |
| Parser.Walk | nslookup.c:141-187 | only Accepted or Rejected; a short header, non-zero RCODE or more than 64 records is refused with no callback; at most 64 records delivered, each inside the message; success delivers ANCOUNT records, all accepted; a refusing callback makes the walk fail |
| ParserFacts.AnswersCons | nslookup.c:181-184 | an accepted record is delivered before the records that follow it |
| ParserFacts.AnswersReadBack | nslookup.c:177-181 | every delivered record's type and length read back from the message bytes |
| ParserFacts.AnswersAtMostFirst | nslookup.c:168-185 | when the first record is not found or not accepted, at most that one record is delivered |
| ParserFacts.ConsAfter | nslookup.c:184 | after an accepted record the next record is looked for where its RDATA ends |
| ParserFacts.ConsAccepted | nslookup.c:181-182 | an accepted record put first changes neither whether all records are accepted nor, apart from one, their number |
| ParserFacts.AnswersVerdict | nslookup.c:168-185 | the corrected answer loop succeeds exactly when it delivers `ancount` records and the callback accepted them all; when it stops early with every delivered record accepted, no record could be found where the last one ended |
| ParserFacts.WalkVerdict | nslookup.c:141-187 | the corrected walk succeeds exactly when the header passes, the questions are read, and `ancount` records are delivered and accepted; failing with every delivered record accepted means the next record could not be found |
| ParserFacts.ConsReadBack | nslookup.c:177-181 | a record that reads back, put before records that read back, keeps every record reading back |
| ParserFacts.AnswersChain | nslookup.c:168-185 | the first delivered record starts at the cursor and each next one where the previous one's RDATA ends |
| ParserFacts.ConsChain | nslookup.c:184 | a record put before a chain starting at its RDATA end starts a chain at its own owner |
| ParserFacts.ChainContiguous | nslookup.c:184 | in a chain, each record starts where the previous one's RDATA ends |
| ParserFacts.WalkRecordFields | nslookup.c:168-185 | every record of a walk reads back from the message, and the records follow each other without gaps |
| ParserFacts.SkipNameInMessage | nslookup.c:159-160 | skipping a name over the buffer and over the message gives the same cursor |
| ParserFacts.NameEndInMessage | nslookup.c:159-163 | where the corrected name check succeeds, the code as written reaches the same cursor |
| ParserFacts.RecordInMessage | nslookup.c:169-179 | where the corrected record check succeeds, the code as written finds the same record |
| ParserFacts.QuestionsInMessage | nslookup.c:158-166 | where the corrected question loop succeeds, the code as written ends at the same cursor |
| ParserFacts.AnswersInMessage | nslookup.c:168-185 | where the corrected answer loop succeeds, the code as written gives the same outcome |
| ParserFacts.WalkAcceptedAgreesAsWritten | nslookup.c:141-187 | on every message the corrected walker accepts, the code as written returns and delivers the same |
| ParserFacts.RootOwnerRecord | nslookup.c:169-179 | a record with a root owner name has its RDATA 11 bytes after the cursor and is found exactly when its RDATA fits in the message |
| ParserFacts.RootOwnerRecordAsWritten | nslookup.c:169-179 | the code as written takes such a record exactly when RDATA's length fits within `rlen` counted from the byte after the owner name, 10 bytes short of RDATA |
| ParserFacts.SingleAnswerWalk | nslookup.c:141-187 | a message with RCODE 0, no question and one answer is accepted exactly when its record is found and accepted, and that record is delivered |
| ParserFacts.SingleAnswerAsWritten | nslookup.c:141-187 | the code as written does the same with its own record check |
| ParserFacts.NameRunsToBufferEnd | nslookup.c:159-162 | when every byte from offset 12 to the buffer's end is in 1..127, the code reads the stop byte at the buffer's length; the corrected walker refuses |
| ParserFacts.SkipNameRun | nslookup.c:159-160 | a run of bytes in 1..127 up to the limit is skipped whole |
| ParserFacts.StopByteReadPastBuffer | nslookup.c:159-162 | on a full 1024-byte datagram whose question name runs to its end, the code reads index 1024; the corrected walker refuses it |
| ParserFacts.StaleRecordAsWritten | nslookup.c:176-179 | the code takes the answer of the example buffer for every `rlen` from 18 to 35 |
| ParserFacts.StaleRecordCorrected | nslookup.c:176-179 | the corrected walker refuses that answer when `rlen` is below 27 |
| ParserFacts.RdataPastMessage | nslookup.c:176-181 | for `rlen` from 18 to 26, the code accepts and delivers a record whose RDATA ends past `rlen`; the corrected walker refuses |
| Printer.Width | nslookup.c:119 | an address is 4 or 16 bytes |
| Printer.FamilyOf | nslookup.c:117-119 | A is AF_INET and AAAA is AF_INET6, and nothing else is an address type |
| Printer.KindOf | nslookup.c:122-124 | CNAME is a canonical name and PTR a pointer name, and nothing else is an alias |
| Printer.PrintAsWritten | nslookup.c:106-138 | fails exactly when the owner expansion fails, or an alias's target expansion fails; the owner is the expanded name; A/AAAA print the 4/16 bytes at RDATA with their family; CNAME/PTR print the expanded target with their kind; any other type is accepted and passed over silently, as an `Unknown` entry that keeps its type and stands for no output |
| Printer.TypeOf | nslookup.c:181 | the TYPE field is below 65536 and its low byte is the byte the code passes on |
| Printer.Print | nslookup.c:106-138 | as `PrintAsWritten`, but it dispatches on the full TYPE and also fails on an address record whose RDLENGTH is not 4/16; the address printed is exactly the RDATA |
| Printer.PrintAgreesAsWritten | nslookup.c:116-137 | for a TYPE below 256, and an address RDLENGTH of 4/16, both printers print the same from any buffer starting with the message |
| PrinterFacts.EmptyAddressWalked | nslookup.c:176-181 | the walker delivers an A record with RDLENGTH 0 at the very end of a 23-byte response |
| PrinterFacts.EmptyAddressPrinted | nslookup.c:117-120 | the code prints the 4 stale bytes after the response as that record's address; the corrected printer fails |
| PrinterFacts.CaaWalked | nslookup.c:181 | the walker delivers a TYPE 257 (CAA) record with 4 bytes of RDATA |
| PrinterFacts.CaaPrinted | nslookup.c:116-120 | the code prints the CAA record's RDATA as an IPv4 address; the corrected printer passes it over silently, as an `Unknown` entry of type 257 |
| Reverse.DigitChar | nslookup.c:198 | a decimal digit character has the digit's value |
| Reverse.HexDigit | nslookup.c:219-220 | `%x` of a nibble is its lowercase hexadecimal digit |
| Reverse.Decimal | nslookup.c:198 | `%u` of a byte is 1 to 3 digits, by magnitude |
| Reverse.OctetLabel | nslookup.c:198 | a `"%u."` label is 2 to 4 characters and ends in a dot |
| Reverse.OctetLabels | nslookup.c:197-205 | four octet labels take 8 to 16 characters |
| Reverse.NibbleLabel | nslookup.c:219-220 | a `"%x.%x."` pair is 4 characters |
| Reverse.NibbleLabels | nslookup.c:218-227 | sixteen pairs take 64 characters |
| Reverse.InAddrName | nslookup.c:194-210 | the IPv4 reverse name is 20 to 28 characters and ends in `in-addr.arpa` |
| Reverse.Ip6ArpaName | nslookup.c:215-232 | the IPv6 reverse name is 72 characters, one less than the 73-character buffer, and ends in `ip6.arpa` after the 64 characters of nibble pairs |
| Reverse.ReverseName | nslookup.c:189-237 | the text itself when it is not an address; an IPv4 reverse name of 20 to 28 characters; an IPv6 reverse name of exactly 72 characters, one less than the buffer |
| Reverse.Snprintf | nslookup.c:198 | returns the full length, writes what fits and a NUL, and leaves the rest of the buffer alone |
| Reverse.Strncpy | nslookup.c:210 | copies the string and fills the rest of the `n` characters with NUL |
| Reverse.Append | nslookup.c:198-204 | one `snprintf` of a label fits in what is left, returns its length, and the buffer reads as the earlier labels followed by it |
| Reverse.Finish | nslookup.c:207-210 | the suffix fits in what is left; the buffer reads as the labels, the suffix, then NULs to its end |
| Reverse.WriteInAddr | nslookup.c:194-212 | the IPv4 branch writes the `in-addr.arpa` name followed by NULs; no label or suffix is cut short in 73 characters |
| Reverse.WriteIp6Arpa | nslookup.c:215-234 | the IPv6 branch writes the `ip6.arpa` name followed by NULs; no pair or suffix is cut short in 73 characters |
| Reverse.ReverseLookup | nslookup.c:189-237 | returns `ReverseName`; for an address the buffer holds it NUL-terminated, otherwise the buffer is untouched |
| ReverseFacts.DigitValue | nslookup.c:198 | a digit's value is below 10 |
| ReverseFacts.DecimalRoundTrip | nslookup.c:198 | `%u` reads back to its number and has no leading zero |
| ReverseFacts.FirstDot | nslookup.c:198 | the offset of the first dot lies within the string |
| ReverseFacts.FirstDotAfterDigits | nslookup.c:198 | in a label of digits and a dot, the first dot ends the label |
| ReverseFacts.OctetLabelPrefix | nslookup.c:198 | two names that start with octet labels and are equal have equal octets and equal remainders |
| ReverseFacts.InAddrClosedForm | nslookup.c:195-210 | the IPv4 name is d.c.b.a. then `in-addr.arpa`, last octet first |
| ReverseFacts.InAddrNameInjective | nslookup.c:194-212 | different IPv4 addresses get different reverse names |
| ReverseFacts.OctetLabelExamples | nslookup.c:198 | the labels of 192, 168, 0 and 10 are `192.`, `168.`, `0.`, `10.` |
| ReverseFacts.ReverseNameExampleV4 | nslookup.c:194-212 | 192.168.0.10 is looked up as `10.0.168.192.in-addr.arpa` |
| ReverseFacts.HexValue | nslookup.c:219-220 | a lowercase hex digit reads back to a nibble |
| ReverseFacts.ParseGroups | nslookup.c:218-227 | reading back `i` nibble pairs gives `i` bytes |
| ReverseFacts.ParseIp6Arpa | nslookup.c:215-234 | reading back an `ip6.arpa` name gives 16 bytes |
| ReverseFacts.HexRoundTrip | nslookup.c:219-220 | every nibble's hex digit reads back to the nibble |
| ReverseFacts.NibbleLabelsAt | nslookup.c:217-227 | pair `j` of the name is the pair of byte `15 - j`, last byte first |
| ReverseFacts.NibbleLabelRoundTrip | nslookup.c:219-220 | a `"%x.%x."` pair, low nibble first, reads back to its byte |
| ReverseFacts.ParseGroupsRoundTrip | nslookup.c:215-234 | the first `i` pairs of the name read back to the last `i` address bytes |
| ReverseFacts.Ip6ArpaRoundTrip | nslookup.c:215-234 | the `ip6.arpa` name reads back to the IPv6 address it was built from |
| ReverseFacts.Ip6ArpaNameInjective | nslookup.c:215-234 | different IPv6 addresses get different reverse names |
| Lookup.Plan | nslookup.c:256-266 | the host text itself is queried as A then AAAA; a reverse name as PTR only |
| Lookup.IdMatches | nslookup.c:323-324 | the response matches exactly when both messages have 2 bytes and those 2 bytes are equal |
| Lookup.AcceptsWhen | nslookup.c:106-138 | the printing callback accepts a record exactly when it lies inside the message, its owner expands, an address record has RDATA of its address width, and an alias target expands |
| Lookup.Printout | nslookup.c:181-182 | at most one entry per delivered record, and exactly one each when the callback accepts them all |
| Lookup.PrintoutContents | nslookup.c:181-182 | entry `k` is the print of the delivered record `k`; only the last record can be missing, and it is missing exactly when the callback refuses it |
| Lookup.Decode | nslookup.c:329-333 | the response is decoded exactly when the walker with the printing callback accepts it, and then there is one entry per answer, `Unknown` for those that print nothing |
| Lookup.DecodePrinted | nslookup.c:329-333 | the entries are the prints of the walker's delivered records, in order, with at most the refused last one missing |
| Lookup.PassOk | nslookup.c:281-333 | a pass succeeds only when its query was built, the server was resolved on pass 0, a datagram came back, the IDs match and the response decodes; on later passes with a datagram it succeeds exactly when the IDs match and it decodes |
| Lookup.Exchange | nslookup.c:281-333 | a pass succeeds exactly when its query was built, the server resolved, a datagram came back, its ID matches and it decodes; it sends at most its own query; an ID mismatch prints nothing; a pass whose response reaches the decoder shows exactly what the decoder printed, including the records printed before a decode failure, and a pass that fails earlier shows nothing |
| Lookup.Then | nslookup.c:268-334 | a failed pass ends the run |
| Lookup.RunFrom | nslookup.c:268-334 | the passes send at most one query each |
| Lookup.Pass | nslookup.c:281-333 | one loop body, from the `qlen < 0` check to the decode, yields `Exchange`, for any decoder of the response |
| Lookup.BuildQueries | nslookup.c:252-266 | the buffers hold the plan's queries, with lengths or -1, and the pass count is the plan's length |
| Lookup.PlannedPass | nslookup.c:268-334 | pass `i` followed by the later passes is the run from `i`, for any decoder |
| Lookup.PrefixThen | nslookup.c:268-334 | a successful pass's sent queries and printouts join the ones before it |
| Lookup.PrefixStep | nslookup.c:268-334 | after a successful pass, what the loop has sent and printed so far, followed by the rest of the run, is still the whole run |
| Lookup.QueryLoop | nslookup.c:268-336 | the `for` loop with its `switch` over the two query buffers yields `RunFrom` over the plan, for any decoder |
| Lookup.Run | nslookup.c:247-336 | `main` after the argument check yields `Session`: the reverse name, the plan, then the passes |
| Lookup.Session | nslookup.c:247-336 | a run sends at most one query per plan entry, and a plan has at most 2 |
| LookupFacts.RunFromSent | nslookup.c:268-299 | the queries sent are the plan's, in order; a successful run sends one per plan entry |
| LookupFacts.SessionQueries | nslookup.c:256-299 | a whole run sends the plan's queries for the looked-up name, in order, one per entry when it succeeds; for a host that is not an address, a successful run sends the A query and then the AAAA query for the host text |
| LookupFacts.SentShift | nslookup.c:268-299 | a pass's query followed by the later queries stays in plan order |
| LookupFacts.RunFromPrinted | nslookup.c:268-334 | when every pass from `i` on succeeds, the run succeeds and its printout is each pass's decoded response, one after the other, in plan order |
| LookupFacts.SessionPrinted | nslookup.c:247-336 | a successful run on the host text prints the decoded answer to the A query followed by the one to the AAAA query; on a reverse name, the decoded answer to the PTR query |
| LookupFacts.RunFromOk | nslookup.c:268-336 | a run succeeds exactly when every pass from `i` on succeeds |
| LookupFacts.RunFromStops | nslookup.c:268-334 | at the first failing pass the run reports the passes before it and that pass, and sends nothing more |
| LookupFacts.ThenPrefix | nslookup.c:268-334 | a successful pass before the passes that lead to a failure regroups into one prefix |
| LookupFacts.IdMismatchEndsRun | nslookup.c:323-327 | a response whose transaction ID differs from its query's ends the run with a mismatch: it is not decoded, nothing of it is printed, and no later query is sent |

## Left out

- `resolve_server`, `res_ssend` and `print_address` (nslookup.c:20-104): socket I/O and output formatting. A send is the `Transport` parameter, server resolution the `resolved` flag, and a printout the `Printed` entry for what it would show (an `Unknown` entry shows nothing).
- `dn_expand`, `res_mkquery`, `res_send` and `inet_pton` are library calls whose bodies are not part of this model; they are parameters.
- The argument-count check, the usage message and the error messages (nslookup.c:242-245 and the `fprintf` calls) are left out; a run's exit status is `Report.exit`.
- `main` also takes a server argument (nslookup.c:300-308). Both transports are the one `Transport` parameter.
- Lookup.Run: the lifetime of `srv` is not modelled. It is declared inside the loop body, set only on pass 0, and freed on the last pass (nslookup.c:287-316). On pass 1 the code reads a variable that was not set in that iteration.
- Lookup.Transport: the 1024-byte size of the receive buffer is not modelled. A datagram is walked whole, as if it fits.
- Lookup.IdMatches: a datagram shorter than 2 bytes counts as a mismatch. The code compares whatever stale bytes the buffer holds. Either way the pass fails, since a response under 12 bytes is refused by `dns_parse`.
- Lookup.Decode: the run uses the corrected `Walk` and `Print`. The code as written is modelled separately, in `Parser.ParseAsWritten` and `Printer.PrintAsWritten`, and each half is compared with its corrected form on its own. For the same callback, the walker as written returns and delivers what `Walk` does on every message `Walk` accepts (`ParserFacts.WalkAcceptedAgreesAsWritten`). The printer as written prints what `Print` does only for a TYPE below 256 whose address RDLENGTH, if any, is 4 or 16 (`Printer.PrintAgreesAsWritten`); `PrinterFacts.CaaPrinted` and `PrinterFacts.EmptyAddressPrinted` show where the two differ. No lemma composes the two halves into a statement about `Decode`.
- The `Unknown` entry of `Printer.Printed` stands for a record of a type other than A, AAAA, CNAME or PTR, which `dns_print` accepts without printing anything (nslookup.c:133-134); it carries no text, and a printout's `Unknown` entries correspond to no output.
- Printer.PrintAsWritten: when the target of a CNAME or PTR record does not expand, `dns_print` has already printed the start of its line (`"%s\tcanonical name = "` or `"%s\tname = "`, nslookup.c:124) before failing (nslookup.c:126-128). The model prints nothing for the refused record, and so do `Lookup.Printout`, `Lookup.PrintoutContents` and `Lookup.DecodePrinted`.
- Parser.DnsParseAsWritten: requires the buffer to extend 12 bytes past `rlen`, which is the farthest the code reads. With less slack, `ParseAsWritten` reports the `Overread` index instead.
- Printer.PrintAsWritten: requires the 4 or 16 address bytes to lie inside the buffer. A read past the buffer there is not given a status.
- Reverse.ReverseLookup: the truncation fallbacks (nslookup.c:199-200, 207-208, 221-222, 229-230) are not written as branches. That none can fire with a 73-character buffer is proved by the preconditions of `Append` (`|piece| < len`, for `l >= len`) and `Finish` (`|suffix| < len`, for `len <= 12` and `len <= 8`), which the loop invariants of `WriteInAddr` and `WriteIp6Arpa` establish at every call. A smaller buffer is excluded by the `assert(len >= MAXREVLEN)` of nslookup.c:191, which is a `requires`.
- `inet_pton`'s choice of IPv4 over IPv6 parsing is kept; its own parsing of the text is not modelled.

## Findings

| source | as written | input that shows it | evidently intended | confidence | as-written member | corrected member |
|---|---|---|---|---|---|---|
| nslookup.c:159-162 | the name-skipping loop can stop at `p == r + rlen`, and then `*p` (and `p[1]`) is read before the `p > r+rlen-6` test | a full 1024-byte response declaring one question whose name bytes are all 1 up to the end: the stop byte is read at index 1024, one past the receive buffer | test the offset before reading the stop byte | high, not executed | ParserFacts.StopByteReadPastBuffer | Parser.Walk |
| nslookup.c:176-179 | RDLENGTH is read at `p+8`, `p+9` and RDATA (`p+10 .. p+10+len`) is checked only as `p + len <= r + rlen`, 10 bytes short | the 35-byte `StaleRdataBuffer` with `rlen` from 18 to 26: the code accepts an A record whose RDATA (and, up to 22, RDLENGTH) lies past the message | check `p + 10 + len <= r + rlen` | high, not executed | ParserFacts.RdataPastMessage | Parser.RecordAt |
| nslookup.c:117-120 | `print_address` reads 4 or 16 bytes at RDATA whatever RDLENGTH says | a 23-byte response whose only answer is an A record with RDLENGTH 0: the 4 bytes after the response are printed as its address | refuse an address record whose RDLENGTH is not 4 or 16 | high, not executed | PrinterFacts.EmptyAddressPrinted | Printer.Print |
| nslookup.c:181 | the callback receives `p[1]`, the low byte of the 16-bit TYPE, and dispatches on it | a CAA answer (TYPE 257): it is printed as an IPv4 address | dispatch on the full TYPE | high, not executed | PrinterFacts.CaaPrinted | Printer.Print |
