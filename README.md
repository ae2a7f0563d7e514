# Address service model

A Dafny model of the address service of a small command-line tool that checks
US postal addresses. The service is a three-stage pipeline over sequences:

1. **Row parsing** (`BuildAddressesFromRawData`): CSV rows become `Address`
   records. Row 0 is the header and is always skipped. A row with exactly three
   columns becomes a valid record whose Street, City and ZipCode are the columns
   with surrounding white space trimmed. Any other row becomes an invalid record
   whose `OriginString` is its columns glued together with no separator.
2. **Request construction** (`BuildLookupsFromAddresses`): one verification
   request (`Lookup`) per record, in order, invalid records included.
3. **Output formatting** (`BuildRawDataFromLookups`): once the requests carry
   the service's candidates, one output row per request, paired with the record
   at the same position. It is a 3-column "Invalid Address" row when the record
   is invalid or there is no candidate. Otherwise it is a 4-column row built
   from the first candidate.

Files:

- `entities.dfy` (module `Entities`): the `Address`, `Lookup` and `Candidate`
  records.
- `text.dfy` (module `Text`): Go's `strings.TrimSpace` and `unicode.IsSpace`,
  and the separator-free gluing of columns.
- `address.dfy` (module `AddressService`): the three stages as methods with
  loops. Each is proved against a specification function (`ParseRow`,
  `RequestFor`, `FormatRow`), and the lemmas state what those functions
  guarantee.

Facts about the code that the model keeps:

- Formatting indexes `addresses[idx]` for every request, so it needs at least
  as many records as requests (address/address.go:37-39). Nothing else
  relates the two lengths.
- Requests are built for every record, invalid ones included
  (address/address.go:24-30).
- The service's answer is a list of candidates. Formatting reads only its
  first element and otherwise only whether it is empty
  (address/address.go:41-47).
- The request's City is copied from the record's Street
  (address/address.go:27). See "## Findings".

## Model

| member | source | states |
|---|---|---|
| Text.IsSpace | address/address.go:83-85 | the white-space test that TrimSpace uses, Go's unicode.IsSpace: its Latin-1 list of eight characters agrees with the Unicode White_Space table, so a character is white space exactly when that table lists it |
| Text.TrimStart | address/address.go:83-85 | the length of the leading white-space run: everything before it is white space and the character at it is not |
| Text.TrimEnd | address/address.go:83-85 | where the trailing white-space run begins: everything from it on is white space and the character before it is not |
| Text.TrimSpace | address/address.go:83-85 | the trimmed column neither starts nor ends with white space and is no longer than the column |
| Text.TrimSpaceWindow | address/address.go:83-85 | the trimmed column is a contiguous window of the column, and only white space is cut off on each side |
| Text.TrimSpaceUnique | address/address.go:83-85 | any trimmed window that cuts off only white space equals TrimSpace of the column, so TrimSpace is fully determined by that description |
| Text.TrimSpaceOfTrimmed | address/address.go:83-85 | a column without white space at either end is left unchanged |
| Text.TrimSpaceIdempotent | address/address.go:83-85 | trimming twice gives the same as trimming once |
| Text.Concat | address/address.go:67-70 | the origin string of a malformed row: its columns glued in order, exactly as long as the columns together, so no separator is inserted |
| Text.ConcatAppend | address/address.go:67-70 | gluing the columns of two joined lists is gluing each list and joining the results; the `originString += col` loop relies on this |
| Text.ConcatColumnAt | address/address.go:67-70 | column i can be read back from the glued string, right after the glued text of the columns before it |
| AddressService.ParseRow | address/address.go:65-87 | a record is valid exactly when its row has 3 columns. Every record is well-formed: a valid one has trimmed fields and an empty origin string, and an invalid one has empty Street, City and ZipCode |
| AddressService.BuildAddressesFromRawData | address/address.go:57-92 | returns one record fewer than there are rows, and none for no rows. Record i is the parse of row i+1, so row 0 is skipped whatever it holds and the order is preserved |
| AddressService.ParseRowOfRowOf | address/address.go:66-87 | parsing inverts writing a well-formed record back as a row: three fields for a valid record, the origin string alone for an invalid one |
| AddressService.ParsedFieldsAreTrimmedColumns | address/address.go:82-87 | each field of a valid record is a window of its column, with only white space cut off on either side |
| AddressService.MalformedRowKeepsColumns | address/address.go:66-78 | for a row whose column count is not 3, every column appears in the origin string, in order, at the offset given by the columns before it |
| AddressService.RequestFor | address/address.go:25-29 | the request built from one record takes its City from the record's Street and carries no results yet |
| AddressService.BuildLookupsFromAddresses | address/address.go:22-33 | one request per record, in order, with no filtering on Valid. Each request has Street = record Street, City = record Street (as the code writes it), ZIPCode = record ZipCode and no results |
| AddressService.RequestCityIsStreet | address/address.go:25-29 | the request's City is the record's Street. It equals the record's City, and the request equals the intended one, exactly when Street and City coincide |
| AddressService.RequestCityCounterexample | address/address.go:27 | on the row "123 Main St","Springfield","00001", the request's City is "123 Main St", where the intended request has "Springfield" |
| AddressService.IntendedRequestEchoesAddress | address/address.go:25-29 | the corrected request carries the record's Street, City and ZipCode, and differs from the request as written only in City |
| AddressService.FormatRow | address/address.go:41-48 | the row has 3 columns exactly when the record is invalid or the request has no candidate, and 4 columns otherwise. It starts with the record's Street and then " " + City |
| AddressService.BuildRawDataFromLookups | address/address.go:35-54 | needs at least as many records as requests. Returns one row per request, in index order. Row i formats record i with request i and has 3 or 4 columns by the same rule |
| AddressService.FormatRowColumns | address/address.go:41-48 | the exact columns: [Street, " " + City, ZipCode + " -> Invalid Address"] for an invalid record or no candidate, else [Street, " " + City, " " + ZipCode + " -> " + DeliveryLine1, " " + LastLine] of the first candidate |
| AddressService.FormatRowRoundTrip | address/address.go:41-48 | from an invalid row a reader recovers the record's Street, City and ZipCode. From a 4-column row, given the ZIP code, the reader recovers the first candidate exactly. The two shapes are never confused |
| AddressService.FormatRowUsesFirstCandidateOnly | address/address.go:41-47 | the row depends on the request only through whether it has candidates and which candidate is first |
| AddressService.RequestDefectNotInOutput | address/address.go:35-48 | formatting does not read the request's own Street, City or ZIPCode: with the same candidates attached, the request as written and the corrected request format to the same row. The wrong City reaches the output only through the candidates the service returns |
| AddressService.MalformedRowReportedInvalid | address/address.go:41-43 | a row whose column count is not 3 is always reported as ["", " ", " -> Invalid Address"]. Its origin string does not appear in the output |
| AddressService.ExampleValidRow | address/address.go:82-87 | "123 Main St","Springfield","00001" parses to the valid record with exactly those fields |
| AddressService.ExampleShortRow | address/address.go:66-78 | the 2-column row "123 Main St","Springfield" parses to an invalid record with origin string "123 Main StSpringfield" |
| AddressService.ExampleCorrectedRow | address/address.go:44-48 | a valid record with candidate "123 MAIN ST" / "SPRINGFIELD IL 00001" gives the row "123 Main St", " Springfield", " 00001 -> 123 MAIN ST", " SPRINGFIELD IL 00001" |

## Left out

- `SendLookups` (address/address.go:94-101) delegates to the remote verification client and wraps its error. The network call is not modelled. Its effect of attaching candidates to each request is taken as an input: `FormatRow` and `BuildRawDataFromLookups` accept requests with arbitrary `Results`.
- `Service`, `NewService` and the `lookupSender` interface (address/address.go:11-20) only hold the injected client. The three modelled stages never read it, so they are module-level methods.
- `main.go` is not part of this model. It parses command-line flags, prints them, and wires up the SDK client, all of which is I/O and configuration.
- The `entities` package is not part of this model. The `Address` fields come from how address/address.go uses them.
- The SDK's request and candidate types are reduced to the fields the service reads or writes.
- Requests are `*street.Lookup` pointers in the source, and the SDK fills in their `Results` in place. The model treats requests as values with candidates already attached, so it captures no aliasing.
- Go panics when formatting gets more requests than records, or a nil request or candidate pointer. The model requires at least as many records as requests, and a value cannot be nil.
- Text.TrimSpace works on Unicode code points. Go's byte-level UTF-8 decoding, including how it treats invalid UTF-8, is not modelled.

## Findings

| source | as written | input that shows it | evidently intended | confidence | as-written member | corrected member |
|---|---|---|---|---|---|---|
| address/address.go:27 | the request's City is set from `address.Street` | the row "123 Main St","Springfield","00001" sends City "123 Main St" | City set from `address.City` | high (not executed; the line is as written) | AddressService.RequestCityCounterexample | AddressService.IntendedRequestEchoesAddress |

`BuildLookupsFromAddresses` keeps the code's behaviour. `RequestDefectNotInOutput` shows that formatting does not read the request's own fields. The defect reaches the output only through the candidates the service returns for a request whose City is the street: different candidates, or none, which turns the row into " -> Invalid Address".
