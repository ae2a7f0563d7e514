/**
 The address service: turn CSV rows into Address records, build one
 verification request per record, and, once the requests carry the service's
 answers, format one output row per request. The three stages are methods
 that build their result by appending inside a loop, as the Go code does;
 each is proved against the functions ParseRow, RequestFor and FormatRow,
 whose properties are the lemmas below them.
 */
module AddressService {
  import opened Text
  import opened Entities

  datatype Option<T> = None | Some(value: T)

  /** The separator between the original ZIP code and the corrected delivery line. */
  const Arrow: string := " -> "

  /** What follows the ZIP code of an address that could not be verified. */
  const InvalidSuffix: string := " -> Invalid Address"

  // ---------------------------------------------------------------------------
  // Row parsing
  // ---------------------------------------------------------------------------

  /** The record invariant of a parsed address: a valid record carries three
      trimmed fields and no origin string; an invalid one has empty fields. */
  predicate WellFormed(a: Address) {
    if a.Valid then
      a.OriginString == "" && IsTrimmed(a.Street) && IsTrimmed(a.City) && IsTrimmed(a.ZipCode)
    else
      a.Street == "" && a.City == "" && a.ZipCode == ""
  }

  /** The record built from one non-header CSV row. */
  function ParseRow(row: seq<string>): (a: Address)
    ensures a.Valid <==> |row| == 3
    ensures WellFormed(a)
  {
    if |row| < 3 || |row| > 3 then
      Address(Street := "", City := "", ZipCode := "", OriginString := Concat(row), Valid := false)
    else
      Address(Street := TrimSpace(row[0]), City := TrimSpace(row[1]), ZipCode := TrimSpace(row[2]),
              OriginString := "", Valid := true)
  }

  /** BuildAddressesFromRawData: one record per row after the first, in order.
      Row 0 is skipped whatever it holds. */
  method BuildAddressesFromRawData(data: seq<seq<string>>) returns (addresses: seq<Address>)
    ensures |addresses| == if |data| == 0 then 0 else |data| - 1
    ensures forall i :: 0 <= i < |addresses| ==> addresses[i] == ParseRow(data[i + 1])
  {
    addresses := [];
    for idx := 0 to |data|
      invariant |addresses| == if idx == 0 then 0 else idx - 1
      invariant forall i :: 0 <= i < |addresses| ==> addresses[i] == ParseRow(data[i + 1])
    {
      // skip the column names
      if idx == 0 {
        continue;
      }
      var row := data[idx];
      if |row| < 3 || |row| > 3 {
        var originString := "";
        for k := 0 to |row|
          invariant originString == Concat(row[..k])
        {
          assert Concat(row[..k + 1]) == originString + row[k] by {
            assert row[..k + 1] == row[..k] + [row[k]];
            ConcatAppend(row[..k], [row[k]]);
            assert Concat([row[k]]) == row[k] + Concat([]);
          }
          originString := originString + row[k];
        }
        assert row[..|row|] == row;
        var address := Address(Street := "", City := "", ZipCode := "",
                               OriginString := originString, Valid := false);
        addresses := addresses + [address];
        continue;
      }
      var address := Address(Street := TrimSpace(row[0]), City := TrimSpace(row[1]),
                             ZipCode := TrimSpace(row[2]), OriginString := "", Valid := true);
      addresses := addresses + [address];
    }
  }

  /** How a record can be written back as a row that parses to it: its three
      fields, or, for an invalid record, its origin string as a single column. */
  function RowOf(a: Address): (row: seq<string>) {
    if a.Valid then [a.Street, a.City, a.ZipCode] else [a.OriginString]
  }

  /** Parsing is a left inverse of RowOf on well-formed records. */
  lemma ParseRowOfRowOf(a: Address)
    requires WellFormed(a)
    ensures ParseRow(RowOf(a)) == a
  {
    if a.Valid {
      TrimSpaceOfTrimmed(a.Street);
      TrimSpaceOfTrimmed(a.City);
      TrimSpaceOfTrimmed(a.ZipCode);
    } else {
      assert Concat([a.OriginString]) == a.OriginString + Concat([]);
    }
  }

  /** A valid record's fields are the columns with only surrounding white
      space removed: each field is a window of its column, and what is cut
      off on either side is white space. */
  lemma ParsedFieldsAreTrimmedColumns(row: seq<string>)
    requires |row| == 3
    ensures IsWindowTrim(ParseRow(row).Street, row[0])
    ensures IsWindowTrim(ParseRow(row).City, row[1])
    ensures IsWindowTrim(ParseRow(row).ZipCode, row[2])
  {
    TrimSpaceWindow(row[0]);
    TrimSpaceWindow(row[1]);
    TrimSpaceWindow(row[2]);
  }

  /** A malformed row loses no text: column i can be read back from the
      origin string, right after the text of the columns before it. */
  lemma MalformedRowKeepsColumns(row: seq<string>, i: nat)
    requires |row| != 3 && i < |row|
    ensures |Concat(row[..i])| + |row[i]| <= |ParseRow(row).OriginString|
    ensures ParseRow(row).OriginString[|Concat(row[..i])|..|Concat(row[..i])| + |row[i]|] == row[i]
  {
    ConcatColumnAt(row, i);
  }

  // ---------------------------------------------------------------------------
  // Request construction
  // ---------------------------------------------------------------------------

  /** The request built from one record, as the source writes it: the City
      of the request is taken from the record's Street. */
  function RequestFor(a: Address): (l: Lookup)
    ensures l.City == a.Street
    ensures l.Results == []
  {
    Lookup(Street := a.Street, City := a.Street, ZIPCode := a.ZipCode, Results := [])
  }

  /** BuildLookupsFromAddresses: one request per record, in order, with no
      filtering on Valid. */
  method BuildLookupsFromAddresses(addresses: seq<Address>) returns (lookups: seq<Lookup>)
    ensures |lookups| == |addresses|
    ensures forall i :: 0 <= i < |addresses| ==> lookups[i] == RequestFor(addresses[i])
    ensures forall i :: 0 <= i < |addresses| ==>
      lookups[i].Street == addresses[i].Street &&
      lookups[i].City == addresses[i].Street &&
      lookups[i].ZIPCode == addresses[i].ZipCode &&
      lookups[i].Results == []
  {
    lookups := [];
    for i := 0 to |addresses|
      invariant |lookups| == i
      invariant forall j :: 0 <= j < i ==> lookups[j] == RequestFor(addresses[j])
    {
      var address := addresses[i];
      lookups := lookups + [Lookup(Street := address.Street, City := address.Street,
                                   ZIPCode := address.ZipCode, Results := [])];
    }
  }

  /** The request the code evidently means to build: City from City. */
  function IntendedRequestFor(a: Address): (l: Lookup) {
    Lookup(Street := a.Street, City := a.City, ZIPCode := a.ZipCode, Results := [])
  }

  /** The intended request echoes all three fields of the record and differs
      from the request as written in its City alone. */
  lemma IntendedRequestEchoesAddress(a: Address)
    ensures IntendedRequestFor(a).Street == a.Street
    ensures IntendedRequestFor(a).City == a.City
    ensures IntendedRequestFor(a).ZIPCode == a.ZipCode
    ensures IntendedRequestFor(a) == RequestFor(a).(City := a.City)
  {
  }

  /** The request as written sends the street as the city: for a record whose
      street and city differ, the request's City is not the record's City. */
  lemma RequestCityIsStreet(a: Address)
    ensures RequestFor(a).City == a.Street
    ensures RequestFor(a).City == a.City <==> a.Street == a.City
    ensures RequestFor(a) == IntendedRequestFor(a) <==> a.Street == a.City
  {
  }

  /** A concrete record on which the two requests differ. */
  lemma RequestCityCounterexample()
    ensures var a := ParseRow(["123 Main St", "Springfield", "00001"]);
      RequestFor(a).City == "123 Main St" && IntendedRequestFor(a).City == "Springfield"
  {
    var row := ["123 Main St", "Springfield", "00001"];
    TrimSpaceOfTrimmed(row[0]);
    TrimSpaceOfTrimmed(row[1]);
  }

  // ---------------------------------------------------------------------------
  // Output formatting
  // ---------------------------------------------------------------------------

  /** The output row for a record and its answered request: three columns
      ending in the invalid marker when the record is invalid or the service
      found no candidate; otherwise four columns built from the first
      candidate. */
  function FormatRow(a: Address, l: Lookup): (cols: seq<string>)
    ensures |cols| == 3 <==> !a.Valid || |l.Results| == 0
    ensures |cols| == 3 || |cols| == 4
    ensures cols[0] == a.Street && cols[1] == " " + a.City
  {
    if !a.Valid || |l.Results| == 0 then
      [a.Street, " " + a.City, a.ZipCode + InvalidSuffix]
    else
      var candidate := l.Results[0];
      [a.Street, " " + a.City, " " + a.ZipCode + Arrow + candidate.DeliveryLine1, " " + candidate.LastLine]
  }

  /** BuildRawDataFromLookups: one output row per request, paired with the
      record at the same position. The Go code indexes addresses[idx] for
      every request, so there must be at least as many records as requests. */
  method BuildRawDataFromLookups(addresses: seq<Address>, lookups: seq<Lookup>) returns (output: seq<seq<string>>)
    requires |lookups| <= |addresses|
    ensures |output| == |lookups|
    ensures forall i :: 0 <= i < |lookups| ==> output[i] == FormatRow(addresses[i], lookups[i])
    ensures forall i :: 0 <= i < |lookups| ==>
      |output[i]| == (if !addresses[i].Valid || |lookups[i].Results| == 0 then 3 else 4)
  {
    output := [];
    for idx := 0 to |lookups|
      invariant |output| == idx
      invariant forall i :: 0 <= i < idx ==> output[i] == FormatRow(addresses[i], lookups[i])
    {
      var lookup := lookups[idx];
      var cols: seq<string>;
      var tempAddr := addresses[idx];
      if !tempAddr.Valid || |lookup.Results| == 0 {
        cols := [tempAddr.Street, " " + tempAddr.City, tempAddr.ZipCode + " -> Invalid Address"];
      } else {
        var lookupAddr := lookup.Results[0];
        cols := [tempAddr.Street, " " + tempAddr.City,
                 " " + tempAddr.ZipCode + " -> " + lookupAddr.DeliveryLine1, " " + lookupAddr.LastLine];
      }
      output := output + [cols];
    }
  }

  /** Reads an "Invalid Address" row back into the street, city and ZIP code
      it echoes; None for any row of another shape. */
  function ReadInvalidRow(cols: seq<string>): (fields: Option<(string, string, string)>) {
    if |cols| == 3 && |cols[1]| >= 1 && cols[1][0] == ' '
       && |cols[2]| >= |InvalidSuffix| && cols[2][|cols[2]| - |InvalidSuffix|..] == InvalidSuffix
    then Some((cols[0], cols[1][1..], cols[2][..|cols[2]| - |InvalidSuffix|]))
    else None
  }

  /** Reads the corrected candidate back out of a four-column row, given the
      ZIP code of the record it was formatted for; None for any row of
      another shape. */
  function ReadCorrectedRow(cols: seq<string>, zip: string): (candidate: Option<Candidate>) {
    var head := " " + zip + Arrow;
    if |cols| == 4 && |cols[2]| >= |head| && cols[2][..|head|] == head
       && |cols[3]| >= 1 && cols[3][0] == ' '
    then Some(Candidate(cols[2][|head|..], cols[3][1..]))
    else None
  }

  /** The exact columns of both row shapes. */
  lemma FormatRowColumns(a: Address, l: Lookup)
    ensures !a.Valid || |l.Results| == 0 ==>
      FormatRow(a, l) == [a.Street, " " + a.City, a.ZipCode + " -> Invalid Address"]
    ensures a.Valid && |l.Results| > 0 ==>
      FormatRow(a, l) == [a.Street, " " + a.City,
                          " " + a.ZipCode + " -> " + l.Results[0].DeliveryLine1,
                          " " + l.Results[0].LastLine]
  {
    assert InvalidSuffix == " -> Invalid Address" && Arrow == " -> ";
  }

  /** Formatting loses nothing a reader needs: an invalid row gives back the
      record's street, city and ZIP code; a corrected row gives back the
      first candidate exactly; and the two shapes are never confused. */
  lemma FormatRowRoundTrip(a: Address, l: Lookup)
    ensures !a.Valid || |l.Results| == 0 ==>
      ReadInvalidRow(FormatRow(a, l)) == Some((a.Street, a.City, a.ZipCode)) &&
      ReadCorrectedRow(FormatRow(a, l), a.ZipCode) == None
    ensures a.Valid && |l.Results| > 0 ==>
      ReadCorrectedRow(FormatRow(a, l), a.ZipCode) == Some(l.Results[0]) &&
      ReadInvalidRow(FormatRow(a, l)) == None
  {
    FormatRowColumns(a, l);
    var cols := FormatRow(a, l);
    assert (" " + a.City)[1..] == a.City;
    if !a.Valid || |l.Results| == 0 {
      var z := a.ZipCode + InvalidSuffix;
      assert z[|z| - |InvalidSuffix|..] == InvalidSuffix;
      assert z[..|z| - |InvalidSuffix|] == a.ZipCode;
    } else {
      var c := l.Results[0];
      var head := " " + a.ZipCode + Arrow;
      var z := head + c.DeliveryLine1;
      assert cols[2] == z;
      assert z[..|head|] == head;
      assert z[|head|..] == c.DeliveryLine1;
      assert (" " + c.LastLine)[1..] == c.LastLine;
    }
  }

  /** Only the first candidate is consulted, and nothing of the request but
      whether it has candidates: two requests that agree on that format alike. */
  lemma FormatRowUsesFirstCandidateOnly(a: Address, l1: Lookup, l2: Lookup)
    requires |l1.Results| == 0 <==> |l2.Results| == 0
    requires |l1.Results| > 0 ==> l1.Results[0] == l2.Results[0]
    ensures FormatRow(a, l1) == FormatRow(a, l2)
  {
  }

  /** Formatting does not read the request's own Street, City or ZIPCode:
      given the same candidates, the request as written and the intended
      request format to the same row. The wrong City reaches the output only
      through the candidates the service returns for it. */
  lemma RequestDefectNotInOutput(a: Address, results: seq<Candidate>)
    ensures FormatRow(a, RequestFor(a).(Results := results))
         == FormatRow(a, IntendedRequestFor(a).(Results := results))
  {
    FormatRowUsesFirstCandidateOnly(a, RequestFor(a).(Results := results),
                                    IntendedRequestFor(a).(Results := results));
  }

  /** A malformed input row is reported with empty fields whatever the
      service answered; its origin string does not appear in the output. */
  lemma MalformedRowReportedInvalid(row: seq<string>, l: Lookup)
    requires |row| != 3
    ensures FormatRow(ParseRow(row), l) == ["", " ", InvalidSuffix]
  {
    assert " " + "" == " ";
    assert "" + InvalidSuffix == InvalidSuffix;
  }

  // ---------------------------------------------------------------------------
  // Worked examples
  // ---------------------------------------------------------------------------

  /** A three-column row parses to a valid record with the three fields. */
  lemma ExampleValidRow()
    ensures ParseRow(["123 Main St", "Springfield", "00001"])
         == Address("123 Main St", "Springfield", "00001", "", true)
  {
    TrimSpaceOfTrimmed("123 Main St");
    TrimSpaceOfTrimmed("Springfield");
    TrimSpaceOfTrimmed("00001");
  }

  /** A two-column row parses to an invalid record holding the glued columns. */
  lemma ExampleShortRow()
    ensures ParseRow(["123 Main St", "Springfield"])
         == Address("", "", "", "123 Main StSpringfield", false)
  {
    assert Concat(["123 Main St", "Springfield"]) == "123 Main St" + ("Springfield" + Concat([]));
  }

  /** A valid record with a candidate gives the four-column corrected row. */
  lemma ExampleCorrectedRow()
    ensures FormatRow(Address("123 Main St", "Springfield", "00001", "", true),
                      Lookup("123 Main St", "123 Main St", "00001",
                             [Candidate("123 MAIN ST", "SPRINGFIELD IL 00001")]))
         == ["123 Main St", " Springfield", " 00001 -> 123 MAIN ST", " SPRINGFIELD IL 00001"]
  {
    assert " " + "Springfield" == " Springfield";
    assert " " + "00001" + Arrow + "123 MAIN ST" == " 00001 -> 123 MAIN ST";
    assert " " + "SPRINGFIELD IL 00001" == " SPRINGFIELD IL 00001";
  }
}
