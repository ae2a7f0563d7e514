/**
 The records the address service passes between its stages. Address is the
 repository's own entities.Address; Lookup and Candidate stand for the
 US-street request and result types of the address-verification SDK, reduced
 to the fields the service reads or writes.
 */
module Entities {

  /** One input record. Go's zero values apply to the fields a constructor
      leaves out: "" for text, false for Valid. */
  datatype Address = Address(
    Street: string,
    City: string,
    ZipCode: string,
    OriginString: string,
    Valid: bool)

  /** One matched candidate returned by the verification service. */
  datatype Candidate = Candidate(DeliveryLine1: string, LastLine: string)

  /** A verification request; Results is filled in by the remote service. */
  datatype Lookup = Lookup(
    Street: string,
    City: string,
    ZIPCode: string,
    Results: seq<Candidate>)
}
