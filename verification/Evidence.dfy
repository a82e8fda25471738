/** The append-only evidence log. An evidence id is fresh; here it is the record's position. */
module Evidence {
  import opened Text
  import Findings
  import Gateway

  type EvidenceId = nat

  datatype RecordedResponse = RecordedResponse(status: int, bodyDigest: Bytes, bodyLength: nat)

  datatype RecordedBody = RecordedBody(digest: Bytes, length: nat)

  datatype Payload =
    | HttpExchange(
        engagementId: string, policyHash: string, actionId: Gateway.ActionId, authProfile: Option<string>, verb: string,
        requestHeaders: map<string, string>, requestBody: Option<RecordedBody>, payloadLabel: Option<string>,
        response: Option<RecordedResponse>, failed: bool)
    | ValidationRecord(
        verdict: Findings.Verdict, ownerProfile: string, subjectProfile: string, evidenceIds: seq<EvidenceId>)

  datatype Record = Record(evidenceId: EvidenceId, payload: Payload)

  class EvidenceStore {
    var records: seq<Record>

    constructor ()
      ensures records == []
    {
      records := [];
    }

    method Append(payload: Payload) returns (record: Record)
      modifies this
      ensures record == Record(|old(records)|, payload)
      ensures records == old(records) + [record]
    {
      record := Record(|records|, payload);
      records := records + [record];
    }
  }
}
