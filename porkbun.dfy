/** The Porkbun client of scripts/configure-dns-porkbun-v2.py: the request
    helper that adds the credentials to the caller's dict and turns every
    failure into an error dict, the first-match search for the CNAME record,
    and the reconcile decision of `configure_dns` (no change, update by id,
    or create). The HTTP transport is an oracle: the reply to a request is a
    function of all the requests sent so far, the last one included. */
module Porkbun {
  import opened PyJson

  /** Set once in `__init__` (lines 72-74) and never changed. */
  const Domain: string := "candlefish.ai"
  const Subdomain: string := "jonathon"
  const Target: string := "zippy-macaron-c28bbf.netlify.app"

  /** `f"{self.subdomain}.{self.domain}"` (line 135). */
  function FullName(): string {
    Subdomain + "." + Domain
  }

  /** The API paths the client posts to (lines 110, 123, 154, 174, 187). */
  datatype Endpoint =
    | Ping
    | Retrieve(domain: string)
    | Create(domain: string)
    | Edit(domain: string, id: Json)
    | Delete(domain: string, id: Json)

  /** A request that creates, changes or removes a record. */
  predicate IsWrite(e: Endpoint) {
    e.Create? || e.Edit? || e.Delete?
  }

  /** What was posted: the endpoint and the JSON body. */
  datatype Request = Request(endpoint: Endpoint, body: map<string, Json>)

  /** How a post ended: `requests` raised, the body was not JSON, or it
      decoded to a JSON object. */
  datatype Transport =
    | RequestFailed(detail: string)
    | BadJson(text: string)
    | Decoded(reply: map<string, Json>)

  function ErrorDict(message: Json): (d: map<string, Json>)
    ensures d.Keys == {"status", "message"}
    ensures d["status"] == JStr("ERROR") && d["message"] == message
  {
    map["status" := JStr("ERROR"), "message" := message]
  }

  /** The result `_make_request` hands back for a transport outcome
      (lines 91-104). */
  function Normalise(t: Transport): map<string, Json> {
    match t
    case RequestFailed(detail) => ErrorDict(JStr("Request failed: " + detail))
    case BadJson(text) => ErrorDict(JStr("Invalid JSON response: " + text))
    case Decoded(reply) =>
      if Get(reply, "status") == JStr("ERROR")
      then ErrorDict(GetOr(reply, "message", JStr("Unknown error")))
      else reply
  }

  /** `result.get('status') == 'SUCCESS'`. */
  predicate IsSuccess(result: map<string, Json>) {
    Get(result, "status") == JStr("SUCCESS")
  }

  /** No failure escapes: an error reply, a failed request and a body that
      is not JSON all come back as a dict with status `ERROR` and a message,
      and nothing else; any other reply is passed on as it is. */
  lemma {:induction false} NormaliseErrors(t: Transport)
    ensures var r := Normalise(t);
            || (r.Keys == {"status", "message"} && r["status"] == JStr("ERROR"))
            || (t.Decoded? && r == t.reply && Get(r, "status") != JStr("ERROR"))
    ensures t.Decoded? && Get(t.reply, "status") != JStr("ERROR") ==> Normalise(t) == t.reply
    ensures !(t.Decoded? && Get(t.reply, "status") != JStr("ERROR"))
            ==> Normalise(t).Keys == {"status", "message"} && Normalise(t)["status"] == JStr("ERROR")
    ensures t.RequestFailed? || t.BadJson? ==> !IsSuccess(Normalise(t))
    ensures t.Decoded? && "message" !in t.reply && Get(t.reply, "status") == JStr("ERROR")
            ==> Normalise(t)["message"] == JStr("Unknown error")
  {
  }

  /** Normalising is idempotent: a normalised result, replied again, comes
      back unchanged. */
  lemma {:induction false} NormaliseIdempotent(t: Transport)
    ensures Normalise(Decoded(Normalise(t))) == Normalise(t)
  {
  }

  /** `data.update({"apikey": ..., "secretapikey": ...})` (lines 81-84). */
  function WithCredentials(data: map<string, Json>, apiKey: string, secretKey: string): map<string, Json> {
    data["apikey" := JStr(apiKey)]["secretapikey" := JStr(secretKey)]
  }

  /** The update adds or overwrites the two credentials and leaves every
      other key as it was. */
  lemma {:induction false} WithCredentialsKeepsOthers(data: map<string, Json>, apiKey: string, secretKey: string)
    ensures var d := WithCredentials(data, apiKey, secretKey);
            && d.Keys == data.Keys + {"apikey", "secretapikey"}
            && d["apikey"] == JStr(apiKey) && d["secretapikey"] == JStr(secretKey)
            && forall k :: k in data && k != "apikey" && k != "secretapikey" ==> d[k] == data[k]
  {
  }

  /** The body `create_cname_record` (lines 147-152) and `update_cname_record`
      (lines 167-172) build before the credentials are added. */
  function CnamePayload(): map<string, Json> {
    map["name" := JStr(Subdomain), "type" := JStr("CNAME"), "content" := JStr(Target), "ttl" := JStr("300")]
  }

  /** The body of a create or an update as sent: the record pointing
      `Subdomain` at `Target` with a 300 s TTL, and the credentials. */
  function CnameBody(apiKey: string, secretKey: string): (b: map<string, Json>)
    ensures b.Keys == {"name", "type", "content", "ttl", "apikey", "secretapikey"}
    ensures b["name"] == JStr("jonathon") && b["type"] == JStr("CNAME")
    ensures b["content"] == JStr("zippy-macaron-c28bbf.netlify.app") && b["ttl"] == JStr("300")
    ensures b["apikey"] == JStr(apiKey) && b["secretapikey"] == JStr(secretKey)
  {
    WithCredentials(CnamePayload(), apiKey, secretKey)
  }

  /** The `record` in `find_existing_record` the loop stops at (lines 138-139). */
  predicate IsTarget(record: map<string, Json>) {
    Get(record, "name") == JStr(FullName()) && Get(record, "type") == JStr("CNAME")
  }

  /** An element the loop looks at and passes over: a dict that is not the record. */
  predicate Skipped(item: Json) {
    item.JObject? && !IsTarget(item.fields)
  }

  /** Where the search over `records` ends: the first matching record, no
      match, or an element without `.get`, which raises `AttributeError`. */
  datatype Search = Found(index: nat, record: map<string, Json>) | NotFound | Fault

  /** `find_existing_record` over a list (lines 133-141): the first element
      that is not a passed-over dict decides. */
  function FindRecord(items: seq<Json>): (r: Search)
    ensures r.Found? ==> && r.index < |items| && items[r.index] == JObject(r.record)
                         && IsTarget(r.record)
                         && forall j :: 0 <= j < r.index ==> Skipped(items[j])
    ensures r.NotFound? <==> forall j :: 0 <= j < |items| ==> Skipped(items[j])
    ensures r.Fault? ==> exists i :: && 0 <= i < |items| && !items[i].JObject?
                                     && forall j :: 0 <= j < i ==> Skipped(items[j])
  {
    if items == [] then NotFound
    else match items[0]
      case JObject(record) =>
        if IsTarget(record) then Found(0, record)
        else
          var rest := FindRecord(items[1..]);
          assert forall j :: 1 <= j < |items| ==> items[j] == items[1..][j - 1];
          (match rest
           case Found(k, found) => Found(k + 1, found)
           case NotFound => NotFound
           case Fault => Fault)
      case _ => Fault
  }

  /** `for record in records` over what `get_dns_records` returned: a
      string iterates over its characters and a dict over its keys, both
      strings without `.get`; anything else cannot be iterated. */
  function FindIn(records: Json): (r: Search)
    ensures records.JList? ==> r == FindRecord(records.items)
    ensures r.Found? ==> && records.JList? && r.index < |records.items|
                         && records.items[r.index] == JObject(r.record) && IsTarget(r.record)
    ensures r.NotFound? <==> || (records.JList? && forall j :: 0 <= j < |records.items| ==> Skipped(records.items[j]))
                             || records == JStr([]) || records == JObject(map[])
  {
    match records
    case JList(items) => FindRecord(items)
    case JStr(s) => if s == [] then NotFound else Fault
    case JObject(fields) => if fields == map[] then NotFound else Fault
    case _ => Fault
  }

  /** How `configure_dns` ends: it returns, `error()` exits the process
      (lines 27-30), or an uncaught exception ends it. */
  datatype Outcome = Finished(success: bool) | Exited(message: string) | Crashed

  const AuthFailed: string := "Authentication failed. Please check your API credentials."
  const RetrievalFailed: string := "Failed to retrieve DNS records"

  /** The outcome of a run and every request sent by then. */
  datatype Run = Run(outcome: Outcome, sent: seq<Request>)

  /** Post one request after `sent`; the reply is the oracle's answer. */
  function Reply(server: seq<Request> -> Transport, sent: seq<Request>, req: Request): map<string, Json> {
    Normalise(server(sent + [req]))
  }

  /** A create or update as the last step: its success is the result. */
  function Write(server: seq<Request> -> Transport, sent: seq<Request>, req: Request): Run {
    Run(Finished(IsSuccess(Reply(server, sent, req))), sent + [req])
  }

  function PingRequest(apiKey: string, secretKey: string): Request {
    Request(Ping, WithCredentials(map[], apiKey, secretKey))
  }

  function RetrieveRequest(apiKey: string, secretKey: string): Request {
    Request(Retrieve(Domain), WithCredentials(map[], apiKey, secretKey))
  }

  /** `configure_dns` (lines 196-229) from the requests sent before it. */
  function Configure(server: seq<Request> -> Transport, before: seq<Request>,
                     apiKey: string, secretKey: string): Run
  {
    var ping := PingRequest(apiKey, secretKey);
    var s1 := before + [ping];
    if !IsSuccess(Reply(server, before, ping)) then Run(Exited(AuthFailed), s1)
    else
      var retrieve := RetrieveRequest(apiKey, secretKey);
      var s2 := s1 + [retrieve];
      var result := Reply(server, s1, retrieve);
      if !IsSuccess(result) then Run(Exited(RetrievalFailed), s2)
      else
        var records := GetOr(result, "records", JList([]));
        if !HasLen(records) then Run(Crashed, s2)
        else
          var create := Request(Create(Domain), CnameBody(apiKey, secretKey));
          match FindIn(records)
          case Fault => Run(Crashed, s2)
          case NotFound => Write(server, s2, create)
          case Found(_, record) =>
            if Get(record, "content") == JStr(Target) then Run(Finished(true), s2)
            else
              var id := Get(record, "id");
              if Truthy(id) then Write(server, s2, Request(Edit(Domain, id), CnameBody(apiKey, secretKey)))
              else Write(server, s2, create)
  }

  /** The records the retrieval reply holds, once it succeeded and `len` of
      them is defined. */
  predicate Retrieved(server: seq<Request> -> Transport, before: seq<Request>,
                      apiKey: string, secretKey: string, records: Json)
  {
    var ping := PingRequest(apiKey, secretKey);
    var s1 := before + [ping];
    var result := Reply(server, s1, RetrieveRequest(apiKey, secretKey));
    && IsSuccess(Reply(server, before, ping))
    && IsSuccess(result)
    && records == GetOr(result, "records", JList([]))
    && HasLen(records)
  }

  /** A failed ping exits at once: only the ping was sent. */
  lemma {:induction false} FailedPingExits(server: seq<Request> -> Transport, before: seq<Request>, apiKey: string, secretKey: string)
    requires !IsSuccess(Reply(server, before, PingRequest(apiKey, secretKey)))
    ensures Configure(server, before, apiKey, secretKey)
            == Run(Exited(AuthFailed), before + [PingRequest(apiKey, secretKey)])
  {
  }

  /** A failed retrieval exits after the ping and the retrieval. */
  lemma {:induction false} FailedRetrievalExits(server: seq<Request> -> Transport, before: seq<Request>, apiKey: string, secretKey: string)
    requires IsSuccess(Reply(server, before, PingRequest(apiKey, secretKey)))
    requires !IsSuccess(Reply(server, before + [PingRequest(apiKey, secretKey)], RetrieveRequest(apiKey, secretKey)))
    ensures Configure(server, before, apiKey, secretKey)
            == Run(Exited(RetrievalFailed), before + [PingRequest(apiKey, secretKey), RetrieveRequest(apiKey, secretKey)])
  {
    var ping, retrieve := PingRequest(apiKey, secretKey), RetrieveRequest(apiKey, secretKey);
    assert before + [ping] + [retrieve] == before + [ping, retrieve];
  }

  /** A run that exits or crashes has sent no write. */
  lemma {:induction false} NoWriteUnlessFinished(server: seq<Request> -> Transport, before: seq<Request>, apiKey: string, secretKey: string)
    ensures var r := Configure(server, before, apiKey, secretKey);
            !r.outcome.Finished? ==> forall i :: |before| <= i < |r.sent| ==> !IsWrite(r.sent[i].endpoint)
  {
  }

  /** Every run sends the ping first and the retrieval second, and sends
      at most one request after them, which is the only one that writes. */
  lemma {:induction false} RequestsInOrder(server: seq<Request> -> Transport, before: seq<Request>, apiKey: string, secretKey: string)
    ensures var r := Configure(server, before, apiKey, secretKey);
            && before < r.sent && |r.sent| <= |before| + 3
            && r.sent[|before|] == PingRequest(apiKey, secretKey)
            && (|r.sent| > |before| + 1 ==> r.sent[|before| + 1] == RetrieveRequest(apiKey, secretKey))
            && (forall i :: |before| <= i < |r.sent| - 1 ==> !IsWrite(r.sent[i].endpoint))
  {
    var r := Configure(server, before, apiKey, secretKey);
    var ping, retrieve := PingRequest(apiKey, secretKey), RetrieveRequest(apiKey, secretKey);
    var s1 := before + [ping];
    var s2 := s1 + [retrieve];
    assert s1[|before|] == ping && s2[|before|] == ping && s2[|before| + 1] == retrieve;
    if r.sent == s1 || r.sent == s2 {
    } else {
      var w := r.sent[|s2|];
      assert r.sent == s2 + [w];
      assert r.sent[|before|] == ping && r.sent[|before| + 1] == retrieve;
    }
  }

  /** The one write, when there is one, is a create or an update carrying
      the CNAME body, sent only once the records were retrieved and could be
      searched; a run never deletes. */
  lemma {:induction false} AtMostOneWrite(server: seq<Request> -> Transport, before: seq<Request>, apiKey: string, secretKey: string)
    ensures var r := Configure(server, before, apiKey, secretKey);
            |r.sent| == |before| + 3 ==>
              && IsWrite(r.sent[|before| + 2].endpoint)
              && !r.sent[|before| + 2].endpoint.Delete?
              && r.sent[|before| + 2].body == CnameBody(apiKey, secretKey)
              && (exists records :: Retrieved(server, before, apiKey, secretKey, records)
                                    && !FindIn(records).Fault?)
  {
    var r := Configure(server, before, apiKey, secretKey);
    if |r.sent| == |before| + 3 {
      var ping, retrieve := PingRequest(apiKey, secretKey), RetrieveRequest(apiKey, secretKey);
      var s2 := before + [ping] + [retrieve];
      var records := GetOr(Reply(server, before + [ping], retrieve), "records", JList([]));
      assert Retrieved(server, before, apiKey, secretKey, records);
      assert r.sent[|before| + 2] == r.sent[|s2|];
    }
  }

  /** An existing CNAME that already points at the target: success, and
      nothing but the ping and the retrieval was sent. */
  lemma {:induction false} UpToDateIsNoOp(server: seq<Request> -> Transport, before: seq<Request>, apiKey: string, secretKey: string,
                       records: Json, i: nat, record: map<string, Json>)
    requires Retrieved(server, before, apiKey, secretKey, records)
    requires FindIn(records) == Found(i, record)
    requires Get(record, "content") == JStr(Target)
    ensures Configure(server, before, apiKey, secretKey)
            == Run(Finished(true), before + [PingRequest(apiKey, secretKey), RetrieveRequest(apiKey, secretKey)])
  {
    var ping, retrieve := PingRequest(apiKey, secretKey), RetrieveRequest(apiKey, secretKey);
    assert before + [ping] + [retrieve] == before + [ping, retrieve];
  }

  /** An existing CNAME pointing elsewhere is updated by its id when the id
      is truthy, and a new record is created otherwise; the write's success
      is the result. */
  lemma {:induction false} StaleRecordRewritten(server: seq<Request> -> Transport, before: seq<Request>, apiKey: string, secretKey: string,
                             records: Json, i: nat, record: map<string, Json>)
    requires Retrieved(server, before, apiKey, secretKey, records)
    requires FindIn(records) == Found(i, record)
    requires Get(record, "content") != JStr(Target)
    ensures var s2 := before + [PingRequest(apiKey, secretKey), RetrieveRequest(apiKey, secretKey)];
            var id := Get(record, "id");
            var write := if Truthy(id) then Request(Edit(Domain, id), CnameBody(apiKey, secretKey))
                         else Request(Create(Domain), CnameBody(apiKey, secretKey));
            Configure(server, before, apiKey, secretKey)
            == Run(Finished(IsSuccess(Normalise(server(s2 + [write])))), s2 + [write])
  {
    var ping, retrieve := PingRequest(apiKey, secretKey), RetrieveRequest(apiKey, secretKey);
    assert before + [ping] + [retrieve] == before + [ping, retrieve];
  }

  /** No matching record: exactly one create is sent and its success is the result. */
  lemma {:induction false} MissingRecordCreated(server: seq<Request> -> Transport, before: seq<Request>, apiKey: string, secretKey: string,
                             records: Json)
    requires Retrieved(server, before, apiKey, secretKey, records)
    requires FindIn(records) == NotFound
    ensures var s2 := before + [PingRequest(apiKey, secretKey), RetrieveRequest(apiKey, secretKey)];
            var create := Request(Create(Domain), CnameBody(apiKey, secretKey));
            Configure(server, before, apiKey, secretKey)
            == Run(Finished(IsSuccess(Normalise(server(s2 + [create])))), s2 + [create])
  {
    var ping, retrieve := PingRequest(apiKey, secretKey), RetrieveRequest(apiKey, secretKey);
    assert before + [ping] + [retrieve] == before + [ping, retrieve];
  }

  /** The request log the client posts through. */
  class Api {
    const server: seq<Request> -> Transport
    var sent: seq<Request>

    constructor(server: seq<Request> -> Transport)
      ensures this.server == server && sent == []
    {
      this.server := server;
      sent := [];
    }

    /** `requests.post(...)` followed by `response.json()`. */
    method Post(req: Request) returns (reply: Transport)
      modifies this
      ensures sent == old(sent) + [req]
      ensures reply == server(sent)
    {
      sent := sent + [req];
      reply := server(sent);
    }
  }

  /** A Python dict the caller owns and the request helper updates in place. */
  class Dict {
    var entries: map<string, Json>

    constructor(entries: map<string, Json>)
      ensures this.entries == entries
    {
      this.entries := entries;
    }
  }

  /** `PorkbunDNS` (lines 64-229). */
  class PorkbunDns {
    const apiKey: string
    const secretKey: string
    const api: Api

    constructor(apiKey: string, secretKey: string, api: Api)
      ensures this.apiKey == apiKey && this.secretKey == secretKey && this.api == api
    {
      this.apiKey := apiKey;
      this.secretKey := secretKey;
      this.api := api;
    }

    /** `_make_request` (lines 76-104): adds the credentials to the caller's
        dict, posts it, and never lets a failure escape. */
    method MakeRequest(endpoint: Endpoint, data: Dict) returns (result: map<string, Json>)
      modifies data, api
      ensures data.entries == WithCredentials(old(data.entries), apiKey, secretKey)
      ensures api.sent == old(api.sent) + [Request(endpoint, data.entries)]
      ensures result == Normalise(api.server(api.sent))
    {
      data.entries := data.entries["apikey" := JStr(apiKey)]["secretapikey" := JStr(secretKey)];
      var reply := api.Post(Request(endpoint, data.entries));
      match reply {
        case RequestFailed(detail) =>
          result := map["status" := JStr("ERROR"), "message" := JStr("Request failed: " + detail)];
        case BadJson(text) =>
          result := map["status" := JStr("ERROR"), "message" := JStr("Invalid JSON response: " + text)];
        case Decoded(reply) =>
          if Get(reply, "status") == JStr("ERROR") {
            result := map["status" := JStr("ERROR"), "message" := GetOr(reply, "message", JStr("Unknown error"))];
          } else {
            result := reply;
          }
      }
    }

    /** `test_authentication` (lines 106-117). */
    method TestAuthentication() returns (ok: bool)
      modifies api
      ensures api.sent == old(api.sent) + [PingRequest(apiKey, secretKey)]
      ensures ok == IsSuccess(Reply(api.server, old(api.sent), PingRequest(apiKey, secretKey)))
    {
      var data := new Dict(map[]);
      var result := MakeRequest(Ping, data);
      ok := IsSuccess(result);
    }

    /** `get_dns_records` (lines 119-131): `None` on failure; `len(records)`
        in the log line raises for a `records` value without a length. */
    method GetDnsRecords() returns (records: Fetched)
      modifies api
      ensures api.sent == old(api.sent) + [RetrieveRequest(apiKey, secretKey)]
      ensures var result := Reply(api.server, old(api.sent), RetrieveRequest(apiKey, secretKey));
              var value := GetOr(result, "records", JList([]));
              records == if !IsSuccess(result) then Missing
                         else if HasLen(value) then Records(value)
                         else LenError
    {
      var data := new Dict(map[]);
      var result := MakeRequest(Retrieve(Domain), data);
      if IsSuccess(result) {
        var value := GetOr(result, "records", JList([]));
        if HasLen(value) {
          records := Records(value);
        } else {
          records := LenError;
        }
      } else {
        records := Missing;
      }
    }

    /** `find_existing_record` (lines 133-141): the loop over the records. */
    method FindExistingRecord(records: Json) returns (found: Search)
      ensures found == FindIn(records)
    {
      match records {
        case JList(items) =>
          var i := 0;
          while i < |items|
            invariant 0 <= i <= |items|
            invariant forall j :: 0 <= j < i ==> Skipped(items[j])
          {
            match items[i] {
              case JObject(record) =>
                if Get(record, "name") == JStr(Subdomain + "." + Domain) && Get(record, "type") == JStr("CNAME") {
                  return Found(i, record);
                }
              case _ =>
                return Fault;
            }
            i := i + 1;
          }
          return NotFound;
        case JStr(s) =>
          found := if s == [] then NotFound else Fault;
        case JObject(fields) =>
          found := if fields == map[] then NotFound else Fault;
        case _ =>
          found := Fault;
      }
    }

    /** `create_cname_record` (lines 143-161). */
    method CreateCnameRecord() returns (ok: bool)
      modifies api
      ensures api.sent == old(api.sent) + [Request(Create(Domain), CnameBody(apiKey, secretKey))]
      ensures ok == IsSuccess(Normalise(api.server(api.sent)))
    {
      var data := new Dict(CnamePayload());
      var result := MakeRequest(Create(Domain), data);
      ok := IsSuccess(result);
    }

    /** `update_cname_record` (lines 163-181): the same body as a create,
        posted to the record's edit path. */
    method UpdateCnameRecord(recordId: Json) returns (ok: bool)
      modifies api
      ensures api.sent == old(api.sent) + [Request(Edit(Domain, recordId), CnameBody(apiKey, secretKey))]
      ensures ok == IsSuccess(Normalise(api.server(api.sent)))
    {
      var data := new Dict(CnamePayload());
      var result := MakeRequest(Edit(Domain, recordId), data);
      ok := IsSuccess(result);
    }

    /** `delete_record` (lines 183-194): only the credentials in the body. */
    method DeleteRecord(recordId: Json) returns (ok: bool)
      modifies api
      ensures api.sent == old(api.sent) + [Request(Delete(Domain, recordId), WithCredentials(map[], apiKey, secretKey))]
      ensures ok == IsSuccess(Normalise(api.server(api.sent)))
    {
      var data := new Dict(map[]);
      var result := MakeRequest(Delete(Domain, recordId), data);
      ok := IsSuccess(result);
    }

    /** `configure_dns` (lines 196-229): the run is the one `Configure`
        describes. */
    method ConfigureDns() returns (outcome: Outcome)
      modifies api
      ensures Run(outcome, api.sent) == Configure(api.server, old(api.sent), apiKey, secretKey)
    {
      var authenticated := TestAuthentication();
      if !authenticated {
        return Exited(AuthFailed);
      }
      var records := GetDnsRecords();
      match records {
        case Missing =>
          return Exited(RetrievalFailed);
        case LenError =>
          return Crashed;
        case Records(value) =>
          var existing := FindExistingRecord(value);
          match existing {
            case Fault =>
              return Crashed;
            case NotFound =>
              var ok := CreateCnameRecord();
              return Finished(ok);
            case Found(_, record) =>
              if Get(record, "content") == JStr(Target) {
                return Finished(true);
              }
              var recordId := Get(record, "id");
              var ok;
              if Truthy(recordId) {
                ok := UpdateCnameRecord(recordId);
              } else {
                ok := CreateCnameRecord();
              }
              return Finished(ok);
          }
      }
    }
  }

  /** What `get_dns_records` gives back: the records, `None`, or the
      `TypeError` of `len` on them. */
  datatype Fetched = Records(value: Json) | Missing | LenError
}
