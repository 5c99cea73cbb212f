/**
 * The Cloudflare provider (providers/cloudflare.go) over an abstract Cloudflare zone.
 *
 * As for Pi-hole, the provider value is fixed at construction and the calls change
 * the remote zone; the zone's records, the replies to come and the requests received
 * form a `Server` value that every call takes and returns.
 */
module Cloudflare {
  import opened Results
  import opened Records

  /** CloudflareProvider: what NewCloudflareProvider keeps (the HTTP client is not modelled). */
  datatype Provider = Provider(apiToken: string, zoneID: string, baseURL: string)

  datatype Error =
    | CredentialsRequired               // "API token and zone ID are required"
    | RequestFailed                     // the request could not be built or sent
    | DecodeFailed                      // the reply was not a Cloudflare JSON response
    | APIError(message: string, code: int)
    | Unsuccessful                      // success=false without any error entry
    | ListExistingFailed(cause: Error)

  const APIBaseURL: string := "https://api.cloudflare.com/client/v4"

  /** NewCloudflareProvider: both the token and the zone id are required. */
  function NewProvider(apiToken: string, zoneID: string): (r: Result<Provider, Error>)
    ensures r.Success? <==> apiToken != "" && zoneID != ""
    ensures r.Failure? ==> r.error == CredentialsRequired
    ensures r.Success? ==> r.value.apiToken == apiToken && r.value.zoneID == zoneID
    ensures r.Success? ==> r.value.baseURL == APIBaseURL
  {
    if apiToken == "" || zoneID == "" then Failure(CredentialsRequired)
    else Success(Provider(apiToken, zoneID, APIBaseURL))
  }

  // ---------------------------------------------------------------------------
  // The server side of the API

  /** CloudflareError: one entry of a response's error list. */
  datatype APIErrorEntry = APIErrorEntry(code: int, message: string)

  /** What comes back for one request: nothing, an undecodable body, or a decoded response. */
  datatype Reply = Unreachable | Undecodable | Answered(success: bool, errors: seq<APIErrorEntry>)

  /** The reply of a server that carried the request out. */
  const Accepted: Reply := Answered(true, [])

  /**
   * makeRequest's verdict on a reply: only a decoded success=true response passes; a
   * failed one carries the first error's message and code when there is one.
   */
  function CheckReply(reply: Reply): (r: Option<Error>)
    ensures r.None? <==> reply.Answered? && reply.success
    ensures reply.Answered? && !reply.success && reply.errors != [] ==>
      r == Some(APIError(reply.errors[0].message, reply.errors[0].code))
    ensures reply.Answered? && !reply.success && reply.errors == [] ==> r == Some(Unsuccessful)
    ensures reply.Unreachable? ==> r == Some(RequestFailed)
    ensures reply.Undecodable? ==> r == Some(DecodeFailed)
  {
    match reply
    case Unreachable => Some(RequestFailed)
    case Undecodable => Some(DecodeFailed)
    case Answered(success, errors) =>
      if success then None
      else if |errors| > 0 then Some(APIError(errors[0].message, errors[0].code))
      else Some(Unsuccessful)
  }

  /** CloudflareRecord as the zone stores it; record ids are modelled as numbers. */
  datatype StoredRecord = StoredRecord(id: nat, name: string, rtype: string, content: string, ttl: int, proxied: bool)

  /** The body of a create or update request. */
  datatype Payload = Payload(name: string, rtype: string, content: string, ttl: int, proxied: bool)

  /** One API request, with the zone id its endpoint names. */
  datatype Request =
    | ListAll(zoneID: string)                                // GET    /zones/<zone>/dns_records
    | Query(zoneID: string, name: string, rtype: string)     // GET    /zones/<zone>/dns_records?name=&type=
    | Create(zoneID: string, payload: Payload)               // POST   /zones/<zone>/dns_records
    | Overwrite(zoneID: string, id: nat, payload: Payload)   // PUT    /zones/<zone>/dns_records/<id>
    | Remove(zoneID: string, id: nat)                        // DELETE /zones/<zone>/dns_records/<id>

  /**
   * The zone: its records in the order the API returns them, the id the next created
   * record gets, the replies to the next requests (Accepted once the script runs out),
   * and every request received so far.
   */
  datatype Server = Server(records: seq<StoredRecord>, nextId: nat, replies: seq<Reply>, sent: seq<Request>)

  /** The zone's own invariant: ids are below nextId and pairwise distinct. */
  predicate Valid(w: Server) {
    && (forall i :: 0 <= i < |w.records| ==> w.records[i].id < w.nextId)
    && UniqueIds(w.records)
  }

  predicate UniqueIds(records: seq<StoredRecord>) {
    forall i, j :: 0 <= i < j < |records| ==> records[i].id != records[j].id
  }

  function NextReply(w: Server): Reply {
    if w.replies == [] then Accepted else w.replies[0]
  }

  /** The records with exactly this name and type, in zone order (the answer to a Query). */
  function Matching(records: seq<StoredRecord>, name: string, rtype: string): seq<StoredRecord>
    decreases |records|
  {
    if records == [] then []
    else
      var head := if records[0].name == name && records[0].rtype == rtype then [records[0]] else [];
      head + Matching(records[1..], name, rtype)
  }

  /**
   * The index of the first stored record with this name and type, or |records|: the
   * search Records.FirstNamed makes over listed records, here over the zone's own.
   */
  function FirstStored(records: seq<StoredRecord>, name: string, rtype: string): (k: nat)
    ensures k <= |records|
    ensures k < |records| ==> records[k].name == name && records[k].rtype == rtype
    ensures forall j :: 0 <= j < k ==> !(records[j].name == name && records[j].rtype == rtype)
  {
    if records == [] then 0
    else if records[0].name == name && records[0].rtype == rtype then 0
    else 1 + FirstStored(records[1..], name, rtype)
  }

  /** A query answers with the first match at its head, and is empty exactly when nothing matches. */
  lemma {:induction false} MatchingHead(records: seq<StoredRecord>, name: string, rtype: string)
    ensures var k := FirstStored(records, name, rtype);
      (|Matching(records, name, rtype)| > 0 <==> k < |records|)
      && (k < |records| ==> Matching(records, name, rtype)[0] == records[k])
    decreases |records|
  {
    if records != [] {
      MatchingHead(records[1..], name, rtype);
    }
  }

  /** The index of the first record with this id, or |records|. */
  function FirstWithId(records: seq<StoredRecord>, id: nat): (k: nat)
    ensures k <= |records|
    ensures k < |records| ==> records[k].id == id
    ensures forall j :: 0 <= j < k ==> records[j].id != id
  {
    if records == [] then 0
    else if records[0].id == id then 0
    else 1 + FirstWithId(records[1..], id)
  }

  function Stored(id: nat, payload: Payload): StoredRecord {
    StoredRecord(id, payload.name, payload.rtype, payload.content, payload.ttl, payload.proxied)
  }

  /** What carrying out a request does to the records and to the next id. */
  function Perform(w: Server, req: Request): (seq<StoredRecord>, nat) {
    match req
    case ListAll(_) => (w.records, w.nextId)
    case Query(_, _, _) => (w.records, w.nextId)
    case Create(_, payload) => (w.records + [Stored(w.nextId, payload)], w.nextId + 1)
    case Overwrite(_, id, payload) =>
      var k := FirstWithId(w.records, id);
      (if k < |w.records| then w.records[k := Stored(id, payload)] else w.records, w.nextId)
    case Remove(_, id) =>
      var k := FirstWithId(w.records, id);
      (if k < |w.records| then w.records[..k] + w.records[k + 1..] else w.records, w.nextId)
  }

  /** Sends one request: the zone records it, answers with its next reply, and acts only on success. */
  function Exchange(w: Server, req: Request): (Server, Reply) {
    var reply := NextReply(w);
    var (records, nextId) := if reply.Answered? && reply.success then Perform(w, req) else (w.records, w.nextId);
    (Server(records, nextId, if w.replies == [] then [] else w.replies[1..], w.sent + [req]), reply)
  }

  // ---------------------------------------------------------------------------
  // ListRecords

  predicate ListedType(rtype: string) {
    rtype == "A" || rtype == "AAAA" || rtype == "TXT"
  }

  function Internal(r: StoredRecord): DNSRecord {
    DNSRecord(r.name, r.rtype, r.content, r.ttl)
  }

  /** The conversion of the zone's records: A, AAAA and TXT only, in order. */
  function Listable(records: seq<StoredRecord>): seq<DNSRecord>
    decreases |records|
  {
    if records == [] then []
    else
      var last := records[|records| - 1];
      Listable(records[..|records| - 1]) + (if ListedType(last.rtype) then [Internal(last)] else [])
  }

  /** A listed record is exactly a stored A, AAAA or TXT record, with its content as value. */
  lemma {:induction false} ListableRecords(records: seq<StoredRecord>)
    ensures forall r :: r in Listable(records) <==>
      exists i :: 0 <= i < |records| && ListedType(records[i].rtype) && r == Internal(records[i])
    decreases |records|
  {
    if records != [] {
      var front := records[..|records| - 1];
      ListableRecords(front);
      forall r | r in Listable(records)
        ensures exists i :: 0 <= i < |records| && ListedType(records[i].rtype) && r == Internal(records[i])
      {
        if r in Listable(front) {
          var i :| 0 <= i < |front| && ListedType(front[i].rtype) && r == Internal(front[i]);
          assert records[i] == front[i];
        } else {
          assert r == Internal(records[|records| - 1]);
        }
      }
      forall i | 0 <= i < |records| && ListedType(records[i].rtype)
        ensures Internal(records[i]) in Listable(records)
      {
        if i < |front| {
          assert front[i] == records[i];
        }
      }
    }
  }

  /** The conversion keeps the zone's order: it distributes over concatenation. */
  lemma {:induction false} ListableAppend(a: seq<StoredRecord>, b: seq<StoredRecord>)
    ensures Listable(a + b) == Listable(a) + Listable(b)
    decreases |b|
  {
    if b == [] {
      assert a + b == a;
    } else {
      var front := b[..|b| - 1];
      assert (a + b)[..|a + b| - 1] == a + front;
      ListableAppend(a, front);
    }
  }

  /** ListRecords as a transition of the zone; the `zone` argument plays no part. */
  function Listing(p: Provider, w: Server, zone: string): (out: (Server, Result<seq<DNSRecord>, Error>))
    ensures out.0.records == w.records && out.0.nextId == w.nextId
    ensures out.0.sent == w.sent + [ListAll(p.zoneID)]
    ensures out.1.Failure? <==> CheckReply(NextReply(w)).Some?
  {
    var (w1, reply) := Exchange(w, ListAll(p.zoneID));
    match CheckReply(reply)
    case Some(e) => (w1, Failure(e))
    case None => (w1, Success(Listable(w.records)))
  }

  /** ListRecords: one request, then a filtering loop over the returned records. */
  method ListRecords(p: Provider, w: Server, zone: string) returns (w': Server, r: Result<seq<DNSRecord>, Error>)
    ensures (w', r) == Listing(p, w, zone)
  {
    var (w1, reply) := Exchange(w, ListAll(p.zoneID));
    w' := w1;
    var err := CheckReply(reply);
    if err.Some? {
      return w', Failure(err.value);
    }
    var records := w.records;
    var dnsRecords: seq<DNSRecord> := [];
    var i := 0;
    while i < |records|
      invariant 0 <= i <= |records|
      invariant dnsRecords == Listable(records[..i])
    {
      var record := records[i];
      if record.rtype == "A" || record.rtype == "AAAA" || record.rtype == "TXT" {
        dnsRecords := dnsRecords + [DNSRecord(record.name, record.rtype, record.content, record.ttl)];
      }
      assert records[..i + 1][..i] == records[..i];
      i := i + 1;
    }
    assert records[..i] == records;
    r := Success(dnsRecords);
  }

  // ---------------------------------------------------------------------------
  // CreateRecord, UpdateRecord, DeleteRecord

  /** The request body for a record: never proxied, since tailnet addresses are private. */
  function PayloadOf(record: DNSRecord): Payload {
    Payload(record.name, record.rtype, record.value, record.ttl, false)
  }

  /** CreateRecord: one POST to the configured zone. */
  function CreateRecord(p: Provider, w: Server, zone: string, record: DNSRecord): (out: (Server, Option<Error>))
    ensures out.0.sent == w.sent + [Create(p.zoneID, PayloadOf(record))]
    ensures out.1.None? <==> CheckReply(NextReply(w)).None?
    ensures out.1.None? ==> out.0.records == w.records + [StoredRecord(w.nextId, record.name, record.rtype, record.value, record.ttl, false)]
    ensures out.1.Some? ==> out.0.records == w.records
  {
    var (w1, reply) := Exchange(w, Create(p.zoneID, PayloadOf(record)));
    (w1, CheckReply(reply))
  }

  /**
   * The search loop of UpdateRecord over the listed records: each record with the same
   * name and type triggers a query for it; the first non-empty answer gives the id.
   */
  function Lookup(p: Provider, w: Server, rest: seq<DNSRecord>, record: DNSRecord): (Server, Result<Option<nat>, Error>)
    decreases |rest|
  {
    if rest == [] then (w, Success(None))
    else if SameNameAndType(rest[0], record.name, record.rtype) then
      var (w1, reply) := Exchange(w, Query(p.zoneID, record.name, record.rtype));
      match CheckReply(reply)
      case Some(e) => (w1, Failure(e))
      case None =>
        var hits := Matching(w.records, record.name, record.rtype);
        if |hits| > 0 then (w1, Success(Some(hits[0].id)))
        else Lookup(p, w1, rest[1..], record)
    else Lookup(p, w, rest[1..], record)
  }

  /** UpdateRecord as a transition of the zone: list, look the record up, then update or create. */
  function Upsert(p: Provider, w: Server, zone: string, record: DNSRecord): (Server, Option<Error>) {
    var (w1, listed) := Listing(p, w, zone);
    if listed.Failure? then (w1, Some(ListExistingFailed(listed.error)))
    else
      var (w2, found) := Lookup(p, w1, listed.value, record);
      if found.Failure? then (w2, Some(found.error))
      else if found.value.None? then CreateRecord(p, w2, zone, record)
      else
        var (w3, reply) := Exchange(w2, Overwrite(p.zoneID, found.value.value, PayloadOf(record)));
        (w3, CheckReply(reply))
  }

  /** UpdateRecord: the loop over the listed records, then an update of the found id or a create. */
  method UpdateRecord(p: Provider, w: Server, zone: string, record: DNSRecord) returns (w': Server, err: Option<Error>)
    ensures (w', err) == Upsert(p, w, zone, record)
  {
    var existingRecords;
    w', existingRecords := ListRecords(p, w, zone);
    if existingRecords.Failure? {
      return w', Some(ListExistingFailed(existingRecords.error));
    }
    var existing := existingRecords.value;
    ghost var listed := w';
    var recordID: nat := 0;
    var found := false;
    var i := 0;
    while i < |existing|
      invariant 0 <= i <= |existing|
      invariant Lookup(p, listed, existing, record) == Lookup(p, w', existing[i..], record)
    {
      assert existing[i..][1..] == existing[i + 1..];
      if existing[i].name == record.name && existing[i].rtype == record.rtype {
        var before := w';
        var (w2, reply) := Exchange(w', Query(p.zoneID, record.name, record.rtype));
        w' := w2;
        var e := CheckReply(reply);
        if e.Some? {
          return w', e;
        }
        var records := Matching(before.records, record.name, record.rtype);
        if |records| > 0 {
          recordID := records[0].id;
          found := true;
          break;
        }
      }
      i := i + 1;
    }
    assert found ==> Lookup(p, listed, existing, record) == (w', Success(Some(recordID)));
    assert !found ==> Lookup(p, listed, existing, record) == (w', Success(None));
    if !found {
      var (w3, createErr) := CreateRecord(p, w', zone, record);
      w', err := w3, createErr;
      return;
    }
    var (w4, reply) := Exchange(w', Overwrite(p.zoneID, recordID, PayloadOf(record)));
    w' := w4;
    err := CheckReply(reply);
  }

  /** DeleteRecord: query by name and type; nothing to do without a hit, else delete the first hit. */
  function DeleteRecord(p: Provider, w: Server, zone: string, record: DNSRecord): (out: (Server, Option<Error>))
    ensures |out.0.sent| > |w.sent| && out.0.sent[|w.sent|] == Query(p.zoneID, record.name, record.rtype)
    ensures out.1.Some? ==> out.0.records == w.records
    ensures out.0.nextId == w.nextId
  {
    var (w1, reply) := Exchange(w, Query(p.zoneID, record.name, record.rtype));
    match CheckReply(reply)
    case Some(e) => (w1, Some(e))
    case None =>
      var hits := Matching(w.records, record.name, record.rtype);
      if |hits| == 0 then (w1, None)
      else
        var (w2, reply2) := Exchange(w1, Remove(p.zoneID, hits[0].id));
        (w2, CheckReply(reply2))
  }

  // ---------------------------------------------------------------------------
  // Properties of UpdateRecord and DeleteRecord

  /** A request addresses the configured zone, and what it creates or updates is not proxied. */
  predicate Conforms(req: Request, zoneID: string) {
    req.zoneID == zoneID && (req.Create? || req.Overwrite? ==> !req.payload.proxied)
  }

  /** Everything sent after the first `n` requests conforms. */
  predicate ConformsFrom(w': Server, n: nat, zoneID: string) {
    n <= |w'.sent| && forall i :: n <= i < |w'.sent| ==> Conforms(w'.sent[i], zoneID)
  }

  /** The search loop only queries, and finds the zone's first match for a listed match. */
  lemma {:induction false} LookupOutcome(p: Provider, w: Server, rest: seq<DNSRecord>, record: DNSRecord)
    ensures var (w', found) := Lookup(p, w, rest, record);
      && w'.records == w.records && w'.nextId == w.nextId
      && ConformsFrom(w', |w.sent|, p.zoneID) && w'.sent[..|w.sent|] == w.sent
      && (found.Success? && found.value.Some? ==>
            (exists j :: 0 <= j < |rest| && SameNameAndType(rest[j], record.name, record.rtype))
            && |Matching(w.records, record.name, record.rtype)| > 0
            && found.value.value == Matching(w.records, record.name, record.rtype)[0].id)
      && (found.Success? && found.value.None? ==>
            |Matching(w.records, record.name, record.rtype)| == 0
            || forall j :: 0 <= j < |rest| ==> !SameNameAndType(rest[j], record.name, record.rtype))
    decreases |rest|
  {
    if rest != [] {
      if SameNameAndType(rest[0], record.name, record.rtype) {
        var (w1, reply) := Exchange(w, Query(p.zoneID, record.name, record.rtype));
        if CheckReply(reply).None? && |Matching(w.records, record.name, record.rtype)| == 0 {
          LookupOutcome(p, w1, rest[1..], record);
        }
      } else {
        LookupOutcome(p, w, rest[1..], record);
        var (w', found) := Lookup(p, w, rest[1..], record);
        if found.Success? && found.value.None? && |Matching(w.records, record.name, record.rtype)| > 0 {
          forall j | 0 <= j < |rest| ensures !SameNameAndType(rest[j], record.name, record.rtype) {
            if j > 0 {
              assert rest[j] == rest[1..][j - 1];
            }
          }
        }
      }
    }
  }

  /** The zone holds a listable record with this name and type exactly when the listing shows one. */
  lemma ListedMatch(records: seq<StoredRecord>, name: string, rtype: string)
    ensures (exists j :: 0 <= j < |Listable(records)| && SameNameAndType(Listable(records)[j], name, rtype))
      ==> ListedType(rtype) && FirstStored(records, name, rtype) < |records|
    ensures ListedType(rtype) && FirstStored(records, name, rtype) < |records| ==>
      exists j :: 0 <= j < |Listable(records)| && SameNameAndType(Listable(records)[j], name, rtype)
  {
    ListableRecords(records);
    var k := FirstStored(records, name, rtype);
    var listed := Listable(records);
    if ListedType(rtype) && k < |records| {
      assert Internal(records[k]) in listed;
      var j :| 0 <= j < |listed| && listed[j] == Internal(records[k]);
      assert SameNameAndType(listed[j], name, rtype);
    }
    if exists j :: 0 <= j < |listed| && SameNameAndType(listed[j], name, rtype) {
      var j :| 0 <= j < |listed| && SameNameAndType(listed[j], name, rtype);
      assert listed[j] in listed;
      var i :| 0 <= i < |records| && ListedType(records[i].rtype) && listed[j] == Internal(records[i]);
      assert records[i].name == name && records[i].rtype == rtype;
      assert k <= i;
    }
  }

  /** When UpdateRecord fails, the zone's records are as they were. */
  lemma UpsertFailureKeepsRecords(p: Provider, w: Server, zone: string, record: DNSRecord)
    ensures var out := Upsert(p, w, zone, record);
      out.1.Some? ==> out.0.records == w.records && out.0.nextId == w.nextId
  {
    var (w1, listed) := Listing(p, w, zone);
    if listed.Success? {
      LookupOutcome(p, w1, listed.value, record);
    }
  }

  /**
   * A successful UpdateRecord with no stored A, AAAA or TXT record of the same name and
   * type creates the record, unproxied, under a fresh id.
   */
  lemma UpsertCreatesWhenAbsent(p: Provider, w: Server, zone: string, record: DNSRecord)
    requires !(ListedType(record.rtype) && FirstStored(w.records, record.name, record.rtype) < |w.records|)
    ensures var out := Upsert(p, w, zone, record);
      out.1.None? ==>
        out.0.records == w.records + [StoredRecord(w.nextId, record.name, record.rtype, record.value, record.ttl, false)]
  {
    var (w1, listed) := Listing(p, w, zone);
    if listed.Success? {
      ListedMatch(w.records, record.name, record.rtype);
      LookupOutcome(p, w1, listed.value, record);
      var (w2, found) := Lookup(p, w1, listed.value, record);
      if found.Success? {
        assert found.value.None?;
        assert w2.records == w.records && w2.nextId == w.nextId;
      }
    }
  }

  /**
   * A successful UpdateRecord that finds an A, AAAA or TXT record of the same name and
   * type overwrites the first such record in place, keeping its id, unproxied.
   */
  lemma UpsertReplacesFirstMatch(p: Provider, w: Server, zone: string, record: DNSRecord)
    requires UniqueIds(w.records)
    requires ListedType(record.rtype)
    requires FirstStored(w.records, record.name, record.rtype) < |w.records|
    ensures var out := Upsert(p, w, zone, record);
      var k := FirstStored(w.records, record.name, record.rtype);
      out.1.None? ==>
        out.0.records == w.records[k := StoredRecord(w.records[k].id, record.name, record.rtype, record.value, record.ttl, false)]
  {
    var k := FirstStored(w.records, record.name, record.rtype);
    var (w1, listed) := Listing(p, w, zone);
    if listed.Success? {
      ListedMatch(w.records, record.name, record.rtype);
      LookupOutcome(p, w1, listed.value, record);
      MatchingHead(w.records, record.name, record.rtype);
      var (w2, found) := Lookup(p, w1, listed.value, record);
      if found.Success? {
        assert found.value == Some(w.records[k].id);
        assert FirstWithId(w2.records, w.records[k].id) == k;
      }
    }
  }

  /** Every request UpdateRecord sends names the configured zone, and nothing it writes is proxied. */
  lemma UpsertConforms(p: Provider, w: Server, zone: string, record: DNSRecord)
    ensures var out := Upsert(p, w, zone, record);
      ConformsFrom(out.0, |w.sent|, p.zoneID) && out.0.sent[..|w.sent|] == w.sent
  {
    var (w1, listed) := Listing(p, w, zone);
    if listed.Success? {
      LookupOutcome(p, w1, listed.value, record);
    }
  }

  /**
   * DeleteRecord removes the first stored record with the record's name and type,
   * whatever its content, and nothing else; without such a record it sends only the query.
   */
  lemma DeleteRemovesFirstMatch(p: Provider, w: Server, zone: string, record: DNSRecord)
    requires UniqueIds(w.records)
    ensures var out := DeleteRecord(p, w, zone, record);
      var k := FirstStored(w.records, record.name, record.rtype);
      && (k == |w.records| ==> out.0.records == w.records && out.0.sent == w.sent + [Query(p.zoneID, record.name, record.rtype)])
      && (k == |w.records| ==> out.1 == CheckReply(NextReply(w)))
      && (k < |w.records| && out.1.None? ==> out.0.records == w.records[..k] + w.records[k + 1..])
      && ConformsFrom(out.0, |w.sent|, p.zoneID) && out.0.sent[..|w.sent|] == w.sent
  {
    MatchingHead(w.records, record.name, record.rtype);
    var k := FirstStored(w.records, record.name, record.rtype);
    if k < |w.records| {
      assert FirstWithId(w.records, w.records[k].id) == k;
    }
  }

  /** Overwriting a record in place keeps every id where it was. */
  lemma OverwriteKeepsValid(w: Server, k: nat, id: nat, payload: Payload)
    requires Valid(w) && k < |w.records| && w.records[k].id == id
    ensures Valid(w.(records := w.records[k := Stored(id, payload)]))
  {
    var updated := w.records[k := Stored(id, payload)];
    assert forall i :: 0 <= i < |updated| ==> updated[i].id == w.records[i].id;
  }

  /** Removing one record keeps the others' ids, in order. */
  lemma RemoveKeepsValid(w: Server, k: nat)
    requires Valid(w) && k < |w.records|
    ensures Valid(w.(records := w.records[..k] + w.records[k + 1..]))
  {
    var rest := w.records[..k] + w.records[k + 1..];
    forall i | 0 <= i < |rest| ensures rest[i] == w.records[if i < k then i else i + 1] {
    }
  }

  /** Whatever one request does, the zone's ids stay below nextId and distinct. */
  lemma ExchangeKeepsValid(w: Server, req: Request)
    requires Valid(w)
    ensures Valid(Exchange(w, req).0)
  {
    var reply := NextReply(w);
    if reply.Answered? && reply.success {
      match req
      case Overwrite(_, id, payload) =>
        var k := FirstWithId(w.records, id);
        if k < |w.records| {
          OverwriteKeepsValid(w, k, id, payload);
        }
      case Remove(_, id) =>
        var k := FirstWithId(w.records, id);
        if k < |w.records| {
          RemoveKeepsValid(w, k);
        }
      case _ =>
    }
  }

  /** UpdateRecord and DeleteRecord keep the zone valid. */
  lemma OperationsKeepValid(p: Provider, w: Server, zone: string, record: DNSRecord)
    requires Valid(w)
    ensures Valid(Upsert(p, w, zone, record).0)
    ensures Valid(DeleteRecord(p, w, zone, record).0)
  {
    var (w1, listed) := Listing(p, w, zone);
    if listed.Success? {
      LookupOutcome(p, w1, listed.value, record);
      var (w2, found) := Lookup(p, w1, listed.value, record);
      assert Valid(w2);
      if found.Success? && found.value.Some? {
        ExchangeKeepsValid(w2, Overwrite(p.zoneID, found.value.value, PayloadOf(record)));
      } else if found.Success? {
        ExchangeKeepsValid(w2, Create(p.zoneID, PayloadOf(record)));
      }
    }
    var (w3, reply) := Exchange(w, Query(p.zoneID, record.name, record.rtype));
    assert Valid(w3);
    var hits := Matching(w.records, record.name, record.rtype);
    if |hits| > 0 {
      ExchangeKeepsValid(w3, Remove(p.zoneID, hits[0].id));
    }
  }
}
