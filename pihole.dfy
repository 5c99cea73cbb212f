/**
 * The Pi-hole provider (providers/pihole.go) over an abstract Pi-hole server.
 *
 * The Go provider value never changes after construction; what its calls change is
 * the remote custom-DNS table. That table, the replies the server gives, and the
 * requests it has received form a `Server` value that every call takes and returns.
 */
module Pihole {
  import opened Results
  import opened Strings
  import opened Records

  /** PiholeProvider: what NewPiholeProvider keeps (the HTTP client is not modelled). */
  datatype Provider = Provider(baseURL: string, apiToken: string, tlsInsecureSkipVerify: bool)

  datatype Error =
    | BaseURLRequired
    | APITokenRequired
    | RequestFailed                    // makeRequest could not build or send the request
    | BadStatus(code: int)             // an HTTP status other than 200
    | DecodeFailed                     // the 200 reply was not the expected JSON
    | APIError(message: string)        // the JSON status was not "success"
    | UnsupportedType(rtype: string)
    | CheckExistingFailed(cause: Error)
    | DeleteExistingFailed(cause: Error)

  /** NewPiholeProvider: both settings are required; one trailing slash is dropped from the URL. */
  function NewProvider(baseURL: string, apiToken: string, tlsInsecureSkipVerify: bool): (r: Result<Provider, Error>)
    ensures baseURL == "" ==> r == Failure(BaseURLRequired)
    ensures baseURL != "" && apiToken == "" ==> r == Failure(APITokenRequired)
    ensures r.Success? <==> baseURL != "" && apiToken != ""
    ensures r.Success? ==> r.value.apiToken == apiToken && r.value.tlsInsecureSkipVerify == tlsInsecureSkipVerify
    ensures r.Success? && HasSuffix(baseURL, "/") ==> r.value.baseURL + "/" == baseURL
    ensures r.Success? && !HasSuffix(baseURL, "/") ==> r.value.baseURL == baseURL
  {
    if baseURL == "" then Failure(BaseURLRequired)
    else if apiToken == "" then Failure(APITokenRequired)
    else Success(Provider(TrimSuffix(baseURL, "/"), apiToken, tlsInsecureSkipVerify))
  }

  // ---------------------------------------------------------------------------
  // The server side of the admin API

  /** One request to /admin/api.php. */
  datatype Request =
    | ListCustomDNS
    | AddCustomDNS(domain: string, ip: string)
    | DeleteCustomDNS(domain: string, ip: string)

  /** The JSON body of a reply, as far as the provider reads it. */
  datatype Body = Succeeded | Garbled | Refused(error: string)

  /** What comes back for one request: nothing (transport failure), or a status and a body. */
  datatype Reply = Unreachable | Replied(status: int, body: Body)

  /** The reply of a server that received the request and carried it out. */
  const Delivered: Reply := Replied(200, Succeeded)

  /**
   * The Pi-hole server: its custom-DNS rows ([domain, ip] as the API lists them), the
   * replies it will give to the next requests (every request is Delivered once the
   * script runs out), and every request received so far.
   */
  datatype Server = Server(table: seq<seq<string>>, replies: seq<Reply>, sent: seq<Request>)

  function NextReply(w: Server): Reply {
    if w.replies == [] then Delivered else w.replies[0]
  }

  /** The table without the rows for this domain and IP. */
  function Dropped(table: seq<seq<string>>, domain: string, ip: string): seq<seq<string>>
    decreases |table|
  {
    if table == [] then []
    else
      var last := table[|table| - 1];
      Dropped(table[..|table| - 1], domain, ip)
        + (if |last| >= 2 && last[0] == domain && last[1] == ip then [] else [last])
  }

  /** What carrying out a request does to the table. */
  function Perform(table: seq<seq<string>>, req: Request): seq<seq<string>> {
    match req
    case ListCustomDNS => table
    case AddCustomDNS(domain, ip) => table + [[domain, ip]]
    case DeleteCustomDNS(domain, ip) => Dropped(table, domain, ip)
  }

  /** Sends one request: the server records it, answers with its next reply, and acts only on Delivered. */
  function Exchange(w: Server, req: Request): (Server, Reply) {
    var reply := NextReply(w);
    (Server(if reply == Delivered then Perform(w.table, req) else w.table,
            if w.replies == [] then [] else w.replies[1..],
            w.sent + [req]),
     reply)
  }

  /** makeRequest, the status check and the JSON decoding, which every call shares. */
  function TransportError(reply: Reply): Option<Error> {
    match reply
    case Unreachable => Some(RequestFailed)
    case Replied(status, body) =>
      if status != 200 then Some(BadStatus(status))
      else if body.Garbled? then Some(DecodeFailed)
      else None
  }

  // ---------------------------------------------------------------------------
  // ListRecords

  /** An entry becomes a record when it has a domain and an IP and the domain ends with the zone. */
  predicate Admitted(entry: seq<string>, zone: string) {
    |entry| >= 2 && HasSuffix(entry[0], zone)
  }

  function EntryRecord(entry: seq<string>): DNSRecord
    requires |entry| >= 2
  {
    DNSRecord(entry[0], AddressType(entry[1]), entry[1], DefaultTTL)
  }

  /** The conversion of the custom-DNS data into records, entry by entry in order. */
  function Converted(entries: seq<seq<string>>, zone: string): seq<DNSRecord>
    decreases |entries|
  {
    if entries == [] then []
    else
      var last := entries[|entries| - 1];
      Converted(entries[..|entries| - 1], zone) + (if Admitted(last, zone) then [EntryRecord(last)] else [])
  }

  /** A listed record is exactly an admitted entry, typed by its IP. */
  lemma {:induction false} ConvertedRecords(entries: seq<seq<string>>, zone: string)
    ensures forall r :: r in Converted(entries, zone) <==>
      exists i :: 0 <= i < |entries| && Admitted(entries[i], zone) && r == EntryRecord(entries[i])
    decreases |entries|
  {
    if entries != [] {
      var front := entries[..|entries| - 1];
      ConvertedRecords(front, zone);
      forall r | r in Converted(entries, zone)
        ensures exists i :: 0 <= i < |entries| && Admitted(entries[i], zone) && r == EntryRecord(entries[i])
      {
        if r in Converted(front, zone) {
          var i :| 0 <= i < |front| && Admitted(front[i], zone) && r == EntryRecord(front[i]);
          assert entries[i] == front[i];
        } else {
          assert Admitted(entries[|entries| - 1], zone) && r == EntryRecord(entries[|entries| - 1]);
        }
      }
      forall i | 0 <= i < |entries| && Admitted(entries[i], zone)
        ensures EntryRecord(entries[i]) in Converted(entries, zone)
      {
        if i < |front| {
          assert front[i] == entries[i];
        }
      }
    }
  }

  /** Listing never yields anything but an A or AAAA record with the default TTL. */
  lemma ConvertedAddressesOnly(entries: seq<seq<string>>, zone: string)
    ensures forall r :: r in Converted(entries, zone) ==>
      IsAddressType(r.rtype) && r.rtype == AddressType(r.value) && r.ttl == DefaultTTL && HasSuffix(r.name, zone)
  {
    ConvertedRecords(entries, zone);
  }

  /** The conversion keeps the input order: it distributes over concatenation. */
  lemma {:induction false} ConvertedAppend(a: seq<seq<string>>, b: seq<seq<string>>, zone: string)
    ensures Converted(a + b, zone) == Converted(a, zone) + Converted(b, zone)
    decreases |b|
  {
    if b == [] {
      assert a + b == a;
    } else {
      var front := b[..|b| - 1];
      assert (a + b)[..|a + b| - 1] == a + front;
      ConvertedAppend(a, front, zone);
    }
  }

  /** The rows a reply carries: the table when the server delivered, none otherwise. */
  function Data(w: Server, reply: Reply): seq<seq<string>> {
    if reply == Delivered then w.table else []
  }

  /** ListRecords as a transition of the server. */
  function Listing(p: Provider, w: Server, zone: string): (out: (Server, Result<seq<DNSRecord>, Error>))
    ensures out.0.table == w.table && out.0.sent == w.sent + [ListCustomDNS]
    ensures out.1.Failure? <==> TransportError(NextReply(w)).Some?
    ensures out.1.Success? ==> forall i :: 0 <= i < |out.1.value| ==>
      IsAddressType(out.1.value[i].rtype) && out.1.value[i].ttl == DefaultTTL
  {
    var (w1, reply) := Exchange(w, ListCustomDNS);
    match TransportError(reply)
    case Some(e) => (w1, Failure(e))
    case None =>
      ConvertedAddressesOnly(Data(w, reply), zone);
      (w1, Success(Converted(Data(w, reply), zone)))
  }

  /** ListRecords: one request, then the entries are converted in a loop. */
  method ListRecords(p: Provider, w: Server, zone: string) returns (w': Server, r: Result<seq<DNSRecord>, Error>)
    ensures (w', r) == Listing(p, w, zone)
  {
    var (w1, reply) := Exchange(w, ListCustomDNS);
    w' := w1;
    var err := TransportError(reply);
    if err.Some? {
      return w', Failure(err.value);
    }
    var data := Data(w, reply);
    var records: seq<DNSRecord> := [];
    var i := 0;
    while i < |data|
      invariant 0 <= i <= |data|
      invariant records == Converted(data[..i], zone)
    {
      var entry := data[i];
      if |entry| >= 2 {
        var domain := entry[0];
        var ipAddress := entry[1];
        if HasSuffix(domain, zone) {
          var recordType := "A";
          if ':' in ipAddress {
            recordType := "AAAA";
          }
          records := records + [DNSRecord(domain, recordType, ipAddress, 300)];
        }
      }
      assert data[..i + 1][..i] == data[..i];
      i := i + 1;
    }
    assert data[..i] == data;
    r := Success(records);
  }

  // ---------------------------------------------------------------------------
  // DeleteRecord

  /** A refusal DeleteRecord tolerates: a 200 reply whose error mentions "not found". */
  predicate NotFoundReply(reply: Reply) {
    reply.Replied? && reply.status == 200 && reply.body.Refused? && Contains(reply.body.error, "not found")
  }

  /**
   * DeleteRecord: records of other types succeed without a request; otherwise one delete
   * request, a transport or status failure is an error, a "not found" refusal is not.
   */
  function DeleteRecord(p: Provider, w: Server, zone: string, record: DNSRecord): (out: (Server, Option<Error>))
    ensures !IsAddressType(record.rtype) ==> out == (w, None)
    ensures IsAddressType(record.rtype) ==> out.0.sent == w.sent + [DeleteCustomDNS(record.name, record.value)]
    ensures IsAddressType(record.rtype) ==>
      (out.1.None? <==> NextReply(w) == Delivered || NotFoundReply(NextReply(w)))
    ensures IsAddressType(record.rtype) && NextReply(w).Replied? && NextReply(w).status != 200 ==>
      out.1 == Some(BadStatus(NextReply(w).status))
    ensures out.0.table ==
      if IsAddressType(record.rtype) && NextReply(w) == Delivered
      then Dropped(w.table, record.name, record.value) else w.table
  {
    if !IsAddressType(record.rtype) then (w, None)
    else
      var (w1, reply) := Exchange(w, DeleteCustomDNS(record.name, record.value));
      match TransportError(reply)
      case Some(e) => (w1, Some(e))
      case None =>
        if reply.body.Refused? && !Contains(reply.body.error, "not found")
        then (w1, Some(APIError(reply.body.error)))
        else (w1, None)
  }

  // ---------------------------------------------------------------------------
  // UpdateRecord and CreateRecord

  /** The add request that ends UpdateRecord. */
  function AddEntry(w: Server, record: DNSRecord): (Server, Option<Error>) {
    var (w1, reply) := Exchange(w, AddCustomDNS(record.name, record.value));
    match TransportError(reply)
    case Some(e) => (w1, Some(e))
    case None =>
      if reply.body.Refused? then (w1, Some(APIError(reply.body.error))) else (w1, None)
  }

  /** UpdateRecord as a transition of the server: check the type, list, delete the first match, add. */
  function Upsert(p: Provider, w: Server, zone: string, record: DNSRecord): (Server, Option<Error>) {
    if !IsAddressType(record.rtype) then (w, Some(UnsupportedType(record.rtype)))
    else
      var (w1, listed) := Listing(p, w, zone);
      if listed.Failure? then (w1, Some(CheckExistingFailed(listed.error)))
      else
        var k := FirstNamed(listed.value, record.name, record.rtype);
        var (w2, removal) := if k < |listed.value| then DeleteRecord(p, w1, zone, listed.value[k]) else (w1, None);
        if removal.Some? then (w2, Some(DeleteExistingFailed(removal.value)))
        else AddEntry(w2, record)
  }

  /** UpdateRecord: the loop looks for the first listed record with the same name and type. */
  method UpdateRecord(p: Provider, w: Server, zone: string, record: DNSRecord) returns (w': Server, err: Option<Error>)
    ensures !IsAddressType(record.rtype) ==> w' == w && err == Some(UnsupportedType(record.rtype))
    ensures (w', err) == Upsert(p, w, zone, record)
  {
    if record.rtype != "A" && record.rtype != "AAAA" {
      return w, Some(UnsupportedType(record.rtype));
    }
    var existingRecords;
    w', existingRecords := ListRecords(p, w, zone);
    if existingRecords.Failure? {
      return w', Some(CheckExistingFailed(existingRecords.error));
    }
    var existing := existingRecords.value;
    var i := 0;
    while i < |existing|
      invariant 0 <= i <= |existing|
      invariant forall j :: 0 <= j < i ==> !SameNameAndType(existing[j], record.name, record.rtype)
    {
      if existing[i].name == record.name && existing[i].rtype == record.rtype {
        var (w2, removal) := DeleteRecord(p, w', zone, existing[i]);
        w' := w2;
        if removal.Some? {
          return w', Some(DeleteExistingFailed(removal.value));
        }
        break;
      }
      i := i + 1;
    }
    assert i == FirstNamed(existing, record.name, record.rtype);
    var (w3, addErr) := AddEntry(w', record);
    w', err := w3, addErr;
  }

  /** CreateRecord: Pi-hole does not tell creating from updating, so it is UpdateRecord. */
  method CreateRecord(p: Provider, w: Server, zone: string, record: DNSRecord) returns (w': Server, err: Option<Error>)
    ensures (w', err) == Upsert(p, w, zone, record)
  {
    w', err := UpdateRecord(p, w, zone, record);
  }

  // ---------------------------------------------------------------------------
  // Properties of UpdateRecord

  /** The records UpdateRecord's own listing shows. */
  function ListedNow(w: Server, zone: string): seq<DNSRecord> {
    Converted(Data(w, NextReply(w)), zone)
  }

  /**
   * UpdateRecord sends the listing first, deletes at most one entry -- the first listed
   * record with the same name and type -- and sends the add last, only once that removal
   * succeeded.
   */
  lemma UpsertRemovesAtMostFirstMatch(p: Provider, w: Server, zone: string, record: DNSRecord)
    requires IsAddressType(record.rtype)
    ensures var out := Upsert(p, w, zone, record);
      var listed := ListedNow(w, zone);
      var k := FirstNamed(listed, record.name, record.rtype);
      var add := AddCustomDNS(record.name, record.value);
      || out.0.sent == w.sent + [ListCustomDNS]
      || out.0.sent == w.sent + [ListCustomDNS, add]
      || (k < |listed| && out.0.sent == w.sent + [ListCustomDNS, DeleteCustomDNS(listed[k].name, listed[k].value)])
      || (k < |listed| && out.0.sent == w.sent + [ListCustomDNS, DeleteCustomDNS(listed[k].name, listed[k].value), add])
  {
    var (w1, listed) := Listing(p, w, zone);
    if listed.Success? {
      assert listed.value == ListedNow(w, zone);
      var k := FirstNamed(listed.value, record.name, record.rtype);
      var (w2, removal) := if k < |listed.value| then DeleteRecord(p, w1, zone, listed.value[k]) else (w1, None);
      if k < |listed.value| {
        assert w2.sent == w.sent + [ListCustomDNS, DeleteCustomDNS(listed.value[k].name, listed.value[k].value)];
      }
      if removal.None? {
        var (w3, err) := AddEntry(w2, record);
        assert w3.sent == w2.sent + [AddCustomDNS(record.name, record.value)];
      }
    }
  }

  /**
   * When the listing is delivered, the request after it is the delete of the first listed
   * record with the same name and type, if there is one; otherwise it is the add.
   */
  lemma UpsertDeletesFirstMatchFirst(p: Provider, w: Server, zone: string, record: DNSRecord)
    requires IsAddressType(record.rtype) && NextReply(w) == Delivered
    ensures var out := Upsert(p, w, zone, record);
      var listed := ListedNow(w, zone);
      var k := FirstNamed(listed, record.name, record.rtype);
      && |out.0.sent| >= |w.sent| + 2 && out.0.sent[..|w.sent| + 1] == w.sent + [ListCustomDNS]
      && (k < |listed| ==> out.0.sent[|w.sent| + 1] == DeleteCustomDNS(listed[k].name, listed[k].value))
      && (k == |listed| ==> out.0.sent == w.sent + [ListCustomDNS, AddCustomDNS(record.name, record.value)])
  {
    var (w1, listed) := Listing(p, w, zone);
    assert listed == Success(ListedNow(w, zone));
    var k := FirstNamed(listed.value, record.name, record.rtype);
    if k < |listed.value| {
      var (w2, removal) := DeleteRecord(p, w1, zone, listed.value[k]);
      assert w2.sent == w.sent + [ListCustomDNS, DeleteCustomDNS(listed.value[k].name, listed.value[k].value)];
      if removal.None? {
        var (w3, err) := AddEntry(w2, record);
        assert Upsert(p, w, zone, record) == (w3, err);
        assert w3.sent == w2.sent + [AddCustomDNS(record.name, record.value)];
      } else {
        assert Upsert(p, w, zone, record).0 == w2;
      }
    } else {
      var (w3, err) := AddEntry(w1, record);
      assert Upsert(p, w, zone, record) == (w3, err);
      assert w3.sent == w1.sent + [AddCustomDNS(record.name, record.value)];
    }
  }

  /**
   * Against a server that carries out every request, UpdateRecord succeeds: the first
   * listed record with the same name and type is dropped from the table (with any row of
   * the same domain and IP), then the new row is appended.
   */
  lemma UpsertReplacesFirstMatch(p: Provider, w: Server, zone: string, record: DNSRecord)
    requires IsAddressType(record.rtype) && w.replies == []
    ensures var out := Upsert(p, w, zone, record);
      var listed := ListedNow(w, zone);
      var k := FirstNamed(listed, record.name, record.rtype);
      && out.1.None?
      && out.0.table ==
           (if k < |listed| then Dropped(w.table, listed[k].name, listed[k].value) else w.table)
           + [[record.name, record.value]]
  {
    var (w1, listed) := Listing(p, w, zone);
    var k := FirstNamed(listed.value, record.name, record.rtype);
    if k < |listed.value| {
      var (w2, removal) := DeleteRecord(p, w1, zone, listed.value[k]);
      assert w2.table == Dropped(w.table, listed.value[k].name, listed.value[k].value);
    }
  }

  /** A failed removal ends UpdateRecord after the delete request, with the table as it was. */
  lemma FailedRemovalKeepsTable(p: Provider, w: Server, zone: string, record: DNSRecord)
    requires IsAddressType(record.rtype)
    ensures var out := Upsert(p, w, zone, record);
      out.1.Some? && out.1.value.DeleteExistingFailed? ==>
        out.0.table == w.table && |out.0.sent| == |w.sent| + 2 && out.0.sent[|w.sent| + 1].DeleteCustomDNS?
  {
    var (w1, listed) := Listing(p, w, zone);
    if listed.Success? {
      var k := FirstNamed(listed.value, record.name, record.rtype);
      if k < |listed.value| {
        var (w2, removal) := DeleteRecord(p, w1, zone, listed.value[k]);
        if removal.Some? {
          assert NextReply(w1) != Delivered;
          assert w2.sent == w.sent + [ListCustomDNS, DeleteCustomDNS(listed.value[k].name, listed.value[k].value)];
        } else {
          var (w3, err) := AddEntry(w2, record);
          assert err.None? || !err.value.DeleteExistingFailed?;
        }
      } else {
        var (w3, err) := AddEntry(w1, record);
        assert err.None? || !err.value.DeleteExistingFailed?;
      }
    }
  }

  /** After a successful UpdateRecord of a record in the zone, listing shows it. */
  lemma UpsertReadsBack(p: Provider, w: Server, zone: string, record: DNSRecord)
    requires HasSuffix(record.name, zone)
    ensures var (w', err) := Upsert(p, w, zone, record);
      err.None? ==> DNSRecord(record.name, AddressType(record.value), record.value, DefaultTTL) in Converted(w'.table, zone)
  {
    var (w', err) := Upsert(p, w, zone, record);
    if err.None? {
      var before := w'.table[..|w'.table| - 1];
      assert w'.table == before + [[record.name, record.value]];
      assert w'.table[..|w'.table| - 1] == before;
    }
  }

  /** The TXT ownership marker can never be stored on a Pi-hole, by UpdateRecord or CreateRecord. */
  lemma UpsertRefusesTXT(p: Provider, w: Server, zone: string, record: DNSRecord)
    requires record.rtype == "TXT"
    ensures Upsert(p, w, zone, record) == (w, Some(UnsupportedType("TXT")))
  {
  }
}
