/**
 * The DNS reconciler of main.go: work-queue keys, the records published for a node,
 * the deletion sweep keyed by the TXT ownership marker, the cache diff of syncNodes,
 * and the DNSReconciler object whose methods change the cache, the queue and the
 * DNS backend.
 */
module Reconciler {
  import opened Results
  import opened Strings
  import opened Records
  import opened Nodes
  import Pihole
  import opened Backends

  // ---------------------------------------------------------------------------
  // Work-queue keys

  /** A deletion key is the node id followed by this suffix. */
  const DeleteSuffix: string := ":delete"

  datatype Key = UpsertKey(id: string) | DeletionKey(id: string)

  function DeleteKey(id: string): string {
    id + DeleteSuffix
  }

  /** reconcile's routing: a key ending in ":delete" names a node to delete, any other key a node to publish. */
  function ParseKey(key: string): (k: Key)
    ensures k.DeletionKey? <==> HasSuffix(key, DeleteSuffix)
    ensures k.DeletionKey? ==> DeleteKey(k.id) == key
    ensures k.UpsertKey? ==> k.id == key
  {
    if HasSuffix(key, DeleteSuffix) then DeletionKey(TrimSuffix(key, DeleteSuffix)) else UpsertKey(key)
  }

  /** Every deletion key syncNodes queues is routed back to the deletion of its node. */
  lemma DeleteKeyRoundTrip(id: string)
    ensures ParseKey(DeleteKey(id)) == DeletionKey(id)
  {
    var key := DeleteKey(id);
    assert key[|key| - |DeleteSuffix|..] == DeleteSuffix;
  }

  /** One operation on the work queue; the rate limiter and de-duplication behind it are not modelled. */
  datatype QueueOp = Add(key: string) | AddRateLimited(key: string) | Forget(key: string) | Done(key: string)

  /** queue.Add for each key, in order. */
  function Adds(keys: seq<string>): (ops: seq<QueueOp>)
    ensures |ops| == |keys|
    ensures forall i :: 0 <= i < |keys| ==> ops[i] == Add(keys[i])
    decreases |keys|
  {
    if keys == [] then [] else Adds(keys[..|keys| - 1]) + [Add(keys[|keys| - 1])]
  }

  /** The deletion keys of the given ids, in order; each is routed back to its id. */
  function DeleteKeys(ids: seq<string>): (keys: seq<string>)
    ensures |keys| == |ids|
    ensures forall i :: 0 <= i < |ids| ==> ParseKey(keys[i]) == DeletionKey(ids[i])
  {
    var keys := seq(|ids|, i requires 0 <= i < |ids| => DeleteKey(ids[i]));
    assert forall i :: 0 <= i < |ids| ==> ParseKey(keys[i]) == DeletionKey(ids[i]) by {
      forall i | 0 <= i < |ids| ensures ParseKey(keys[i]) == DeletionKey(ids[i]) {
        DeleteKeyRoundTrip(ids[i]);
      }
    }
    keys
  }

  /**
   * The worker's settlement of one item: a failed reconcile is re-queued with
   * rate limiting, a successful one is forgotten; either way the item is marked done.
   */
  function Settle<E>(item: string, err: Option<Error<E>>): (ops: seq<QueueOp>)
    ensures |ops| == 2 && ops[1] == Done(item)
    ensures ops[0] == AddRateLimited(item) <==> err.Some?
    ensures ops[0] == Forget(item) <==> err.None?
  {
    [if err.Some? then AddRateLimited(item) else Forget(item), Done(item)]
  }

  // ---------------------------------------------------------------------------
  // The records published for a node

  /** "<name>.<domain>", the name of every record of a node. */
  function RecordName(node: Node, domain: string): string {
    node.name + "." + domain
  }

  /** The A or AAAA record of every address of the node, in order. */
  function AddressRecords(node: Node, domain: string): (rs: seq<DNSRecord>)
    ensures |rs| == |node.addresses|
    ensures forall i :: 0 <= i < |rs| ==>
      && rs[i].name == RecordName(node, domain)
      && rs[i].value == node.addresses[i]
      && IsAddressType(rs[i].rtype)
      && (rs[i].rtype == "AAAA" <==> ':' in node.addresses[i])
      && rs[i].ttl == 300
  {
    seq(|node.addresses|, i requires 0 <= i < |node.addresses| =>
      DNSRecord(RecordName(node, domain), AddressType(node.addresses[i]), node.addresses[i], DefaultTTL))
  }

  /** The value of the TXT ownership marker, quotes included. */
  function OwnershipValue(id: string): string {
    "\"dnsscale-managed node_id=" + id + "\""
  }

  /** The TXT ownership marker published after a node's address records. */
  function OwnershipRecord(node: Node, domain: string): DNSRecord {
    DNSRecord(RecordName(node, domain), "TXT", OwnershipValue(node.id), DefaultTTL)
  }

  /** Distinct nodes get distinct ownership markers. */
  lemma OwnershipValueInjective(a: string, b: string)
    ensures OwnershipValue(a) == OwnershipValue(b) <==> a == b
  {
    var prefix := "\"dnsscale-managed node_id=";
    if OwnershipValue(a) == OwnershipValue(b) {
      assert |a| == |b|;
      assert a == OwnershipValue(a)[|prefix|..|prefix| + |a|];
      assert b == OwnershipValue(b)[|prefix|..|prefix| + |b|];
    }
  }

  /** web-server's IPv4 address is published as an A record in example.com. */
  lemma WebServerExample(node: Node)
    requires node.name == "web-server" && node.addresses == ["100.64.0.1"]
    ensures AddressRecords(node, "example.com") == [DNSRecord("web-server.example.com", "A", "100.64.0.1", 300)]
  {
    assert ':' !in node.addresses[0];
    assert AddressType(node.addresses[0]) == "A";
    assert RecordName(node, "example.com") == "web-server.example.com";
  }

  // ---------------------------------------------------------------------------
  // Backend calls and reconcile errors

  /** One call the reconciler makes on its DNS provider. */
  datatype Call = ListCall | UpdateCall(record: DNSRecord) | DeleteCall(record: DNSRecord)

  /** What reconcile returns, over the provider's own error type. */
  datatype Error<+E> =
    | NotInCache(key: string)      // "node <key> not found in cache"
    | UpdateFailed(cause: E)       // "failed to update DNS record: ..."
    | ListFailed(cause: E)         // the listing error of deleteNodeDNS, unwrapped

  /** The address loop of the upsert path: update each record in turn; the first failure ends the loop. */
  function PublishAll<S, E>(dns: DNSProvider<S, E>, s: S, zone: string, records: seq<DNSRecord>): (S, seq<Call>, Option<Error<E>>)
    decreases |records|
  {
    if records == [] then (s, [], None)
    else
      var (s1, calls, err) := PublishAll(dns, s, zone, records[..|records| - 1]);
      if err.Some? then (s1, calls, err)
      else
        var record := records[|records| - 1];
        var (s2, e) := dns.update(s1, zone, record);
        (s2, calls + [UpdateCall(record)], if e.Some? then Some(UpdateFailed(e.value)) else None)
  }

  /**
   * The address loop updates the records in order, one call each, and stops at the
   * first failure: the calls made are a prefix of the records, all of them when
   * nothing failed, and a failure is always an update failure.
   */
  lemma {:induction false} PublishStopsAtFirstFailure<S, E>(dns: DNSProvider<S, E>, s: S, zone: string, records: seq<DNSRecord>)
    ensures var (_, calls, err) := PublishAll(dns, s, zone, records);
      && |calls| <= |records|
      && (forall i :: 0 <= i < |calls| ==> calls[i] == UpdateCall(records[i]))
      && (err.None? ==> |calls| == |records|)
      && (err.Some? ==> |calls| > 0 && err.value.UpdateFailed?)
    decreases |records|
  {
    if records != [] {
      var front := records[..|records| - 1];
      PublishStopsAtFirstFailure(dns, s, zone, front);
      var (s1, calls1, err1) := PublishAll(dns, s, zone, front);
      if err1.None? {
        var calls := calls1 + [UpdateCall(records[|records| - 1])];
        forall i | 0 <= i < |calls| ensures calls[i] == UpdateCall(records[i]) {
          if i < |calls1| {
            assert records[i] == front[i];
          }
        }
      }
    }
  }

  /** Once the address loop has failed, the later records change nothing. */
  lemma {:induction false} PublishFailureSticks<S, E>(dns: DNSProvider<S, E>, s: S, zone: string, records: seq<DNSRecord>, i: nat)
    requires i <= |records| && PublishAll(dns, s, zone, records[..i]).2.Some?
    ensures PublishAll(dns, s, zone, records) == PublishAll(dns, s, zone, records[..i])
    decreases |records| - i
  {
    if i < |records| {
      PublishStep(dns, s, zone, records, i);
      PublishFailureSticks(dns, s, zone, records, i + 1);
    } else {
      assert records[..i] == records;
    }
  }

  /** One more step of the address loop. */
  lemma PublishStep<S, E>(dns: DNSProvider<S, E>, s: S, zone: string, records: seq<DNSRecord>, i: nat)
    requires i < |records|
    ensures PublishAll(dns, s, zone, records[..i + 1]) ==
      var (s1, calls, err) := PublishAll(dns, s, zone, records[..i]);
      if err.Some? then (s1, calls, err)
      else
        var (s2, e) := dns.update(s1, zone, records[i]);
        (s2, calls + [UpdateCall(records[i])], if e.Some? then Some(UpdateFailed(e.value)) else None)
  {
    assert records[..i + 1][..i] == records[..i];
  }

  // ---------------------------------------------------------------------------
  // The deletion sweep

  /** The ownership test of the deletion path: a TXT record carrying exactly the node's marker. */
  predicate OwnedBy(r: DNSRecord, id: string) {
    r.rtype == "TXT" && r.value == OwnershipValue(id)
  }

  /** The ownership test as main.go writes it: the value merely contains "node_id=<id>". */
  predicate MentionsNode(r: DNSRecord, id: string) {
    r.rtype == "TXT" && Contains(r.value, "node_id=" + id)
  }

  /**
   * Which ownership test a deletion sweep applies: the exact marker, which the
   * reconciler uses, or the substring test main.go writes.
   */
  datatype MarkerTest = ExactMarker | SubstringMarker

  predicate Marks(test: MarkerTest, r: DNSRecord, id: string) {
    match test
    case ExactMarker => OwnedBy(r, id)
    case SubstringMarker => MentionsNode(r, id)
  }

  /** The index of the first listed record the test takes for the node's marker, or |records|. */
  function FirstOwned(records: seq<DNSRecord>, test: MarkerTest, id: string): (k: nat)
    ensures k <= |records|
    ensures k < |records| ==> Marks(test, records[k], id)
    ensures forall j :: 0 <= j < k ==> !Marks(test, records[j], id)
  {
    if records == [] then 0
    else if Marks(test, records[0], id) then 0
    else 1 + FirstOwned(records[1..], test, id)
  }

  /** The listed records with exactly this name, in listing order. */
  function NamedAs(records: seq<DNSRecord>, name: string): seq<DNSRecord>
    decreases |records|
  {
    if records == [] then []
    else
      var last := records[|records| - 1];
      NamedAs(records[..|records| - 1], name) + (if last.name == name then [last] else [])
  }

  /** The sweep's targets are exactly the listed records with the name. */
  lemma {:induction false} NamedAsExactly(records: seq<DNSRecord>, name: string)
    ensures forall r :: r in NamedAs(records, name) <==> r in records && r.name == name
    decreases |records|
  {
    if records != [] {
      var front := records[..|records| - 1];
      NamedAsExactly(front, name);
      assert records == front + [records[|records| - 1]];
    }
  }

  /** The delete calls of the sweep, one per target, each failure ignored. */
  function DeleteAll<S, E>(dns: DNSProvider<S, E>, s: S, zone: string, targets: seq<DNSRecord>): (S, seq<Call>)
    decreases |targets|
  {
    if targets == [] then (s, [])
    else
      var (s1, calls) := DeleteAll(dns, s, zone, targets[..|targets| - 1]);
      var target := targets[|targets| - 1];
      (dns.delete(s1, zone, target).0, calls + [DeleteCall(target)])
  }

  /** Each target gets exactly one delete call, in order. */
  lemma {:induction false} DeleteAllCalls<S, E>(dns: DNSProvider<S, E>, s: S, zone: string, targets: seq<DNSRecord>)
    ensures var calls := DeleteAll(dns, s, zone, targets).1;
      |calls| == |targets| && forall i :: 0 <= i < |targets| ==> calls[i] == DeleteCall(targets[i])
    decreases |targets|
  {
    if targets != [] {
      DeleteAllCalls(dns, s, zone, targets[..|targets| - 1]);
    }
  }

  /** One more step of the inner loop of the sweep. */
  lemma DeleteStep<S, E>(dns: DNSProvider<S, E>, s: S, zone: string, records: seq<DNSRecord>, name: string, j: nat)
    requires j < |records|
    ensures DeleteAll(dns, s, zone, NamedAs(records[..j + 1], name)) ==
      var (s1, calls) := DeleteAll(dns, s, zone, NamedAs(records[..j], name));
      if records[j].name == name then (dns.delete(s1, zone, records[j]).0, calls + [DeleteCall(records[j])])
      else (s1, calls)
  {
    assert records[..j + 1][..j] == records[..j];
    var targets := NamedAs(records[..j], name);
    if records[j].name == name {
      assert (targets + [records[j]])[..|targets|] == targets;
    } else {
      assert NamedAs(records[..j + 1], name) == targets + [];
      assert targets + [] == targets;
    }
  }

  /**
   * The inner loop of deleteNodeDNS: every listed record with the name gets a delete
   * call, in listing order; a failed delete is logged, not returned.
   */
  method DeleteNamed<S, E>(dns: DNSProvider<S, E>, s: S, zone: string, records: seq<DNSRecord>, name: string)
    returns (s': S, ghost deletes: seq<Call>)
    ensures s' == DeleteAll(dns, s, zone, NamedAs(records, name)).0
    ensures deletes == DeleteAll(dns, s, zone, NamedAs(records, name)).1
  {
    s', deletes := s, [];
    assert records[..0] == [];
    var j := 0;
    while j < |records|
      invariant 0 <= j <= |records|
      invariant DeleteAll(dns, s, zone, NamedAs(records[..j], name)) == (s', deletes)
    {
      var recordToDelete := records[j];
      DeleteStep(dns, s, zone, records, name, j);
      if recordToDelete.name == name {
        var (s2, deleteErr) := dns.delete(s', zone, recordToDelete);
        s', deletes := s2, deletes + [DeleteCall(recordToDelete)];
      }
      j := j + 1;
    }
    assert records[..j] == records;
  }

  /**
   * deleteNodeDNS under an ownership test: list; the first record the test takes for the
   * node's marker picks a name; every listed record with that name is deleted. Delete
   * failures are not reported.
   */
  function Sweep<S, E>(dns: DNSProvider<S, E>, s: S, domain: string, test: MarkerTest, id: string): (S, seq<Call>, Option<Error<E>>) {
    var (s1, listed) := dns.list(s, domain);
    if listed.Failure? then (s1, [ListCall], Some(ListFailed(listed.error)))
    else
      var records := listed.value;
      var k := FirstOwned(records, test, id);
      if k == |records| then (s1, [ListCall], None)
      else
        var (s2, deletes) := DeleteAll(dns, s1, domain, NamedAs(records, records[k].name));
        (s2, [ListCall] + deletes, None)
  }

  /**
   * Under either ownership test, the sweep lists once, then deletes exactly the listed
   * records that share the name of the first record the test accepts -- each once, and
   * nothing else; it fails only when the listing fails, and without such a record it
   * deletes nothing.
   */
  lemma SweepTouchesOnlyOwnedName<S, E>(dns: DNSProvider<S, E>, s: S, domain: string, test: MarkerTest, id: string)
    ensures var (s', calls, err) := Sweep(dns, s, domain, test, id);
      var (s1, listed) := dns.list(s, domain);
      && |calls| > 0 && calls[0] == ListCall
      && (err.Some? <==> listed.Failure?)
      && (listed.Success? && FirstOwned(listed.value, test, id) == |listed.value| ==> calls == [ListCall] && s' == s1)
      && (listed.Success? && FirstOwned(listed.value, test, id) < |listed.value| ==>
            var name := listed.value[FirstOwned(listed.value, test, id)].name;
            && (forall i :: 1 <= i < |calls| ==>
                  calls[i].DeleteCall? && calls[i].record.name == name && calls[i].record in listed.value)
            && (forall r :: r in listed.value && r.name == name ==> DeleteCall(r) in calls))
  {
    var (s1, listed) := dns.list(s, domain);
    if listed.Success? {
      var k := FirstOwned(listed.value, test, id);
      if k < |listed.value| {
        var name := listed.value[k].name;
        var targets := NamedAs(listed.value, name);
        NamedAsExactly(listed.value, name);
        DeleteAllCalls(dns, s1, domain, targets);
        var calls := [ListCall] + DeleteAll(dns, s1, domain, targets).1;
        forall i | 1 <= i < |calls|
          ensures calls[i].DeleteCall? && calls[i].record.name == name && calls[i].record in listed.value
        {
          assert calls[i] == DeleteCall(targets[i - 1]);
          assert targets[i - 1] in targets;
        }
        forall r | r in listed.value && r.name == name ensures DeleteCall(r) in calls {
          var j :| 0 <= j < |targets| && targets[j] == r;
          assert calls[j + 1] == DeleteCall(r);
        }
      }
    }
  }

  /**
   * On Pi-hole no TXT record is ever listed, so under either ownership test the sweep
   * deletes nothing and leaves the table.
   */
  lemma PiholeSweepIsNoop(p: Pihole.Provider, w: Pihole.Server, domain: string, test: MarkerTest, id: string)
    ensures var (w', calls, err) := Sweep(PiholeBackend(p), w, domain, test, id);
      calls == [ListCall] && w'.table == w.table
  {
    PiholeHidesTXT(p, w, domain, OwnershipRecord(Node(id, "", "", [], [], false, 0), domain));
  }

  /** The corrected ownership test recognises a marker as its own node's and no other node's. */
  lemma OwnedByIsExact(node: Node, domain: string, id: string)
    ensures OwnedBy(OwnershipRecord(node, domain), id) <==> node.id == id
  {
    OwnershipValueInjective(node.id, id);
  }

  /**
   * The ownership test as written takes node "123"'s marker for node "12"'s, so deleting
   * node 12 can sweep the records published for node 123.
   */
  lemma AsWrittenMatchesOtherNode(node: Node, domain: string)
    requires node.id == "123"
    ensures MentionsNode(OwnershipRecord(node, domain), "12")
    ensures !OwnedBy(OwnershipRecord(node, domain), "12")
  {
    var head := "\"dnsscale-managed ";
    var tail := "3\"";
    assert OwnershipValue("123") == head + ("node_id=" + "12") + tail;
    ContainsInfix(head, "node_id=" + "12", tail);
    OwnedByIsExact(node, domain, "12");
  }

  /** The ownership test as written does accept every node's own marker. */
  lemma AsWrittenMatchesOwnMarker(node: Node, domain: string)
    ensures MentionsNode(OwnershipRecord(node, domain), node.id)
  {
    var head := "\"dnsscale-managed ";
    assert OwnershipValue(node.id) == head + ("node_id=" + node.id) + "\"";
    ContainsInfix(head, "node_id=" + node.id, "\"");
  }

  /**
   * The consequence at the level of the sweep: when the listing holds node "123"'s marker
   * followed by its address records, the sweep as written for node "12" deletes every one
   * of node 123's address records, while the sweep with the exact test deletes nothing.
   */
  lemma AsWrittenSweepHitsOtherNode<S, E>(dns: DNSProvider<S, E>, s: S, domain: string, node: Node)
    requires node.id == "123"
    requires dns.list(s, domain).1 == Success([OwnershipRecord(node, domain)] + AddressRecords(node, domain))
    ensures var calls := Sweep(dns, s, domain, SubstringMarker, "12").1;
      forall i :: 0 <= i < |node.addresses| ==> DeleteCall(AddressRecords(node, domain)[i]) in calls
    ensures Sweep(dns, s, domain, ExactMarker, "12").1 == [ListCall]
  {
    var listed := [OwnershipRecord(node, domain)] + AddressRecords(node, domain);
    AsWrittenMatchesOtherNode(node, domain);
    assert FirstOwned(listed, SubstringMarker, "12") == 0;
    SweepTouchesOnlyOwnedName(dns, s, domain, SubstringMarker, "12");
    forall i | 0 <= i < |node.addresses|
      ensures AddressRecords(node, domain)[i] in listed && AddressRecords(node, domain)[i].name == listed[0].name
    {
      assert listed[i + 1] == AddressRecords(node, domain)[i];
    }
    forall j | 0 <= j < |listed| ensures !Marks(ExactMarker, listed[j], "12") {
      if j > 0 {
        assert listed[j] == AddressRecords(node, domain)[j - 1];
      }
    }
    SweepTouchesOnlyOwnedName(dns, s, domain, ExactMarker, "12");
  }

  // ---------------------------------------------------------------------------
  // reconcile

  /**
   * reconcile as a transition of the provider's state, with the calls it makes.
   * `requiredTags` is the reconciler's tag filter.
   */
  function Reconciliation<S, E>(cache: map<string, Node>, requiredTags: map<string, string>, domain: string,
                                dns: DNSProvider<S, E>, s: S, key: string): (S, seq<Call>, Option<Error<E>>)
  {
    match ParseKey(key)
    case DeletionKey(id) => Sweep(dns, s, domain, ExactMarker, id)
    case UpsertKey(id) =>
      if id !in cache then (s, [], Some(NotInCache(id)))
      else if !Managed(requiredTags, cache[id]) then (s, [], None)
      else
        var node := cache[id];
        var (s1, calls, err) := PublishAll(dns, s, domain, AddressRecords(node, domain));
        if err.Some? then (s1, calls, err)
        else
          var txt := OwnershipRecord(node, domain);
          (dns.update(s1, domain, txt).0, calls + [UpdateCall(txt)], None)
  }

  /**
   * The upsert path: with no failure the node's address records are updated in order
   * and then its ownership marker, whatever the marker's update returns; with a
   * failure the calls stop at the failing address record and no marker is written.
   */
  lemma UpsertPublishes<S, E>(cache: map<string, Node>, requiredTags: map<string, string>, domain: string,
                              dns: DNSProvider<S, E>, s: S, id: string)
    requires !HasSuffix(id, DeleteSuffix) && id in cache && Managed(requiredTags, cache[id])
    ensures var (_, calls, err) := Reconciliation(cache, requiredTags, domain, dns, s, id);
      var published := AddressRecords(cache[id], domain);
      && (err.None? <==> PublishAll(dns, s, domain, published).2.None?)
      && (err.None? ==> |calls| == |published| + 1)
      && (err.None? ==> forall i :: 0 <= i < |published| ==> calls[i] == UpdateCall(published[i]))
      && (err.None? ==> calls[|published|] == UpdateCall(OwnershipRecord(cache[id], domain)))
      && (err.Some? ==> |calls| <= |published| && forall i :: 0 <= i < |calls| ==> calls[i] == UpdateCall(published[i]))
  {
    PublishStopsAtFirstFailure(dns, s, domain, AddressRecords(cache[id], domain));
  }

  /** A key of a node missing from the cache, or filtered out by the tags, makes no provider call. */
  lemma UnpublishableKeyMakesNoCalls<S, E>(cache: map<string, Node>, requiredTags: map<string, string>, domain: string,
                                           dns: DNSProvider<S, E>, s: S, key: string)
    requires !HasSuffix(key, DeleteSuffix)
    requires key !in cache || !Managed(requiredTags, cache[key])
    ensures var (s', calls, err) := Reconciliation(cache, requiredTags, domain, dns, s, key);
      && s' == s && calls == []
      && (err.Some? <==> key !in cache)
      && (err.Some? ==> err.value == NotInCache(key))
  {
  }

  /**
   * On Pi-hole the ownership marker is refused without a request: the upsert path leaves
   * the table exactly as the address updates left it, and still succeeds.
   */
  lemma PiholeMarkerIsInert(cache: map<string, Node>, requiredTags: map<string, string>, domain: string,
                            p: Pihole.Provider, w: Pihole.Server, id: string)
    requires !HasSuffix(id, DeleteSuffix) && id in cache && Managed(requiredTags, cache[id])
    ensures var published := PublishAll(PiholeBackend(p), w, domain, AddressRecords(cache[id], domain));
      var (w', _, err) := Reconciliation(cache, requiredTags, domain, PiholeBackend(p), w, id);
      w' == published.0 && err == published.2
  {
    var published := PublishAll(PiholeBackend(p), w, domain, AddressRecords(cache[id], domain));
    PiholeHidesTXT(p, published.0, domain, OwnershipRecord(cache[id], domain));
  }

  /** A deletion is re-queued exactly when listing the records fails. */
  lemma DeletionSettles<S, E>(cache: map<string, Node>, requiredTags: map<string, string>, domain: string,
                              dns: DNSProvider<S, E>, s: S, id: string)
    ensures var (_, _, err) := Reconciliation(cache, requiredTags, domain, dns, s, DeleteKey(id));
      Settle(DeleteKey(id), err)[0] == AddRateLimited(DeleteKey(id)) <==> dns.list(s, domain).1.Failure?
  {
    DeleteKeyRoundTrip(id);
    SweepTouchesOnlyOwnedName(dns, s, domain, ExactMarker, id);
  }

  // ---------------------------------------------------------------------------
  // syncNodes

  function IdsOf(nodes: seq<Node>): set<string> {
    set i | 0 <= i < |nodes| :: nodes[i].id
  }

  predicate DistinctIds(nodes: seq<Node>) {
    forall i, j :: 0 <= i < j < |nodes| ==> nodes[i].id != nodes[j].id
  }

  /**
   * The first loop of syncNodes: each listed node that is new or no longer equivalent
   * to its cached node replaces it and queues its id.
   */
  function Absorb(cache: map<string, Node>, nodes: seq<Node>): (map<string, Node>, seq<string>)
    decreases |nodes|
  {
    if nodes == [] then (cache, [])
    else
      var (c, queued) := Absorb(cache, nodes[..|nodes| - 1]);
      var node := nodes[|nodes| - 1];
      if node.id !in c || !Equivalent(c[node.id], node) then (c[node.id := node], queued + [node.id])
      else (c, queued)
  }

  /** The cache after syncNodes: the absorbed cache without the ids that were not listed. */
  function Synced(cache: map<string, Node>, nodes: seq<Node>): map<string, Node> {
    var c := Absorb(cache, nodes).0;
    map id | id in c && id in IdsOf(nodes) :: c[id]
  }

  /** The ids of a list grow by one id per node. */
  lemma IdsOfStep(nodes: seq<Node>, i: nat)
    requires i < |nodes|
    ensures IdsOf(nodes[..i + 1]) == IdsOf(nodes[..i]) + {nodes[i].id}
  {
    var front, step := nodes[..i], nodes[..i + 1];
    forall id | id in IdsOf(step) ensures id in IdsOf(front) + {nodes[i].id} {
      var j :| 0 <= j < i + 1 && step[j].id == id;
      if j < i {
        assert front[j] == step[j];
      }
    }
    forall id | id in IdsOf(front) ensures id in IdsOf(step) {
      var j :| 0 <= j < i && front[j].id == id;
      assert step[j] == front[j];
    }
    assert step[i] == nodes[i];
  }

  /** An id that is not listed is neither queued nor changed in the cache. */
  lemma {:induction false} AbsorbUntouched(cache: map<string, Node>, nodes: seq<Node>, id: string)
    requires id !in IdsOf(nodes)
    ensures var (c, queued) := Absorb(cache, nodes);
      && id !in queued
      && (id in c <==> id in cache)
      && (id in cache ==> c[id] == cache[id])
    decreases |nodes|
  {
    if nodes != [] {
      var n := |nodes| - 1;
      IdsOfStep(nodes, n);
      assert nodes[..n + 1] == nodes;
      AbsorbUntouched(cache, nodes[..n], id);
    }
  }

  /**
   * With distinct ids: a listed node's id is queued exactly when it was not cached or
   * its cached node is not equivalent to it; the cache then holds the listed node if it
   * was queued and keeps the old one otherwise.
   */
  lemma {:induction false} AbsorbOutcome(cache: map<string, Node>, nodes: seq<Node>, i: nat)
    requires DistinctIds(nodes) && i < |nodes|
    ensures var (c, queued) := Absorb(cache, nodes);
      var id := nodes[i].id;
      && id in c
      && (id in queued <==> id !in cache || !Equivalent(cache[id], nodes[i]))
      && (id in queued ==> c[id] == nodes[i])
      && (id !in queued ==> c[id] == cache[id])
      && Equivalent(c[id], nodes[i])
    decreases |nodes|
  {
    var n := |nodes| - 1;
    var front := nodes[..n];
    var last := nodes[n];
    assert DistinctIds(front) by {
      forall j, k | 0 <= j < k < |front| ensures front[j].id != front[k].id {
        assert front[j] == nodes[j] && front[k] == nodes[k];
      }
    }
    if i == n {
      assert last.id !in IdsOf(front) by {
        forall j | 0 <= j < |front| ensures front[j].id != last.id {
          assert front[j] == nodes[j];
        }
      }
      AbsorbUntouched(cache, front, last.id);
    } else {
      AbsorbOutcome(cache, front, i);
      assert front[i] == nodes[i];
    }
  }

  /**
   * After syncNodes with distinct listed ids, the cache holds exactly the listed ids,
   * each mapped to a node equivalent to the listed one (the listed node itself when its
   * id was queued).
   */
  lemma SyncedCache(cache: map<string, Node>, nodes: seq<Node>)
    requires DistinctIds(nodes)
    ensures var s := Synced(cache, nodes);
      var queued := Absorb(cache, nodes).1;
      && s.Keys == IdsOf(nodes)
      && (forall i :: 0 <= i < |nodes| ==> Equivalent(s[nodes[i].id], nodes[i]))
      && (forall i :: 0 <= i < |nodes| && nodes[i].id in queued ==> s[nodes[i].id] == nodes[i])
  {
    AbsorbKeys(cache, nodes);
    forall i | 0 <= i < |nodes|
      ensures Equivalent(Synced(cache, nodes)[nodes[i].id], nodes[i])
      ensures nodes[i].id in Absorb(cache, nodes).1 ==> Synced(cache, nodes)[nodes[i].id] == nodes[i]
    {
      AbsorbOutcome(cache, nodes, i);
    }
  }

  /**
   * A change that nodesEqual does not look at -- here the tags -- queues nothing, and the
   * cache keeps the old node with its old tags.
   */
  lemma TagChangeIsInvisible(cache: map<string, Node>, node: Node)
    requires node.id in cache && Equivalent(cache[node.id], node)
    ensures Absorb(cache, [node]).1 == []
    ensures Synced(cache, [node]) == map[node.id := cache[node.id]]
  {
    assert [node][..0] == [];
    assert [node][0] == node;
    assert IdsOf([node]) == {node.id};
  }

  /** The second loop of syncNodes leaves exactly the listed ids of the absorbed cache. */
  lemma SyncedFromParts(cache: map<string, Node>, nodes: seq<Node>, c: map<string, Node>)
    requires forall id :: id in c <==> id in Absorb(cache, nodes).0 && id in IdsOf(nodes)
    requires forall id :: id in c ==> c[id] == Absorb(cache, nodes).0[id]
    ensures c == Synced(cache, nodes)
  {
  }

  /** Queueing one more deletion key extends the queued deletions by that id. */
  lemma QueueDeletionStep(queue0: seq<QueueOp>, queue: seq<QueueOp>, removed: seq<string>, id: string)
    requires queue == queue0 + Adds(DeleteKeys(removed))
    ensures queue + [Add(id + DeleteSuffix)] == queue0 + Adds(DeleteKeys(removed + [id]))
  {
    DeleteKeysSnoc(removed, id);
    AddsSnoc(DeleteKeys(removed), DeleteKey(id));
  }

  /**
   * The state of the second loop of syncNodes: `gone` holds the visited ids that were
   * not listed, and the cache is the absorbed cache without them.
   */
  ghost predicate Dropping(cache1: map<string, Node>, current: set<string>, pending: set<string>,
                           gone: set<string>, cache: map<string, Node>) {
    && pending <= cache1.Keys
    && gone == cache1.Keys - pending - current
    && cache == cache1 - gone
  }

  lemma DroppingStep(cache1: map<string, Node>, current: set<string>, pending: set<string>,
                     gone: set<string>, cache: map<string, Node>, id: string)
    requires Dropping(cache1, current, pending, gone, cache) && id in pending
    ensures id !in gone
    ensures id in current ==> Dropping(cache1, current, pending - {id}, gone, cache)
    ensures id !in current ==> Dropping(cache1, current, pending - {id}, gone + {id}, cache - {id})
  {
    if id !in current {
      assert cache - {id} == cache1 - (gone + {id});
    }
  }

  lemma DroppingDone(cache1: map<string, Node>, current: set<string>, gone: set<string>, cache: map<string, Node>)
    requires Dropping(cache1, current, {}, gone, cache)
    ensures forall id :: id in cache <==> id in cache1 && id in current
    ensures forall id :: id in cache ==> cache[id] == cache1[id]
    ensures forall id :: id in gone <==> id in cache1 && id !in current
  {
  }

  /** No id occurs twice. */
  predicate NoRepeats(ids: seq<string>) {
    forall i, j :: 0 <= i < j < |ids| ==> ids[i] != ids[j]
  }

  lemma NoRepeatsSnoc(ids: seq<string>, id: string)
    requires NoRepeats(ids) && id !in ids
    ensures NoRepeats(ids + [id])
  {
  }

  /** One more step of the first loop of syncNodes. */
  lemma AbsorbStep(cache: map<string, Node>, nodes: seq<Node>, i: nat)
    requires i < |nodes|
    ensures Absorb(cache, nodes[..i + 1]) ==
      var (c, queued) := Absorb(cache, nodes[..i]);
      var node := nodes[i];
      if node.id !in c || !Equivalent(c[node.id], node) then (c[node.id := node], queued + [node.id])
      else (c, queued)
  {
    assert nodes[..i + 1][..i] == nodes[..i];
  }

  lemma AddsSnoc(keys: seq<string>, key: string)
    ensures Adds(keys + [key]) == Adds(keys) + [Add(key)]
  {
    assert (keys + [key])[..|keys|] == keys;
  }

  lemma DeleteKeysSnoc(ids: seq<string>, id: string)
    ensures DeleteKeys(ids + [id]) == DeleteKeys(ids) + [DeleteKey(id)]
  {
  }

  /** The keys of the absorbed cache are the cached and the listed ids. */
  lemma {:induction false} AbsorbKeys(cache: map<string, Node>, nodes: seq<Node>)
    ensures Absorb(cache, nodes).0.Keys == cache.Keys + IdsOf(nodes)
    decreases |nodes|
  {
    if nodes != [] {
      var n := |nodes| - 1;
      AbsorbKeys(cache, nodes[..n]);
      IdsOfStep(nodes, n);
      assert nodes[..n + 1] == nodes;
    }
  }

  /**
   * The first loop of syncNodes: cache and queue every listed node that is new or
   * differs from its cached node under nodesEqual; returns the listed ids.
   */
  method AbsorbListed(cache: map<string, Node>, queue: seq<QueueOp>, nodes: seq<Node>)
    returns (cache': map<string, Node>, queue': seq<QueueOp>, currentNodes: set<string>)
    ensures currentNodes == IdsOf(nodes)
    ensures cache' == Absorb(cache, nodes).0
    ensures queue' == queue + Adds(Absorb(cache, nodes).1)
  {
    ghost var queued: seq<string> := [];
    cache', queue' := cache, queue;
    currentNodes := {};
    var i := 0;
    while i < |nodes|
      invariant 0 <= i <= |nodes|
      invariant currentNodes == IdsOf(nodes[..i])
      invariant (cache', queued) == Absorb(cache, nodes[..i])
      invariant queue' == queue + Adds(queued)
    {
      var node := nodes[i];
      AbsorbStep(cache, nodes, i);
      IdsOfStep(nodes, i);
      currentNodes := currentNodes + {node.id};
      var changed := true;
      if node.id in cache' {
        var same := NodesEqual(cache'[node.id], node);
        changed := !same;
      }
      if changed {
        cache' := cache'[node.id := node];
        AddsSnoc(queued, node.id);
        assert queue' + [Add(node.id)] == queue + (Adds(queued) + [Add(node.id)]);
        queue' := queue' + [Add(node.id)];
        queued := queued + [node.id];
      }
      i := i + 1;
    }
    assert nodes[..i] == nodes;
  }

  /**
   * The second loop of syncNodes: every cached id outside `currentNodes` is removed
   * and its deletion key queued, in the unspecified order `removed` reports.
   */
  method DropUnlisted(cache: map<string, Node>, queue: seq<QueueOp>, currentNodes: set<string>)
    returns (kept: map<string, Node>, queue': seq<QueueOp>, ghost removed: seq<string>)
    ensures forall id :: id in kept <==> id in cache && id in currentNodes
    ensures forall id :: id in kept ==> kept[id] == cache[id]
    ensures forall id :: id in removed <==> id in cache && id !in currentNodes
    ensures NoRepeats(removed)
    ensures queue' == queue + Adds(DeleteKeys(removed))
  {
    ghost var gone: set<string> := {};
    kept, queue' := cache, queue;
    removed := [];
    var pending := cache.Keys;
    while pending != {}
      invariant Dropping(cache, currentNodes, pending, gone, kept)
      invariant forall id :: id in removed <==> id in gone
      invariant NoRepeats(removed)
      invariant queue' == queue + Adds(DeleteKeys(removed))
      decreases |pending|
    {
      var id :| id in pending;
      DroppingStep(cache, currentNodes, pending, gone, kept, id);
      pending := pending - {id};
      if id !in currentNodes {
        NoRepeatsSnoc(removed, id);
        kept := kept - {id};
        QueueDeletionStep(queue, queue', removed, id);
        queue' := queue' + [Add(id + DeleteSuffix)];
        removed := removed + [id];
        gone := gone + {id};
      }
    }
    DroppingDone(cache, currentNodes, gone, kept);
  }

  // ---------------------------------------------------------------------------
  // The reconciler object

  /**
   * DNSReconciler: the node cache, the work queue (as the sequence of operations made
   * on it), the tag filter, and the DNS provider with the state of the store behind it.
   * The Tailscale client, poll interval, logger and mutex are not modelled.
   */
  class DNSReconciler<S, E> {
    const domain: string
    const dnsProvider: DNSProvider<S, E>
    var dnsState: S
    var annotations: map<string, string>
    var nodeCache: map<string, Node>
    var queueOps: seq<QueueOp>

    /** NewDNSReconciler: an empty cache, an empty queue and no tag filter. */
    constructor (dns: DNSProvider<S, E>, state: S, domain: string)
      ensures this.domain == domain && dnsProvider == dns && dnsState == state
      ensures nodeCache == map[] && annotations == map[] && queueOps == []
    {
      this.domain := domain;
      dnsProvider := dns;
      dnsState := state;
      nodeCache := map[];
      annotations := map[];
      queueOps := [];
    }

    /** Adds a required tag to the filter, as the start-up code does for each configured tag. */
    method RequireTag(tag: string)
      modifies this
      ensures annotations == old(annotations)[tag := "true"]
      ensures nodeCache == old(nodeCache) && queueOps == old(queueOps) && dnsState == old(dnsState)
    {
      annotations := annotations[tag := "true"];
    }

    /**
     * syncNodes: on a listing failure nothing changes; otherwise the first loop absorbs
     * the listed nodes and the second removes every cached id that was not listed,
     * queueing its deletion key. The second loop visits the ids in an unspecified
     * order, which `removed` reports.
     */
    method SyncNodes(listed: Result<seq<Node>, string>) returns (ghost removed: seq<string>)
      modifies this
      ensures annotations == old(annotations) && dnsState == old(dnsState)
      ensures listed.Failure? ==> nodeCache == old(nodeCache) && queueOps == old(queueOps)
      ensures listed.Success? ==>
        && nodeCache == Synced(old(nodeCache), listed.value)
        && queueOps == old(queueOps) + Adds(Absorb(old(nodeCache), listed.value).1) + Adds(DeleteKeys(removed))
        && (forall id :: id in removed <==> id in old(nodeCache) && id !in IdsOf(listed.value))
        && NoRepeats(removed)
    {
      removed := [];
      if listed.Failure? {
        return;
      }
      var nodes := listed.value;
      ghost var cache0 := nodeCache;
      var absorbed, queue1, currentNodes := AbsorbListed(nodeCache, queueOps, nodes);
      AbsorbKeys(cache0, nodes);
      var kept, queue;
      kept, queue, removed := DropUnlisted(absorbed, queue1, currentNodes);
      nodeCache, queueOps := kept, queue;
      SyncedFromParts(cache0, nodes, nodeCache);
    }

    /**
     * reconcile: routes the key, then either sweeps the node's records or publishes
     * them; it reads the cache and the tag filter and changes only the provider's state.
     */
    method Reconcile(key: string) returns (err: Option<Error<E>>, ghost calls: seq<Call>)
      modifies this
      ensures nodeCache == old(nodeCache) && annotations == old(annotations) && queueOps == old(queueOps)
      ensures (dnsState, calls, err) == Reconciliation(nodeCache, annotations, domain, dnsProvider, old(dnsState), key)
    {
      if HasSuffix(key, DeleteSuffix) {
        var nodeID := TrimSuffix(key, DeleteSuffix);
        err, calls := DeleteNodeDNS(nodeID);
        return;
      }
      if key !in nodeCache {
        return Some(NotInCache(key)), [];
      }
      var node := nodeCache[key];
      var managed := ShouldManageNode(annotations, node);
      if !managed {
        return None, [];
      }
      var recordName := node.name + "." + domain;
      ghost var published := AddressRecords(node, domain);
      ghost var s0 := dnsState;
      calls := [];
      var i := 0;
      while i < |node.addresses|
        invariant 0 <= i <= |node.addresses|
        invariant PublishAll(dnsProvider, s0, domain, published[..i]) == (dnsState, calls, None)
        invariant nodeCache == old(nodeCache) && annotations == old(annotations) && queueOps == old(queueOps)
      {
        var addr := node.addresses[i];
        var recordType := if ':' in addr then "AAAA" else "A";
        var record := DNSRecord(recordName, recordType, addr, 300);
        assert record == published[i];
        PublishStep(dnsProvider, s0, domain, published, i);
        var (s', e) := dnsProvider.update(dnsState, domain, record);
        dnsState := s';
        calls := calls + [UpdateCall(record)];
        if e.Some? {
          PublishFailureSticks(dnsProvider, s0, domain, published, i + 1);
          return Some(UpdateFailed(e.value)), calls;
        }
        i := i + 1;
      }
      assert published[..i] == published;
      var txtRecord := DNSRecord(recordName, "TXT", "\"dnsscale-managed node_id=" + node.id + "\"", 300);
      var (s', txtErr) := dnsProvider.update(dnsState, domain, txtRecord);
      dnsState := s';
      calls := calls + [UpdateCall(txtRecord)];
      // a failed ownership marker is logged, not returned
      err := None;
    }

    /**
     * deleteNodeDNS: list the records; at the node's first ownership marker, delete
     * every listed record with the marker's name and stop looking.
     */
    method DeleteNodeDNS(nodeID: string) returns (err: Option<Error<E>>, ghost calls: seq<Call>)
      modifies this
      ensures nodeCache == old(nodeCache) && annotations == old(annotations) && queueOps == old(queueOps)
      ensures (dnsState, calls, err) == Sweep(dnsProvider, old(dnsState), domain, ExactMarker, nodeID)
    {
      var (s1, records) := dnsProvider.list(dnsState, domain);
      dnsState := s1;
      calls := [ListCall];
      if records.Failure? {
        return Some(ListFailed(records.error)), calls;
      }
      var listed := records.value;
      var i := 0;
      while i < |listed|
        invariant 0 <= i <= |listed|
        invariant forall j :: 0 <= j < i ==> !Marks(ExactMarker, listed[j], nodeID)
        invariant dnsState == s1 && calls == [ListCall]
        invariant nodeCache == old(nodeCache) && annotations == old(annotations) && queueOps == old(queueOps)
      {
        var record := listed[i];
        if record.rtype == "TXT" && record.value == "\"dnsscale-managed node_id=" + nodeID + "\"" {
          var s2, deletes := DeleteNamed(dnsProvider, dnsState, domain, listed, record.name);
          dnsState := s2;
          calls := calls + deletes;
          assert FirstOwned(listed, ExactMarker, nodeID) == i;
          return None, calls;
        }
        i := i + 1;
      }
      err := None;
    }

    /**
     * One turn of a worker: reconcile the item, re-queue it rate-limited on failure or
     * forget it on success, and mark it done.
     */
    method ProcessItem(item: string) returns (err: Option<Error<E>>)
      modifies this
      ensures nodeCache == old(nodeCache) && annotations == old(annotations)
      ensures dnsState == Reconciliation(nodeCache, annotations, domain, dnsProvider, old(dnsState), item).0
      ensures err == Reconciliation(nodeCache, annotations, domain, dnsProvider, old(dnsState), item).2
      ensures queueOps == old(queueOps) + Settle(item, err)
    {
      ghost var calls;
      err, calls := Reconcile(item);
      if err.Some? {
        queueOps := queueOps + [AddRateLimited(item)];
      } else {
        queueOps := queueOps + [Forget(item)];
      }
      queueOps := queueOps + [Done(item)];
    }
  }
}
