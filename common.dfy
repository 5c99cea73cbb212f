/** Success/failure wrappers shared by every module of the model. */
module Results {

  datatype Option<+T> = None | Some(value: T)

  datatype Result<+T, +E> = Success(value: T) | Failure(error: E)
}

/** The few operations of Go's `strings` package that the modelled code uses, on `seq<char>`. */
module Strings {

  /** strings.HasPrefix */
  predicate HasPrefix(s: string, prefix: string) {
    |prefix| <= |s| && s[..|prefix|] == prefix
  }

  /** strings.HasSuffix */
  predicate HasSuffix(s: string, suffix: string) {
    |suffix| <= |s| && s[|s| - |suffix|..] == suffix
  }

  /** strings.Contains: `sub` occurs somewhere in `s`. */
  predicate Contains(s: string, sub: string)
    decreases |s|
  {
    HasPrefix(s, sub) || (|s| > 0 && Contains(s[1..], sub))
  }

  /** strings.TrimSuffix: drops one trailing `suffix`, if there is one. */
  function TrimSuffix(s: string, suffix: string): (r: string)
    ensures HasSuffix(s, suffix) ==> r + suffix == s
    ensures !HasSuffix(s, suffix) ==> r == s
  {
    if HasSuffix(s, suffix) then s[..|s| - |suffix|] else s
  }

  /** strings.Index with a one-character needle: the first position of `c`, or -1. */
  function IndexOf(s: string, c: char): (i: int)
    ensures -1 <= i < |s|
    ensures i == -1 <==> c !in s
    ensures 0 <= i ==> s[i] == c && c !in s[..i]
  {
    if s == [] then -1
    else if s[0] == c then 0
    else
      var k := IndexOf(s[1..], c);
      if k == -1 then -1 else assert s[..k + 1] == [s[0]] + s[1..][..k]; k + 1
  }

  /** A string contains every one of its infixes. */
  lemma {:induction false} ContainsInfix(a: string, b: string, c: string)
    ensures Contains(a + b + c, b)
    decreases |a|
  {
    if a == [] {
      assert a + b + c == b + c;
      assert (b + c)[..|b|] == b;
    } else {
      assert (a + b + c)[1..] == a[1..] + b + c;
      ContainsInfix(a[1..], b, c);
    }
  }
}

/** The backend-neutral record model: providers/route53.go declares `DNSRecord` and `DNSProvider`. */
module Records {
  import opened Results

  /** A DNS record as the reconciler and every provider exchange it. */
  datatype DNSRecord = DNSRecord(name: string, rtype: string, value: string, ttl: int)

  /** The fixed TTL of every record the reconciler publishes, and of every Pi-hole listing. */
  const DefaultTTL: int := 300

  predicate IsAddressType(t: string) {
    t == "A" || t == "AAAA"
  }

  /** The record type an IP literal gets: AAAA when it contains a colon, A otherwise. */
  function AddressType(ip: string): string {
    if ':' in ip then "AAAA" else "A"
  }

  predicate SameNameAndType(r: DNSRecord, name: string, rtype: string) {
    r.name == name && r.rtype == rtype
  }

  /**
   * DNSProvider: the four calls of a DNS backend, each a transition of the backend's
   * remote state `S` that may fail with an error `E`. The `zone` argument is passed
   * through as the reconciler gives it.
   */
  datatype DNSProvider<!S, E> = DNSProvider(
    list: (S, string) -> (S, Result<seq<DNSRecord>, E>),
    create: (S, string, DNSRecord) -> (S, Option<E>),
    update: (S, string, DNSRecord) -> (S, Option<E>),
    delete: (S, string, DNSRecord) -> (S, Option<E>))

  /**
   * The index of the first record with this name and type, or |records| when there is
   * none. Cloudflare.FirstStored makes the same search over a zone's stored records.
   */
  function FirstNamed(records: seq<DNSRecord>, name: string, rtype: string): (k: nat)
    ensures k <= |records|
    ensures k < |records| ==> SameNameAndType(records[k], name, rtype)
    ensures forall j :: 0 <= j < k ==> !SameNameAndType(records[j], name, rtype)
  {
    if records == [] then 0
    else if SameNameAndType(records[0], name, rtype) then 0
    else 1 + FirstNamed(records[1..], name, rtype)
  }
}
