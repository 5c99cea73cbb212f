/**
 * The two DNSProvider implementations this model carries, as instances of the
 * interface over their remote stores, and what the reconciler may rely on from each.
 */
module Backends {
  import opened Results
  import opened Records
  import Pihole
  import Cloudflare

  /** PiholeProvider behind the DNSProvider interface. */
  function PiholeBackend(p: Pihole.Provider): DNSProvider<Pihole.Server, Pihole.Error> {
    DNSProvider(
      (w, zone) => Pihole.Listing(p, w, zone),
      (w, zone, record) => Pihole.Upsert(p, w, zone, record),
      (w, zone, record) => Pihole.Upsert(p, w, zone, record),
      (w, zone, record) => Pihole.DeleteRecord(p, w, zone, record))
  }

  /** CloudflareProvider behind the DNSProvider interface. */
  function CloudflareBackend(p: Cloudflare.Provider): DNSProvider<Cloudflare.Server, Cloudflare.Error> {
    DNSProvider(
      (w, zone) => Cloudflare.Listing(p, w, zone),
      (w, zone, record) => Cloudflare.CreateRecord(p, w, zone, record),
      (w, zone, record) => Cloudflare.Upsert(p, w, zone, record),
      (w, zone, record) => Cloudflare.DeleteRecord(p, w, zone, record))
  }

  /**
   * On Pi-hole, listing changes no table entry and never yields a TXT record, and an
   * update of anything but A or AAAA is refused without any request.
   */
  lemma PiholeHidesTXT(p: Pihole.Provider, w: Pihole.Server, zone: string, record: DNSRecord)
    ensures var (w', listed) := PiholeBackend(p).list(w, zone);
      && w'.table == w.table
      && (listed.Success? ==> forall i :: 0 <= i < |listed.value| ==> listed.value[i].rtype != "TXT")
    ensures !IsAddressType(record.rtype) ==>
      PiholeBackend(p).update(w, zone, record) == (w, Some(Pihole.UnsupportedType(record.rtype)))
  {
    var (w', listed) := Pihole.Listing(p, w, zone);
    if listed.Success? {
      forall i | 0 <= i < |listed.value| ensures listed.value[i].rtype != "TXT" {
        assert IsAddressType(listed.value[i].rtype);
      }
    }
  }
}
