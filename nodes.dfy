/**
 * Tailscale devices and the simplified nodes the reconciler works with (main.go):
 * the short-name derivation of ToTailscaleNode, the deliberately partial node
 * equality nodesEqual, and the tag filter shouldManageNode.
 */
module Nodes {
  import opened Strings

  /** The fields of a Tailscale API device that the conversion reads. */
  datatype Device = Device(
    id: string,
    name: string,
    hostname: string,
    addresses: seq<string>,
    tags: seq<string>,
    lastSeen: int)

  /** TailscaleNode: the display-ready node that is cached, diffed and published. */
  datatype Node = Node(
    id: string,
    name: string,
    hostname: string,
    addresses: seq<string>,
    tags: seq<string>,
    online: bool,
    lastSeen: int)

  /**
   * The device's short name: the explicit name if non-empty, else the hostname,
   * cut before its first dot -- unless that dot is the very first character.
   */
  function ShortName(name: string, hostname: string): (r: string)
    ensures var base := if name == "" then hostname else name;
      && HasPrefix(base, r)
      && (base != [] && base[0] == '.' ==> r == base)
      && (base == [] || base[0] != '.' ==> '.' !in r && (|r| < |base| ==> base[|r|] == '.'))
  {
    var base := if name == "" then hostname else name;
    var dot := IndexOf(base, '.');
    if dot > 0 then base[..dot] else base
  }

  /**
   * ToTailscaleNode. Whether the device was seen in the last five minutes depends on
   * the clock, so it comes in as `online`.
   */
  function ToTailscaleNode(d: Device, online: bool): (n: Node)
    ensures n.id == d.id && n.hostname == d.hostname && n.addresses == d.addresses && n.tags == d.tags
    ensures n.online == online && n.lastSeen == d.lastSeen
    ensures n.name == ShortName(d.name, d.hostname)
    ensures var base := if d.name == "" then d.hostname else d.name;
      && HasPrefix(base, n.name)
      && (base == [] || base[0] != '.' ==> '.' !in n.name && (|n.name| < |base| ==> base[|n.name|] == '.'))
  {
    Node(d.id, ShortName(d.name, d.hostname), d.hostname, d.addresses, d.tags, online, d.lastSeen)
  }

  /**
   * A MagicDNS name such as "lbr-macbook-pro.tail4cf751.ts.net" is cut at its first dot,
   * and the id, hostname, addresses and tags are carried over unchanged.
   */
  lemma TailnetSuffixDropped(d: Device, online: bool, host: string, suffix: string)
    requires d.name == host + "." + suffix && host != "" && '.' !in host
    ensures ToTailscaleNode(d, online).name == host
    ensures var n := ToTailscaleNode(d, online);
      n.id == d.id && n.hostname == d.hostname && n.addresses == d.addresses && n.tags == d.tags && n.online == online
  {
    assert d.name[..|host|] == host && d.name[|host|] == '.';
  }

  /** The material fields of a node: what the change detector compares. */
  predicate Equivalent(a: Node, b: Node) {
    a.name == b.name && a.online == b.online && a.addresses == b.addresses
  }

  /**
   * nodesEqual: name, online flag and the address list, element by element in order.
   * Id, hostname, tags and last-seen time never take part.
   */
  method NodesEqual(a: Node, b: Node) returns (eq: bool)
    ensures eq <==> a.name == b.name && a.online == b.online && a.addresses == b.addresses
  {
    if a.name != b.name || a.online != b.online || |a.addresses| != |b.addresses| {
      return false;
    }
    var i := 0;
    while i < |a.addresses|
      invariant 0 <= i <= |a.addresses|
      invariant a.addresses[..i] == b.addresses[..i]
    {
      if a.addresses[i] != b.addresses[i] {
        return false;
      }
      i := i + 1;
    }
    assert a.addresses == a.addresses[..i];
    return true;
  }

  /** Whether the tag filter lets a node through (the required tags are the map's keys). */
  predicate Managed(requiredTags: map<string, string>, node: Node) {
    |requiredTags| == 0 || exists i :: 0 <= i < |node.tags| && node.tags[i] in requiredTags
  }

  /**
   * shouldManageNode: with no required tags every node is managed; otherwise a node is
   * managed iff one of its tags is a required tag.
   */
  method ShouldManageNode(requiredTags: map<string, string>, node: Node) returns (managed: bool)
    ensures |requiredTags| == 0 ==> managed
    ensures |requiredTags| > 0 ==> (managed <==> exists t :: t in node.tags && t in requiredTags)
    ensures managed == Managed(requiredTags, node)
  {
    if |requiredTags| > 0 {
      var i := 0;
      while i < |node.tags|
        invariant 0 <= i <= |node.tags|
        invariant forall j :: 0 <= j < i ==> node.tags[j] !in requiredTags
      {
        if node.tags[i] in requiredTags {
          return true;
        }
        i := i + 1;
      }
      return false;
    }
    return true;
  }

  /** Under the filter {"tag:prod"}, a node tagged only "tag:dev" is skipped. */
  lemma ProdFilterSkipsDevNode(node: Node)
    requires node.tags == ["tag:dev"]
    ensures !Managed(map["tag:prod" := "true"], node)
  {
    assert "tag:dev" != "tag:prod" by { assert "tag:dev"[4] != "tag:prod"[4]; }
  }
}
