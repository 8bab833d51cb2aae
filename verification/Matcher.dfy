/** The indicator matcher of internal/intel/matcher.go: an index over a listing of the store, and the
    packet matching that must find what a scan of all items would find. */
module Matching {
  import opened Basics
  import opened Intel

  datatype Packet = Packet(srcIP: string, dstIP: string, answers: seq<string>, query: string, host: string, sni: string, url: string)

  // ---------------------------------------------------------------- a linear scan

  predicate HasSuffix(s: string, suffix: string) {
    |s| >= |suffix| && s[|s| - |suffix|..] == suffix
  }

  predicate Contains(s: string, sub: string) {
    exists i :: 0 <= i <= |s| - |sub| && StartsAt(s, sub, i)
  }

  predicate StartsAt(s: string, sub: string, i: nat)
    requires i + |sub| <= |s|
  {
    s[i..i + |sub|] == sub
  }

  predicate Active(it: Item, now: int) {
    it.enabled && (it.expire == 0 || it.expire >= now)
  }

  /** The address takes part in matching: it parses and is neither loopback nor unspecified. */
  predicate Eligible<Addr, Block>(net: Net<Addr, Block>, ip: string) {
    net.parseIP(ip).Some? && !net.special(net.parseIP(ip).value)
  }

  predicate IPMatches<Addr, Block>(net: Net<Addr, Block>, it: Item, ip: string) {
    && net.lower(it.kind) == "ip" && Eligible(net, ip)
    && CanonicalIP(net, it.value) != "" && CanonicalIP(net, it.value) == CanonicalIP(net, ip)
  }

  predicate CIDRMatches<Addr, Block>(net: Net<Addr, Block>, it: Item, ip: string) {
    && net.lower(it.kind) == "cidr" && Eligible(net, ip)
    && net.parseCIDR(it.value).Some? && net.contains(net.parseCIDR(it.value).value, net.parseIP(ip).value)
  }

  predicate DomainMatches<Addr, Block>(net: Net<Addr, Block>, it: Item, name: string) {
    var domain, value := CanonicalDomain(net, it.value), CanonicalDomain(net, name);
    && net.lower(it.kind) == "domain" && domain != "" && value != ""
    && (value == domain || HasSuffix(value, "." + domain))
  }

  predicate URLMatches<Addr, Block>(net: Net<Addr, Block>, it: Item, url: string) {
    var value := net.lower(net.trim(it.value));
    && net.lower(it.kind) == "url" && url != "" && value != ""
    && (net.lower(url) == value || Contains(net.lower(url), net.lower(it.value)))
  }

  function Addresses(p: Packet): seq<string> {
    [p.srcIP, p.dstIP] + p.answers
  }

  predicate AddressMatches<Addr, Block>(net: Net<Addr, Block>, it: Item, ip: string) {
    IPMatches(net, it, ip) || CIDRMatches(net, it, ip)
  }

  /** An answer that is no address is the name a CNAME leads to. */
  predicate AnswerMatches<Addr, Block>(net: Net<Addr, Block>, it: Item, answers: seq<string>) {
    exists a :: a in answers && net.parseIP(a).None? && DomainMatches(net, it, a)
  }

  predicate NameMatches<Addr, Block>(net: Net<Addr, Block>, it: Item, p: Packet) {
    || DomainMatches(net, it, p.query) || DomainMatches(net, it, p.host) || DomainMatches(net, it, p.sni)
    || AnswerMatches(net, it, p.answers)
  }

  /** Some address, name or URL of the packet is the indicator's. */
  predicate Matches<Addr, Block>(net: Net<Addr, Block>, it: Item, p: Packet) {
    || (exists ip :: ip in Addresses(p) && AddressMatches(net, it, ip))
    || NameMatches(net, it, p)
    || URLMatches(net, it, p.url)
  }

  /** A scan of the whole store finds the item. */
  predicate Scanned<Addr, Block>(net: Net<Addr, Block>, items: Items, p: Packet, now: int, it: Item) {
    it.id in items && items[it.id] == it && Active(it, now) && Matches(net, it, p)
  }

  // ---------------------------------------------------------------- what is hit, and until when

  /** A stored item that matches is hit through its last second and no longer, for ever if it has none, and never
      while it is disabled. */
  lemma HitUntilExpiry<Addr, Block>(net: Net<Addr, Block>, items: Items, p: Packet, it: Item, now: int)
    requires it.id in items && items[it.id] == it && Matches(net, it, p)
    ensures Scanned(net, items, p, now, it) <==> it.enabled && (it.expire == 0 || now <= it.expire)
  {
    hide Matches;
  }

  /** The name is the domain, or has it after a dot. */
  ghost predicate IsUnder(name: string, domain: string) {
    name == domain || exists host: string :: name == host + "." + domain
  }

  lemma SuffixExactly(s: string, suffix: string)
    ensures HasSuffix(s, suffix) <==> exists front: string :: s == front + suffix
  {
    if HasSuffix(s, suffix) {
      assert s == s[..|s| - |suffix|] + suffix;
    }
    if front: string :| s == front + suffix {
      assert s[|front|..] == suffix;
    }
  }

  lemma UnderExactly(name: string, domain: string)
    ensures name == domain || HasSuffix(name, "." + domain) <==> IsUnder(name, domain)
  {
    hide HasSuffix;
    SuffixExactly(name, "." + domain);
    if host: string :| name == host + ("." + domain) {
      assert name == host + "." + domain;
    }
    if host: string :| name == host + "." + domain {
      assert name == host + ("." + domain);
    }
  }

  /** A domain indicator matches its domain and every name below it, and nothing else. */
  lemma DomainExactly<Addr, Block>(net: Net<Addr, Block>, it: Item, name: string)
    ensures DomainMatches(net, it, name) <==>
      && net.lower(it.kind) == "domain" && CanonicalDomain(net, it.value) != "" && CanonicalDomain(net, name) != ""
      && IsUnder(CanonicalDomain(net, name), CanonicalDomain(net, it.value))
  {
    hide CanonicalDomain, IsUnder, HasSuffix;
    UnderExactly(CanonicalDomain(net, name), CanonicalDomain(net, it.value));
  }

  lemma ContainsExactly(s: string, sub: string)
    ensures Contains(s, sub) <==> exists front: string, back: string :: s == front + sub + back
  {
    if i :| 0 <= i <= |s| - |sub| && StartsAt(s, sub, i) {
      assert s == s[..i] + sub + s[i + |sub|..];
    }
    if front: string, back: string :| s == front + sub + back {
      assert StartsAt(s, sub, |front|);
    }
  }

  /** A URL indicator matches its own text and every URL that has it somewhere, in any case of letters. */
  lemma URLExactly<Addr, Block>(net: Net<Addr, Block>, it: Item, url: string)
    ensures URLMatches(net, it, url) <==>
      && net.lower(it.kind) == "url" && url != "" && net.lower(net.trim(it.value)) != ""
      && (net.lower(url) == net.lower(net.trim(it.value))
          || exists front: string, back: string :: net.lower(url) == front + net.lower(it.value) + back)
  {
    hide Contains;
    ContainsExactly(net.lower(url), net.lower(it.value));
  }

  /** An address indicator is hit by a packet exactly if one of its addresses, not loopback or unspecified, is the
      indicator's, or is in its block. */
  lemma AddressExactly<Addr, Block>(net: Net<Addr, Block>, it: Item, p: Packet)
    requires net.lower(it.kind) == "ip" || net.lower(it.kind) == "cidr"
    ensures Matches(net, it, p) <==>
      exists ip :: (ip == p.srcIP || ip == p.dstIP || ip in p.answers) && net.parseIP(ip).Some? && !net.special(net.parseIP(ip).value) && Bears(net, it, ip)
  {
    hide CanonicalIP;
    if ip :| ip in Addresses(p) && AddressMatches(net, it, ip) {
      assert Bears(net, it, ip);
    }
    if ip :| (ip == p.srcIP || ip == p.dstIP || ip in p.answers) && net.parseIP(ip).Some? && !net.special(net.parseIP(ip).value) && Bears(net, it, ip) {
      assert ip in Addresses(p) && AddressMatches(net, it, ip);
    }
  }

  /** The address prints as the indicator's, or is in its block. */
  predicate Bears<Addr, Block>(net: Net<Addr, Block>, it: Item, ip: string)
    requires net.parseIP(ip).Some?
  {
    if net.lower(it.kind) == "ip" then CanonicalIP(net, ip) != "" && CanonicalIP(net, it.value) == CanonicalIP(net, ip)
    else net.parseCIDR(it.value).Some? && net.contains(net.parseCIDR(it.value).value, net.parseIP(ip).value)
  }

  /** A packet that names a host below the indicator's domain, as query, host, server name or CNAME answer, is hit
      until the indicator expires. */
  lemma ParentHit<Addr, Block>(net: Net<Addr, Block>, items: Items, p: Packet, it: Item, name: string, now: int)
    requires it.id in items && items[it.id] == it && it.enabled && (it.expire == 0 || now <= it.expire)
    requires net.lower(it.kind) == "domain" && CanonicalDomain(net, it.value) != ""
    requires name in [p.query, p.host, p.sni] || (name in p.answers && net.parseIP(name).None?)
    requires exists host: string :: CanonicalDomain(net, name) == host + "." + CanonicalDomain(net, it.value)
    ensures Scanned(net, items, p, now, it)
  {
    hide CanonicalDomain, AddressMatches, URLMatches;
    DomainExactly(net, it, name);
    assert DomainMatches(net, it, name);
    hide DomainMatches;
    assert NameMatches(net, it, p);
  }

  // ---------------------------------------------------------------- the index

  type Buckets = map<string, seq<Item>>

  datatype Index<!Block> = Index(ips: Buckets, cidrs: seq<(Block, Item)>, domains: Buckets, urls: Buckets, urlList: seq<Item>)

  function Bucket(b: Buckets, key: string): seq<Item> {
    if key in b then b[key] else []
  }

  function Put(b: Buckets, key: string, it: Item): Buckets {
    b[key := Bucket(b, key) + [it]]
  }

  /** One turn of the loop of rebuildIndex. */
  function Indexed<Addr, Block>(net: Net<Addr, Block>, ix: Index<Block>, it: Item): Index<Block> {
    var kind := net.lower(it.kind);
    if kind == "ip" then
      var ip := CanonicalIP(net, it.value);
      if ip != "" then ix.(ips := Put(ix.ips, ip, it)) else ix
    else if kind == "cidr" then
      var block := net.parseCIDR(it.value);
      if block.Some? then ix.(cidrs := ix.cidrs + [(block.value, it)]) else ix
    else if kind == "domain" then
      var domain := CanonicalDomain(net, it.value);
      if domain != "" then ix.(domains := Put(ix.domains, domain, it)) else ix
    else if kind == "url" then
      var value := net.lower(net.trim(it.value));
      if value == "" then ix else ix.(urls := Put(ix.urls, value, it), urlList := ix.urlList + [it])
    else ix
  }

  function Build<Addr, Block>(net: Net<Addr, Block>, items: seq<Item>): Index<Block> {
    if items == [] then Index(map[], [], map[], map[], []) else
    Indexed(net, Build(net, items[..|items| - 1]), items[|items| - 1])
  }

  /** Which items are where in an index built from `items`. */
  ghost predicate Represents<Addr, Block(!new)>(net: Net<Addr, Block>, ix: Index<Block>, items: seq<Item>) {
    && IPsHeld(net, ix.ips, items) && BlocksHeld(net, ix.cidrs, items) && DomainsHeld(net, ix.domains, items)
    && URLsHeld(net, ix.urls, items) && ListHeld(net, ix.urlList, items)
  }

  ghost predicate IPsHeld<Addr, Block>(net: Net<Addr, Block>, ips: Buckets, items: seq<Item>) {
    forall it, k :: it in Bucket(ips, k) <==> it in items && k != "" && UnderIP(net, it, k)
  }

  ghost predicate BlocksHeld<Addr, Block(!new)>(net: Net<Addr, Block>, cidrs: seq<(Block, Item)>, items: seq<Item>) {
    forall b, it :: (b, it) in cidrs <==> it in items && UnderBlock(net, it, b)
  }

  ghost predicate DomainsHeld<Addr, Block>(net: Net<Addr, Block>, domains: Buckets, items: seq<Item>) {
    forall it, k :: it in Bucket(domains, k) <==> it in items && k != "" && UnderDomain(net, it, k)
  }

  ghost predicate URLsHeld<Addr, Block>(net: Net<Addr, Block>, urls: Buckets, items: seq<Item>) {
    forall it, k :: it in Bucket(urls, k) <==> it in items && k != "" && UnderURL(net, it, k)
  }

  ghost predicate ListHeld<Addr, Block>(net: Net<Addr, Block>, list: seq<Item>, items: seq<Item>) {
    forall it :: it in list <==> it in items && net.lower(it.kind) == "url" && net.lower(net.trim(it.value)) != ""
  }

  predicate UnderIP<Addr, Block>(net: Net<Addr, Block>, it: Item, k: string) {
    net.lower(it.kind) == "ip" && CanonicalIP(net, it.value) == k
  }

  ghost predicate UnderBlock<Addr, Block>(net: Net<Addr, Block>, it: Item, b: Block) {
    net.lower(it.kind) == "cidr" && net.parseCIDR(it.value) == Some(b)
  }

  predicate UnderDomain<Addr, Block>(net: Net<Addr, Block>, it: Item, k: string) {
    net.lower(it.kind) == "domain" && CanonicalDomain(net, it.value) == k
  }

  predicate UnderURL<Addr, Block>(net: Net<Addr, Block>, it: Item, k: string) {
    net.lower(it.kind) == "url" && net.lower(net.trim(it.value)) == k
  }

  lemma {:induction false} BuildRepresents<Addr, Block(!new)>(net: Net<Addr, Block>, items: seq<Item>)
    ensures Represents(net, Build(net, items), items)
  {
    if items != [] {
      var n := |items| - 1;
      BuildRepresents(net, items[..n]);
      IndexedRepresents(net, Build(net, items[..n]), items[..n], items[n]);
      assert items[..n] + [items[n]] == items;
    }
  }

  lemma IndexedRepresents<Addr, Block(!new)>(net: Net<Addr, Block>, ix: Index<Block>, items: seq<Item>, it: Item)
    requires Represents(net, ix, items)
    ensures Represents(net, Indexed(net, ix, it), items + [it])
  {
    hide Indexed, IPsHeld, BlocksHeld, DomainsHeld, URLsHeld, ListHeld;
    IPsStep(net, ix, items, it);
    BlocksStep(net, ix, items, it);
    DomainsStep(net, ix, items, it);
    URLsStep(net, ix, items, it);
  }

  lemma IPsStep<Addr, Block>(net: Net<Addr, Block>, ix: Index<Block>, items: seq<Item>, it: Item)
    requires IPsHeld(net, ix.ips, items)
    ensures IPsHeld(net, Indexed(net, ix, it).ips, items + [it])
  {
    forall x, k ensures x in Bucket(Indexed(net, ix, it).ips, k) <==> x in items + [it] && k != "" && UnderIP(net, x, k) {
      IPStepAt(net, ix, items, it, x, k);
    }
  }

  lemma IPStepAt<Addr, Block>(net: Net<Addr, Block>, ix: Index<Block>, items: seq<Item>, it: Item, x: Item, k: string)
    requires IPsHeld(net, ix.ips, items)
    ensures x in Bucket(Indexed(net, ix, it).ips, k) <==> x in items + [it] && k != "" && UnderIP(net, x, k)
  {
    hide CanonicalIP, Put, Bucket;
    PutHolds(ix.ips, CanonicalIP(net, it.value), it);
    assert x in Bucket(ix.ips, k) <==> x in items && k != "" && UnderIP(net, x, k);
    assert x in items + [it] <==> x in items || x == it;
  }

  lemma BlocksStep<Addr, Block(!new)>(net: Net<Addr, Block>, ix: Index<Block>, items: seq<Item>, it: Item)
    requires BlocksHeld(net, ix.cidrs, items)
    ensures BlocksHeld(net, Indexed(net, ix, it).cidrs, items + [it])
  {
    var r := Indexed(net, ix, it).cidrs;
    forall b, x ensures (b, x) in r <==> x in items + [it] && UnderBlock(net, x, b) {
      assert (b, x) in ix.cidrs <==> x in items && UnderBlock(net, x, b);
    }
  }

  lemma DomainsStep<Addr, Block>(net: Net<Addr, Block>, ix: Index<Block>, items: seq<Item>, it: Item)
    requires DomainsHeld(net, ix.domains, items)
    ensures DomainsHeld(net, Indexed(net, ix, it).domains, items + [it])
  {
    forall x, k ensures x in Bucket(Indexed(net, ix, it).domains, k) <==> x in items + [it] && k != "" && UnderDomain(net, x, k) {
      DomainStepAt(net, ix, items, it, x, k);
    }
  }

  lemma DomainStepAt<Addr, Block>(net: Net<Addr, Block>, ix: Index<Block>, items: seq<Item>, it: Item, x: Item, k: string)
    requires DomainsHeld(net, ix.domains, items)
    ensures x in Bucket(Indexed(net, ix, it).domains, k) <==> x in items + [it] && k != "" && UnderDomain(net, x, k)
  {
    hide CanonicalDomain, Put, Bucket;
    PutHolds(ix.domains, CanonicalDomain(net, it.value), it);
    assert x in Bucket(ix.domains, k) <==> x in items && k != "" && UnderDomain(net, x, k);
    assert x in items + [it] <==> x in items || x == it;
  }

  lemma URLsStep<Addr, Block>(net: Net<Addr, Block>, ix: Index<Block>, items: seq<Item>, it: Item)
    requires URLsHeld(net, ix.urls, items) && ListHeld(net, ix.urlList, items)
    ensures URLsHeld(net, Indexed(net, ix, it).urls, items + [it])
    ensures ListHeld(net, Indexed(net, ix, it).urlList, items + [it])
  {
    forall x, k ensures x in Bucket(Indexed(net, ix, it).urls, k) <==> x in items + [it] && k != "" && UnderURL(net, x, k) {
      URLStepAt(net, ix, items, it, x, k);
    }
  }

  lemma URLStepAt<Addr, Block>(net: Net<Addr, Block>, ix: Index<Block>, items: seq<Item>, it: Item, x: Item, k: string)
    requires URLsHeld(net, ix.urls, items)
    ensures x in Bucket(Indexed(net, ix, it).urls, k) <==> x in items + [it] && k != "" && UnderURL(net, x, k)
  {
    hide Put, Bucket;
    PutHolds(ix.urls, net.lower(net.trim(it.value)), it);
    assert x in Bucket(ix.urls, k) <==> x in items && k != "" && UnderURL(net, x, k);
    assert x in items + [it] <==> x in items || x == it;
  }

  ghost predicate PutMembers(b: Buckets, k: string, it: Item) {
    forall x, j :: x in Bucket(Put(b, k, it), j) <==> x in Bucket(b, j) || (x == it && j == k)
  }

  lemma PutHolds(b: Buckets, k: string, it: Item)
    ensures PutMembers(b, k, it)
  {
  }

  class Matcher<!Addr, !Block(!new)> {
    const net: Net<Addr, Block>
    var index: Index<Block>
    var version: int

    constructor (net: Net<Addr, Block>)
      ensures this.net == net && index == Build(net, []) && version == 0
    {
      this.net := net;
      this.index := Index(map[], [], map[], map[], []);
      this.version := 0;
    }

    /** Builds an index of the listing on the side, then puts it in place with the given version. */
    method RebuildIndex(items: seq<Item>, v: int)
      modifies this
      ensures index == Build(net, items) && version == v
    {
      var next: Index<Block> := Index(map[], [], map[], map[], []);
      for i := 0 to |items|
        invariant next == Build(net, items[..i])
      {
        assert items[..i + 1][..i] == items[..i];
        var it := items[i];
        var kind := net.lower(it.kind);
        if kind == "ip" {
          var ip := CanonicalIP(net, it.value);
          if ip != "" {
            next := next.(ips := Put(next.ips, ip, it));
          }
        } else if kind == "cidr" {
          var block := net.parseCIDR(it.value);
          if block.Some? {
            next := next.(cidrs := next.cidrs + [(block.value, it)]);
          }
        } else if kind == "domain" {
          var domain := CanonicalDomain(net, it.value);
          if domain != "" {
            next := next.(domains := Put(next.domains, domain, it));
          }
        } else if kind == "url" {
          var value := net.lower(net.trim(it.value));
          if value != "" {
            next := next.(urls := Put(next.urls, value, it), urlList := next.urlList + [it]);
          }
        }
      }
      assert items[..|items|] == items;
      index, version := next, v;
    }

    /** The items whose address or block covers one of the addresses. */
    method MatchAddresses(ips: seq<string>, ghost items: seq<Item>) returns (found: seq<Item>)
      requires Represents(net, index, items)
      ensures forall x :: x in found <==> x in items && exists ip :: ip in ips && AddressMatches(net, x, ip)
    {
      found := [];
      for i := 0 to |ips|
        invariant forall x :: x in found <==> x in items && exists ip :: ip in ips[..i] && AddressMatches(net, x, ip)
      {
        var here := MatchAddress(ips[i], items);
        ghost var before := found;
        found := found + here;
        assert ips[..i + 1] == ips[..i] + [ips[i]];
        forall x ensures x in found <==> x in items && exists ip :: ip in ips[..i + 1] && AddressMatches(net, x, ip) {
          assert x in found <==> x in before || x in here;
          if x in here { assert ips[i] in ips[..i + 1]; }
        }
      }
      assert ips[..|ips|] == ips;
    }

    method MatchAddress(ip: string, ghost items: seq<Item>) returns (found: seq<Item>)
      requires Represents(net, index, items)
      ensures forall x :: x in found <==> x in items && AddressMatches(net, x, ip)
    {
      found := [];
      if !Eligible(net, ip) {
        return;
      }
      var addr := net.parseIP(ip).value;
      ghost var listed := Bucket(index.ips, CanonicalIP(net, ip));
      found := Bucket(index.ips, CanonicalIP(net, ip));
      for i := 0 to |index.cidrs|
        invariant forall x :: x in found <==> x in listed || InBlocks(net, index.cidrs[..i], x, addr)
      {
        BlocksGrow(net, index.cidrs, i, addr);
        if net.contains(index.cidrs[i].0, addr) {
          found := found + [index.cidrs[i].1];
        }
      }
      AddressFound(net, index, items, ip, found);
    }

    /** The items whose domain is the name or a parent of it. */
    method MatchDomain(name: string, ghost items: seq<Item>) returns (found: seq<Item>)
      requires Represents(net, index, items)
      ensures forall x :: x in found <==> x in items && DomainMatches(net, x, name)
    {
      found := [];
      var value := CanonicalDomain(net, name);
      if value == "" {
        return;
      }
      var todo := index.domains.Keys;
      while todo != {}
        invariant todo <= index.domains.Keys
        invariant forall x :: x in found <==>
          exists d :: d in index.domains && d !in todo && Covers(value, d) && x in index.domains[d]
        decreases todo
      {
        var domain :| domain in todo;
        todo := todo - {domain};
        if value == domain || HasSuffix(value, "." + domain) {
          found := found + index.domains[domain];
        }
      }
      DomainFound(net, index, items, name, found);
    }

    /** The items of the listing that are active and match some part of the packet. */
    method MatchPacket(p: Packet, now: int, ghost listing: seq<Item>, ghost items: Items) returns (hits: seq<Item>)
      requires Represents(net, index, listing) && Lists(listing, items) && Keyed(items)
      ensures !Duplicates(hits)
      ensures forall x :: x in hits <==> Scanned(net, items, p, now, x)
    {
      var byAddress := MatchAddresses(Addresses(p), listing);
      var byName := MatchNames(p, listing);
      var byURL := MatchURL(p.url, listing);
      var offered := byAddress + byName + byURL;
      hits := AddHits(offered, now);
      hide Represents, Hits, DomainMatches, URLMatches, AddressMatches, Active, Duplicates;
      assert forall x :: x in offered <==> x in listing && (x in byAddress || x in byName || x in byURL);
      ghost var seen :| Hits(hits, seen, offered, now);
      HitsExact(hits, seen, offered, now, items);
      forall x ensures x in hits <==> Scanned(net, items, p, now, x) {
        ScanMeans(net, listing, items, p, now, x);
      }
    }

    method MatchNames(p: Packet, ghost items: seq<Item>) returns (found: seq<Item>)
      requires Represents(net, index, items)
      ensures forall x :: x in found <==> x in items && NameMatches(net, x, p)
    {
      var q := MatchDomain(p.query, items);
      var h := MatchDomain(p.host, items);
      var s := MatchDomain(p.sni, items);
      hide Represents, DomainMatches;
      found := q + h + s;
      ghost var first := found;
      for i := 0 to |p.answers|
        invariant forall x :: x in found <==> x in first || (x in items && AnswerMatches(net, x, p.answers[..i]))
      {
        AnswersGrow(net, p.answers, i);
        if net.parseIP(p.answers[i]).None? {
          var a := MatchDomain(p.answers[i], items);
          found := found + a;
        }
      }
      assert p.answers[..|p.answers|] == p.answers;
    }

    method MatchURL(url: string, ghost items: seq<Item>) returns (found: seq<Item>)
      requires Represents(net, index, items)
      ensures forall x :: x in found <==> x in items && URLMatches(net, x, url)
    {
      found := [];
      if url == "" {
        return;
      }
      var lower := net.lower(url);
      ghost var listed := Bucket(index.urls, lower);
      found := Bucket(index.urls, lower);
      for i := 0 to |index.urlList|
        invariant forall x :: x in found <==> x in listed || (x in index.urlList[..i] && Contains(lower, net.lower(x.value)))
      {
        assert index.urlList[..i + 1] == index.urlList[..i] + [index.urlList[i]];
        if Contains(lower, net.lower(index.urlList[i].value)) {
          found := found + [index.urlList[i]];
        }
      }
      assert index.urlList[..|index.urlList|] == index.urlList;
    }
  }

  // ---------------------------------------------------------------- collecting hits

  function SeenKey(it: Item): string {
    if it.id == "" then it.kind + ":" + it.value else it.id
  }

  /** The hits so far: active items out of those offered, one for each key. */
  ghost predicate Hits(hits: seq<Item>, seen: set<string>, offered: seq<Item>, now: int) {
    && (forall x :: x in hits ==> x in offered && Active(x, now))
    && (forall i, j :: 0 <= i < j < |hits| ==> SeenKey(hits[i]) != SeenKey(hits[j]))
    && (forall k :: k in seen <==> exists x :: x in hits && SeenKey(x) == k)
    && (forall x :: x in offered && Active(x, now) ==> SeenKey(x) in seen)
  }

  /** The closure addHit over all that was found. */
  method AddHits(offered: seq<Item>, now: int) returns (hits: seq<Item>)
    ensures exists seen :: Hits(hits, seen, offered, now)
  {
    var seen: set<string> := {};
    hits := [];
    for i := 0 to |offered|
      invariant Hits(hits, seen, offered[..i], now)
    {
      var it := offered[i];
      HitStep(hits, seen, offered[..i], it, now);
      assert offered[..i + 1] == offered[..i] + [it];
      if SeenKey(it) !in seen && Active(it, now) {
        seen := seen + {SeenKey(it)};
        hits := hits + [it];
      }
    }
    assert offered[..|offered|] == offered;
  }

  lemma HitStep(hits: seq<Item>, seen: set<string>, offered: seq<Item>, it: Item, now: int)
    requires Hits(hits, seen, offered, now)
    ensures if SeenKey(it) !in seen && Active(it, now) then Hits(hits + [it], seen + {SeenKey(it)}, offered + [it], now)
            else Hits(hits, seen, offered + [it], now)
  {
    hide SeenKey, Active;
    if SeenKey(it) !in seen && Active(it, now) {
      var hits', seen' := hits + [it], seen + {SeenKey(it)};
      forall k ensures k in seen' <==> exists x :: x in hits' && SeenKey(x) == k {
        if k in seen {
          var x :| x in hits && SeenKey(x) == k;
          assert x in hits';
        }
        if k == SeenKey(it) { assert it in hits'; }
      }
      forall i | 0 <= i < |hits| ensures SeenKey(hits[i]) != SeenKey(it) {
        assert SeenKey(hits[i]) in seen;
      }
    }
  }

  /** What a listing of the store gives: its items, each once, in any order. */
  ghost predicate Lists(listing: seq<Item>, items: Items) {
    && (forall i :: 0 <= i < |listing| ==> listing[i].id in items && listing[i] == items[listing[i].id])
    && (forall i, j :: 0 <= i < j < |listing| ==> listing[i].id != listing[j].id)
    && (forall id :: id in items ==> items[id] in listing)
  }

  ghost predicate Duplicates(hits: seq<Item>) {
    exists i, j :: 0 <= i < j < |hits| && hits[i] == hits[j]
  }

  /** With ids that tell items apart, the hits are all active items offered, none twice. */
  lemma HitsExact(hits: seq<Item>, seen: set<string>, offered: seq<Item>, now: int, items: Items)
    requires Hits(hits, seen, offered, now) && Keyed(items) && forall x :: x in offered ==> x.id in items && items[x.id] == x
    ensures !Duplicates(hits) && forall x :: x in hits <==> x in offered && Active(x, now)
  {
    forall x | x in offered && Active(x, now) ensures x in hits {
      var y :| y in hits && SeenKey(y) == SeenKey(x);
      assert x.id != "" && y.id != "";
    }
  }

  lemma ScanMeans<Addr, Block>(net: Net<Addr, Block>, listing: seq<Item>, items: Items, p: Packet, now: int, x: Item)
    requires Lists(listing, items) && Keyed(items)
    ensures Scanned(net, items, p, now, x) <==> x in listing && Active(x, now) && Matches(net, x, p)
  {
  }

  lemma AnswersGrow<Addr, Block>(net: Net<Addr, Block>, answers: seq<string>, i: nat)
    requires i < |answers|
    ensures forall x :: AnswerMatches(net, x, answers[..i + 1]) <==>
      AnswerMatches(net, x, answers[..i]) || (net.parseIP(answers[i]).None? && DomainMatches(net, x, answers[i]))
  {
    hide DomainMatches;
    assert answers[..i + 1] == answers[..i] + [answers[i]];
  }

  predicate Covers(value: string, domain: string) {
    value == domain || HasSuffix(value, "." + domain)
  }

  ghost predicate InBlocks<Addr, Block>(net: Net<Addr, Block>, cidrs: seq<(Block, Item)>, it: Item, addr: Addr) {
    exists j :: 0 <= j < |cidrs| && cidrs[j].1 == it && net.contains(cidrs[j].0, addr)
  }

  lemma BlocksGrow<Addr, Block>(net: Net<Addr, Block>, cidrs: seq<(Block, Item)>, i: nat, addr: Addr)
    requires i < |cidrs|
    ensures forall x :: InBlocks(net, cidrs[..i + 1], x, addr) <==>
      InBlocks(net, cidrs[..i], x, addr) || (x == cidrs[i].1 && net.contains(cidrs[i].0, addr))
  {
    assert cidrs[..i + 1] == cidrs[..i] + [cidrs[i]];
    forall x | InBlocks(net, cidrs[..i], x, addr) ensures InBlocks(net, cidrs[..i + 1], x, addr) {
      var j :| 0 <= j < i && cidrs[..i][j].1 == x && net.contains(cidrs[..i][j].0, addr);
      assert cidrs[..i + 1][j] == cidrs[..i][j];
    }
    assert cidrs[..i + 1][i] == cidrs[i];
  }

  lemma AddressFound<Addr, Block(!new)>(net: Net<Addr, Block>, ix: Index<Block>, items: seq<Item>, ip: string, found: seq<Item>)
    requires Represents(net, ix, items) && Eligible(net, ip)
    requires forall x :: x in found <==>
      x in Bucket(ix.ips, CanonicalIP(net, ip)) || InBlocks(net, ix.cidrs[..|ix.cidrs|], x, net.parseIP(ip).value)
    ensures forall x :: x in found <==> x in items && AddressMatches(net, x, ip)
  {
    hide CanonicalIP, Bucket;
    assert ix.cidrs[..|ix.cidrs|] == ix.cidrs;
    forall x ensures InBlocks(net, ix.cidrs, x, net.parseIP(ip).value) <==> x in items && CIDRMatches(net, x, ip) {
      if InBlocks(net, ix.cidrs, x, net.parseIP(ip).value) {
        var j :| 0 <= j < |ix.cidrs| && ix.cidrs[j].1 == x && net.contains(ix.cidrs[j].0, net.parseIP(ip).value);
        assert (ix.cidrs[j].0, x) in ix.cidrs;
      }
      if x in items && CIDRMatches(net, x, ip) {
        assert (net.parseCIDR(x.value).value, x) in ix.cidrs;
      }
    }
    forall x ensures x in Bucket(ix.ips, CanonicalIP(net, ip)) <==> x in items && IPMatches(net, x, ip) {
      assert x in Bucket(ix.ips, CanonicalIP(net, ip)) <==> x in items && CanonicalIP(net, ip) != "" && UnderIP(net, x, CanonicalIP(net, ip));
    }
    hide Represents, InBlocks, IPMatches, CIDRMatches;
  }

  lemma DomainFound<Addr, Block(!new)>(net: Net<Addr, Block>, ix: Index<Block>, items: seq<Item>, name: string, found: seq<Item>)
    requires Represents(net, ix, items) && CanonicalDomain(net, name) != ""
    requires forall x :: x in found <==>
      exists d :: d in ix.domains && Covers(CanonicalDomain(net, name), d) && x in ix.domains[d]
    ensures forall x :: x in found <==> x in items && DomainMatches(net, x, name)
  {
    hide CanonicalDomain, HasSuffix;
    forall x ensures x in found <==> x in items && DomainMatches(net, x, name) {
      if x in found {
        var d :| d in ix.domains && Covers(CanonicalDomain(net, name), d) && x in ix.domains[d];
        assert x in Bucket(ix.domains, d);
      }
      if x in items && DomainMatches(net, x, name) {
        assert x in Bucket(ix.domains, CanonicalDomain(net, x.value));
      }
    }
  }
}
