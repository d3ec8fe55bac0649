// The cache of autonomous systems and the range index that is filled from it on demand.
module AsnCache {
  import opened Wrappers
  import opened IpNets
  import opened IpBytes

  type Addr = seq<byte>

  predicate Covers(n: IPNet, ip: Addr) {
    WellFormed(n) && IsAddress(ip) && Contains(n, ip)
  }

  class ASNRequest {
    var asn: int
    var cc: string
    var prefix: string
    var registry: string
    var allocationDate: int
    var description: string
    var netblocks: seq<string>

    constructor (asn: int, prefix: string)
      ensures this.asn == asn && this.prefix == prefix && netblocks == []
      ensures cc == registry == description == "" && allocationDate == 0
    {
      this.asn, this.prefix := asn, prefix;
      cc, registry, allocationDate, description, netblocks := "", "", 0, "", [];
    }
  }

  // The blocks for special use, in the order they are searched.
  const RESERVED_CIDRS: seq<IPNet> := [
    IPNet([192, 168, 0, 0], 16), IPNet([172, 16, 0, 0], 12), IPNet([10, 0, 0, 0], 8), IPNet([127, 0, 0, 0], 8),
    IPNet([224, 0, 0, 0], 4), IPNet([240, 0, 0, 0], 4), IPNet([100, 64, 0, 0], 10), IPNet([198, 18, 0, 0], 15),
    IPNet([169, 254, 0, 0], 16), IPNet([192, 88, 99, 0], 24), IPNet([192, 0, 0, 0], 24), IPNet([192, 0, 2, 0], 24),
    IPNet([192, 94, 77, 0], 24), IPNet([192, 94, 78, 0], 24), IPNet([192, 52, 193, 0], 24),
    IPNet([192, 12, 109, 0], 24), IPNet([192, 31, 196, 0], 24), IPNet([192, 0, 0, 0], 29)
  ]

  // The address lies in one of them.
  ghost predicate Reserved(ip: Addr) {
    exists b :: b in RESERVED_CIDRS && Covers(b, ip)
  }

  // What AddrSearch hands out.
  datatype Answer = Answer(asn: int, cc: string, prefix: IPNet, netblocks: set<string>, description: string)

  // Old entries first, each new one that was not there yet behind them.
  function Merged(known: seq<string>, more: seq<string>): seq<string>
    decreases |more|
  {
    if more == [] then known
    else Merged(if more[0] in known then known else known + [more[0]], more[1..])
  }

  lemma {:induction false} MergedHas(known: seq<string>, more: seq<string>)
    ensures forall s :: s in Merged(known, more) <==> s in known || s in more
    ensures known <= Merged(known, more)
    decreases |more|
  {
    if more != [] {
      var next := if more[0] in known then known else known + [more[0]];
      MergedHas(next, more[1..]);
      assert more == [more[0]] + more[1..];
    }
  }

  lemma {:induction false} MergedDistinct(known: seq<string>, more: seq<string>)
    requires Distinct(known)
    ensures Distinct(Merged(known, more))
    decreases |more|
  {
    if more != [] {
      MergedDistinct(if more[0] in known then known else known + [more[0]], more[1..]);
    }
  }

  lemma MergedSnoc(known: seq<string>, more: seq<string>, s: string)
    ensures Merged(known, more + [s]) ==
            var m := Merged(known, more); if s in m then m else m + [s]
    decreases |more|
  {
    if more == [] {
      assert [s][1..] == [];
    } else {
      assert (more + [s])[1..] == more[1..] + [s] && (more + [s])[0] == more[0];
      MergedSnoc(if more[0] in known then known else known + [more[0]], more[1..], s);
    }
  }

  // The netblocks an update brings: a known record always gets the prefix too.
  function Given(known: bool, prefix: string, netblocks: seq<string>): seq<string> {
    if known then [prefix] + netblocks else if netblocks == [] then [prefix] else netblocks
  }

  lemma GivenHas(known: bool, prefix: string, netblocks: seq<string>)
    ensures forall t :: t in Given(known, prefix, netblocks) <==>
                          t in netblocks || (t == prefix && (known || netblocks == []))
  {}

  lemma FactsAre(a: string, b: string, d: int, e: int)
    ensures (a != "" ==> Filled(a, b) == a) && (a == "" ==> Filled(a, b) == b)
    ensures (d != 0 ==> FilledDate(d, e) == d) && (d == 0 ==> FilledDate(d, e) == e)
    ensures (|a| < |b| ==> Longer(a, b) == b) && (|a| >= |b| ==> Longer(a, b) == a)
  {}

  function Filled(text: string, more: string): string {
    if text == "" then more else text
  }

  function FilledDate(date: int, more: int): int {
    if date == 0 then more else date
  }

  // The second text only when it is longer.
  function Longer(a: string, b: string): string {
    if |a| < |b| then b else a
  }

  // 1 when the first prefix is longer, -1 when the second is.
  function CompareCIDRSizes(first: IPNet, second: IPNet): (r: int)
    ensures (r == 1 <==> first.ones > second.ones) && (r == -1 <==> first.ones < second.ones) && -1 <= r <= 1
  {
    if first.ones > second.ones then 1 else if second.ones > first.ones then -1 else 0
  }

  method Any<T>(s: set<T>) returns (x: T)
    requires s != {}
    ensures x in s
  {
    x :| x in s;
  }

  // One of the texts is that of n.
  ghost predicate Listed(parse: string -> Option<IPNet>, texts: seq<string>, n: IPNet) {
    exists s <- texts :: parse(s) == Some(n)
  }

  lemma ListedStays(parse: string -> Option<IPNet>, texts: seq<string>, more: seq<string>)
    requires forall s :: s in texts ==> s in more
    ensures forall n :: Listed(parse, texts, n) ==> Listed(parse, more, n)
  {}

  // The usable netblocks among texts that cover ip.
  predicate Usable(n: Option<IPNet>, ip: Addr) {
    n.Some? && n.value.ones != 0 && Covers(n.value, ip)
  }

  function Matching(parse: string -> Option<IPNet>, texts: seq<string>, ip: Addr): set<IPNet> {
    set s | s in texts && Usable(parse(s), ip) :: parse(s).value
  }

  lemma MatchingGrows(parse: string -> Option<IPNet>, texts: seq<string>, i: nat, ip: Addr)
    requires i < |texts|
    ensures Matching(parse, texts[..i + 1], ip) ==
            Matching(parse, texts[..i], ip) + if Usable(parse(texts[i]), ip) then {parse(texts[i]).value} else {}
  {
    hide Usable;
    assert texts[..i + 1] == texts[..i] + [texts[i]];
  }

  ghost function Pairs(ns: set<IPNet>, r: ASNRequest): set<(IPNet, ASNRequest)> {
    set n | n in ns :: (n, r)
  }

  // best is one of the matches met, and none of them is longer.
  ghost predicate BestOf(best: Option<(IPNet, ASNRequest)>, met: set<(IPNet, ASNRequest)>) {
    match best
    case None => met == {}
    case Some(b) => IsBest(b, met)
  }

  ghost predicate IsBest(b: (IPNet, ASNRequest), met: set<(IPNet, ASNRequest)>) {
    b in met && forall m :: m in met ==> m.0.ones <= b.0.ones
  }

  lemma OneMoreMatch(best: Option<(IPNet, ASNRequest)>, met: set<(IPNet, ASNRequest)>, ns: set<IPNet>,
                     n: IPNet, r: ASNRequest)
    requires BestOf(best, met + Pairs(ns, r))
    ensures BestOf(if best.Some? && best.value.0.ones > n.ones then best else Some((n, r)), met + Pairs(ns + {n}, r))
  {
    assert Pairs(ns + {n}, r) == Pairs(ns, r) + {(n, r)};
  }

  // No usable netblock among texts that covers ip is longer than n.
  ghost predicate NoneLonger(parse: string -> Option<IPNet>, ip: Addr, n: IPNet, texts: seq<string>) {
    forall t :: t in texts && Usable(parse(t), ip) ==> parse(t).value.ones <= n.ones
  }

  ghost predicate NoneLongerIn(parse: string -> Option<IPNet>, ip: Addr, n: IPNet, texts: map<int, seq<string>>) {
    forall k :: k in texts ==> NoneLonger(parse, ip, n, texts[k])
  }

  // Texts are given to one entry.
  lemma NoneLongerGrows(parse: string -> Option<IPNet>, ip: Addr, n: IPNet, was: map<int, seq<string>>, k: int,
                        given: seq<string>, texts: seq<string>)
    requires forall t :: t in texts <==> (k in was && t in was[k]) || t in given
    ensures NoneLongerIn(parse, ip, n, was[k := texts]) <==>
            NoneLongerIn(parse, ip, n, was) && NoneLonger(parse, ip, n, given)
  {
    hide Usable;
    if NoneLongerIn(parse, ip, n, was[k := texts]) {
      assert NoneLonger(parse, ip, n, was[k := texts][k]);
      forall j | j in was ensures NoneLonger(parse, ip, n, was[j]) {
        if j != k { assert was[k := texts][j] == was[j]; }
      }
    }
  }

  class ASNCache {
    // How texts parse and print.
    const parse: string -> Option<IPNet>
    const show: IPNet -> string
    var cache: map<int, ASNRequest>
    var ranger: map<IPNet, ASNRequest>

    constructor (parse: string -> Option<IPNet>, show: IPNet -> string)
      ensures Valid() && cache == map[] && ranger == map[]
      ensures this.parse == parse && this.show == show
    {
      this.parse, this.show := parse, show;
      cache, ranger := map[], map[];
    }

    // A usable netblock of a record: one that parses and is not the whole space.
    ghost predicate Netblock(r: ASNRequest, n: IPNet)
      reads r
    {
      n.ones != 0 && Listed(parse, r.netblocks, n)
    }

    // Records are filed under their number, and every index entry is a usable
    // netblock of the cached record it leads to.
    ghost predicate Valid()
      reads this, cache.Values, ranger.Values
    {
      && (forall k :: k in cache ==> cache[k].asn == k)
      && (forall n :: n in ranger ==> Indexed(n))
    }

    ghost predicate Indexed(n: IPNet)
      requires n in ranger
      reads this, ranger[n]
    {
      var r := ranger[n];
      r.asn in cache && cache[r.asn] == r && Netblock(r, n)
    }

    // Records are never taken out and never lose a netblock, so the index stays right.
    // A record that is there gains what it lacks and takes the longer description. The
    // index hides a longer netblock afterwards where it did before, and where one of the
    // given netblocks is longer than a covering entry.
    method Update(req: ASNRequest)
      requires Valid()
      modifies this`cache, req`netblocks, cache.Values
      ensures Valid() && ranger == old(ranger) && req.asn == old(req.asn)
      ensures cache == if req.asn in old(cache) then old(cache) else old(cache)[req.asn := req]
      ensures req.asn !in old(cache) ==> req.netblocks == Given(false, old(req.prefix), old(req.netblocks))
      ensures req.asn in old(cache) ==>
                var r := cache[req.asn];
                && r.netblocks ==
                   Merged(old(cache[req.asn].netblocks), Given(true, old(req.prefix), old(req.netblocks)))
                && r.cc == Filled(old(cache[req.asn].cc), old(req.cc))
                && r.registry == Filled(old(cache[req.asn].registry), old(req.registry))
                && r.allocationDate == FilledDate(old(cache[req.asn].allocationDate), old(req.allocationDate))
                && r.description == Longer(old(cache[req.asn].description), old(req.description))
      ensures forall k :: k in old(cache) && k != req.asn ==> unchanged(cache[k])
      // The record holds what it held, what was given, and the prefix of the request when
      // the record was known or no netblocks were given: nothing else.
      ensures forall t :: t in cache[req.asn].netblocks <==>
                            || old(req.asn in cache && t in cache[req.asn].netblocks)
                            || t in old(req.netblocks)
                            || (t == old(req.prefix) && (req.asn in old(cache) || old(req.netblocks) == []))
      // A fact it had stays, one it lacked is taken from the request.
      ensures req.asn in old(cache) ==>
                var r := cache[req.asn];
                && (old(cache[req.asn].cc) != "" ==> r.cc == old(cache[req.asn].cc))
                && (old(cache[req.asn].cc) == "" ==> r.cc == old(req.cc))
                && (old(cache[req.asn].registry) != "" ==> r.registry == old(cache[req.asn].registry))
                && (old(cache[req.asn].registry) == "" ==> r.registry == old(req.registry))
                && (old(cache[req.asn].allocationDate) != 0 ==> r.allocationDate == old(cache[req.asn].allocationDate))
                && (old(cache[req.asn].allocationDate) == 0 ==> r.allocationDate == old(req.allocationDate))
                && (|old(cache[req.asn].description)| < |old(req.description)| ==>
                      r.description == old(req.description))
                && (|old(cache[req.asn].description)| >= |old(req.description)| ==>
                      r.description == old(cache[req.asn].description))
      ensures req.asn !in old(cache) ==>
                && req.cc == old(req.cc) && req.registry == old(req.registry) && req.prefix == old(req.prefix)
                && req.allocationDate == old(req.allocationDate) && req.description == old(req.description)
      ensures var given := Given(req.asn in old(cache), old(req.prefix), old(req.netblocks));
              forall x :: IndexIsLongest(x) <==>
                            && old(IndexIsLongest(x))
                            && forall n :: n in ranger && Covers(n, x) ==> NoneLonger(parse, x, n, given)
    {
      hide Covers, Merged, Listed, NoneLonger, NoneLongerIn, Filled, FilledDate, Longer, Given;
      ghost var given := Given(req.asn in cache, req.prefix, req.netblocks);
      ghost var was := AllTexts();
      forall x, n ensures LongestFor(x, n) <==> NoneLongerIn(parse, x, n, was) { TextsTell(x, n); }
      if req.asn in cache {
        ghost var r := cache[req.asn];
        MergedHas(r.netblocks, given);
        FactsAre(r.cc, req.cc, r.allocationDate, req.allocationDate);
        FactsAre(r.registry, req.registry, 0, 0);
        FactsAre(r.description, req.description, 0, 0);
        MergeInto(cache[req.asn], req);
      } else {
        Store(req);
      }
      ghost var texts := cache[req.asn].netblocks;
      GivenHas(req.asn in old(cache), old(req.prefix), old(req.netblocks));
      forall k | k in cache && k != req.asn ensures k in was && cache[k].netblocks == was[k] {}
      assert AllTexts() == was[req.asn := texts];
      forall x, n
        ensures LongestFor(x, n) <==> NoneLongerIn(parse, x, n, was) && NoneLonger(parse, x, n, given)
      {
        TextsTell(x, n);
        NoneLongerGrows(parse, x, n, was, req.asn, given, texts);
      }
    }

    ghost function AllTexts(): map<int, seq<string>>
      reads this`cache, cache.Values
    {
      map k | k in cache :: cache[k].netblocks
    }

    lemma TextsTell(ip: Addr, n: IPNet)
      ensures LongestFor(ip, n) <==> NoneLongerIn(parse, ip, n, AllTexts())
    {
      hide NoneLonger;
      forall k | k in cache ensures AllTexts()[k] == cache[k].netblocks {}
    }

    method Store(req: ASNRequest)
      requires Valid() && req.asn !in cache
      modifies this`cache, req`netblocks
      ensures Valid() && ranger == old(ranger) && cache == old(cache)[req.asn := req]
      ensures req.netblocks == Given(false, old(req.prefix), old(req.netblocks))
    {
      assert forall n :: n in ranger ==> ranger[n] != req;
      cache := cache[req.asn := req];
      if |req.netblocks| == 0 { req.netblocks := [req.prefix]; }
      forall n | n in ranger ensures Indexed(n) { assert old(Indexed(n)); }
    }

    // Additional information for a record that is there already.
    method MergeInto(record: ASNRequest, req: ASNRequest)
      requires Valid() && req.asn in cache && cache[req.asn] == record
      modifies record
      ensures Valid() && req.asn == old(req.asn) == record.asn
      ensures record.netblocks == Merged(old(record.netblocks), Given(true, old(req.prefix), old(req.netblocks)))
      ensures record.cc == Filled(old(record.cc), old(req.cc))
      ensures record.registry == Filled(old(record.registry), old(req.registry))
      ensures record.allocationDate == FilledDate(old(record.allocationDate), old(req.allocationDate))
      ensures record.description == Longer(old(record.description), old(req.description))
    {
      hide Merged, Listed;
      var more := [req.prefix] + req.netblocks;
      FillIn(record, req);
      MergedHas(record.netblocks, more);
      AddNetblocks(record, more);
      ListedStays(parse, old(record.netblocks), record.netblocks);
      forall n | n in ranger ensures Indexed(n) { assert old(Indexed(n)); }
    }

    // The facts a record lacks.
    method FillIn(record: ASNRequest, req: ASNRequest)
      modifies record`cc, record`registry, record`allocationDate, record`description
      ensures record.cc == Filled(old(record.cc), old(req.cc))
      ensures record.registry == Filled(old(record.registry), old(req.registry))
      ensures record.allocationDate == FilledDate(old(record.allocationDate), old(req.allocationDate))
      ensures record.description == Longer(old(record.description), old(req.description))
    {
      if record.cc == "" && req.cc != "" { record.cc := req.cc; }
      if record.registry == "" && req.registry != "" { record.registry := req.registry; }
      if record.allocationDate == 0 && req.allocationDate != 0 { record.allocationDate := req.allocationDate; }
      if |record.description| < |req.description| { record.description := req.description; }
    }

    method AddNetblocks(record: ASNRequest, cidrs: seq<string>)
      modifies record`netblocks
      ensures record.netblocks == Merged(old(record.netblocks), cidrs)
    {
      for i := 0 to |cidrs|
        invariant record.netblocks == Merged(old(record.netblocks), cidrs[..i])
      {
        var known := false;
        for j := 0 to |record.netblocks|
          invariant !known && forall k :: 0 <= k < j ==> record.netblocks[k] != cidrs[i]
        {
          if record.netblocks[j] == cidrs[i] {
            known := true;
            break;
          }
        }
        MergedSnoc(old(record.netblocks), cidrs[..i], cidrs[i]);
        assert cidrs[..i + 1] == cidrs[..i] + [cidrs[i]];
        if !known { record.netblocks := record.netblocks + [cidrs[i]]; }
      }
      assert cidrs[..|cidrs|] == cidrs;
    }

    // Any entry that covers the address; the index does not say which comes first.
    method SearchRangerData(ip: Addr) returns (n: Option<IPNet>)
      ensures n.Some? ==> n.value in ranger && Covers(n.value, ip)
      ensures n.None? ==> forall m :: m in ranger ==> !Covers(m, ip)
    {
      hide Covers;
      var todo := ranger.Keys;
      while todo != {}
        invariant todo <= ranger.Keys
        invariant forall m :: m in ranger && m !in todo ==> !Covers(m, ip)
        decreases todo
      {
        var m :| m in todo;
        if Covers(m, ip) { return Some(m); }
        todo := todo - {m};
      }
      n := None;
    }

    // All usable netblocks that cover ip, with their records.
    ghost function Matches(ks: set<int>, ip: Addr): set<(IPNet, ASNRequest)>
      requires ks <= cache.Keys
      reads this`cache, cache.Values
    {
      set k, n | k in ks && n in Matching(parse, cache[k].netblocks, ip) :: (n, cache[k])
    }

    lemma MatchesGrow(ks: set<int>, k: int, ip: Addr)
      requires ks <= cache.Keys && k in cache
      ensures Matches(ks + {k}, ip) == Matches(ks, ip) + Pairs(Matching(parse, cache[k].netblocks, ip), cache[k])
    {
      hide Matching;
    }

    lemma MatchOf(k: int, text: string, ip: Addr)
      requires k in cache && text in cache[k].netblocks && Usable(parse(text), ip)
      ensures (parse(text).value, cache[k]) in Matches(cache.Keys, ip)
    {
      hide Covers;
      assert parse(text).value in Matching(parse, cache[k].netblocks, ip);
    }

    method BestMatch(ip: Addr) returns (best: Option<(IPNet, ASNRequest)>)
      ensures BestOf(best, Matches(cache.Keys, ip))
    {
      hide Matching, IsBest, Pairs;
      best := None;
      var todo := cache.Keys;
      ghost var done: set<int> := {};
      while todo != {}
        invariant todo + done == cache.Keys && todo !! done
        invariant BestOf(best, Matches(done, ip))
        decreases todo
      {
        var k := Any(todo);
        best := BestWith(cache[k], ip, best, Matches(done, ip));
        MatchesGrow(done, k, ip);
        todo, done := todo - {k}, done + {k};
      }
      assert done == cache.Keys;
    }

    // The netblocks of one record.
    method BestWith(record: ASNRequest, ip: Addr, best0: Option<(IPNet, ASNRequest)>,
                    ghost met: set<(IPNet, ASNRequest)>)
      returns (best: Option<(IPNet, ASNRequest)>)
      requires BestOf(best0, met)
      ensures BestOf(best, met + Pairs(Matching(parse, record.netblocks, ip), record))
    {
      best := best0;
      var texts := record.netblocks;
      assert Matching(parse, texts[..0], ip) == {};
      assert met + Pairs({}, record) == met;
      for i := 0 to |texts|
        invariant BestOf(best, met + Pairs(Matching(parse, texts[..i], ip), record))
      {
        hide Covers, Matching, BestOf, Pairs;
        ghost var before := Matching(parse, texts[..i], ip);
        var ipnet := parse(texts[i]);
        MatchingGrows(parse, texts, i, ip);
        assert before + {} == before;
        if ipnet.None? { continue; }
        if ipnet.value.ones == 0 { continue; }
        if Covers(ipnet.value, ip) {
          OneMoreMatch(best, met, before, ipnet.value, record);
          if best.Some? && CompareCIDRSizes(best.value.0, ipnet.value) == 1 { continue; }
          best := Some((ipnet.value, record));
        }
      }
      assert texts[..|texts|] == texts;
    }

    // Files the longest matching netblock of all records, if there is one.
    method RawData2Ranger(ip: Addr)
      requires Valid()
      modifies this`ranger
      ensures Valid()
      ensures var met := Matches(cache.Keys, ip);
              if met == {} then ranger == old(ranger)
              else exists b :: IsBest(b, met) && ranger == old(ranger)[b.0 := b.1]
    {
      var best := BestMatch(ip);
      if best.Some? {
        var (n, r) := best.value;
        Owned(n, r, ip);
        ranger := ranger[n := r];
        forall m | m in ranger ensures Indexed(m) { if m != n { assert old(Indexed(m)); } }
      }
    }

    lemma Owned(n: IPNet, r: ASNRequest, ip: Addr)
      requires Valid() && (n, r) in Matches(cache.Keys, ip)
      ensures r.asn in cache && cache[r.asn] == r && Netblock(r, n) && Covers(n, ip)
    {
      hide Covers;
    }

    // The first reserved block that holds the address.
    method IsReservedAddress(ip: Addr) returns (n: Option<IPNet>)
      ensures n.Some? <==> Reserved(ip)
      ensures n.Some? ==> n.value in RESERVED_CIDRS && Covers(n.value, ip)
    {
      hide Covers, RESERVED_CIDRS;
      for i := 0 to |RESERVED_CIDRS|
        invariant forall j :: 0 <= j < i ==> !Covers(RESERVED_CIDRS[j], ip)
      {
        if Covers(RESERVED_CIDRS[i], ip) { return Some(RESERVED_CIDRS[i]); }
      }
      n := None;
    }

    ghost predicate InIndex(ip: Addr)
      reads this`ranger
    {
      exists n :: n in ranger && Covers(n, ip)
    }

    // No cached netblock that covers ip is longer than n.
    ghost predicate LongestFor(ip: Addr, n: IPNet)
      reads this`cache, cache.Values
    {
      forall k :: k in cache ==> NoneLonger(parse, ip, n, cache[k].netblocks)
    }

    lemma LongestMatches(ip: Addr, n: IPNet)
      ensures LongestFor(ip, n) <==> forall m :: m in Matches(cache.Keys, ip) ==> m.0.ones <= n.ones
    {
      hide Covers;
      if forall m :: m in Matches(cache.Keys, ip) ==> m.0.ones <= n.ones {
        forall k, t | k in cache && t in cache[k].netblocks && Usable(parse(t), ip)
          ensures parse(t).value.ones <= n.ones
        {
          MatchOf(k, t, ip);
        }
      }
    }

    // The prefixes a search may answer with: any covering entry of the index, and only
    // without one a longest match of the records.
    ghost predicate MayAnswer(ip: Addr, n: IPNet)
      reads this, cache.Values
    {
      if InIndex(ip) then n in ranger && Covers(n, ip)
      else exists m :: m in Matches(cache.Keys, ip) && IsBest(m, Matches(cache.Keys, ip)) && m.0 == n
    }

    // Every covering entry is as long as the longest cached match. An entry filed for
    // another address need not be, nor one filed before a longer netblock was cached:
    // AddrSearch and Update say what they do to this.
    ghost predicate IndexIsLongest(ip: Addr)
      reads this, cache.Values
    {
      HidesNothing(ranger.Keys, ip)
    }

    ghost predicate HidesNothing(entries: set<IPNet>, ip: Addr)
      reads this`cache, cache.Values
    {
      forall n :: n in entries && Covers(n, ip) ==> LongestFor(ip, n)
    }

    lemma OneMoreEntry(entries: set<IPNet>, p: IPNet)
      ensures forall x :: HidesNothing(entries + {p}, x) <==>
                            HidesNothing(entries, x) && (Covers(p, x) ==> LongestFor(x, p))
    {
      hide Covers, LongestFor;
    }

    // A search is sure to answer with a longest match exactly then.
    lemma LongestIff(ip: Addr)
      ensures (forall n :: MayAnswer(ip, n) ==> LongestFor(ip, n)) <==> IndexIsLongest(ip)
    {
      hide Covers, Matches, LongestFor;
      forall n ensures LongestFor(ip, n) <==> forall m :: m in Matches(cache.Keys, ip) ==> m.0.ones <= n.ones {
        LongestMatches(ip, n);
      }
      if forall n :: MayAnswer(ip, n) ==> LongestFor(ip, n) {
        forall n | n in ranger && Covers(n, ip) ensures LongestFor(ip, n) {
          assert InIndex(ip);
          assert MayAnswer(ip, n);
        }
      }
    }

    // Whatever the index holds, an answer's prefix covers the address and is a usable
    // netblock of the record it names. Without a covering entry the search falls back on
    // the records: the longest match, which is filed, or no answer exactly when none of
    // them matches. A prefix that is filed must be the longest for every address it covers,
    // or else hides longer netblocks from them; nothing else changes what is hidden.
    method AddrSearch(addr: Option<Addr>) returns (a: Option<Answer>)
      requires Valid()
      modifies this`ranger
      ensures Valid()
      ensures addr.None? ==> a.None?
      ensures addr.Some? && Reserved(addr.value) ==> a.Some? && a.value.asn == 0 && a.value.prefix in RESERVED_CIDRS
      ensures a.Some? ==> addr.Some? && Covers(a.value.prefix, addr.value)
      ensures addr.Some? && !Reserved(addr.value) && a.Some? ==>
                && a.value.asn in cache && Netblock(cache[a.value.asn], a.value.prefix)
                && a.value.prefix in ranger && ranger[a.value.prefix] == cache[a.value.asn]
                && a.value.netblocks == {show(a.value.prefix)} + Elems(cache[a.value.asn].netblocks)
                && a.value.cc == cache[a.value.asn].cc && a.value.description == cache[a.value.asn].description
                && old(MayAnswer(addr.value, a.value.prefix))
      ensures addr.Some? && !Reserved(addr.value) ==>
                (a.None? <==> !old(InIndex(addr.value)) && Matches(cache.Keys, addr.value) == {})
      ensures addr.Some? && !Reserved(addr.value) && a.Some? && !old(InIndex(addr.value)) ==>
                && IsBest((a.value.prefix, cache[a.value.asn]), Matches(cache.Keys, addr.value))
                && ranger == old(ranger)[a.value.prefix := cache[a.value.asn]]
      ensures a.None? || Reserved(addr.value) || old(InIndex(addr.value)) ==> ranger == old(ranger)
      ensures var filed := a.Some? && !Reserved(addr.value) && !old(InIndex(addr.value));
              forall x :: IndexIsLongest(x) <==>
                            && old(IndexIsLongest(x))
                            && (filed && Covers(a.value.prefix, x) ==> LongestFor(x, a.value.prefix))
    {
      hide Covers, LongestFor, Elems, Matches;
      a := None;
      if addr.None? { return; }
      var ip := addr.value;
      var block := IsReservedAddress(ip);
      if block.Some? { return Some(Answer(0, "", block.value, {}, "Reserved Network Address Blocks")); }
      var entry := FindEntry(ip);
      if entry.None? { return; }
      var n := entry.value;
      var r := ranger[n];
      assert Indexed(n);
      a := Some(Answer(r.asn, r.cc, n, {show(n)} + Elems(r.netblocks), r.description));
    }

    // Right after an update, an address outside the reserved blocks that the prefix it
    // brought covers is never without an answer.
    method UpdateAndSearch(req: ASNRequest, ip: Addr) returns (a: Option<Answer>)
      requires Valid() && !Reserved(ip)
      requires req.asn in cache || req.netblocks == []
      requires parse(req.prefix).Some? && parse(req.prefix).value.ones != 0 && Covers(parse(req.prefix).value, ip)
      modifies this`cache, this`ranger, req`netblocks, cache.Values
      ensures Valid() && a.Some? && Covers(a.value.prefix, ip)
    {
      hide Covers;
      ghost var prefix := req.prefix;
      Update(req);
      MatchOf(req.asn, prefix, ip);
      a := AddrSearch(Some(ip));
    }

    // An entry of the index, filled from the records when there is none yet.
    method FindEntry(ip: Addr) returns (entry: Option<IPNet>)
      requires Valid()
      modifies this`ranger
      ensures Valid()
      ensures entry.Some? ==> entry.value in ranger && Covers(entry.value, ip)
      ensures old(InIndex(ip)) ==> entry.Some? && ranger == old(ranger)
      ensures !old(InIndex(ip)) ==>
                var met := Matches(cache.Keys, ip);
                if entry.None? then met == {} && ranger == old(ranger)
                else IsBest((entry.value, ranger[entry.value]), met)
                     && ranger == old(ranger)[entry.value := ranger[entry.value]]
      ensures var filed := entry.Some? && !old(InIndex(ip));
              forall x :: IndexIsLongest(x) <==>
                            && old(IndexIsLongest(x))
                            && (filed && Covers(entry.value, x) ==> LongestFor(x, entry.value))
    {
      hide Covers, Valid, Matches, LongestFor, HidesNothing;
      ghost var was := ranger.Keys;
      entry := SearchRangerData(ip);
      if entry.None? {
        ghost var met := Matches(cache.Keys, ip);
        RawData2Ranger(ip);
        entry := SearchRangerData(ip);
        BestCovers(ip);
        if entry.Some? {
          OneMoreEntry(was, entry.value);
          assert ranger.Keys == was + {entry.value};
        }
      }
    }

    lemma BestCovers(ip: Addr)
      ensures forall m :: m in Matches(cache.Keys, ip) ==> Covers(m.0, ip)
    {
      hide Covers;
    }
  }

  // ---- The reserved addresses, byte by byte ----

  function Bytes(a: byte, b: byte, c: byte, d: byte): int {
    ((a as int * 256 + b as int) * 256 + c as int) * 256 + d as int
  }

  lemma BytesOf(ip: Addr)
    requires |ip| == 4
    ensures Value(ip) == Bytes(ip[0], ip[1], ip[2], ip[3])
  {
    ValueOf4(ip[0], ip[1], ip[2], ip[3]);
    assert ip == [ip[0], ip[1], ip[2], ip[3]];
  }

  // A block of size addresses covers those from its own on.
  lemma CoversFrom(b: IPNet, size: nat, ip: Addr)
    requires |b.ip| == |ip| == 4 && b.ones <= 32 && Pow2(32 - b.ones) == size && Value(b.ip) % size == 0
    ensures Covers(b, ip) <==> Value(b.ip) <= Value(ip) < Value(b.ip) + size
  {
    ContainsInterval(b, ip);
    NumberOf4(b.ip);
    NumberOf4(ip);
    hide Value, Contains, Number, Pow2;
  }

  lemma Sizes()
    ensures Pow2(8) == 256 && Pow2(16) == 65536 && Pow2(17) == 131072 && Pow2(20) == 1048576
    ensures Pow2(22) == 4194304 && Pow2(24) == 16777216 && Pow2(28) == 268435456
  {
    Pow2Bytes(1);
    Pow2Bytes(2);
    Pow2Bytes(3);
    Pow2Sum(16, 4);
    Pow2Sum(24, 4);
    assert Pow2(4) == 16 && Pow256(1) == 256 && Pow256(2) == 65536 && Pow256(3) == 16777216;
    assert Pow2(17) == 2 * Pow2(16) && Pow2(22) == 2 * Pow2(21) && Pow2(21) == 2 * Pow2(20);
  }

  lemma CoversFirst(a: byte, ip: Addr)
    requires |ip| == 4
    ensures Covers(IPNet([a, 0, 0, 0], 8), ip) <==> ip[0] == a
  {
    Sizes();
    hide Value, Covers, Pow2;
    var b := IPNet([a, 0, 0, 0], 8);
    BytesOf(ip);
    BytesOf(b.ip);
    CoversFrom(b, 16777216, ip);
  }

  lemma CoversTwo(a: byte, b: byte, ip: Addr)
    requires |ip| == 4
    ensures Covers(IPNet([a, b, 0, 0], 16), ip) <==> ip[0] == a && ip[1] == b
  {
    Sizes();
    hide Value, Covers, Pow2;
    var n := IPNet([a, b, 0, 0], 16);
    BytesOf(ip);
    BytesOf(n.ip);
    CoversFrom(n, 65536, ip);
  }

  lemma CoversThree(a: byte, b: byte, c: byte, ip: Addr)
    requires |ip| == 4
    ensures Covers(IPNet([a, b, c, 0], 24), ip) <==> ip[0] == a && ip[1] == b && ip[2] == c
  {
    Sizes();
    hide Value, Covers, Pow2;
    var n := IPNet([a, b, c, 0], 24);
    BytesOf(ip);
    BytesOf(n.ip);
    CoversFrom(n, 256, ip);
  }

  lemma CoversUneven(ip: Addr)
    requires |ip| == 4
    ensures Covers(IPNet([172, 16, 0, 0], 12), ip) <==> ip[0] == 172 && 16 <= ip[1] < 32
    ensures Covers(IPNet([100, 64, 0, 0], 10), ip) <==> ip[0] == 100 && 64 <= ip[1] < 128
    ensures Covers(IPNet([198, 18, 0, 0], 15), ip) <==> ip[0] == 198 && 18 <= ip[1] < 20
    ensures Covers(IPNet([224, 0, 0, 0], 4), ip) <==> 224 <= ip[0] < 240
    ensures Covers(IPNet([240, 0, 0, 0], 4), ip) <==> 240 <= ip[0]
  {
    Sizes();
    hide Value, Covers, Pow2;
    BytesOf(ip);
    BytesOf([172, 16, 0, 0]);
    BytesOf([100, 64, 0, 0]);
    BytesOf([198, 18, 0, 0]);
    BytesOf([224, 0, 0, 0]);
    BytesOf([240, 0, 0, 0]);
    CoversFrom(IPNet([172, 16, 0, 0], 12), 1048576, ip);
    CoversFrom(IPNet([100, 64, 0, 0], 10), 4194304, ip);
    CoversFrom(IPNet([198, 18, 0, 0], 15), 131072, ip);
    CoversFrom(IPNet([224, 0, 0, 0], 4), 268435456, ip);
    CoversFrom(IPNet([240, 0, 0, 0], 4), 268435456, ip);
  }

  lemma CoversSmallest(ip: Addr)
    requires |ip| == 4
    ensures Covers(IPNet([192, 0, 0, 0], 29), ip) ==> ip[0] == 192 && ip[1] == 0 && ip[2] == 0
  {
    assert Pow2(3) == 8;
    hide Value, Covers, Pow2;
    BytesOf(ip);
    BytesOf([192, 0, 0, 0]);
    CoversFrom(IPNet([192, 0, 0, 0], 29), 8, ip);
  }

  // Which IPv4 addresses are reserved.
  lemma ReservedIs(ip: Addr)
    requires |ip| == 4
    ensures Reserved(ip) <==>
            var a, b, c := ip[0], ip[1], ip[2];
            || a == 10 || a == 127 || a >= 224
            || (a == 192 && b == 168) || (a == 169 && b == 254)
            || (a == 172 && 16 <= b < 32) || (a == 100 && 64 <= b < 128) || (a == 198 && (b == 18 || b == 19))
            || (a == 192 && ((b == 0 && (c == 0 || c == 2)) || (b == 88 && c == 99) || (b == 94 && (c == 77 || c == 78))
                             || (b == 52 && c == 193) || (b == 12 && c == 109) || (b == 31 && c == 196)))
  {
    hide Covers;
    CoversFirst(10, ip);
    CoversFirst(127, ip);
    CoversTwo(192, 168, ip);
    CoversTwo(169, 254, ip);
    CoversThree(192, 88, 99, ip);
    CoversThree(192, 0, 0, ip);
    CoversThree(192, 0, 2, ip);
    CoversThree(192, 94, 77, ip);
    CoversThree(192, 94, 78, ip);
    CoversThree(192, 52, 193, ip);
    CoversThree(192, 12, 109, ip);
    CoversThree(192, 31, 196, ip);
    CoversUneven(ip);
    CoversSmallest(ip);
  }

  // ---- An entry for one address hides a longer netblock of another ----

  const SLASH8 := IPNet([8, 0, 0, 0], 8)
  const SLASH16 := IPNet([8, 8, 0, 0], 16)
  const HOST: Addr := [8, 8, 0, 1]
  const OTHER: Addr := [8, 2, 0, 1]

  function ParseTwo(text: string): Option<IPNet> {
    if text == "8.0.0.0/8" then Some(SLASH8) else if text == "8.8.0.0/16" then Some(SLASH16) else None
  }

  lemma WhoCovers()
    ensures Covers(SLASH8, HOST) && Covers(SLASH16, HOST) && Covers(SLASH8, OTHER) && !Covers(SLASH16, OTHER)
  {
    CoversFirst(8, HOST);
    CoversFirst(8, OTHER);
    CoversTwo(8, 8, HOST);
    CoversTwo(8, 8, OTHER);
    hide Covers;
  }

  lemma ParsesTwo()
    ensures ParseTwo("8.0.0.0/8") == Some(SLASH8) && ParseTwo("8.8.0.0/16") == Some(SLASH16)
    ensures SLASH8.ones == 8 && SLASH16.ones == 16 && SLASH8 != SLASH16
  {
    assert "8.8.0.0/16"[2] == '8' && "8.0.0.0/8"[2] == '0';
  }

  lemma ListedIs(texts: seq<string>, text: string, n: IPNet)
    requires texts == [text] && Listed(ParseTwo, texts, n)
    ensures ParseTwo(text) == Some(n)
  {
    hide ParseTwo;
  }

  method CacheEight() returns (c: ASNCache)
    ensures fresh(c) && c.Valid() && c.parse == ParseTwo && c.ranger == map[] && fresh(c.cache.Values)
    ensures c.cache.Keys == {1} && c.cache[1].netblocks == ["8.0.0.0/8"]
  {
    hide Merged, Listed;
    c := new ASNCache(ParseTwo, n => "");
    var first := new ASNRequest(1, "8.0.0.0/8");
    c.Update(first);
  }

  lemma EightMatches(c: ASNCache, ip: Addr)
    requires c.parse == ParseTwo && 1 in c.cache && c.cache[1].netblocks == ["8.0.0.0/8"] && Covers(SLASH8, ip)
    ensures (SLASH8, c.cache[1]) in c.Matches(c.cache.Keys, ip)
  {
    ParsesTwo();
    hide Covers, ParseTwo, SLASH8, SLASH16;
    c.MatchOf(1, "8.0.0.0/8", ip);
  }

  lemma SixteenMatches(c: ASNCache)
    requires c.parse == ParseTwo && 2 in c.cache && c.cache[2].netblocks == ["8.8.0.0/16"]
    ensures (SLASH16, c.cache[2]) in c.Matches(c.cache.Keys, HOST)
  {
    ParsesTwo();
    WhoCovers();
    hide Covers, ParseTwo, SLASH8, SLASH16, HOST;
    c.MatchOf(2, "8.8.0.0/16", HOST);
  }

  // The first search files the /8: only the /8 is cached, or it alone covers the address.
  method FileEight(c: ASNCache, ip: Addr)
    requires c.Valid() && c.parse == ParseTwo && c.ranger == map[] && Covers(SLASH8, ip) && !Reserved(ip)
    requires 1 in c.cache && c.cache[1].netblocks == ["8.0.0.0/8"]
    requires forall k :: k in c.cache && k != 1 ==> c.cache[k].netblocks == ["8.8.0.0/16"] && !Covers(SLASH16, ip)
    modifies c`ranger
    ensures c.Valid() && c.ranger.Keys == {SLASH8}
  {
    hide Covers, SLASH8, SLASH16, Matching, Listed, IsBest, ParseTwo;
    EightMatches(c, ip);
    var a := c.AddrSearch(Some(ip));
    ParsesTwo();
    var asn, prefix := a.value.asn, a.value.prefix;
    ListedIs(c.cache[asn].netblocks, if asn == 1 then "8.0.0.0/8" else "8.8.0.0/16", prefix);
  }

  method CacheSixteen(c: ASNCache)
    requires c.Valid() && c.parse == ParseTwo && c.cache.Keys == {1} && c.cache[1].netblocks == ["8.0.0.0/8"]
    modifies c`cache, c.cache.Values
    ensures c.Valid() && c.ranger == old(c.ranger) && c.cache.Keys == {1, 2}
    ensures c.cache[1].netblocks == ["8.0.0.0/8"] && c.cache[2].netblocks == ["8.8.0.0/16"]
  {
    hide Merged, Listed;
    var second := new ASNRequest(2, "8.8.0.0/16");
    c.Update(second);
  }

  method AnswerFromIndex(c: ASNCache) returns (a: Option<Answer>)
    requires c.Valid() && c.ranger.Keys == {SLASH8} && !Reserved(HOST) && Covers(SLASH8, HOST)
    modifies c`ranger
    ensures a.Some? && a.value.prefix == SLASH8
  {
    hide Covers, SLASH8, HOST, Reserved;
    assert SLASH8 in c.ranger;
    a := c.AddrSearch(Some(HOST));
  }

  // Caching the /8, searching, caching the /16, searching again: the answer is still
  // the /8, although a record holds the longer match.
  method EarlierEntryWins() returns (c: ASNCache, a: Option<Answer>)
    ensures a.Some? && a.value.prefix == SLASH8
    ensures exists m :: m in c.Matches(c.cache.Keys, HOST) && m.0 == SLASH16
  {
    hide Covers, SLASH8, SLASH16, HOST, Matching, ParseTwo, Reserved;
    WhoCovers();
    HostsNotReserved();
    c := CacheEight();
    FileEight(c, HOST);
    CacheSixteen(c);
    a := AnswerFromIndex(c);
    SixteenMatches(c);
  }

  // A cache that is filled completely before any search does no better: a search for an
  // address of the /8 alone files the /8, and it then answers for the /16 too.
  method FilledCacheHides() returns (c: ASNCache, a: Option<Answer>)
    ensures a.Some? && a.value.prefix == SLASH8
    ensures exists m :: m in c.Matches(c.cache.Keys, HOST) && m.0 == SLASH16
  {
    hide Covers, SLASH8, SLASH16, HOST, OTHER, Matching, ParseTwo, Reserved;
    WhoCovers();
    HostsNotReserved();
    c := CacheEight();
    CacheSixteen(c);
    FileEight(c, OTHER);
    a := AnswerFromIndex(c);
    SixteenMatches(c);
  }

  lemma HostsNotReserved()
    ensures !Reserved(HOST) && !Reserved(OTHER)
  {
    ReservedIs(HOST);
    ReservedIs(OTHER);
    hide Reserved;
  }
}
