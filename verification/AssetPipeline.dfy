// Building an asset pipeline from the handler table, and what one element meets on
// its way through it.
module AssetPipeline {
  import opened Wrappers

  const OSINT_FIRST := 20
  const OSINT_LAST := 40
  const LAST_PRIORITY := 50

  // ---- Events ----

  datatype Meta = NoMeta | FqdnMeta(sld: bool, records: set<int>) | OtherMeta

  // An event on an entity: its asset type, its name or other key, the metadata, and notes
  // for everything else a callback may leave on it.
  datatype Event = Event(etype: string, name: string, meta: Meta, notes: seq<string>)

  predicate HasSLDInScope(e: Event) {
    e.etype == "FQDN" && e.meta.FqdnMeta? && e.meta.sld
  }

  function AddSLDInScope(e: Event): Event {
    if e.etype != "FQDN" then e
    else match e.meta
      case NoMeta => e.(meta := FqdnMeta(true, {}))
      case FqdnMeta(_, records) => e.(meta := FqdnMeta(true, records))
      case OtherMeta => e
  }

  // The flag is there afterwards unless the entity is no name or the metadata is another
  // plugin's; records and everything else stay.
  lemma FlagIsSet(e: Event)
    ensures var f := AddSLDInScope(e);
            && (HasSLDInScope(f) <==> e.etype == "FQDN" && !e.meta.OtherMeta?)
            && f.etype == e.etype && f.name == e.name && f.notes == e.notes
            && (!HasSLDInScope(f) ==> f == e)
            && (e.meta.FqdnMeta? ==> f.meta.FqdnMeta? && f.meta.records == e.meta.records)
            && (e.meta.NoMeta? && f.meta.FqdnMeta? ==> f.meta.records == {})
  {}

  // ---- Names ----

  function LowerChar(c: char): char {
    if 'A' <= c <= 'Z' then c + 32 as char else c
  }

  function Lower(s: string): (r: string)
    ensures |r| == |s|
  {
    seq(|s|, i requires 0 <= i < |s| => LowerChar(s[i]))
  }

  predicate EqualFold(a: string, b: string) {
    Lower(a) == Lower(b)
  }

  predicate IsSpace(c: char) {
    c == ' ' || '\t' <= c <= '\r'
  }

  function TrimLeft(s: string): string {
    if s != "" && IsSpace(s[0]) then TrimLeft(s[1..]) else s
  }

  function TrimRight(s: string): string {
    if s != "" && IsSpace(s[|s| - 1]) then TrimRight(s[..|s| - 1]) else s
  }

  function Norm(s: string): string {
    Lower(TrimRight(TrimLeft(s)))
  }

  // Upper-case letters become the lower-case letters at the same place, nothing else changes.
  lemma LowerIs(s: string, i: nat)
    requires i < |s|
    ensures 'A' <= s[i] <= 'Z' ==> 'a' <= Lower(s)[i] <= 'z' && Lower(s)[i] - 'a' == s[i] - 'A'
    ensures !('A' <= s[i] <= 'Z') ==> Lower(s)[i] == s[i]
  {}

  predicate Spaces(s: string) {
    forall c <- s :: c == ' ' || c == '\t' || c == '\n' || c == '\r' || c as int == 11 || c as int == 12
  }

  lemma SpaceIs(c: char)
    ensures IsSpace(c) <==> Spaces([c])
  {
    if Spaces([c]) { assert [c][0] in [c]; }
  }

  lemma {:induction false} TrimmedLeft(s: string) returns (k: nat)
    ensures k <= |s| && TrimLeft(s) == s[k..] && Spaces(s[..k]) && (k < |s| ==> !Spaces([s[k]]))
  {
    k := 0;
    if s != "" { SpaceIs(s[0]); }
    if s != "" && IsSpace(s[0]) {
      var n := TrimmedLeft(s[1..]);
      k := n + 1;
      assert s[1..][n..] == s[k..] && s[..k] == [s[0]] + s[1..][..n];
      assert s[0] in [s[0]];
    }
  }

  lemma {:induction false} TrimmedRight(s: string) returns (k: nat)
    ensures k <= |s| && TrimRight(s) == s[..k] && Spaces(s[k..]) && (k > 0 ==> !Spaces([s[k - 1]]))
  {
    k := |s|;
    if s != "" { SpaceIs(s[|s| - 1]); }
    if s != "" && IsSpace(s[|s| - 1]) {
      var n := |s| - 1;
      k := TrimmedRight(s[..n]);
      assert s[..n][..k] == s[..k] && s[k..] == s[..n][k..] + [s[n]];
      assert s[n] in [s[n]];
    }
  }

  // What is compared is the lower-case form of the name without the spaces around it.
  lemma NormIs(s: string) returns (before: string, core: string, after: string)
    ensures s == before + core + after && Spaces(before) && Spaces(after) && Norm(s) == Lower(core)
    ensures core != "" ==> !Spaces([core[0]]) && !Spaces([core[|core| - 1]])
    ensures core == "" ==> Spaces(s)
  {
    var i := TrimmedLeft(s);
    var rest := s[i..];
    var k := TrimmedRight(rest);
    before, core, after := s[..i], rest[..k], rest[k..];
    assert s == before + rest && rest == core + after;
    if core != "" { assert core[0] == s[i]; }
  }

  method NameIsExactScopeDomain(name: string, domains: seq<string>) returns (found: bool)
    ensures found <==> Norm(name) != "" && exists d :: d in domains && Norm(d) == Norm(name)
  {
    var n := Norm(name);
    if n == "" { return false; }
    for i := 0 to |domains|
      invariant forall k :: 0 <= k < i ==> Norm(domains[k]) != n
    {
      if Norm(domains[i]) == n { return true; }
    }
    found := false;
  }

  ghost predicate ExactScopeDomain(e: Event, domains: seq<string>) {
    e.etype == "FQDN" && Norm(e.name) != "" && exists d :: d in domains && Norm(d) == Norm(e.name)
  }

  // ---- Handlers and configuration ----

  datatype Outcome = Returned(e: Event) | Failed(e: Event, error: string) | Panicked(e: Event, error: string)

  datatype Handler = Handler(name: string, plugin: string, maxInstances: int, transforms: seq<string>,
                             callback: Event -> Outcome)

  type Handlers = map<int, seq<Handler>>

  datatype Transformation = Transformation(from: string, to: string, exclude: seq<string>)

  function At(hs: Handlers, p: int): seq<Handler> {
    if p in hs then hs[p] else []
  }

  function ByType(ts: seq<Transformation>, from: string): seq<Transformation> {
    if ts == [] then []
    else (if EqualFold(ts[0].from, from) then [ts[0]] else []) + ByType(ts[1..], from)
  }

  predicate TosContainPlugin(ts: seq<Transformation>, plugin: string) {
    exists t <- ts :: EqualFold(t.to, plugin)
  }

  // Only the first "all" entry is asked for its exclusions.
  predicate AllExcludesPlugin(ts: seq<Transformation>, plugin: string) {
    ts != [] && if EqualFold(ts[0].to, "all") then exists x <- ts[0].exclude :: EqualFold(x, plugin)
                else AllExcludesPlugin(ts[1..], plugin)
  }

  // CheckTransformations finds a match for one of the handler's targets.
  predicate CheckTransformations(ts: seq<Transformation>, from: string, tos: seq<string>) {
    exists t <- ts :: Targets(t, from, tos)
  }

  predicate Targets(t: Transformation, from: string, tos: seq<string>) {
    && Lower(from) == t.from
    && exists to <- tos :: if t.to == "all" then forall x <- t.exclude :: !EqualFold(x, to) else Lower(to) == t.to
  }

  predicate Chosen(ts: seq<Transformation>, from: string, h: Handler) {
    && ByType(ts, from) != [] && !AllExcludesPlugin(ByType(ts, from), h.plugin)
    && (TosContainPlugin(ByType(ts, from), h.plugin) || CheckTransformations(ts, from, h.transforms))
  }

  // ---- Which handlers run ----

  predicate OfType(t: Transformation, from: string) {
    Lower(t.from) == Lower(from)
  }

  // Entry i is the first one of the type for all plugins, and it excludes this one.
  ghost predicate ExcludedBy(ts: seq<Transformation>, from: string, plugin: string, i: nat)
    requires i < |ts|
  {
    && OfType(ts[i], from) && Lower(ts[i].to) == "all"
    && (forall j :: 0 <= j < i && OfType(ts[j], from) ==> Lower(ts[j].to) != "all")
    && exists x :: x in ts[i].exclude && Lower(x) == Lower(plugin)
  }

  ghost predicate NamedBy(ts: seq<Transformation>, from: string, plugin: string, i: nat)
    requires i < |ts|
  {
    OfType(ts[i], from) && Lower(ts[i].to) == Lower(plugin)
  }

  // Entry i, its type in lower case, leads to one of the handler's targets.
  ghost predicate TargetedBy(ts: seq<Transformation>, from: string, targets: seq<string>, i: nat)
    requires i < |ts|
  {
    && ts[i].from == Lower(from)
    && exists to :: to in targets &&
         if ts[i].to == "all" then forall x :: x in ts[i].exclude ==> Lower(x) != Lower(to)
         else ts[i].to == Lower(to)
  }

  // Told from the entries of the configuration by their places.
  ghost predicate Selects(ts: seq<Transformation>, from: string, h: Handler) {
    && (exists i: nat :: i < |ts| && OfType(ts[i], from))
    && (forall i: nat :: i < |ts| ==> !ExcludedBy(ts, from, h.plugin, i))
    && ((exists i: nat :: i < |ts| && NamedBy(ts, from, h.plugin, i))
        || exists i: nat :: i < |ts| && TargetedBy(ts, from, h.transforms, i))
  }

  lemma {:induction false} ByTypeHas(ts: seq<Transformation>, from: string)
    ensures forall t :: t in ByType(ts, from) <==> t in ts && OfType(t, from)
  {
    if ts != [] { ByTypeHas(ts[1..], from); assert ts == [ts[0]] + ts[1..]; }
  }

  predicate ForAll(t: Transformation, from: string) {
    OfType(t, from) && Lower(t.to) == "all"
  }

  lemma ExclusionBehind(ts: seq<Transformation>, from: string, plugin: string, i: nat)
    requires 0 < i < |ts|
    ensures ExcludedBy(ts, from, plugin, i) <==> !ForAll(ts[0], from) && ExcludedBy(ts[1..], from, plugin, i - 1)
  {
    hide Lower;
    var rest := ts[1..];
    if ExcludedBy(ts, from, plugin, i) {
      forall j | 0 <= j < i - 1 && OfType(rest[j], from) ensures Lower(rest[j].to) != "all" {
        assert ts[j + 1] == rest[j];
      }
    }
    if !ForAll(ts[0], from) && ExcludedBy(rest, from, plugin, i - 1) {
      forall j | 0 <= j < i && OfType(ts[j], from) ensures Lower(ts[j].to) != "all" {
        if j > 0 { assert ts[j] == rest[j - 1]; }
      }
    }
  }

  ghost predicate Excluded(ts: seq<Transformation>, from: string, plugin: string) {
    exists i: nat :: i < |ts| && ExcludedBy(ts, from, plugin, i)
  }

  lemma ExcludedHere(ts: seq<Transformation>, from: string, plugin: string)
    requires ts != []
    ensures Excluded(ts, from, plugin) <==>
            ExcludedBy(ts, from, plugin, 0) || (!ForAll(ts[0], from) && Excluded(ts[1..], from, plugin))
  {
    var rest := ts[1..];
    forall i: nat | 0 < i < |ts|
      ensures ExcludedBy(ts, from, plugin, i) <==> !ForAll(ts[0], from) && ExcludedBy(rest, from, plugin, i - 1)
    {
      ExclusionBehind(ts, from, plugin, i);
    }
    hide ExcludedBy, ForAll;
    if !ForAll(ts[0], from) && Excluded(rest, from, plugin) {
      var i: nat :| i < |rest| && ExcludedBy(rest, from, plugin, i);
      assert ExcludedBy(ts, from, plugin, i + 1);
    }
  }

  lemma {:induction false} ExclusionFound(ts: seq<Transformation>, from: string, plugin: string)
    ensures AllExcludesPlugin(ByType(ts, from), plugin) <==> Excluded(ts, from, plugin)
  {
    if ts != [] {
      ExcludedHere(ts, from, plugin);
      ExclusionFound(ts[1..], from, plugin);
      hide Lower, Excluded;
      if OfType(ts[0], from) {
        assert ByType(ts, from)[1..] == ByType(ts[1..], from);
      } else {
        assert ByType(ts, from) == ByType(ts[1..], from);
      }
    }
  }

  // The handlers that run are those the entries select.
  lemma ChosenIff(ts: seq<Transformation>, from: string, h: Handler)
    ensures Chosen(ts, from, h) <==> Selects(ts, from, h)
  {
    hide Lower, ByType, AllExcludesPlugin;
    ByTypeHas(ts, from);
    ExclusionFound(ts, from, h.plugin);
    SomeOfType(ts, from);
    var b := ByType(ts, from);
    assert TosContainPlugin(b, h.plugin) <==> exists i: nat :: i < |ts| && NamedBy(ts, from, h.plugin, i) by {
      if i: nat :| i < |ts| && NamedBy(ts, from, h.plugin, i) { assert ts[i] in b; }
      if t :| t in b && EqualFold(t.to, h.plugin) {
        var i :| 0 <= i < |ts| && ts[i] == t;
        assert NamedBy(ts, from, h.plugin, i);
      }
    }
    Targeted(ts, from, h.transforms);
    hide TargetedBy, CheckTransformations, NamedBy, ExcludedBy;
  }

  lemma SomeOfType(ts: seq<Transformation>, from: string)
    ensures ByType(ts, from) != [] <==> exists i: nat :: i < |ts| && OfType(ts[i], from)
  {
    ByTypeHas(ts, from);
    hide ByType, Lower, OfType;
    if ByType(ts, from) != [] {
      var t := ByType(ts, from)[0];
      assert t in ByType(ts, from);
      var i :| 0 <= i < |ts| && ts[i] == t;
    }
    if i: nat :| i < |ts| && OfType(ts[i], from) { assert ts[i] in ByType(ts, from); }
  }

  lemma Targeted(ts: seq<Transformation>, from: string, targets: seq<string>)
    ensures CheckTransformations(ts, from, targets) <==> exists i: nat :: i < |ts| && TargetedBy(ts, from, targets, i)
  {
    forall i: nat | i < |ts| ensures Targets(ts[i], from, targets) <==> TargetedBy(ts, from, targets, i) {
      TargetsOne(ts, from, targets, i);
    }
    hide Targets, TargetedBy;
    if t :| t in ts && Targets(t, from, targets) {
      var i: nat :| i < |ts| && ts[i] == t;
    }
    if i: nat :| i < |ts| && TargetedBy(ts, from, targets, i) { assert ts[i] in ts; }
  }

  lemma TargetsOne(ts: seq<Transformation>, from: string, targets: seq<string>, i: nat)
    requires i < |ts|
    ensures Targets(ts[i], from, targets) <==> TargetedBy(ts, from, targets, i)
  {
    hide Lower;
    var t := ts[i];
    forall to | to in targets
      ensures (forall x <- t.exclude :: !EqualFold(x, to)) <==> forall x :: x in t.exclude ==> Lower(x) != Lower(to)
    {}
  }

  // No entry of the type selects nothing, an excluded plugin is never selected, and a
  // named plugin is unless it is excluded.
  lemma SelectionFacts(ts: seq<Transformation>, from: string, h: Handler)
    ensures (forall i :: 0 <= i < |ts| ==> Lower(ts[i].from) != Lower(from)) ==> !Chosen(ts, from, h)
    ensures (exists i: nat :: i < |ts| && ExcludedBy(ts, from, h.plugin, i)) ==> !Chosen(ts, from, h)
    ensures forall i: nat :: i < |ts| && NamedBy(ts, from, h.plugin, i) && !Excluded(ts, from, h.plugin) ==>
                               Chosen(ts, from, h)
  {
    ChosenIff(ts, from, h);
    hide Lower, Chosen, ExcludedBy;
  }

  // ---- Stages ----

  datatype Stage =
    | Gate(resume: int)
    | Fifo(p: int, h: Handler)
    | Pool(p: int, h: Handler, max: int)
    | Parallel(p: int, hs: seq<Handler>)

  function Position(s: Stage): int {
    if s.Gate? then 0 else s.p
  }

  function HandlersOf(s: Stage): seq<Handler> {
    match s
    case Gate(_) => []
    case Fifo(_, h) => [h]
    case Pool(_, h, _) => [h]
    case Parallel(_, hs) => hs
  }

  function StageAt(hs: Handlers, p: int): (s: Stage)
    requires At(hs, p) != []
    ensures !s.Gate? && s.p == p && HandlersOf(s) == At(hs, p)
  {
    var at := At(hs, p);
    if |at| > 1 then Parallel(p, at)
    else if at[0].maxInstances > 1 then Pool(p, at[0], at[0].maxInstances)
    else Fifo(p, at[0])
  }

  // The stages of the occupied positions from lo up to hi, hi excluded.
  function Stages(hs: Handlers, lo: int, hi: int): seq<Stage>
    decreases hi - lo
  {
    if lo >= hi then [] else (if At(hs, lo) != [] then [StageAt(hs, lo)] else []) + Stages(hs, lo + 1, hi)
  }

  lemma {:induction false} StagesJoin(hs: Handlers, lo: int, mid: int, hi: int)
    requires lo <= mid <= hi
    ensures Stages(hs, lo, hi) == Stages(hs, lo, mid) + Stages(hs, mid, hi)
    decreases mid - lo
  {
    if lo < mid { StagesJoin(hs, lo + 1, mid, hi); }
  }

  lemma StagesGrow(hs: Handlers, lo: int, p: int)
    requires lo <= p
    ensures Stages(hs, lo, p + 1) == Stages(hs, lo, p) + if At(hs, p) != [] then [StageAt(hs, p)] else []
  {
    StagesJoin(hs, lo, p, p + 1);
    assert Stages(hs, p + 1, p + 1) == [];
  }

  lemma {:induction false} NoStages(hs: Handlers, lo: int, hi: int)
    requires forall p :: lo <= p < hi ==> At(hs, p) == []
    ensures Stages(hs, lo, hi) == []
    decreases hi - lo
  {
    if lo < hi { NoStages(hs, lo + 1, hi); }
  }

  const SKIPPABLE: set<string> := {
    "BinaryEdge-Handler", "Chaos-Handler", "AlienVault-Handler", "CertSpotter-Handler", "crt.sh-Handler",
    "DNSRepo-Handler", "Grep.App-Handler", "CommonCrawl-Handler", "DNSDumpster-Handler", "HackerTarget-Handler",
    "IP-THC-FQDN-Handler", "SubdomainCenter-Handler", "URLScan-FQDN-Handler", "LeakIX-Handler",
    "PassiveTotal-Handler", "Prospeo-Handler", "SecurityTrails-Handler", "VirusTotal-Handler",
    "ZETAlytics-Handler", "DNSHistory-Handler", "RapidDNS-Handler", "SiteDossier-Handler"
  }

  ghost predicate AllSkippable(hs: Handlers) {
    forall p :: OSINT_FIRST <= p <= OSINT_LAST ==> forall h <- At(hs, p) :: h.name in SKIPPABLE
  }

  // The check made before an FQDN pipeline is built: the first handler it refuses, if any.
  method AssertOSINTBypassInvariant(hs: Handlers) returns (bad: Option<(int, string)>)
    ensures bad.None? <==> AllSkippable(hs)
    ensures bad.Some? ==>
              && OSINT_FIRST <= bad.value.0 <= OSINT_LAST && bad.value.1 !in SKIPPABLE
              && exists h <- At(hs, bad.value.0) :: h.name == bad.value.1
  {
    for p := OSINT_FIRST to OSINT_LAST + 1
      invariant forall q :: OSINT_FIRST <= q < p ==> forall h <- At(hs, q) :: h.name in SKIPPABLE
    {
      var at := At(hs, p);
      for i := 0 to |at|
        invariant forall k :: 0 <= k < i ==> at[k].name in SKIPPABLE
      {
        if at[i].name !in SKIPPABLE {
          assert at[i] in At(hs, p);
          return Some((p, at[i].name));
        }
      }
    }
    bad := None;
  }

  // The lowest occupied position above the OSINT range.
  ghost predicate IsResume(hs: Handlers, r: Option<int>) {
    match r
    case None => forall p :: OSINT_LAST < p <= LAST_PRIORITY ==> At(hs, p) == []
    case Some(p) => OSINT_LAST < p <= LAST_PRIORITY && At(hs, p) != []
                    && forall q :: OSINT_LAST < q < p ==> At(hs, q) == []
  }

  // The stages with the gate in front of the first one at or above OSINT_FIRST.
  function Gated(hs: Handlers, resume: int): seq<Stage> {
    Stages(hs, 1, OSINT_FIRST) + [Gate(resume)] + Stages(hs, OSINT_FIRST, LAST_PRIORITY + 1)
  }

  predicate Wide(hs: Handlers, p: int, max: int) {
    |At(hs, p)| == 1 && At(hs, p)[0].maxInstances == max
  }

  datatype Built = Refused(position: int, name: string) | Pipeline(stages: seq<Stage>, bufsize: int)

  method BuildAssetPipeline(hs: Handlers, fqdn: bool) returns (r: Built)
    ensures r.Refused? <==> fqdn && !AllSkippable(hs)
    ensures r.Pipeline? && !fqdn ==> r.stages == Stages(hs, 1, LAST_PRIORITY + 1)
    ensures r.Pipeline? && fqdn ==>
              exists resume :: IsResume(hs, resume) && r.stages ==
                if resume.None? then Stages(hs, 1, LAST_PRIORITY + 1) else Gated(hs, resume.value)
    ensures r.Pipeline? ==> WideEnough(hs, LAST_PRIORITY + 1, r.bufsize)
  {
    var resume: Option<int> := None;
    if fqdn {
      var bad := AssertOSINTBypassInvariant(hs);
      if bad.Some? { return Refused(bad.value.0, bad.value.1); }
      resume := FindResume(hs);
    }
    assert resume.Some? ==> Occupied(hs, OSINT_FIRST, LAST_PRIORITY + 1);
    var stages, bufsize := BuildStages(hs, resume);
    r := Pipeline(stages, bufsize);
    assert fqdn ==> IsResume(hs, resume);
  }

  // The loop over the priorities.
  method BuildStages(hs: Handlers, resume: Option<int>) returns (stages: seq<Stage>, bufsize: int)
    requires resume.Some? ==> Occupied(hs, OSINT_FIRST, LAST_PRIORITY + 1)
    ensures stages == SoFar(hs, resume, LAST_PRIORITY + 1)
    ensures WideEnough(hs, LAST_PRIORITY + 1, bufsize)
  {
    var inserted;
    stages, inserted, bufsize := [], false, 1;
    assert !Occupied(hs, OSINT_FIRST, 1) && WideEnough(hs, 1, 1) && SoFar(hs, None, 1) == [];
    hide SoFar, Stages, StageAt, WideEnough, Occupied;
    for priority := 1 to LAST_PRIORITY + 1
      invariant inserted <==> resume.Some? && Occupied(hs, OSINT_FIRST, priority)
      invariant stages == SoFar(hs, if inserted then resume else None, priority)
      invariant WideEnough(hs, priority, bufsize)
    {
      var at := At(hs, priority);
      SoFarGrows(hs, if inserted then resume else None, priority);
      OccupiedGrows(hs, priority);
      NothingWide(hs, priority, bufsize);
      if at != [] {
        if resume.Some? && !inserted && priority >= OSINT_FIRST {
          stages := stages + [Gate(resume.value)];
          inserted := true;
          GateGoesIn(hs, resume, priority);
          SoFarGrows(hs, resume, priority);
        }
        var stage;
        stage, bufsize := BuildStage(hs, priority, bufsize);
        stages := stages + [stage];
      }
    }
  }

  // The stage of an occupied position, and the buffer if its pool is the widest so far.
  method BuildStage(hs: Handlers, priority: int, bufsize0: int) returns (stage: Stage, bufsize: int)
    requires At(hs, priority) != [] && WideEnough(hs, priority, bufsize0) && priority >= 1
    ensures stage == StageAt(hs, priority) && WideEnough(hs, priority + 1, bufsize)
  {
    WideGrows(hs, priority, bufsize0);
    hide WideEnough;
    var at := At(hs, priority);
    bufsize := bufsize0;
    if |at| == 1 {
      var h := at[0];
      if h.maxInstances > 1 {
        stage := Pool(priority, h, h.maxInstances);
        if h.maxInstances > bufsize { bufsize := h.maxInstances; }
      } else {
        stage := Fifo(priority, h);
        AtLeastOne(hs, priority, bufsize);
      }
    } else {
      stage := Parallel(priority, at);
    }
  }

  lemma AtLeastOne(hs: Handlers, p: int, bufsize: int)
    requires WideEnough(hs, p, bufsize)
    ensures bufsize >= 1
  {}

  ghost predicate Occupied(hs: Handlers, lo: int, hi: int) {
    exists p :: lo <= p < hi && At(hs, p) != []
  }

  lemma OccupiedGrows(hs: Handlers, p: int)
    ensures Occupied(hs, OSINT_FIRST, p + 1) <==> Occupied(hs, OSINT_FIRST, p) || (p >= OSINT_FIRST && At(hs, p) != [])
  {}

  // The buffer is as wide as the widest pool before p.
  ghost predicate WideEnough(hs: Handlers, p: int, bufsize: int) {
    && bufsize >= 1
    && (forall q, m :: 1 <= q < p && Wide(hs, q, m) ==> m <= bufsize)
    && (bufsize == 1 || exists q :: 1 <= q < p && Wide(hs, q, bufsize))
  }

  lemma WideGrows(hs: Handlers, p: int, bufsize: int)
    requires WideEnough(hs, p, bufsize) && p >= 1
    ensures WideEnough(hs, p + 1, if |At(hs, p)| == 1 && At(hs, p)[0].maxInstances > bufsize
                                  then At(hs, p)[0].maxInstances else bufsize)
  {
    if |At(hs, p)| == 1 { assert Wide(hs, p, At(hs, p)[0].maxInstances); }
  }

  lemma NothingWide(hs: Handlers, p: int, bufsize: int)
    requires WideEnough(hs, p, bufsize) && p >= 1
    ensures At(hs, p) == [] ==> WideEnough(hs, p + 1, bufsize)
  {
    WideGrows(hs, p, bufsize);
  }

  // What the loop has appended before reaching a priority, the gate being in already or not.
  function SoFar(hs: Handlers, gate: Option<int>, priority: int): seq<Stage> {
    if gate.Some?
    then Stages(hs, 1, OSINT_FIRST) + [Gate(gate.value)] + Stages(hs, OSINT_FIRST, priority)
    else Stages(hs, 1, priority)
  }

  lemma SoFarGrows(hs: Handlers, gate: Option<int>, p: int)
    requires 1 <= p && (gate.Some? ==> p >= OSINT_FIRST)
    ensures SoFar(hs, gate, p + 1) == SoFar(hs, gate, p) + if At(hs, p) != [] then [StageAt(hs, p)] else []
  {
    StagesGrow(hs, if gate.Some? then OSINT_FIRST else 1, p);
    hide Stages, StageAt;
  }

  lemma GateGoesIn(hs: Handlers, resume: Option<int>, p: int)
    requires resume.Some? && p >= OSINT_FIRST && !Occupied(hs, OSINT_FIRST, p)
    ensures SoFar(hs, resume, p) == SoFar(hs, None, p) + [Gate(resume.value)]
  {
    StagesJoin(hs, 1, OSINT_FIRST, p);
    NoStages(hs, OSINT_FIRST, p);
  }

  method FindResume(hs: Handlers) returns (resume: Option<int>)
    ensures IsResume(hs, resume)
  {
    for p := OSINT_LAST + 1 to LAST_PRIORITY + 1
      invariant forall q :: OSINT_LAST < q < p ==> At(hs, q) == []
    {
      if At(hs, p) != [] { return Some(p); }
    }
    resume := None;
  }

  // ---- The positions, as numbers ----

  // Positions 20 to 40 take listed handlers only, those outside any.
  lemma RangeIs(hs: Handlers, p: int)
    ensures AllSkippable(hs) && 20 <= p <= 40 ==> forall h <- At(hs, p) :: h.name in SKIPPABLE
    ensures (forall q :: 20 <= q <= 40 ==> At(hs, q) == []) ==> AllSkippable(hs)
    ensures "crt.sh-Handler" in SKIPPABLE && "IP-THC-FQDN-Handler" in SKIPPABLE && "URLScan-FQDN-Handler" in SKIPPABLE
    ensures "" !in SKIPPABLE && "IP-THC-Handler" !in SKIPPABLE
  {}

  // Names resume at the lowest occupied position from 41 to 50.
  lemma ResumeIs(hs: Handlers, r: int)
    ensures IsResume(hs, Some(r)) <==>
            41 <= r <= 50 && At(hs, r) != [] && forall q :: 41 <= q < r ==> At(hs, q) == []
    ensures IsResume(hs, None) <==> forall q :: 41 <= q <= 50 ==> At(hs, q) == []
  {}

  // One handler has a stage of its own, a pool when it may run more than once; several
  // share one.
  function OwnStage(hs: Handlers, p: int): Stage {
    var at := At(hs, p);
    if |at| == 1 && at[0].maxInstances <= 1 then Fifo(p, at[0])
    else if |at| == 1 then Pool(p, at[0], at[0].maxInstances)
    else Parallel(p, at)
  }

  // One stage for each occupied position, lowest first.
  ghost predicate InOrder(hs: Handlers, lo: int, hi: int, ss: seq<Stage>) {
    && (forall i :: 0 <= i < |ss| ==> lo <= Position(ss[i]) < hi && ss[i] == OwnStage(hs, Position(ss[i])))
    && (forall i, j :: 0 <= i < j < |ss| ==> Position(ss[i]) < Position(ss[j]))
    && (forall p :: lo <= p < hi && At(hs, p) != [] ==> OwnStage(hs, p) in ss)
  }

  lemma OneMoreStage(hs: Handlers, lo: int, hi: int, rest: seq<Stage>)
    requires lo < hi && InOrder(hs, lo + 1, hi, rest) && At(hs, lo) != []
    ensures InOrder(hs, lo, hi, [OwnStage(hs, lo)] + rest)
  {
    var ss := [OwnStage(hs, lo)] + rest;
    hide At;
    forall p | lo <= p < hi && At(hs, p) != [] ensures OwnStage(hs, p) in ss {
      if p == lo { assert ss[0] == OwnStage(hs, p); } else { assert OwnStage(hs, p) in rest; }
    }
  }

  lemma {:induction false} StageOrder(hs: Handlers, lo: int, hi: int)
    ensures InOrder(hs, lo, hi, Stages(hs, lo, hi))
    decreases hi - lo
  {
    if lo < hi {
      StageOrder(hs, lo + 1, hi);
      FirstStage(hs, lo, hi);
      hide Stages, OwnStage, StageAt, At;
      if At(hs, lo) != [] {
        OneMoreStage(hs, lo, hi, Stages(hs, lo + 1, hi));
      } else {
        NoStageHere(hs, lo, hi, Stages(hs, lo + 1, hi));
      }
    }
  }

  lemma FirstStage(hs: Handlers, lo: int, hi: int)
    requires lo < hi
    ensures Stages(hs, lo, hi) ==
            if At(hs, lo) != [] then [OwnStage(hs, lo)] + Stages(hs, lo + 1, hi) else Stages(hs, lo + 1, hi)
  {
    if At(hs, lo) == [] { assert Stages(hs, lo, hi) == [] + Stages(hs, lo + 1, hi); }
  }

  lemma NoStageHere(hs: Handlers, lo: int, hi: int, rest: seq<Stage>)
    requires lo < hi && InOrder(hs, lo + 1, hi, rest) && At(hs, lo) == []
    ensures InOrder(hs, lo, hi, rest)
  {
    hide At, OwnStage;
  }

  // A pipeline without a gate has them for the positions from 1 to 50.
  lemma PipelineIs(hs: Handlers)
    ensures InOrder(hs, 1, 51, Stages(hs, 1, LAST_PRIORITY + 1))
  {
    StageOrder(hs, 1, LAST_PRIORITY + 1);
  }
}
