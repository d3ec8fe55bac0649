// Asset types and the queue limits the dispatcher derives from them.
module Assets {
  import opened Wrappers

  // The types the limits distinguish; every other type is Other.
  datatype AssetType = FQDN | IPAddress | Service | TLSCertificate | URL | Other(name: string)

  datatype Limits = Limits(maxQueued: nat, highWater: nat, lowWater: nat, perSessBurst: nat)

  function LimitsOf(t: AssetType): (l: Limits)
    ensures 0 < l.perSessBurst <= l.lowWater < l.highWater < l.maxQueued
    ensures l.maxQueued == (if t.FQDN? || t.IPAddress? then 200 else if t.Other? then 20 else 100)
    ensures l.highWater == (if t.FQDN? || t.IPAddress? then 175 else if t.Other? then 15 else 75)
    ensures l.lowWater == (if t.FQDN? || t.IPAddress? then 100 else if t.Other? then 5 else 25)
    ensures l.perSessBurst == (if t.FQDN? || t.IPAddress? then 10 else if t.Other? then 1 else 5)
  {
    match t
    case FQDN | IPAddress => Limits(200, 175, 100, 10)
    case Service | TLSCertificate | URL => Limits(100, 75, 25, 5)
    case Other(_) => Limits(20, 15, 5, 1)
  }

  // How many rows one pump visit may claim when the queue holds len elements.
  function VisitSize(len: nat, t: AssetType): (n: nat)
    ensures n <= LimitsOf(t).perSessBurst
    ensures n > 0 ==> len + n <= LimitsOf(t).maxQueued
    ensures n == 0 <==> len >= LimitsOf(t).maxQueued
    ensures len + LimitsOf(t).perSessBurst <= LimitsOf(t).maxQueued ==> n == LimitsOf(t).perSessBurst
    ensures n < LimitsOf(t).perSessBurst && n > 0 ==> len + n == LimitsOf(t).maxQueued
  {
    var room := LimitsOf(t).maxQueued - len;
    if room <= 0 then 0 else Min(room, LimitsOf(t).perSessBurst)
  }
}
