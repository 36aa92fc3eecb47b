/** The DNS volume's init step, run at every start: what it writes and what it never touches. */
module DnsInit {
  import opened Text
  import opened DnsNames

  const MARKER := "; Nearzero bootstrap zone" + " - adopted after first-owner signup"

  const COREFILE_LINES := [
    "# Managed by Nearzero. Authoritative zones only; this is not a recursive resolver.",
    ".:53 {", "  auto {", "    directory /etc/coredns/zones (.*)\\.zone {1}", "    reload 2s", "  }",
    "  reload 30s", "  errors", "}", ""]

  /** The environment, trimmed; an empty text stands for a variable that is not set. */
  datatype Config = Config(zone: string, publicIp: string, publicIpOk: bool, soaEmail: string, hostname: string)

  /** Files under zones, the Corefile, the zones with an adoption marker, and the mounted legacy files. */
  datatype Volume = Volume(
    zones: map<string, string>, corefile: Option<string>, adopted: set<string>, legacy: Option<map<string, string>>)

  // ----- The three steps

  predicate IsZoneFile(filename: string) {
    EndsWith(filename, ".zone")
  }

  function LegacyZones(v: Volume): map<string, string> {
    if v.legacy.None? then map[] else map f | f in v.legacy.value && IsZoneFile(f) :: v.legacy.value[f]
  }

  function WithLegacy(v: Volume): Volume {
    v.(zones := LegacyZones(v) + v.zones)
  }

  function WithCorefile(v: Volume): Volume {
    if v.corefile.Some? then v else v.(corefile := Some(Join(COREFILE_LINES, "\n")))
  }

  function Records(zone: string, rname: string, ip: string, owner: Option<string>, serial: nat): seq<string> {
    [MARKER, "$ORIGIN " + zone + ".", "$TTL 300", "@ IN SOA ns1." + zone + ". " + rname + " (",
     "  " + NatText(serial) + " ; serial", "  3600 ; refresh", "  1800 ; retry", "  604800 ; expire",
     "  300 ; minimum", ")",
     "@ IN NS ns1." + zone + ".", "@ IN NS ns2." + zone + ".", "ns1 300 IN A " + ip, "ns2 300 IN A " + ip]
    + (if owner.Some? then [owner.value + " 300 IN A " + ip] else [])
    + [""]
  }

  const SERIAL_LINE := 4

  /** What the bootstrap step does: nothing, an error before anything is written, or a new zone file. */
  datatype Plan = Nothing | Fails | Writes(filename: string, records: seq<string>)

  function PlanBootstrap(toAscii: string -> string, v: Volume, c: Config, serial: nat): Plan {
    if c.zone == "" then Nothing
    else
      var zone := NormalizeDnsName(toAscii, c.zone);
      if zone.Err? then Fails
      else if zone.name in v.adopted then Nothing
      else if !c.publicIpOk || c.soaEmail == "" then Fails
      else
        var rname := SoaMailbox(toAscii, c.soaEmail);
        if rname.Err? then Fails
        else
          var host := NormalizeDnsName(toAscii, c.hostname);
          if c.hostname != "" && host.Err? then Fails
          else
            var owner := if c.hostname == "" then None else RecordOwner(host.name, zone.name);
            var filename := zone.name + ".zone";
            if filename in v.zones && !StartsWith(v.zones[filename], MARKER) then Nothing
            else Writes(filename, Records(zone.name, rname.name, c.publicIp, owner, serial))
  }

  function TemporaryName(filename: string, pid: nat): string {
    filename + "." + NatText(pid) + ".tmp"
  }

  /** The temporary file is written, then renamed over the zone file. */
  function WithBootstrap(toAscii: string -> string, v: Volume, c: Config, serial: nat, pid: nat): Volume {
    match PlanBootstrap(toAscii, v, c, serial)
    case Writes(filename, records) =>
      v.(zones := (v.zones - {TemporaryName(filename, pid)})[filename := Join(records, "\n")])
    case _ => v
  }

  /** One start of the init container. */
  function Init(toAscii: string -> string, v: Volume, c: Config, serial: nat, pid: nat): Volume {
    WithBootstrap(toAscii, WithCorefile(WithLegacy(v)), c, serial, pid)
  }

  class DnsVolume {
    var zones: map<string, string>
    var corefile: Option<string>
    var adopted: set<string>
    var legacy: Option<map<string, string>>
    const toAscii: string -> string

    constructor (toAscii: string -> string, legacy: Option<map<string, string>>)
      ensures Snapshot() == Volume(map[], None, {}, legacy) && this.toAscii == toAscii
    {
      this.toAscii := toAscii;
      zones, corefile, adopted := map[], None, {};
      this.legacy := legacy;
    }

    ghost function Snapshot(): Volume
      reads this
    {
      Volume(zones, corefile, adopted, legacy)
    }

    /** The legacy files come in the order the directory lists them. */
    method CopyLegacyZones(filenames: seq<string>)
      requires legacy.Some? ==> forall f :: f in filenames <==> f in legacy.value
      modifies this`zones
      ensures Snapshot() == WithLegacy(old(Snapshot()))
    {
      if legacy.None? { return; }
      var i := 0;
      while i < |filenames|
        invariant 0 <= i <= |filenames|
        invariant forall f :: f in zones <==> f in old(zones) || (f in filenames[..i] && IsZoneFile(f))
        invariant forall f :: f in zones ==> zones[f] == if f in old(zones) then old(zones)[f] else legacy.value[f]
      {
        var filename := filenames[i];
        assert filenames[..i + 1] == filenames[..i] + [filename];
        i := i + 1;
        if !IsZoneFile(filename) { continue; }
        if filename !in zones {
          zones := zones[filename := legacy.value[filename]];
        }
      }
      assert filenames[..i] == filenames;
      assert zones == LegacyZones(old(Snapshot())) + old(zones);
    }

    method EnsureCorefile()
      modifies this`corefile
      ensures Snapshot() == WithCorefile(old(Snapshot()))
    {
      if corefile.Some? { return; }
      corefile := Some(Join(COREFILE_LINES, "\n"));
    }

    method EnsureBootstrapZone(c: Config, serial: nat, pid: nat) returns (ok: bool)
      modifies this`zones
      ensures Snapshot() == WithBootstrap(toAscii, old(Snapshot()), c, serial, pid)
      ensures ok <==> PlanBootstrap(toAscii, old(Snapshot()), c, serial) != Fails
    {
      hide NormalizeDnsName, SoaMailbox, Records, NatText, Join, RecordOwner;
      if c.zone == "" { return true; }
      var zone := NormalizeDnsName(toAscii, c.zone);
      if zone.Err? { return false; }
      if zone.name in adopted { return true; }
      if !c.publicIpOk { return false; }
      if c.soaEmail == "" { return false; }
      var rname := SoaMailbox(toAscii, c.soaEmail);
      if rname.Err? { return false; }
      var owner := None;
      if c.hostname != "" {
        var host := NormalizeDnsName(toAscii, c.hostname);
        if host.Err? { return false; }
        owner := RecordOwner(host.name, zone.name);
      }
      var filename := zone.name + ".zone";
      var records := Records(zone.name, rname.name, c.publicIp, owner, serial);
      if filename in zones && !StartsWith(zones[filename], MARKER) { return true; }
      var temporary := TemporaryName(filename, pid);
      assert temporary != filename;
      ghost var before := zones;
      zones := zones[temporary := Join(records, "\n")];
      zones := (zones - {temporary})[filename := zones[temporary]];
      assert zones == (before - {temporary})[filename := Join(records, "\n")];
      ok := true;
    }

    method Start(filenames: seq<string>, c: Config, serial: nat, pid: nat) returns (ok: bool)
      requires legacy.Some? ==> forall f :: f in filenames <==> f in legacy.value
      modifies this
      ensures Snapshot() == Init(toAscii, old(Snapshot()), c, serial, pid)
    {
      CopyLegacyZones(filenames);
      EnsureCorefile();
      ok := EnsureBootstrapZone(c, serial, pid);
    }
  }

  // ----- What a bootstrap zone file holds

  /** The line that gives an owner the address. */
  function AddressLine(owner: string, ip: string): string {
    owner + " 300 IN A " + ip
  }

  /** The step writes exactly for a configured, acceptable zone that is not adopted, with an address, a mailbox and,
      if one is set, an acceptable management host, unless someone else wrote that zone's file. */
  lemma WritesExactly(toAscii: string -> string, v: Volume, c: Config, serial: nat)
    ensures var zone := NormalizeDnsName(toAscii, c.zone);
      PlanBootstrap(toAscii, v, c, serial).Writes? <==>
        && c.zone != "" && zone.Ok? && zone.name !in v.adopted
        && c.publicIpOk && c.soaEmail != "" && SoaMailbox(toAscii, c.soaEmail).Ok?
        && (c.hostname != "" ==> NormalizeDnsName(toAscii, c.hostname).Ok?)
        && !Foreign(v, zone.name + ".zone")
  {
    hide NormalizeDnsName, SoaMailbox, NatText, RecordOwner;
  }

  /** The step fails exactly when such a zone is neither adopted nor complete. */
  lemma FailsExactly(toAscii: string -> string, v: Volume, c: Config, serial: nat)
    ensures var zone := NormalizeDnsName(toAscii, c.zone);
      PlanBootstrap(toAscii, v, c, serial).Fails? <==>
        && c.zone != ""
        && (zone.Ok? ==>
              && zone.name !in v.adopted
              && (|| !c.publicIpOk || c.soaEmail == "" || SoaMailbox(toAscii, c.soaEmail).Err?
                  || (c.hostname != "" && NormalizeDnsName(toAscii, c.hostname).Err?)))
  {
    hide NormalizeDnsName, SoaMailbox, NatText, RecordOwner;
  }

  /** The last character of every other kind of line is no digit, but for one short line. */
  predicate IsOtherLine(line: string) {
    line == "" || !IsDigit(line[|line| - 1]) || |line| < 10
  }

  lemma OtherLine(a: string, b: string)
    requires b != "" && !IsDigit(b[|b| - 1])
    ensures IsOtherLine(a + b)
  {
    assert (a + b)[|a + b| - 1] == b[|b| - 1];
  }

  lemma OtherLines(zone: string, rname: string, serial: nat)
    ensures IsOtherLine(MARKER) && IsOtherLine("$ORIGIN " + zone + ".") && IsOtherLine("$TTL 300")
    ensures IsOtherLine("@ IN SOA ns1." + zone + ". " + rname + " (")
    ensures IsOtherLine("  " + NatText(serial) + " ; serial")
    ensures IsOtherLine("  3600 ; refresh") && IsOtherLine("  1800 ; retry") && IsOtherLine("  604800 ; expire")
    ensures IsOtherLine("  300 ; minimum") && IsOtherLine(")") && IsOtherLine("")
    ensures IsOtherLine("@ IN NS ns1." + zone + ".") && IsOtherLine("@ IN NS ns2." + zone + ".")
  {
    hide NatText;
    OtherLine("; Nearzero bootstrap zone", " - adopted after first-owner signup");
    OtherLine("$ORIGIN " + zone, ".");
    OtherLine("@ IN SOA ns1." + zone + ". " + rname, " (");
    OtherLine("  " + NatText(serial), " ; serial");
    OtherLine("@ IN NS ns1." + zone, ".");
    OtherLine("@ IN NS ns2." + zone, ".");
  }

  /** Exactly the two name servers and the owner have an address line, when the address ends in a digit. */
  lemma AddressLines(zone: string, rname: string, ip: string, owner: Option<string>, serial: nat, o: string)
    requires ip != "" && IsDigit(ip[|ip| - 1])
    ensures AddressLine(o, ip) in Records(zone, rname, ip, owner, serial)
      <==> o == "ns1" || o == "ns2" || owner == Some(o)
  {
    hide NatText, IsDigit;
    var line := AddressLine(o, ip);
    assert line[|line| - 1] == ip[|ip| - 1] && |line| > 10;
    assert !IsOtherLine(line);
    OtherLines(zone, rname, serial);
    SameOwner(o, "ns1", ip);
    SameOwner(o, "ns2", ip);
    ServerLines(ip);
    if owner.Some? { SameOwner(o, owner.value, ip); }
    hide IsOtherLine, AddressLine;
    var records := Records(zone, rname, ip, owner, serial);
    assert records[12] == AddressLine("ns1", ip) && records[13] == AddressLine("ns2", ip);
    assert owner.Some? ==> records[14] == AddressLine(owner.value, ip);
    assert forall i :: 0 <= i < |records| ==> IsOtherLine(records[i]) || 12 <= i <= 13 || (i == 14 && owner.Some?);
  }

  lemma ServerLines(ip: string)
    ensures AddressLine("ns1", ip) == "ns1 300 IN A " + ip && AddressLine("ns2", ip) == "ns2 300 IN A " + ip
  {
    assert "ns1" + " 300 IN A " == "ns1 300 IN A " && "ns2" + " 300 IN A " == "ns2 300 IN A ";
  }

  lemma SameOwner(a: string, b: string, ip: string)
    ensures AddressLine(a, ip) == AddressLine(b, ip) <==> a == b
    ensures AddressLine(b, ip) == b + " 300 IN A " + ip
  {
    if AddressLine(a, ip) == AddressLine(b, ip) {
      assert |a| == |b|;
      assert AddressLine(a, ip)[..|a|] == a && AddressLine(b, ip)[..|b|] == b;
    }
  }

  /** With a management host in the zone exactly the two name servers and that host have an address line, otherwise the
      two name servers alone. The zone is served by both, and its contact is the printed mailbox. */
  lemma BootstrapRecords(toAscii: string -> string, v: Volume, c: Config, serial: nat, o: string)
    requires PlanBootstrap(toAscii, v, c, serial).Writes?
    requires c.publicIp != "" && IsDigit(c.publicIp[|c.publicIp| - 1])
    ensures var plan, zone := PlanBootstrap(toAscii, v, c, serial), NormalizeDnsName(toAscii, c.zone);
      && plan.filename == zone.name + ".zone"
      && (AddressLine(o, c.publicIp) in plan.records <==>
            || o == "ns1" || o == "ns2"
            || (c.hostname != "" && Absolute(o, zone.name) == NormalizeDnsName(toAscii, c.hostname).name))
      && "@ IN NS ns1." + zone.name + "." in plan.records && "@ IN NS ns2." + zone.name + "." in plan.records
      && plan.records[..2] == [MARKER, "$ORIGIN " + zone.name + "."]
      && "@ IN SOA ns1." + zone.name + ". " + SoaMailbox(toAscii, c.soaEmail).name + " (" in plan.records
      && plan.records[SERIAL_LINE] == "  " + NatText(serial) + " ; serial"
      && plan.records[|plan.records| - 1] == ""
  {
    hide NormalizeDnsName, SoaMailbox, NatText, RecordOwner, Absolute, AddressLine;
    var zone, rname := NormalizeDnsName(toAscii, c.zone).name, SoaMailbox(toAscii, c.soaEmail).name;
    var host := NormalizeDnsName(toAscii, c.hostname);
    var owner := if c.hostname == "" then None else RecordOwner(host.name, zone);
    PlanIs(toAscii, v, c, serial);
    AddressLines(zone, rname, c.publicIp, owner, serial, o);
    if c.hostname != "" {
      NoAtSign(toAscii, c.hostname);
      OwnerExactly(o, host.name, zone);
    }
    FixedRecords(zone, rname, c.publicIp, owner, serial);
  }

  lemma PlanIs(toAscii: string -> string, v: Volume, c: Config, serial: nat)
    requires PlanBootstrap(toAscii, v, c, serial).Writes?
    ensures NormalizeDnsName(toAscii, c.zone).Ok? && SoaMailbox(toAscii, c.soaEmail).Ok?
    ensures c.hostname != "" ==> NormalizeDnsName(toAscii, c.hostname).Ok?
    ensures var zone, rname := NormalizeDnsName(toAscii, c.zone).name, SoaMailbox(toAscii, c.soaEmail).name;
      var owner := if c.hostname == "" then None else RecordOwner(NormalizeDnsName(toAscii, c.hostname).name, zone);
      PlanBootstrap(toAscii, v, c, serial) == Writes(zone + ".zone", Records(zone, rname, c.publicIp, owner, serial))
  {
    hide NormalizeDnsName, SoaMailbox, NatText, RecordOwner, Records;
  }

  lemma FixedRecords(zone: string, rname: string, ip: string, owner: Option<string>, serial: nat)
    ensures var records := Records(zone, rname, ip, owner, serial);
      && |records| > 13 && records[|records| - 1] == "" && records[..2] == [MARKER, "$ORIGIN " + zone + "."]
      && records[3] == "@ IN SOA ns1." + zone + ". " + rname + " ("
      && records[SERIAL_LINE] == "  " + NatText(serial) + " ; serial"
      && records[10] == "@ IN NS ns1." + zone + "." && records[11] == "@ IN NS ns2." + zone + "."
  {
    hide NatText;
  }

  lemma NoAtSign(toAscii: string -> string, value: string)
    requires NormalizeDnsName(toAscii, value).Ok?
    ensures '@' !in NormalizeDnsName(toAscii, value).name
  {
    hide NormalizeDnsName, Split, IsLabel;
    NormalNameLimits(toAscii, value);
    assert !IsNameChar('@');
  }

  // ----- What a start never touches

  /** A zone file someone else wrote. */
  predicate Foreign(v: Volume, filename: string) {
    filename in v.zones && !StartsWith(v.zones[filename], MARKER)
  }

  predicate IsTemporary(filename: string) {
    EndsWith(filename, ".tmp")
  }

  lemma TemporaryIsTemporary(filename: string, pid: nat)
    ensures IsTemporary(TemporaryName(filename, pid)) && !IsTemporary(filename + ".zone")
  {
    hide NatText;
    var t, z := TemporaryName(filename, pid), filename + ".zone";
    assert t[|t| - 4..] == ".tmp";
    assert z[|z| - 4..] == "zone" && "zone"[0] == 'z' && ".tmp"[0] == '.';
  }

  lemma PlannedName(toAscii: string -> string, v: Volume, c: Config, serial: nat)
    ensures var plan := PlanBootstrap(toAscii, v, c, serial);
      plan.Writes? ==>
        && NormalizeDnsName(toAscii, c.zone).Ok?
        && plan.filename == NormalizeDnsName(toAscii, c.zone).name + ".zone"
        && NormalizeDnsName(toAscii, c.zone).name !in v.adopted
        && !Foreign(v, plan.filename)
        && plan.records[0] == MARKER && |plan.records| > 1
  {
    hide NormalizeDnsName, SoaMailbox, NatText, RecordOwner;
  }

  /** The file is the configured zone's, not adopted and not written by someone else. */
  predicate IsOwnFile(toAscii: string -> string, v: Volume, c: Config, filename: string) {
    var zone := NormalizeDnsName(toAscii, c.zone);
    && c.zone != "" && zone.Ok? && filename == zone.name + ".zone" && zone.name !in v.adopted
    && !Foreign(WithLegacy(v), filename)
  }

  /** Every file stays as it is, except temporary files and, before adoption, the configured zone's own
      bootstrap file; what is there after the start and was not before came from the legacy directory. */
  lemma StartTouchesOnlyItsZone(
    toAscii: string -> string, v: Volume, c: Config, serial: nat, pid: nat, filename: string)
    requires !IsTemporary(filename)
    ensures filename in v.zones ==> filename in Init(toAscii, v, c, serial, pid).zones
    ensures filename in v.zones && !IsOwnFile(toAscii, v, c, filename) ==>
      Init(toAscii, v, c, serial, pid).zones[filename] == v.zones[filename]
    ensures var after := Init(toAscii, v, c, serial, pid);
      filename !in v.zones && filename in after.zones && !IsOwnFile(toAscii, v, c, filename) ==>
        filename in LegacyZones(v) && after.zones[filename] == LegacyZones(v)[filename]
  {
    hide NormalizeDnsName, PlanBootstrap, Join, LegacyZones, IsTemporary, TemporaryName;
    var v' := WithCorefile(WithLegacy(v));
    PlannedName(toAscii, v', c, serial);
    var plan := PlanBootstrap(toAscii, v', c, serial);
    if plan.Writes? {
      TemporaryIsTemporary(NormalizeDnsName(toAscii, c.zone).name, pid);
      TemporaryIsTemporary(plan.filename, pid);
      PlanNeedsZone(toAscii, v', c, serial);
    }
  }

  lemma PlanNeedsZone(toAscii: string -> string, v: Volume, c: Config, serial: nat)
    ensures PlanBootstrap(toAscii, v, c, serial).Writes? ==> c.zone != ""
  {
  }

  /** Every legacy zone file that is not there yet arrives as it is, unless the start writes that zone itself; other
      files of the legacy directory do not. */
  lemma LegacyZonesArrive(toAscii: string -> string, v: Volume, c: Config, serial: nat, pid: nat, filename: string)
    requires v.legacy.Some? && filename in v.legacy.value && filename !in v.zones && !IsTemporary(filename)
    ensures var after := Init(toAscii, v, c, serial, pid);
      && (EndsWith(filename, ".zone") ==> filename in after.zones)
      && (filename in after.zones && !IsOwnFile(toAscii, v, c, filename) ==>
            EndsWith(filename, ".zone") && after.zones[filename] == v.legacy.value[filename])
  {
    hide NormalizeDnsName, PlanBootstrap, Join, IsTemporary, TemporaryName, WithBootstrap;
    StartTouchesOnlyItsZone(toAscii, v, c, serial, pid, filename);
    var base := WithCorefile(WithLegacy(v));
    assert EndsWith(filename, ".zone") ==> filename in base.zones;
    BootstrapKeepsNames(toAscii, base, c, serial, pid, filename);
  }

  lemma BootstrapKeepsNames(toAscii: string -> string, v: Volume, c: Config, serial: nat, pid: nat, filename: string)
    requires !IsTemporary(filename)
    ensures filename in v.zones ==> filename in WithBootstrap(toAscii, v, c, serial, pid).zones
  {
    hide PlanBootstrap, Join, IsTemporary, TemporaryName;
    var plan := PlanBootstrap(toAscii, v, c, serial);
    if plan.Writes? { TemporaryIsTemporary(plan.filename, pid); }
  }

  lemma ForeignStays(toAscii: string -> string, v: Volume, c: Config, serial: nat, pid: nat, filename: string)
    requires Foreign(v, filename) && !IsTemporary(filename)
    ensures var after := Init(toAscii, v, c, serial, pid);
      Foreign(after, filename) && after.zones[filename] == v.zones[filename]
  {
    hide NormalizeDnsName, Init, LegacyZones, IsTemporary;
    StartTouchesOnlyItsZone(toAscii, v, c, serial, pid, filename);
  }

  /** Once a zone is adopted, a start for it adds legacy files and a missing Corefile, and nothing else. */
  lemma AdoptedZoneIsLeftAlone(toAscii: string -> string, v: Volume, c: Config, serial: nat, pid: nat)
    requires NormalizeDnsName(toAscii, c.zone).Ok? && NormalizeDnsName(toAscii, c.zone).name in v.adopted
    ensures Init(toAscii, v, c, serial, pid) == WithCorefile(WithLegacy(v))
  {
    hide NormalizeDnsName, SoaMailbox, LegacyZones, Records, RecordOwner;
  }

  lemma CorefileStays(toAscii: string -> string, v: Volume, c: Config, serial: nat, pid: nat)
    requires v.corefile.Some?
    ensures Init(toAscii, v, c, serial, pid).corefile == v.corefile
  {
    hide PlanBootstrap, LegacyZones;
  }

  /** After a start there is a Corefile: the old one, or the fixed text. */
  lemma CorefileArrives(toAscii: string -> string, v: Volume, c: Config, serial: nat, pid: nat)
    ensures Init(toAscii, v, c, serial, pid).corefile ==
      Some(if v.corefile.Some? then v.corefile.value else Join(COREFILE_LINES, "\n"))
  {
    hide PlanBootstrap, LegacyZones, Join;
  }

  // ----- Starting again

  /** No temporary file is left over from a start that was cut off. */
  predicate Clean(v: Volume) {
    forall f :: f in v.zones ==> !IsTemporary(f)
  }

  /** The same but for temporary files. */
  predicate SameFiles(a: Volume, b: Volume) {
    && a.corefile == b.corefile && a.adopted == b.adopted && a.legacy == b.legacy
    && forall f :: f in a.zones.Keys + b.zones.Keys && !IsTemporary(f) ==>
         f in a.zones && f in b.zones && a.zones[f] == b.zones[f]
  }

  /** A second start, by whatever process, leaves what a single start with the second serial would have left. */
  lemma StartTwice(toAscii: string -> string, v: Volume, c: Config, first: nat, second: nat, pid: nat, pid': nat)
    ensures var twice := Init(toAscii, Init(toAscii, v, c, first, pid), c, second, pid');
      var single := Init(toAscii, v, c, second, pid');
      SameFiles(twice, single) && (Clean(v) ==> twice == single)
  {
    hide NormalizeDnsName, PlanBootstrap, Join, LegacyZones, IsTemporary, TemporaryName, NatText;
    var base := WithCorefile(WithLegacy(v));
    var once := Init(toAscii, v, c, first, pid);
    if Clean(v) { LegacyZonesAreClean(v); }
    SameLegacy(v, once);
    SameLegacy(v, base);
    LegacyIsNotTemporary(v);
    SamePlan(toAscii, base, c, first, second);
    PlannedName(toAscii, base, c, first);
    var plan, again := PlanBootstrap(toAscii, base, c, first), PlanBootstrap(toAscii, base, c, second);
    if plan.Writes? {
      var t, t' := TemporaryName(plan.filename, pid), TemporaryName(plan.filename, pid');
      TemporaryIsTemporary(plan.filename, pid);
      TemporaryIsTemporary(plan.filename, pid');
      TemporaryIsTemporary(NormalizeDnsName(toAscii, c.zone).name, pid);
      JoinStartsWithMarker(plan.records);
      assert LegacyZones(v) + once.zones == once.zones;
      assert WithCorefile(WithLegacy(once)) == once;
      PlanAfterWrite(toAscii, base, once, c, second, plan.filename);
      if Clean(v) {
        assert base.zones - {t} == base.zones == base.zones - {t'} && once.zones - {t'} == once.zones;
        assert once.zones[plan.filename := Join(again.records, "\n")]
          == base.zones[plan.filename := Join(again.records, "\n")];
      }
    } else {
      assert LegacyZones(v) + base.zones == base.zones;
      assert WithCorefile(WithLegacy(base)) == base;
    }
  }

  lemma LegacyIsNotTemporary(v: Volume)
    ensures forall f :: f in LegacyZones(v) ==> !IsTemporary(f)
  {
    forall f | f in LegacyZones(v) ensures !IsTemporary(f) {
      assert f[|f| - 5..][1..] == f[|f| - 4..];
      assert ".zone"[1..] == "zone" && "zone"[0] == 'z' && ".tmp"[0] == '.';
    }
  }

  lemma SameLegacy(v: Volume, w: Volume)
    requires v.legacy == w.legacy
    ensures LegacyZones(v) == LegacyZones(w)
  {
  }

  lemma LegacyZonesAreClean(v: Volume)
    requires Clean(v)
    ensures Clean(WithCorefile(WithLegacy(v)))
  {
    hide IsTemporary, LegacyZones;
    LegacyIsNotTemporary(v);
  }

  /** The serial changes only the serial line of the plan. */
  lemma SamePlan(toAscii: string -> string, v: Volume, c: Config, first: nat, second: nat)
    ensures var a, b := PlanBootstrap(toAscii, v, c, first), PlanBootstrap(toAscii, v, c, second);
      && (a.Nothing? <==> b.Nothing?) && (a.Fails? <==> b.Fails?)
      && (a.Writes? ==> b.Writes? && a.filename == b.filename)
  {
    hide NormalizeDnsName, SoaMailbox, NatText, RecordOwner;
  }

  lemma JoinStartsWithMarker(records: seq<string>)
    requires |records| > 1 && records[0] == MARKER
    ensures StartsWith(Join(records, "\n"), MARKER)
  {
    assert Join(records, "\n") == MARKER + "\n" + Join(records[1..], "\n");
  }

  /** The bootstrap file just written does not change the plan. */
  lemma PlanAfterWrite(
    toAscii: string -> string, before: Volume, after: Volume, c: Config, serial: nat, filename: string)
    requires PlanBootstrap(toAscii, before, c, serial).Writes?
      && PlanBootstrap(toAscii, before, c, serial).filename == filename
    requires after.adopted == before.adopted && filename in after.zones && StartsWith(after.zones[filename], MARKER)
    ensures PlanBootstrap(toAscii, after, c, serial) == PlanBootstrap(toAscii, before, c, serial)
  {
    hide NormalizeDnsName, SoaMailbox, NatText, RecordOwner, Records;
  }

  /** Two zone files of one configuration differ in the line of the serial and nowhere else. */
  lemma OnlySerialDiffers(zone: string, rname: string, ip: string, owner: Option<string>, first: nat, second: nat)
    requires OneLine(zone) && OneLine(rname) && OneLine(ip) && (owner.Some? ==> OneLine(owner.value))
    ensures var a, b := Records(zone, rname, ip, owner, first), Records(zone, rname, ip, owner, second);
      && Split(Join(a, "\n"), '\n') == a && Split(Join(b, "\n"), '\n') == b
      && |a| == |b| && forall i :: 0 <= i < |a| && i != SERIAL_LINE ==> a[i] == b[i]
  {
    hide Split, Join, NatText;
    RecordsAreLines(zone, rname, ip, owner, first);
    RecordsAreLines(zone, rname, ip, owner, second);
    SplitJoin(Records(zone, rname, ip, owner, first), '\n');
    SplitJoin(Records(zone, rname, ip, owner, second), '\n');
  }

  lemma {:induction false} NatTextIsDigits(n: nat)
    ensures forall c :: c in NatText(n) ==> IsDigit(c)
  {
    if n >= 10 { NatTextIsDigits(n / 10); }
  }

  predicate OneLine(s: string) {
    '\n' !in s
  }

  lemma OneLineConcat(a: string, b: string)
    ensures OneLine(a + b) <==> OneLine(a) && OneLine(b)
  {
    assert forall c :: c in a + b <==> c in a || c in b;
  }

  lemma MarkerIsLine()
    ensures OneLine(MARKER)
  {
    OneLineConcat("; Nearzero bootstrap zone", " - adopted after first-owner signup");
  }

  lemma SoaTextsAreLines()
    ensures OneLine(" ; serial") && OneLine("  3600 ; refresh") && OneLine("  1800 ; retry")
    ensures OneLine("  604800 ; expire") && OneLine("  300 ; minimum") && OneLine(")")
  {
  }

  lemma RecordTextsAreLines()
    ensures OneLine("@ IN NS ns1.") && OneLine("@ IN NS ns2.") && OneLine("ns1 300 IN A ") && OneLine("ns2 300 IN A ")
    ensures OneLine(" 300 IN A ") && OneLine("") && OneLine("@ IN SOA ns1.")
  {
  }

  lemma FixedTextsAreLines()
    ensures OneLine(MARKER) && OneLine("$ORIGIN ") && OneLine(".") && OneLine("$TTL 300") && OneLine("@ IN SOA ns1.")
    ensures OneLine(". ") && OneLine(" (") && OneLine("  ") && OneLine(" ; serial") && OneLine("  3600 ; refresh")
    ensures OneLine("  1800 ; retry") && OneLine("  604800 ; expire") && OneLine("  300 ; minimum") && OneLine(")")
    ensures OneLine("@ IN NS ns1.") && OneLine("@ IN NS ns2.") && OneLine("ns1 300 IN A ") && OneLine("ns2 300 IN A ")
    ensures OneLine(" 300 IN A ") && OneLine("")
  {
    assert OneLine("$ORIGIN ") && OneLine(".") && OneLine("$TTL 300") && OneLine(". ") && OneLine(" (")
      && OneLine("  ");
    hide OneLine;
    MarkerIsLine();
    SoaTextsAreLines();
    RecordTextsAreLines();
  }

  lemma RecordsAreLines(zone: string, rname: string, ip: string, owner: Option<string>, serial: nat)
    requires OneLine(zone) && OneLine(rname) && OneLine(ip) && (owner.Some? ==> OneLine(owner.value))
    ensures forall r :: r in Records(zone, rname, ip, owner, serial) ==> OneLine(r)
  {
    hide NatText, OneLine;
    FixedTextsAreLines();
    assert OneLine(NatText(serial)) by { NatTextIsDigits(serial); DigitsAreOneLine(NatText(serial)); }
    OneLineConcat("$ORIGIN ", zone);
    OneLineConcat("$ORIGIN " + zone, ".");
    OneLineConcat("@ IN SOA ns1.", zone);
    OneLineConcat("@ IN SOA ns1." + zone, ". ");
    OneLineConcat("@ IN SOA ns1." + zone + ". ", rname);
    OneLineConcat("@ IN SOA ns1." + zone + ". " + rname, " (");
    OneLineConcat("  ", NatText(serial));
    OneLineConcat("  " + NatText(serial), " ; serial");
    OneLineConcat("@ IN NS ns1.", zone);
    OneLineConcat("@ IN NS ns1." + zone, ".");
    OneLineConcat("@ IN NS ns2.", zone);
    OneLineConcat("@ IN NS ns2." + zone, ".");
    OneLineConcat("ns1 300 IN A ", ip);
    OneLineConcat("ns2 300 IN A ", ip);
    if owner.Some? {
      OneLineConcat(owner.value, " 300 IN A ");
      OneLineConcat(owner.value + " 300 IN A ", ip);
    }
  }

  lemma DigitsAreOneLine(s: string)
    requires forall c :: c in s ==> IsDigit(c)
    ensures OneLine(s)
  {
  }

  lemma NormalNameIsOneLine(toAscii: string -> string, value: string)
    requires NormalizeDnsName(toAscii, value).Ok?
    ensures OneLine(NormalizeDnsName(toAscii, value).name)
  {
    hide NormalizeDnsName, Split, IsLabel;
    NormalNameLimits(toAscii, value);
    assert !IsNameChar('\n');
  }

  lemma {:induction false} EscapedIsOneLine(local: string)
    requires forall c :: c in local ==> IsLocalChar(c)
    ensures OneLine(Escape(local))
  {
    hide IsLocalChar;
    if local != "" {
      assert local[0] in local && IsLocalChar(local[0]);
      assert local[0] != '\n' by { assert !IsLocalChar('\n') by { BreakIsNoLocalChar(); } }
      assert forall c :: c in local[1..] ==> c in local;
      EscapedIsOneLine(local[1..]);
      var head := if local[0] == '.' then "\\." else [local[0]];
      assert OneLine(head);
      OneLineConcat(head, Escape(local[1..]));
    }
  }

  lemma BreakIsNoLocalChar()
    ensures !IsLocalChar('\n')
  {
  }

  lemma MailboxIsOneLine(toAscii: string -> string, value: string)
    requires SoaMailbox(toAscii, value).Ok?
    ensures OneLine(SoaMailbox(toAscii, value).name)
  {
    hide NormalizeDnsName, Trim, AfterLast, Escape, OneLine, IsLocalChar;
    var trimmed := Trim(value);
    var after := AfterLast(trimmed, '@');
    var local, domain := trimmed[..after - 1], NormalizeDnsName(toAscii, trimmed[after..]).name;
    EscapedIsOneLine(local);
    NormalNameIsOneLine(toAscii, trimmed[after..]);
    FixedTextsAreLines();
    OneLineConcat(Escape(local), ".");
    OneLineConcat(Escape(local) + ".", domain);
    OneLineConcat(Escape(local) + "." + domain, ".");
  }

  lemma OwnerIsOneLine(hostname: string, zone: string)
    requires OneLine(hostname)
    ensures RecordOwner(hostname, zone).Some? ==> OneLine(RecordOwner(hostname, zone).value)
  {
    if RecordOwner(hostname, zone).Some? && hostname != zone {
      assert forall c :: c in RecordOwner(hostname, zone).value ==> c in hostname;
    }
  }

  /** The same lines except for the serial. */
  predicate SameButSerial(a: string, b: string) {
    var p, q := Split(a, '\n'), Split(b, '\n');
    |p| == |q| && forall i :: 0 <= i < |p| && i != SERIAL_LINE ==> p[i] == q[i]
  }

  lemma PlansDifferInSerial(toAscii: string -> string, v: Volume, c: Config, first: nat, second: nat)
    requires OneLine(c.publicIp) && PlanBootstrap(toAscii, v, c, first).Writes?
    ensures var a, b := PlanBootstrap(toAscii, v, c, first), PlanBootstrap(toAscii, v, c, second);
      && b.Writes? && a.filename == b.filename && SameButSerial(Join(a.records, "\n"), Join(b.records, "\n"))
  {
    hide NormalizeDnsName, SoaMailbox, RecordOwner, Records, OneLine, Split, Join;
    NormalNameIsOneLine(toAscii, c.zone);
    MailboxIsOneLine(toAscii, c.soaEmail);
    var zone, rname := NormalizeDnsName(toAscii, c.zone).name, SoaMailbox(toAscii, c.soaEmail).name;
    var host := NormalizeDnsName(toAscii, c.hostname);
    var owner := if c.hostname == "" then None else RecordOwner(host.name, zone);
    if c.hostname != "" {
      NormalNameIsOneLine(toAscii, c.hostname);
      OwnerIsOneLine(host.name, zone);
    }
    OnlySerialDiffers(zone, rname, c.publicIp, owner, first, second);
  }

  /** Starting a second time, by whatever process, changes nothing but the serial of the zone file. */
  lemma RestartChangesOnlySerial(
    toAscii: string -> string, v: Volume, c: Config, first: nat, second: nat, pid: nat, pid': nat)
    requires c.publicIpOk ==> OneLine(c.publicIp)
    ensures var a := Init(toAscii, v, c, first, pid);
      var b := Init(toAscii, a, c, second, pid');
      && b.(zones := a.zones) == a
      && (Clean(v) ==> a.zones.Keys == b.zones.Keys)
      && forall f :: f in a.zones.Keys + b.zones.Keys && !IsTemporary(f) ==>
           f in a.zones && f in b.zones && (a.zones[f] == b.zones[f] || SameButSerial(a.zones[f], b.zones[f]))
  {
    hide PlanBootstrap, Clean, OneLine, SameButSerial, Join, TemporaryName, IsTemporary, LegacyZones, Init, WithLegacy;
    StartTwice(toAscii, v, c, first, second, pid, pid');
    var base := WithCorefile(WithLegacy(v));
    SamePlan(toAscii, base, c, first, second);
    InitIs(toAscii, v, c, first, pid);
    InitIs(toAscii, v, c, second, pid');
    if PlanBootstrap(toAscii, base, c, first).Writes? {
      PlanNeedsIp(toAscii, base, c, first);
      PlansDifferInSerial(toAscii, base, c, first, second);
    }
  }

  /** What a start leaves, once it is known what it writes. */
  lemma InitIs(toAscii: string -> string, v: Volume, c: Config, serial: nat, pid: nat)
    ensures var base, after := WithCorefile(WithLegacy(v)), Init(toAscii, v, c, serial, pid);
      var plan := PlanBootstrap(toAscii, base, c, serial);
      && after == base.(zones := after.zones)
      && (!plan.Writes? ==> after == base)
      && (plan.Writes? ==>
            var t := TemporaryName(plan.filename, pid);
            && IsTemporary(t) && !IsTemporary(plan.filename) && (Clean(v) ==> t !in base.zones)
            && after.zones == (base.zones - {t})[plan.filename := Join(plan.records, "\n")])
  {
    hide PlanBootstrap, Join, TemporaryName, IsTemporary, LegacyZones, NormalizeDnsName;
    var base := WithCorefile(WithLegacy(v));
    var plan := PlanBootstrap(toAscii, base, c, serial);
    PlannedName(toAscii, base, c, serial);
    if plan.Writes? {
      TemporaryIsTemporary(plan.filename, pid);
      TemporaryIsTemporary(NormalizeDnsName(toAscii, c.zone).name, pid);
      if Clean(v) { LegacyZonesAreClean(v); }
    }
  }

  lemma PlanNeedsIp(toAscii: string -> string, v: Volume, c: Config, serial: nat)
    ensures PlanBootstrap(toAscii, v, c, serial).Writes? ==> c.publicIpOk
  {
  }

  // ----- A start that is cut off

  /** One call that changes the volume. */
  datatype Op =
    | WritesZone(filename: string, text: string)
    | WritesCorefile(text: string)
    | Renames(from: string, to: string)

  function Perform(v: Volume, op: Op): Volume {
    match op
    case WritesZone(f, text) => v.(zones := v.zones[f := text])
    case WritesCorefile(text) => v.(corefile := Some(text))
    case Renames(from, to) => if from in v.zones then v.(zones := (v.zones - {from})[to := v.zones[from]]) else v
  }

  function PerformAll(v: Volume, ops: seq<Op>): Volume
    decreases |ops|
  {
    if ops == [] then v else PerformAll(Perform(v, ops[0]), ops[1..])
  }

  function FirstPart(text: string, k: nat): (r: string)
    ensures r <= text
  {
    if k < |text| then text[..k] else text
  }

  /** The process ends inside a call: a file has k characters of its text, and a rename has not happened. */
  function CutInside(v: Volume, op: Op, k: nat): Volume {
    match op
    case WritesZone(f, text) => Perform(v, WritesZone(f, FirstPart(text, k)))
    case WritesCorefile(text) => Perform(v, WritesCorefile(FirstPart(text, k)))
    case Renames(_, _) => v
  }

  /** The copies of legacy zones, in the order of the directory listing. */
  function CopyOps(v: Volume, names: seq<string>): seq<Op> {
    if names == [] then []
    else
      (if names[0] in LegacyZones(v) && names[0] !in v.zones
        then [WritesZone(names[0], LegacyZones(v)[names[0]])] else [])
      + CopyOps(v, names[1..])
  }

  function CorefileOps(v: Volume): seq<Op> {
    if v.corefile.Some? then [] else [WritesCorefile(Join(COREFILE_LINES, "\n"))]
  }

  function BootstrapOps(toAscii: string -> string, v: Volume, c: Config, serial: nat, pid: nat): seq<Op> {
    match PlanBootstrap(toAscii, v, c, serial)
    case Writes(filename, records) =>
      var temporary := TemporaryName(filename, pid);
      [WritesZone(temporary, Join(records, "\n")), Renames(temporary, filename)]
    case _ => []
  }

  /** All calls of one start. */
  function StartOps(
    toAscii: string -> string, v: Volume, c: Config, serial: nat, pid: nat, names: seq<string>): seq<Op> {
    CopyOps(v, names) + (CorefileOps(v) + BootstrapOps(toAscii, WithCorefile(WithLegacy(v)), c, serial, pid))
  }

  /** The volume when the start ends inside its n-th call; a start with fewer calls is complete. */
  function CutStart(
    toAscii: string -> string, v: Volume, c: Config, serial: nat, pid: nat, names: seq<string>, n: nat, k: nat): Volume
  {
    var ops := StartOps(toAscii, v, c, serial, pid, names);
    if n < |ops| then CutInside(PerformAll(v, ops[..n]), ops[n], k) else PerformAll(v, ops)
  }

  lemma {:induction false} PerformConcat(v: Volume, a: seq<Op>, b: seq<Op>)
    ensures PerformAll(v, a + b) == PerformAll(PerformAll(v, a), b)
    decreases |a|
  {
    hide Perform;
    if a == [] {
      assert a + b == b;
    } else {
      assert (a + b)[1..] == a[1..] + b;
      PerformConcat(Perform(v, a[0]), a[1..], b);
    }
  }

  /** The files that the copies add. */
  function Copied(v: Volume, names: seq<string>): map<string, string> {
    if names == [] then map[]
    else
      (if names[0] in LegacyZones(v) && names[0] !in v.zones then map[names[0] := LegacyZones(v)[names[0]]] else map[])
      + Copied(v, names[1..])
  }

  lemma {:induction false} CopiedFiles(v: Volume, names: seq<string>)
    ensures forall f :: f in Copied(v, names) <==> f in names && f in LegacyZones(v) && f !in v.zones
    ensures forall f :: f in Copied(v, names) ==> Copied(v, names)[f] == LegacyZones(v)[f]
  {
    hide LegacyZones;
    if names != [] {
      CopiedFiles(v, names[1..]);
      assert forall f :: f in names <==> f == names[0] || f in names[1..];
    }
  }

  lemma {:induction false} CopiesAre(v: Volume, w: Volume, names: seq<string>)
    ensures PerformAll(w, CopyOps(v, names)) == w.(zones := w.zones + Copied(v, names))
    decreases |names|
  {
    hide LegacyZones, PerformAll;
    if names == [] {
      PerformNone(w);
      assert w.zones + map[] == w.zones;
    } else {
      var f, rest := names[0], names[1..];
      if f in LegacyZones(v) && f !in v.zones {
        var op := WritesZone(f, LegacyZones(v)[f]);
        CopiesAre(v, Perform(w, op), rest);
        PerformFirst(w, op, CopyOps(v, rest));
        OneMore(w.zones, f, LegacyZones(v)[f], Copied(v, rest));
      } else {
        assert [] + CopyOps(v, rest) == CopyOps(v, rest) && map[] + Copied(v, rest) == Copied(v, rest);
        CopiesAre(v, w, rest);
      }
    }
  }

  lemma PerformFirst(v: Volume, op: Op, rest: seq<Op>)
    ensures PerformAll(v, [op] + rest) == PerformAll(Perform(v, op), rest)
  {
    hide Perform;
    assert ([op] + rest)[1..] == rest;
  }

  lemma OneMore(m: map<string, string>, f: string, text: string, rest: map<string, string>)
    ensures m[f := text] + rest == m + (map[f := text] + rest)
  {
  }

  lemma BootstrapIsItsOps(toAscii: string -> string, v: Volume, c: Config, serial: nat, pid: nat)
    ensures PerformAll(v, BootstrapOps(toAscii, v, c, serial, pid)) == WithBootstrap(toAscii, v, c, serial, pid)
  {
    hide PlanBootstrap, Join, PerformAll, TemporaryName;
    var ops := BootstrapOps(toAscii, v, c, serial, pid);
    if ops == [] {
      PerformNone(v);
    } else {
      assert ops == [ops[0]] + [ops[1]];
      PerformConcat(v, [ops[0]], [ops[1]]);
      PerformOne(v, ops[0]);
      PerformOne(Perform(v, ops[0]), ops[1]);
      assert v.zones[ops[0].filename := ops[0].text] - {ops[0].filename} == v.zones - {ops[0].filename};
    }
  }

  /** The calls of a start, performed to the end, are the start. */
  lemma StartIsItsOps(toAscii: string -> string, v: Volume, c: Config, serial: nat, pid: nat, names: seq<string>)
    requires forall f :: f in LegacyZones(v) ==> f in names
    ensures PerformAll(v, StartOps(toAscii, v, c, serial, pid, names)) == Init(toAscii, v, c, serial, pid)
  {
    hide LegacyZones, Join, PerformAll, CopyOps, BootstrapOps, WithBootstrap, Copied;
    var copies, corefile := CopyOps(v, names), CorefileOps(v);
    var base := WithCorefile(WithLegacy(v));
    PerformConcat(v, copies, corefile + BootstrapOps(toAscii, base, c, serial, pid));
    PerformConcat(PerformAll(v, copies), corefile, BootstrapOps(toAscii, base, c, serial, pid));
    CopiesAre(v, v, names);
    CopiedFiles(v, names);
    assert v.zones + Copied(v, names) == LegacyZones(v) + v.zones;
    if corefile == [] { PerformNone(WithLegacy(v)); } else { PerformOne(WithLegacy(v), corefile[0]); }
    BootstrapIsItsOps(toAscii, base, c, serial, pid);
  }

  lemma PerformNone(v: Volume)
    ensures PerformAll(v, []) == v
  {
  }

  lemma PerformOne(v: Volume, op: Op)
    ensures PerformAll(v, [op]) == Perform(v, op)
  {
    hide Perform;
    assert [op][1..] == [];
  }

  /** Calls before the rename: copies of legacy zones that are not there yet, the Corefile, a temporary file. */
  predicate IsWrite(v: Volume, op: Op) {
    match op
    case WritesZone(f, text) =>
      IsTemporary(f) || (f in LegacyZones(v) && f !in v.zones && text == LegacyZones(v)[f])
    case WritesCorefile(text) => v.corefile.None? && text == Join(COREFILE_LINES, "\n")
    case Renames(_, _) => false
  }

  lemma {:induction false} CopiesAreWrites(v: Volume, names: seq<string>)
    ensures forall op :: op in CopyOps(v, names) ==> op.WritesZone? && IsWrite(v, op)
  {
    hide LegacyZones, IsTemporary;
    if names != [] { CopiesAreWrites(v, names[1..]); }
  }

  lemma WritesBeforeRename(
    toAscii: string -> string, v: Volume, c: Config, serial: nat, pid: nat, names: seq<string>, i: nat)
    requires i < |StartOps(toAscii, v, c, serial, pid, names)|
    ensures var ops := StartOps(toAscii, v, c, serial, pid, names);
      IsWrite(v, ops[i]) || (ops[i].Renames? && i == |ops| - 1)
  {
    hide PlanBootstrap, LegacyZones, Join, TemporaryName, CopyOps, IsTemporary;
    CopiesAreWrites(v, names);
    var ops := StartOps(toAscii, v, c, serial, pid, names);
    var base := WithCorefile(WithLegacy(v));
    var plan := PlanBootstrap(toAscii, base, c, serial);
    if plan.Writes? { TemporaryIsTemporary(plan.filename, pid); }
    if i < |CopyOps(v, names)| {
      assert ops[i] == CopyOps(v, names)[i];
    }
  }

  /** What writes can have left of v: every file as it was, and parts or all of the missing legacy files. */
  predicate OnlyAdded(v: Volume, w: Volume) {
    && w.adopted == v.adopted && w.legacy == v.legacy
    && (v.corefile.Some? ==> w.corefile == v.corefile)
    && (w.corefile.Some? && v.corefile.None? ==> w.corefile.value <= Join(COREFILE_LINES, "\n"))
    && (forall f :: f in v.zones && !IsTemporary(f) ==> f in w.zones && w.zones[f] == v.zones[f])
    && (forall f :: f in w.zones && f !in v.zones && !IsTemporary(f) ==>
          f in LegacyZones(v) && w.zones[f] <= LegacyZones(v)[f])
  }

  lemma {:induction false} WritesOnlyAdd(v: Volume, w: Volume, ops: seq<Op>)
    requires OnlyAdded(v, w) && forall op :: op in ops ==> IsWrite(v, op)
    ensures OnlyAdded(v, PerformAll(w, ops))
    ensures forall f :: f !in v.zones && !IsTemporary(f) && f in PerformAll(w, ops).zones ==>
      PerformAll(w, ops).zones[f] == LegacyZones(v)[f] || (f in w.zones && PerformAll(w, ops).zones[f] == w.zones[f])
    decreases |ops|
  {
    hide LegacyZones, Join, IsTemporary;
    if ops != [] {
      assert ops[0] in ops && forall op :: op in ops[1..] ==> op in ops;
      WritesOnlyAdd(v, Perform(w, ops[0]), ops[1..]);
    }
  }

  /** A start that is cut off before its last call leaves every file as it was and adds missing legacy files; the only
      one of them that may be incomplete is the one it was cut off in. */
  lemma CutStartOnlyAdds(
    toAscii: string -> string, v: Volume, c: Config, serial: nat, pid: nat, names: seq<string>, n: nat, k: nat)
    requires n < |StartOps(toAscii, v, c, serial, pid, names)|
    ensures var w := CutStart(toAscii, v, c, serial, pid, names, n, k);
      var op := StartOps(toAscii, v, c, serial, pid, names)[n];
      && OnlyAdded(v, w)
      && forall f :: f in w.zones && f !in v.zones && !IsTemporary(f) ==>
           || w.zones[f] == LegacyZones(v)[f]
           || (op == WritesZone(f, LegacyZones(v)[f]) && w.zones[f] == LegacyZones(v)[f][..k])
  {
    hide PlanBootstrap, LegacyZones, Join, StartOps, IsTemporary, PerformAll, IsWrite, OnlyAdded;
    var ops := StartOps(toAscii, v, c, serial, pid, names);
    forall op | op in ops[..n] ensures IsWrite(v, op) {
      var i :| 0 <= i < n && ops[..n][i] == op;
      WritesBeforeRename(toAscii, v, c, serial, pid, names, i);
    }
    AddsNothing(v);
    WritesOnlyAdd(v, v, ops[..n]);
    WritesBeforeRename(toAscii, v, c, serial, pid, names, n);
    if !ops[n].Renames? { PartOnlyAdds(v, PerformAll(v, ops[..n]), ops[n], k); }
  }

  lemma AddsNothing(v: Volume)
    ensures OnlyAdded(v, v)
  {
  }

  lemma PartOnlyAdds(v: Volume, w: Volume, op: Op, k: nat)
    requires OnlyAdded(v, w) && IsWrite(v, op)
    ensures OnlyAdded(v, CutInside(w, op, k))
    ensures var after := CutInside(w, op, k);
      forall f :: f in after.zones && f !in v.zones && !IsTemporary(f) ==>
        || (f in w.zones && after.zones[f] == w.zones[f])
        || (op == WritesZone(f, LegacyZones(v)[f]) && after.zones[f] == FirstPart(LegacyZones(v)[f], k))
  {
    hide LegacyZones, Join, IsTemporary;
  }

  /** The listing of the legacy directory holds its zone files. */
  predicate Lists(v: Volume, names: seq<string>) {
    forall f :: f in LegacyZones(v) ==> f in names
  }

  /** Wherever a start is cut off, a zone file that is not being copied is the old one or the one the complete start
      writes. */
  lemma ZoneFileIsWhole(
    toAscii: string -> string, v: Volume, c: Config, serial: nat, pid: nat, names: seq<string>, n: nat, k: nat,
    filename: string)
    requires Lists(v, names) && !IsTemporary(filename) && (filename in LegacyZones(v) ==> filename in v.zones)
    ensures var cut := CutStart(toAscii, v, c, serial, pid, names, n, k);
      var whole := if n < |StartOps(toAscii, v, c, serial, pid, names)| then v else Init(toAscii, v, c, serial, pid);
      && (filename in cut.zones <==> filename in whole.zones)
      && (filename in cut.zones ==> cut.zones[filename] == whole.zones[filename])
  {
    hide LegacyZones, IsTemporary, StartOps, Init, PerformAll, Join;
    if n < |StartOps(toAscii, v, c, serial, pid, names)| {
      CutStartOnlyAdds(toAscii, v, c, serial, pid, names, n, k);
    } else {
      StartIsItsOps(toAscii, v, c, serial, pid, names);
    }
  }

  // ----- Runs

  /** Starts, starts cut off inside a call, adoptions, and edits from outside that write or remove one file. */
  datatype Event =
    | Started(config: Config, serial: nat, pid: nat)
    | CutOff(config: Config, serial: nat, pid: nat, names: seq<string>, n: nat, k: nat)
    | Adopts(zone: string)
    | Edits(filename: string, text: Option<string>)

  function OnEvent(toAscii: string -> string, v: Volume, e: Event): Volume {
    match e
    case Started(c, serial, pid) => Init(toAscii, v, c, serial, pid)
    case CutOff(c, serial, pid, names, n, k) =>
      if Lists(v, names) then CutStart(toAscii, v, c, serial, pid, names, n, k) else v
    case Adopts(zone) => v.(adopted := v.adopted + {zone})
    case Edits(filename, text) =>
      v.(zones := if text.Some? then v.zones[filename := text.value] else v.zones - {filename})
  }

  function Run(toAscii: string -> string, v: Volume, events: seq<Event>): Volume
    decreases |events|
  {
    if events == [] then v else Run(toAscii, OnEvent(toAscii, v, events[0]), events[1..])
  }

  /** A start that is cut off only adds, or it was complete. */
  lemma CutAddsOrCompletes(
    toAscii: string -> string, v: Volume, c: Config, serial: nat, pid: nat, names: seq<string>, n: nat, k: nat)
    requires Lists(v, names)
    ensures var w := CutStart(toAscii, v, c, serial, pid, names, n, k);
      OnlyAdded(v, w) || w == Init(toAscii, v, c, serial, pid)
  {
    hide LegacyZones, IsTemporary, StartOps, Init, PerformAll, Join, OnlyAdded;
    if n < |StartOps(toAscii, v, c, serial, pid, names)| {
      CutStartOnlyAdds(toAscii, v, c, serial, pid, names, n, k);
    } else {
      StartIsItsOps(toAscii, v, c, serial, pid, names);
    }
  }

  lemma ForeignStaysOnce(toAscii: string -> string, v: Volume, e: Event, filename: string)
    requires Foreign(v, filename) && !IsTemporary(filename) && (e.Edits? ==> e.filename != filename)
    ensures var after := OnEvent(toAscii, v, e);
      Foreign(after, filename) && after.zones[filename] == v.zones[filename]
  {
    hide Init, IsTemporary, CutStart, LegacyZones, Join, Lists;
    match e
    case Started(c, serial, pid) => ForeignStays(toAscii, v, c, serial, pid, filename);
    case CutOff(c, serial, pid, names, n, k) =>
      if Lists(v, names) {
        CutAddsOrCompletes(toAscii, v, c, serial, pid, names, n, k);
        ForeignStays(toAscii, v, c, serial, pid, filename);
      }
    case _ =>
  }

  /** Over every run a foreign zone file changes only by an outside edit of that file. */
  lemma {:induction false} ForeignStaysOverRuns(
    toAscii: string -> string, v: Volume, events: seq<Event>, filename: string)
    requires Foreign(v, filename) && !IsTemporary(filename)
    requires forall e :: e in events ==> e.Edits? ==> e.filename != filename
    ensures var after := Run(toAscii, v, events);
      Foreign(after, filename) && after.zones[filename] == v.zones[filename]
    decreases |events|
  {
    hide OnEvent, IsTemporary, Foreign;
    if events != [] {
      var e := events[0];
      assert e in events;
      ForeignStaysOnce(toAscii, v, e, filename);
      assert forall e' :: e' in events[1..] ==> e' in events;
      ForeignStaysOverRuns(toAscii, OnEvent(toAscii, v, e), events[1..], filename);
    }
  }

  lemma StartKeepsRest(toAscii: string -> string, v: Volume, c: Config, serial: nat, pid: nat)
    ensures Init(toAscii, v, c, serial, pid).adopted == v.adopted
    ensures Init(toAscii, v, c, serial, pid).legacy == v.legacy
  {
    hide PlanBootstrap, LegacyZones;
  }

  lemma EventKeepsRest(toAscii: string -> string, v: Volume, e: Event)
    ensures v.corefile.Some? ==> OnEvent(toAscii, v, e).corefile == v.corefile
    ensures v.adopted <= OnEvent(toAscii, v, e).adopted
    ensures OnEvent(toAscii, v, e).legacy == v.legacy
    ensures !e.Adopts? ==> OnEvent(toAscii, v, e).adopted == v.adopted
  {
    hide Init, CutStart, LegacyZones, Join, Lists;
    if e.Started? || e.CutOff? {
      if v.corefile.Some? { CorefileStays(toAscii, v, e.config, e.serial, e.pid); }
      StartKeepsRest(toAscii, v, e.config, e.serial, e.pid);
      if e.CutOff? && Lists(v, e.names) {
        CutAddsOrCompletes(toAscii, v, e.config, e.serial, e.pid, e.names, e.n, e.k);
      }
    }
  }

  /** Over every run the Corefile, once there, and the adoption markers stay. */
  lemma {:induction false} CorefileAndMarkersStay(toAscii: string -> string, v: Volume, events: seq<Event>)
    ensures v.corefile.Some? ==> Run(toAscii, v, events).corefile == v.corefile
    ensures v.adopted <= Run(toAscii, v, events).adopted
    decreases |events|
  {
    hide OnEvent;
    if events != [] {
      EventKeepsRest(toAscii, v, events[0]);
      CorefileAndMarkersStay(toAscii, OnEvent(toAscii, v, events[0]), events[1..]);
    }
  }

  // ----- Where the contents of a zone file come from

  /** The complete zone file of a configuration. */
  predicate IsBootstrapFile(toAscii: string -> string, c: Config, serial: nat, filename: string, text: string) {
    var plan := PlanBootstrap(toAscii, Volume(map[], None, {}, None), c, serial);
    plan.Writes? && plan.filename == filename && Join(plan.records, "\n") == text
  }

  lemma PlanIsBootstrapFile(toAscii: string -> string, v: Volume, c: Config, serial: nat)
    ensures var plan := PlanBootstrap(toAscii, v, c, serial);
      plan.Writes? ==> IsBootstrapFile(toAscii, c, serial, plan.filename, Join(plan.records, "\n"))
  {
    hide NormalizeDnsName, SoaMailbox, RecordOwner, Records, Join;
  }

  /** The event can be what gave the file this text: a complete bootstrap file, a legacy copy, cut off only in a start
      that was cut off, or an edit from outside. */
  predicate Brings(toAscii: string -> string, legacy: map<string, string>, e: Event, filename: string, text: string) {
    match e
    case Started(c, serial, _) =>
      IsBootstrapFile(toAscii, c, serial, filename, text) || (filename in legacy && text == legacy[filename])
    case CutOff(c, serial, _, _, _, _) =>
      IsBootstrapFile(toAscii, c, serial, filename, text) || (filename in legacy && text <= legacy[filename])
    case Adopts(_) => false
    case Edits(f, t) => f == filename && t == Some(text)
  }

  lemma StartBrings(toAscii: string -> string, v: Volume, c: Config, serial: nat, pid: nat, filename: string)
    requires !IsTemporary(filename) && filename in Init(toAscii, v, c, serial, pid).zones
    ensures var text := Init(toAscii, v, c, serial, pid).zones[filename];
      || (filename in v.zones && v.zones[filename] == text)
      || IsBootstrapFile(toAscii, c, serial, filename, text)
      || (filename in LegacyZones(v) && text == LegacyZones(v)[filename])
  {
    hide PlanBootstrap, LegacyZones, Join, Init, IsTemporary, IsBootstrapFile, TemporaryName;
    InitIs(toAscii, v, c, serial, pid);
    PlanIsBootstrapFile(toAscii, WithCorefile(WithLegacy(v)), c, serial);
  }

  lemma EventBrings(toAscii: string -> string, v: Volume, e: Event, filename: string)
    requires !IsTemporary(filename) && filename in OnEvent(toAscii, v, e).zones
    ensures var text := OnEvent(toAscii, v, e).zones[filename];
      (filename in v.zones && v.zones[filename] == text) || Brings(toAscii, LegacyZones(v), e, filename, text)
  {
    hide LegacyZones, Join, Init, IsTemporary, IsBootstrapFile, CutStart, Lists;
    match e
    case Started(c, serial, pid) => StartBrings(toAscii, v, c, serial, pid, filename);
    case CutOff(c, serial, pid, names, n, k) =>
      if Lists(v, names) {
        CutAddsOrCompletes(toAscii, v, c, serial, pid, names, n, k);
        if CutStart(toAscii, v, c, serial, pid, names, n, k) == Init(toAscii, v, c, serial, pid) {
          StartBrings(toAscii, v, c, serial, pid, filename);
        }
      }
    case _ =>
  }

  /** Over every run, cut off starts included, a zone file holds its first contents, a complete bootstrap file, an
      outside edit, or a legacy copy, which is complete unless some start was cut off. */
  lemma {:induction false} ZoneFilesOverRuns(toAscii: string -> string, v: Volume, events: seq<Event>, filename: string)
    requires !IsTemporary(filename) && filename in Run(toAscii, v, events).zones
    ensures var text := Run(toAscii, v, events).zones[filename];
      || (filename in v.zones && v.zones[filename] == text)
      || exists e :: e in events && Brings(toAscii, LegacyZones(v), e, filename, text)
    decreases |events|
  {
    hide OnEvent, LegacyZones, Brings, IsTemporary;
    if events != [] {
      var e, w := events[0], OnEvent(toAscii, v, events[0]);
      assert e in events && forall x :: x in events[1..] ==> x in events;
      EventKeepsRest(toAscii, v, e);
      SameLegacy(v, w);
      ZoneFilesOverRuns(toAscii, w, events[1..], filename);
      if filename in w.zones && w.zones[filename] == Run(toAscii, v, events).zones[filename] {
        EventBrings(toAscii, v, e, filename);
      }
    }
  }

  // ----- Which files stay for ever

  /** All starts use the configuration c, and nobody edits the file. */
  predicate Undisturbed(events: seq<Event>, c: Config, filename: string) {
    forall e :: e in events ==>
      (e.Started? || e.CutOff? ==> e.config == c) && (e.Edits? ==> e.filename != filename)
  }

  /** A start under c writes the file. */
  predicate Rewrites(toAscii: string -> string, v: Volume, c: Config, filename: string) {
    var plan := PlanBootstrap(toAscii, v, c, 0);
    plan.Writes? && plan.filename == filename
  }

  lemma RewritesBySerial(toAscii: string -> string, v: Volume, c: Config, filename: string, serial: nat)
    requires filename in v.zones
    ensures var plan := PlanBootstrap(toAscii, WithCorefile(WithLegacy(v)), c, serial);
      Rewrites(toAscii, v, c, filename) <==> plan.Writes? && plan.filename == filename
  {
    hide PlanBootstrap, LegacyZones;
    SamePlan(toAscii, v, c, 0, serial);
    PlanLooksAtItsFile(toAscii, v, WithCorefile(WithLegacy(v)), c, serial, filename);
  }

  /** Whether a configuration writes a file depends on the contents of that file and the adoption markers. */
  lemma PlanLooksAtItsFile(toAscii: string -> string, v: Volume, w: Volume, c: Config, serial: nat, filename: string)
    requires filename in v.zones && filename in w.zones && v.zones[filename] == w.zones[filename]
      && v.adopted == w.adopted
    ensures var p, q := PlanBootstrap(toAscii, v, c, serial), PlanBootstrap(toAscii, w, c, serial);
      p.Writes? && p.filename == filename <==> q.Writes? && q.filename == filename
  {
    hide NormalizeDnsName, SoaMailbox, RecordOwner, Records;
  }

  lemma MoreAdoptedRewritesLess(toAscii: string -> string, v: Volume, w: Volume, c: Config, filename: string)
    requires filename in v.zones && filename in w.zones && v.zones[filename] == w.zones[filename]
      && v.adopted <= w.adopted
    ensures Rewrites(toAscii, w, c, filename) ==> Rewrites(toAscii, v, c, filename)
  {
    hide NormalizeDnsName, SoaMailbox, RecordOwner, Records;
  }

  lemma StaysOnce(toAscii: string -> string, v: Volume, c: Config, e: Event, filename: string)
    requires !IsTemporary(filename) && filename in v.zones && !Rewrites(toAscii, v, c, filename)
    requires Undisturbed([e], c, filename)
    ensures var w := OnEvent(toAscii, v, e);
      filename in w.zones && w.zones[filename] == v.zones[filename] && !Rewrites(toAscii, w, c, filename)
  {
    hide PlanBootstrap, LegacyZones, Join, Init, IsTemporary, CutStart, Lists, Rewrites, TemporaryName;
    assert e in [e];
    var w := OnEvent(toAscii, v, e);
    if e.Started? || e.CutOff? {
      InitIs(toAscii, v, c, e.serial, e.pid);
      RewritesBySerial(toAscii, v, c, filename, e.serial);
      if e.CutOff? && Lists(v, e.names) {
        CutAddsOrCompletes(toAscii, v, c, e.serial, e.pid, e.names, e.n, e.k);
      }
    }
    EventKeepsRest(toAscii, v, e);
    MoreAdoptedRewritesLess(toAscii, v, w, c, filename);
  }

  lemma {:induction false} StaysOverRuns(
    toAscii: string -> string, v: Volume, c: Config, events: seq<Event>, filename: string)
    requires !IsTemporary(filename) && filename in v.zones && !Rewrites(toAscii, v, c, filename)
    requires Undisturbed(events, c, filename)
    ensures var w := Run(toAscii, v, events); filename in w.zones && w.zones[filename] == v.zones[filename]
    decreases |events|
  {
    hide OnEvent, IsTemporary, Rewrites;
    if events != [] {
      assert events[0] in events && forall e :: e in events[1..] ==> e in events;
      StaysOnce(toAscii, v, c, events[0], filename);
      StaysOverRuns(toAscii, OnEvent(toAscii, v, events[0]), c, events[1..], filename);
    }
  }

  /** Two serials of different length give texts of different length. */
  lemma {:induction false} JoinGrows(a: seq<string>, b: seq<string>, i: nat)
    requires i < |a| == |b| && |a[i]| < |b[i]| && forall j :: 0 <= j < |a| && j != i ==> a[j] == b[j]
    ensures |Join(a, "\n")| < |Join(b, "\n")|
  {
    if i > 0 {
      JoinGrows(a[1..], b[1..], i - 1);
    } else {
      assert a[1..] == b[1..];
    }
  }

  lemma SerialLengths()
    ensures |NatText(0)| == 1 && |NatText(10)| == 2
  {
    assert NatText(10) == NatText(1) + [Digit(0)];
  }

  lemma SerialMatters(toAscii: string -> string, v: Volume, c: Config)
    requires PlanBootstrap(toAscii, v, c, 0).Writes?
    ensures var p, q := PlanBootstrap(toAscii, v, c, 0), PlanBootstrap(toAscii, v, c, 10);
      q.Writes? && Join(p.records, "\n") != Join(q.records, "\n")
  {
    hide NormalizeDnsName, SoaMailbox, RecordOwner, Join, NatText;
    var p, q := PlanBootstrap(toAscii, v, c, 0), PlanBootstrap(toAscii, v, c, 10);
    SerialLengths();
    JoinGrows(p.records, q.records, SERIAL_LINE);
  }

  lemma RunOnce(toAscii: string -> string, v: Volume, e: Event)
    ensures Run(toAscii, v, [e]) == OnEvent(toAscii, v, e)
  {
    hide OnEvent;
    assert [e][1..] == [];
  }

  lemma StartRewrites(toAscii: string -> string, v: Volume, c: Config, filename: string) returns (e: Event)
    requires filename in v.zones && Rewrites(toAscii, v, c, filename)
    ensures e.Started? && e.config == c
    ensures filename in OnEvent(toAscii, v, e).zones && OnEvent(toAscii, v, e).zones[filename] != v.zones[filename]
  {
    hide PlanBootstrap, LegacyZones, Join, Init, IsTemporary, Rewrites, TemporaryName;
    var base := WithCorefile(WithLegacy(v));
    RewritesBySerial(toAscii, v, c, filename, 0);
    RewritesBySerial(toAscii, v, c, filename, 10);
    SerialMatters(toAscii, base, c);
    InitIs(toAscii, v, c, 0, 0);
    InitIs(toAscii, v, c, 10, 0);
    var text := Join(PlanBootstrap(toAscii, base, c, 0).records, "\n");
    e := Started(c, if text != v.zones[filename] then 0 else 10, 0);
  }

  /** A file stays as it is over every run of starts under one configuration, whole or cut off, adoptions and edits of
      other files, if and only if that configuration does not write it. */
  lemma FileStaysExactly(toAscii: string -> string, v: Volume, c: Config, filename: string)
    requires !IsTemporary(filename) && filename in v.zones
    ensures !Rewrites(toAscii, v, c, filename) <==>
      forall events :: Undisturbed(events, c, filename) ==>
        filename in Run(toAscii, v, events).zones && Run(toAscii, v, events).zones[filename] == v.zones[filename]
  {
    hide Rewrites, Run, OnEvent, Undisturbed, IsTemporary;
    if Rewrites(toAscii, v, c, filename) {
      var e := StartRewrites(toAscii, v, c, filename);
      RunOnce(toAscii, v, e);
      assert Undisturbed([e], c, filename) by { OnlyStarts(e, c, filename); }
    } else {
      forall events | Undisturbed(events, c, filename)
        ensures filename in Run(toAscii, v, events).zones
          && Run(toAscii, v, events).zones[filename] == v.zones[filename]
      {
        StaysOverRuns(toAscii, v, c, events, filename);
      }
    }
  }

  lemma OnlyStarts(e: Event, c: Config, filename: string)
    requires e.Started? && e.config == c
    ensures Undisturbed([e], c, filename)
  {
  }

  /** A legacy zone whose copy was cut off stays cut off for ever, if and only if the part that was copied does not
      begin with the marker, or the configuration would not write that file even if it were not there. */
  lemma TruncatedCopyStays(
    toAscii: string -> string, v: Volume, c: Config, serial: nat, pid: nat, names: seq<string>, n: nat, k: nat,
    filename: string, later: Config)
    requires n < |StartOps(toAscii, v, c, serial, pid, names)|
    requires filename in LegacyZones(v) && filename !in v.zones
    requires StartOps(toAscii, v, c, serial, pid, names)[n] == WritesZone(filename, LegacyZones(v)[filename])
    ensures var cut, part := CutStart(toAscii, v, c, serial, pid, names, n, k), FirstPart(LegacyZones(v)[filename], k);
      && filename in cut.zones && cut.zones[filename] == part
      && ((forall events :: Undisturbed(events, later, filename) ==>
             filename in Run(toAscii, cut, events).zones && Run(toAscii, cut, events).zones[filename] == part)
          <==> !(StartsWith(part, MARKER) && Rewrites(toAscii, v, later, filename)))
  {
    hide Run, Undisturbed, LegacyZones, IsTemporary, StartOps, PerformAll, Rewrites;
    LegacyIsNotTemporary(v);
    var cut := CutStart(toAscii, v, c, serial, pid, names, n, k);
    FileStaysExactly(toAscii, cut, later, filename);
    CutStartOnlyAdds(toAscii, v, c, serial, pid, names, n, k);
    MarkerDecides(toAscii, v, cut, later, filename);
  }

  lemma MarkerDecides(toAscii: string -> string, v: Volume, w: Volume, c: Config, filename: string)
    requires filename !in v.zones && filename in w.zones && v.adopted == w.adopted
    ensures Rewrites(toAscii, w, c, filename) <==>
      StartsWith(w.zones[filename], MARKER) && Rewrites(toAscii, v, c, filename)
  {
    hide NormalizeDnsName, SoaMailbox, RecordOwner, Records;
  }

  /** A Corefile whose writing was cut off is never completed. */
  lemma TruncatedCorefileStays(
    toAscii: string -> string, v: Volume, c: Config, serial: nat, pid: nat, names: seq<string>, n: nat, k: nat,
    events: seq<Event>)
    requires n < |StartOps(toAscii, v, c, serial, pid, names)|
    requires StartOps(toAscii, v, c, serial, pid, names)[n].WritesCorefile?
    ensures var cut := CutStart(toAscii, v, c, serial, pid, names, n, k);
      Run(toAscii, cut, events).corefile == Some(FirstPart(Join(COREFILE_LINES, "\n"), k))
  {
    hide Run, LegacyZones, StartOps, PerformAll, Join;
    WritesBeforeRename(toAscii, v, c, serial, pid, names, n);
    CorefileAndMarkersStay(toAscii, CutStart(toAscii, v, c, serial, pid, names, n, k), events);
  }
}
