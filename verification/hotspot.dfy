/** The phone's hotspot-address heuristic (`HotspotInterfaceIPv4`): collect
    the dotted-quad addresses of all network interfaces, drop the Wi-Fi
    address, keep those starting with "192", and answer only when exactly one
    remains. Interface enumeration and the Wi-Fi address lookup are inputs. */
module Hotspot {
  import opened Wrappers
  import opened Decimal

  // ---------------------------------------------------------------- isIPv4

  /** The pieces of `s` between dots; there is always at least one. */
  function Split(s: string): (parts: seq<string>)
    ensures |parts| >= 1
    decreases |s|
  {
    if |s| == 0 then [""]
    else if s[0] == '.' then [""] + Split(s[1..])
    else
      var rest := Split(s[1..]);
      [[s[0]] + rest[0]] + rest[1..]
  }

  /** No piece contains a dot. */
  lemma {:induction false} SplitHasNoDots(s: string)
    ensures forall i :: 0 <= i < |Split(s)| ==> '.' !in Split(s)[i]
    decreases |s|
  {
    if |s| > 0 {
      SplitHasNoDots(s[1..]);
      var rest := Split(s[1..]);
      if s[0] != '.' {
        assert '.' !in [s[0]] + rest[0];
        assert forall i :: 1 <= i < |Split(s)| ==> Split(s)[i] == rest[i];
      }
    }
  }

  /** The pieces put back together with dots between them. */
  function Join(parts: seq<string>): string
    requires |parts| >= 1
    decreases |parts|
  {
    if |parts| == 1 then parts[0] else parts[0] + "." + Join(parts[1..])
  }

  lemma {:induction false} JoinSplit(s: string)
    ensures Join(Split(s)) == s
    decreases |s|
  {
    if |s| > 0 {
      JoinSplit(s[1..]);
      var rest := Split(s[1..]);
      if s[0] != '.' {
        if |rest| == 1 {
        } else {
          assert Join(rest) == rest[0] + "." + Join(rest[1..]);
          assert Split(s)[1..] == rest[1..];
        }
      }
    }
  }

  lemma {:induction false} SplitJoin(parts: seq<string>)
    requires |parts| >= 1
    requires forall i :: 0 <= i < |parts| ==> '.' !in parts[i]
    ensures Split(Join(parts)) == parts
    decreases |parts|, |parts[0]|
  {
    if |parts[0]| > 0 {
      var tail := [parts[0][1..]] + parts[1..];
      assert Join(parts) == [parts[0][0]] + Join(tail) by {
        if |parts| > 1 {
          assert Join(tail) == parts[0][1..] + "." + Join(parts[1..]);
        }
      }
      assert '.' !in tail[0] by {
        assert forall c :: c in parts[0][1..] ==> c in parts[0];
      }
      assert forall i :: 1 <= i < |tail| ==> tail[i] == parts[i];
      SplitJoin(tail);
      assert Join(parts)[1..] == Join(tail);
      assert [parts[0][0]] + parts[0][1..] == parts[0];
    } else if |parts| > 1 {
      SplitJoin(parts[1..]);
      assert Join(parts)[1..] == Join(parts[1..]);
    }
  }

  /** One `[0-9]{1,3}` group. */
  predicate Group(g: string) {
    1 <= |g| <= 3 && AllDigits(g)
  }

  /** `isIPv4`, decided by splitting at the dots. No group is compared with
      255: the pattern is about shape only. */
  predicate IsIPv4(s: string) {
    var parts := Split(s);
    |parts| == 4 && forall i :: 0 <= i < 4 ==> Group(parts[i])
  }

  /** The pattern `^(?:[0-9]{1,3}\.){3}[0-9]{1,3}$` read as a language: four
      groups joined by dots. */
  ghost predicate MatchesPattern(s: string) {
    exists groups: seq<string> ::
      |groups| == 4 && (forall i :: 0 <= i < 4 ==> Group(groups[i])) && Join(groups) == s
  }

  /** The splitting decision accepts exactly the pattern's language. */
  lemma IsIPv4MatchesPattern(s: string)
    ensures IsIPv4(s) <==> MatchesPattern(s)
  {
    if IsIPv4(s) {
      JoinSplit(s);
      assert Join(Split(s)) == s;
    }
    if MatchesPattern(s) {
      var groups: seq<string> :|
        |groups| == 4 && (forall i :: 0 <= i < 4 ==> Group(groups[i])) && Join(groups) == s;
      forall i | 0 <= i < |groups|
        ensures '.' !in groups[i]
      {
        assert Group(groups[i]);
      }
      SplitJoin(groups);
    }
  }

  /** Any four groups joined by dots pass. */
  lemma QuadAccepted(a: string, b: string, c: string, d: string)
    requires Group(a) && Group(b) && Group(c) && Group(d)
    ensures IsIPv4(a + "." + b + "." + c + "." + d)
  {
    var groups := [a, b, c, d];
    assert Join(groups[3..]) == d;
    assert Join(groups[2..]) == c + "." + d;
    assert Join(groups[1..]) == b + "." + c + "." + d;
    assert Join(groups) == a + "." + b + "." + c + "." + d;
    assert IsIPv4(Join(groups)) by {
      IsIPv4MatchesPattern(Join(groups));
    }
  }

  /** Groups above 255 pass: the pattern checks shape only. */
  lemma NoRangeCheck()
    ensures IsIPv4("999.999.999.999")
  {
    assert Group("999");
    QuadAccepted("999", "999", "999", "999");
    assert "999" + "." + "999" + "." + "999" + "." + "999" == "999.999.999.999";
  }

  /** The address an Android hotspot usually gives itself is accepted. */
  lemma TypicalHotspotAddress()
    ensures IsIPv4("192.168.43.1")
  {
    assert Group("192") && Group("168") && Group("43") && Group("1");
    QuadAccepted("192", "168", "43", "1");
    assert "192" + "." + "168" + "." + "43" + "." + "1" == "192.168.43.1";
  }

  /** Three groups are too few. */
  lemma ThreeGroupsRejected()
    ensures !IsIPv4("1.2.3")
  {
    SplitJoin(["1", "2", "3"]);
    assert Join(["1", "2", "3"]) == "1.2.3";
  }

  /** A group of four digits is too long. */
  lemma LongGroupRejected()
    ensures !IsIPv4("1234.1.1.1")
  {
    SplitJoin(["1234", "1", "1", "1"]);
    assert Join(["1234", "1", "1", "1"]) == "1234.1.1.1";
    assert |"1234"| == 4;
  }

  // -------------------------------------------------- address collection

  /** A `NetworkInterface` as far as the collection is concerned: its
      addresses (`null` when unavailable), each with a host address string
      (`null` when unavailable). */
  datatype NetInterface = NetInterface(inetAddresses: Option<seq<Option<string>>>)

  /** The dotted-quad host addresses of one interface, in enumeration order. */
  function InterfaceAddresses(hostAddresses: seq<Option<string>>): seq<string> {
    if |hostAddresses| == 0 then []
    else
      var front := InterfaceAddresses(hostAddresses[..|hostAddresses| - 1]);
      var last := hostAddresses[|hostAddresses| - 1];
      if last.Some? && IsIPv4(last.value) then front + [last.value] else front
  }

  /** An interface contributes exactly its dotted-quad host addresses. */
  lemma {:induction false} InterfaceAddressesMembers(hostAddresses: seq<Option<string>>, a: string)
    ensures a in InterfaceAddresses(hostAddresses) <==> Some(a) in hostAddresses && IsIPv4(a)
    decreases |hostAddresses|
  {
    if |hostAddresses| > 0 {
      var n := |hostAddresses| - 1;
      InterfaceAddressesMembers(hostAddresses[..n], a);
      assert hostAddresses == hostAddresses[..n] + [hostAddresses[n]];
    }
  }

  function IfaceContribution(iface: NetInterface): seq<string> {
    match iface.inetAddresses
    case None => []
    case Some(hostAddresses) => InterfaceAddresses(hostAddresses)
  }

  /** What `getNetworkInterfaceIPv4Addresses` returns, defined declaratively:
      the dotted-quad addresses of every interface, interface by interface. */
  function AllAddresses(ifaces: seq<NetInterface>): seq<string> {
    if |ifaces| == 0 then []
    else AllAddresses(ifaces[..|ifaces| - 1]) + IfaceContribution(ifaces[|ifaces| - 1])
  }

  /** `iface` enumerates `a` as one of its host addresses. */
  predicate Reports(iface: NetInterface, a: string) {
    iface.inetAddresses.Some? && Some(a) in iface.inetAddresses.value
  }

  lemma ContributionMembers(iface: NetInterface, a: string)
    ensures a in IfaceContribution(iface) <==> IsIPv4(a) && Reports(iface, a)
  {
    match iface.inetAddresses
    case None =>
    case Some(hostAddresses) =>
      InterfaceAddressesMembers(hostAddresses, a);
  }

  /** An address is collected exactly when some interface reports it as a
      host address and it has the dotted-quad shape. */
  lemma {:induction false} AllAddressesMembers(ifaces: seq<NetInterface>, a: string)
    ensures a in AllAddresses(ifaces) <==>
              IsIPv4(a) && exists i :: 0 <= i < |ifaces| && Reports(ifaces[i], a)
    decreases |ifaces|
  {
    if |ifaces| > 0 {
      var n := |ifaces| - 1;
      var front := ifaces[..n];
      AllAddressesMembers(front, a);
      assert a in AllAddresses(ifaces) <==> a in AllAddresses(front) || a in IfaceContribution(ifaces[n]) by {
        assert AllAddresses(ifaces) == AllAddresses(front) + IfaceContribution(ifaces[n]);
      }
      ContributionMembers(ifaces[n], a);
      ReportedSplit(ifaces, a);
    }
  }

  /** Some interface of `ifaces` reports `a`. */
  predicate AnyReports(ifaces: seq<NetInterface>, a: string) {
    exists i :: 0 <= i < |ifaces| && Reports(ifaces[i], a)
  }

  /** Some interface reports `a` exactly when one of the first ones or the
      last one does. */
  lemma ReportedSplit(ifaces: seq<NetInterface>, a: string)
    requires |ifaces| > 0
    ensures AnyReports(ifaces, a) <==>
            AnyReports(ifaces[..|ifaces| - 1], a) || Reports(ifaces[|ifaces| - 1], a)
  {
    var n := |ifaces| - 1;
    var front := ifaces[..n];
    if AnyReports(ifaces, a) {
      var i :| 0 <= i < |ifaces| && Reports(ifaces[i], a);
      if i < n {
        assert front[i] == ifaces[i];
      }
    }
    if AnyReports(front, a) {
      var i :| 0 <= i < n && Reports(front[i], a);
      assert ifaces[i] == front[i];
    }
  }

  /** `getNetworkInterfaceIPv4Addresses`, with its two loops; a `null`
      enumeration gives no addresses. */
  method CollectIPv4(interfaces: Option<seq<NetInterface>>) returns (addresses: seq<string>)
    ensures interfaces.None? ==> addresses == []
    ensures interfaces.Some? ==> addresses == AllAddresses(interfaces.value)
    ensures forall i :: 0 <= i < |addresses| ==> IsIPv4(addresses[i])
  {
    addresses := [];
    if interfaces.None? {
      return;
    }
    var ifaces := interfaces.value;
    var i := 0;
    while i < |ifaces|
      invariant 0 <= i <= |ifaces|
      invariant addresses == AllAddresses(ifaces[..i])
    {
      var before := addresses;
      var iface := ifaces[i];
      if iface.inetAddresses.Some? {
        var hostAddresses := iface.inetAddresses.value;
        var j := 0;
        while j < |hostAddresses|
          invariant 0 <= j <= |hostAddresses|
          invariant addresses == before + InterfaceAddresses(hostAddresses[..j])
        {
          var host := hostAddresses[j];
          assert hostAddresses[..j + 1][..j] == hostAddresses[..j];
          if host.Some? && IsIPv4(host.value) {
            addresses := addresses + [host.value];
          }
          j := j + 1;
        }
        assert hostAddresses[..j] == hostAddresses;
      }
      assert ifaces[..i + 1][..i] == ifaces[..i];
      i := i + 1;
    }
    assert ifaces[..i] == ifaces;
    forall k | 0 <= k < |addresses|
      ensures IsIPv4(addresses[k])
    {
      AllAddressesMembers(ifaces, addresses[k]);
    }
  }

  // ------------------------------------------------ getHotspotIPv4Address

  predicate StartsWith192(a: string) {
    |a| >= 3 && a[..3] == "192"
  }

  /** The filter: not the Wi-Fi address (a `null` Wi-Fi address excludes
      nothing) and starting with "192". */
  predicate Candidate(wifi: Option<string>, a: string) {
    wifi != Some(a) && StartsWith192(a)
  }

  /** `s` is `t` with some elements left out, in the same order. */
  predicate Subsequence(s: seq<string>, t: seq<string>)
    decreases |t|
  {
    if |s| == 0 then true
    else if |t| == 0 then false
    else if s[0] == t[0] then Subsequence(s[1..], t[1..])
    else Subsequence(s, t[1..])
  }

  function Candidates(addresses: seq<string>, wifi: Option<string>): (c: seq<string>)
    // Order is kept ...
    ensures Subsequence(c, addresses)
    // ... and each address keeps all its copies when it passes, none otherwise.
    ensures forall a :: multiset(c)[a] == if Candidate(wifi, a) then multiset(addresses)[a] else 0
    decreases |addresses|
  {
    if |addresses| == 0 then []
    else
      var rest := Candidates(addresses[1..], wifi);
      assert addresses == [addresses[0]] + addresses[1..];
      if Candidate(wifi, addresses[0]) then [addresses[0]] + rest else rest
  }

  /** `getHotspotIPv4Address` on the collected addresses and the Wi-Fi address. */
  function HotspotAddress(addresses: seq<string>, wifi: Option<string>): (r: Option<string>)
    ensures r.Some? <==> |Candidates(addresses, wifi)| == 1
    ensures r.Some? ==> r.value in addresses && Candidate(wifi, r.value)
    // The answer is the only address that passes the filter, counting repeats.
    ensures r.Some? ==> multiset(addresses)[r.value] == 1
                        && forall a :: a in addresses && Candidate(wifi, a) ==> a == r.value
  {
    var c := Candidates(addresses, wifi);
    if |c| == 1 then
      SoleCandidate(addresses, wifi);
      Some(c[0])
    else None
  }

  /** A single candidate occurs once in the addresses, and every address
      passing the filter is that one. */
  lemma SoleCandidate(addresses: seq<string>, wifi: Option<string>)
    requires |Candidates(addresses, wifi)| == 1
    ensures var x := Candidates(addresses, wifi)[0];
            && x in addresses && Candidate(wifi, x) && multiset(addresses)[x] == 1
            && forall a :: a in addresses && Candidate(wifi, a) ==> a == x
  {
    var c := Candidates(addresses, wifi);
    var x := c[0];
    assert c == [x];
    assert multiset(c)[x] == 1;
    assert x in multiset(addresses);
    forall a | a in addresses && Candidate(wifi, a)
      ensures a == x
    {
      assert a in multiset(addresses);
      assert a in multiset(c);
    }
  }

  /** Without a Wi-Fi address only the prefix decides. */
  lemma {:induction false} NoWifiOnlyPrefix(addresses: seq<string>)
    ensures forall a :: a in Candidates(addresses, None) <==> a in addresses && StartsWith192(a)
  {
    forall a
      ensures a in Candidates(addresses, None) <==> a in addresses && StartsWith192(a)
    {
      assert a in Candidates(addresses, None) <==> a in multiset(Candidates(addresses, None));
      assert a in addresses <==> a in multiset(addresses);
    }
  }

  /** The typical situations: the Wi-Fi address is skipped; two candidates
      give no answer; a non-192 hotspot is not found. */
  lemma Examples()
    ensures HotspotAddress(["10.0.0.5", "192.168.43.1"], None) == Some("192.168.43.1")
    ensures HotspotAddress(["192.168.1.20", "192.168.43.1"], Some("192.168.1.20")) == Some("192.168.43.1")
    ensures HotspotAddress(["192.168.1.20", "192.168.43.1"], None) == None
    ensures HotspotAddress(["172.20.10.1"], None) == None
  {
    assert ["10.0.0.5", "192.168.43.1"][1..] == ["192.168.43.1"];
    assert ["192.168.1.20", "192.168.43.1"][1..] == ["192.168.43.1"];
    assert ["192.168.43.1"][1..] == [];
    assert !StartsWith192("10.0.0.5") by { assert "10.0.0.5"[..3] == "10."; }
    assert !StartsWith192("172.20.10.1") by { assert "172.20.10.1"[..3] == "172"; }
    assert StartsWith192("192.168.43.1") by { assert "192.168.43.1"[..3] == "192"; }
    assert StartsWith192("192.168.1.20") by { assert "192.168.1.20"[..3] == "192"; }
  }

  /** `getHotspotIPv4Address` end to end: the collected addresses, then the
      selection. */
  method GetHotspotIPv4Address(interfaces: Option<seq<NetInterface>>, wifi: Option<string>) returns (r: Option<string>)
    ensures r.Some? ==> IsIPv4(r.value) && Candidate(wifi, r.value)
    ensures interfaces.None? ==> r == None
    ensures interfaces.Some? ==> r == HotspotAddress(AllAddresses(interfaces.value), wifi)
  {
    var addresses := CollectIPv4(interfaces);
    r := HotspotAddress(addresses, wifi);
    if r.Some? {
      var k :| 0 <= k < |addresses| && addresses[k] == r.value;
    }
  }
}
