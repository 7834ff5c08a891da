/**
  Local-address discovery (src-tauri/src/lib.rs): the private-range test of
  section 3 of RFC 1918 and the first-match search over the host's
  interfaces. The interface list is an input.
*/
module Network {
  import opened Wrappers
  import Pairing

  type Octet = b: int | 0 <= b < 256

  /** An IPv4 address as its four octets, most significant first. */
  datatype Ipv4 = Ipv4(o0: Octet, o1: Octet, o2: Octet, o3: Octet) {
    function Octets(): (r: seq<Octet>)
      ensures |r| == 4
    {
      [o0, o1, o2, o3]
    }

    /** The address as one 32-bit number. */
    function Value(): (r: nat)
      ensures r < 0x1_0000_0000
    {
      ((o0 * 256 + o1) * 256 + o2) * 256 + o3
    }
  }

  /** An interface address; IPv6 addresses are carried but never chosen. */
  datatype IpAddr = V4(v4: Ipv4) | V6(segments: seq<int>)

  datatype Interface = Interface(name: string, ip: IpAddr)

  // ---------------------------------------------------------------------------
  // Private ranges
  // ---------------------------------------------------------------------------

  /** `is_local_network_ip` (lib.rs:58-62): 10/8, 172.16/12 or 192.168/16, decided by the first two octets. */
  predicate IsLocalNetworkIp(ip: Ipv4) {
    ip.Octets()[0] == 10
    || (ip.Octets()[0] == 172 && 16 <= ip.Octets()[1] <= 31)
    || (ip.Octets()[0] == 192 && ip.Octets()[1] == 168)
  }

  /** 2 to the power `n`. */
  function Pow2(n: nat): (r: nat)
    ensures r > 0
  {
    if n == 0 then 1 else 2 * Pow2(n - 1)
  }

  /** `ip` lies in the CIDR block `base/prefix`: the top `prefix` bits agree. */
  predicate InBlock(ip: Ipv4, base: Ipv4, prefix: nat)
    requires prefix <= 32
  {
    ip.Value() / Pow2(32 - prefix) == base.Value() / Pow2(32 - prefix)
  }

  /** The three blocks reserved for private internets by section 3 of RFC 1918. */
  predicate InRfc1918Block(ip: Ipv4) {
    InBlock(ip, Ipv4(10, 0, 0, 0), 8)
    || InBlock(ip, Ipv4(172, 16, 0, 0), 12)
    || InBlock(ip, Ipv4(192, 168, 0, 0), 16)
  }

  lemma Pow2Values()
    ensures Pow2(24) == 0x100_0000 && Pow2(20) == 0x10_0000 && Pow2(16) == 0x1_0000
  {
    assert Pow2(8) == 256;
    assert Pow2(16) == 256 * Pow2(8) by {
      assert Pow2(12) == 16 * Pow2(8);
      assert Pow2(16) == 16 * Pow2(12);
    }
    assert Pow2(20) == 16 * Pow2(16) by {
      assert Pow2(18) == 4 * Pow2(16);
    }
    assert Pow2(24) == 16 * Pow2(20) by {
      assert Pow2(22) == 4 * Pow2(20);
    }
  }

  /** The top 8, 12 and 16 bits of an address, read from its octets. */
  lemma TopBits(ip: Ipv4)
    ensures ip.Value() / 0x100_0000 == ip.o0
    ensures ip.Value() / 0x10_0000 == ip.o0 * 16 + ip.o1 / 16
    ensures ip.Value() / 0x1_0000 == ip.o0 * 256 + ip.o1
  {
    var low16 := ip.o2 * 256 + ip.o3;
    assert 0 <= low16 < 0x1_0000;
    assert ip.Value() == ip.o0 * 0x100_0000 + ip.o1 * 0x1_0000 + low16;
    var low20 := (ip.o1 % 16) * 0x1_0000 + low16;
    assert 0 <= low20 < 0x10_0000;
    assert ip.o1 == (ip.o1 / 16) * 16 + ip.o1 % 16;
    assert ip.Value() == (ip.o0 * 16 + ip.o1 / 16) * 0x10_0000 + low20;
    var low24 := ip.o1 * 0x1_0000 + low16;
    assert 0 <= low24 < 0x100_0000;
    assert ip.Value() == ip.o0 * 0x100_0000 + low24;
  }

  /** The octet test is exactly membership of the RFC 1918 blocks. */
  lemma LocalIffRfc1918(ip: Ipv4)
    ensures IsLocalNetworkIp(ip) <==> InRfc1918Block(ip)
  {
    Pow2Values();
    TopBits(ip);
    TopBits(Ipv4(10, 0, 0, 0));
    TopBits(Ipv4(172, 16, 0, 0));
    TopBits(Ipv4(192, 168, 0, 0));
    assert InBlock(ip, Ipv4(172, 16, 0, 0), 12) <==> ip.o0 * 16 + ip.o1 / 16 == 172 * 16 + 1;
    assert ip.o0 * 16 + ip.o1 / 16 == 172 * 16 + 1 <==> ip.o0 == 172 && ip.o1 / 16 == 1;
  }

  /** Only the first two octets matter. */
  lemma FirstTwoOctetsDecide(a: Ipv4, b: Ipv4)
    requires a.o0 == b.o0 && a.o1 == b.o1
    ensures IsLocalNetworkIp(a) == IsLocalNetworkIp(b)
  {
    assert a.Octets()[..2] == b.Octets()[..2];
  }

  /** The edges of 172.16/12 and of 192.168/16. */
  lemma RangeBoundaries(o2: Octet, o3: Octet)
    ensures IsLocalNetworkIp(Ipv4(172, 16, o2, o3)) && IsLocalNetworkIp(Ipv4(172, 31, o2, o3))
    ensures !IsLocalNetworkIp(Ipv4(172, 15, o2, o3)) && !IsLocalNetworkIp(Ipv4(172, 32, o2, o3))
    ensures IsLocalNetworkIp(Ipv4(192, 168, o2, o3)) && !IsLocalNetworkIp(Ipv4(192, 169, o2, o3))
    ensures IsLocalNetworkIp(Ipv4(10, 255, o2, o3)) && !IsLocalNetworkIp(Ipv4(11, 0, o2, o3))
  {
  }

  // ---------------------------------------------------------------------------
  // Dotted-decimal text
  // ---------------------------------------------------------------------------

  predicate IsDigit(c: char) {
    '0' <= c <= '9'
  }

  /** The decimal text of `n`, without leading zeros. */
  function Decimal(n: nat): (s: string)
    ensures |s| >= 1 && forall i | 0 <= i < |s| :: IsDigit(s[i])
    ensures |s| > 1 ==> s[0] != '0'
    decreases n
  {
    if n < 10 then [(48 + n) as char]
    else Decimal(n / 10) + [(48 + n % 10) as char]
  }

  /** The number a string of digits denotes. */
  function DigitsValue(s: string): nat
    requires forall i | 0 <= i < |s| :: IsDigit(s[i])
  {
    if s == [] then 0
    else
      assert IsDigit(s[|s| - 1]);
      10 * DigitsValue(s[..|s| - 1]) + (s[|s| - 1] as int - '0' as int)
  }

  lemma {:induction false} DecimalRoundTrip(n: nat)
    ensures DigitsValue(Decimal(n)) == n
    decreases n
  {
    if n >= 10 {
      DecimalRoundTrip(n / 10);
      var s := Decimal(n);
      assert s[..|s| - 1] == Decimal(n / 10);
    }
  }

  /** `Ipv4Addr::to_string`: the four octets in decimal, separated by dots. */
  function Display(ip: Ipv4): (s: string)
    ensures |s| >= 7
  {
    Decimal(ip.o0) + "." + Decimal(ip.o1) + "." + Decimal(ip.o2) + "." + Decimal(ip.o3)
  }

  /**
    The dotted form reads back: split at the dots, it has four fields, the
    decimal text of each octet in order, and each field denotes its octet.
  */
  lemma DisplayParses(ip: Ipv4)
    ensures var fields := Pairing.Split(Display(ip), '.');
      && fields == [Decimal(ip.o0), Decimal(ip.o1), Decimal(ip.o2), Decimal(ip.o3)]
      && forall i | 0 <= i < 4 :: DigitsValue(fields[i]) == ip.Octets()[i]
  {
    var parts := [Decimal(ip.o0), Decimal(ip.o1), Decimal(ip.o2), Decimal(ip.o3)];
    forall i | 0 <= i < 4
      ensures '.' !in parts[i]
      ensures DigitsValue(parts[i]) == ip.Octets()[i]
    {
      DecimalRoundTrip(ip.Octets()[i]);
    }
    assert parts[1..][1..] == parts[2..] && parts[2..][1..] == parts[3..];
    assert Pairing.Join(parts[3..], ".") == parts[3];
    assert Pairing.Join(parts[2..], ".") == parts[2] + "." + parts[3];
    assert Pairing.Join(parts[1..], ".") == parts[1] + "." + (parts[2] + "." + parts[3]);
    assert Pairing.Join(parts, ".") == Display(ip);
    Pairing.SplitUnique(Display(ip), '.', parts);
  }

  // ---------------------------------------------------------------------------
  // First local address
  // ---------------------------------------------------------------------------

  predicate IsLocalV4(a: IpAddr) {
    a.V4? && IsLocalNetworkIp(a.v4)
  }

  /** The first private IPv4 address in interface order. */
  function FirstLocal(ifaces: seq<Interface>): (r: Option<Ipv4>)
  {
    if ifaces == [] then None
    else if IsLocalV4(ifaces[0].ip) then Some(ifaces[0].ip.v4)
    else FirstLocal(ifaces[1..])
  }

  /** `FirstLocal` finds an address exactly when one exists, and finds the earliest. */
  lemma {:induction false} FirstLocalIsFirst(ifaces: seq<Interface>)
    ensures FirstLocal(ifaces).None? <==> forall i | 0 <= i < |ifaces| :: !IsLocalV4(ifaces[i].ip)
    ensures FirstLocal(ifaces).Some? ==>
              exists i | 0 <= i < |ifaces| :: ifaces[i].ip == V4(FirstLocal(ifaces).value)
                && IsLocalV4(ifaces[i].ip) && forall h | 0 <= h < i :: !IsLocalV4(ifaces[h].ip)
  {
    if ifaces != [] {
      FirstLocalIsFirst(ifaces[1..]);
      if !IsLocalV4(ifaces[0].ip) {
        if FirstLocal(ifaces).Some? {
          var i :| 0 <= i < |ifaces| - 1 && ifaces[1..][i].ip == V4(FirstLocal(ifaces).value)
                   && IsLocalV4(ifaces[1..][i].ip) && forall h | 0 <= h < i :: !IsLocalV4(ifaces[1..][h].ip);
          assert ifaces[i + 1] == ifaces[1..][i];
          forall h | 0 <= h < i + 1 ensures !IsLocalV4(ifaces[h].ip) {
            if h > 0 { assert ifaces[h] == ifaces[1..][h - 1]; }
          }
        } else {
          forall i | 0 <= i < |ifaces| ensures !IsLocalV4(ifaces[i].ip) {
            if i > 0 { assert ifaces[i] == ifaces[1..][i - 1]; }
          }
        }
      } else {
        assert ifaces[0].ip == V4(FirstLocal(ifaces).value);
      }
    }
  }

  /** The answer `get_ip` gives for a list of interfaces. */
  function LocalIpText(ifaces: seq<Interface>): string {
    match FirstLocal(ifaces)
    case Some(a) => Display(a)
    case None => ""
  }

  /**
    `get_ip` (lib.rs:41-56) over the interfaces `get_if_addrs` lists: the
    dotted form of the first private IPv4 address, or "" when there is none.
  */
  method GetIp(ifaces: seq<Interface>) returns (ip: string)
    ensures ip == LocalIpText(ifaces)
    ensures ip == "" <==> forall i | 0 <= i < |ifaces| :: !IsLocalV4(ifaces[i].ip)
  {
    FirstLocalIsFirst(ifaces);
    ip := "";
    var n := 0;
    while n < |ifaces|
      invariant 0 <= n <= |ifaces|
      invariant FirstLocal(ifaces) == FirstLocal(ifaces[n..])
      invariant ip == ""
    {
      var iface := ifaces[n];
      assert ifaces[n..][0] == iface && ifaces[n..][1..] == ifaces[n + 1..];
      match iface.ip {
        case V4(ipv4) =>
          if IsLocalNetworkIp(ipv4) {
            ip := Display(ipv4);
            return;
          }
        case V6(_) =>
      }
      n := n + 1;
    }
  }
}
