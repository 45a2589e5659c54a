/** Startup: decoding a GigE camera's 32-bit current IP into a dotted quad and
    choosing the device whose address equals the configured target. */
module CameraSelect {
  import HexCode

  /** The transport layer a device reports (`nTLayerType`). */
  datatype Layer = GigE | Usb | OtherLayer

  /** `nCurrentIp`: a 32-bit unsigned field, read by Python as a non-negative int. */
  type Uint32 = x: int | 0 <= x < 0x1_0000_0000

  /** The part of an enumerated device's info block the search reads. */
  datatype DeviceInfo = DeviceInfo(layer: Layer, currentIp: Uint32)

  lemma ByteSplit(x: nat)
    ensures x == (x / 0x100) * 0x100 + x % 0x100
  {
  }

  /** The four octets of `nCurrentIp`, most significant first. On a non-negative
      integer, masking eight bits at `k` and shifting them down
      (`(ip & (0xff << k)) >> k`) is `(ip / 2^k) % 256`. */
  function Octets(ip: Uint32): (r: (nat, nat, nat, nat))
    ensures r.0 < 256 && r.1 < 256 && r.2 < 256 && r.3 < 256
    ensures r.0 * 0x100_0000 + r.1 * 0x1_0000 + r.2 * 0x100 + r.3 == ip
  {
    var nip1 := (ip / 0x100_0000) % 0x100;  // (ip & 0xff000000) >> 24
    var nip2 := (ip / 0x1_0000) % 0x100;    // (ip & 0x00ff0000) >> 16
    var nip3 := (ip / 0x100) % 0x100;       // (ip & 0x0000ff00) >> 8
    var nip4 := ip % 0x100;                 // ip & 0x000000ff
    assert ip / 0x1_0000 == (ip / 0x100) / 0x100;
    assert ip / 0x100_0000 == (ip / 0x1_0000) / 0x100;
    assert ip / 0x100_0000 < 0x100;
    ByteSplit(ip);
    ByteSplit(ip / 0x100);
    ByteSplit(ip / 0x1_0000);
    (nip1, nip2, nip3, nip4)
  }

  /** Python's `str` of a non-negative integer. */
  function Decimal(n: nat): (r: string)
    ensures |r| >= 1
    decreases n
  {
    if n < 10 then [('0' as int + n) as char] else Decimal(n / 10) + [('0' as int + n % 10) as char]
  }

  lemma {:induction false} DecimalDigits(n: nat)
    ensures AllDecimalDigits(Decimal(n))
    decreases n
  {
    if n >= 10 {
      DecimalDigits(n / 10);
    }
  }

  /** The value of a string of decimal digits. */
  function DecimalValue(s: string): nat
    requires AllDecimalDigits(s)
  {
    if s == [] then 0 else DecimalValue(s[..|s| - 1]) * 10 + (s[|s| - 1] as int - '0' as int)
  }

  lemma {:induction false} DecimalRoundTrip(n: nat)
    ensures AllDecimalDigits(Decimal(n)) && DecimalValue(Decimal(n)) == n
    decreases n
  {
    DecimalDigits(n);
    if n >= 10 {
      var d := Decimal(n);
      assert d[..|d| - 1] == Decimal(n / 10);
      DecimalRoundTrip(n / 10);
    }
  }

  predicate AllDecimalDigits(s: string) {
    forall i :: 0 <= i < |s| ==> '0' <= s[i] <= '9'
  }

  /** The f-string that joins four fields with dots. */
  function JoinDotted(a: string, b: string, c: string, d: string): string {
    a + "." + b + "." + c + "." + d
  }

  /** `f"{nip1}.{nip2}.{nip3}.{nip4}"`. */
  function DottedQuad(ip: Uint32): string {
    var (nip1, nip2, nip3, nip4) := Octets(ip);
    JoinDotted(Decimal(nip1), Decimal(nip2), Decimal(nip3), Decimal(nip4))
  }

  /** The position of the first '.' in a string (its length when there is none). */
  function FirstDot(s: string): (k: nat)
    ensures k <= |s|
  {
    if s == [] || s[0] == '.' then 0 else 1 + FirstDot(s[1..])
  }

  lemma {:induction false} FirstDotAfterDigits(x: string, y: string)
    requires AllDecimalDigits(x)
    ensures FirstDot(x + "." + y) == |x|
    decreases |x|
  {
    if x != [] {
      assert (x + "." + y)[1..] == x[1..] + "." + y;
      FirstDotAfterDigits(x[1..], y);
    }
  }

  /** A string joined at a '.' that does not occur in its first part splits back uniquely. */
  lemma SplitAtDot(x: string, y: string, x': string, y': string)
    requires AllDecimalDigits(x) && AllDecimalDigits(x')
    requires x + "." + y == x' + "." + y'
    ensures x == x' && y == y'
  {
    var s := x + "." + y;
    FirstDotAfterDigits(x, y);
    FirstDotAfterDigits(x', y');
    assert x == s[..|x|] && x' == s[..|x'|];
    assert y == s[|x| + 1..] && y' == s[|x'| + 1..];
  }

  /** Four digit strings are recovered from their dotted join. */
  lemma JoinDottedInjective(a: string, b: string, c: string, d: string,
                            a': string, b': string, c': string, d': string)
    requires AllDecimalDigits(a) && AllDecimalDigits(b) && AllDecimalDigits(c)
    requires AllDecimalDigits(a') && AllDecimalDigits(b') && AllDecimalDigits(c')
    requires JoinDotted(a, b, c, d) == JoinDotted(a', b', c', d')
    ensures a == a' && b == b' && c == c' && d == d'
  {
    assert JoinDotted(a, b, c, d) == a + "." + (b + "." + (c + "." + d));
    assert JoinDotted(a', b', c', d') == a' + "." + (b' + "." + (c' + "." + d'));
    SplitAtDot(a, b + "." + (c + "." + d), a', b' + "." + (c' + "." + d'));
    SplitAtDot(b, c + "." + d, b', c' + "." + d');
    SplitAtDot(c, d, c', d');
  }

  lemma DecimalInjective(m: nat, n: nat)
    requires Decimal(m) == Decimal(n)
    ensures m == n
  {
    DecimalRoundTrip(m);
    DecimalRoundTrip(n);
  }

  /** Different addresses never print the same: comparing dotted quads is comparing addresses. */
  lemma DottedQuadInjective(ip1: Uint32, ip2: Uint32)
    requires DottedQuad(ip1) == DottedQuad(ip2)
    ensures ip1 == ip2
  {
    var (a, b, c, d) := Octets(ip1);
    var (a', b', c', d') := Octets(ip2);
    DecimalDigits(a);
    DecimalDigits(b);
    DecimalDigits(c);
    DecimalDigits(a');
    DecimalDigits(b');
    DecimalDigits(c');
    JoinDottedInjective(Decimal(a), Decimal(b), Decimal(c), Decimal(d),
                        Decimal(a'), Decimal(b'), Decimal(c'), Decimal(d'));
    DecimalInjective(a, a');
    DecimalInjective(b, b');
    DecimalInjective(c, c');
    DecimalInjective(d, d');
  }

  /** The condition under which the search records a device's index. */
  predicate Matches(dev: DeviceInfo, target: string) {
    dev.layer == GigE && DottedQuad(dev.currentIp) == target
  }

  /** When the target is itself a dotted quad, a device matches exactly when it is a
      GigE device at that address. */
  lemma MatchesAddress(dev: DeviceInfo, targetIp: Uint32)
    ensures Matches(dev, DottedQuad(targetIp)) <==> dev.layer == GigE && dev.currentIp == targetIp
  {
    if Matches(dev, DottedQuad(targetIp)) {
      DottedQuadInjective(dev.currentIp, targetIp);
    }
  }

  /** The default `CAMERA_IP`, 169.254.147.1, is the dotted quad of 0xA9FE9301. */
  lemma DefaultTargetAddress()
    ensures DottedQuad(0xA9FE_9301) == "169.254.147.1"
  {
    var o := Octets(0xA9FE_9301);
    assert o == (169, 254, 147, 1);
    assert Decimal(169) == "169";
    assert Decimal(254) == "254";
    assert Decimal(147) == "147";
  }

  /** No device in `devices[lo..hi]` matches the target. */
  predicate NoMatchIn(devices: seq<DeviceInfo>, target: string, lo: int, hi: int)
    requires 0 <= lo <= hi <= |devices|
  {
    forall j :: lo <= j < hi ==> !Matches(devices[j], target)
  }

  /** The scan over the enumerated devices; it never breaks, so the last match wins. */
  method FindTargetCamera(devices: seq<DeviceInfo>, target: string) returns (index: int)
    ensures -1 <= index < |devices|
    ensures index == -1 <==> NoMatchIn(devices, target, 0, |devices|)
    ensures index >= 0 ==> Matches(devices[index], target) && devices[index].layer == GigE
    ensures index >= 0 ==> NoMatchIn(devices, target, index + 1, |devices|)
  {
    index := -1;
    var i := 0;
    while i < |devices|
      invariant 0 <= i <= |devices|
      invariant -1 <= index < i
      invariant index == -1 ==> NoMatchIn(devices, target, 0, i)
      invariant index >= 0 ==> Matches(devices[index], target) && NoMatchIn(devices, target, index + 1, i)
    {
      if devices[i].layer == GigE {
        var cameraIp := DottedQuad(devices[i].currentIp);
        if cameraIp == target {
          index := i;
        }
      }
      i := i + 1;
    }
  }

  /** How camera enumeration and selection ends: a chosen index, or the reason startup exits. */
  datatype Selection =
    | Selected(index: nat)
    | EnumFailed(code: string)   // `MV_CC_EnumDevices` returned non-zero; code in hex
    | NoDevices
    | TargetNotFound

  /** Enumeration status check, empty-list check and the target search, in the script's order. */
  method SelectTargetCamera(enumRet: int, devices: seq<DeviceInfo>, target: string) returns (r: Selection)
    requires enumRet >= -HexCode.TWO_POW_32
    ensures r.EnumFailed? <==> enumRet != 0
    ensures r.EnumFailed? ==> HexCode.Canonical(r.code) && HexCode.HexValue(r.code) == HexCode.Shifted(enumRet)
    ensures r.NoDevices? <==> enumRet == 0 && |devices| == 0
    ensures r.TargetNotFound? <==> enumRet == 0 && |devices| > 0 && NoMatchIn(devices, target, 0, |devices|)
    ensures r.Selected? ==> r.index < |devices| && Matches(devices[r.index], target)
    ensures r.Selected? ==> NoMatchIn(devices, target, r.index + 1, |devices|)
  {
    if enumRet != 0 {
      var code := HexCode.ToHexStr(enumRet);
      return EnumFailed(code);
    }
    if |devices| == 0 {
      return NoDevices;
    }
    var index := FindTargetCamera(devices, target);
    if index < 0 {
      return TargetNotFound;
    }
    return Selected(index);
  }
}
