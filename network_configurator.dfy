/** `ZES_NetworkConfigurator`: the subnet mask text `ZES_prefixToNetmask`
    computes with 32-bit shifts, and the external commands the apply and
    restore routines hand to `ZES_runCommand`, recorded in order instead of
    being run. The operating system is a parameter. */
module NetworkConfigurator {
  import opened Wire
  import opened Text

  function Pow2(n: nat): (r: nat)
    ensures r >= 1
  {
    if n == 0 then 1 else 2 * Pow2(n - 1)
  }

  lemma {:induction false} Pow2Add(a: nat, b: nat)
    ensures Pow2(a + b) == Pow2(a) * Pow2(b)
    decreases a
  {
    if a > 0 {
      Pow2Add(a - 1, b);
    }
  }

  lemma Pow2Of32()
    ensures Pow2(32) == TwoTo32
  {
    Pow2Add(16, 16);
    Pow2Add(8, 8);
    Pow2Of8();
  }

  lemma Pow2Of8()
    ensures Pow2(8) == 0x100
  {
  }

  /** The shift distance Java uses for `<< (32 - prefix)` on an `int`: only
      the low five bits of the count, which for every `int` prefix is the
      Euclidean remainder modulo 32 (the wrap of `32 - prefix` near the
      smallest `int` is a multiple of 32 and does not change it). */
  function ShiftCount(prefix: int32): (s: nat)
    ensures s < 32
  {
    (32 - prefix as int) % 32
  }

  /** The unsigned 32-bit pattern of `0xffffffff << ShiftCount(prefix)`:
      bits shifted past bit 31 are lost. */
  function MaskValue(prefix: int32): (u: nat)
    ensures u < TwoTo32
  {
    (0xffff_ffff * Pow2(ShiftCount(prefix))) % TwoTo32
  }

  /** `(value >> 24) & 0xff`, `(value >> 16) & 0xff`, `(value >> 8) & 0xff`
      and `value & 0xff`: the four octets, most significant first (the sign
      bits `>>` brings in are cut off by the mask). */
  function MaskOctets(prefix: int32): (o: seq<nat>)
    ensures |o| == 4 && forall i :: 0 <= i < 4 ==> o[i] < 256
  {
    var u := MaskValue(prefix);
    [u / 0x100_0000 % 0x100, u / 0x1_0000 % 0x100, u / 0x100 % 0x100, u % 0x100]
  }

  /** Four numbers in decimal, joined by dots. */
  function DottedQuad(o: seq<nat>): string
    requires |o| == 4
  {
    DecimalText(o[0]) + "." + DecimalText(o[1]) + "." + DecimalText(o[2]) + "." + DecimalText(o[3])
  }

  /** `ZES_prefixToNetmask`: the octets of the shifted pattern, in decimal,
      joined by dots. */
  function PrefixToNetmask(prefix: int32): string {
    DottedQuad(MaskOctets(prefix))
  }

  /** The mask text is four decimal octets separated by exactly three dots,
      seven to fifteen characters long. */
  lemma NetmaskShape(prefix: int32)
    ensures 7 <= |PrefixToNetmask(prefix)| <= 15
    ensures multiset(PrefixToNetmask(prefix))['.'] == 3
  {
    var o := MaskOctets(prefix);
    DecimalTextOctetLength(o[0]);
    DecimalTextOctetLength(o[1]);
    DecimalTextOctetLength(o[2]);
    DecimalTextOctetLength(o[3]);
    NoDots(DecimalText(o[0]));
    NoDots(DecimalText(o[1]));
    NoDots(DecimalText(o[2]));
    NoDots(DecimalText(o[3]));
  }

  lemma NoDots(s: string)
    requires forall i :: 0 <= i < |s| ==> IsDigit(s[i])
    ensures multiset(s)['.'] == 0
  {
  }

  /** The shifted pattern is 2^32 - 2^s: ones from bit `s` up, zeros below. */
  lemma MaskValueIs(prefix: int32)
    ensures MaskValue(prefix) == TwoTo32 - Pow2(ShiftCount(prefix))
  {
    Pow2AtMost31(ShiftCount(prefix));
    AllOnesShifted(Pow2(ShiftCount(prefix)));
  }

  lemma {:induction false} Pow2AtMost31(s: nat)
    requires s <= 31
    ensures Pow2(s) <= TwoTo32 / 2
    decreases 31 - s
  {
    if s == 31 {
      Pow2Of32();
    } else {
      Pow2AtMost31(s + 1);
    }
  }

  /** 0xffffffff times `p`, cut to 32 bits, for `p` a power of two below 2^32. */
  lemma AllOnesShifted(p: nat)
    requires 1 <= p <= TwoTo32 / 2
    ensures (0xffff_ffff * p) % TwoTo32 == TwoTo32 - p
  {
    var x := 0xffff_ffff * p;
    assert x == (p - 1) * TwoTo32 + (TwoTo32 - p);
  }

  /** For a prefix of 1 to 32 the mask has exactly its top `prefix` bits set:
      `2^prefix - 1` (that many ones) above `32 - prefix` zero bits. */
  lemma NetmaskTopBits(prefix: int32)
    requires 1 <= prefix <= 32
    ensures MaskValue(prefix) == (Pow2(prefix as nat) - 1) * Pow2(32 - prefix as int)
  {
    var n, z := prefix as nat, 32 - prefix as int;
    assert ShiftCount(prefix) == z;
    MaskValueIs(prefix);
    Pow2Add(n, z);
    Pow2Of32();
    OnesAbove(Pow2(n), Pow2(z));
  }

  lemma OnesAbove(a: int, b: int)
    ensures (a - 1) * b == a * b - b
  {
  }

  /** The four octets recombine to the 32-bit pattern, so the text carries the
      whole mask. */
  lemma NetmaskOctetsRecombine(prefix: int32)
    ensures var o := MaskOctets(prefix);
      o[0] * 0x100_0000 + o[1] * 0x1_0000 + o[2] * 0x100 + o[3] == MaskValue(prefix)
  {
    var u := MaskValue(prefix);
    assert u / 0x100_0000 % 0x100 == u / 0x100_0000;
    DigitsRecombine(u);
  }

  lemma DecimalTexts()
    ensures DecimalText(0) == "0" && DecimalText(255) == "255"
  {
    assert DecimalText(25) == DecimalText(2) + "5";
  }

  lemma MaskOctets24()
    ensures MaskOctets(24) == [255, 255, 255, 0]
  {
    assert ShiftCount(24) == 8;
    assert Pow2(8) == 256;
    assert MaskValue(24) == (0xffff_ffff * 256) % TwoTo32 == 0xffff_ff00;
  }

  lemma MaskOctetsZero()
    ensures MaskOctets(0) == [255, 255, 255, 255]
  {
    assert ShiftCount(0) == 0;
    assert MaskValue(0) == (0xffff_ffff * 1) % TwoTo32 == 0xffff_ffff;
  }

  lemma DottedQuadTexts()
    ensures DottedQuad([255, 255, 255, 0]) == "255.255.255.0"
    ensures DottedQuad([255, 255, 255, 255]) == "255.255.255.255"
  {
    DecimalTexts();
  }

  /** The usual /24 gives "255.255.255.0". */
  lemma Netmask24()
    ensures PrefixToNetmask(24) == "255.255.255.0"
  {
    MaskOctets24();
    DottedQuadTexts();
  }

  /** A prefix of 0 shifts by 32, which Java reduces to 0, so the mask is all
      ones and the text "255.255.255.255", not "0.0.0.0". */
  lemma NetmaskPrefixZero()
    ensures PrefixToNetmask(0) == "255.255.255.255"
  {
    MaskOctetsZero();
    DottedQuadTexts();
  }

  /** The last argument of the Windows command: the gateway when one is set
      and not blank, "none" otherwise. */
  function GatewayArgument(gateway: Option<string>): (arg: string)
    ensures arg == "none" <==> gateway == None || IsBlank(gateway.value) || gateway.value == "none"
    ensures arg != "none" ==> gateway.Some? && arg == gateway.value
  {
    if gateway.Some? && !IsBlank(gateway.value) then gateway.value else "none"
  }

  /** The configurator's settings (fixed at construction) and the commands it
      has passed to `ZES_runCommand`, oldest first. */
  class Configurator {
    const interfaceName: string
    const staticIp: string
    const prefix: int32
    /** `null` in Java when no gateway is configured. */
    const gateway: Option<string>
    const enabled: bool
    var commands: seq<seq<string>>

    constructor (interfaceName: string, staticIp: string, prefix: int32, gateway: Option<string>, enabled: bool)
      ensures this.interfaceName == interfaceName && this.staticIp == staticIp && this.prefix == prefix
      ensures this.gateway == gateway && this.enabled == enabled && commands == []
    {
      this.interfaceName := interfaceName;
      this.staticIp := staticIp;
      this.prefix := prefix;
      this.gateway := gateway;
      this.enabled := enabled;
      commands := [];
    }

    /** `ip addr flush dev <iface>`, first of both Linux routines. */
    function FlushCommand(): seq<string> {
      ["ip", "addr", "flush", "dev", interfaceName]
    }

    function LinuxApplyPlan(): (plan: seq<seq<string>>)
      ensures |plan| == 3 && plan[0] == FlushCommand()
    {
      [FlushCommand(),
       ["ip", "addr", "add", staticIp + "/" + IntText(prefix as int), "dev", interfaceName],
       ["ip", "link", "set", interfaceName, "up"]]
    }

    function LinuxRestorePlan(): (plan: seq<seq<string>>)
      ensures |plan| == 3 && plan[0] == FlushCommand()
    {
      [FlushCommand(), ["dhclient", "-r", interfaceName], ["dhclient", interfaceName]]
    }

    /** The `netsh` arguments before the gateway. */
    function StaticAddressArguments(): (args: seq<string>)
      ensures |args| == 9
    {
      ["netsh", "interface", "ip", "set", "address", "name=" + interfaceName, "static",
       staticIp, PrefixToNetmask(prefix)]
    }

    function WindowsApplyCommand(): (command: seq<string>)
      ensures |command| == 10
    {
      StaticAddressArguments() + [GatewayArgument(gateway)]
    }

    function WindowsRestoreCommand(): (command: seq<string>)
      ensures |command| == 7
    {
      ["netsh", "interface", "ip", "set", "address", "name=" + interfaceName, "dhcp"]
    }

    /** The commands `ZES_applyStaticIp` runs. */
    function ApplyPlan(isWindows: bool): seq<seq<string>> {
      if !enabled then [] else if isWindows then [WindowsApplyCommand()] else LinuxApplyPlan()
    }

    /** The commands `ZES_restoreDhcp` runs. */
    function RestorePlan(isWindows: bool): seq<seq<string>> {
      if !enabled then [] else if isWindows then [WindowsRestoreCommand()] else LinuxRestorePlan()
    }

    /** `ZES_runCommand`, as far as it is modelled: the command is issued. */
    method RunCommand(command: seq<string>)
      modifies this
      ensures commands == old(commands) + [command]
    {
      commands := commands + [command];
    }

    /** `ZES_applyStaticIp`: nothing when disabled, otherwise the routine for
      the operating system. */
    method ApplyStaticIp(isWindows: bool)
      modifies this
      ensures commands == old(commands) + ApplyPlan(isWindows)
    {
      if !enabled {
        return;
      }
      if isWindows {
        ApplyStaticIpWindows();
      } else {
        ApplyStaticIpLinux();
      }
    }

    /** `ZES_restoreDhcp`: nothing when disabled, otherwise the routine for
      the operating system. */
    method RestoreDhcp(isWindows: bool)
      modifies this
      ensures commands == old(commands) + RestorePlan(isWindows)
    {
      if !enabled {
        return;
      }
      if isWindows {
        RestoreDhcpWindows();
      } else {
        RestoreDhcpLinux();
      }
    }

    method ApplyStaticIpLinux()
      modifies this
      ensures commands == old(commands) + LinuxApplyPlan()
    {
      RunCommand(["ip", "addr", "flush", "dev", interfaceName]);
      RunCommand(["ip", "addr", "add", staticIp + "/" + IntText(prefix as int), "dev", interfaceName]);
      RunCommand(["ip", "link", "set", interfaceName, "up"]);
    }

    method RestoreDhcpLinux()
      modifies this
      ensures commands == old(commands) + LinuxRestorePlan()
    {
      RunCommand(["ip", "addr", "flush", "dev", interfaceName]);
      RunCommand(["dhclient", "-r", interfaceName]);
      RunCommand(["dhclient", interfaceName]);
    }

    /** The argument list is built with one `add` after another. */
    method ApplyStaticIpWindows()
      modifies this
      ensures commands == old(commands) + [WindowsApplyCommand()]
    {
      var command: seq<string> := [];
      command := command + ["netsh"];
      command := command + ["interface"];
      command := command + ["ip"];
      command := command + ["set"];
      command := command + ["address"];
      command := command + ["name=" + interfaceName];
      command := command + ["static"];
      command := command + [staticIp];
      command := command + [PrefixToNetmask(prefix)];
      assert command == StaticAddressArguments();
      if gateway.Some? && !IsBlank(gateway.value) {
        command := command + [gateway.value];
      } else {
        command := command + ["none"];
      }
      RunCommand(command);
    }

    method RestoreDhcpWindows()
      modifies this
      ensures commands == old(commands) + [WindowsRestoreCommand()]
    {
      RunCommand(["netsh", "interface", "ip", "set", "address", "name=" + interfaceName, "dhcp"]);
    }

    /** A disabled configurator issues no command at all. */
    lemma DisabledIssuesNothing(isWindows: bool)
      requires !enabled
      ensures ApplyPlan(isWindows) == [] && RestorePlan(isWindows) == []
    {
    }

    /** Every command names the configured interface, as an argument of its own
      on Linux and as `name=<iface>` for `netsh`. */
    lemma EveryCommandTargetsInterface(isWindows: bool)
      ensures forall c :: c in ApplyPlan(isWindows) + RestorePlan(isWindows) ==>
        if isWindows then "name=" + interfaceName in c else interfaceName in c
    {
      if enabled && !isWindows {
        var a, r := LinuxApplyPlan(), LinuxRestorePlan();
        assert a[0][4] == a[1][5] == a[2][3] == interfaceName;
        assert r[0][4] == r[1][2] == r[2][1] == interfaceName;
      } else if enabled {
        assert WindowsApplyCommand()[5] == WindowsRestoreCommand()[5] == "name=" + interfaceName;
      }
    }

    /** The Windows command sets the static address and the mask computed from
      the prefix, and ends with the gateway only when one is configured and
      not blank. */
    lemma WindowsApplyArguments()
      ensures var c := WindowsApplyCommand();
        && c[7] == staticIp
        && c[8] == PrefixToNetmask(prefix)
        && (gateway.Some? && !IsBlank(gateway.value) ==> c[9] == gateway.value)
        && (gateway == None || IsBlank(gateway.value) ==> c[9] == "none")
    {
    }

    /** Apply then restore on Linux: both start by flushing the interface's
      addresses, and only the apply adds the static one. */
    lemma LinuxRestoreAfterApply()
      requires enabled
      ensures var t := ApplyPlan(false) + RestorePlan(false);
        && |t| == 6 && t[0] == t[3] == FlushCommand()
        && t[1][3] == staticIp + "/" + IntText(prefix as int)
        && t[4] == ["dhclient", "-r", interfaceName] && t[5] == ["dhclient", interfaceName]
    {
    }
  }
}
