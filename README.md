# DHCP responder and network configurator, modelled in Dafny

This project models the core of a minimal DHCP responder that gives a single
pre-configured IPv4 address to a headless device. It also models the host
network configuration that sits beside the responder.

**The responder (`ZES_DhcpServer`).**

- `ZES_handlePacket` decodes a BOOTP/DHCP request: the fixed header of section 2 of RFC 2131 and the magic cookie of section 3 of RFC 2131.
- It then scans the tag/length/value option area of section 2 of RFC 2132:
  - Pad and End are skipped and stop the scan (sections 3.1 and 3.2);
  - Requested IP Address is section 9.1;
  - DHCP Message Type is section 9.6.
- It answers DISCOVER with OFFER and REQUEST with ACK.
- `ZES_sendReply` lays the reply out in a 300-octet `ByteBuffer`.
- `ZES_formatMac` and `ZES_messageTypeLabel` build the line logged after a reply is sent.

**The configurator (`ZES_NetworkConfigurator`).**

- `ZES_prefixToNetmask` turns a CIDR prefix into dotted-quad text using 32-bit shifts.
- The apply and restore routines issue `ip`/`dhclient` commands on Linux and `netsh` commands on Windows. Each is guarded by `enabled`.

**Modules.**

- `Wire`:
  - octets, Java `int` as a 32-bit two's-complement `newtype`;
  - `ByteBuffer.putInt`/`getInt` and their round trips.
- `Text`:
  - `Integer.toString`, `String.format("%02x")` and `String.isBlank`.
- `DhcpOptions`:
  - the option scan as a function `Scan` over the received octets;
  - `Scan` never sees an octet past `packet.getLength()`: it is given only those octets, and every index it takes is checked against them;
  - what the scan recovers from a well-formed option area, with truncation tolerance and the underflow case.
- `DhcpReply`:
  - the reply as a value, `EncodeReply`, with its layout proved octet range by octet range;
  - `ReplyWriter`, a class over a 300-octet array with a write position, as the buffer `ZES_sendReply` fills with successive `put` calls;
  - `BuildReply`/`SendReply`, proved to produce exactly `EncodeReply`;
  - `FormatMac`, the `StringBuilder` loop, proved equal to its specification.
- `DhcpServer`:
  - `Handle`, what happens to a datagram: dropped, replied (with the datagram, whether the address-mismatch warning is logged, and the info line), or `BufferUnderflow`;
  - `HandlePacket` and `ScanOptions`, the cursor-based imperative handler over the receive array, proved equal to `Handle`;
  - the dispatch, drop and reply properties, and the lone-tag finding below.
- `NetworkConfigurator`:
  - the netmask arithmetic, with Java's 5-bit shift count made explicit;
  - a `Configurator` class whose `commands` trace records, in order, the argument lists handed to `ZES_runCommand`.
  - The operating system is a parameter, `isWindows`.

Where the code departs from what it is meant to do, the model follows the code. The option scan is meant to be truncation-safe: lines 159-161 of `ZES_DhcpServer.java` stop the scan without error when a declared length runs past the buffer. As written, it still throws when the last octet is a tag with no length octet after it (see Findings).

## Model

| member | source | states |
|---|---|---|
| Wire.Unsigned | src/main/java/com/zes/device/ZES_DhcpServer.java:190 | the unsigned 32-bit pattern of a Java `int` is below 2^32 and congruent to it modulo 2^32 |
| Wire.BigEndian32 | src/main/java/com/zes/device/ZES_DhcpServer.java:190 | `putInt` writes exactly four octets |
| Wire.ReadInt32 | src/main/java/com/zes/device/ZES_DhcpServer.java:133 | `getInt` reads four octets as the `int` whose unsigned pattern is their big-endian value |
| Wire.ReadBigEndian32 | src/main/java/com/zes/device/ZES_DhcpServer.java:133 | reading back the four octets `putInt` wrote gives the same `int` |
| Wire.BigEndianReadInt32 | src/main/java/com/zes/device/ZES_DhcpServer.java:133 | writing back the `int` read from four octets gives the same octets |
| Wire.ReadInt32Injective | src/main/java/com/zes/device/ZES_DhcpServer.java:143 | two four-octet groups read as the same `int` exactly when they are equal, so the cookie test is an octet comparison |
| Wire.Zeros | src/main/java/com/zes/device/ZES_DhcpServer.java:198-199 | `new byte[n]` holds `n` zero octets |
| Text.DecimalText | src/main/java/com/zes/device/ZES_NetworkConfigurator.java:164 | decimal text is non-empty, digits only, one digit long exactly for values below 10, and has no leading zero otherwise |
| Text.DecimalRoundTrip | src/main/java/com/zes/device/ZES_NetworkConfigurator.java:164 | the decimal text of `n` reads back as `n` |
| Text.DecimalTextOctetLength | src/main/java/com/zes/device/ZES_NetworkConfigurator.java:164 | an octet's decimal text has at most three digits |
| Text.IntText | src/main/java/com/zes/device/ZES_NetworkConfigurator.java:83 | `Integer.toString` starts with '-' exactly for negative numbers |
| Text.Hex2 | src/main/java/com/zes/device/ZES_DhcpServer.java:252 | `%02x` of an octet is two characters |
| Text.Hex2RoundTrip | src/main/java/com/zes/device/ZES_DhcpServer.java:252 | the two hex digits read back as the octet |
| Text.IsBlank | src/main/java/com/zes/device/ZES_NetworkConfigurator.java:106 | text is blank exactly when every character is whitespace (the empty text included); `GatewayArgument` relies on it |
| DhcpOptions.RecordAtValue | src/main/java/com/zes/device/ZES_DhcpServer.java:162-168 | reading a complete option's value in place records what the copied `data` array records: type from tag 53 of length 1, address from tag 50 of length 4 |
| DhcpOptions.UnderflowOnlyAtLastOctet | src/main/java/com/zes/device/ZES_DhcpServer.java:150-158 | the scan underflows only when the buffer's very last octet is read as a tag other than Pad and End |
| DhcpOptions.ScanRecordsOnlyRecognised | src/main/java/com/zes/device/ZES_DhcpServer.java:148-168 | a recorded message type is the value of some tag 53 with length 1, and a recorded address the value of some tag 50 with length 4; otherwise the initial 0 and null remain |
| DhcpOptions.ScanOneEntry | src/main/java/com/zes/device/ZES_DhcpServer.java:150-168 | one iteration over a well-formed Pad or tag/length/value entry advances past it with that entry's effect |
| DhcpOptions.ScanThroughOptions | src/main/java/com/zes/device/ZES_DhcpServer.java:150-168 | over a run of well-formed entries the scan arrives after them with the state of applying them in order |
| DhcpOptions.ScanToEnd | src/main/java/com/zes/device/ZES_DhcpServer.java:151-153 | well-formed entries followed by End finish the scan with the entries' state |
| DhcpOptions.ScanEncodedArea | src/main/java/com/zes/device/ZES_DhcpServer.java:150-168 | an option area of well-formed entries and End yields their state, whatever octets follow End |
| DhcpOptions.TruncatedOptionKeepsEarlier | src/main/java/com/zes/device/ZES_DhcpServer.java:158-161 | an option whose declared length runs past the buffer stops the scan without error, and the entries before it are kept |
| DhcpOptions.ScanToLoneTag | src/main/java/com/zes/device/ZES_DhcpServer.java:150-158 | well-formed entries followed by a tag in the last octet underflow |
| DhcpOptions.LoneTagUnderflows | src/main/java/com/zes/device/ZES_DhcpServer.java:150-158 | a lone trailing tag after any well-formed entries makes the length read underflow |
| DhcpOptions.FoldLast | src/main/java/com/zes/device/ZES_DhcpServer.java:164-168 | the last entry is applied after all earlier ones |
| DhcpOptions.LastMessageTypeWins | src/main/java/com/zes/device/ZES_DhcpServer.java:164-165 | a later Message Type overwrites any earlier one and leaves the requested address alone |
| DhcpOptions.ScanTolerantAgrees | src/main/java/com/zes/device/ZES_DhcpServer.java:150-161 | the tolerant scan equals the scan as written wherever that one finishes; where it underflows, it equals the scan without the lone last octet |
| DhcpOptions.Record | src/main/java/com/zes/device/ZES_DhcpServer.java:164-168 | the state after one complete option: type set to the value octet for tag 53 of length 1, address set to the value for tag 50 of length 4, otherwise unchanged; `LastMessageTypeWins` and `ScanRecordsOnlyRecognised` state what it keeps |
| DhcpOptions.RecordAt | src/main/java/com/zes/device/ZES_DhcpServer.java:162-168 | `Record` of the option at a position, reading the value octets in place; `RecordAtValue` proves it equal to `Record` of the copied value |
| DhcpOptions.Scan | src/main/java/com/zes/device/ZES_DhcpServer.java:150-168 | the option loop: skips Pad, stops at End, at the end of the datagram or at a truncated value, underflows on a lone last tag, records each complete option; `ScanEncodedArea` proves it reads back encoded options and `UnderflowOnlyAtLastOctet` bounds its failure |
| DhcpOptions.ScanTolerant | src/main/java/com/zes/device/ZES_DhcpServer.java:150-161 | the scan with the lone-last-tag case stopping like a truncated value, never failing; `ScanTolerantAgrees` ties it to `Scan` |
| DhcpReply.CopyOf16 | src/main/java/com/zes/device/ZES_DhcpServer.java:197 | `Arrays.copyOf(chaddr, 16)` keeps the first 16 octets and pads with zeros |
| DhcpReply.HeaderFront | src/main/java/com/zes/device/ZES_DhcpServer.java:186-193 | op through ciaddr take 16 octets |
| DhcpReply.HeaderAddresses | src/main/java/com/zes/device/ZES_DhcpServer.java:194-196 | yiaddr, siaddr and giaddr take 12 octets |
| DhcpReply.ReplyHeader | src/main/java/com/zes/device/ZES_DhcpServer.java:185-200 | the fixed header and cookie take 240 octets, the offset of the options |
| DhcpReply.OptionOctets | src/main/java/com/zes/device/ZES_DhcpServer.java:201-217 | an option is its tag, its length octet equal to the value's length, then the value |
| DhcpReply.RouterOption | src/main/java/com/zes/device/ZES_DhcpServer.java:210-214 | the Router option is 6 octets with a gateway and absent without one |
| DhcpReply.ReplyOptions | src/main/java/com/zes/device/ZES_DhcpServer.java:201-218 | the option area is 22 octets plus the Router option |
| DhcpReply.HeaderFrontLayout | src/main/java/com/zes/device/ZES_DhcpServer.java:186-193 | octets 0..3 are 2, 1, 6, 0; 4..7 the xid; 8..15 zero |
| DhcpReply.HeaderLayout | src/main/java/com/zes/device/ZES_DhcpServer.java:185-200 | octets 0..3 are 2, 1, 6, 0; 4..7 the xid big-endian; 8..15 zero; 16..19 the offer address; 20..23 the server address; 24..27 zero; 28..43 chaddr; 44..235 zero; 236..239 the magic cookie 99.130.83.99 |
| DhcpReply.OptionsLayout | src/main/java/com/zes/device/ZES_DhcpServer.java:201-218 | the options are 53/1/type, 54/4/server, 1/4/mask, 3/4/gateway only with a gateway, 51/4/lease big-endian, then End |
| DhcpReply.ReplyLayout | src/main/java/com/zes/device/ZES_DhcpServer.java:185-220 | a reply is 262 octets without a gateway and 268 with one, within the 300-octet buffer, header then options |
| DhcpReply.ReplyRoundTrip | src/main/java/com/zes/device/ZES_DhcpServer.java:190-203 | octets 4..7 of a reply read back as its xid, and the request-side option scan over the reply recovers its message type and no address |
| DhcpReply.ScanReplyOptions | src/main/java/com/zes/device/ZES_DhcpServer.java:201-218 | the scan of a reply's option area records exactly its message type |
| DhcpReply.EncodeReply | src/main/java/com/zes/device/ZES_DhcpServer.java:185-220 | the sent datagram, header then options, fits the 300-octet buffer; `ReplyLayout` gives its exact length and parts and `ReplyRoundTrip` reads the fields back |
| DhcpReply.ReplyWriter.Allocate | src/main/java/com/zes/device/ZES_DhcpServer.java:185 | `ByteBuffer.allocate(300)` is a fresh buffer of that capacity, position 0, nothing written |
| DhcpReply.ReplyWriter.Put | src/main/java/com/zes/device/ZES_DhcpServer.java:186 | `put(byte)` appends one octet and advances the position by one |
| DhcpReply.ReplyWriter.PutBytes | src/main/java/com/zes/device/ZES_DhcpServer.java:194 | `put(byte[])` appends the octets and advances the position by their count |
| DhcpReply.ReplyWriter.PutInt | src/main/java/com/zes/device/ZES_DhcpServer.java:190 | `putInt` appends the four big-endian octets |
| DhcpReply.PutHeaderFront | src/main/java/com/zes/device/ZES_DhcpServer.java:186-193 | the puts from op to ciaddr append `HeaderFront` |
| DhcpReply.PutHeaderAddresses | src/main/java/com/zes/device/ZES_DhcpServer.java:194-196 | the puts of yiaddr, siaddr and giaddr append `HeaderAddresses` |
| DhcpReply.PutHeaderTail | src/main/java/com/zes/device/ZES_DhcpServer.java:197-200 | the puts of chaddr, sname, file and cookie append those 212 octets |
| DhcpReply.PutHeader | src/main/java/com/zes/device/ZES_DhcpServer.java:186-200 | the header puts append exactly `ReplyHeader` |
| DhcpReply.PutOption | src/main/java/com/zes/device/ZES_DhcpServer.java:201-217 | tag, length octet and value puts append `OptionOctets` |
| DhcpReply.PutOptions | src/main/java/com/zes/device/ZES_DhcpServer.java:201-218 | the option puts, Router only with a gateway, append exactly `ReplyOptions` |
| DhcpReply.BuildReply | src/main/java/com/zes/device/ZES_DhcpServer.java:185-220 | the buffer up to `position()` is exactly `EncodeReply` |
| DhcpReply.SendReply | src/main/java/com/zes/device/ZES_DhcpServer.java:184-223 | the datagram sent is `EncodeReply` and the info line is "Sent DHCP <label> to <mac>" |
| DhcpReply.MessageTypeLabel | src/main/java/com/zes/device/ZES_DhcpServer.java:257-266 | "OFFER" exactly for 2, "ACK" exactly for 5, "UNKNOWN" exactly otherwise |
| DhcpReply.MacPrefixLayout | src/main/java/com/zes/device/ZES_DhcpServer.java:246-255 | the text of `n` octets is `3n-1` characters, octet `k` as two hex digits at `3k`, a colon before every pair but the first |
| DhcpReply.FormatMac | src/main/java/com/zes/device/ZES_DhcpServer.java:246-255 | the loop over at most six octets builds `MacText` |
| DhcpReply.MacText | src/main/java/com/zes/device/ZES_DhcpServer.java:246-255 | the first six (or fewer) chaddr octets as colon-separated two-digit hex pairs; `MacPrefixLayout` gives the length and each pair's position |
| DhcpReply.SentNote | src/main/java/com/zes/device/ZES_DhcpServer.java:223 | the logged line names the message-type label and the hardware-address text; `MessageTypeLabel` and `MacPrefixLayout` state those parts |
| DhcpServer.Chaddr | src/main/java/com/zes/device/ZES_DhcpServer.java:140-141 | chaddr is the 16 octets read at offset 28 |
| DhcpServer.Dispatch | src/main/java/com/zes/device/ZES_DhcpServer.java:171-181 | dispatch after a finished scan never throws |
| DhcpServer.HandlePacket | src/main/java/com/zes/device/ZES_DhcpServer.java:121-182 | the cursor-based handler over the receive array does exactly what `Handle` says of the received octets |
| DhcpServer.Handle | src/main/java/com/zes/device/ZES_DhcpServer.java:121-182 | a packet that is not dropped passed the header checks; `RepliedExactly`, `MalformedDropped` and `UnderflowExactly` characterise each outcome |
| DhcpServer.ScanOptions | src/main/java/com/zes/device/ZES_DhcpServer.java:148-169 | the option loop over the array returns what `Scan` gives from offset 240 |
| DhcpServer.RepliedExactly | src/main/java/com/zes/device/ZES_DhcpServer.java:121-182 | a reply is sent exactly for accepted Ethernet requests whose scan finishes with DISCOVER or REQUEST |
| DhcpServer.MalformedDropped | src/main/java/com/zes/device/ZES_DhcpServer.java:122-173 | shorter than 240, not a BOOTREQUEST, a wrong cookie, or (after the scan) not Ethernet: dropped, with no reply and no warning |
| DhcpServer.UnderflowExactly | src/main/java/com/zes/device/ZES_DhcpServer.java:150-158 | the exception happens exactly when an accepted request's scan underflows, and then the last octet is a tag other than Pad and End |
| DhcpServer.ReplyAnswersRequest | src/main/java/com/zes/device/ZES_DhcpServer.java:174-220 | every reply is a 262- or 268-octet BOOTREPLY echoing xid, chaddr and cookie, granting the offer address, typed OFFER for DISCOVER and ACK otherwise; the warning is logged exactly for a REQUEST naming another address |
| DhcpServer.AnswerEchoes | src/main/java/com/zes/device/ZES_DhcpServer.java:184-220 | the reply built for an accepted request echoes its xid, chaddr and cookie octet for octet |
| DhcpServer.RepliesAreNotAnswered | src/main/java/com/zes/device/ZES_DhcpServer.java:126-128 | a reply, op 2, is itself always dropped |
| DhcpServer.ClientRequestScan | src/main/java/com/zes/device/ZES_DhcpServer.java:121-169 | a client request with well-formed options is accepted, and its xid, chaddr and scanned state are what it was built with |
| DhcpServer.DiscoverIsOffered | src/main/java/com/zes/device/ZES_DhcpServer.java:174-175 | a DISCOVER gets the OFFER reply, with no warning |
| DhcpServer.RequestIsAcked | src/main/java/com/zes/device/ZES_DhcpServer.java:176-180 | a REQUEST always gets the ACK reply; the warning is logged exactly when a requested address is present and differs from the offer |
| DhcpServer.OtherTypesIgnored | src/main/java/com/zes/device/ZES_DhcpServer.java:174-181 | any other message type, including the default 0, gets no reply |
| DhcpServer.LoneTagStopsServer | src/main/java/com/zes/device/ZES_DhcpServer.java:150-158 | a valid request ending with a lone tag octet throws the uncaught underflow |
| DhcpServer.HandleTolerant | src/main/java/com/zes/device/ZES_DhcpServer.java:150-161 | the corrected handler never throws |
| DhcpServer.HandleTolerantAgrees | src/main/java/com/zes/device/ZES_DhcpServer.java:121-182 | the corrected handler agrees with the handler as written wherever that one does not throw; otherwise it answers as if the lone last octet were absent |
| DhcpServer.LoneTagTolerated | src/main/java/com/zes/device/ZES_DhcpServer.java:150-161 | with the correction, a request with a trailing lone tag is answered as the request without it |
| NetworkConfigurator.Pow2Of32 | src/main/java/com/zes/device/ZES_NetworkConfigurator.java:162 | 2^32 is the modulus of Java `int` arithmetic |
| NetworkConfigurator.ShiftCount | src/main/java/com/zes/device/ZES_NetworkConfigurator.java:162 | Java's shift count `(32 - prefix) & 31` lies in 0..31 |
| NetworkConfigurator.MaskValue | src/main/java/com/zes/device/ZES_NetworkConfigurator.java:162-163 | the shifted all-ones pattern, with bits past bit 31 lost, is below 2^32 |
| NetworkConfigurator.MaskOctets | src/main/java/com/zes/device/ZES_NetworkConfigurator.java:164 | the four masked shifts are four numbers in 0..255 |
| NetworkConfigurator.MaskValueIs | src/main/java/com/zes/device/ZES_NetworkConfigurator.java:162 | the pattern is 2^32 - 2^s for shift count `s`: ones from bit `s` up |
| NetworkConfigurator.NetmaskTopBits | src/main/java/com/zes/device/ZES_NetworkConfigurator.java:162-164 | for a prefix of 1 to 32 the mask is `2^prefix - 1` ones above `32 - prefix` zeros |
| NetworkConfigurator.NetmaskOctetsRecombine | src/main/java/com/zes/device/ZES_NetworkConfigurator.java:164 | the four octets recombine to the whole pattern |
| NetworkConfigurator.NetmaskShape | src/main/java/com/zes/device/ZES_NetworkConfigurator.java:161-165 | the text is 7 to 15 characters with exactly three dots |
| NetworkConfigurator.PrefixToNetmask | src/main/java/com/zes/device/ZES_NetworkConfigurator.java:161-165 | the decimal octets of 2^32 - 2^((32 - prefix) mod 32), taken modulo 2^32, joined by dots; `MaskValueIs`, `NetmaskTopBits` and `NetmaskShape` prove the value and the text shape |
| NetworkConfigurator.Netmask24 | src/main/java/com/zes/device/ZES_NetworkConfigurator.java:161-165 | prefix 24 gives "255.255.255.0" |
| NetworkConfigurator.NetmaskPrefixZero | src/main/java/com/zes/device/ZES_NetworkConfigurator.java:162 | prefix 0 shifts by 0, giving "255.255.255.255" |
| NetworkConfigurator.GatewayArgument | src/main/java/com/zes/device/ZES_NetworkConfigurator.java:106-110 | the last `netsh` argument is the gateway when one is set and not blank, and "none" otherwise |
| NetworkConfigurator.Configurator.constructor | src/main/java/com/zes/device/ZES_NetworkConfigurator.java:24-30 | the settings are stored and no command has been issued |
| NetworkConfigurator.Configurator.LinuxApplyPlan | src/main/java/com/zes/device/ZES_NetworkConfigurator.java:82-84 | Linux apply is three commands, the first the flush |
| NetworkConfigurator.Configurator.LinuxRestorePlan | src/main/java/com/zes/device/ZES_NetworkConfigurator.java:89-91 | Linux restore is three commands, the first the flush |
| NetworkConfigurator.Configurator.StaticAddressArguments | src/main/java/com/zes/device/ZES_NetworkConfigurator.java:97-105 | nine `netsh` arguments come before the gateway |
| NetworkConfigurator.Configurator.WindowsApplyCommand | src/main/java/com/zes/device/ZES_NetworkConfigurator.java:96-110 | the Windows apply command has ten arguments |
| NetworkConfigurator.Configurator.WindowsRestoreCommand | src/main/java/com/zes/device/ZES_NetworkConfigurator.java:116 | the Windows restore command has seven arguments |
| NetworkConfigurator.Configurator.ApplyPlan | src/main/java/com/zes/device/ZES_NetworkConfigurator.java:56-66 | the commands `ZES_applyStaticIp` runs: none when disabled, one `netsh` command on Windows, flush then add on Linux; `DisabledIssuesNothing` and `EveryCommandTargetsInterface` state the guard and the target |
| NetworkConfigurator.Configurator.RestorePlan | src/main/java/com/zes/device/ZES_NetworkConfigurator.java:68-78 | the commands `ZES_restoreDhcp` runs: none when disabled, one `netsh` command on Windows, on Linux the flush, then releasing and restarting the DHCP client (`dhclient -r`, `dhclient`); `DisabledIssuesNothing` and `LinuxRestoreAfterApply` state the guard and the relation to applying |
| NetworkConfigurator.Configurator.RunCommand | src/main/java/com/zes/device/ZES_NetworkConfigurator.java:120-124 | the command is appended to the trace and nothing else changes |
| NetworkConfigurator.Configurator.ApplyStaticIp | src/main/java/com/zes/device/ZES_NetworkConfigurator.java:56-66 | nothing is issued when disabled; otherwise the plan for the operating system is appended |
| NetworkConfigurator.Configurator.RestoreDhcp | src/main/java/com/zes/device/ZES_NetworkConfigurator.java:68-78 | nothing is issued when disabled; otherwise the plan for the operating system is appended |
| NetworkConfigurator.Configurator.ApplyStaticIpLinux | src/main/java/com/zes/device/ZES_NetworkConfigurator.java:80-85 | issues flush, add `<ip>/<prefix>`, link up, in that order |
| NetworkConfigurator.Configurator.RestoreDhcpLinux | src/main/java/com/zes/device/ZES_NetworkConfigurator.java:87-92 | issues flush, `dhclient -r`, `dhclient`, in that order |
| NetworkConfigurator.Configurator.ApplyStaticIpWindows | src/main/java/com/zes/device/ZES_NetworkConfigurator.java:94-112 | the list built by successive `add` calls is the single `netsh` command issued |
| NetworkConfigurator.Configurator.RestoreDhcpWindows | src/main/java/com/zes/device/ZES_NetworkConfigurator.java:114-118 | issues the single `netsh ... name=<iface> dhcp` command |
| NetworkConfigurator.Configurator.DisabledIssuesNothing | src/main/java/com/zes/device/ZES_NetworkConfigurator.java:56-72 | a disabled configurator issues no command on apply or restore |
| NetworkConfigurator.Configurator.EveryCommandTargetsInterface | src/main/java/com/zes/device/ZES_NetworkConfigurator.java:80-118 | every command names the configured interface |
| NetworkConfigurator.Configurator.WindowsApplyArguments | src/main/java/com/zes/device/ZES_NetworkConfigurator.java:104-110 | arguments 8 and 9 (counting from 1) are the static address and the mask text; the last is the gateway when set and not blank, "none" otherwise |
| NetworkConfigurator.Configurator.LinuxRestoreAfterApply | src/main/java/com/zes/device/ZES_NetworkConfigurator.java:80-92 | apply then restore on Linux is six commands: both routines start with the flush, and only apply adds the static address |

## Left out

- Socket lifecycle (`ZES_start`, `run`, `close`, `ZES_closeSocket`, the `running` flag, the daemon thread, bind, receive and send): blocking I/O and cross-thread cancellation. A reply is the datagram returned, not a send.
- The 1024-octet receive buffer: `HandlePacket` accepts any received length up to its array's length, which covers every length a 1024-octet buffer can deliver.
- Configuration loading (`ZES_fromEnvironment`, `ZES_getValue`, `ZES_getBoolean`, `ZES_isWindows`) in both classes reads system properties and the environment. The settings and the operating system are parameters instead.
- `ZES_toAddress` / `InetAddress.getByName` may resolve names over DNS. Addresses are four octets, and `InetAddress.equals` is sequence equality.
- Logging:
  - the mismatch warning is a flag in the outcome, without its text;
  - the "Sent DHCP" line is a string in the outcome;
  - the configurator's info lines and `ZES_runCommand`'s description argument are not modelled.
- `ZES_runCommand`: process creation, output reading, waiting and exit-code reporting are foreign calls. The command is only appended to the trace.
- `src/main/java/com/zes/device/models/ZES_TypeMysqlDB.java` is not part of this model: it is database glue with floating-point parsing, outside the responder.
- DhcpReply.ReplyWriter.Put:
  - requires room in the buffer instead of modelling `BufferOverflowException`;
  - every reply is at most 268 of the 300 octets (`ReplyLayout`), so the exception cannot occur.
- DhcpServer.HandlePacket keeps the behaviour as written, including the underflow. The corrected handler is stated beside it rather than replacing it.

## Findings

| source | as written | input that shows it | evidently intended | confidence | as-written member | corrected member |
|---|---|---|---|---|---|---|
| src/main/java/com/zes/device/ZES_DhcpServer.java:150-158 | When the last octet of a datagram is a tag other than Pad or End, `buffer.get()` reads the missing length octet and throws `BufferUnderflowException`. `run` catches only `IOException`, so the server thread ends. | An accepted Ethernet DISCOVER (240-octet header, options 53/1/1), followed by one octet 3 as the last octet of the datagram | Stop the scan and keep the options already read, as for a declared length that runs past the buffer two lines later | not executed | DhcpServer.LoneTagStopsServer | DhcpServer.LoneTagTolerated |
