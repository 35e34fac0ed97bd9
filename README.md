# dynners, modelled in Dafny

dynners is a dynamic-DNS agent. It watches one or more public IP addresses and pushes a change to DNS providers whenever one of them moves. An address is obtained from an interface, a command or an HTTP lookup. This project models the agent's decision logic and proves properties of it. The network, the clock, processes and the operating system are replaced by inputs.

The modules follow the program's structure:

- `Netmask` (netmask.dfy): the IPv4/IPv6 network type. It covers `from_prefix`, `from_mask`, `in_range`, parsing of `addr/prefix` and `addr/mask` with its four error kinds, and the Debug rendering.
- `Persistence` (persistence.dfy): the state file.
  - The configuration fingerprint: CRC-32 in the high half, a multiplicative rolling hash in the low half.
  - The binary reader and writer: magic, little-endian header, length-prefixed UTF-8 names, type-tagged addresses.
  - The `PersistentState` class with `validate_against`.
- `DynamicIp` (dynamic_ip.dfy): the choice of IP service from its configuration, including the match-all default mask. Also the `DynamicIp` class and its dirty-bit update.
- `Interface` (interface.dfy): last-match-wins selection of an interface address. For IPv6 it excludes deprecated addresses, parsed from the text of `/proc/net/if_inet6`.
- `SharedDynDns` (shared_dyndns.dfy): the DynDNS-v2 client with its suspension state machine and response grammar.
- `NoIp`, `DuckDns`, `Porkbun`, `Linode`, `Cloudflare`, `Router1`: the providers' request building, response classification, record discovery and caching, and the router's form encoder, checksum and filter-table scanner.
- `Main` (main.dfy): start-up validation and the main loop. Each cycle refreshes every IP, calls the services that have a dirty dependency, and rebuilds the state when needed.
- Support modules:
  - `Ip`: addresses, and IPv4 text;
  - `Ddns`: shared provider pieces;
  - `Listing`: generic JSON list reading, cache filling and update dispatch;
  - `Http`: requests and outcomes;
  - `Text`, `Bytes`, `Utf8`: the standard-library string, integer and UTF-8 operations the code relies on.

Foreign functions are passed in as parameters:

- CRC-32 (`Crc32`);
- base64 (section 4 of RFC 4648);
- IPv6 text parsing and printing (`Ip.Ipv6Text`, section 2.2 of RFC 4291);
- JSON decoding (`ParseJson`);
- regex compilation (`regexError`);
- sending an HTTP request (`Send`, a function from request to outcome);
- the current time (`now`).

## Model

| member | source | states |
|---|---|---|
| Netmask.FromPrefix | src/ip/netmask.rs:105-113 | the network keeps the given address and gets a mask of the family's width |
| Netmask.FromPrefixMask | src/ip/netmask.rs:105-113 | with prefix p no wider than the family, mask bit i is set iff i < p; a wider prefix sets no bit |
| Netmask.FromPrefixWraps | src/ip/netmask.rs:172-183 | a prefix wider than the family gives the all-zero mask, because the shift wraps |
| Netmask.FromPrefixIsPrefixMask | src/ip/netmask.rs:172-183 | from_prefix's mask is exactly the top-p-ones mask of the family's width |
| Netmask.PrefixMaskBits | src/ip/netmask.rs:105-113 | the prefix mask has exactly its first p bits set |
| Netmask.PrefixMaskBit | src/ip/netmask.rs:105-113 | bit i of the prefix mask is set exactly when i < p |
| Netmask.MaskOnesWithin | src/ip/netmask.rs:105-113 | for a prefix within the width, the wrapped shift count leaves exactly p leading ones |
| Netmask.InRange | src/ip/netmask.rs:122-124 | every network contains its own base address |
| Netmask.InRangeBits | src/ip/netmask.rs:192-195 | `(base & mask) == (addr & mask)` holds iff base and address agree on every bit the mask sets |
| Netmask.MaskedEqBits | src/ip/netmask.rs:122-124 | byte-wise masked equality is equivalent to agreement on every masked bit |
| Netmask.PrefixRange | src/ip/netmask.rs:105-124 | a prefix-p network contains exactly the addresses that agree with the base on the first p bits |
| Netmask.ZeroPrefixContainsAll | src/ip/netmask.rs:255-263 | a prefix-0 network contains every address of its family |
| Netmask.FullPrefixOnlyBase | src/ip/netmask.rs:299-305 | a full-width prefix contains only the base address |
| Netmask.WholeOctetRange | src/ip/netmask.rs:122-124 | where the mask bytes are 0 or 255, containment compares exactly the 255-masked octets |
| Netmask.OctetPrefixRange | src/ip/netmask.rs:105-124 | a prefix of 8q bits contains exactly the addresses sharing the base's first q octets |
| Netmask.NetworkV4Prefix24Examples | src/ip/netmask.rs:235-243 | 198.51.100.2/24 contains 198.51.100.0 and 198.51.100.255 |
| Netmask.NetworkV4Prefix24Outside | src/ip/netmask.rs:235-243 | 198.51.100.2/24 does not contain 198.51.101.0 or 198.52.101.132 |
| Netmask.NetworkV4Prefix8Examples | src/ip/netmask.rs:245-263 | the /8 and /0 cases of the v4 test |
| Netmask.NetworkV4MaskExamples | src/ip/netmask.rs:265-274 | mask 0.0.255.255 matches only on the last two octets |
| Netmask.NetworkV6PrefixInside | src/ip/netmask.rs:278-306 | an address sharing the first 8 octets is inside the /64 |
| Netmask.NetworkV6PrefixOutside | src/ip/netmask.rs:278-306 | an address differing in the first 8 octets is outside the /64 |
| Netmask.NetworkV6MaskExamples | src/ip/netmask.rs:278-306 | containment under an arbitrary v6 mask, inside and outside |
| Netmask.ParseAddr | src/ip/netmask.rs:146-155 | a parsed left side has the family's width |
| Netmask.ParseSides | src/ip/netmask.rs:146-167 | InvalidAddress exactly when the left side does not parse; otherwise the parsed address is the base; a right side that reads as a u8 is a prefix mask up to the width and MaskTooLarge above it; any other right side is a mask address, or InvalidMask when it does not parse; MaskUnspecified never comes from here |
| Netmask.ParseNetwork | src/ip/netmask.rs:142-169 | MaskUnspecified iff there is no '/'; InvalidAddress iff the text before the first '/' is not an address; a success keeps that address |
| Netmask.ParseJoined | src/ip/netmask.rs:198-225 | `left/right` is split at its first '/', into exactly those two sides |
| Netmask.ParsePrefixText | src/ip/netmask.rs:157-167 | a decimal up to the width is a prefix; a larger u8 gives MaskTooLarge; 256 and above give InvalidMask |
| Netmask.DecimalNotAddress | src/ip/netmask.rs:213-223 | a bare decimal never parses as a mask address |
| Netmask.Leading | src/ip/netmask.rs:28-38 | counts the run of set bits from position i, up to the first clear bit |
| Netmask.Trailing | src/ip/netmask.rs:28-38 | counts the run of clear bits at the end, down to the last set bit |
| Netmask.PrefixCounts | src/ip/netmask.rs:28-38 | a p-prefix mask has p leading ones and width-p trailing zeros |
| Netmask.ContiguousIsPrefix | src/ip/netmask.rs:55-65 | a mask is contiguous iff it is the prefix mask of its leading-ones count |
| Netmask.ShowAddrChars | src/ip/netmask.rs:28-38 | a printed address has no '/', parses back, and is not a u8 decimal |
| Netmask.ShowPrefixNetwork | src/ip/netmask.rs:28-38 | a from_prefix network prints as `addr/len` |
| Netmask.ParseShowContiguous | src/ip/netmask.rs:157-167 | `addr/len` parses back to a network with a contiguous mask |
| Netmask.ParseShowMask | src/ip/netmask.rs:213-223 | `addr/mask` parses back to the same network |
| Netmask.ParseShowNetwork | src/ip/netmask.rs:28-38 | parsing the Debug text of any valid network gives that network back |
| Persistence.ConfigHash | src/persistence.rs:48-60 | the high 32 bits are the CRC; the low 32 bits are the rolling hash `h*65539 + b mod 2^32`, seeded with the CRC |
| Persistence.HashBytes | src/persistence.rs:48-60 | the loop computes ConfigHash |
| Persistence.EncodeAddr | src/persistence.rs:196-206 | a type byte, then the address as a little-endian integer: 5 bytes for v4, 17 for v6 |
| Persistence.Header | src/persistence.rs:187-190 | the header is 28 bytes: magic, version, timestamp, hash |
| Persistence.Entries | src/persistence.rs:192-207 | one entry per name of the iteration order |
| Persistence.EncodeListAppend | src/persistence.rs:192-207 | encoding a list extended by one entry is the old encoding followed by that entry's bytes |
| Persistence.EncodeListSnoc | src/persistence.rs:192-207 | writing one more entry appends its encoding |
| Persistence.ReadEntry | src/persistence.rs:143-173 | a read entry advances the position within the input |
| Persistence.ReadName | src/persistence.rs:143-156 | a read name advances the position within the input |
| Persistence.ReadAddress | src/persistence.rs:158-171 | a read address advances the position within the input |
| Persistence.DecodeEntries | src/persistence.rs:142-174 | a successful entry loop keeps every name already inserted |
| Persistence.Decode | src/persistence.rs:102-182 | fewer than 8 bytes is EOF in the magic; success needs 28 bytes, the magic and version <= 1; a wrong magic gives InvalidMagic; a version above 1 gives TooNew |
| Persistence.NameReadsBack | src/persistence.rs:143-156 | a written name is read back with its length |
| Persistence.AddressReadsBack | src/persistence.rs:158-167 | a written address is read back |
| Persistence.EntryReadsBack | src/persistence.rs:143-173 | a written entry is read back whole |
| Persistence.EntryFields | src/persistence.rs:192-207 | an entry is a 4-byte little-endian length, the UTF-8 name, then the address |
| Persistence.EntryLayout | src/persistence.rs:192-207 | the length field, the name bytes and the type byte of an entry sit at offsets 0, 4 and 4 + name length |
| Persistence.EntryAt | src/persistence.rs:143-173 | reading at an entry's position yields that entry and the position after it |
| Persistence.DecodeEncodeList | src/persistence.rs:142-174 | reading a written list inserts its entries in order |
| Persistence.InsertEntries | src/persistence.rs:173 | inserting a map's entries rebuilds the map's listed part |
| Persistence.InsertAll | src/persistence.rs:173 | inserting all entries of a map rebuilds the map |
| Persistence.HeaderReadsBack | src/persistence.rs:119-140 | a written header followed by an end marker reads back as the header's data |
| Persistence.ListAfterHeader | src/persistence.rs:142-174 | for non-empty names whose UTF-8 is shorter than 2^32 bytes (storable names), the list after the header reads back as its entries |
| Persistence.HeaderAndListReadBack | src/persistence.rs:102-182 | for storable (non-empty, length-field-sized) names, header plus list read back as the header's data with the listed map |
| Persistence.DecodeEncode | src/persistence.rs:219-256 | when every stored name is storable (non-empty, UTF-8 shorter than 2^32 bytes), from_reader(write_to(s)) reproduces version, timestamp, hash and the whole map; an empty name would end the list early |
| Persistence.ListReadsBack | src/persistence.rs:142-174 | a written list of storable (non-empty, length-field-sized) names reads back as its entries |
| Persistence.DuplicateOverwrites | src/persistence.rs:173 | a repeated name keeps the later address |
| Persistence.EntryErrorStops | src/persistence.rs:142-174 | the first bad entry's error ends the read |
| Persistence.CutName | src/persistence.rs:151-152 | EOF inside a name is an error, labelled as in the version read |
| Persistence.CutAddress | src/persistence.rs:158-167 | EOF inside an address is an UnexpectedEof error |
| Persistence.CutInName | src/persistence.rs:151-152 | an entry cut inside its name fails with EOF |
| Persistence.CutInAddress | src/persistence.rs:158-167 | an entry cut inside its address fails with EOF |
| Persistence.TruncatedRead | src/persistence.rs:143-167 | any strict prefix of an entry past its length field fails with EOF |
| Persistence.TruncatedEntry | src/persistence.rs:142-174 | the entry loop fails with EOF on a truncated entry |
| Persistence.ShortHeader | src/persistence.rs:105-140 | a header cut before 28 bytes fails with EOF, labelled by the field it is in |
| Persistence.NonUtf8NameStops | src/persistence.rs:151-156 | a name that is not UTF-8 is an InvalidInput error |
| Persistence.BadIpTypeStops | src/persistence.rs:168-171 | a type byte other than 0 or 1 is an InvalidInput error |
| Persistence.FirstEntryError | src/persistence.rs:142-174 | a bad first entry's error is the reader's error |
| Persistence.BadMagicExample | src/persistence.rs:258-263 | the test's wrong magic is rejected with InvalidMagic |
| Persistence.PersistentState.NewWithConfigHash | src/persistence.rs:67-79 | a new state has version 1, the given time and hash, and no addresses |
| Persistence.PersistentState.FromData | src/persistence.rs:176-181 | the state holds exactly the decoded data |
| Persistence.PersistentState.ValidateAgainst | src/persistence.rs:81-100 | on a hash match it returns true and changes nothing; otherwise it stores the new hash and time, clears the map and returns false; afterwards is_same_config_file holds |
| Persistence.PersistentState.WriteEntry | src/persistence.rs:192-207 | one loop step appends one entry's encoding |
| Persistence.PersistentState.WriteTo | src/persistence.rs:184-210 | the bytes written are the encoding of the state |
| Persistence.PersistentState.ReadEntryAt | src/persistence.rs:143-173 | one loop step reads one entry |
| Persistence.PersistentState.ReadNameAt | src/persistence.rs:143-156 | the name part of a loop step: end of list at a short or zero length field, EOF inside the name, an error for a non-UTF-8 name |
| Persistence.PersistentState.ReadAddressAt | src/persistence.rs:158-171 | the address part of a loop step: type byte 0 reads 4 bytes, 1 reads 16, any other is an error, EOF inside is an error |
| Persistence.PersistentState.FromReader | src/persistence.rs:102-182 | succeeds iff the bytes decode, and then holds the decoded data; otherwise it returns the decoder's error |
| DynamicIp.ServiceFromConfig | src/ip/mod.rs:79-151 | the service has the configured family; exec never fails; InvalidNetwork only for the interface method and InvalidRegex only for the HTTP method |
| DynamicIp.DefaultTrimmedV4 | src/ip/mod.rs:85-100 | an empty `matches` becomes "0.0.0.0/0" |
| DynamicIp.DefaultTrimmedV6 | src/ip/mod.rs:120-135 | an empty `matches` becomes "::/0" |
| DynamicIp.DefaultTextV4 | src/ip/mod.rs:85-100 | the v4 default is the printed zero address over prefix 0 |
| DynamicIp.DefaultTextV6 | src/ip/mod.rs:120-135 | the v6 default is the printed zero address over prefix 0 |
| DynamicIp.DefaultNetwork | src/ip/mod.rs:85-135 | the default parses to the zero-prefix network |
| DynamicIp.DefaultMatchesAll | src/ip/mod.rs:85-135 | an interface service with empty `matches` accepts every address of its family |
| DynamicIp.Resolve | src/ip/mod.rs:171-215 | a well-typed lookup yields an address of the service's family; errors are execution, HTTP or interface failures |
| DynamicIp.Step | src/ip/mod.rs:216-222 | a failure changes nothing; a success stores the address and sets dirty iff it differs from the previous one |
| DynamicIp.LastOk | src/ip/mod.rs:216-222 | the last success among a run of results |
| DynamicIp.RunAddress | src/ip/mod.rs:163-165 | after a run, address() is the last successful address, or the old one if none |
| DynamicIp.DirtyAfterSuccess | src/ip/mod.rs:216-217 | a success is dirty iff it differs from the address held before it |
| DynamicIp.RepeatIsClean | src/ip/mod.rs:216-217 | two equal successes in a row leave dirty false |
| DynamicIp.FirstSuccessIsDirty | src/ip/mod.rs:216-220 | the first success after any failures sets dirty |
| DynamicIp.NoSuccessNoAddress | src/ip/mod.rs:172-214 | failures alone never produce an address |
| DynamicIp.DynamicIp.constructor | src/ip/mod.rs:155-161 | a new DynamicIp has no address and is not dirty |
| DynamicIp.DynamicIp.Update | src/ip/mod.rs:171-225 | the new state is Step of the old state and the resolution; the call fails iff resolution fails, with that error |
| Interface.LastSelected | src/ip/interface.rs:154-165 | a selected address is in the list and satisfies the selector |
| Interface.LastSelectedNone | src/ip/interface.rs:154-165 | nothing is selected iff no address satisfies the selector |
| Interface.LastSelectedAt | src/ip/interface.rs:154-165 | the selection is the last satisfying address in enumeration order |
| Interface.OfFamily | src/ip/interface.rs:158-161 | filtering keeps only addresses of the family |
| Interface.OtherFamilyIgnored | src/ip/interface.rs:173-179 | addresses of the other family do not affect selection |
| Interface.GetInterfaceV4 | src/ip/interface.rs:154-165 | the loop returns the last in-range IPv4 address, or None; a result is in range |
| Interface.SelectV6 | src/ip/interface.rs:167-184 | the loop returns the last in-range IPv6 address not in the deprecated list |
| Interface.GetInterfaceV6 | src/ip/interface.rs:167-184 | v6 selection excludes the addresses the if_inet6 text marks deprecated |
| Interface.FoundMembers | src/ip/interface.rs:113-146 | the collected list holds exactly the addresses found on lines |
| Interface.PerLine | src/ip/interface.rs:113-146 | one verdict per line |
| Interface.PerLineMembers | src/ip/interface.rs:113-146 | an address is found iff some line yields it |
| Interface.DeprecatedMembers | src/ip/interface.rs:113-146 | an address is deprecated iff some line has the interface and flag 0x20 for it |
| Interface.GetDeprecatedV6 | src/ip/interface.rs:82-152 | the loop pushes exactly the deprecated addresses, in line order; no file gives an empty list |
| SharedDynDns.Refusal | src/services/shared_dyndns.rs:50-59 | a call is refused iff the state is not Cycles(0); Cycles(n+1) steps to Cycles(n) and Indefinite stays |
| SharedDynDns.CountDown | src/services/shared_dyndns.rs:51-54 | n refused calls bring Cycles(n) to Cycles(0), which is not refused |
| SharedDynDns.RefusedForever | src/services/shared_dyndns.rs:55-57 | Indefinite is refused on every call |
| SharedDynDns.RequestCarriesAddresses | src/services/shared_dyndns.rs:64-77 | GET to the server with the auth header, hostname = domains joined by ",", and myip |
| SharedDynDns.GoodAddresses | src/services/shared_dyndns.rs:87-107 | at most two addresses are reported |
| SharedDynDns.BareGoodConfirmsSubmitted | src/services/shared_dyndns.rs:95-98 | "good" with no address falls back to the submitted first v4 and first v6 |
| SharedDynDns.GoodEcho | src/services/shared_dyndns.rs:87-94 | "good <ip>" reports that address |
| SharedDynDns.GoodEchoV4 | src/services/shared_dyndns.rs:87-94 | "good" with a printed IPv4 address reports that address |
| SharedDynDns.ServerDownCycles | src/services/shared_dyndns.rs:115-118 | the suspension is 1800 / update_rate cycles, or 0 without a rate |
| SharedDynDns.Classify | src/services/shared_dyndns.rs:87-156 | success iff the body is good or nochg (nochg reports nothing); 911/dnserr suspends for the server-down cycles; anything else suspends indefinitely; errors carry the service name |
| SharedDynDns.Respond | src/services/shared_dyndns.rs:80-159 | transport errors and unreadable bodies leave the suspension at Cycles(0); status-error bodies are classified like 2xx bodies |
| SharedDynDns.ServerDownBackoff | src/services/shared_dyndns.rs:110-127 | with a 60 s rate a 911 gives 30 suspended calls, and the 31st call reaches the network |
| SharedDynDns.Service.FromConfig | src/services/shared_dyndns.rs:33-45 | a new service has Basic auth and starts at Cycles(0) |
| SharedDynDns.Service.UpdateRecord | src/services/shared_dyndns.rs:49-161 | a suspended call sends nothing, steps the suspension and returns Suspended; otherwise it sends one request and the reply and new suspension are Respond's |
| SharedDynDns.Service.Answer | src/services/shared_dyndns.rs:87-156 | the result and new suspension are Classify's |
| SharedDynDns.ReadGood | src/services/shared_dyndns.rs:87-107 | the loop collects GoodAddresses |
| Ddns.Pushed | src/services/duckdns.rs:38-48 | the result holds at most two addresses |
| Ddns.PushEach | src/services/cloudflare.rs:269-277 | pushing the first v4, then the first v6, gives Pushed |
| Ddns.Submitted | src/services/noip.rs:52-64 | at most two input addresses, v4 before v6; one of a family iff the input has one; empty iff the input is empty |
| Ddns.BasicAuth | src/services/noip.rs:28-37 | "Basic " followed by base64 of "user:password" |
| Ddns.Bearer | src/services/linode.rs:63-72 | "Bearer " followed by the token |
| Ddns.SomeFamily | src/services/shared_dyndns.rs:68-77 | a non-empty address list has a first v4 or a first v6 |
| Ddns.MyIpPieces | src/services/noip.rs:52-63 | myip splits at "," into the printed submitted addresses |
| Ddns.MyIpParsesBack | src/services/shared_dyndns.rs:68-77 | each piece of myip parses back to the submitted address |
| NoIp.FromConfig | src/services/noip.rs:28-37 | the service keeps its configuration and uses Basic auth |
| NoIp.Respond | src/services/noip.rs:66-94 | "nochg" reports nothing; any other readable 2xx body reports the submitted addresses; status >= 500 is "NoIP server is down"; other statuses give the body; transport gives TransportError |
| NoIp.UpdateRecord | src/services/noip.rs:41-95 | one request with hostname and myip; the result is Respond's on its outcome |
| NoIp.GoodConfirmsSubmitted | src/services/noip.rs:52-73 | "good" reports exactly the addresses that myip carries, and they parse back |
| DuckDns.Respond | src/services/duckdns.rs:50-67 | success iff the body starts "OK" or "good", and then it reports the submitted addresses; any other body, 2xx or not, is the DuckDns error |
| DuckDns.UpdateRecord | src/services/duckdns.rs:30-68 | one GET to the update URL with the built query; the result is Respond's |
| DuckDns.QueryNamesAddresses | src/services/duckdns.rs:34-48 | the query is domains and token, then ip/ipv6 for exactly the addresses present |
| Porkbun.SplitLongName | src/services/porkbun.rs:63-73 | a name of three or more labels splits into all but the last two, and the last two |
| Porkbun.SplitShortName | src/services/porkbun.rs:63-73 | "example.com" splits into "" and "example.com" |
| Porkbun.JoinLong | src/services/porkbun.rs:63-73 | for three or more labels, subdomain + "." + domain equals the input (a two-label name has an empty subdomain, see SplitShortName) |
| Porkbun.LeadingDotPanics | src/services/porkbun.rs:63-73 | a leading-dot name of three or more labels has no split: the unwrap panics |
| Porkbun.TrimmedSplits | src/services/porkbun.rs:63-73 | after trimming leading dots, every name splits |
| Porkbun.SplitTrimmedAgrees | src/services/porkbun.rs:63-73 | the corrected split starts the trimmed name, and equals the source's split on names without a leading dot |
| Porkbun.LeadingDotTrimmed | src/services/porkbun.rs:63-73 | the corrected split of ".a.b.example.com" is ("a.b", "example.com") |
| Porkbun.ParseError | src/services/porkbun.rs:33-51 | status >= 500 gives the decimal status; a lower status gives the JSON message or a Json error; transport gives TransportError |
| Porkbun.EditOutcome | src/services/porkbun.rs:75-96 | success reports a SUCCESS status, an HTTP error is parse_error's error |
| Porkbun.AllNamesSplit | src/services/porkbun.rs:62-73 | every configured name has a (corrected) split |
| Porkbun.RoundFor | src/services/porkbun.rs:75-119 | an A call is made iff v4 is given, and an AAAA call iff v6 is given |
| Porkbun.RoundRequests | src/services/porkbun.rs:75-119 | a domain's requests are its A edit, then its AAAA edit, each only if that address is given |
| Porkbun.FailureSticks | src/services/porkbun.rs:81-91 | the first HTTP error aborts the remaining domains |
| Porkbun.VisitsClean | src/services/porkbun.rs:59-120 | the v4 flag is set iff some A call confirmed, and likewise v6; every planned request is sent |
| Porkbun.RoundConfirms | src/services/porkbun.rs:93-118 | a round confirms iff its address was given and the provider answered SUCCESS |
| Porkbun.ConfirmedA | src/services/porkbun.rs:93-95 | some A round confirmed iff v4 was given and some domain's A edit was confirmed |
| Porkbun.ConfirmedAaaa | src/services/porkbun.rs:116-118 | same for AAAA and v6 |
| Porkbun.Reported | src/services/porkbun.rs:122-132 | without an error, v4 is reported iff it was confirmed for some domain, likewise v6, v4 before v6 |
| Porkbun.UpdateRecord | src/services/porkbun.rs:55-133 | the loop's result and requests are those of the rounds over the split names |
| Porkbun.UpdateName | src/services/porkbun.rs:62-120 | one loop step is one visit of a round |
| Linode.ErrorFields | src/services/linode.rs:75-109 | field and reason come from a JSON body |
| Linode.ErrorMessage | src/services/linode.rs:125-129 | the reason alone when the field is empty, otherwise the reason followed by the field note |
| Linode.CheckResponse | src/services/linode.rs:111-139 | succeeds iff 2xx with a JSON body; a status error is a Linode or Json error; transport gives TransportError |
| Linode.Data | src/services/linode.rs:196-199 | the list is the `data` array of the answer |
| Linode.ReadDomain | src/services/linode.rs:159-178 | a read domain has a u64 id |
| Linode.Fqdn | src/services/linode.rs:218-222 | the domain name when the record name is empty, else name + "." + domain |
| Linode.ReadRecord | src/services/linode.rs:202-239 | a read record belongs to its domain and has a u64 id |
| Linode.ListedInDomain | src/services/linode.rs:186-243 | every listed record belongs to the domain asked for |
| Linode.FetchFor | src/services/linode.rs:186-194 | one records request per domain, and its records are that domain's |
| Linode.Planned | src/services/linode.rs:269-272 | the record fetches exist iff the domain list was read, one per domain |
| Linode.DiscoverRequests | src/services/linode.rs:269-277 | discovery asks for the domains, then each domain's records in order |
| Linode.PlannedRequests | src/services/linode.rs:269-277 | one records request per listed domain, in order |
| Linode.DiscoverRecords | src/services/linode.rs:269-277 | every cached record has a configured name and comes from a listed domain |
| Linode.PutRequest | src/services/linode.rs:246-264 | a PUT whose JSON body carries the address as target and the TTL |
| Linode.CallFor | src/services/linode.rs:282-288 | A records get the first v4 and AAAA records the first v6, only when present |
| Linode.PutsMatchFamilies | src/services/linode.rs:282-289 | each record's PUT matches its family; the run succeeds iff every PUT does, and then sent all PUTs |
| Linode.Service.FromConfig | src/services/linode.rs:63-72 | the token is prefixed with "Bearer " and the cache starts empty |
| Linode.Service.UpdateRecord | src/services/linode.rs:268-299 | discovery runs only with an empty cache; the cache keeps what discovery pushed; a failure is returned; otherwise the PUTs run and the result is the input v4 then v6 |
| Linode.Service.FillCache | src/services/linode.rs:269-279 | the nested loops perform Discover |
| Linode.Service.ScanDomain | src/services/linode.rs:270-277 | one outer step scans one domain's records |
| Linode.Service.PushConfigured | src/services/linode.rs:271-276 | the inner loop appends the records with a configured name |
| Linode.ReadList | src/services/linode.rs:194-199 | reads the `data` list of a checked response |
| Linode.GetDomains | src/services/linode.rs:144-181 | the loop computes ListedDomains |
| Linode.GetRecords | src/services/linode.rs:186-243 | the loop computes ListedRecords |
| Cloudflare.Truncate32 | src/services/cloudflare.rs:80 | `code as u32`: unchanged below 2^32, otherwise the value mod 2^32 |
| Cloudflare.ErrorFields | src/services/cloudflare.rs:55-81 | code and message come from a JSON body |
| Cloudflare.CheckResponse | src/services/cloudflare.rs:83-115 | succeeds iff 2xx with a JSON body with success = true; a 2xx without it is a Json error; a status error is a Cloudflare or Json error |
| Cloudflare.Results | src/services/cloudflare.rs:125-128 | the list is the `result` array of the answer |
| Cloudflare.ReadList | src/services/cloudflare.rs:117-128 | reads the `result` list of a checked response |
| Cloudflare.ReadZone | src/services/cloudflare.rs:132-164 | a kept zone has a u128 id and permissions granting both read and edit |
| Cloudflare.GrantedBeforeAll | src/services/cloudflare.rs:149-156 | the loop's flag is set iff some permission so far grants the word |
| Cloudflare.Permissions | src/services/cloudflare.rs:141-156 | can_read and can_edit are set iff a permission grants read, respectively edit |
| Cloudflare.ZoneOf | src/services/cloudflare.rs:132-164 | one zone is read as ReadZone says |
| Cloudflare.GetZones | src/services/cloudflare.rs:117-167 | the loop computes ListedZones |
| Cloudflare.ReadRecord | src/services/cloudflare.rs:190-219 | a read record belongs to its zone and has a u128 id |
| Cloudflare.GetRecords | src/services/cloudflare.rs:169-222 | the loop computes ListedRecords |
| Cloudflare.ListedInZone | src/services/cloudflare.rs:169-222 | every listed record belongs to the zone asked for |
| Cloudflare.HexReadsBack | src/services/cloudflare.rs:171 | the zone id printed in hex parses back as the id |
| Cloudflare.FetchFor | src/services/cloudflare.rs:169-180 | one records request per zone |
| Cloudflare.Planned | src/services/cloudflare.rs:248-250 | the record fetches exist iff the zone list was read, one per zone |
| Cloudflare.DiscoverRequests | src/services/cloudflare.rs:248-256 | discovery asks for the zones, then each zone's records in order |
| Cloudflare.PlannedRequests | src/services/cloudflare.rs:248-256 | one records request per listed zone, in order |
| Cloudflare.DiscoverRecords | src/services/cloudflare.rs:248-256 | every cached record has a configured name and comes from a listed zone |
| Cloudflare.PutRequest | src/services/cloudflare.rs:224-243 | a PUT whose JSON body carries content, name and type "A" for IPv4 else "AAAA" |
| Cloudflare.CallFor | src/services/cloudflare.rs:261-267 | A records get the first v4 and AAAA records the first v6, only when present |
| Cloudflare.PutsKeepType | src/services/cloudflare.rs:236 | every PUT's type matches its record's kind and its name is the record's |
| Cloudflare.Service.FromConfig | src/services/cloudflare.rs:43-52 | the token is prefixed with "Bearer " and the cache starts empty |
| Cloudflare.Service.UpdateRecord | src/services/cloudflare.rs:247-278 | discovery runs only with an empty cache; a failure is returned; otherwise the PUTs run and the result is the input v4 then v6 |
| Cloudflare.Service.FillCache | src/services/cloudflare.rs:248-256 | the nested loops perform Discover |
| Cloudflare.Service.ScanZone | src/services/cloudflare.rs:249-255 | one outer step scans one zone's records |
| Cloudflare.Service.PushConfigured | src/services/cloudflare.rs:250-254 | the inner loop appends the records with a configured name |
| Listing.CollectAll | src/services/linode.rs:159-178 | the loop over a JSON list computes Collect |
| Listing.CollectSticks | src/services/linode.rs:202-209 | the first item error ends the list |
| Listing.CollectOk | src/services/linode.rs:202-240 | the list reads iff every item reads; it holds exactly the items read as present |
| Listing.KindNamed | src/services/linode.rs:228-232 | "A" and "AAAA" map to their kinds and nothing else does |
| Listing.Configured | src/services/cloudflare.rs:250-254 | a record is kept iff its name is configured |
| Listing.Requests | src/services/cloudflare.rs:249-250 | the fetches' requests in order |
| Listing.ScanSticks | src/services/linode.rs:270-271 | a failed fetch stops discovery |
| Listing.ScanCaches | src/services/linode.rs:269-277 | discovery sends the fetches' requests in order; each cached record is configured and came from a fetch |
| Listing.FillCaches | src/services/cloudflare.rs:248-256 | the list request comes first; without a failure every fetch is sent; cached records come from the fetches |
| Listing.CallsOf | src/services/linode.rs:282-288 | one call decision per cached record |
| Listing.SendAll | src/services/cloudflare.rs:261-267 | the PUT loop computes Calls |
| Listing.Present | src/services/linode.rs:282-288 | at most one request per record |
| Listing.CallsSticks | src/services/cloudflare.rs:263-265 | the first PUT error aborts |
| Listing.CallsClean | src/services/linode.rs:282-288 | the run succeeds iff every made call does; then every made call was sent; a failure is some call's failure |
| Router1.EncodeCharSafe | src/services/router_1.rs:73-89 | an encoded character uses only form-safe characters |
| Router1.EncodedSafe | src/services/router_1.rs:69-92 | an encoded value never contains '&' or '=' |
| Router1.TwoHexDigits | src/services/router_1.rs:85-88 | a byte of 16 or more prints as two uppercase hex digits |
| Router1.EscapeBytesDecode | src/services/router_1.rs:85-88 | for bytes at or above 0x10, percent-decoding their escapes gives the bytes |
| Router1.EncodeCharDecodes | src/services/router_1.rs:73-89 | for a character at or above U+0010, percent-decoding its encoding gives its UTF-8 bytes |
| Router1.ValueReadsBack | src/services/router_1.rs:69-92 | for a value whose characters are all at or above U+0010, percent-decoding its encoding gives its UTF-8 bytes |
| Router1.ValueRoundTrip | src/services/router_1.rs:69-92 | for a value whose characters are all at or above U+0010, decoding its encoding gives the value back (below that, ShortEscapesCollide) |
| Router1.ShortEscapesCollide | src/services/router_1.rs:85-88 | unpadded hex makes "\u{1}A" and "\u{1A}" encode alike |
| Router1.PlainValue | src/services/router_1.rs:75-77 | alphanumerics and `* - . _` are copied unchanged |
| Router1.ValueAppend | src/services/router_1.rs:70-90 | the encoding of a concatenation is the concatenation of the encodings |
| Router1.Checksum | src/services/router_1.rs:92-112 | the checksum is below 65536 |
| Router1.Fold | src/services/router_1.rs:108-111 | folding and complementing gives 16 bits |
| Router1.Padded | src/services/router_1.rs:97-106 | zero padding to whole 4-byte words keeps the bytes |
| Router1.FourBytesBE | src/services/router_1.rs:97-100 | a word is its four bytes big-endian |
| Router1.SumOfWords | src/services/router_1.rs:97-106 | weighting trailing bytes by 24/16/8 bits is summing zero-padded big-endian words |
| Router1.ChunkSteps | src/services/router_1.rs:97-100 | four wrapping additions of one chunk add its word mod 2^32 |
| Router1.ChecksumOf | src/services/router_1.rs:92-112 | the loop computes Checksum |
| Router1.GenerateForm | src/services/router_1.rs:66-119 | the form is the field text followed by the signature field |
| Router1.WriteFields | src/services/router_1.rs:69-92 | the loop writes `key=encodedValue&` per pair, in order |
| Router1.WriteValue | src/services/router_1.rs:70-90 | the character loop appends the value's encoding |
| Router1.ChecksumReadsBack | src/services/router_1.rs:114-116 | the signed form ends with `postSecurityFlag=` and a decimal that parses back as the checksum |
| Router1.ExampleEscapes | src/services/router_1.rs:369-381 | '/' encodes as %2F and '=' as %3D |
| Router1.ExampleFormText | src/services/router_1.rs:369-381 | the admin/Login login pairs encode as the test's form text |
| Router1.LoginFormExample | src/services/router_1.rs:369-381 | the signed test form is that text plus `postSecurityFlag=` and its checksum |
| Router1.FromConfig | src/services/router_1.rs:45-64 | the service keeps its configuration, starts with no old address, and precomputes the signed login form |
| Router1.Failure | src/services/router_1.rs:267-274 | a status error maps to Router1 with that status; transport gives TransportError |
| Router1.ParseRow | src/services/router_1.rs:160-223 | a row matches only with a known old address, and its index fits a u64 |
| Router1.FindRow | src/services/router_1.rs:225-249 | every error from the scan is the malformed-row error |
| Router1.OldIpIndex | src/services/router_1.rs:122-252 | an HTTP error or an unreadable body is returned as an error |
| Router1.NoRowWithoutAddress | src/services/router_1.rs:210-222 | without an old address no row matches |
| Router1.NothingToDelete | src/services/router_1.rs:57 | old_address is never set, so no old rule is ever found |
| Router1.FindOldIpIndex | src/services/router_1.rs:122-252 | the scanning loop computes OldIpIndex on the filter page |
| Router1.DeletePost | src/services/router_1.rs:279-300 | builds the delete request for the found index |
| Router1.RulePost | src/services/router_1.rs:317-347 | builds the rule request for the address |
| Router1.UpdateRecord | src/services/router_1.rs:256-362 | the requests and result are those of the exchange |
| Router1.LoginFirst | src/services/router_1.rs:259-274 | the login is sent first; its failure ends the update with nothing else sent |
| Router1.OnlyFirstV6 | src/services/router_1.rs:257-358 | with no IPv6 address only the login is sent; success reports at most the first IPv6 address |
| Router1.RuleAddedLast | src/services/router_1.rs:279-347 | the filter page comes first; a scan error ends there; success iff the last request is the accepted rule |
| Router1.DeletesOnlyOldRule | src/services/router_1.rs:279-300 | a found rule is deleted before the new rule is added; none is deleted otherwise |
| Ip.ParseV4 | src/ip/http.rs:38 | exactly four dot-separated decimal groups of at most 255 parse, to their values |
| Ip.ShowV4 | src/services/noip.rs:59 | the printed IPv4 address holds only digits and dots |
| Ip.ParseShowV4 | src/ip/exec.rs:23 | a printed IPv4 address parses back |
| Ip.ParseIp | src/ip/http.rs:38 | IPv4 text first, otherwise IPv6 text; None iff neither parses |
| Ip.ParseShow | src/services/shared_dyndns.rs:90-91 | any printed address parses back |
| Ip.First | src/services/noip.rs:42-43 | `find` returns the earliest address of the family, or None iff there is none |
| Main.StartStateBelongs | src/main.rs:80-101 | the started state has the config's hash and keeps stored addresses only from a readable file with that hash |
| Main.Seeds | src/main.rs:116-129 | seeds are the stored addresses of configured IPs |
| Main.StartsWhenSound | src/main.rs:116-159 | start-up passes iff every IP configuration is valid, the IP set is non-empty and every ddns dependency is declared |
| Main.MissingAreUnknown | src/main.rs:143-159 | each reported reference is undeclared and comes from a service's dependency list |
| Main.NoneMissing | src/main.rs:143-159 | no reference is reported iff every dependency is declared |
| Main.Start | src/main.rs:51-159 | empty config text and TOML errors stop start-up; otherwise the verdict decides; the state is loaded and validated; the IPs are built, one distinct object per configured name; the seeds come from the state |
| Main.AddIp | src/main.rs:116-129 | one IP is added when its configuration is valid, otherwise its error is returned |
| Main.BuildIps | src/main.rs:116-129 | the loop adds every IP or stops at the first invalid one in iteration order |
| Main.MakeIps | src/main.rs:116-129 | the IPs exist iff no configuration is invalid, else the first invalid one's error |
| Main.LoadState | src/main.rs:80-97 | an unreadable or invalid file falls back to a fresh state |
| Main.CheckReferences | src/main.rs:143-159 | the loop lists the undeclared references |
| Main.Known | src/main.rs:227-233 | exactly the IPs with an address, with that address |
| Main.Cycle | src/main.rs:169-253 | every IP is refreshed first; the calls and rebuilt state are Report's on the refreshed states |
| Main.Refresh | src/main.rs:172-180 | each IP's state becomes Step of its resolution, errors only logged |
| Main.CalledIffDirty | src/main.rs:183-201 | a service is called iff a dependency is dirty, and with its resolved addresses |
| Main.CalledOnlyIfListed | src/main.rs:182 | only configured services are called |
| Main.TriggeredIffDirty | src/main.rs:183-192 | a rebuild is triggered iff some service has a dirty dependency |
| Main.TriggeredIffCalled | src/main.rs:188-226 | the state is rebuilt iff some service was called, even if that call failed |
| Main.ResolvedInOrder | src/main.rs:194-199 | each passed address is some dependency's address; when every name resolves, all are passed, in list order; none is passed iff no name resolves |
| Main.ResolvedAppend | src/main.rs:194-199 | for any mix of resolved and unresolved names, the addresses of an earlier run of names come before those of a later run |
| Main.SnapshotSeedsNextStart | src/main.rs:226-253 | a written snapshot whose names are storable (non-empty, length-field-sized) is loaded back unchanged at the next start |
| Main.RefreshedCoherent | src/ip/mod.rs:216-222 | after refresh, every dirty IP has an address |
| Main.DirtyResolves | src/main.rs:183-199 | a dirty dependency always contributes an address |
| Main.CallsCarryAddresses | src/main.rs:194-201 | every service call carries at least one address |
| Main.ServedCallsCarryAddresses | src/main.rs:169-223 | in every cycle of the loop, every call carries at least one address |
| Main.ReportAt | src/main.rs:169-261 | cycle j reports on the states after j+1 refreshes |
| Main.Serve | src/main.rs:169-261 | one cycle without an update rate, else one per world; each cycle's report is Report on the refreshed states |

## Left out

- Netmask.FromPrefix: a prefix above the family width underflows `32 - prefix` (or `128 - prefix`) on a `u8` (src/ip/netmask.rs:106, 173). The model takes the release-build wrap-around, which gives the zero mask; a debug build panics instead. The parser never passes such a prefix.
- Persistence.PersistentState.WriteTo: `write` (src/persistence.rs:187-204) is modelled as writing every byte; a short write, which the source ignores, is not modelled. I/O errors are not modelled either.
- Persistence.PersistentState.WriteEntry: same full-write assumption for one entry.
- SharedDynDns.Service.UpdateRecord: requires a non-empty address list when not suspended. This excludes the `unreachable!()` at src/services/shared_dyndns.rs:76. Main.ServedCallsCarryAddresses proves the main loop never passes an empty list.
- Porkbun.UpdateRecord: uses the corrected split (leading dots trimmed) in place of the panicking `unwrap` at src/services/porkbun.rs:70-73; see Findings.
- Main.Start: `update_from_cache` (src/main.rs:125) is not defined in the source, so its effect is not modelled. Start-up returns the seed addresses instead.
- Main.Serve: the endless loop becomes a finite list of per-cycle lookup results and times. `thread::sleep` is not modelled.
- Main.Start: reading and creating the config and state files (src/main.rs:51-68, 237-253) is an input or output, and their I/O errors are left out. TOML parsing is an input `parsed`.
- Main.BuildIps: the built map holds one distinct `DynamicIp` per name, but the contract does not state that these objects are newly allocated (only AddIp states it for each one).
- Main.Cycle: `ips[name]` (src/main.rs:185, 196) panics on a name that is not a configured address. AddressOf and DirtyName are total instead, treating such a name as unresolved and clean. Main.Cycle and Main.Serve do not require every referenced name to exist; Main.StartsWhenSound shows that start-up refuses a configuration with an undeclared reference, so the difference is unreachable from Start.
- Main.BuildIps: HashMap iteration order is unspecified. It is an explicit order sequence (`ipOrder`, `order`), and no claim depends on a particular order.
- Router1.LoginFormExample: the concrete checksum 47346 of the source's test is not evaluated. The lemma states that the suffix is the checksum of the exact test text, but does not compute its value.
- Router1.FromConfig: base64 (section 4 of RFC 4648) is a parameter, so `encode_password` is modelled only as base64 of the UTF-8 password.
- Ip.ParseIp: IPv6 text parsing and printing (section 2.2 of RFC 4291) is the parameter `Ip.Ipv6Text`, assumed only to round-trip.
- Persistence.ConfigHash: CRC-32 is the parameter `Crc32`; only the rolling half is written out.
- DynamicIp.ServiceFromConfig: regex compilation is the parameter `regexError`.
- DynamicIp.Resolve: the exec and HTTP lookups and the getifaddrs walk (src/ip/exec.rs, src/ip/http.rs, src/ip/interface.rs:23-80) are the input `Lookup`.
- Interface.GetDeprecatedV6: reading /proc/net/if_inet6 is the text input `ifInet6`.
- Http: the 2 MiB body cap of `into_string` (src/http/mod.rs:39) is not modelled; a body is readable text or an error.
- Http: the User-Agent header the ureq backend adds to every request (src/http/ureq_backend.rs:14-24) is absent from the modelled requests. NoIp's explicit User-Agent is modelled.
- Http: the curl and ureq transports are the parameter `Send`. JSON decoding is the parameter `ParseJson`.
- src/services/dnsomatic.rs and src/services/ipv64.rs: thin wrappers around SharedDynDns with a fixed name and URL; not modelled separately.
- src/services/dummy.rs: a printing stub; its first-v4/first-v6 logic is Ddns.Submitted.
- src/config.rs and src/util.rs: deserialisation only; settings are Dafny datatypes.
- Logging and printing are not modelled.

## Findings

| source | as written | input that shows it | evidently intended | confidence | as-written member | corrected member |
|---|---|---|---|---|---|---|
| src/services/porkbun.rs:63-73 | the subdomain is built from all labels but the last two, with leading dots trimmed, and then stripped from the untrimmed name with `strip_prefix(subdomain).unwrap()` | ".www.example.com": the subdomain is "www", which is not a prefix of the name, so the unwrap panics | every name splits, as the comment on the unwrap says: leading dots are trimmed from the name before splitting | not executed | Porkbun.LeadingDotPanics | Porkbun.SplitTrimmedAgrees |
