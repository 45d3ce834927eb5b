# WireGuard configuration pipeline, modelled in Dafny

The repository turns a WireGuard `.conf` text into the JSON objects that
sing-box / Throne import, and into two kinds of share links. This project models
that pipeline and proves what it promises.

- `wg2throne.dfy` (module `Wg2Throne`) models `wg2throne.py`. `split_sections`
  keeps repeated section names as separate entries, in order. `parse_endpoint`
  and `split_list_field` are the value helpers. `build_from_text` picks the last
  interface section and the peer sections, case-insensitively. It parses the
  peers with best-effort `int()` and the `PresharedKey` spelling fallback. It
  builds the "endpoint" and "outbound" objects, the one-element outbound array,
  and the raw text with its Base 64 form.
- `export_config.dfy` (module `ExportConfig`) models `export_config.py`.
  `_parse_wg_conf` is the line loop that merges repeated section names.
  `_split_endpoint` and `_parse_ip_list` are its helpers. `build_config_from_wg`
  is modelled through the template fields that depend on the input.
- `print_parser.dfy` (module `PrintParser`) models `parse_wg_config` of
  `print.py`. It starts from fixed defaults and overwrites a field only when its
  key is found. Each value comes from the first `re.search` match of the key
  anywhere in the text, whatever section the key is in.
- `export_sn.dfy` (module `ExportSn`) models the `sn://wg?` link of
  `export_sn.py`. The payload is URL-safe Base 64 with its padding removed.
- `export_uri.dfy` (module `ExportUri`) models the `wireguard://` URI of
  `export_uri.py`. The payload is standard, padded Base 64.
- `pystr.dfy`, `utf8.dfy` and `base64.dfy` spell out the Python built-ins the
  scripts rely on. `PyStr` covers `strip`, `split`, `rsplit`, `count`,
  `splitlines`, file line iteration, `isdigit`, `int()` and `lower()`. `Utf8` is
  `str.encode("utf-8")`. `Base64` follows RFC 4648, with the standard alphabet
  of its section 4 and the URL-safe alphabet of its section 5.
- `wrappers.dfy` holds `Option`, `Result` and the errors the scripts raise.
- `seqs.dfy` holds generic sequence lemmas.

The state-changing code keeps its imperative form.

- `split_sections` and `_parse_wg_conf` are methods with `while` loops. Each
  is proved equal to a function: a run of a one-line step function over the
  classified lines. The properties are then proved about that function.
- The four loops of `build_from_text` are methods too. The loop that picks the
  sections is proved equal to `InterfaceOf` and `PeersOf`. The loop that parses
  the peers is proved equal to `ParsePeer` mapped over them, in order. The
  loops that fill the endpoint and the outbound objects are proved equal to
  `EndpointOf` and `OutboundOf`.
- `parse_wg_config` is a method. It updates a record field by field through
  the same conditional assignments the script makes.

Regular expressions are modelled as what they match.

- In `print.py`, `Key\s*=\s*(.+)` is searched over the whole text, exactly as
  `re.search` does. `\s*` may cross line breaks. When only whitespace follows
  the `=`, the greedy `\s*` gives back the last character that is not a line
  break, and `.+` takes it.
- In `wg2throne.py` and `export_config.py` the patterns are anchored to one
  line. They are modelled as the split each one performs.

## Model

| member | source | states |
|---|---|---|
| `Wg2Throne.HeaderName` | wg2throne.py:17-20 | a header match has a non-empty name and is never a skipped (blank or comment) line |
| `Wg2Throne.HeaderLine` | wg2throne.py:20-24 | `[name]` is a header whatever whitespace surrounds it; the name is the text between the brackets, not stripped |
| `Wg2Throne.Assignment` | wg2throne.py:29-32 | a line without '=' is no assignment; the key is '='-free (split at the first '='); key and value are stripped |
| `Wg2Throne.AssignmentLine` | wg2throne.py:29-32 | `key=value` with an '='-free key yields the stripped key and the stripped value |
| `Wg2Throne.Classify` | wg2throne.py:17-33 | a line is skipped iff blank or a '#'/';' comment, a header iff it is bracketed, otherwise an assignment when it splits at '=' |
| `Wg2Throne.SplitSections` | wg2throne.py:11-36 | the loop returns exactly `SectionsOf` the text's `splitlines()` |
| `Wg2Throne.SkippedLineIgnored` | wg2throne.py:17-19 | removing a blank or comment line anywhere never changes the sections |
| `Wg2Throne.NoHeaderNoSection` | wg2throne.py:27-28 | with no header the loop state stays initial |
| `Wg2Throne.PreambleDropped` | wg2throne.py:27-28 | lines before the first header are dropped |
| `Wg2Throne.SectionNames` | wg2throne.py:20-26 | one section per header line, in textual order, named as the header says; equal names are not merged |
| `Wg2Throne.SectionOfHeader` | wg2throne.py:21-35 | a header followed by non-header lines adds one section holding exactly the pairs of those lines |
| `Wg2Throne.UnassignedKept` | wg2throne.py:29-33 | lines that do not assign a key leave its value alone |
| `Wg2Throne.LastAssignmentWins` | wg2throne.py:29-33 | within a section the last line assigning a key decides its value |
| `Wg2Throne.WithFirstServer` | wg2throne.py:137-142 | only the server and port change; each is taken from the first peer exactly when that value is truthy |
| `Wg2Throne.BracketForm` | wg2throne.py:42 | `[host]:digits` matches only with a non-empty, ']'-free host and a ':' |
| `Wg2Throne.ParseEndpoint` | wg2throne.py:38-51 | no host iff the value is empty; a port only when the stripped value has a ':' |
| `Wg2Throne.EndpointBracketed` | wg2throne.py:42-44 | `[h]:n` gives `(h, n)` |
| `Wg2Throne.EndpointHostPort` | wg2throne.py:45-50 | a single ':' gives the host as written and `int()` of the port, None when `int()` rejects it |
| `Wg2Throne.EndpointHostNumber` | wg2throne.py:45-48 | `host:n` with a colon-free host gives `(host, n)` |
| `Wg2Throne.EndpointWithoutColon` | wg2throne.py:41-51 | a value without ':' gives the stripped value and no port |
| `Wg2Throne.EndpointManyColons` | wg2throne.py:45-51 | an unbracketed value with two or more colons gives the stripped value and no port |
| `Wg2Throne.SplitListField` | wg2throne.py:53-56 | every item is non-empty, stripped and comma-free |
| `Wg2Throne.SplitListJoin` | wg2throne.py:53-56 | joining such items with ',' and splitting gives them back, in order |
| `Wg2Throne.SplitListAppend` | wg2throne.py:56 | the items of `a,b` are those of `a` followed by those of `b` |
| `Wg2Throne.ListFieldOfSplit` | wg2throne.py:54-56 | the early return for an empty value agrees with the comprehension |
| `Wg2Throne.InterfaceOf` | wg2throne.py:62-64 | None iff no section's lower-cased name is "interface" |
| `Wg2Throne.PeersOf` | wg2throne.py:65-66 | empty iff no section's lower-cased name is "peer" |
| `Wg2Throne.LastInterfaceWins` | wg2throne.py:62-64 | a later interface section replaces an earlier one |
| `Wg2Throne.PeersOfAppend` | wg2throne.py:65-66 | peers keep their textual order across any split of the sections |
| `Wg2Throne.ChooseSections` | wg2throne.py:60-66 | the loop returns `InterfaceOf` and `PeersOf` the sections |
| `Wg2Throne.OrEmpty` | wg2throne.py:71 | `x or ""`: the value when present, "" otherwise |
| `Wg2Throne.NonZero` | wg2throne.py:109 | `x or None`: a zero becomes None, any other value is kept |
| `Wg2Throne.OptionalInt` | wg2throne.py:74-79 | a value is `int()` of the key's text; an empty value or one `int()` rejects gives None, never an error |
| `Wg2Throne.PresharedKey` | wg2throne.py:87 | `PresharedKey` is preferred, `PreSharedKey` used only when the first is absent or empty, None when both are |
| `Wg2Throne.ParsePeer` | wg2throne.py:82-102 | no host iff no Endpoint; a non-empty Endpoint gives host and port by `parse_endpoint`; a port only with a host; the public key and the pre-shared key under either spelling; allowed IPs are list items; keepalive is `int()` of a non-empty key and absent otherwise |
| `Wg2Throne.ParsePeers` | wg2throne.py:81-102 | the loop parses every peer, in order |
| `Wg2Throne.ToEndpointPeer` | wg2throne.py:116-124 | `reserved == [0,0,0]`; a present port is non-zero and a non-zero parsed port is carried; the pre-shared key is `""` and the keepalive 0 when absent |
| `Wg2Throne.ToOutboundPeer` | wg2throne.py:144-151 | `reserved == [0,0,0]`; a present port is non-zero and a non-zero parsed port is carried; the pre-shared key is `""` when absent |
| `Wg2Throne.PeerEntriesAgree` | wg2throne.py:116-150 | the endpoint and outbound entries of a peer carry the same host, port, keys and allowed IPs |
| `Wg2Throne.EndpointOf` | wg2throne.py:104-124 | fixed type, tag, `system == false`, empty name, no listen port; mtu is present exactly when `int()` of MTU is non-zero, and is that value; address list and private key from the interface; one entry per peer, in order |
| `Wg2Throne.BuildEndpoint` | wg2throne.py:104-124 | the object with its peers appended one by one equals `EndpointOf` |
| `Wg2Throne.OutboundOf` | wg2throne.py:126-151 | local address list and private key from the interface; one entry per peer, in order; server present iff the first peer's host is non-empty, port iff its port is truthy, taken from that peer only |
| `Wg2Throne.BuildOutbound` | wg2throne.py:126-151 | the object with its server set and its peers appended equals `OutboundOf` |
| `Wg2Throne.TextBase64` | wg2throne.py:157 | the field decodes to the UTF-8 bytes of the text and is whole 4-character quanta |
| `Wg2Throne.Assemble` | wg2throne.py:153-161 | `raw == text`, `outbounds_array == [outbound]`, endpoint and outbound share address and private key |
| `Wg2Throne.RawFromBase64` | wg2throne.py:156-157 | the raw text is recovered from the base64 field |
| `Wg2Throne.ThroneOf` | wg2throne.py:58-69 | the `NoSections` error iff no section is named interface or peer, compared case-insensitively; otherwise one endpoint peer per peer section |
| `Wg2Throne.BuildFromText` | wg2throne.py:58-161 | the method returns `ThroneOf(text, tag)` |
| `ExportConfig.KeyValue` | export_config.py:18-34 | a match has a word key (`[A-Za-z0-9_]+`) and a non-empty stripped value without a line break |
| `ExportConfig.KeyValueLine` | export_config.py:34-36 | `key = value`, with any whitespace around '=', a word key and a stripped value without a line break, reads back as `(key, value)` |
| `ExportConfig.SectionHeader` | export_config.py:28-30 | a line is a header exactly when it starts with '[' and ends with ']'; the section name is stripped |
| `ExportConfig.SectionHeaderOf` | export_config.py:28-30 | `[` + spaces + name + spaces + `]` names the section `name` when the name is stripped and has no bracket at either end |
| `ExportConfig.ClassifyConf` | export_config.py:22-36 | a comment iff the stripped line is empty or starts with '#' or ';'; headers, keys and values are well formed |
| `ExportConfig.ParseWgConf` | export_config.py:15-39 | the loop returns `SectionsOfFile` of the contents |
| `ExportConfig.StepWellFormed` | export_config.py:28-37 | one line keeps the current section existing, names stripped, keys words, values stripped and non-empty |
| `ExportConfig.RunWellFormed` | export_config.py:20-37 | every state the loop reaches is well formed |
| `ExportConfig.SectionsWellFormed` | export_config.py:18-37 | only word keys with stripped non-empty values are recorded, under stripped names |
| `ExportConfig.SectionsAreHeaders` | export_config.py:28-33 | the section names are exactly the distinct header names: repeated names merge |
| `ExportConfig.PreambleIgnored` | export_config.py:35 | pairs before the first header are ignored |
| `ExportConfig.PreambleDropped` | export_config.py:23-35 | header-free lines before the first header leave the parsed sections unchanged |
| `ExportConfig.RepeatedHeaderMerges` | export_config.py:31-32 | a known name is selected again without touching any pairs |
| `ExportConfig.PairRecorded` | export_config.py:35-37 | a pair is stored in the current section, overwriting an earlier value, keeping the section's other keys and leaving other sections alone |
| `ExportConfig.SplitEndpoint` | export_config.py:42-53 | an empty value and a value without ':' are the two errors; otherwise a ':' was present |
| `ExportConfig.SplitEndpointOf` | export_config.py:51-53 | `host:n` splits back into host and n, even when the host holds colons |
| `ExportConfig.SplitEndpointBadPort` | export_config.py:52 | a port `int()` rejects is an error naming it |
| `ExportConfig.ParseIpList` | export_config.py:56-60 | every item is non-empty and stripped |
| `ExportConfig.IpListAgrees` | export_config.py:60 | it equals wg2throne's `split_list_field` on every input |
| `ExportConfig.PrimaryDns` | export_config.py:79-81 | the first DNS item, or "1.1.1.1" when there is none |
| `ExportConfig.MtuOr` | export_config.py:141-162 | an all-digit MTU is its value, anything else the default |
| `ExportConfig.Wrap` | export_config.py:140-161 | `[x]` for a non-empty x, `[]` otherwise |
| `ExportConfig.Derive` | export_config.py:71-167 | an error iff the Peer endpoint is present and malformed; DoH URL wraps the direct DNS address; DNS rule domain is `[host]` or `[]`; address fields agree; empty pre-shared key; `("", 0)` without endpoint |
| `ExportConfig.PrimaryDnsRule` | export_config.py:80-104 | the direct DNS address is the first DNS item or 1.1.1.1 |
| `ExportConfig.MtuRule` | export_config.py:141-162 | an all-digit MTU sets both MTUs; otherwise they are 1500 and 1320 |
| `ExportConfig.CopiedFields` | export_config.py:73-165 | keys and address come from the sections named exactly "Interface" and "Peer"; the address is wrapped whole |
| `ExportConfig.ServerFromEndpoint` | export_config.py:84-167 | server and port are the Peer endpoint's host and port, and the DNS rule names the host |
| `ExportConfig.BuildConfigFromWg` | export_config.py:63-192 | the method returns `ConfigOf` the contents |
| `PrintParser.MatchAt` | print.py:19-32 | a group of `Key\s*=\s*(.+)` is non-empty, has no line break, and needs the key followed by '=' |
| `PrintParser.DigitsMatchAt` | print.py:22 | a group of `MTU\s*=\s*(\d+)` is all digits |
| `PrintParser.Search` | print.py:19-32 | None iff no position of the text starts a match |
| `PrintParser.DigitsSearch` | print.py:22 | None iff no position starts a match; a group is all digits |
| `PrintParser.SearchFirst` | print.py:19-32 | the first position that matches decides the result |
| `PrintParser.DigitsSearchFirst` | print.py:22 | the first position that matches decides the result |
| `PrintParser.FieldMatch` | print.py:19-24 | the match at a line `key w1 = w2 value` is `value`, the rest of the line |
| `PrintParser.FieldAt` | print.py:19-24 | the first line `key w1 = w2 value` in the text, after a prefix where no match starts, gives `value` |
| `PrintParser.DigitsFieldMatch` | print.py:22-27 | the match at a line `MTU w1 = w2 digits` is the digits |
| `PrintParser.DigitsFieldAt` | print.py:22-27 | the first line `MTU w1 = w2 digits` in the text, after a prefix where no match starts, gives the digits |
| `PrintParser.AbsentKey` | print.py:24-35 | a key not in the text is not found, so its field keeps its default |
| `PrintParser.StripItems` | print.py:25-35 | one stripped item per comma-separated part, empty items kept |
| `PrintParser.StripItemsJoin` | print.py:25-35 | stripped comma-free items joined with ',' read back unchanged |
| `PrintParser.EndpointOf` | print.py:36-39 | no ':' is the unpacking error; a host is stripped |
| `PrintParser.EndpointOfBadPort` | print.py:36-39 | a port after the last ':' that `int()` rejects is the error naming the stripped port |
| `PrintParser.EndpointOfHostPort` | print.py:36-39 | `host:n` gives the stripped host and n, splitting at the last ':' |
| `PrintParser.SetEndpoint` | print.py:36-39 | the error of `EndpointOf`, or the record with server and port set |
| `PrintParser.SetInterfaceFields` | print.py:18-27 | each interface field is the found value, or is left as it was |
| `PrintParser.SetPeerFields` | print.py:29-39 | each peer field is the found value, or is left as it was; a malformed endpoint is an error |
| `PrintParser.ParseWgConfig` | print.py:5-41 | every field is its first match anywhere in the text, or its default; type is "wireguard"; an error iff the endpoint is found and malformed |
| `ExportSn.ToBase64UrlNoPad` | export_sn.py:10-15 | URL-safe alphabet only (so no '='), length ceil(4n/3), re-padding gives the padded encoding |
| `ExportSn.NoPadRoundTrip` | export_sn.py:14-15 | re-padding and decoding gives back the bytes |
| `ExportSn.NoPadInjective` | export_sn.py:14-15 | distinct bytes get distinct payloads |
| `ExportSn.BuildSnLink` | export_sn.py:18-33 | `sn://wg?` then a payload without '=' of length ceil(4n/3) of the compressed JSON |
| `ExportSn.ReadBuild` | export_sn.py:25-33 | the link carries the exact JSON text, given a decompressor that undoes compression |
| `ExportSn.LinkInjective` | export_sn.py:25-33 | equal links mean equal JSON texts |
| `ExportUri.BuildWireguardUri` | export_uri.py:9-17 | `wireguard://` then a payload of whole quanta in the standard alphabet, '=' only among the last two characters |
| `ExportUri.ReadBuild` | export_uri.py:15-17 | the URI carries the exact JSON text |
| `ExportUri.UriInjective` | export_uri.py:15-17 | equal URIs mean equal JSON texts |
| `Base64.Encode` | export_uri.py:16 | length `4 * ceil(n/3)`; alphabet characters, '=' only among the last two, and nothing but '=' after the first '=' |
| `Base64.DecodeEncode` | export_uri.py:16 | decoding inverts encoding, for both alphabets |
| `Base64.EncodeInjective` | export_uri.py:16 | distinct bytes get distinct encodings |
| `Base64.StripPadding` | export_sn.py:15 | `rstrip("=")` of the padded encoding is the unpadded encoding |
| `Base64.RePadRestores` | export_sn.py:14-15 | re-padding the unpadded encoding restores the padded one |
| `Utf8.DecodeEncode` | wg2throne.py:157 | UTF-8 decoding inverts `encode('utf-8')` |
| `Utf8.EncodeInjective` | export_uri.py:16 | distinct texts get distinct bytes |
| `PyStr.Trim` | wg2throne.py:17 | `strip()` leaves no whitespace at either end |
| `PyStr.Split` | export_config.py:60 | `split(',')` gives at least one part, none holding the separator, joining back to the text |
| `PyStr.SplitJoin` | export_config.py:60 | splitting a join of separator-free parts gives the parts |
| `PyStr.SplitCount` | print.py:25 | there is one part more than there are separators |
| `PyStr.RSplitOnce` | export_config.py:51 | no split exactly when the separator is absent; the two parts rejoin to the text and the right part holds no separator |
| `PyStr.RSplitOnceOf` | export_config.py:51 | `rsplit(':', 1)` splits at the last ':' |
| `PyStr.NonEmptyStripped` | export_config.py:60 | the kept items are non-empty and stripped |
| `PyStr.SplitLines` | wg2throne.py:12 | `splitlines()` lines hold no line boundary |
| `PyStr.FileLines` | export_config.py:21 | the lines of a text file hold no '\n' or '\r' |
| `PyStr.PyInt` | wg2throne.py:77 | `int()` succeeds exactly when the stripped text is a numeral, optionally signed, and yields its value |
| `PyStr.PyIntOfDigits` | wg2throne.py:77 | `int()` of ASCII digits is their decimal value |

## Left out

- Reading files and standard input, `sys.argv`, `main()`, printing, and the existence check of `export_config.py:12-13` are left out. `_parse_wg_conf` and `build_config_from_wg` take the file's contents; `print.py`, `export_sn.py` and `export_uri.py` take the text or the parsed configuration.
- `main.py` (QR codes, PNG/SVG files) and `copy_outbound.py` (clipboard through `subprocess`) are not part of this model: they are a foreign library and I/O.
- `json.dumps` and `zlib.compress` are function parameters (`dumps`, `compress`). No zlib decoder is claimed; `ExportSn.ReadBuild` requires a `decompress` that undoes `compress`.
- `Wg2Throne.BuildFromText`: the default `tag="wg-1"` of `build_from_text` (wg2throne.py:58) is not modelled; the tag is always a parameter, and the repository's caller passes it explicitly.
- `dns_list` (wg2throne.py:73) is computed and never used in the output, so it is not modelled.
- The fixed blocks of the `build_config_from_wg` template are left out; `ExportConfig.Derived` holds every field that depends on the input.
- `PyStr.PyInt`: `int()` is modelled for ASCII digits, with surrounding whitespace, a sign and single underscores between digits; non-ASCII decimal digits are not accepted.
- `ExportConfig.MtuOr`: `str.isdigit()` is modelled as ASCII digits only. A string of non-ASCII decimal digits such as "١٥٠٠" is an MTU of 1500 in the source but the default in the model; a digit string without a decimal value such as "²" makes `int()` raise in the source and is out of scope.
- `Wg2Throne.BracketForm`: `\d` is modelled as ASCII digits only, so "[::1]:٥١٨٢٠" splits into ("::1", 51820) in the source but stays an unsplit host with no port in the model.
- `PrintParser.DigitsMatchAt`: the regex class `\d` is modelled as ASCII digits only.
- `PyStr.AsciiLower`: `lower()` is modelled on ASCII letters only; the names compared with it, "interface" and "peer", are ASCII, so the comparison agrees with Python except for non-ASCII names that lower-case to these words.
- `PrintParser.ParseWgConfig`: the result dictionary is a record updated field by field; the mutation in place of a shared dictionary (aliasing) is not modelled, nothing else holds a reference to it.
- Python raising an exception is modelled as the `Err` case of `Result`, with the error kind; the message texts are left out.
