/**
  export_config.py: reads a WireGuard configuration into a dictionary of
  sections (repeated section names merged), splits the endpoint and the DNS
  list, and derives the fields of a fixed sing-box configuration template.
*/
module ExportConfig {
  import opened Wrappers
  import opened PyStr
  import Seqs
  import Wg2Throne

  // ---------------------------------------------------------------------------
  // the key/value pattern `^\s*([A-Za-z0-9_]+)\s*=\s*(.+?)\s*$`

  predicate IsWordChar(c: char) {
    ('A' <= c <= 'Z') || ('a' <= c <= 'z') || ('0' <= c <= '9') || c == '_'
  }

  predicate IsNotWordChar(c: char) {
    !IsWordChar(c)
  }

  predicate IsWord(s: string) {
    |s| > 0 && forall i :: 0 <= i < |s| ==> IsWordChar(s[i])
  }

  /** A match of the pattern on a stripped line: after leading whitespace,
      the maximal run of word characters (at least one), optional whitespace,
      '=', then a value that is non-empty once stripped and holds no line
      break ('.' does not match one). */
  function KeyValue(line: string): (r: Option<(string, string)>)
    ensures r.Some? ==> IsWord(r.value.0) && r.value.1 != "" && Trim(r.value.1) == r.value.1
    ensures r.Some? ==> '\n' !in r.value.1
  {
    var t := LStrip(line, IsSpace);
    var key := WordPrefix(t);
    if key == "" then None
    else
      match AssignedValue(t[|key|..])
      case None => None
      case Some(v) => Some((key, v))
  }

  /** The longest prefix made of word characters. */
  function WordPrefix(t: string): (w: string)
    ensures |w| <= |t| && w == t[..|w|]
    ensures w != "" ==> IsWord(w)
    ensures |w| < |t| ==> !IsWordChar(t[|w|])
  {
    t[..FirstWhere(t, IsNotWordChar)]
  }

  /** What follows the key: optional whitespace, '=', and a value that is
      non-empty once stripped and has no line break. */
  function AssignedValue(s: string): (v: Option<string>)
    ensures v.Some? ==> v.value != "" && Trim(v.value) == v.value && '\n' !in v.value
  {
    var rest := LStrip(s, IsSpace);
    if rest == "" || rest[0] != '=' then None
    else
      var v := Trim(rest[1..]);
      if v == "" || '\n' in v then None
      else
        TrimIdempotent(rest[1..]);
        Some(v)
  }

  /** `key = value` lines are read as the key and the value as written,
      whatever whitespace surrounds the '='. */
  lemma KeyValueLine(key: string, w1: string, w2: string, value: string)
    requires IsWord(key)
    requires AllSatisfy(w1, IsSpace) && AllSatisfy(w2, IsSpace)
    requires value != "" && !IsSpace(value[0]) && !IsSpace(value[|value| - 1]) && '\n' !in value
    ensures KeyValue(key + w1 + "=" + w2 + value) == Some((key, value))
  {
    var rest := w1 + "=" + w2 + value;
    assert key + w1 + "=" + w2 + value == key + rest;
    assert rest[0] == if w1 == [] then '=' else w1[0];
    KeyValueOf(key, rest);
    AssignedValueOf(w1, w2, value);
  }

  lemma KeyValueOf(key: string, rest: string)
    requires IsWord(key)
    requires rest != [] && !IsWordChar(rest[0])
    ensures KeyValue(key + rest) == match AssignedValue(rest) case None => None case Some(v) => Some((key, v))
  {
    var ln := key + rest;
    assert ln[0] == key[0];
    LStripNone(ln);
    KeyRun(key, rest);
    Seqs.AppendSlices(key, rest);
  }

  lemma LStripNone(s: string)
    requires s != [] && !IsSpace(s[0])
    ensures LStrip(s, IsSpace) == s
  {
    LStripOfPrefix("", s, IsSpace);
    assert "" + s == s;
  }

  lemma AssignedValueOf(w1: string, w2: string, value: string)
    requires AllSatisfy(w1, IsSpace) && AllSatisfy(w2, IsSpace)
    requires value != "" && !IsSpace(value[0]) && !IsSpace(value[|value| - 1]) && '\n' !in value
    ensures AssignedValue(w1 + "=" + w2 + value) == Some(value)
  {
    var rest := ['='] + (w2 + value);
    assert w1 + "=" + w2 + value == w1 + rest;
    LStripOfPrefix(w1, rest, IsSpace);
    assert rest[1..] == w2 + value == w2 + value + "";
    TrimSurrounded(w2, value, "");
  }

  /** The word run of `key + rest` is `key` when `rest` starts with a non-word character. */
  lemma KeyRun(key: string, rest: string)
    requires IsWord(key)
    requires rest != [] && !IsWordChar(rest[0])
    ensures WordPrefix(key + rest) == key
  {
    var s := key + rest;
    assert s[|key|] == rest[0];
    assert forall i :: 0 <= i < |key| ==> s[i] == key[i];
    assert s[..|key|] == key;
  }

  // ---------------------------------------------------------------------------
  // _parse_wg_conf

  /** The dictionary of sections, each a dictionary of key/value pairs. */
  type Sections = map<string, map<string, string>>

  /** The loop state: the sections so far and the name of the current one. */
  datatype ConfState = ConfState(sections: Sections, current: string)

  const Init := ConfState(map[], "")

  /** The name of a stripped line that starts with '[' and ends with ']': the
      text without its surrounding brackets, stripped (`strip("[]").strip()`). */
  function SectionHeader(line: string): (r: Option<string>)
    ensures r.Some? <==> |line| >= 1 && line[0] == '[' && line[|line| - 1] == ']'
    ensures r.Some? ==> Trim(r.value) == r.value
  {
    if |line| >= 1 && line[0] == '[' && line[|line| - 1] == ']' then
      TrimIdempotent(Strip(line, IsBracket));
      Some(Trim(Strip(line, IsBracket)))
    else None
  }

  /** `[ name ]` selects the section `name`: the brackets go, then the
      whitespace inside them. */
  lemma SectionHeaderOf(w1: string, name: string, w2: string)
    requires AllSatisfy(w1, IsSpace) && AllSatisfy(w2, IsSpace)
    requires name != [] && Stripped(name)
    requires !IsBracket(name[0]) && !IsBracket(name[|name| - 1])
    ensures SectionHeader("[" + (w1 + name + w2) + "]") == Some(name)
  {
    var inner := w1 + name + w2;
    var line := "[" + inner + "]";
    InnerEnds(w1, name, w2);
    assert line[0] == '[' && line[|line| - 1] == ']';
    StripBrackets(inner);
    TrimSurrounded(w1, name, w2);
    assert SectionHeader(line) == Some(Trim(Strip(line, IsBracket)));
  }

  lemma InnerEnds(w1: string, name: string, w2: string)
    requires AllSatisfy(w1, IsSpace) && AllSatisfy(w2, IsSpace)
    requires name != [] && !IsBracket(name[0]) && !IsBracket(name[|name| - 1])
    ensures var inner := w1 + name + w2;
      !IsBracket(inner[0]) && !IsBracket(inner[|inner| - 1])
  {
    var inner := w1 + name + w2;
    if w1 != [] {
      assert inner[0] == w1[0] && IsSpace(w1[0]);
    } else {
      assert inner[0] == name[0];
    }
    if w2 != [] {
      assert inner[|inner| - 1] == w2[|w2| - 1] && IsSpace(w2[|w2| - 1]);
    } else {
      assert inner[|inner| - 1] == name[|name| - 1];
    }
  }

  /** Stripping the brackets of `[inner]` leaves `inner` when its own ends
      are not brackets. */
  lemma StripBrackets(inner: string)
    requires inner != [] && !IsBracket(inner[0]) && !IsBracket(inner[|inner| - 1])
    ensures Strip("[" + inner + "]", IsBracket) == inner
  {
    assert "[" + inner + "]" == "[" + (inner + "]");
    LStripOfPrefix("[", inner + "]", IsBracket);
    RStripOfSuffix(inner, "]", IsBracket);
  }

  predicate IsComment(line: string) {
    line == "" || line[0] == '#' || line[0] == ';'
  }

  /** What a line is to the loop, tested in the loop's order. */
  datatype ConfLine = Comment | Header(name: string) | Pair(key: string, value: string) | Other

  function ClassifyConf(raw: string): (r: ConfLine)
    ensures r.Comment? <==> IsComment(Trim(raw))
    ensures ValidLine(r)
  {
    var line := Trim(raw);
    if IsComment(line) then Comment
    else match SectionHeader(line)
      case Some(name) => Header(name)
      case None =>
        match KeyValue(line)
        case Some((k, v)) => Pair(k, v)
        case None => Other
  }

  /** Neither end is whitespace: what strip() leaves. */
  predicate Stripped(s: string) {
    s != [] ==> !IsSpace(s[0]) && !IsSpace(s[|s| - 1])
  }

  /** Header names are stripped; keys are words; values are stripped and non-empty. */
  predicate ValidLine(l: ConfLine) {
    && (l.Header? ==> Stripped(l.name))
    && (l.Pair? ==> IsWord(l.key) && l.value != "" && Stripped(l.value))
  }

  /** The effect of one line: a header selects its section, creating it only
      when new; a pair is stored in the current section, if there is one. */
  function ConfStep(st: ConfState, l: ConfLine): ConfState {
    match l
    case Header(name) =>
      ConfState(if name in st.sections then st.sections else st.sections[name := map[]], name)
    case Pair(k, v) =>
      if st.current != "" && st.current in st.sections then
        ConfState(st.sections[st.current := st.sections[st.current][k := v]], st.current)
      else st
    case _ => st
  }

  function ConfRun(st: ConfState, ls: seq<ConfLine>): ConfState
    decreases |ls|
  {
    if ls == [] then st else ConfStep(ConfRun(st, ls[..|ls| - 1]), ls[|ls| - 1])
  }

  lemma ConfRunSnoc(st: ConfState, xs: seq<ConfLine>, x: ConfLine)
    ensures ConfRun(st, xs + [x]) == ConfStep(ConfRun(st, xs), x)
  {
    Seqs.InitOfSnoc(xs, x);
  }

  function ConfLines(lines: seq<string>): seq<ConfLine> {
    Seqs.Map(ClassifyConf, lines)
  }

  /** The sections `_parse_wg_conf` returns for a file's contents. */
  function SectionsOfFile(content: string): Sections {
    ConfRun(Init, ConfLines(FileLines(content))).sections
  }

  /** The effect of a line as the loop tests it. */
  lemma StepOfLine(st: ConfState, raw: string)
    ensures ConfStep(st, ClassifyConf(raw)) ==
      if IsComment(Trim(raw)) then st
      else if SectionHeader(Trim(raw)).Some? then
        var name := SectionHeader(Trim(raw)).value;
        ConfState(if name in st.sections then st.sections else st.sections[name := map[]], name)
      else if KeyValue(Trim(raw)).Some? && st.current != "" && st.current in st.sections then
        ConfState(st.sections[st.current := st.sections[st.current][KeyValue(Trim(raw)).value.0 := KeyValue(Trim(raw)).value.1]], st.current)
      else st
  {
  }

  /** `_parse_wg_conf`, over the file's contents. */
  method ParseWgConf(content: string) returns (sections: Sections)
    ensures sections == SectionsOfFile(content)
  {
    var lines := FileLines(content);
    sections := map[];
    var current := "";
    var i := 0;
    while i < |lines|
      invariant 0 <= i <= |lines|
      invariant ConfRun(Init, ConfLines(lines[..i])) == ConfState(sections, current)
    {
      var raw := lines[i];
      Seqs.MapPrefixStep(ClassifyConf, lines, i);
      ConfRunSnoc(Init, ConfLines(lines[..i]), ClassifyConf(raw));
      StepOfLine(ConfState(sections, current), raw);
      var line := Trim(raw);
      if !IsComment(line) {
        var header := SectionHeader(line);
        if header.Some? {
          current := header.value;
          if current !in sections {
            sections := sections[current := map[]];
          }
        } else {
          var m := KeyValue(line);
          if m.Some? && current != "" && current in sections {
            var (key, value) := m.value;
            sections := sections[current := sections[current][key := value]];
          }
        }
      }
      i := i + 1;
    }
    assert lines[..i] == lines;
  }

  // ---------------------------------------------------------------------------
  // properties of _parse_wg_conf

  /** What every reachable state satisfies: the current section exists, names
      are stripped, keys are words, values are stripped and non-empty. */
  predicate WellFormed(st: ConfState) {
    && (st.current != "" ==> st.current in st.sections)
    && (forall name :: name in st.sections ==> Stripped(name))
    && (forall name, k :: name in st.sections && k in st.sections[name] ==>
          IsWord(k) && st.sections[name][k] != "" && Stripped(st.sections[name][k]))
  }

  lemma StepWellFormed(st: ConfState, l: ConfLine)
    requires WellFormed(st) && ValidLine(l)
    ensures WellFormed(ConfStep(st, l))
  {
  }

  lemma {:induction false} RunWellFormed(ls: seq<ConfLine>)
    requires forall i :: 0 <= i < |ls| ==> ValidLine(ls[i])
    ensures WellFormed(ConfRun(Init, ls))
    decreases |ls|
  {
    if ls != [] {
      var init := ls[..|ls| - 1];
      forall i | 0 <= i < |init| ensures ValidLine(init[i]) {
        assert init[i] == ls[i];
      }
      RunWellFormed(init);
      StepWellFormed(ConfRun(Init, init), ls[|ls| - 1]);
    }
  }

  /** Only word keys are recorded, with stripped non-empty values, under
      stripped section names. */
  lemma SectionsWellFormed(content: string)
    ensures forall name :: name in SectionsOfFile(content) ==> Stripped(name)
    ensures forall name, k :: name in SectionsOfFile(content) && k in SectionsOfFile(content)[name] ==>
      IsWord(k) && SectionsOfFile(content)[name][k] != "" && Stripped(SectionsOfFile(content)[name][k])
  {
    var lines := FileLines(content);
    var ls := ConfLines(lines);
    forall i | 0 <= i < |ls| ensures ValidLine(ls[i]) {
      assert ls[i] == ClassifyConf(lines[i]);
    }
    RunWellFormed(ls);
  }

  /** The names of the header lines, duplicates collapsed. */
  function HeaderSet(ls: seq<ConfLine>): set<string>
    decreases |ls|
  {
    if ls == [] then {}
    else
      var last := ls[|ls| - 1];
      HeaderSet(ls[..|ls| - 1]) + (if last.Header? then {last.name} else {})
  }

  /** There is exactly one section per distinct header name: a repeated name
      reuses its section instead of adding another. */
  lemma {:induction false} SectionsAreHeaders(ls: seq<ConfLine>)
    ensures ConfRun(Init, ls).sections.Keys == HeaderSet(ls)
    decreases |ls|
  {
    if ls != [] {
      SectionsAreHeaders(ls[..|ls| - 1]);
    }
  }

  /** Without a header no pair is recorded: lines before the first header are
      ignored. */
  lemma {:induction false} PreambleIgnored(ls: seq<ConfLine>)
    requires forall i :: 0 <= i < |ls| ==> !ls[i].Header?
    ensures ConfRun(Init, ls) == Init
    decreases |ls|
  {
    if ls != [] {
      var init := ls[..|ls| - 1];
      forall i | 0 <= i < |init| ensures !init[i].Header? {
        assert init[i] == ls[i];
      }
      PreambleIgnored(init);
    }
  }

  /** Running over two blocks of lines is running over the first, then the second. */
  lemma {:induction false} ConfRunAppend(st: ConfState, xs: seq<ConfLine>, ys: seq<ConfLine>)
    ensures ConfRun(st, xs + ys) == ConfRun(ConfRun(st, xs), ys)
    decreases |ys|
  {
    if ys == [] {
      assert xs + ys == xs;
    } else {
      var init := ys[..|ys| - 1];
      var last := ys[|ys| - 1];
      assert ys == init + [last];
      assert xs + ys == (xs + init) + [last];
      ConfRunSnoc(st, xs + init, last);
      ConfRunAppend(st, xs, init);
      ConfRunSnoc(ConfRun(st, xs), init, last);
    }
  }

  /** Lines before the first header leave the parsed sections unchanged. */
  lemma PreambleDropped(pre: seq<string>, rest: seq<string>)
    requires forall i :: 0 <= i < |pre| ==> !ClassifyConf(pre[i]).Header?
    ensures ConfRun(Init, ConfLines(pre + rest)) == ConfRun(Init, ConfLines(rest))
  {
    var ps := ConfLines(pre);
    Seqs.MapAppend(ClassifyConf, pre, rest);
    forall i | 0 <= i < |ps| ensures !ps[i].Header? {
      assert ps[i] == ClassifyConf(pre[i]);
    }
    PreambleIgnored(ps);
    ConfRunAppend(Init, ps, ConfLines(rest));
  }

  /** A header whose name is already known selects it again without touching
      any pairs: repeated sections are merged. */
  lemma RepeatedHeaderMerges(st: ConfState, name: string)
    requires name in st.sections
    ensures ConfStep(st, Header(name)).sections == st.sections
    ensures ConfStep(st, Header(name)).current == name
  {
  }

  /** A pair inside a section is recorded there, replacing an earlier value of
      the same key, and leaves the other sections alone. */
  lemma PairRecorded(st: ConfState, k: string, v: string)
    requires st.current != "" && st.current in st.sections
    ensures var after := ConfStep(st, Pair(k, v));
      && after.current == st.current
      && after.sections[st.current] == st.sections[st.current][k := v]
      && after.sections.Keys == st.sections.Keys
      && k in after.sections[st.current] && after.sections[st.current][k] == v
      && (forall name :: name in st.sections && name != st.current ==> after.sections[name] == st.sections[name])
  {
  }

  // ---------------------------------------------------------------------------
  // _split_endpoint and _parse_ip_list

  /** `_split_endpoint`: the text before the last ':' and int() of the rest. */
  function SplitEndpoint(endpoint: string): (r: Result<(string, int)>)
    ensures r == Err(EmptyEndpoint) <==> endpoint == ""
    ensures r == Err(EndpointWithoutColon) <==> endpoint != "" && ':' !in endpoint
    ensures r.Ok? ==> ':' in endpoint
  {
    if endpoint == "" then Err(EmptyEndpoint)
    else if ':' !in endpoint then Err(EndpointWithoutColon)
    else
      var (host, portText) := RSplitOnce(endpoint, ':').value;
      match PyInt(portText)
      case None => Err(BadPort(portText))
      case Some(port) => Ok((host, port))
  }

  /** `host:port` splits back into the host (which may itself hold colons, as
      a bare IPv6 address does) and the port. */
  lemma SplitEndpointOf(host: string, port: nat)
    ensures SplitEndpoint(host + ":" + NatToDigits(port)) == Ok((host, port))
  {
    var d := NatToDigits(port);
    assert ':' !in d by {
      forall i | 0 <= i < |d| ensures d[i] != ':' { assert IsAsciiDigit(d[i]); }
    }
    var e := host + [':'] + d;
    assert host + ":" + d == e;
    assert e[|host|] == ':';
    RSplitOnceOf(host, d, ':');
    PyIntOfDigits(d);
  }

  /** A port int() rejects is an error naming it. */
  lemma SplitEndpointBadPort(host: string, portText: string)
    requires ':' !in portText && PyInt(portText).None?
    ensures SplitEndpoint(host + ":" + portText) == Err(BadPort(portText))
  {
    var e := host + [':'] + portText;
    assert host + ":" + portText == e;
    assert e[|host|] == ':';
    RSplitOnceOf(host, portText, ':');
  }

  /** `_parse_ip_list`: the stripped non-empty comma-separated items. */
  function ParseIpList(value: string): (items: seq<string>)
    ensures forall i :: 0 <= i < |items| ==> items[i] != "" && Trim(items[i]) == items[i]
  {
    NonEmptyStripped(Split(value, ','))
  }

  /** wg2throne's split_list_field and this function agree on every input. */
  lemma IpListAgrees(value: string)
    ensures ParseIpList(value) == Wg2Throne.SplitListField(value)
  {
    Wg2Throne.ListFieldOfSplit(value);
  }

  // ---------------------------------------------------------------------------
  // build_config_from_wg: the fields taken from the configuration

  /** `d.get(k, "")`. */
  function Get(d: map<string, string>, k: string): string {
    if k in d then d[k] else ""
  }

  function SectionOr(sections: Sections, name: string): map<string, string> {
    if name in sections then sections[name] else map[]
  }

  /** The template's input-dependent fields. */
  datatype Derived = Derived(
    dnsRuleDomain: seq<string>,   // dns.rules[0].domain
    dohAddress: string,           // dns.servers[0].address
    directAddress: string,        // dns.servers[1].address
    tunAddress: seq<string>,      // inbounds[1].inet4_address
    tunMtu: int,                  // inbounds[1].mtu
    localAddress: seq<string>,    // outbounds[0].local_address
    outboundMtu: int,             // outbounds[0].mtu
    peerPublicKey: string,        // outbounds[0].peer_public_key
    preSharedKey: string,         // outbounds[0].pre_shared_key
    privateKey: string,           // outbounds[0].private_key
    server: string,               // outbounds[0].server
    serverPort: int)              // outbounds[0].server_port

  const DefaultDns := "1.1.1.1"
  const DefaultTunMtu := 1500
  const DefaultOutboundMtu := 1320

  /** The first DNS server, or the default when there is none. */
  function PrimaryDns(dnsRaw: string): (r: string)
    ensures ParseIpList(dnsRaw) == [] ==> r == DefaultDns
    ensures ParseIpList(dnsRaw) != [] ==> r == ParseIpList(dnsRaw)[0]
  {
    var dnsList := if dnsRaw != "" then ParseIpList(dnsRaw) else [];
    Wg2Throne.ListFieldOfSplit("");
    if dnsList != [] then dnsList[0] else DefaultDns
  }

  /** `int(mtu) if str(mtu).isdigit() else default`. */
  function MtuOr(mtu: string, default: int): (r: int)
    ensures IsDigits(mtu) ==> r == DigitsValue(mtu) && r >= 0
    ensures !IsDigits(mtu) ==> r == default
  {
    if IsDigits(mtu) then DigitsValue(mtu) else default
  }

  /** `[x] if x else []`. */
  function Wrap(x: string): (r: seq<string>)
    ensures r == [] <==> x == ""
    ensures r != [] ==> r == [x]
  {
    if x != "" then [x] else []
  }

  /** The derived fields, or the error `_split_endpoint` raises. */
  function Derive(sections: Sections): (r: Result<Derived>)
    ensures var endpoint := Get(SectionOr(sections, "Peer"), "Endpoint");
      r.Err? <==> endpoint != "" && SplitEndpoint(endpoint).Err?
    ensures r.Ok? ==> r.value.dohAddress == "https://" + r.value.directAddress + "/dns-query"
    ensures r.Ok? ==> r.value.dnsRuleDomain == Wrap(r.value.server)
    ensures r.Ok? ==> r.value.tunAddress == r.value.localAddress && |r.value.tunAddress| <= 1
    ensures r.Ok? ==> r.value.preSharedKey == ""
    ensures r.Ok? && Get(SectionOr(sections, "Peer"), "Endpoint") == "" ==>
      r.value.server == "" && r.value.serverPort == 0
  {
    var interface := SectionOr(sections, "Interface");
    var peer := SectionOr(sections, "Peer");
    var endpoint := Get(peer, "Endpoint");
    var split := if endpoint != "" then SplitEndpoint(endpoint) else Ok(("", 0));
    match split
    case Err(e) => Err(e)
    case Ok((host, port)) =>
      var address := Get(interface, "Address");
      var mtu := Get(interface, "MTU");
      var primary := PrimaryDns(Get(interface, "DNS"));
      Ok(Derived(
        Wrap(host),
        "https://" + primary + "/dns-query",
        primary,
        Wrap(address),
        MtuOr(mtu, DefaultTunMtu),
        Wrap(address),
        MtuOr(mtu, DefaultOutboundMtu),
        Get(peer, "PublicKey"),
        "",
        Get(interface, "PrivateKey"),
        host,
        port))
  }

  /** The DNS server of the template is the first DNS entry, or 1.1.1.1. */
  lemma PrimaryDnsRule(sections: Sections)
    requires Derive(sections).Ok?
    ensures var dns := ParseIpList(Get(SectionOr(sections, "Interface"), "DNS"));
      Derive(sections).value.directAddress == if dns == [] then DefaultDns else dns[0]
  {
  }

  /** An all-digit MTU is used for both the tun inbound and the outbound. */
  lemma MtuRule(sections: Sections)
    requires Derive(sections).Ok?
    ensures var mtu := Get(SectionOr(sections, "Interface"), "MTU");
      && (IsDigits(mtu) ==> Derive(sections).value.tunMtu == Derive(sections).value.outboundMtu == DigitsValue(mtu))
      && (!IsDigits(mtu) ==> Derive(sections).value.tunMtu == 1500 && Derive(sections).value.outboundMtu == 1320)
  {
  }

  /** The keys and the address are copied from the sections named exactly
      "Interface" and "Peer"; the address is wrapped whole, not split. */
  lemma CopiedFields(sections: Sections)
    requires Derive(sections).Ok?
    ensures var interface := SectionOr(sections, "Interface");
      && Derive(sections).value.localAddress == Wrap(Get(interface, "Address"))
      && Derive(sections).value.privateKey == Get(interface, "PrivateKey")
      && Derive(sections).value.peerPublicKey == Get(SectionOr(sections, "Peer"), "PublicKey")
  {
  }

  /** The server and port are those of the Peer's `Endpoint`. */
  lemma ServerFromEndpoint(sections: Sections, host: string, port: nat)
    requires Get(SectionOr(sections, "Peer"), "Endpoint") == host + ":" + NatToDigits(port)
    ensures Derive(sections).Ok?
    ensures Derive(sections).value.server == host && Derive(sections).value.serverPort == port
    ensures Derive(sections).value.dnsRuleDomain == Wrap(host)
  {
    SplitEndpointOf(host, port);
  }

  /** What build_config_from_wg derives from a file's contents. */
  function ConfigOf(content: string): Result<Derived> {
    Derive(SectionsOfFile(content))
  }

  /** `build_config_from_wg`, over the file's contents. */
  method BuildConfigFromWg(content: string) returns (r: Result<Derived>)
    ensures r == ConfigOf(content)
  {
    var sections := ParseWgConf(content);
    r := Derive(sections);
  }
}
