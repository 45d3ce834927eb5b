/**
  print.py: fills a fixed set of WireGuard fields by searching the whole text
  for the first match of one pattern per key, whatever section it is in.
*/
module PrintParser {
  import opened Wrappers
  import opened PyStr
  import Seqs

  // ---------------------------------------------------------------------------
  // re.search of `Key\s*=\s*(.+)` and `Key\s*=\s*(\d+)` over the whole text

  /** The first index at or after `i` that is not whitespace, or `|text|`. */
  function SkipSpace(text: string, i: nat): (j: nat)
    requires i <= |text|
    ensures i <= j <= |text|
    ensures forall k :: i <= k < j ==> IsSpace(text[k])
    ensures j < |text| ==> !IsSpace(text[j])
    decreases |text| - i
  {
    if i == |text| || !IsSpace(text[i]) then i else SkipSpace(text, i + 1)
  }

  /** The first '\n' at or after `i`, or `|text|`: where `.+` stops. */
  function LineEnd(text: string, i: nat): (j: nat)
    requires i <= |text|
    ensures i <= j <= |text|
    ensures forall k :: i <= k < j ==> text[k] != '\n'
    ensures j < |text| ==> text[j] == '\n'
    decreases |text| - i
  {
    if i == |text| || text[i] == '\n' then i else LineEnd(text, i + 1)
  }

  /** The end of the run of ASCII digits starting at `i`. */
  function DigitsEnd(text: string, i: nat): (j: nat)
    requires i <= |text|
    ensures i <= j <= |text|
    ensures forall k :: i <= k < j ==> IsAsciiDigit(text[k])
    ensures j < |text| ==> !IsAsciiDigit(text[j])
    decreases |text| - i
  {
    if i == |text| || !IsAsciiDigit(text[i]) then i else DigitsEnd(text, i + 1)
  }

  /** The last index in [lo, hi) that is not '\n'. */
  function LastNonNewline(text: string, lo: nat, hi: nat): (r: Option<nat>)
    requires lo <= hi <= |text|
    ensures r.Some? ==> lo <= r.value < hi && text[r.value] != '\n'
    ensures r.Some? ==> forall k :: r.value < k < hi ==> text[k] == '\n'
    ensures r.None? ==> forall k :: lo <= k < hi ==> text[k] == '\n'
    decreases hi - lo
  {
    if hi == lo then None
    else if text[hi - 1] != '\n' then Some(hi - 1)
    else LastNonNewline(text, lo, hi - 1)
  }

  /** Where the value starts in a match of `key\s*=\s*` at `p`: the index
      after the '=' and the index after the whitespace that follows it. */
  function AfterEquals(text: string, p: nat, key: string): (r: Option<(nat, nat)>)
    ensures r.Some? ==> p + |key| < r.value.0 <= r.value.1 <= |text|
    ensures r.Some? ==> text[p..p + |key|] == key && text[r.value.0 - 1] == '='
    ensures r.Some? ==> forall k :: p + |key| <= k < r.value.0 - 1 ==> IsSpace(text[k])
    ensures r.Some? ==> forall k :: r.value.0 <= k < r.value.1 ==> IsSpace(text[k])
    ensures r.Some? && r.value.1 < |text| ==> !IsSpace(text[r.value.1])
  {
    if p + |key| <= |text| && text[p..p + |key|] == key then
      var q := SkipSpace(text, p + |key|);
      if q < |text| && text[q] == '=' then Some((q + 1, SkipSpace(text, q + 1))) else None
    else None
  }

  /** The group of `key\s*=\s*(.+)` matched at `p`.  `\s*` may run over line
      breaks; when only whitespace follows the '=', the greedy `\s*` gives
      back one character that is not '\n' for `.+` to match. */
  function MatchAt(text: string, p: nat, key: string): (g: Option<string>)
    ensures g.Some? ==> g.value != "" && '\n' !in g.value
    ensures g.Some? ==> AfterEquals(text, p, key).Some?
  {
    match AfterEquals(text, p, key)
    case None => None
    case Some((start, r)) =>
      if r < |text| then
        var e := LineEnd(text, r);
        assert text[r] != '\n';
        Some(text[r..e])
      else
        match LastNonNewline(text, start, r)
        case Some(s) => Some([text[s]])
        case None => None
  }

  /** The group of `key\s*=\s*(\d+)` matched at `p`: digits right after the
      whitespace (the whitespace cannot hold a digit, so no backtracking helps). */
  function DigitsMatchAt(text: string, p: nat, key: string): (g: Option<string>)
    ensures g.Some? ==> IsDigits(g.value)
    ensures g.Some? ==> AfterEquals(text, p, key).Some?
  {
    match AfterEquals(text, p, key)
    case None => None
    case Some((_, r)) =>
      if r < |text| && IsAsciiDigit(text[r]) then Some(text[r..DigitsEnd(text, r)]) else None
  }

  /** No position from `p` on starts a match of `key\s*=\s*(.+)`. */
  predicate NoMatchFrom(text: string, key: string, p: nat) {
    forall q :: p <= q <= |text| ==> MatchAt(text, q, key).None?
  }

  /** No position from `p` on starts a match of `key\s*=\s*(\d+)`. */
  predicate NoDigitsMatchFrom(text: string, key: string, p: nat) {
    forall q :: p <= q <= |text| ==> DigitsMatchAt(text, q, key).None?
  }

  /** `re.search`: the match at the first position where the pattern matches. */
  function SearchFrom(text: string, key: string, p: nat): (g: Option<string>)
    requires p <= |text|
    ensures g.None? <==> NoMatchFrom(text, key, p)
    decreases |text| - p
  {
    var m := MatchAt(text, p, key);
    if m.Some? || p == |text| then m else SearchFrom(text, key, p + 1)
  }

  function Search(text: string, key: string): (g: Option<string>)
    ensures g.None? <==> NoMatchFrom(text, key, 0)
  {
    SearchFrom(text, key, 0)
  }

  function DigitsSearchFrom(text: string, key: string, p: nat): (g: Option<string>)
    requires p <= |text|
    ensures g.None? <==> NoDigitsMatchFrom(text, key, p)
    ensures g.Some? ==> IsDigits(g.value)
    decreases |text| - p
  {
    var m := DigitsMatchAt(text, p, key);
    if m.Some? || p == |text| then m else DigitsSearchFrom(text, key, p + 1)
  }

  function DigitsSearch(text: string, key: string): (g: Option<string>)
    ensures g.None? <==> NoDigitsMatchFrom(text, key, 0)
    ensures g.Some? ==> IsDigits(g.value)
  {
    DigitsSearchFrom(text, key, 0)
  }

  /** The first position that matches decides the result, wherever it is. */
  lemma {:induction false} SearchFirst(text: string, key: string, p: nat, from: nat)
    requires from <= p <= |text|
    requires MatchAt(text, p, key).Some?
    requires forall q :: from <= q < p ==> MatchAt(text, q, key).None?
    ensures SearchFrom(text, key, from) == MatchAt(text, p, key)
    decreases p - from
  {
    if from < p {
      var m := MatchAt(text, from, key);
      assert m.None?;
      assert SearchFrom(text, key, from) == SearchFrom(text, key, from + 1);
      SearchFirst(text, key, p, from + 1);
    }
  }

  /** The first position that matches `key\s*=\s*(\d+)` decides the result. */
  lemma {:induction false} DigitsSearchFirst(text: string, key: string, p: nat, from: nat)
    requires from <= p <= |text|
    requires DigitsMatchAt(text, p, key).Some?
    requires forall q :: from <= q < p ==> DigitsMatchAt(text, q, key).None?
    ensures DigitsSearchFrom(text, key, from) == DigitsMatchAt(text, p, key)
    decreases p - from
  {
    var m := DigitsMatchAt(text, from, key);
    if from < p {
      assert m.None? && from < |text|;
      DigitsSearchFirst(text, key, p, from + 1);
      assert DigitsSearchFrom(text, key, from) == DigitsSearchFrom(text, key, from + 1);
      assert DigitsSearchFrom(text, key, from) == DigitsMatchAt(text, p, key);
    } else {
      assert m.Some?;
      assert DigitsSearchFrom(text, key, from) == m;
      assert DigitsSearchFrom(text, key, from) == DigitsMatchAt(text, p, key);
    }
  }

  /** A configuration line `key w1 = w2 value`, with its line break. */
  function FieldLine(key: string, w1: string, w2: string, value: string): (line: string)
    ensures |line| == |key| + |w1| + |w2| + |value| + 2
  {
    key + w1 + "=" + w2 + value + "\n"
  }

  /** Where `key`, whitespace, '=' and whitespace run from `p` to `d`, the
      match of `key\s*=\s*` at `p` ends at `d`. */
  lemma AfterEqualsIs(text: string, p: nat, key: string, b: nat, d: nat)
    requires p + |key| <= b < d < |text|
    requires text[p..p + |key|] == key && text[b] == '=' && !IsSpace(text[d])
    requires forall k :: p + |key| <= k < b ==> IsSpace(text[k])
    requires forall k :: b < k < d ==> IsSpace(text[k])
    ensures AfterEquals(text, p, key) == Some((b + 1, d))
  {
    SkipSpaceIs(text, p + |key|, b);
    SkipSpaceIs(text, b + 1, d);
  }

  /** Where the parts of `key w1 = w2 value` sit in the line. */
  lemma FieldLineLayout(key: string, w1: string, w2: string, value: string)
    ensures var line := FieldLine(key, w1, w2, value);
      var a := |key|;
      var b := a + |w1|;
      var d := b + 1 + |w2|;
      && line[..a] == key && line[b] == '=' && line[d..d + |value|] == value && line[d + |value|] == '\n'
      && (forall k :: a <= k < b ==> line[k] == w1[k - a])
      && (forall k :: b < k < d ==> line[k] == w2[k - b - 1])
  {
    var u := key + w1;
    var v := u + "=";
    var x := v + w2;
    var y := x + value;
    var line := FieldLine(key, w1, w2, value);
    assert line == y + "\n";
    assert line[..|y|] == y;
    assert y[..|x|] == x && y[|x|..] == value;
    assert x[..|v|] == v;
    assert v[..|u|] == u && v[|u|] == '=';
    assert u[..|key|] == key;
    assert line[..|key|] == key;
  }

  /** In a text holding the line `key w1 = w2 value` at `p`, a match of
      `key\s*=\s*` at `p` ends at `d`, right before `value`. */
  lemma AfterEqualsAtLine(text: string, p: nat, d: nat, key: string, w1: string, w2: string, value: string)
    requires AllSatisfy(w1, IsSpace) && AllSatisfy(w2, IsSpace)
    requires value != "" && !IsSpace(value[0])
    requires p + |FieldLine(key, w1, w2, value)| <= |text|
    requires text[p..p + |FieldLine(key, w1, w2, value)|] == FieldLine(key, w1, w2, value)
    requires d == p + |key| + |w1| + 1 + |w2|
    ensures d + |value| < |text| && text[d..d + |value|] == value && text[d + |value|] == '\n'
    ensures AfterEquals(text, p, key) == Some((d - |w2|, d))
  {
    var line := FieldLine(key, w1, w2, value);
    var a := |key|;
    var b := a + |w1|;
    var e := d - p;
    FieldLineLayout(key, w1, w2, value);
    var seg := text[p..p + |line|];
    forall k | 0 <= k < |line| ensures text[p + k] == line[k] {
      assert seg[k] == line[k];
    }
    assert text[p..p + a] == seg[..a];
    assert text[d..d + |value|] == seg[e..e + |value|];
    assert text[d] == line[e];
    forall k | p + a <= k < p + b ensures IsSpace(text[k]) {
      assert text[k] == line[k - p] == w1[k - p - a];
    }
    forall k | p + b < k < d ensures IsSpace(text[k]) {
      assert text[k] == line[k - p] == w2[k - p - b - 1];
    }
    assert text[p + b] == line[b];
    AfterEqualsIs(text, p, key, p + b, d);
    assert text[d + |value|] == line[e + |value|];
  }

  /** The match at the line `key w1 = w2 value` gives `value`: the rest of the
      line after the '=' and the whitespace following it. */
  lemma FieldMatch(pre: string, key: string, w1: string, w2: string, value: string, rest: string)
    requires AllSatisfy(w1, IsSpace) && AllSatisfy(w2, IsSpace)
    requires value != "" && !IsSpace(value[0]) && '\n' !in value
    ensures MatchAt(pre + FieldLine(key, w1, w2, value) + rest, |pre|, key) == Some(value)
  {
    var line := FieldLine(key, w1, w2, value);
    var text := pre + line + rest;
    var d := |pre| + |key| + |w1| + 1 + |w2|;
    var e := d + |value|;
    assert text[|pre|..|pre| + |line|] == line;
    AfterEqualsAtLine(text, |pre|, d, key, w1, w2, value);
    forall k | d <= k < e ensures text[k] != '\n' {
      assert text[k] == text[d..e][k - d];
    }
    LineEndIs(text, d, e);
  }

  /** The first line that matches gives the field's value, wherever it is in
      the text: after a prefix where no match starts, `key w1 = w2 value`
      gives `value`. */
  lemma FieldAt(pre: string, key: string, w1: string, w2: string, value: string, rest: string)
    requires AllSatisfy(w1, IsSpace) && AllSatisfy(w2, IsSpace)
    requires value != "" && !IsSpace(value[0]) && '\n' !in value
    requires forall q :: 0 <= q < |pre| ==> MatchAt(pre + FieldLine(key, w1, w2, value) + rest, q, key).None?
    ensures Search(pre + FieldLine(key, w1, w2, value) + rest, key) == Some(value)
  {
    FieldMatch(pre, key, w1, w2, value, rest);
    SearchFirst(pre + FieldLine(key, w1, w2, value) + rest, key, |pre|, 0);
  }

  /** The digits of the line `key w1 = w2 digits` are the match there. */
  lemma DigitsFieldMatch(pre: string, key: string, w1: string, w2: string, digits: string, rest: string)
    requires AllSatisfy(w1, IsSpace) && AllSatisfy(w2, IsSpace)
    requires IsDigits(digits)
    ensures DigitsMatchAt(pre + FieldLine(key, w1, w2, digits) + rest, |pre|, key) == Some(digits)
  {
    var line := FieldLine(key, w1, w2, digits);
    var text := pre + line + rest;
    var d := |pre| + |key| + |w1| + 1 + |w2|;
    var e := d + |digits|;
    assert text[|pre|..|pre| + |line|] == line;
    AfterEqualsAtLine(text, |pre|, d, key, w1, w2, digits);
    forall k | d <= k < e ensures IsAsciiDigit(text[k]) {
      assert text[k] == text[d..e][k - d];
    }
    DigitsEndIs(text, d, e);
  }

  /** The first `key = digits` line gives the digits, wherever it is. */
  lemma DigitsFieldAt(pre: string, key: string, w1: string, w2: string, digits: string, rest: string)
    requires AllSatisfy(w1, IsSpace) && AllSatisfy(w2, IsSpace)
    requires IsDigits(digits)
    requires forall q :: 0 <= q < |pre| ==> DigitsMatchAt(pre + FieldLine(key, w1, w2, digits) + rest, q, key).None?
    ensures DigitsSearch(pre + FieldLine(key, w1, w2, digits) + rest, key) == Some(digits)
  {
    DigitsFieldMatch(pre, key, w1, w2, digits, rest);
    DigitsSearchFirst(pre + FieldLine(key, w1, w2, digits) + rest, key, |pre|, 0);
  }

  lemma {:induction false} SkipSpaceIs(text: string, i: nat, e: nat)
    requires i <= e < |text| && !IsSpace(text[e])
    requires forall k :: i <= k < e ==> IsSpace(text[k])
    ensures SkipSpace(text, i) == e
    decreases e - i
  {
    if i < e {
      SkipSpaceIs(text, i + 1, e);
    }
  }

  lemma {:induction false} DigitsEndIs(text: string, i: nat, e: nat)
    requires i <= e < |text| && !IsAsciiDigit(text[e])
    requires forall k :: i <= k < e ==> IsAsciiDigit(text[k])
    ensures DigitsEnd(text, i) == e
    decreases e - i
  {
    if i < e {
      DigitsEndIs(text, i + 1, e);
    }
  }

  /** A key that does not occur in the text is not found. */
  lemma AbsentKey(text: string, key: string)
    requires forall q :: !OccursAt(text, key, q)
    ensures Search(text, key).None?
    ensures DigitsSearch(text, key).None?
  {
    forall q | 0 <= q <= |text| ensures MatchAt(text, q, key).None? && DigitsMatchAt(text, q, key).None? {
      assert !OccursAt(text, key, q);
    }
  }

  predicate OccursAt(text: string, key: string, q: nat) {
    q + |key| <= |text| && text[q..q + |key|] == key
  }

  lemma {:induction false} LineEndIs(text: string, i: nat, e: nat)
    requires i <= e < |text| && text[e] == '\n'
    requires forall k :: i <= k < e ==> text[k] != '\n'
    ensures LineEnd(text, i) == e
    decreases e - i
  {
    if i < e {
      LineEndIs(text, i + 1, e);
    }
  }

  // ---------------------------------------------------------------------------
  // parse_wg_config

  /** The dictionary parse_wg_config returns (`type` is `kind`). */
  datatype WgData = WgData(
    kind: string,
    server: string,
    serverPort: int,
    privateKey: string,
    publicKey: string,
    address: seq<string>,
    dns: seq<string>,
    mtu: Option<int>,
    allowedIps: seq<string>)

  const Defaults := WgData("wireguard", "", 0, "", "", [], [], None, [])

  /** `[a.strip() for a in g.split(",")]`: every item stripped, empty ones kept. */
  function StripItems(g: string): (items: seq<string>)
    ensures |items| == |Split(g, ',')| == Count(g, ',') + 1
    ensures forall i :: 0 <= i < |items| ==> items[i] == Trim(Split(g, ',')[i])
  {
    var parts := Split(g, ',');
    SplitCount(g, ',');
    seq(|parts|, i requires 0 <= i < |parts| => Trim(parts[i]))
  }

  /** A list written back with ',' between stripped items reads back as the
      same items. */
  lemma StripItemsJoin(items: seq<string>)
    requires |items| >= 1
    requires forall i :: 0 <= i < |items| ==> ',' !in items[i] && Trim(items[i]) == items[i]
    ensures StripItems(Join(items, ',')) == items
  {
    SplitJoin(items, ',');
  }

  /** The endpoint group split at its last ':', host and port stripped, the
      port read by int(); the error Python raises otherwise. */
  function EndpointOf(g: string): (r: Result<(string, int)>)
    ensures r == Err(EndpointWithoutColon) <==> ':' !in g
    ensures r.Ok? ==> Trim(r.value.0) == r.value.0
  {
    match RSplitOnce(g, ':')
    case None => Err(EndpointWithoutColon)
    case Some((host, port)) =>
      TrimIdempotent(host);
      match PyInt(Trim(port))
      case None => Err(BadPort(Trim(port)))
      case Some(n) => Ok((Trim(host), n))
  }

  /** `host:port` reads back as the stripped host and the port, whatever colons
      the host holds. */
  lemma EndpointOfHostPort(host: string, port: nat)
    ensures EndpointOf(host + ":" + NatToDigits(port)) == Ok((Trim(host), port))
  {
    var d := NatToDigits(port);
    assert ':' !in d by {
      forall i | 0 <= i < |d| ensures d[i] != ':' { assert IsAsciiDigit(d[i]); }
    }
    assert host + ":" + d == host + [':'] + d;
    RSplitOnceOf(host, d, ':');
    TrimOfTrimmed(d);
    PyIntOfDigits(d);
  }

  /** A port `int()` rejects after the last ':' is the error naming it. */
  lemma EndpointOfBadPort(host: string, port: string)
    requires ':' !in port && PyInt(Trim(port)).None?
    ensures EndpointOf(host + ":" + port) == Err(BadPort(Trim(port)))
  {
    assert host + ":" + port == host + [':'] + port;
    RSplitOnceOf(host, port, ':');
  }

  /** The value a field gets: the stripped group when its key is found, the
      default otherwise. */
  function StrippedOr(g: Option<string>, default: string): string {
    match g
    case Some(v) => Trim(v)
    case None => default
  }

  function ItemsOr(g: Option<string>, default: seq<string>): seq<string> {
    match g
    case Some(v) => StripItems(v)
    case None => default
  }

  /** The mtu field: the digits of the group as a number. */
  function MtuOr(g: Option<string>, default: Option<int>): Option<int>
    requires g.Some? ==> IsDigits(g.value)
  {
    match g
    case Some(d) => Some(DigitsValue(d))
    case None => default
  }

  /** The server field when the endpoint group parses. */
  function ServerOr(g: Option<string>, default: string): string {
    match g
    case Some(v) => if EndpointOf(v).Ok? then EndpointOf(v).value.0 else default
    case None => default
  }

  /** The server_port field when the endpoint group parses. */
  function PortOr(g: Option<string>, default: int): int {
    match g
    case Some(v) => if EndpointOf(v).Ok? then EndpointOf(v).value.1 else default
    case None => default
  }

  /** The endpoint step of parse_wg_config: unpack `rsplit(":", 1)` into host
      and port, store the stripped host, then the port read by int(). */
  method SetEndpoint(data: WgData, g: string) returns (r: Result<WgData>)
    ensures r.Err? <==> EndpointOf(g).Err?
    ensures r.Err? ==> r.error == EndpointOf(g).error
    ensures r.Ok? ==> r.value == data.(server := EndpointOf(g).value.0, serverPort := EndpointOf(g).value.1)
  {
    var parts := RSplitOnce(g, ':');
    if parts.None? {
      return Err(EndpointWithoutColon);
    }
    var (host, port) := parts.value;
    var d := data.(server := Trim(host));
    var portValue := PyInt(Trim(port));
    if portValue.None? {
      return Err(BadPort(Trim(port)));
    }
    d := d.(serverPort := portValue.value);
    return Ok(d);
  }

  /** The `[Interface]` half of parse_wg_config: four searches, then each
      field found overwrites its default. */
  method SetInterfaceFields(data: WgData, text: string) returns (d: WgData)
    ensures d == data.(
      privateKey := StrippedOr(Search(text, "PrivateKey"), data.privateKey),
      address := ItemsOr(Search(text, "Address"), data.address),
      dns := ItemsOr(Search(text, "DNS"), data.dns),
      mtu := MtuOr(DigitsSearch(text, "MTU"), data.mtu))
  {
    d := data;

    var priv := Search(text, "PrivateKey");
    var addr := Search(text, "Address");
    var dns := Search(text, "DNS");
    var mtu := DigitsSearch(text, "MTU");

    if priv.Some? {
      d := d.(privateKey := Trim(priv.value));
    }
    if addr.Some? {
      d := d.(address := StripItems(addr.value));
    }
    if dns.Some? {
      d := d.(dns := StripItems(dns.value));
    }
    if mtu.Some? {
      PyIntOfDigits(mtu.value);
      d := d.(mtu := PyInt(mtu.value));
    }
  }

  /** The `[Peer]` half of parse_wg_config: three searches, then each field
      found overwrites its default; a malformed endpoint is an error. */
  method SetPeerFields(data: WgData, text: string) returns (r: Result<WgData>)
    ensures var e := Search(text, "Endpoint");
      r.Err? <==> e.Some? && EndpointOf(e.value).Err?
    ensures r.Err? ==> r.error == EndpointOf(Search(text, "Endpoint").value).error
    ensures r.Ok? ==> r.value == data.(
      publicKey := StrippedOr(Search(text, "PublicKey"), data.publicKey),
      allowedIps := ItemsOr(Search(text, "AllowedIPs"), data.allowedIps),
      server := ServerOr(Search(text, "Endpoint"), data.server),
      serverPort := PortOr(Search(text, "Endpoint"), data.serverPort))
  {
    var d := data;

    var pub := Search(text, "PublicKey");
    var allowed := Search(text, "AllowedIPs");
    var endpoint := Search(text, "Endpoint");

    if pub.Some? {
      d := d.(publicKey := Trim(pub.value));
    }
    if allowed.Some? {
      d := d.(allowedIps := StripItems(allowed.value));
    }
    if endpoint.Some? {
      r := SetEndpoint(d, endpoint.value);
      return;
    }
    return Ok(d);
  }

  /** `parse_wg_config`: the defaults, then the interface fields, then the
      peer fields. */
  method ParseWgConfig(text: string) returns (r: Result<WgData>)
    ensures var e := Search(text, "Endpoint");
      r.Err? <==> e.Some? && EndpointOf(e.value).Err?
    ensures r.Err? ==> r.error == EndpointOf(Search(text, "Endpoint").value).error
    ensures r.Ok? ==> r.value.kind == "wireguard"
    ensures r.Ok? ==> r.value.privateKey == StrippedOr(Search(text, "PrivateKey"), "")
    ensures r.Ok? ==> r.value.publicKey == StrippedOr(Search(text, "PublicKey"), "")
    ensures r.Ok? ==> r.value.address == ItemsOr(Search(text, "Address"), [])
    ensures r.Ok? ==> r.value.dns == ItemsOr(Search(text, "DNS"), [])
    ensures r.Ok? ==> r.value.allowedIps == ItemsOr(Search(text, "AllowedIPs"), [])
    ensures r.Ok? ==> r.value.mtu == MtuOr(DigitsSearch(text, "MTU"), None)
    ensures r.Ok? ==> r.value.server == ServerOr(Search(text, "Endpoint"), "")
    ensures r.Ok? ==> r.value.serverPort == PortOr(Search(text, "Endpoint"), 0)
  {
    var data := SetInterfaceFields(Defaults, text);
    r := SetPeerFields(data, text);
  }
}
