/**
  wg2throne.py: reads WireGuard configuration text into sections and builds the
  sing-box "endpoint" and "outbound" objects Throne imports, with the raw text
  and its Base 64 form alongside.
*/
module Wg2Throne {
  import opened Wrappers
  import opened PyStr
  import Base64
  import Utf8
  import Seqs

  /** One `[Name]` block: the text between the brackets and its key/value pairs. */
  datatype Section = Section(name: string, kv: map<string, string>)

  // ---------------------------------------------------------------------------
  // line classification (split_sections)

  /** Blank lines and lines whose stripped form starts with '#' or ';'. */
  predicate IsSkipped(ln: string) {
    var t := Trim(ln);
    t == "" || t[0] == '#' || t[0] == ';'
  }

  /** The pattern `^\s*\[(.+?)\]\s*$`: after surrounding whitespace the line is a
      bracketed non-empty name, taken as written (not stripped). */
  function HeaderName(ln: string): (r: Option<string>)
    ensures r.Some? ==> r.value != "" && !IsSkipped(ln)
  {
    Bracketed(Trim(ln))
  }

  /** The name inside a stripped line of the form `[name]`. */
  function Bracketed(t: string): (r: Option<string>)
    ensures r.Some? ==> r.value != "" && |t| == |r.value| + 2
  {
    if |t| >= 3 && t[0] == '[' && t[|t| - 1] == ']' then Some(t[1..|t| - 1]) else None
  }

  /** A stripped line that is a bracketed name is exactly `[` name `]`. */
  lemma BracketedShape(t: string)
    requires Bracketed(t).Some?
    ensures t == "[" + Bracketed(t).value + "]"
  {
    assert t == [t[0]] + t[1..|t| - 1] + [t[|t| - 1]];
  }

  /** A header line is recognised whatever whitespace surrounds it, and the
      name keeps its own inner spacing. */
  lemma HeaderLine(w1: string, b: string, w2: string)
    requires AllSatisfy(w1, IsSpace) && AllSatisfy(w2, IsSpace)
    requires |b| >= 3 && b[0] == '[' && b[|b| - 1] == ']'
    ensures HeaderName(w1 + b + w2) == Some(b[1..|b| - 1])
  {
    TrimSurrounded(w1, b, w2);
  }

  /** The pattern `^([^=]+?)\s*=\s*(.+)$`: the line splits at its first '=',
      which needs at least one character on each side; key and value are
      stripped. */
  function Assignment(ln: string): (r: Option<(string, string)>)
    ensures '=' !in ln ==> r.None?
    ensures r.Some? ==> '=' !in r.value.0 && Trim(r.value.0) == r.value.0 && Trim(r.value.1) == r.value.1
  {
    match IndexOf(ln, '=')
    case None => None
    case Some(k) =>
      if 1 <= k && k + 1 < |ln| then
        TrimIsInfix(ln[..k]);
        TrimIdempotent(ln[..k]);
        TrimIdempotent(ln[k + 1..]);
        Some((Trim(ln[..k]), Trim(ln[k + 1..])))
      else None
  }

  /** `key = value` with a key free of '=' yields the stripped key and value. */
  lemma AssignmentLine(key: string, value: string)
    requires key != "" && value != ""
    requires '=' !in key
    ensures Assignment(key + "=" + value) == Some((Trim(key), Trim(value)))
  {
    IndexOfAfterPrefix(key, value, '=');
    var ln := key + "=" + value;
    assert ln == key + ['='] + value;
    assert ln[..|key|] == key && ln[|key| + 1..] == value;
  }

  // ---------------------------------------------------------------------------
  // the section state machine

  /** What a line is to split_sections, tested in the order the loop tests it. */
  datatype LineKind = Skipped | Header(name: string) | Assign(key: string, value: string) | Ignored

  function Classify(ln: string): (r: LineKind)
    ensures r.Skipped? <==> IsSkipped(ln)
    ensures r.Header? <==> IsHeader(ln)
    ensures r.Header? ==> r.name == HeaderName(ln).value && Trim(ln) == "[" + r.name + "]"
    ensures r.Assign? ==> !IsSkipped(ln) && !IsHeader(ln) && Assignment(ln) == Some((r.key, r.value))
    ensures r.Assign? ==> '=' in ln && '=' !in r.key
  {
    if IsSkipped(ln) then Skipped
    else match HeaderName(ln)
      case Some(n) => BracketedShape(Trim(ln)); Header(n)
      case None =>
        match Assignment(ln)
        case Some((k, v)) => Assign(k, v)
        case None => Ignored
  }

  predicate IsHeader(ln: string) {
    !IsSkipped(ln) && HeaderName(ln).Some?
  }

  function Kinds(lines: seq<string>): seq<LineKind> {
    Seqs.Map(Classify, lines)
  }

  /** The loop state of split_sections: the closed sections and the open one. */
  datatype SplitState = SplitState(done: seq<Section>, cur: Option<Section>)

  const Init := SplitState([], None)

  /** The effect of one line: a header closes the open section and opens an
      empty one; an assignment inside a section overwrites its key. */
  function Step(st: SplitState, k: LineKind): SplitState {
    match k
    case Header(n) => SplitState(Close(st), Some(Section(n, map[])))
    case Assign(key, v) =>
      (match st.cur
       case None => st
       case Some(sec) => SplitState(st.done, Some(Section(sec.name, sec.kv[key := v]))))
    case _ => st
  }

  /** The sections once the open one is appended. */
  function Close(st: SplitState): seq<Section> {
    match st.cur
    case None => st.done
    case Some(sec) => st.done + [sec]
  }

  function Run(st: SplitState, ks: seq<LineKind>): SplitState
    decreases |ks|
  {
    if ks == [] then st else Step(Run(st, ks[..|ks| - 1]), ks[|ks| - 1])
  }

  lemma RunSnoc(st: SplitState, ks: seq<LineKind>, k: LineKind)
    ensures Run(st, ks + [k]) == Step(Run(st, ks), k)
  {
    Seqs.InitOfSnoc(ks, k);
  }

  /** The sections split_sections returns for the given lines. */
  function SectionsOf(lines: seq<string>): seq<Section> {
    Close(Run(Init, Kinds(lines)))
  }

  /** The effect of a line as split_sections tests it. */
  lemma StepOfLine(st: SplitState, ln: string)
    ensures Step(st, Classify(ln)) ==
      if IsSkipped(ln) then st
      else if HeaderName(ln).Some? then SplitState(Close(st), Some(Section(HeaderName(ln).value, map[])))
      else if st.cur.None? || Assignment(ln).None? then st
      else SplitState(st.done, Some(Section(st.cur.value.name, st.cur.value.kv[Assignment(ln).value.0 := Assignment(ln).value.1])))
  {
  }

  /** `split_sections`. */
  method SplitSections(text: string) returns (sections: seq<Section>)
    ensures sections == SectionsOf(SplitLines(text))
  {
    var lines := SplitLines(text);
    sections := [];
    var cur: Option<Section> := None;
    var i := 0;
    while i < |lines|
      invariant 0 <= i <= |lines|
      invariant Run(Init, Kinds(lines[..i])) == SplitState(sections, cur)
    {
      var ln := lines[i];
      Seqs.MapPrefixStep(Classify, lines, i);
      RunSnoc(Init, Kinds(lines[..i]), Classify(ln));
      StepOfLine(SplitState(sections, cur), ln);
      if !IsSkipped(ln) {
        var m := HeaderName(ln);
        if m.Some? {
          if cur.Some? {
            sections := sections + [cur.value];
          }
          cur := Some(Section(m.value, map[]));
        } else if cur.Some? {
          var m2 := Assignment(ln);
          if m2.Some? {
            var (k, v) := m2.value;
            cur := Some(Section(cur.value.name, cur.value.kv[k := v]));
          }
        }
      }
      i := i + 1;
    }
    assert lines[..i] == lines;
    if cur.Some? {
      sections := sections + [cur.value];
    }
  }

  // ---------------------------------------------------------------------------
  // properties of split_sections

  lemma {:induction false} RunAppend(st: SplitState, xs: seq<LineKind>, ys: seq<LineKind>)
    ensures Run(st, xs + ys) == Run(Run(st, xs), ys)
    decreases |ys|
  {
    if ys == [] {
      assert xs + ys == xs;
    } else {
      var init, y := ys[..|ys| - 1], ys[|ys| - 1];
      Seqs.Snoc(ys);
      Seqs.AppendAssoc(xs, init, [y]);
      RunAppend(st, xs, init);
      RunSnoc(st, xs + init, y);
      RunSnoc(Run(st, xs), init, y);
    }
  }

  lemma KindsOf3(xs: seq<string>, ln: string, ys: seq<string>)
    ensures Kinds(xs + [ln] + ys) == Kinds(xs) + [Classify(ln)] + Kinds(ys)
  {
    Seqs.MapAppend(Classify, xs + [ln], ys);
    Seqs.MapAppend(Classify, xs, [ln]);
  }

  /** A blank or comment line can be removed without changing the sections. */
  lemma SkippedLineIgnored(xs: seq<string>, ln: string, ys: seq<string>)
    requires IsSkipped(ln)
    ensures SectionsOf(xs + [ln] + ys) == SectionsOf(xs + ys)
  {
    KindsOf3(xs, ln, ys);
    Seqs.MapAppend(Classify, xs, ys);
    var a, b := Kinds(xs), Kinds(ys);
    RunAppend(Init, a + [Skipped], b);
    RunSnoc(Init, a, Skipped);
    RunAppend(Init, a, b);
  }

  /** Without a header the state never leaves its initial value. */
  lemma {:induction false} NoHeaderNoSection(ks: seq<LineKind>)
    requires forall i :: 0 <= i < |ks| ==> !ks[i].Header?
    ensures Run(Init, ks) == Init
    decreases |ks|
  {
    if ks != [] {
      NoHeaderNoSection(ks[..|ks| - 1]);
    }
  }

  /** Lines before the first header are dropped. */
  lemma PreambleDropped(pre: seq<string>, rest: seq<string>)
    requires forall i :: 0 <= i < |pre| ==> !IsHeader(pre[i])
    ensures SectionsOf(pre + rest) == SectionsOf(rest)
  {
    Seqs.MapAppend(Classify, pre, rest);
    NoHeaderNoSection(Kinds(pre));
    RunAppend(Init, Kinds(pre), Kinds(rest));
  }

  /** The names of the header lines, in order. */
  function HeaderNames(ks: seq<LineKind>): seq<string>
    decreases |ks|
  {
    if ks == [] then []
    else
      var last := ks[|ks| - 1];
      HeaderNames(ks[..|ks| - 1]) + (if last.Header? then [last.name] else [])
  }

  function Names(secs: seq<Section>): seq<string>
    decreases |secs|
  {
    if secs == [] then [] else Names(secs[..|secs| - 1]) + [secs[|secs| - 1].name]
  }

  lemma NamesAppend(secs: seq<Section>, s: Section)
    ensures Names(secs + [s]) == Names(secs) + [s.name]
  {
    Seqs.InitOfSnoc(secs, s);
  }

  lemma {:induction false} RunNames(ks: seq<LineKind>)
    ensures Names(Close(Run(Init, ks))) == HeaderNames(ks)
    decreases |ks|
  {
    if ks != [] {
      var init, k := ks[..|ks| - 1], ks[|ks| - 1];
      RunNames(init);
      StepNames(Run(Init, init), k);
    }
  }

  lemma StepNames(st: SplitState, k: LineKind)
    ensures Names(Close(Step(st, k))) == Names(Close(st)) + (if k.Header? then [k.name] else [])
  {
    match k
    case Header(n) =>
      NamesAppend(Close(st), Section(n, map[]));
    case Assign(key, v) =>
      if st.cur.Some? {
        NamesAppend(st.done, st.cur.value);
        NamesAppend(st.done, Section(st.cur.value.name, st.cur.value.kv[key := v]));
      }
    case _ =>
  }

  /** One section per header line, in order, named as the header says; equal
      names are not merged. */
  lemma SectionNames(lines: seq<string>)
    ensures Names(SectionsOf(lines)) == HeaderNames(Kinds(lines))
  {
    RunNames(Kinds(lines));
  }

  /** The pairs the lines of one section's body leave behind. */
  function BodyMap(kv: map<string, string>, body: seq<LineKind>): map<string, string>
    decreases |body|
  {
    if body == [] then kv
    else
      var m := BodyMap(kv, body[..|body| - 1]);
      match body[|body| - 1]
      case Assign(k, v) => m[k := v]
      case _ => m
  }

  /** A header opens a new section whose pairs are those of the lines up to the
      next header. */
  lemma {:induction false} BodyOfSection(st: SplitState, n: string, kv: map<string, string>, body: seq<LineKind>)
    requires st.cur == Some(Section(n, kv))
    requires forall i :: 0 <= i < |body| ==> !body[i].Header?
    ensures Run(st, body) == SplitState(st.done, Some(Section(n, BodyMap(kv, body))))
    decreases |body|
  {
    if body != [] {
      BodyOfSection(st, n, kv, body[..|body| - 1]);
    }
  }

  lemma SectionOfHeader(pre: seq<string>, header: string, body: seq<string>)
    requires IsHeader(header)
    requires forall i :: 0 <= i < |body| ==> !IsHeader(body[i])
    ensures SectionsOf(pre + [header] + body) ==
      SectionsOf(pre) + [Section(HeaderName(header).value, BodyMap(map[], Kinds(body)))]
  {
    KindsOf3(pre, header, body);
    var a, h, b := Kinds(pre), Classify(header), Kinds(body);
    RunAppend(Init, a + [h], b);
    RunSnoc(Init, a, h);
    BodyOfSection(Run(Init, a + [h]), h.name, map[], b);
  }

  lemma BodyMapSnoc(kv: map<string, string>, body: seq<LineKind>, k: LineKind)
    ensures BodyMap(kv, body + [k]) == if k.Assign? then BodyMap(kv, body)[k.key := k.value] else BodyMap(kv, body)
  {
    Seqs.InitOfSnoc(body, k);
  }

  lemma {:induction false} BodyMapAppend(kv: map<string, string>, xs: seq<LineKind>, ys: seq<LineKind>)
    ensures BodyMap(kv, xs + ys) == BodyMap(BodyMap(kv, xs), ys)
    decreases |ys|
  {
    if ys == [] {
      assert xs + ys == xs;
    } else {
      var init, y := ys[..|ys| - 1], ys[|ys| - 1];
      Seqs.Snoc(ys);
      Seqs.AppendAssoc(xs, init, [y]);
      BodyMapAppend(kv, xs, init);
      BodyMapSnoc(kv, xs + init, y);
      BodyMapSnoc(BodyMap(kv, xs), init, y);
    }
  }

  /** Lines that do not assign a key leave its value alone. */
  lemma {:induction false} UnassignedKept(kv: map<string, string>, rest: seq<LineKind>, k: string)
    requires k in kv
    requires forall i :: 0 <= i < |rest| ==> !(rest[i].Assign? && rest[i].key == k)
    ensures k in BodyMap(kv, rest) && BodyMap(kv, rest)[k] == kv[k]
    decreases |rest|
  {
    if rest != [] {
      var init := rest[..|rest| - 1];
      forall i | 0 <= i < |init| ensures !(init[i].Assign? && init[i].key == k) {
        assert init[i] == rest[i];
      }
      UnassignedKept(kv, init, k);
    }
  }

  /** Within a section the last line that assigns a key decides its value. */
  lemma LastAssignmentWins(kv: map<string, string>, body: seq<LineKind>,
                           k: string, v: string, rest: seq<LineKind>)
    requires forall i :: 0 <= i < |rest| ==> !(rest[i].Assign? && rest[i].key == k)
    ensures k in BodyMap(kv, body + [Assign(k, v)] + rest)
    ensures BodyMap(kv, body + [Assign(k, v)] + rest)[k] == v
  {
    var pre := body + [Assign(k, v)];
    BodyMapAppend(kv, pre, rest);
    BodyMapSnoc(kv, body, Assign(k, v));
    UnassignedKept(BodyMap(kv, pre), rest, k);
  }

  // ---------------------------------------------------------------------------
  // parse_endpoint

  /** The pattern `^\[([^\]]+)\]:(\d+)$` on the stripped value: '[', a
      non-empty host up to the first ']', then ':' and decimal digits. */
  function BracketForm(t: string): (r: Option<(string, nat)>)
    ensures r.Some? ==> r.value.0 != "" && ']' !in r.value.0 && ':' in t && t[0] == '['
  {
    if |t| > 0 && t[0] == '[' then
      match IndexOf(t, ']')
      case Some(j) =>
        if 2 <= j && j + 1 < |t| && t[j + 1] == ':' && IsDigits(t[j + 2..]) then
          assert t[1..j] == t[..j][1..];
          Some((t[1..j], DigitsValue(t[j + 2..])))
        else None
      case None => None
    else None
  }

  /** `parse_endpoint`: host and port of an `Endpoint` value; None where Python
      returns None. */
  function ParseEndpoint(e: string): (r: (Option<string>, Option<int>))
    ensures r.0.None? <==> e == ""
    ensures r.1.Some? ==> ':' in Trim(e)
  {
    if e == "" then (None, None)
    else
      var t := Trim(e);
      match BracketForm(t)
      case Some((h, p)) => (Some(h), Some(p))
      case None =>
        if Count(t, ':') == 1 then
          var (h, p) := RSplitOnce(t, ':').value;
          assert h + [':'] + p == t;
          (Some(h), PyInt(p))
        else (Some(t), None)
  }

  /** `[host]:port` yields the host without its brackets and the port. */
  lemma EndpointBracketed(h: string, n: nat)
    requires h != "" && ']' !in h
    ensures ParseEndpoint("[" + h + "]:" + NatToDigits(n)) == (Some(h), Some(n))
  {
    var d := NatToDigits(n);
    var e := "[" + h + "]:" + d;
    TrimOfTrimmed(e);
    BracketFormOf(h, d);
  }

  lemma BracketFormOf(h: string, d: string)
    requires h != "" && ']' !in h && IsDigits(d)
    ensures BracketForm("[" + h + "]:" + d) == Some((h, DigitsValue(d)))
  {
    var e := "[" + h + "]:" + d;
    IndexOfAfterPrefix("[" + h, ":" + d, ']');
    assert e == ("[" + h) + [']'] + (":" + d);
    var j := |h| + 1;
    assert e[1..j] == h;
    assert e[j + 2..] == d;
  }

  /** `host:port` with a single colon: the host as written and int() of the
      port, None when that is not an integer. */
  lemma EndpointHostPort(h: string, p: string)
    requires ':' !in h && ':' !in p
    requires h != "" ==> !IsSpace(h[0]) && h[0] != '['
    requires p != "" && !IsSpace(p[|p| - 1])
    ensures ParseEndpoint(h + ":" + p) == (Some(h), PyInt(p))
  {
    var e := h + [':'] + p;
    assert e == h + ":" + p;
    assert e[0] == if h == "" then ':' else h[0];
    assert e[|e| - 1] == p[|p| - 1];
    TrimOfTrimmed(e);
    SingleColon(h, p);
  }

  lemma SingleColon(h: string, p: string)
    requires ':' !in h && ':' !in p
    requires h != "" ==> h[0] != '['
    ensures BracketForm(h + [':'] + p).None?
    ensures Count(h + [':'] + p, ':') == 1
    ensures RSplitOnce(h + [':'] + p, ':') == Some((h, p))
  {
    var e := h + [':'] + p;
    assert e[0] == if h == "" then ':' else h[0];
    CountAppend(h + [':'], p, ':');
    CountAppend(h, [':'], ':');
    RSplitOnceOf(h, p, ':');
  }

  lemma EndpointHostNumber(h: string, n: nat)
    requires ':' !in h
    requires h != "" ==> !IsSpace(h[0]) && h[0] != '['
    ensures ParseEndpoint(h + ":" + NatToDigits(n)) == (Some(h), Some(n))
  {
    var d := NatToDigits(n);
    assert ':' !in d by {
      forall i | 0 <= i < |d| ensures d[i] != ':' { assert IsAsciiDigit(d[i]); }
    }
    assert IsAsciiDigit(d[|d| - 1]);
    EndpointHostPort(h, d);
    PyIntOfDigits(d);
  }

  /** A value with no colon is kept whole (stripped), without a port. */
  lemma EndpointWithoutColon(e: string)
    requires e != "" && ':' !in e
    ensures ParseEndpoint(e) == (Some(Trim(e)), None)
  {
    TrimIsInfix(e);
  }

  /** A bare IPv6 address (two or more colons, no brackets) is kept whole,
      without a port. */
  lemma EndpointManyColons(e: string)
    requires e != "" && Count(Trim(e), ':') >= 2
    requires Trim(e)[0] != '['
    ensures ParseEndpoint(e) == (Some(Trim(e)), None)
  {
  }

  // ---------------------------------------------------------------------------
  // split_list_field

  /** `split_list_field`: the stripped non-empty comma-separated items. */
  function SplitListField(s: string): (items: seq<string>)
    ensures forall i :: 0 <= i < |items| ==> items[i] != "" && Trim(items[i]) == items[i] && ',' !in items[i]
  {
    if s == "" then []
    else
      NonEmptyStrippedAvoids(Split(s, ','), ',');
      NonEmptyStripped(Split(s, ','))
  }

  predicate IsListItem(x: string) {
    x != "" && Trim(x) == x && ',' !in x
  }

  /** Joining stripped, non-empty, comma-free items with ',' and splitting
      gives them back, in order. */
  lemma SplitListJoin(items: seq<string>)
    requires forall i :: 0 <= i < |items| ==> IsListItem(items[i])
    ensures SplitListField(Join(items, ',')) == items
  {
    if items != [] {
      SplitJoin(items, ',');
      NonEmptyStrippedKeeps(items);
    }
  }

  /** Items keep their order across a comma: the list of `a,b` is that of `a`
      followed by that of `b`. */
  lemma SplitListAppend(a: string, b: string)
    ensures SplitListField(a + "," + b) == SplitListField(a) + SplitListField(b)
  {
    var ab := a + [','] + b;
    assert a + "," + b == ab;
    ListFieldOfSplit(ab);
    ListFieldOfSplit(a);
    ListFieldOfSplit(b);
    SplitAppend(a, b, ',');
    NonEmptyStrippedAppend(Split(a, ','), Split(b, ','));
  }

  /** The early return for an empty value agrees with the general case. */
  lemma ListFieldOfSplit(s: string)
    ensures SplitListField(s) == NonEmptyStripped(Split(s, ','))
  {
    if s == "" {
      assert Split("", ',') == [""];
      assert Trim("") == "";
    }
  }

  // ---------------------------------------------------------------------------
  // build_from_text: choosing the sections

  /** Section names are compared after lower-casing. */
  predicate IsInterface(sec: Section) {
    AsciiLower(sec.name) == "interface"
  }

  predicate IsPeer(sec: Section) {
    AsciiLower(sec.name) == "peer"
  }

  /** The pairs of the last section named interface, if any. */
  function InterfaceOf(secs: seq<Section>): (r: Option<map<string, string>>)
    ensures r.None? <==> forall i :: 0 <= i < |secs| ==> !IsInterface(secs[i])
    decreases |secs|
  {
    if secs == [] then None
    else
      var last := secs[|secs| - 1];
      if IsInterface(last) then Some(last.kv) else InterfaceOf(secs[..|secs| - 1])
  }

  /** The pairs of the sections named peer, in textual order. */
  function PeersOf(secs: seq<Section>): (r: seq<map<string, string>>)
    ensures |r| <= |secs|
    ensures r == [] <==> forall i :: 0 <= i < |secs| ==> !IsPeer(secs[i])
    decreases |secs|
  {
    if secs == [] then []
    else
      var last := secs[|secs| - 1];
      PeersOf(secs[..|secs| - 1]) + (if IsPeer(last) then [last.kv] else [])
  }

  /** A later interface section replaces an earlier one. */
  lemma {:induction false} LastInterfaceWins(pre: seq<Section>, sec: Section, post: seq<Section>)
    requires IsInterface(sec)
    requires forall i :: 0 <= i < |post| ==> !IsInterface(post[i])
    ensures InterfaceOf(pre + [sec] + post) == Some(sec.kv)
    decreases |post|
  {
    if post == [] {
      assert pre + [sec] + post == pre + [sec];
      Seqs.InitOfSnoc(pre, sec);
    } else {
      var init, last := post[..|post| - 1], post[|post| - 1];
      forall i | 0 <= i < |init| ensures !IsInterface(init[i]) {
        assert init[i] == post[i];
      }
      LastInterfaceWins(pre, sec, init);
      Seqs.Snoc(post);
      Seqs.AppendAssoc(pre + [sec], init, [last]);
      Seqs.InitOfSnoc(pre + [sec] + init, last);
    }
  }

  lemma PeersOfSnoc(xs: seq<Section>, y: Section)
    ensures PeersOf(xs + [y]) == PeersOf(xs) + (if IsPeer(y) then [y.kv] else [])
  {
    Seqs.InitOfSnoc(xs, y);
  }

  /** Peers keep their textual order: the peers of a concatenation are those
      of each part, one after the other. */
  lemma {:induction false} PeersOfAppend(xs: seq<Section>, ys: seq<Section>)
    ensures PeersOf(xs + ys) == PeersOf(xs) + PeersOf(ys)
    decreases |ys|
  {
    if ys == [] {
      assert xs + ys == xs;
    } else {
      var init, y := ys[..|ys| - 1], ys[|ys| - 1];
      PeersOfAppend(xs, init);
      Seqs.Snoc(ys);
      Seqs.AppendAssoc(xs, init, [y]);
      PeersOfSnoc(xs + init, y);
      PeersOfSnoc(init, y);
      Seqs.AppendAssoc(PeersOf(xs), PeersOf(init), if IsPeer(y) then [y.kv] else []);
    }
  }

  // ---------------------------------------------------------------------------
  // build_from_text: the objects

  /** `kv.get(k) or ""`. */
  function Lookup(kv: map<string, string>, k: string): string {
    if k in kv then kv[k] else ""
  }

  /** `x or ""` for an optional string. */
  function OrEmpty(x: Option<string>): (r: string)
    ensures x.Some? ==> r == x.value
    ensures x.None? ==> r == ""
  {
    match x
    case Some(s) => s
    case None => ""
  }

  /** `x or None` for an optional integer: zero is falsy. */
  function NonZero(x: Option<int>): (r: Option<int>)
    ensures r.Some? ==> r.value != 0 && x == r
    ensures x.Some? && x.value != 0 ==> r == x
  {
    if x == Some(0) then None else x
  }

  /** Best-effort int(): None for an absent or empty value and for one int()
      rejects. */
  function OptionalInt(kv: map<string, string>, k: string): (r: Option<int>)
    ensures r.Some? ==> k in kv && PyInt(kv[k]) == r
    ensures k in kv && kv[k] != "" ==> r == PyInt(kv[k])
  {
    if Lookup(kv, k) != "" then PyInt(Lookup(kv, k)) else None
  }

  /** One entry of `parsed_peers`. */
  datatype ParsedPeer = ParsedPeer(
    publicKey: string,
    allowedIps: seq<string>,
    endpointHost: Option<string>,
    endpointPort: Option<int>,
    preSharedKey: Option<string>,
    keepalive: Option<int>)

  /** The pre-shared key under either spelling, the first one preferred. */
  function PresharedKey(kv: map<string, string>): (r: Option<string>)
    ensures Lookup(kv, "PresharedKey") != "" ==> r == Some(kv["PresharedKey"])
    ensures Lookup(kv, "PresharedKey") == "" && Lookup(kv, "PreSharedKey") != "" ==> r == Some(kv["PreSharedKey"])
    ensures Lookup(kv, "PresharedKey") == "" && Lookup(kv, "PreSharedKey") == "" ==> r.None?
  {
    if Lookup(kv, "PresharedKey") != "" then Some(Lookup(kv, "PresharedKey"))
    else if Lookup(kv, "PreSharedKey") != "" then Some(Lookup(kv, "PreSharedKey"))
    else None
  }

  function ParsePeer(kv: map<string, string>): (r: ParsedPeer)
    ensures r.endpointHost.None? <==> Lookup(kv, "Endpoint") == ""
    ensures r.endpointPort.Some? ==> r.endpointHost.Some?
    ensures forall i :: 0 <= i < |r.allowedIps| ==> IsListItem(r.allowedIps[i])
    ensures r.keepalive.Some? ==> "PersistentKeepalive" in kv && PyInt(kv["PersistentKeepalive"]) == r.keepalive
    ensures Lookup(kv, "PersistentKeepalive") != "" ==> r.keepalive == PyInt(kv["PersistentKeepalive"])
    ensures r.publicKey == Lookup(kv, "PublicKey") && r.preSharedKey == PresharedKey(kv)
    ensures Lookup(kv, "Endpoint") != "" ==> (r.endpointHost, r.endpointPort) == ParseEndpoint(kv["Endpoint"])
  {
    var endpoint := Lookup(kv, "Endpoint");
    var (host, port) := if endpoint != "" then ParseEndpoint(endpoint) else (None, None);
    ParsedPeer(
      Lookup(kv, "PublicKey"),
      SplitListField(Lookup(kv, "AllowedIPs")),
      host, port,
      PresharedKey(kv),
      OptionalInt(kv, "PersistentKeepalive"))
  }

  const Reserved: seq<int> := [0, 0, 0]

  datatype EndpointPeer = EndpointPeer(
    address: string,
    port: Option<int>,
    publicKey: string,
    preSharedKey: string,
    allowedIps: seq<string>,
    keepalive: int,
    reserved: seq<int>)

  /** The sing-box "endpoint" object (`type` is `kind`). */
  datatype Endpoint = Endpoint(
    kind: string,
    tag: string,
    system: bool,
    name: string,
    mtu: Option<int>,
    address: seq<string>,
    privateKey: string,
    listenPort: Option<int>,
    peers: seq<EndpointPeer>)

  datatype OutboundPeer = OutboundPeer(
    server: string,
    serverPort: Option<int>,
    publicKey: string,
    preSharedKey: string,
    allowedIps: seq<string>,
    reserved: seq<int>)

  /** The sing-box "outbound" object (`type` is `kind`). */
  datatype Outbound = Outbound(
    kind: string,
    tag: string,
    server: Option<string>,
    serverPort: Option<int>,
    systemInterface: bool,
    interfaceName: string,
    localAddress: seq<string>,
    privateKey: string,
    peers: seq<OutboundPeer>)

  /** The dictionary build_from_text returns. */
  datatype ThroneExport = ThroneExport(
    raw: string,
    base64: string,
    endpoint: Endpoint,
    outbound: Outbound,
    outboundsArray: seq<Outbound>)

  function ToEndpointPeer(pp: ParsedPeer): (r: EndpointPeer)
    ensures r.reserved == Reserved
    ensures r.port.Some? ==> r.port.value != 0
    ensures pp.endpointPort.Some? && pp.endpointPort.value != 0 ==> r.port == pp.endpointPort
    ensures r.preSharedKey == (if pp.preSharedKey.Some? then pp.preSharedKey.value else "")
    ensures r.keepalive == (if pp.keepalive.Some? then pp.keepalive.value else 0)
  {
    EndpointPeer(OrEmpty(pp.endpointHost), NonZero(pp.endpointPort), pp.publicKey,
                 OrEmpty(pp.preSharedKey), pp.allowedIps, pp.keepalive.GetOr(0), Reserved)
  }

  function ToOutboundPeer(pp: ParsedPeer): (r: OutboundPeer)
    ensures r.reserved == Reserved
    ensures r.serverPort.Some? ==> r.serverPort.value != 0
    ensures pp.endpointPort.Some? && pp.endpointPort.value != 0 ==> r.serverPort == pp.endpointPort
    ensures r.preSharedKey == (if pp.preSharedKey.Some? then pp.preSharedKey.value else "")
  {
    OutboundPeer(OrEmpty(pp.endpointHost), NonZero(pp.endpointPort), pp.publicKey,
                 OrEmpty(pp.preSharedKey), pp.allowedIps, Reserved)
  }

  /** The endpoint object before its peers are added. */
  function EndpointShell(tag: string, kv: map<string, string>): Endpoint {
    Endpoint("wireguard", tag + "-endpoint", false, "", NonZero(OptionalInt(kv, "MTU")),
             SplitListField(Lookup(kv, "Address")), Lookup(kv, "PrivateKey"), None, [])
  }

  /** The outbound object before its server and peers are filled in. */
  function OutboundShell(tag: string, kv: map<string, string>): Outbound {
    Outbound("wireguard", tag + "-outbound", None, None, false, "",
             SplitListField(Lookup(kv, "Address")), Lookup(kv, "PrivateKey"), [])
  }

  /** The server fields come from the first peer, each only when it is truthy. */
  function WithFirstServer(o: Outbound, parsed: seq<ParsedPeer>): (r: Outbound)
    ensures r.(server := o.server, serverPort := o.serverPort) == o
    ensures parsed != [] && parsed[0].endpointHost.Some? && parsed[0].endpointHost.value != "" ==>
      r.server == parsed[0].endpointHost
    ensures parsed == [] || parsed[0].endpointHost.None? || parsed[0].endpointHost.value == "" ==>
      r.server == o.server
    ensures parsed != [] && parsed[0].endpointPort.Some? && parsed[0].endpointPort.value != 0 ==>
      r.serverPort == parsed[0].endpointPort
    ensures parsed == [] || parsed[0].endpointPort.None? || parsed[0].endpointPort.value == 0 ==>
      r.serverPort == o.serverPort
  {
    if parsed == [] then o
    else
      var first := parsed[0];
      var o1 := if OrEmpty(first.endpointHost) != "" then o.(server := first.endpointHost) else o;
      if NonZero(first.endpointPort).Some? then o1.(serverPort := first.endpointPort) else o1
  }

  /** The endpoint object: fixed fields, the interface's fields, one peer entry
      per parsed peer in order. */
  function EndpointOf(tag: string, kv: map<string, string>, parsed: seq<ParsedPeer>): (r: Endpoint)
    ensures r.kind == "wireguard" && r.tag == tag + "-endpoint"
    ensures !r.system && r.listenPort.None? && r.name == ""
    ensures r.mtu.Some? ==> r.mtu.value != 0 && "MTU" in kv && r.mtu == PyInt(kv["MTU"])
    ensures "MTU" in kv && PyInt(kv["MTU"]).Some? && PyInt(kv["MTU"]).value != 0 ==> r.mtu == PyInt(kv["MTU"])
    ensures r.address == SplitListField(Lookup(kv, "Address")) && r.privateKey == Lookup(kv, "PrivateKey")
    ensures |r.peers| == |parsed|
    ensures forall i :: 0 <= i < |parsed| ==> r.peers[i] == ToEndpointPeer(parsed[i])
  {
    EndpointShell(tag, kv).(peers := Seqs.Map(ToEndpointPeer, parsed))
  }

  /** The outbound object: server and port are those of the first peer's
      entry, present only when that entry has them. */
  function OutboundOf(tag: string, kv: map<string, string>, parsed: seq<ParsedPeer>): (r: Outbound)
    ensures r.kind == "wireguard" && r.tag == tag + "-outbound"
    ensures !r.systemInterface && r.interfaceName == ""
    ensures r.localAddress == SplitListField(Lookup(kv, "Address")) && r.privateKey == Lookup(kv, "PrivateKey")
    ensures |r.peers| == |parsed|
    ensures forall i :: 0 <= i < |parsed| ==> r.peers[i] == ToOutboundPeer(parsed[i])
    ensures r.server.Some? <==> |parsed| > 0 && r.peers[0].server != ""
    ensures r.server.Some? ==> r.server.value == r.peers[0].server
    ensures r.serverPort.Some? <==> |parsed| > 0 && r.peers[0].serverPort.Some?
    ensures r.serverPort.Some? ==> r.serverPort == r.peers[0].serverPort
  {
    WithFirstServer(OutboundShell(tag, kv), parsed).(peers := Seqs.Map(ToOutboundPeer, parsed))
  }

  /** The two peer entries made from one parsed peer agree. */
  lemma PeerEntriesAgree(pp: ParsedPeer)
    ensures ToEndpointPeer(pp).address == ToOutboundPeer(pp).server == OrEmpty(pp.endpointHost)
    ensures ToEndpointPeer(pp).port == ToOutboundPeer(pp).serverPort
    ensures ToEndpointPeer(pp).publicKey == ToOutboundPeer(pp).publicKey == pp.publicKey
    ensures ToEndpointPeer(pp).preSharedKey == ToOutboundPeer(pp).preSharedKey
    ensures ToEndpointPeer(pp).allowedIps == ToOutboundPeer(pp).allowedIps == pp.allowedIps
  {
  }

  /** `base64.b64encode(text.encode('utf-8')).decode('ascii')`. */
  function TextBase64(text: string): (s: string)
    ensures Base64.Decode(Base64.Standard, s) == Some(Utf8.Encode(text))
    ensures |s| % 4 == 0
  {
    Base64.DecodeEncode(Base64.Standard, Utf8.Encode(text));
    Base64.EncodeQuanta(Base64.Standard, Utf8.Encode(text));
    Base64.Encode(Base64.Standard, Utf8.Encode(text))
  }

  /** The export for a chosen interface section and the parsed peers. */
  function Assemble(text: string, tag: string, kv: map<string, string>, parsed: seq<ParsedPeer>): (r: ThroneExport)
    ensures r.raw == text
    ensures r.outboundsArray == [r.outbound]
    ensures r.endpoint.address == r.outbound.localAddress && r.endpoint.privateKey == r.outbound.privateKey
  {
    var outbound := OutboundOf(tag, kv, parsed);
    ThroneExport(text, TextBase64(text), EndpointOf(tag, kv, parsed), outbound, [outbound])
  }

  /** The raw text can be read back from the Base 64 field. */
  lemma RawFromBase64(text: string, tag: string, kv: map<string, string>, parsed: seq<ParsedPeer>)
    ensures Base64.Decode(Base64.Standard, Assemble(text, tag, kv, parsed).base64) == Some(Utf8.Encode(text))
    ensures Utf8.Decode(Utf8.Encode(text)) == Some(text)
  {
    Utf8.DecodeEncode(text);
  }

  /** What build_from_text returns for a text, or the error it raises. */
  function ThroneOf(text: string, tag: string): (r: Result<ThroneExport>)
    ensures var secs := SectionsOf(SplitLines(text));
      r.Err? <==> forall i :: 0 <= i < |secs| ==> !IsInterface(secs[i]) && !IsPeer(secs[i])
    ensures r.Err? ==> r.error == NoSections
    ensures r.Ok? ==> |r.value.endpoint.peers| == |PeersOf(SectionsOf(SplitLines(text)))|
  {
    var secs := SectionsOf(SplitLines(text));
    var iface := InterfaceOf(secs);
    var peers := PeersOf(secs);
    if iface.None? && peers == [] then Err(NoSections)
    else Ok(Assemble(text, tag, iface.GetOr(map[]), Seqs.Map(ParsePeer, peers)))
  }

  lemma InterfaceOfSnoc(xs: seq<Section>, y: Section)
    ensures InterfaceOf(xs + [y]) == if IsInterface(y) then Some(y.kv) else InterfaceOf(xs)
  {
    Seqs.InitOfSnoc(xs, y);
  }

  /** The section loop of build_from_text: the last interface section and the
      peer sections in order. */
  method ChooseSections(sections: seq<Section>) returns (iface: Option<map<string, string>>, peers: seq<map<string, string>>)
    ensures iface == InterfaceOf(sections) && peers == PeersOf(sections)
  {
    iface := None;
    peers := [];
    var i := 0;
    while i < |sections|
      invariant 0 <= i <= |sections|
      invariant iface == InterfaceOf(sections[..i]) && peers == PeersOf(sections[..i])
    {
      var sec := sections[i];
      Seqs.PrefixStep(sections, i);
      InterfaceOfSnoc(sections[..i], sec);
      PeersOfSnoc(sections[..i], sec);
      if AsciiLower(sec.name) == "interface" {
        iface := Some(sec.kv);
      } else if AsciiLower(sec.name) == "peer" {
        peers := peers + [sec.kv];
      }
      i := i + 1;
    }
    assert sections[..i] == sections;
  }

  /** The loop filling `parsed_peers`. */
  method ParsePeers(peers: seq<map<string, string>>) returns (parsed: seq<ParsedPeer>)
    ensures parsed == Seqs.Map(ParsePeer, peers)
  {
    parsed := [];
    var j := 0;
    while j < |peers|
      invariant 0 <= j <= |peers|
      invariant parsed == Seqs.Map(ParsePeer, peers[..j])
    {
      Seqs.MapPrefixStep(ParsePeer, peers, j);
      parsed := parsed + [ParsePeer(peers[j])];
      j := j + 1;
    }
    assert peers[..j] == peers;
  }

  /** The endpoint object, its peers appended one by one. */
  method BuildEndpoint(tag: string, kv: map<string, string>, parsed: seq<ParsedPeer>) returns (endpoint: Endpoint)
    ensures endpoint == EndpointOf(tag, kv, parsed)
  {
    var mtu := OptionalInt(kv, "MTU");
    endpoint := Endpoint("wireguard", tag + "-endpoint", false, "", NonZero(mtu),
                         SplitListField(Lookup(kv, "Address")), Lookup(kv, "PrivateKey"), None, []);
    var j := 0;
    while j < |parsed|
      invariant 0 <= j <= |parsed|
      invariant endpoint == EndpointShell(tag, kv).(peers := Seqs.Map(ToEndpointPeer, parsed[..j]))
    {
      Seqs.MapPrefixStep(ToEndpointPeer, parsed, j);
      endpoint := endpoint.(peers := endpoint.peers + [ToEndpointPeer(parsed[j])]);
      j := j + 1;
    }
    assert parsed[..j] == parsed;
  }

  /** The outbound object: server fields from the first peer, then its peers
      appended one by one. */
  method BuildOutbound(tag: string, kv: map<string, string>, parsed: seq<ParsedPeer>) returns (outbound: Outbound)
    ensures outbound == OutboundOf(tag, kv, parsed)
  {
    outbound := Outbound("wireguard", tag + "-outbound", None, None, false, "",
                         SplitListField(Lookup(kv, "Address")), Lookup(kv, "PrivateKey"), []);
    if parsed != [] {
      var first := parsed[0];
      if OrEmpty(first.endpointHost) != "" {
        outbound := outbound.(server := first.endpointHost);
      }
      if NonZero(first.endpointPort).Some? {
        outbound := outbound.(serverPort := first.endpointPort);
      }
    }
    ghost var withServer := outbound;
    var j := 0;
    while j < |parsed|
      invariant 0 <= j <= |parsed|
      invariant withServer == WithFirstServer(OutboundShell(tag, kv), parsed)
      invariant outbound == withServer.(peers := Seqs.Map(ToOutboundPeer, parsed[..j]))
    {
      Seqs.MapPrefixStep(ToOutboundPeer, parsed, j);
      outbound := outbound.(peers := outbound.peers + [ToOutboundPeer(parsed[j])]);
      j := j + 1;
    }
    assert parsed[..j] == parsed;
  }

  /** `build_from_text`. */
  method BuildFromText(text: string, tag: string) returns (r: Result<ThroneExport>)
    ensures r == ThroneOf(text, tag)
  {
    var sections := SplitSections(text);
    var iface, peers := ChooseSections(sections);
    if iface.None? && peers == [] {
      return Err(NoSections);
    }
    var kv := iface.GetOr(map[]);
    var parsed := ParsePeers(peers);
    var endpoint := BuildEndpoint(tag, kv, parsed);
    var outbound := BuildOutbound(tag, kv, parsed);
    var outboundsArray := [outbound];
    r := Ok(ThroneExport(text, TextBase64(text), endpoint, outbound, outboundsArray));
  }
}
