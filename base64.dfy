/**
  Base 64 encoding as RFC 4648 defines it: the standard alphabet of its
  section 4 (`base64.b64encode`) and the URL- and filename-safe alphabet of its
  section 5 (`base64.urlsafe_b64encode`), with '=' padding.  The decoder is the
  inverse the round-trip lemmas are stated with.
*/
module Base64 {
  import opened Wrappers
  import opened PyStr
  import Seqs

  datatype Alphabet = Standard | UrlSafe

  /** The character that encodes the 6-bit value `v`. */
  function SextetChar(a: Alphabet, v: nat): (c: char)
    requires v < 64
    ensures c != '='
  {
    if v < 26 then ('A' as int + v) as char
    else if v < 52 then ('a' as int + (v - 26)) as char
    else if v < 62 then ('0' as int + (v - 52)) as char
    else if v == 62 then (if a == Standard then '+' else '-')
    else (if a == Standard then '/' else '_')
  }

  /** The 6-bit value a character encodes; None outside the alphabet. */
  function SextetValue(a: Alphabet, c: char): (r: Option<nat>)
    ensures r.Some? ==> r.value < 64
  {
    if 'A' <= c <= 'Z' then Some(c as int - 'A' as int)
    else if 'a' <= c <= 'z' then Some(c as int - 'a' as int + 26)
    else if '0' <= c <= '9' then Some(c as int - '0' as int + 52)
    else if c == (if a == Standard then '+' else '-') then Some(62)
    else if c == (if a == Standard then '/' else '_') then Some(63)
    else None
  }

  predicate InAlphabet(a: Alphabet, c: char) {
    SextetValue(a, c).Some?
  }

  lemma SextetRoundTrip(a: Alphabet, v: nat)
    requires v < 64
    ensures SextetValue(a, SextetChar(a, v)) == Some(v)
  {
  }

  /** The characters of one input group of one to three bytes, before padding:
      one more character than there are bytes. */
  function Group(a: Alphabet, g: seq<byte>): (s: string)
    requires 1 <= |g| <= 3
    ensures |s| == |g| + 1
    ensures forall i :: 0 <= i < |s| ==> InAlphabet(a, s[i])
  {
    var b0 := g[0] as int;
    var b1 := if |g| > 1 then g[1] as int else 0;
    var b2 := if |g| > 2 then g[2] as int else 0;
    SextetRoundTrip(a, b0 / 4);
    SextetRoundTrip(a, b0 % 4 * 16 + b1 / 16);
    SextetRoundTrip(a, b1 % 16 * 4 + b2 / 64);
    SextetRoundTrip(a, b2 % 64);
    var chars := [SextetChar(a, b0 / 4), SextetChar(a, b0 % 4 * 16 + b1 / 16),
                  SextetChar(a, b1 % 16 * 4 + b2 / 64), SextetChar(a, b2 % 64)];
    chars[..|g| + 1]
  }

  /** The encoded characters without padding. */
  function Unpadded(a: Alphabet, d: seq<byte>): (s: string)
    ensures |s| == 4 * (|d| / 3) + (if |d| % 3 == 0 then 0 else |d| % 3 + 1)
    ensures forall i :: 0 <= i < |s| ==> InAlphabet(a, s[i])
    decreases |d|
  {
    if d == [] then ""
    else
      var n := if |d| < 3 then |d| else 3;
      Group(a, d[..n]) + Unpadded(a, d[n..])
  }

  /** The '=' characters that complete the last group of an `n`-byte input. */
  function Padding(n: nat): string {
    if n % 3 == 1 then "==" else if n % 3 == 2 then "=" else ""
  }

  /** Padded base 64 of `d`: its length is a multiple of four, every character is
      in the alphabet except at most two '=' at the end. */
  function Encode(a: Alphabet, d: seq<byte>): (s: string)
    ensures |s| == 4 * ((|d| + 2) / 3)
    ensures forall i :: 0 <= i < |s| ==> InAlphabet(a, s[i]) || (s[i] == '=' && i >= |s| - 2)
    ensures forall i, j :: 0 <= i <= j < |s| && s[i] == '=' ==> s[j] == '='
  {
    Unpadded(a, d) + Padding(|d|)
  }

  /** The value of one encoded quantum of four characters; a quantum with '='
      padding is only accepted as the last one. */
  function DecodeQuantum(a: Alphabet, q: string, last: bool): Option<seq<byte>>
    requires |q| == 4
  {
    var v0 := SextetValue(a, q[0]);
    var v1 := SextetValue(a, q[1]);
    var v2 := SextetValue(a, q[2]);
    var v3 := SextetValue(a, q[3]);
    if v0.None? || v1.None? then None
    else
      var b0 := (v0.value * 4 + v1.value / 16) as byte;
      if q[2] == '=' && q[3] == '=' then (if last then Some([b0]) else None)
      else if v2.None? then None
      else
        var b1 := (v1.value % 16 * 16 + v2.value / 4) as byte;
        if q[3] == '=' then (if last then Some([b0, b1]) else None)
        else if v3.None? then None
        else Some([b0, b1, (v2.value % 4 * 64 + v3.value) as byte])
  }

  /** Strict decoding of padded base 64. */
  function Decode(a: Alphabet, s: string): Option<seq<byte>>
    decreases |s|
  {
    if s == [] then Some([])
    else if |s| < 4 then None
    else match DecodeQuantum(a, s[..4], |s| == 4)
      case None => None
      case Some(g) =>
        match Decode(a, s[4..])
        case None => None
        case Some(rest) => Some(g + rest)
  }

  /** The bit arithmetic of one quantum: the four sextets carry the three bytes. */
  lemma SextetsCarryBytes(b0: int, b1: int, b2: int)
    requires 0 <= b0 < 256 && 0 <= b1 < 256 && 0 <= b2 < 256
    ensures (b0 % 4 * 16 + b1 / 16) / 16 == b0 % 4
    ensures (b0 % 4 * 16 + b1 / 16) % 16 == b1 / 16
    ensures (b1 % 16 * 4 + b2 / 64) / 4 == b1 % 16
    ensures (b1 % 16 * 4 + b2 / 64) % 4 == b2 / 64
  {
  }

  lemma DecodeGroup1(a: Alphabet, x: byte)
    ensures DecodeQuantum(a, Group(a, [x]) + "==", true) == Some([x])
  {
    var b0 := x as int;
    var v0, v1 := b0 / 4, b0 % 4 * 16;
    SextetsCarryBytes(b0, 0, 0);
    SextetRoundTrip(a, v0);
    SextetRoundTrip(a, v1);
    assert Group(a, [x]) + "==" == [SextetChar(a, v0), SextetChar(a, v1), '=', '='];
    assert v0 * 4 + v1 / 16 == b0;
  }

  lemma DecodeGroup2(a: Alphabet, x: byte, y: byte)
    ensures DecodeQuantum(a, Group(a, [x, y]) + "=", true) == Some([x, y])
  {
    var b0, b1 := x as int, y as int;
    var v0, v1, v2 := b0 / 4, b0 % 4 * 16 + b1 / 16, b1 % 16 * 4;
    SextetsCarryBytes(b0, b1, 0);
    SextetRoundTrip(a, v0);
    SextetRoundTrip(a, v1);
    SextetRoundTrip(a, v2);
    assert Group(a, [x, y]) + "=" == [SextetChar(a, v0), SextetChar(a, v1), SextetChar(a, v2), '='];
    assert v0 * 4 + v1 / 16 == b0;
    assert v1 % 16 * 16 + v2 / 4 == b1;
  }

  lemma DecodeGroup3(a: Alphabet, x: byte, y: byte, z: byte, last: bool)
    ensures DecodeQuantum(a, Group(a, [x, y, z]), last) == Some([x, y, z])
  {
    var b0, b1, b2 := x as int, y as int, z as int;
    var v0, v1, v2, v3 := b0 / 4, b0 % 4 * 16 + b1 / 16, b1 % 16 * 4 + b2 / 64, b2 % 64;
    SextetsCarryBytes(b0, b1, b2);
    SextetRoundTrip(a, v0);
    SextetRoundTrip(a, v1);
    SextetRoundTrip(a, v2);
    SextetRoundTrip(a, v3);
    GroupOf3(a, x, y, z);
    assert v0 * 4 + v1 / 16 == b0;
    assert v1 % 16 * 16 + v2 / 4 == b1;
    assert v2 % 4 * 64 + v3 == b2;
  }

  lemma GroupOf3(a: Alphabet, x: byte, y: byte, z: byte)
    ensures Group(a, [x, y, z]) == [SextetChar(a, x as int / 4), SextetChar(a, x as int % 4 * 16 + y as int / 16),
                                    SextetChar(a, y as int % 16 * 4 + z as int / 64), SextetChar(a, z as int % 64)]
  {
  }

  lemma DecodeGroup(a: Alphabet, g: seq<byte>, last: bool)
    requires 1 <= |g| <= 3
    requires |g| < 3 ==> last
    ensures DecodeQuantum(a, Group(a, g) + Padding(|g|), last) == Some(g)
  {
    if |g| == 1 {
      assert g == [g[0]];
      DecodeGroup1(a, g[0]);
    } else if |g| == 2 {
      assert g == [g[0], g[1]];
      DecodeGroup2(a, g[0], g[1]);
    } else {
      assert g == [g[0], g[1], g[2]];
      assert Group(a, g) + Padding(3) == Group(a, g);
      DecodeGroup3(a, g[0], g[1], g[2], last);
    }
  }

  /** A full leading group is encoded on its own, ahead of the rest. */
  lemma EncodeFirstGroup(a: Alphabet, d: seq<byte>)
    requires |d| >= 3
    ensures Encode(a, d) == Group(a, d[..3]) + Encode(a, d[3..])
  {
    assert Padding(|d|) == Padding(|d| - 3);
  }

  /** Decoding inverts encoding, for both alphabets. */
  lemma {:induction false} DecodeEncode(a: Alphabet, d: seq<byte>)
    ensures Decode(a, Encode(a, d)) == Some(d)
    decreases |d|
  {
    if 0 < |d| < 3 {
      DecodeEncodeShort(a, d);
    } else if |d| >= 3 {
      DecodeEncode(a, d[3..]);
      DecodeEncodeStep(a, d);
    }
  }

  /** A final partial group decodes to its bytes. */
  lemma DecodeEncodeShort(a: Alphabet, d: seq<byte>)
    requires 0 < |d| < 3
    ensures Decode(a, Encode(a, d)) == Some(d)
  {
    var s := Encode(a, d);
    assert s == Group(a, d) + Padding(|d|);
    DecodeGroup(a, d, true);
    Seqs.WholeSlice(s);
    Seqs.WholeSlice(d);
  }

  /** A full leading group decodes ahead of the rest. */
  lemma DecodeEncodeStep(a: Alphabet, d: seq<byte>)
    requires |d| >= 3
    requires Decode(a, Encode(a, d[3..])) == Some(d[3..])
    ensures Decode(a, Encode(a, d)) == Some(d)
  {
    var g, rest := d[..3], d[3..];
    EncodeFirstGroup(a, d);
    DecodeGroup(a, g, |rest| == 0);
    Seqs.WholeSlice(Group(a, g));
    Seqs.AppendSlices(Group(a, g), Encode(a, rest));
    Seqs.SplitAt(d, 3);
  }

  lemma EncodeInjective(a: Alphabet, d: seq<byte>, e: seq<byte>)
    requires Encode(a, d) == Encode(a, e)
    ensures d == e
  {
    DecodeEncode(a, d);
    DecodeEncode(a, e);
  }

  /** Appends '=' until the length is a multiple of four. */
  function RePad(s: string): string {
    s + (if |s| % 4 == 2 then "==" else if |s| % 4 == 3 then "=" else if |s| % 4 == 1 then "===" else "")
  }

  /** Dropping trailing '=' from the padded encoding leaves the unpadded characters. */
  lemma StripPadding(a: Alphabet, d: seq<byte>)
    ensures RStrip(Encode(a, d), IsPad) == Unpadded(a, d)
  {
    var u := Unpadded(a, d);
    var p := Padding(|d|);
    assert AllSatisfy(p, IsPad);
    assert u != [] ==> !IsPad(u[|u| - 1]) by {
      if u != [] {
        assert InAlphabet(a, u[|u| - 1]);
      }
    }
    RStripOfSuffix(u, p, IsPad);
  }

  /** Re-padding the unpadded characters to a multiple of four restores the padded encoding. */
  lemma RePadRestores(a: Alphabet, d: seq<byte>)
    ensures RePad(Unpadded(a, d)) == Encode(a, d)
  {
    var q, r := |d| / 3, |d| % 3;
    var x := if r == 0 then 0 else r + 1;
    assert |Unpadded(a, d)| == 4 * q + x;
    Mod4(q, x);
  }

  /** The padded encoding is made of whole quanta of four characters. */
  lemma EncodeQuanta(a: Alphabet, d: seq<byte>)
    ensures |Encode(a, d)| % 4 == 0
  {
    Mod4((|d| + 2) / 3, 0);
  }

  lemma Mod4(q: int, x: int)
    requires 0 <= x < 4
    ensures (4 * q + x) % 4 == x
  {
  }
}
