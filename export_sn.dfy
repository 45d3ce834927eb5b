/**
  The "sn://wg?" share link: the compact JSON text of a parsed configuration,
  encoded as UTF-8, compressed with zlib, and written in URL-safe Base 64 with
  its '=' padding removed.  JSON serialisation and zlib are parameters of the
  model (`dumps`, `compress`); an importer's inverse needs a `decompress` that
  undoes `compress`.
*/
module ExportSn {
  import opened Wrappers
  import opened PyStr
  import Base64
  import Utf8
  import Seqs

  const Scheme: string := "sn://wg?"

  /** `to_base64url_no_pad`: URL-safe Base 64 with the trailing '=' stripped. */
  function ToBase64UrlNoPad(data: seq<byte>): (s: string)
    ensures forall i :: 0 <= i < |s| ==> Base64.InAlphabet(Base64.UrlSafe, s[i])
    ensures |s| == (4 * |data| + 2) / 3
    ensures Base64.RePad(s) == Base64.Encode(Base64.UrlSafe, data)
  {
    Base64.StripPadding(Base64.UrlSafe, data);
    Base64.RePadRestores(Base64.UrlSafe, data);
    RStrip(Base64.Encode(Base64.UrlSafe, data), IsPad)
  }

  /** Restoring the padding and decoding gives back the bytes. */
  lemma NoPadRoundTrip(data: seq<byte>)
    ensures Base64.Decode(Base64.UrlSafe, Base64.RePad(ToBase64UrlNoPad(data))) == Some(data)
  {
    Base64.DecodeEncode(Base64.UrlSafe, data);
  }

  /** Distinct byte strings get distinct unpadded encodings. */
  lemma NoPadInjective(d: seq<byte>, e: seq<byte>)
    requires ToBase64UrlNoPad(d) == ToBase64UrlNoPad(e)
    ensures d == e
  {
    NoPadRoundTrip(d);
    NoPadRoundTrip(e);
  }

  /** `build_sn_link`. */
  function BuildSnLink<J>(config: J, dumps: J -> string, compress: seq<byte> -> seq<byte>): (link: string)
    ensures |link| >= |Scheme| && link[..|Scheme|] == Scheme
    ensures '=' !in link[|Scheme|..]
    ensures |link| - |Scheme| == (4 * |compress(Utf8.Encode(dumps(config)))| + 2) / 3
  {
    var payload := ToBase64UrlNoPad(compress(Utf8.Encode(dumps(config))));
    assert forall i :: 0 <= i < |payload| ==> payload[i] != '=';
    Seqs.AppendSlices(Scheme, payload);
    Scheme + payload
  }

  /** What an importer does with a link: check the scheme, restore the padding,
      decode, decompress and read the bytes as UTF-8 text. */
  function ReadSnLink(link: string, decompress: seq<byte> -> seq<byte>): (json: Option<string>)
    ensures json.Some? ==> |link| >= |Scheme| && link[..|Scheme|] == Scheme
  {
    if |link| < |Scheme| || link[..|Scheme|] != Scheme then None
    else match Base64.Decode(Base64.UrlSafe, Base64.RePad(link[|Scheme|..]))
      case None => None
      case Some(compressed) => Utf8.Decode(decompress(compressed))
  }

  /** The link carries the exact JSON text, provided decompression undoes
      compression. */
  lemma ReadBuild<J>(config: J, dumps: J -> string, compress: seq<byte> -> seq<byte>,
                     decompress: seq<byte> -> seq<byte>)
    requires forall b :: decompress(compress(b)) == b
    ensures ReadSnLink(BuildSnLink(config, dumps, compress), decompress) == Some(dumps(config))
  {
    var bytes := Utf8.Encode(dumps(config));
    var payload := ToBase64UrlNoPad(compress(bytes));
    Seqs.AppendSlices(Scheme, payload);
    NoPadRoundTrip(compress(bytes));
    Utf8.DecodeEncode(dumps(config));
  }

  /** Two configurations share a link only if their JSON texts are equal. */
  lemma LinkInjective<J>(c1: J, c2: J, dumps: J -> string, compress: seq<byte> -> seq<byte>,
                         decompress: seq<byte> -> seq<byte>)
    requires forall b :: decompress(compress(b)) == b
    requires BuildSnLink(c1, dumps, compress) == BuildSnLink(c2, dumps, compress)
    ensures dumps(c1) == dumps(c2)
  {
    ReadBuild(c1, dumps, compress, decompress);
    ReadBuild(c2, dumps, compress, decompress);
  }
}
